/** The assurance ladder: dragging a rung, and adding a password + code rung. */
module AssuranceLadder {
  import opened FreshNames
  import opened Texts

  datatype Level = Level(value: string, amr: seq<string>)

  datatype Policy = Policy(amrInIdToken: bool, levels: seq<Level>)

  // ----- splicing -----

  function Inserted<T>(s: seq<T>, i: int, x: T): seq<T>
    requires 0 <= i <= |s|
  {
    s[..i] + [x] + s[i..]
  }

  lemma InsertThenRemove<T>(s: seq<T>, i: int, x: T)
    requires 0 <= i <= |s|
    ensures Without(Inserted(s, i, x), i) == s && Inserted(s, i, x)[i] == x
    ensures multiset(Inserted(s, i, x)) == multiset(s) + multiset{x}
  {
    assert s[..i] + s[i..] == s;
  }

  lemma InsertedIs<T>(s: seq<T>, i: int, x: T)
    requires 0 <= i <= |s|
    ensures var r := Inserted(s, i, x);
            && |r| == |s| + 1 && r[i] == x && (i < |s| ==> r[i + 1] == s[i])
            && forall k :: 0 <= k < i ==> r[k] == s[k]
  {
  }

  lemma RemoveThenInsert<T>(s: seq<T>, i: int)
    requires 0 <= i < |s|
    ensures Inserted(Without(s, i), i, s[i]) == s
  {
  }

  // ----- moving a rung -----

  predicate Moves<T>(s: seq<T>, from: int, to: int) {
    from != to && 0 <= from < |s| && 0 <= to < |s|
  }

  /** The ladder after a drag; anything out of range leaves it as it is. */
  function Moved<T>(s: seq<T>, from: int, to: int): seq<T> {
    if Moves(s, from, to) then Inserted(Without(s, from), to, s[from]) else s
  }

  method MoveLevel(levels: seq<Level>, from: int, to: int) returns (reordered: seq<Level>)
    ensures reordered == Moved(levels, from, to)
  {
    if from == to || from < 0 || to < 0 || from >= |levels| || to >= |levels| {
      return levels;
    }
    reordered := levels;
    var moved := reordered[from];
    reordered := reordered[..from] + reordered[from + 1..];
    reordered := reordered[..to] + [moved] + reordered[to..];
  }

  /** The moved rung is at the target, all others keep their order, and the move
      back restores the ladder, for every pair of indices. */
  lemma MoveIs<T>(s: seq<T>, from: int, to: int)
    ensures var r := Moved(s, from, to);
            && |r| == |s| && multiset(r) == multiset(s) && Moved(r, to, from) == s
            && (Moves(s, from, to) ==> r[to] == s[from] && Without(r, to) == Without(s, from))
            && (!Moves(s, from, to) ==> r == s)
  {
    if Moves(s, from, to) {
      var rest := Without(s, from);
      InsertThenRemove(rest, to, s[from]);
      InsertThenRemove(rest, from, s[from]);
      RemoveThenInsert(s, from);
    }
  }

  /** Where each rung ends up. */
  lemma MovePosition<T>(s: seq<T>, from: int, to: int, i: int)
    requires Moves(s, from, to) && 0 <= i < |s|
    ensures s[i] == Moved(s, from, to)[if i == from then to
                                       else if from < i <= to then i - 1
                                       else if to <= i < from then i + 1 else i]
  {
  }

  ghost function Drags<T>(s: seq<T>, moves: seq<(int, int)>): seq<T>
    decreases |moves|
  {
    if moves == [] then s else Drags(Moved(s, moves[0].0, moves[0].1), moves[1..])
  }

  function Reversed(moves: seq<(int, int)>): seq<(int, int)> {
    if moves == [] then [] else Reversed(moves[1..]) + [(moves[0].1, moves[0].0)]
  }

  lemma {:induction false} DragsJoin<T>(s: seq<T>, first: seq<(int, int)>, second: seq<(int, int)>)
    ensures Drags(s, first + second) == Drags(Drags(s, first), second)
    decreases |first|
  {
    if first == [] {
      assert first + second == second;
    } else {
      assert (first + second)[1..] == first[1..] + second;
      DragsJoin(Moved(s, first[0].0, first[0].1), first[1..], second);
    }
  }

  /** Any sequence of drags conserves the rungs and is undone by dragging back. */
  lemma {:induction false} DragsConserve<T>(s: seq<T>, moves: seq<(int, int)>)
    ensures |Drags(s, moves)| == |s| && multiset(Drags(s, moves)) == multiset(s)
    ensures Drags(Drags(s, moves), Reversed(moves)) == s
    decreases |moves|
  {
    if moves != [] {
      var (from, to) := moves[0];
      var next := Moved(s, from, to);
      MoveIs(s, from, to);
      DragsConserve(next, moves[1..]);
      DragsJoin(Drags(s, moves), Reversed(moves[1..]), [(to, from)]);
      assert Drags(next, [(to, from)]) == Drags(Moved(next, to, from), []) by {
        assert [(to, from)][1..] == [];
      }
    }
  }

  // ----- adding the code rung -----

  const LIMIT := 32
  const BASE := "urn:asterius:acr:pwd-otp"

  /** The names tried: the base, then the base with suffix 2, 3 and so on. */
  function Name(k: nat): string {
    if k == 0 then BASE else BASE + "-" + FreshNames.Decimal(k + 1)
  }

  lemma NamesInjective()
    ensures Injective(Name)
  {
    forall i: nat, j: nat | Name(i) == Name(j) ensures i == j {
      if i > 0 && j > 0 {
        assert Name(i)[|BASE| + 1..] == Decimal(i + 1) && Name(j)[|BASE| + 1..] == Decimal(j + 1);
        DecimalInjective(i + 1, j + 1);
      } else {
        assert i > 0 ==> |Name(i)| > |BASE|;
        assert j > 0 ==> |Name(j)| > |BASE|;
      }
    }
  }

  predicate HasCode(levels: seq<Level>) {
    exists i :: 0 <= i < |levels| && "otp" in levels[i].amr
  }

  predicate IsPasskey(level: Level) { "swk" in level.amr }

  /** The first passkey rung, or the end. */
  function FirstPasskey(levels: seq<Level>): (p: nat)
    ensures p <= |levels| && (p < |levels| ==> IsPasskey(levels[p]))
    ensures forall i :: 0 <= i < p ==> !IsPasskey(levels[i])
  {
    if levels == [] || IsPasskey(levels[0]) then 0 else 1 + FirstPasskey(levels[1..])
  }

  function Values(levels: seq<Level>): set<string> {
    set i | 0 <= i < |levels| :: levels[i].value
  }

  predicate DistinctValues(levels: seq<Level>) {
    forall i, j :: 0 <= i < j < |levels| ==> levels[i].value != levels[j].value
  }

  method EnableAuthenticator(policy: Policy) returns (r: Policy)
    ensures HasCode(policy.levels) || |policy.levels| >= 32 ==> r == policy
    ensures !HasCode(policy.levels) && |policy.levels| < 32 ==>
              exists k: nat :: FirstFree(Name, Values(policy.levels), k) &&
                r == policy.(levels := Inserted(policy.levels, FirstPasskey(policy.levels), Added(k)))
    ensures r != policy ==>
              exists at :: 0 <= at < |r.levels| && Without(r.levels, at) == policy.levels
                && r.levels[at].amr == ["pwd", "otp"] && BASE <= r.levels[at].value
                && (at < |policy.levels| ==> "swk" in policy.levels[at].amr)
                && forall i :: 0 <= i < at ==> "swk" !in policy.levels[i].amr
  {
    if (exists i :: 0 <= i < |policy.levels| && "otp" in policy.levels[i].amr) || |policy.levels| >= LIMIT {
      return policy;
    }
    NamesInjective();
    var k := FindFree(Name, Values(policy.levels));
    var at := FirstPasskey(policy.levels);
    r := policy.(levels := policy.levels[..at] + [Level(Name(k), ["pwd", "otp"])] + policy.levels[at..]);
    InsertThenRemove(policy.levels, at, Level(Name(k), ["pwd", "otp"]));
  }

  function Added(k: nat): Level { Level(Name(k), ["pwd", "otp"]) }

  lemma NameIsNew(levels: seq<Level>, k: nat, i: nat)
    requires FirstFree(Name, Values(levels), k) && i < |levels|
    ensures levels[i].value != Name(k)
  {
    assert levels[i].value in Values(levels);
  }

  lemma StaysDistinct(levels: seq<Level>, at: nat, added: Level)
    requires DistinctValues(levels) && at <= |levels|
    requires forall i :: 0 <= i < |levels| ==> levels[i].value != added.value
    ensures DistinctValues(Inserted(levels, at, added))
  {
    var next := Inserted(levels, at, added);
    forall i, j | 0 <= i < j < |next| ensures next[i].value != next[j].value {
      assert i != at ==> next[i] == levels[if i < at then i else i - 1];
      assert j != at ==> next[j] == levels[if j < at then j else j - 1];
    }
  }

  /** The rung above is still the first passkey rung. */
  lemma {:induction false} StaysBelow(levels: seq<Level>, added: Level)
    requires !IsPasskey(added)
    ensures var at := FirstPasskey(levels);
            FirstPasskey(Inserted(levels, at, added)) == if at == |levels| then |levels| + 1 else at + 1
  {
    hide IsPasskey;
    hide Inserted;
    var at := FirstPasskey(levels);
    var next := Inserted(levels, at, added);
    InsertedIs(levels, at, added);
    FirstPasskeyUnique(next, if at == |levels| then |next| else at + 1);
  }

  /** What the addition means: names stay distinct, the tenant's rungs stay in
      order, the new one is above every rung before the first passkey rung and below
      that one, the bound is kept, and asking again changes nothing. */
  lemma AdditionIs(levels: seq<Level>, k: nat)
    requires !HasCode(levels) && |levels| < LIMIT && FirstFree(Name, Values(levels), k)
    ensures var at := FirstPasskey(levels);
            var next := Inserted(levels, at, Added(k));
            && (DistinctValues(levels) ==> DistinctValues(next))
            && Without(next, at) == levels && |next| <= LIMIT && HasCode(next)
            && FirstPasskey(next) == (if at == |levels| then |levels| + 1 else at + 1)
  {
    hide Name;
    hide DistinctValues;
    var at := FirstPasskey(levels);
    InsertThenRemove(levels, at, Added(k));
    assert "otp" in Inserted(levels, at, Added(k))[at].amr;
    forall i: nat | i < |levels| ensures levels[i].value != Added(k).value {
      NameIsNew(levels, k, i);
    }
    if DistinctValues(levels) { StaysDistinct(levels, at, Added(k)); }
    assert !IsPasskey(Added(k));
    StaysBelow(levels, Added(k));
  }

  lemma {:induction false} FirstPasskeyUnique(levels: seq<Level>, p: nat)
    requires p <= |levels| && (p < |levels| ==> IsPasskey(levels[p]))
    requires forall i :: 0 <= i < p ==> !IsPasskey(levels[i])
    ensures FirstPasskey(levels) == p
  {
  }
}
