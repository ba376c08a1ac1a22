/** The change list between a saved policy and its draft, index by index and field
    by field: what it contains, and that it is enough to rebuild the draft. */
module ScopeDiff {
  import opened Texts
  import opened FreshNames
  import opened PolicyScopes

  /** One row: a whole scope, or one field of it, before and after. */
  datatype Row = Row(index: nat, field: Option<string>, before: Option<Json>, after: Option<Json>)

  function RowKey(r: Row): string {
    match r.field
    case None => Decimal(r.index)
    case Some(f) => Decimal(r.index) + "-" + f
  }

  function At(scopes: seq<Json>, i: nat): Option<Json> {
    if i < |scopes| then Some(scopes[i]) else None
  }

  // ----- scopeChanges -----

  function KeysOf(ms: Members): seq<string> {
    if ms == [] then [] else [ms[0].0] + KeysOf(ms[1..])
  }

  /** `[...new Set(keys)]`: the first occurrences, in order. */
  function Unique(keys: seq<string>): seq<string> {
    if keys == [] then []
    else
      var front, last := Unique(keys[..|keys| - 1]), keys[|keys| - 1];
      if last in front then front else front + [last]
  }

  const PROTO := "__proto__"

  /** Reading a property: an object without one of this name answers with its
      prototype, which prints as an empty object. Other inherited properties are
      functions, which do not print at all. */
  function Read(ms: Members, f: string): Option<Json> {
    if f == PROTO && Lookup(ms, f).None? then Some(Object([])) else Lookup(ms, f)
  }

  function FieldRows(i: nat, fields: seq<string>, before: Members, after: Members): seq<Row> {
    if fields == [] then []
    else
      var f := fields[0];
      (if Read(before, f) == Read(after, f) then []
       else [Row(i, Some(f), Read(before, f), Read(after, f))])
      + FieldRows(i, fields[1..], before, after)
  }

  function RowsAt(i: nat, before: Option<Json>, after: Option<Json>): seq<Row> {
    if before == after then []
    else if before.Some? && before.value.Object? && after.Some? && after.value.Object? then
      FieldRows(i, Unique(KeysOf(before.value.members) + KeysOf(after.value.members)),
                before.value.members, after.value.members)
    else [Row(i, None, before, after)]
  }

  /** The rows of the first `n` indexes. */
  function RowsUpTo(saved: seq<Json>, draft: seq<Json>, n: nat): seq<Row> {
    if n == 0 then [] else RowsUpTo(saved, draft, n - 1) + RowsAt(n - 1, At(saved, n - 1), At(draft, n - 1))
  }

  function Max(a: nat, b: nat): nat { if a < b then b else a }

  function Changes(saved: seq<Json>, draft: seq<Json>): seq<Row> {
    RowsUpTo(saved, draft, Max(|saved|, |draft|))
  }

  /** The list as the console computes it; unreadable text has no changes. */
  method ScopeChanges(baseline: string, draft: string, codec: Codec<Json>) returns (rows: seq<Row>)
    ensures Open(baseline, codec).None? || Open(draft, codec).None? ==> rows == []
    ensures Open(baseline, codec).Some? && Open(draft, codec).Some? ==>
              rows == Changes(ScopesOf(Open(baseline, codec).value), ScopesOf(Open(draft, codec).value))
  {
    var oldDoc, nextDoc := Open(baseline, codec), Open(draft, codec);
    rows := [];
    if oldDoc.None? || nextDoc.None? { return; }
    var saved, next := ScopesOf(oldDoc.value), ScopesOf(nextDoc.value);
    for i := 0 to Max(|saved|, |next|)
      invariant rows == RowsUpTo(saved, next, i)
    {
      rows := rows + RowsAt(i, At(saved, i), At(next, i));
    }
  }

  // ----- replaying rows -----

  function RowsFor(rows: seq<Row>, i: nat): seq<Row> {
    if rows == [] then []
    else (if rows[0].index == i then [rows[0]] else []) + RowsFor(rows[1..], i)
  }

  function ApplyField(ms: Members, r: Row): Members
    requires r.field.Some?
  {
    match r.after
    case None => Remove(ms, r.field.value)
    case Some(v) => Put(ms, r.field.value, v)
  }

  function ApplyFields(ms: Members, rows: seq<Row>): Members
    decreases |rows|
  {
    if rows == [] then ms
    else ApplyFields(if rows[0].field.Some? then ApplyField(ms, rows[0]) else ms, rows[1..])
  }

  /** One scope after its rows. */
  function Replayed(before: Option<Json>, rows: seq<Row>): Option<Json> {
    if rows == [] then before
    else if rows[0].field.None? then rows[0].after
    else if before.Some? && before.value.Object? then Some(Object(ApplyFields(before.value.members, rows)))
    else before
  }

  /** The scopes after all rows; an index beyond the saved ones needs a row of its own. */
  function Replay(saved: seq<Json>, rows: seq<Row>): seq<Json> {
    ReplayUpTo(saved, rows, |saved| + |rows|)
  }

  function ReplayUpTo(saved: seq<Json>, rows: seq<Row>, n: nat): seq<Json> {
    if n == 0 then []
    else
      var v := Replayed(At(saved, n - 1), RowsFor(rows, n - 1));
      ReplayUpTo(saved, rows, n - 1) + (if v.Some? then [v.value] else [])
  }

  // ----- the same up to top-level member order -----

  ghost predicate SameMembers(a: Members, b: Members) {
    forall k :: Lookup(a, k) == Lookup(b, k)
  }

  ghost predicate Same(a: Option<Json>, b: Option<Json>) {
    a == b || (a.Some? && b.Some? && a.value.Object? && b.value.Object? && SameMembers(a.value.members, b.value.members))
  }

  ghost predicate SameScopes(a: seq<Json>, b: seq<Json>) {
    |a| == |b| && forall i :: 0 <= i < |a| ==> Same(Some(a[i]), Some(b[i]))
  }

  predicate BothObjects(a: Option<Json>, b: Option<Json>) {
    a.Some? && b.Some? && a.value.Object? && b.value.Object?
  }

  /** Equal, or missing here and an empty object there. */
  predicate AlikeProto(a: Option<Json>, b: Option<Json>) {
    a == b || (a.None? && b == Some(Object([]))) || (b.None? && a == Some(Object([])))
  }

  ghost predicate AlikeMembers(a: Members, b: Members) {
    && (forall k :: k != PROTO ==> Lookup(a, k) == Lookup(b, k))
    && AlikeProto(Lookup(a, PROTO), Lookup(b, PROTO))
  }

  /** The same, but for a `__proto__` that one side lacks and the other has as `{}`. */
  ghost predicate Alike(a: Option<Json>, b: Option<Json>) {
    || a == b
    || (&& BothObjects(a, b)
        && AlikeMembers(a.value.members, b.value.members))
  }

  ghost predicate AlikeScopes(a: seq<Json>, b: seq<Json>) {
    |a| == |b| && forall i :: 0 <= i < |a| ==> Alike(Some(a[i]), Some(b[i]))
  }

  /** No saved `__proto__` is dropped, and no added one is `{}`. */
  predicate Replayable(before: Option<Json>, after: Option<Json>) {
    BothObjects(before, after) ==>
      var b, a := Lookup(before.value.members, PROTO), Lookup(after.value.members, PROTO);
      !(b.Some? && a.None?) && !(b.None? && a == Some(Object([])))
  }

  // ----- field rows -----

  lemma {:induction false} LookupKeys(ms: Members, k: string)
    ensures Lookup(ms, k).Some? <==> k in KeysOf(ms)
  {
    if ms != [] { LookupKeys(ms[1..], k); }
  }

  predicate Distinct(keys: seq<string>) {
    forall i, j :: 0 <= i < j < |keys| ==> keys[i] != keys[j]
  }

  lemma {:induction false} UniqueIs(keys: seq<string>)
    ensures Distinct(Unique(keys)) && forall k :: k in Unique(keys) <==> k in keys
  {
    if keys != [] {
      UniqueIs(keys[..|keys| - 1]);
      assert keys == keys[..|keys| - 1] + [keys[|keys| - 1]];
    }
  }

  /** Applying the rows of some fields settles exactly those fields. */
  lemma {:induction false} FieldRowsApplied(i: nat, fields: seq<string>, before: Members, after: Members,
                                            ms: Members, k: string)
    requires Distinct(fields)
    requires forall f :: f in fields ==> Lookup(ms, f) == Lookup(before, f)
    ensures Lookup(ApplyFields(ms, FieldRows(i, fields, before, after)), k) ==
            if k in fields && Read(before, k) != Read(after, k) then Read(after, k) else Lookup(ms, k)
    decreases |fields|
  {
    if fields != [] {
      var f, rest := fields[0], fields[1..];
      assert Distinct(rest) && f !in rest;
      assert k in fields <==> k == f || k in rest;
      if Read(before, f) == Read(after, f) {
        FieldRowsApplied(i, rest, before, after, ms, k);
        assert FieldRows(i, fields, before, after) == FieldRows(i, rest, before, after);
      } else {
        var row := Row(i, Some(f), Read(before, f), Read(after, f));
        var next := ApplyField(ms, row);
        forall g ensures Lookup(next, g) == if g == f then Read(after, f) else Lookup(ms, g) {
          RemoveIs(ms, f, g);
          if row.after.Some? { PutIs(ms, f, row.after.value, g); }
        }
        FieldRowsApplied(i, rest, before, after, next, k);
        var rows := FieldRows(i, fields, before, after);
        assert rows[0] == row && rows[1..] == FieldRows(i, rest, before, after);
      }
    }
  }

  lemma {:induction false} FieldRowsShape(i: nat, fields: seq<string>, before: Members, after: Members)
    ensures var rows := FieldRows(i, fields, before, after);
            && (forall r :: r in rows ==> r.index == i && r.field.Some? && r.field.value in fields)
            && (rows == [] <==> forall f :: f in fields ==> Read(before, f) == Read(after, f))
  {
    if fields != [] {
      FieldRowsShape(i, fields[1..], before, after);
      assert forall f :: f in fields <==> f == fields[0] || f in fields[1..];
    }
  }

  ghost predicate ReadAlike(b: Members, a: Members) {
    forall k :: Read(b, k) == Read(a, k)
  }

  /** Agreement on every property as it is read. */
  lemma ReadAlikeIs(b: Members, a: Members)
    ensures ReadAlike(b, a) <==> AlikeMembers(b, a)
  {
    hide Lookup;
    if ReadAlike(b, a) {
      forall k | k != PROTO ensures Lookup(b, k) == Lookup(a, k) { assert Read(b, k) == Read(a, k); }
      assert Read(b, PROTO) == Read(a, PROTO);
    }
    if AlikeMembers(b, a) {
      forall k ensures Read(b, k) == Read(a, k) {
        if k != PROTO { assert Lookup(b, k) == Lookup(a, k); }
      }
    }
  }

  lemma {:induction false} ObjectRows(i: nat, b: Members, a: Members)
    ensures var rows := FieldRows(i, Unique(KeysOf(b) + KeysOf(a)), b, a);
            && (forall r :: r in rows ==> r.index == i && r.field.Some?)
            && (rows == [] <==> ReadAlike(b, a))
            && forall k :: Lookup(ApplyFields(b, rows), k) ==
                           if Read(b, k) != Read(a, k) then Read(a, k) else Lookup(b, k)
  {
    var fields := Unique(KeysOf(b) + KeysOf(a));
    UniqueIs(KeysOf(b) + KeysOf(a));
    FieldRowsShape(i, fields, b, a);
    forall k ensures k !in fields ==> Lookup(b, k).None? && Lookup(a, k).None? {
      LookupKeys(b, k);
      LookupKeys(a, k);
    }
    forall k ensures Lookup(ApplyFields(b, FieldRows(i, fields, b, a)), k) ==
                     if Read(b, k) != Read(a, k) then Read(a, k) else Lookup(b, k)
    {
      FieldRowsApplied(i, fields, b, a, b, k);
    }
  }

  /** Replaying the rows of two objects gives the draft's members exactly when they
      are replayable. */
  lemma ObjectReplay(b: Members, a: Members, next: Members)
    requires forall k :: Lookup(next, k) == if Read(b, k) != Read(a, k) then Read(a, k) else Lookup(b, k)
    ensures SameMembers(next, a) <==> Replayable(Some(Object(b)), Some(Object(a)))
  {
    assert forall k :: k != PROTO ==> Lookup(next, k) == Lookup(a, k);
    assert Lookup(next, PROTO) == if Read(b, PROTO) != Read(a, PROTO) then Read(a, PROTO) else Lookup(b, PROTO);
  }

  /** The rows of one index turn the saved scope into the draft's exactly when the
      two are replayable, and there are none exactly when they are alike. */
  lemma {:induction false} RowsAtIs(i: nat, before: Option<Json>, after: Option<Json>)
    ensures Same(Replayed(before, RowsAt(i, before, after)), after) <==> Replayable(before, after)
    ensures Replayed(before, RowsAt(i, before, after)).Some? <==> after.Some?
    ensures RowsAt(i, before, after) == [] <==> Alike(before, after)
    ensures forall r :: r in RowsAt(i, before, after) ==> r.index == i
  {
    if before != after && BothObjects(before, after) {
      hide FieldRows;
      hide ApplyFields;
      hide Unique;
      var b, a := before.value.members, after.value.members;
      ObjectRows(i, b, a);
      ReadAlikeIs(b, a);
      var rows := RowsAt(i, before, after);
      ObjectReplay(b, a, ApplyFields(b, rows));
      if rows == [] { assert ApplyFields(b, rows) == b by { NoFields(b); } }
      assert Replayed(before, rows) == Some(Object(ApplyFields(b, rows)));
      if Object(ApplyFields(b, rows)) == Object(a) { assert SameMembers(a, a); }
    }
  }

  lemma NoFields(ms: Members)
    ensures ApplyFields(ms, []) == ms
  {
  }

  // ----- the whole list -----

  lemma {:induction false} RowsForJoin(a: seq<Row>, b: seq<Row>, i: nat)
    ensures RowsFor(a + b, i) == RowsFor(a, i) + RowsFor(b, i)
  {
    if a == [] {
      assert a + b == b;
    } else {
      var head := if a[0].index == i then [a[0]] else [];
      assert (a + b)[0] == a[0] && (a + b)[1..] == a[1..] + b;
      RowsForJoin(a[1..], b, i);
      assert RowsFor(a + b, i) == head + RowsFor(a[1..] + b, i);
      assert RowsFor(a, i) == head + RowsFor(a[1..], i);
    }
  }

  lemma {:induction false} RowsForOne(rows: seq<Row>, j: nat, i: nat)
    requires forall r :: r in rows ==> r.index == j
    ensures RowsFor(rows, i) == if i == j then rows else []
  {
    if rows != [] { RowsForOne(rows[1..], j, i); }
  }

  lemma {:induction false} RowsForUpTo(saved: seq<Json>, draft: seq<Json>, n: nat, i: nat)
    ensures RowsFor(RowsUpTo(saved, draft, n), i) ==
            if i < n then RowsAt(i, At(saved, i), At(draft, i)) else []
  {
    hide RowsAt;
    hide At;
    hide Same;
    hide Alike;
    hide Replayable;
    hide Replayed;
    hide FieldRows;
    hide Read;
    hide Lookup;
    if n > 0 {
      var last := RowsAt(n - 1, At(saved, n - 1), At(draft, n - 1));
      assert RowsUpTo(saved, draft, n) == RowsUpTo(saved, draft, n - 1) + last;
      hide RowsUpTo;
      hide RowsFor;
      RowsForUpTo(saved, draft, n - 1, i);
      RowsForJoin(RowsUpTo(saved, draft, n - 1), last, i);
      RowsAtIs(n - 1, At(saved, n - 1), At(draft, n - 1));
      RowsForOne(last, n - 1, i);
      var earlier := RowsFor(RowsUpTo(saved, draft, n - 1), i);
      assert earlier + [] == earlier && [] + last == last;
    } else {
      assert RowsUpTo(saved, draft, 0) == [];
    }
  }

  lemma {:induction false} RowsForChanges(saved: seq<Json>, draft: seq<Json>, i: nat)
    ensures var v := Replayed(At(saved, i), RowsFor(Changes(saved, draft), i));
            && (v.Some? <==> i < |draft|)
            && (Same(v, At(draft, i)) <==> Replayable(At(saved, i), At(draft, i)))
  {
    hide RowsAt;
    hide Replayed;
    hide Same;
    hide Replayable;
    hide RowsFor;
    hide RowsUpTo;
    RowsForUpTo(saved, draft, Max(|saved|, |draft|), i);
    RowsAtIs(i, At(saved, i), At(draft, i));
    if i >= Max(|saved|, |draft|) { NothingThere(i); }
  }

  lemma NothingThere(i: nat)
    ensures RowsAt(i, None, None) == []
  {
  }

  /** Every scope beyond the saved ones has a row. */
  lemma {:induction false} EnoughRows(saved: seq<Json>, draft: seq<Json>, n: nat)
    requires n <= |draft|
    ensures n <= |saved| + |RowsUpTo(saved, draft, n)|
  {
    if n > 0 { EnoughRows(saved, draft, n - 1); }
  }

  lemma {:induction false} ReplayedPrefix(saved: seq<Json>, draft: seq<Json>, n: nat)
    ensures var r := ReplayUpTo(saved, Changes(saved, draft), n);
            && |r| == (if n < |draft| then n else |draft|)
            && forall i :: 0 <= i < |r| ==>
                 (Same(Some(r[i]), Some(draft[i])) <==> Replayable(At(saved, i), Some(draft[i])))
  {
    hide Same;
    hide Replayable;
    hide RowsAt;
    hide Replayed;
    hide Changes;
    hide SameMembers;
    hide RowsFor;
    if n > 0 {
      ReplayedPrefix(saved, draft, n - 1);
      RowsForChanges(saved, draft, n - 1);
    }
  }

  /** Replaying the rows on the saved scopes gives the draft's, up to the order of a
      scope's own members, exactly when every index is replayable. */
  lemma {:induction false} ChangesReplay(saved: seq<Json>, draft: seq<Json>)
    ensures SameScopes(Replay(saved, Changes(saved, draft)), draft) <==>
            forall i :: 0 <= i < |draft| ==> Replayable(At(saved, i), Some(draft[i]))
  {
    hide Same;
    hide Replayable;
    hide RowsUpTo;
    hide ReplayUpTo;
    hide At;
    EnoughRows(saved, draft, |draft|);
    MoreRows(saved, draft, |draft|, Max(|saved|, |draft|));
    ReplayedPrefix(saved, draft, |saved| + |Changes(saved, draft)|);
  }

  lemma {:induction false} MoreRows(saved: seq<Json>, draft: seq<Json>, m: nat, n: nat)
    requires m <= n
    ensures |RowsUpTo(saved, draft, m)| <= |RowsUpTo(saved, draft, n)|
  {
    hide RowsAt;
    hide At;
    if m < n { MoreRows(saved, draft, m, n - 1); }
  }

  lemma {:induction false} NoRows(saved: seq<Json>, draft: seq<Json>, n: nat)
    ensures RowsUpTo(saved, draft, n) == [] <==> forall i: nat :: i < n ==> Alike(At(saved, i), At(draft, i))
  {
    hide RowsAt;
    hide Alike;
    hide Same;
    hide Replayable;
    hide Replayed;
    hide At;
    if n > 0 {
      NoRows(saved, draft, n - 1);
      RowsAtIs(n - 1, At(saved, n - 1), At(draft, n - 1));
    }
  }

  /** Empty exactly when the scopes are alike. */
  lemma {:induction false} ChangesEmpty(saved: seq<Json>, draft: seq<Json>)
    ensures Changes(saved, draft) == [] <==> AlikeScopes(saved, draft)
  {
    hide RowsUpTo;
    var n := Max(|saved|, |draft|);
    NoRows(saved, draft, n);
    if Changes(saved, draft) == [] {
      assert |saved| < |draft| ==> !Alike(At(saved, |saved|), At(draft, |saved|));
      assert |draft| < |saved| ==> !Alike(At(saved, |draft|), At(draft, |draft|));
      forall i: nat | i < |saved| ensures Alike(Some(saved[i]), Some(draft[i])) {
        assert Alike(At(saved, i), At(draft, i));
      }
    }
  }

  /** Without members of that name, alike is the same and everything is replayable. */
  lemma UsualScopes(before: Option<Json>, after: Option<Json>)
    requires BothObjects(before, after) ==>
               Lookup(before.value.members, PROTO).None? && Lookup(after.value.members, PROTO).None?
    ensures Alike(before, after) <==> Same(before, after)
    ensures Replayable(before, after)
  {
    if BothObjects(before, after) && Alike(before, after) && before != after {
      var b, a := before.value.members, after.value.members;
      assert SameMembers(b, a) by {
        forall k ensures Lookup(b, k) == Lookup(a, k) { assert k == PROTO || Lookup(b, k) == Lookup(a, k); }
      }
    }
  }

  /** A draft that adds an empty `__proto__` to a scope shows no change. */
  lemma AddedProtoUnseen(id: string)
    ensures var saved := [Object([("id", Str(id))])];
            var draft := [Object([("id", Str(id)), (PROTO, Object([]))])];
            Changes(saved, draft) == [] && !SameScopes(saved, draft)
  {
    var saved, draft := [Object([("id", Str(id))])], [Object([("id", Str(id)), (PROTO, Object([]))])];
    var b, a := saved[0].members, draft[0].members;
    assert b[1..] == [] && a[1..] == [(PROTO, Object([]))] && a[1..][1..] == [];
    assert "id" != PROTO;
    assert Lookup(b, PROTO) == Lookup(b[1..], PROTO) == None;
    assert Lookup(a, PROTO) == Lookup(a[1..], PROTO) == Some(Object([]));
    forall k | k != PROTO ensures Lookup(b, k) == Lookup(a, k) {
      assert Lookup(b[1..], k) == None && Lookup(a[1..], k) == Lookup(a[1..][1..], k) == None;
    }
    assert Alike(Some(saved[0]), Some(draft[0]));
    ChangesEmpty(saved, draft);
    assert !SameMembers(b, a);
  }

  /** A draft that drops a saved `__proto__`, whatever its value, is not what the rows
      rebuild. */
  lemma DroppedProtoStays(value: Json)
    ensures var saved, draft := [Object([(PROTO, value)])], [Object([])];
            !SameScopes(Replay(saved, Changes(saved, draft)), draft)
  {
    var saved, draft := [Object([(PROTO, value)])], [Object([])];
    ChangesReplay(saved, draft);
    assert !Replayable(At(saved, 0), Some(draft[0]));
  }

  // ----- row keys -----

  predicate SamePlace(a: Row, b: Row) { a.index == b.index && a.field == b.field }

  /** No two rows are about the same index and field. */
  predicate DistinctRows(rows: seq<Row>) {
    forall i, j :: 0 <= i < j < |rows| ==> !SamePlace(rows[i], rows[j])
  }

  lemma {:induction false} FieldRowsDistinct(i: nat, fields: seq<string>, before: Members, after: Members)
    requires Distinct(fields)
    ensures DistinctRows(FieldRows(i, fields, before, after))
  {
    if fields != [] {
      var rest := fields[1..];
      FieldRowsDistinct(i, rest, before, after);
      FieldRowsShape(i, rest, before, after);
      assert fields[0] !in rest;
    }
  }

  lemma {:induction false} RowsAtDistinct(i: nat, before: Option<Json>, after: Option<Json>)
    ensures DistinctRows(RowsAt(i, before, after))
  {
    if before.Some? && before.value.Object? && after.Some? && after.value.Object? {
      var keys := KeysOf(before.value.members) + KeysOf(after.value.members);
      UniqueIs(keys);
      FieldRowsDistinct(i, Unique(keys), before.value.members, after.value.members);
    }
  }

  lemma {:induction false} RowsDistinct(saved: seq<Json>, draft: seq<Json>, n: nat)
    ensures DistinctRows(RowsUpTo(saved, draft, n))
    ensures forall r :: r in RowsUpTo(saved, draft, n) ==> r.index < n
  {
    hide RowsAt;
    hide At;
    hide Same;
    hide Alike;
    hide Replayable;
    hide Replayed;
    if n > 0 {
      var before, after := At(saved, n - 1), At(draft, n - 1);
      RowsDistinct(saved, draft, n - 1);
      RowsAtIs(n - 1, before, after);
      RowsAtDistinct(n - 1, before, after);
      JoinDistinct(RowsUpTo(saved, draft, n - 1), RowsAt(n - 1, before, after), n - 1);
    }
  }

  lemma JoinDistinct(a: seq<Row>, b: seq<Row>, n: nat)
    requires DistinctRows(a) && DistinctRows(b)
    requires (forall r :: r in a ==> r.index < n) && (forall r :: r in b ==> r.index == n)
    ensures DistinctRows(a + b)
  {
    var c := a + b;
    forall i, j | 0 <= i < j < |c| ensures !SamePlace(c[i], c[j]) {
      if i < |a| && |a| <= j { assert c[i] in a && c[j] in b; }
    }
  }

  /** A key says which row it is: an index has no dash. */
  lemma KeyIsPlace(a: Row, b: Row)
    requires RowKey(a) == RowKey(b)
    ensures SamePlace(a, b)
  {
    var s, x, y := RowKey(a), Decimal(a.index), Decimal(b.index);
    DecimalDigits(a.index);
    DecimalDigits(b.index);
    assert a.field.Some? ==> s[|x|] == '-';
    assert b.field.Some? ==> s[|y|] == '-';
    assert x == s[..|x|] && y == s[..|y|];
    assert |x| == |y|;
    DecimalInjective(a.index, b.index);
    if a.field.Some? { assert s[|x| + 1..] == a.field.value; }
    if b.field.Some? { assert s[|y| + 1..] == b.field.value; }
  }

  /** Row keys are distinct. */
  lemma {:induction false} KeysDistinct(saved: seq<Json>, draft: seq<Json>, i: nat, j: nat)
    requires i < j < |Changes(saved, draft)|
    ensures RowKey(Changes(saved, draft)[i]) != RowKey(Changes(saved, draft)[j])
  {
    RowsDistinct(saved, draft, Max(|saved|, |draft|));
    var rows := Changes(saved, draft);
    if RowKey(rows[i]) == RowKey(rows[j]) { KeyIsPlace(rows[i], rows[j]); }
  }
}
