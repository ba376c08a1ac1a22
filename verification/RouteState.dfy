/** Route parameters in the address bar: updating them in place, and deciding
    whether two addresses show the same editor. */
module RouteState {
  import opened Texts
  import opened Routes

  // ----- URLSearchParams lists -----

  /** `get`: the first value under a name. */
  function Get(ps: Params, name: Octets): Option<Octets> {
    if ps == [] then None
    else if ps[0].0 == name then Some(ps[0].1)
    else Get(ps[1..], name)
  }

  /** The last value under a name, which is the one a record keeps. */
  function Last(ps: Params, name: Octets): Option<Octets> {
    if ps == [] then None
    else if ps[|ps| - 1].0 == name then Some(ps[|ps| - 1].1)
    else Last(ps[..|ps| - 1], name)
  }

  function Delete(ps: Params, name: Octets): (r: Params)
    ensures |r| <= |ps|
  {
    if ps == [] then []
    else if ps[0].0 == name then Delete(ps[1..], name)
    else [ps[0]] + Delete(ps[1..], name)
  }

  /** `set`: the first entry takes the value and the others go; a new name is appended. */
  function Set(ps: Params, name: Octets, value: Octets): Params {
    if ps == [] then [(name, value)]
    else if ps[0].0 == name then [(name, value)] + Delete(ps[1..], name)
    else [ps[0]] + Set(ps[1..], name, value)
  }

  /** `Object.fromEntries`: one entry per name, holding its last value. */
  function FromEntries(ps: Params): Params
    decreases |ps|
  {
    if ps == [] then []
    else
      var name := ps[0].0;
      var last := Last(ps, name);
      [(name, if last.Some? then last.value else ps[0].1)] + FromEntries(Delete(ps[1..], name))
  }

  /** The changes a caller asks for: a value to set, or none to delete. */
  type Changes = seq<(Octets, Option<Octets>)>

  predicate DistinctNames(changes: Changes) {
    forall i, j :: 0 <= i < j < |changes| ==> changes[i].0 != changes[j].0
  }

  predicate Touches(changes: Changes, name: Octets) {
    exists i :: 0 <= i < |changes| && changes[i].0 == name
  }

  function ApplyOne(ps: Params, change: (Octets, Option<Octets>)): Params {
    match change.1
    case None => Delete(ps, change.0)
    case Some(value) => Set(ps, change.0, value)
  }

  function ApplyAll(ps: Params, changes: Changes): Params {
    if changes == [] then ps
    else ApplyOne(ApplyAll(ps, changes[..|changes| - 1]), changes[|changes| - 1])
  }

  /** The new fragment for an address whose fragment is `current`. */
  function Updated(current: Octets, route: Octets, changes: Changes): Octets {
    var start := if RouteOf(current) == route then ParamsOf(current) else [];
    HrefOf(route, FromEntries(ApplyAll(start, changes)))
  }

  method SetRouteParameters(current: Octets, route: Octets, changes: Changes) returns (fragment: Octets)
    ensures fragment == Updated(current, route, changes)
  {
    var params: Params := [];
    if RouteOf(current) == route {
      params := ParamsOf(current);
    }
    ghost var start := params;
    for i := 0 to |changes|
      invariant params == ApplyAll(start, changes[..i])
    {
      assert changes[..i + 1][..i] == changes[..i];
      match changes[i].1 {
        case None => params := Delete(params, changes[i].0);
        case Some(value) => params := Set(params, changes[i].0, value);
      }
    }
    assert changes[..|changes|] == changes;
    fragment := HrefOf(route, FromEntries(params));
  }

  // ----- what an update does to each name -----

  lemma {:induction false} DeleteEffect(ps: Params, name: Octets, other: Octets)
    ensures Get(Delete(ps, name), other) == if other == name then None else Get(ps, other)
    ensures Last(Delete(ps, name), other) == if other == name then None else Last(ps, other)
  {
    if ps != [] {
      DeleteEffect(ps[1..], name, other);
      LastHead(ps, other);
      if ps[0].0 != name {
        var kept := [ps[0]] + Delete(ps[1..], name);
        assert kept[1..] == Delete(ps[1..], name);
        LastHead(kept, other);
      }
    }
  }

  /** The last value seen from the front. */
  lemma {:induction false} LastHead(ps: Params, name: Octets)
    requires ps != []
    ensures Last(ps, name) ==
            if Last(ps[1..], name).Some? then Last(ps[1..], name)
            else if ps[0].0 == name then Some(ps[0].1) else None
  {
    if |ps| == 1 {
      assert ps[..0] == [];
    } else {
      var front := ps[..|ps| - 1];
      LastHead(front, name);
      assert front[1..] == ps[1..][..|ps| - 2];
    }
  }

  lemma {:induction false} SetEffect(ps: Params, name: Octets, value: Octets, other: Octets)
    ensures Get(Set(ps, name, value), other) == if other == name then Some(value) else Get(ps, other)
    ensures Last(Set(ps, name, value), other) == if other == name then Some(value) else Last(ps, other)
  {
    var r := Set(ps, name, value);
    LastHead(r, other);
    if ps == [] {
      assert r[1..] == [];
    } else {
      LastHead(ps, other);
      if ps[0].0 == name {
        assert r[1..] == Delete(ps[1..], name);
        DeleteEffect(ps[1..], name, other);
      } else {
        assert r[1..] == Set(ps[1..], name, value);
        SetEffect(ps[1..], name, value, other);
      }
    }
  }

  /** A record read back has, under every name, the list's last value. */
  lemma {:induction false} FromEntriesEffect(ps: Params, name: Octets)
    ensures Get(FromEntries(ps), name) == Last(ps, name)
    decreases |ps|
  {
    if ps != [] {
      var first := ps[0].0;
      var rest := Delete(ps[1..], first);
      FromEntriesEffect(rest, name);
      DeleteEffect(ps[1..], first, name);
      LastHead(ps, name);
      LastHead(ps, first);
      assert FromEntries(ps)[1..] == FromEntries(rest);
    }
  }

  /** Changes with distinct names act on each name separately. */
  lemma {:induction false} ApplyAllEffect(ps: Params, changes: Changes, name: Octets)
    requires DistinctNames(changes)
    ensures forall i :: 0 <= i < |changes| && changes[i].0 == name
              ==> Last(ApplyAll(ps, changes), name) == changes[i].1
    ensures !Touches(changes, name) ==> Last(ApplyAll(ps, changes), name) == Last(ps, name)
  {
    if changes != [] {
      var front, change := changes[..|changes| - 1], changes[|changes| - 1];
      ApplyAllEffect(ps, front, name);
      var before := ApplyAll(ps, front);
      match change.1 {
        case None => DeleteEffect(before, change.0, name);
        case Some(value) => SetEffect(before, change.0, value, name);
      }
      if !Touches(changes, name) {
        assert changes[|changes| - 1].0 != name;
        assert forall i :: 0 <= i < |front| ==> front[i] == changes[i];
      }
      forall i | 0 <= i < |changes| && changes[i].0 == name
        ensures Last(ApplyAll(ps, changes), name) == changes[i].1
      {
        if i < |front| { assert front[i].0 == name; }
      }
    }
  }

  /** Through print and parse, `setRouteParameters` is map update and deletion on
      the same route, and a fresh map on another: a changed name reads as asked,
      and an untouched one reads as the current list's last value. */
  lemma UpdatedReads(current: Octets, route: Octets, changes: Changes, name: Octets)
    requires route != [] && '?' !in route && DistinctNames(changes)
    ensures var fragment := Updated(current, route, changes);
            && RouteOf(fragment) == route
            && (forall i :: 0 <= i < |changes| && changes[i].0 == name
                  ==> Get(ParamsOf(fragment), name) == changes[i].1)
            && (!Touches(changes, name) ==>
                  Get(ParamsOf(fragment), name) ==
                  if RouteOf(current) == route then Last(ParamsOf(current), name) else None)
  {
    var start := if RouteOf(current) == route then ParamsOf(current) else [];
    var final := ApplyAll(start, changes);
    FragmentRoundTrip(route, FromEntries(final));
    FromEntriesEffect(final, name);
    ApplyAllEffect(start, changes, name);
  }

  /** An untouched parameter keeps what `get` reported before exactly when its
      first and last values in the address agree; no repeated name is enough. */
  lemma UntouchedKeptIff(current: Octets, route: Octets, changes: Changes, name: Octets)
    requires route != [] && '?' !in route && DistinctNames(changes)
    requires RouteOf(current) == route && !Touches(changes, name)
    ensures Get(ParamsOf(Updated(current, route, changes)), name) == Get(ParamsOf(current), name)
            <==> Get(ParamsOf(current), name) == Last(ParamsOf(current), name)
  {
    UpdatedReads(current, route, changes, name);
  }

  /** The failing family is real: `#/users?a=1&a=2` reads `a` as 1, and after any
      change to another name reads it as 2. */
  lemma RepeatedNameSwitches(changes: Changes)
    requires DistinctNames(changes) && !Touches(changes, "a")
    ensures var current := HrefOf("users", [("a", "1"), ("a", "2")]);
            && Get(ParamsOf(current), "a") == Some("1")
            && Get(ParamsOf(Updated(current, "users", changes)), "a") == Some("2")
  {
    var ps: Params := [("a", "1"), ("a", "2")];
    FragmentRoundTrip("users", ps);
    UpdatedReads(HrefOf("users", ps), "users", changes, "a");
  }

  // ----- the same editor -----

  datatype Url = Url(origin: Octets, path: Octets, search: Octets, hash: Octets)

  const EDITORS: set<Octets> := {"users", "clients"}

  /** The parameters that identify an editor: all but the tab and the guide. */
  function EditorParams(url: Url): Params {
    Delete(Delete(ParamsOf(url.hash), "tab"), "guided")
  }

  predicate SameEditor(left: Url, right: Url) {
    && left.origin == right.origin && left.path == right.path && left.search == right.search
    && RouteOf(left.hash) == RouteOf(right.hash) && RouteOf(left.hash) in EDITORS
    && Serialize(EditorParams(left)) == Serialize(EditorParams(right))
  }

  /** What an address says about its subject: every parameter in order, but for the
      tab and the guide, which are about the view. */
  function Subject(ps: Params): Params {
    if ps == [] then []
    else (if ps[0].0 in {"tab", "guided"} then [] else [ps[0]]) + Subject(ps[1..])
  }

  lemma {:induction false} SubjectJoin(p: Params, q: Params)
    ensures Subject(p + q) == Subject(p) + Subject(q)
  {
    if p == [] {
      assert p + q == q;
    } else {
      assert (p + q)[0] == p[0] && (p + q)[1..] == p[1..] + q;
      SubjectJoin(p[1..], q);
    }
  }

  lemma {:induction false} DeletedIsSubject(ps: Params)
    ensures Delete(Delete(ps, "tab"), "guided") == Subject(ps)
  {
    if ps != [] { DeletedIsSubject(ps[1..]); }
  }

  /** Comparing printed parameters compares the subjects themselves, so no two
      different subjects are taken for one editor, and no two views of one subject for
      two. */
  lemma SameEditorIsIdentity(left: Url, right: Url)
    ensures SameEditor(left, right) <==>
            && left.(hash := []) == right.(hash := [])
            && RouteOf(left.hash) == RouteOf(right.hash) && RouteOf(left.hash) in {"users", "clients"}
            && Subject(ParamsOf(left.hash)) == Subject(ParamsOf(right.hash))
  {
    SerializeInjective(EditorParams(left), EditorParams(right));
    DeletedIsSubject(ParamsOf(left.hash));
    DeletedIsSubject(ParamsOf(right.hash));
  }

  /** Adding a parameter anywhere in the address of an editor stays in that editor
      exactly when it is the tab or the guide. */
  lemma ViewChangeStays(url: Url, route: Octets, p: Params, q: Params, x: Octets, v: Octets)
    requires route in {"users", "clients"}
    ensures SameEditor(url.(hash := HrefOf(route, p + [(x, v)] + q)), url.(hash := HrefOf(route, p + q)))
            <==> x in {"tab", "guided"}
  {
    hide HrefOf;
    hide RouteOf;
    hide ParamsOf;
    hide SameEditor;
    hide Subject;
    var more, less := url.(hash := HrefOf(route, p + [(x, v)] + q)), url.(hash := HrefOf(route, p + q));
    FragmentRoundTrip(route, p + [(x, v)] + q);
    FragmentRoundTrip(route, p + q);
    SameEditorIsIdentity(more, less);
    SubjectMore(p, q, x, v);
  }

  /** A parameter about the view adds nothing to the subject, and any other does. */
  lemma SubjectMore(p: Params, q: Params, x: Octets, v: Octets)
    ensures Subject(p + [(x, v)] + q) == Subject(p + q) <==> x in {"tab", "guided"}
  {
    SubjectJoin(p + [(x, v)], q);
    SubjectJoin(p, [(x, v)]);
    SubjectJoin(p, q);
    OneSubject(x, v);
    hide Subject;
    assert Subject(p) + [] == Subject(p);
    assert |Subject(p + [(x, v)] + q)| == |Subject(p + q)| + |Subject([(x, v)])|;
  }

  lemma OneSubject(x: Octets, v: Octets)
    ensures Subject([(x, v)]) == if x in {"tab", "guided"} then [] else [(x, v)]
  {
    assert [(x, v)][1..] == [];
  }

  lemma {:induction false} EditorParamsRead(url: Url, name: Octets)
    requires name != "tab" && name != "guided"
    ensures Get(EditorParams(url), name) == Get(ParamsOf(url.hash), name)
  {
    hide Get;
    hide ParamsOf;
    hide Delete;
    var ps := ParamsOf(url.hash);
    DeleteEffect(ps, "tab", name);
    DeleteEffect(Delete(ps, "tab"), "guided", name);
  }

  /** Reading any editor parameter gives the same answer on both sides. */
  lemma {:induction false} SameEditorReads(left: Url, right: Url, name: Octets)
    requires SameEditor(left, right) && name != "tab" && name != "guided"
    ensures Get(ParamsOf(left.hash), name) == Get(ParamsOf(right.hash), name)
  {
    SerializeInjective(EditorParams(left), EditorParams(right));
    EditorParamsRead(left, name);
    EditorParamsRead(right, name);
  }

  /** Symmetric and transitive, so a chain of tab switches stays in one editor. */
  lemma SameEditorChains(a: Url, b: Url, c: Url)
    ensures SameEditor(a, b) <==> SameEditor(b, a)
    ensures SameEditor(a, b) && SameEditor(b, c) ==> SameEditor(a, c)
  {
  }
}
