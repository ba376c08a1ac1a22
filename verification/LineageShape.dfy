/** The lineage forest as a value: a map from paths to the grants shown there. */
module LineageShape {
  import opened Texts

  type Id = string
  type Path = seq<Id>

  /** A grant row; `row` stands for the members the forest only carries along. */
  datatype Grant = Grant(id: Id, ancestry: seq<Id>, row: int)

  const MAX_ROWS := 50
  const MAX_DEPTH := 10

  // ----- paths -----

  predicate Distinct(path: Path) {
    forall i, j :: 0 <= i < j < |path| ==> path[i] != path[j]
  }

  predicate Safe(g: Grant) {
    var path := g.ancestry;
    0 < |path| <= MAX_DEPTH && Distinct(path) && path[|path| - 1] == g.id
  }

  /** Where a grant is shown: its recorded path, or alone when that is corrupt. */
  function PathOf(g: Grant): (path: Path)
    ensures path != []
  {
    if Safe(g) then g.ancestry else [g.id]
  }

  lemma PathIsSafe(g: Grant)
    ensures |PathOf(g)| <= MAX_DEPTH && Distinct(PathOf(g)) && PathOf(g)[|PathOf(g)| - 1] == g.id
  {
  }

  // ----- the forest as a value -----

  /** The paths of the forest, each with the grant shown there, if any. */
  type Shape = map<Path, Option<Grant>>

  function Visit(m: Shape, path: Path, g: Grant): Shape
    requires path != []
  {
    var grown := if path in m then m else m[path := None];
    if path[|path| - 1] == g.id then grown[path := Some(g)] else grown
  }

  /** The steps down a path, one prefix after another. */
  function Descend(m: Shape, path: Path, g: Grant): Shape {
    if path == [] then m else Visit(Descend(m, path[..|path| - 1], g), path, g)
  }

  function Insert(m: Shape, g: Grant): Shape {
    Descend(m, PathOf(g), g)
  }

  function Build(nodes: seq<Grant>): Shape {
    if nodes == [] then map[] else Insert(Build(nodes[..|nodes| - 1]), nodes[|nodes| - 1])
  }

  /** The paths in the order they were first met, which is the order siblings are
      listed in. */
  function Met(order: seq<Path>, path: Path): seq<Path> {
    if path == [] then order
    else
      var before := Met(order, path[..|path| - 1]);
      if path in before then before else before + [path]
  }

  function Order(nodes: seq<Grant>): seq<Path> {
    if nodes == [] then [] else Met(Order(nodes[..|nodes| - 1]), PathOf(nodes[|nodes| - 1]))
  }

  /** The ids listed under a path, first met first. */
  function ChildIds(order: seq<Path>, p: Path): seq<Id> {
    if order == [] then []
    else
      var last := order[|order| - 1];
      ChildIds(order[..|order| - 1], p)
      + (if last != [] && last[..|last| - 1] == p then [last[|last| - 1]] else [])
  }

  /** The rows that are shown at all. */
  function Shown(nodes: seq<Grant>): seq<Grant> {
    if |nodes| <= MAX_ROWS then nodes else nodes[..MAX_ROWS]
  }

  // ----- what the value is -----

  /** Before the grant's own id is met, a descent only adds missing prefixes. */
  lemma {:induction false} DescendEffect(m: Shape, path: Path, g: Grant, p: Path)
    requires g.id !in path
    ensures p in Descend(m, path, g) <==> p in m || (p != [] && p <= path)
    ensures p in Descend(m, path, g) ==> Descend(m, path, g)[p] == if p in m then m[p] else None
  {
    if path != [] {
      DescendEffect(m, path[..|path| - 1], g, p);
      assert p <= path && p != path ==> p <= path[..|path| - 1];
    }
  }

  /** Inserting adds the path's prefixes, puts the grant at its path, and leaves
      every other grant where it was. */
  lemma InsertEffect(m: Shape, g: Grant, p: Path)
    ensures p in Insert(m, g) <==> p in m || (p != [] && p <= PathOf(g))
    ensures p in Insert(m, g) ==>
              Insert(m, g)[p] == if p == PathOf(g) then Some(g) else if p in m then m[p] else None
  {
    var path := PathOf(g);
    var front := path[..|path| - 1];
    PathIsSafe(g);
    DescendEffect(m, front, g, p);
    assert p <= path && p != path ==> p <= front;
  }

  /** The last row recorded at a path. */
  function LastAt(nodes: seq<Grant>, p: Path): Option<Grant> {
    if nodes == [] then None
    else if PathOf(nodes[|nodes| - 1]) == p then Some(nodes[|nodes| - 1])
    else LastAt(nodes[..|nodes| - 1], p)
  }

  /** `LastAt` is the row at the path that no later row at the path follows. */
  lemma {:induction false} LastAtIs(nodes: seq<Grant>, p: Path, i: nat)
    requires i < |nodes| && PathOf(nodes[i]) == p
    requires forall j :: i < j < |nodes| ==> PathOf(nodes[j]) != p
    ensures LastAt(nodes, p) == Some(nodes[i])
  {
    if i < |nodes| - 1 { LastAtIs(nodes[..|nodes| - 1], p, i); }
  }

  predicate OnPath(g: Grant, p: Path) { p <= PathOf(g) }

  predicate OnSomePath(nodes: seq<Grant>, p: Path) {
    nodes != [] && (OnSomePath(nodes[..|nodes| - 1], p) || OnPath(nodes[|nodes| - 1], p))
  }

  lemma {:induction false} SomePath(nodes: seq<Grant>, p: Path, i: nat)
    requires i < |nodes| && OnPath(nodes[i], p)
    ensures OnSomePath(nodes, p)
  {
    if i < |nodes| - 1 { SomePath(nodes[..|nodes| - 1], p, i); }
  }

  lemma {:induction false} SomePathAt(nodes: seq<Grant>, p: Path) returns (i: nat)
    requires OnSomePath(nodes, p)
    ensures i < |nodes| && OnPath(nodes[i], p)
  {
    i := |nodes| - 1;
    if !OnPath(nodes[i], p) { i := SomePathAt(nodes[..|nodes| - 1], p); }
  }

  lemma {:induction false} LastIsOnPath(nodes: seq<Grant>, p: Path)
    ensures LastAt(nodes, p).Some? ==> OnSomePath(nodes, p)
  {
    if nodes != [] {
      LastIsOnPath(nodes[..|nodes| - 1], p);
    }
  }

  /** The forest's paths are exactly the non-empty prefixes of the normalized
      paths, and each path shows the last grant recorded there, or none. */
  lemma {:induction false} BuildIs(nodes: seq<Grant>, p: Path)
    ensures p in Build(nodes) <==> p != [] && OnSomePath(nodes, p)
    ensures p in Build(nodes) ==> Build(nodes)[p] == LastAt(nodes, p)
  {
    if nodes != [] {
      var front := nodes[..|nodes| - 1];
      BuildIs(front, p);
      InsertEffect(Build(front), nodes[|nodes| - 1], p);
      LastIsOnPath(front, p);
    }
  }

  lemma {:induction false} LastSitsThere(nodes: seq<Grant>, p: Path)
    ensures LastAt(nodes, p).Some? ==> PathOf(LastAt(nodes, p).value) == p
  {
    if nodes != [] { LastSitsThere(nodes[..|nodes| - 1], p); }
  }

  /** No id repeats on a path, none is deeper than the bound, and every grant that
      is shown sits at its own normalized path. */
  lemma BuildBounded(nodes: seq<Grant>, p: Path)
    requires p in Build(nodes)
    ensures Distinct(p) && 0 < |p| <= MAX_DEPTH
    ensures Build(nodes)[p].Some? ==> PathOf(Build(nodes)[p].value) == p
    ensures |p| > 1 ==> p[..|p| - 1] in Build(nodes)
  {
    BuildIs(nodes, p);
    LastSitsThere(nodes, p);
    var i := SomePathAt(nodes, p);
    PathIsSafe(nodes[i]);
    if |p| > 1 {
      var q := p[..|p| - 1];
      BuildIs(nodes, q);
      SomePath(nodes, q, i);
    }
  }

  // ----- in terms of the recorded rows -----

  /** An ancestry the browser can follow: there is one, of at most ten ids, none twice,
      down to the grant itself. */
  predicate Usable(id: Id, ancestry: seq<Id>) {
    && 0 < |ancestry| <= 10 && ancestry[|ancestry| - 1] == id
    && forall i, j :: 0 <= i < j < |ancestry| ==> ancestry[i] != ancestry[j]
  }

  /** A row belongs at its ancestry when that is usable, and alone when it is not. */
  predicate BelongsAt(g: Grant, p: Path) {
    if Usable(g.id, g.ancestry) then p == g.ancestry else p == [g.id]
  }

  /** The last of the first fifty rows that belongs at a path. */
  ghost predicate LastThere(nodes: seq<Grant>, i: nat, p: Path) {
    && i < |nodes| && i < 50 && BelongsAt(nodes[i], p)
    && forall j :: i < j < |nodes| && j < 50 ==> !BelongsAt(nodes[j], p)
  }

  lemma PathIsWhereItBelongs(g: Grant, p: Path)
    ensures PathOf(g) == p <==> BelongsAt(g, p)
  {
  }

  /** The first fifty rows, each with all its ancestors, are in the forest, and nothing
      else is. */
  lemma ForestPaths(nodes: seq<Grant>, p: Path)
    ensures p in Build(Shown(nodes)) <==>
            p != [] && exists i, q :: 0 <= i < |nodes| && i < 50 && BelongsAt(nodes[i], q) && p <= q
  {
    var rows := Shown(nodes);
    BuildIs(rows, p);
    if p != [] && OnSomePath(rows, p) {
      var i := SomePathAt(rows, p);
      PathIsWhereItBelongs(nodes[i], PathOf(nodes[i]));
    }
    if exists i, q :: 0 <= i < |nodes| && i < 50 && BelongsAt(nodes[i], q) && p <= q {
      var i, q :| 0 <= i < |nodes| && i < 50 && BelongsAt(nodes[i], q) && p <= q;
      PathIsWhereItBelongs(nodes[i], q);
      assert rows[i] == nodes[i];
      SomePath(rows, p, i);
    }
  }

  /** A row of the first fifty that no later one displaces is shown where it belongs. */
  lemma RowIsShown(nodes: seq<Grant>, i: nat, p: Path)
    requires LastThere(nodes, i, p)
    ensures p in Build(Shown(nodes)) && Build(Shown(nodes))[p] == Some(nodes[i])
  {
    var rows := Shown(nodes);
    ForestPaths(nodes, p);
    PathIsWhereItBelongs(nodes[i], p);
    forall j | i < j < |rows| ensures PathOf(rows[j]) != p { PathIsWhereItBelongs(rows[j], p); }
    LastAtIs(rows, p, i);
    BuildIs(rows, p);
  }

  /** An entry without a row of its own shows none. */
  lemma NoRowNoGrant(nodes: seq<Grant>, p: Path)
    requires p in Build(Shown(nodes)) && Build(Shown(nodes))[p].Some?
    ensures exists i :: 0 <= i < |nodes| && i < 50 && BelongsAt(nodes[i], p)
  {
    var rows := Shown(nodes);
    BuildIs(rows, p);
    var i := LastAtIndex(rows, p);
    PathIsWhereItBelongs(nodes[i], p);
  }

  lemma {:induction false} LastAtIndex(nodes: seq<Grant>, p: Path) returns (i: nat)
    requires LastAt(nodes, p).Some?
    ensures i < |nodes| && PathOf(nodes[i]) == p
  {
    i := |nodes| - 1;
    if PathOf(nodes[i]) != p { i := LastAtIndex(nodes[..|nodes| - 1], p); }
  }

  // ----- what the order is -----

  predicate NoRepeats(order: seq<Path>) {
    forall i, j :: 0 <= i < j < |order| ==> order[i] != order[j]
  }

  lemma {:induction false} MetIs(order: seq<Path>, path: Path, p: Path)
    ensures p in Met(order, path) <==> p in order || (p != [] && p <= path)
    ensures order <= Met(order, path)
    ensures NoRepeats(order) ==> NoRepeats(Met(order, path))
    decreases |path|
  {
    if path != [] {
      MetIs(order, path[..|path| - 1], p);
      assert p <= path && p != path ==> p <= path[..|path| - 1];
    }
  }

  /** The order lists exactly the forest's paths, each once, and a later row never
      moves a path met before it. */
  lemma {:induction false} OrderIs(nodes: seq<Grant>, p: Path)
    ensures p in Order(nodes) <==> p in Build(nodes)
    ensures NoRepeats(Order(nodes))
    ensures nodes != [] ==> Order(nodes[..|nodes| - 1]) <= Order(nodes)
  {
    if nodes != [] {
      var front, g := nodes[..|nodes| - 1], nodes[|nodes| - 1];
      OrderIs(front, p);
      MetIs(Order(front), PathOf(g), p);
      InsertEffect(Build(front), g, p);
    }
  }

  lemma {:induction false} ChildIdsMore(order: seq<Path>, path: Path, p: Path)
    ensures ChildIds(order + [path], p) ==
            ChildIds(order, p) + (if path != [] && path[..|path| - 1] == p then [path[|path| - 1]] else [])
  {
    assert (order + [path])[..|order|] == order;
  }
}
