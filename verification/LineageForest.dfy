/** The lineage forest: a mutable trie grown from untrusted ancestry paths. Each
    method carries a ghost layout of the memory it works on. */
module LineageForest {
  import opened Texts
  import opened LineageShape
  import opened LineageTree

  /** The entry one step below `p`: found, or new and pushed onto the branch. */
  method Enter(ghost l: Layout, ghost roots: Branch, ghost p: Path, branch: Branch, id: Id)
    returns (entry: TreeNode, ghost l': Layout)
    requires Good(l, roots) && p in l.arrays && branch == l.arrays[p]
    modifies branch
    ensures Good(l', roots) && p + [id] in l'.at && l'.at[p + [id]] == entry
    ensures l'.shape == if p + [id] in l.shape then l.shape else l.shape[p + [id] := None]
    ensures l'.order == if p + [id] in l.order then l.order else l.order + [p + [id]]
    ensures l.repr <= l'.repr && fresh(l'.repr - l.repr)
  {
    hide Good;
    GoodAt(l, roots, p);
    GoodAt(l, roots, p + [id]);
    var found := Find(l, roots, p, branch, id);
    if found == null {
      entry := new TreeNode(p + [id], id);
      Push(l, roots, p, branch, entry);
      l' := Grown(l, p, entry);
    } else {
      entry := found;
      l' := l;
    }
  }

  /** One step of a descent; the grant is shown when the step is its own. */
  method Step(ghost l: Layout, ghost roots: Branch, ghost p: Path, branch: Branch, id: Id, g: Grant)
    returns (entry: TreeNode, ghost l': Layout)
    requires Good(l, roots) && p in l.arrays && branch == l.arrays[p]
    modifies l.repr
    ensures Good(l', roots) && p + [id] in l'.at && l'.at[p + [id]] == entry
    ensures l'.shape == Visit(l.shape, p + [id], g)
    ensures l'.order == if p + [id] in l.order then l.order else l.order + [p + [id]]
    ensures l.repr <= l'.repr && fresh(l'.repr - l.repr)
  {
    hide Good;
    GoodAt(l, roots, p);
    assert (p + [id])[|p|] == id;
    entry, l' := Enter(l, roots, p, branch, id);
    GoodAt(l', roots, p + [id]);
    if id == g.id {
      Place(l', roots, p + [id], entry, g);
      l' := Showing(l', p + [id], g);
    }
  }

  /** Down a path from the roots. */
  method Walk(ghost l: Layout, roots: Branch, ids: Path, g: Grant) returns (ghost l': Layout)
    requires Good(l, roots)
    modifies l.repr
    ensures Good(l', roots) && l'.shape == Descend(l.shape, ids, g) && l'.order == Met(l.order, ids)
    ensures l.repr <= l'.repr && fresh(l'.repr - l.repr)
  {
    hide Good;
    GoodAt(l, roots, []);
    var branch := roots;
    l' := l;
    for k := 0 to |ids|
      invariant Good(l', roots) && ids[..k] in l'.arrays && branch == l'.arrays[ids[..k]]
      invariant l'.shape == Descend(l.shape, ids[..k], g) && l'.order == Met(l.order, ids[..k])
      invariant l.repr <= l'.repr && fresh(l'.repr - l.repr)
    {
      assert ids[..k + 1] == ids[..k] + [ids[k]] && ids[..k + 1][..k] == ids[..k];
      var entry;
      entry, l' := Step(l', roots, ids[..k], branch, ids[k], g);
      GoodAt(l', roots, ids[..k + 1]);
      branch := entry.children;
    }
    assert ids[..|ids|] == ids;
  }

  method Empty() returns (roots: Branch, ghost l: Layout)
    ensures Good(l, roots) && l.shape == map[] && l.order == [] && fresh(l.repr)
  {
    roots := new Branch([]);
    l := Layout(map[], map[[] := []], map[[] := roots], map[], [], {roots});
  }

  /** What the entries in memory say about the rows: each of the first fifty has all its
      ancestors as entries, down to the one where it belongs, which shows it unless a
      later one belongs there too; and there are no other entries or grants. */
  ghost predicate Records(l: Layout, nodes: seq<Grant>)
    reads l.repr
  {
    && Sound(l)
    && (forall p :: p in l.at <==>
          p != [] && exists i, q :: 0 <= i < |nodes| && i < 50 && BelongsAt(nodes[i], q) && p <= q)
    && (forall i: nat, p :: LastThere(nodes, i, p) && p in l.at ==> l.at[p].node == Some(nodes[i]))
    && (forall p :: p in l.at && l.at[p].node.Some? ==>
          exists i :: 0 <= i < |nodes| && i < 50 && BelongsAt(nodes[i], p))
  }

  lemma RecordsRows(l: Layout, roots: Branch, nodes: seq<Grant>)
    requires Good(l, roots) && l.shape == Build(Shown(nodes))
    ensures Records(l, nodes)
  {
    hide Tree;
    hide Separate;
    hide Ordered;
    hide Listing;
    hide BelongsAt;
    forall p ensures p in l.at <==>
      p != [] && exists i, q :: 0 <= i < |nodes| && i < 50 && BelongsAt(nodes[i], q) && p <= q
    {
      ForestPaths(nodes, p);
    }
    forall i: nat, p | LastThere(nodes, i, p) && p in l.at ensures l.at[p].node == Some(nodes[i])
    {
      RowIsShown(nodes, i, p);
    }
    forall p | p in l.at && l.at[p].node.Some?
      ensures exists i :: 0 <= i < |nodes| && i < 50 && BelongsAt(nodes[i], p)
    {
      NoRowNoGrant(nodes, p);
    }
  }

  /** The forest built from the rows records them, is the value `Build` describes, and
      is held in arrays that form a tree. */
  method LineageTreeOf(nodes: seq<Grant>) returns (roots: Branch, ghost l: Layout)
    ensures Good(l, roots) && fresh(l.repr) && Records(l, nodes)
    ensures l.shape == Build(Shown(nodes)) && l.order == Order(Shown(nodes))
  {
    hide Good;
    hide PathOf;
    roots, l := Empty();
    var rows := Shown(nodes);
    for i := 0 to |rows|
      invariant Good(l, roots) && fresh(l.repr)
      invariant l.shape == Build(rows[..i]) && l.order == Order(rows[..i])
    {
      assert rows[..i + 1][..i] == rows[..i];
      l := Walk(l, roots, PathOf(rows[i]), rows[i]);
    }
    assert rows[..|rows|] == rows;
    RecordsRows(l, roots, nodes);
  }
}
