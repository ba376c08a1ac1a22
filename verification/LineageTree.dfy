/** Entries and arrays in memory, and what it takes for them to be a tree. */
module LineageTree {
  import opened Texts
  import opened LineageShape

  /** A growable array of entries, shared by reference. The path it is for is
      fixed when it is made. */
  class Branch {
    ghost const path: Path
    var entries: seq<TreeNode>

    constructor (ghost path: Path)
      ensures this.path == path && entries == []
    {
      this.path := path;
      entries := [];
    }
  }

  class TreeNode {
    ghost const path: Path
    const id: Id
    var node: Option<Grant>
    const children: Branch

    constructor (ghost path: Path, id: Id)
      ensures this.path == path && this.id == id && node == None
      ensures fresh(children) && children.path == path && children.entries == []
    {
      this.path := path;
      this.id := id;
      node := None;
      children := new Branch(path);
    }
  }

  /** The entry at each path, and the branch below each path (the roots' is `[]`). */
  type Index = map<Path, TreeNode>
  type Branches = map<Path, seq<TreeNode>>

  /** Each entry knows its path, which ends in its id: no entry is at two paths. */
  ghost predicate Named(at: Index) {
    [] !in at && forall p :: p in at ==> at[p].path == p && at[p].id == p[|p| - 1]
  }

  /** The entry at `p` is in its parent's branch. */
  ghost predicate ListedAt(at: Index, kids: Branches, p: Path)
    requires p in at
  {
    p != [] && p[..|p| - 1] in kids && at[p] in kids[p[..|p| - 1]]
  }

  ghost predicate Listed(at: Index, kids: Branches) {
    forall p {:trigger ListedAt(at, kids, p)} :: p in at ==> ListedAt(at, kids, p)
  }

  /** `c` is the entry one step below `p`. */
  ghost predicate Child(at: Index, p: Path, c: TreeNode) {
    p + [c.id] in at && at[p + [c.id]] == c
  }

  /** A branch holds entries one step further down. */
  ghost predicate Linked(at: Index, kids: Branches) {
    forall p, i {:trigger Child(at, p, kids[p][i])} ::
      p in kids && 0 <= i < |kids[p]| ==> Child(at, p, kids[p][i])
  }

  predicate DistinctIds(branch: seq<TreeNode>) {
    forall i, j :: 0 <= i < j < |branch| ==> branch[i].id != branch[j].id
  }

  ghost predicate Siblings(kids: Branches) {
    forall p {:trigger DistinctIds(kids[p])} :: p in kids ==> DistinctIds(kids[p])
  }

  /** Paths and entries correspond one to one, and branches are what the paths say. */
  ghost predicate Tree(at: Index, kids: Branches) {
    && kids.Keys == at.Keys + {[]}
    && Named(at) && Listed(at, kids) && Linked(at, kids) && Siblings(kids)
  }

  /** No entry has two parents, or two places under one. */
  lemma OneParent(at: Index, kids: Branches, p: Path, i: nat, q: Path, j: nat)
    requires Tree(at, kids) && p in kids && q in kids && i < |kids[p]| && j < |kids[q]|
    requires kids[p][i] == kids[q][j]
    ensures p == q && i == j
  {
    var c := kids[p][i];
    assert Child(at, p, kids[p][i]) && Child(at, q, kids[q][j]);
    assert (p + [c.id])[..|p|] == p && (q + [c.id])[..|q|] == q;
    assert DistinctIds(kids[p]);
  }

  lemma Missing(at: Index, kids: Branches, p: Path, id: Id)
    requires Tree(at, kids) && p in kids
    requires forall i :: 0 <= i < |kids[p]| ==> kids[p][i].id != id
    ensures p + [id] !in at
  {
    var path := p + [id];
    assert path[..|path| - 1] == p && path[|path| - 1] == id;
    assert path in at ==> ListedAt(at, kids, path);
  }

  /** Adding an entry at the end of a branch that has no such id. */
  ghost function Longer(kids: Branches, p: Path, entry: TreeNode): Branches
    requires p in kids
  {
    kids[p := kids[p] + [entry]][p + [entry.id] := []]
  }

  lemma GrowsNamed(at: Index, p: Path, entry: TreeNode)
    requires Named(at) && entry.path == p + [entry.id]
    ensures Named(at[p + [entry.id] := entry])
  {
  }

  lemma GrowsListed(at: Index, kids: Branches, p: Path, entry: TreeNode)
    requires Listed(at, kids) && p in kids && p + [entry.id] !in kids
    ensures Listed(at[p + [entry.id] := entry], Longer(kids, p, entry))
  {
    var path := p + [entry.id];
    var at', kids' := at[path := entry], Longer(kids, p, entry);
    assert path[..|path| - 1] == p;
    forall q | q in at' ensures ListedAt(at', kids', q) {
      if q != path { assert ListedAt(at, kids, q); }
    }
  }

  lemma GrowsLinked(at: Index, kids: Branches, p: Path, entry: TreeNode)
    requires Linked(at, kids) && p in kids && p + [entry.id] !in at && p + [entry.id] !in kids
    ensures Linked(at[p + [entry.id] := entry], Longer(kids, p, entry))
  {
    var path := p + [entry.id];
    var at', kids' := at[path := entry], Longer(kids, p, entry);
    forall q, i | q in kids' && 0 <= i < |kids'[q]| ensures Child(at', q, kids'[q][i]) {
      if q != p || i < |kids[p]| {
        assert kids'[q][i] == kids[q][i];
        assert Child(at, q, kids[q][i]);
      }
    }
  }

  lemma GrowsSiblings(at: Index, kids: Branches, p: Path, entry: TreeNode)
    requires Siblings(kids) && Linked(at, kids) && p in kids && p + [entry.id] !in at
    ensures Siblings(Longer(kids, p, entry))
  {
    var kids' := Longer(kids, p, entry);
    forall i | 0 <= i < |kids[p]| ensures kids[p][i].id != entry.id {
      assert Child(at, p, kids[p][i]);
    }
    forall q | q in kids' ensures DistinctIds(kids'[q]) {
      if q in kids { assert DistinctIds(kids[q]); }
    }
  }

  /** Growing keeps the tree. */
  lemma Grows(at: Index, kids: Branches, p: Path, entry: TreeNode)
    requires Tree(at, kids) && p in kids && p + [entry.id] !in at && entry.path == p + [entry.id]
    ensures Tree(at[p + [entry.id] := entry], Longer(kids, p, entry))
  {
    GrowsNamed(at, p, entry);
    GrowsListed(at, kids, p, entry);
    GrowsLinked(at, kids, p, entry);
    GrowsSiblings(at, kids, p, entry);
  }

  /** The array below each path: an entry's children, and none used twice. */
  type Arrays = map<Path, Branch>

  ghost predicate Separate(at: Index, arrays: Arrays) {
    && arrays.Keys == at.Keys + {[]}
    && (forall p :: p in at ==> arrays[p] == at[p].children)
    && (forall p :: p in arrays ==> arrays[p].path == p)
  }

  lemma GrowsSeparate(at: Index, arrays: Arrays, path: Path, entry: TreeNode)
    requires Separate(at, arrays) && path != [] && entry.children.path == path
    ensures Separate(at[path := entry], arrays[path := entry.children])
  {
  }

  /** Where everything is: entries and arrays by path, branches, the value shown, the
      order paths were first met in, and the objects all this is made of. */
  datatype Layout = Layout(at: Index, kids: Branches, arrays: Arrays, shape: Shape,
                           order: seq<Path>, repr: set<object>)

  function IdsOf(branch: seq<TreeNode>): seq<Id> {
    seq(|branch|, i requires 0 <= i < |branch| => branch[i].id)
  }

  /** Siblings are listed in the order they were first met. */
  ghost predicate Ordered(kids: Branches, order: seq<Path>) {
    forall p {:trigger kids[p]} :: p in kids ==> IdsOf(kids[p]) == ChildIds(order, p)
  }

  /** The order lists exactly the entries' paths. */
  ghost predicate Listing(at: Index, order: seq<Path>) {
    forall p :: p in order <==> p in at
  }

  /** Nothing is listed below a path that is not there. */
  lemma {:induction false} NothingBelow(at: Index, kids: Branches, order: seq<Path>, path: Path)
    requires Tree(at, kids) && path !in kids
    requires forall p :: p in order ==> p in at
    ensures ChildIds(order, path) == []
  {
    if order != [] {
      var front, last := order[..|order| - 1], order[|order| - 1];
      assert order == front + [last];
      NothingBelow(at, kids, front, path);
      assert ListedAt(at, kids, last);
    }
  }

  lemma GrowsOrdered(kids: Branches, order: seq<Path>, p: Path, entry: TreeNode)
    requires Ordered(kids, order) && p in kids && p + [entry.id] !in kids
    requires ChildIds(order, p + [entry.id]) == []
    ensures Ordered(Longer(kids, p, entry), order + [p + [entry.id]])
  {
    var path := p + [entry.id];
    var kids' := Longer(kids, p, entry);
    assert path[..|path| - 1] == p && path[|path| - 1] == entry.id;
    forall q | q in kids' ensures IdsOf(kids'[q]) == ChildIds(order + [path], q) {
      ChildIdsMore(order, path, q);
      if q == p { assert IdsOf(kids[p] + [entry]) == IdsOf(kids[p]) + [entry.id]; }
    }
  }

  /** The objects a forest is made of. */
  ghost predicate Contained(at: Index, arrays: Arrays, repr: set<object>) {
    && (forall p :: p in arrays ==> arrays[p] in repr)
    && (forall p :: p in at ==> at[p] in repr)
  }

  lemma GrowsContained(at: Index, arrays: Arrays, repr: set<object>, path: Path, entry: TreeNode)
    requires Contained(at, arrays, repr)
    ensures Contained(at[path := entry], arrays[path := entry.children], repr + {entry, entry.children})
  {
  }

  /** A tree in separate arrays, with a grant slot per path. */
  ghost predicate Sound(l: Layout) {
    && Tree(l.at, l.kids) && Separate(l.at, l.arrays) && l.shape.Keys == l.at.Keys
    && Ordered(l.kids, l.order) && Listing(l.at, l.order)
    && Contained(l.at, l.arrays, l.repr)
  }

  /** The arrays hold the branches, and the entries show the grants. */
  ghost predicate Holds(l: Layout)
    requires Sound(l)
    reads l.repr
  {
    && (forall p :: p in l.arrays ==> l.arrays[p].entries == l.kids[p])
    && (forall p :: p in l.at ==> l.at[p].node == l.shape[p])
  }

  /** The whole invariant of a forest with these roots. */
  ghost predicate Good(l: Layout, roots: Branch)
    reads l.repr
  {
    Sound(l) && Holds(l) && l.arrays[[]] == roots
  }

  ghost function Grown(l: Layout, p: Path, entry: TreeNode): Layout
    requires p in l.kids
  {
    var path := p + [entry.id];
    Layout(l.at[path := entry], Longer(l.kids, p, entry), l.arrays[path := entry.children],
           l.shape[path := None], l.order + [path], l.repr + {entry, entry.children})
  }

  ghost function Showing(l: Layout, p: Path, g: Grant): Layout {
    l.(shape := l.shape[p := Some(g)])
  }

  lemma GrowsListing(at: Index, order: seq<Path>, path: Path, entry: TreeNode)
    requires Listing(at, order)
    ensures Listing(at[path := entry], order + [path])
  {
  }

  lemma NewPath(l: Layout, path: Path)
    requires Sound(l) && path != [] && path !in l.at
    ensures path !in l.kids && ChildIds(l.order, path) == []
  {
    NothingBelow(l.at, l.kids, l.order, path);
  }

  lemma SoundGrows(l: Layout, p: Path, entry: TreeNode)
    requires Sound(l) && p in l.kids && p + [entry.id] !in l.at
    requires entry.path == p + [entry.id] == entry.children.path
    ensures Sound(Grown(l, p, entry))
  {
    hide Tree;
    hide Separate;
    hide Ordered;
    hide Listing;
    hide Contained;
    var path := p + [entry.id];
    NewPath(l, path);
    GrowsOrdered(l.kids, l.order, p, entry);
    GrowsListing(l.at, l.order, path, entry);
    GrowsContained(l.at, l.arrays, l.repr, path, entry);
    Grows(l.at, l.kids, p, entry);
    GrowsSeparate(l.at, l.arrays, path, entry);
    assert l.at[path := entry].Keys == l.at.Keys + {path};
    assert l.shape[path := None].Keys == l.shape.Keys + {path};
  }

  /** After the push, with every other array and entry as it was. */
  lemma HoldsGrown(l: Layout, p: Path, entry: TreeNode)
    requires Sound(l) && p in l.kids && p + [entry.id] !in l.at && Sound(Grown(l, p, entry))
    requires l.arrays[p].entries == l.kids[p] + [entry] && entry.children.entries == [] && entry.node == None
    requires forall q :: q in l.arrays && q != p ==> l.arrays[q].entries == l.kids[q]
    requires forall q :: q in l.at ==> l.at[q].node == l.shape[q]
    ensures Holds(Grown(l, p, entry))
  {
    hide Ordered;
    hide Listing;
    hide Named;
    hide Listed;
    hide Linked;
    hide Siblings;
    var next := Grown(l, p, entry);
    forall q | q in next.arrays ensures next.arrays[q].entries == next.kids[q] {
    }
    forall q | q in next.at ensures next.at[q].node == next.shape[q] {
    }
  }

  /** What the invariant says of one path. */
  lemma GoodAt(l: Layout, roots: Branch, p: Path)
    requires Good(l, roots)
    ensures [] in l.arrays && l.arrays[[]] == roots
    ensures p in l.arrays ==> p in l.kids && l.arrays[p] in l.repr
    ensures p in l.at <==> p in l.shape
    ensures p in l.at <==> p in l.order
    ensures p in l.at ==> l.at[p] in l.repr && p in l.arrays && l.arrays[p] == l.at[p].children
  {
  }

  lemma ArraysApart(l: Layout, p: Path)
    requires Sound(l) && p in l.arrays
    ensures p in l.kids && l.arrays[p].path == p
    ensures forall q :: q in l.arrays && q != p ==> l.arrays[q] != l.arrays[p]
  {
  }

  /** Pushes a new entry onto the array below `p`. */
  method Push(ghost l: Layout, ghost roots: Branch, ghost p: Path, branch: Branch, entry: TreeNode)
    requires Good(l, roots) && p in l.arrays && branch == l.arrays[p] && p + [entry.id] !in l.at
    requires entry.path == p + [entry.id] == entry.children.path
    requires entry.children.entries == [] && entry.node == None
    modifies branch
    ensures p in l.kids && Good(Grown(l, p, entry), roots)
  {
    hide Tree;
    hide Separate;
    hide Ordered;
    hide Listing;
    ArraysApart(l, p);
    assert |entry.children.path| > |p|;
    SoundGrows(l, p, entry);
    branch.entries := branch.entries + [entry];
    HoldsGrown(l, p, entry);
  }

  /** Shows a grant at the entry at `p`. */
  method Place(ghost l: Layout, ghost roots: Branch, ghost p: Path, entry: TreeNode, g: Grant)
    requires Good(l, roots) && p in l.at && entry == l.at[p]
    modifies entry
    ensures Good(Showing(l, p, g), roots)
  {
    hide Contained;
    hide Ordered;
    hide Listing;
    hide Listed;
    hide Linked;
    hide Siblings;
    entry.node := Some(g);
  }

  /** The child of a known path with this id, if there is one. */
  method Find(ghost l: Layout, ghost roots: Branch, ghost p: Path, branch: Branch, id: Id) returns (found: TreeNode?)
    requires Good(l, roots) && p in l.arrays && branch == l.arrays[p]
    ensures found == null <==> p + [id] !in l.at
    ensures found != null ==> p + [id] in l.at && l.at[p + [id]] == found
  {
    var i := FindIndex(branch.entries, id);
    if i < |branch.entries| {
      assert Child(l.at, p, l.kids[p][i]);
      found := branch.entries[i];
    } else {
      Missing(l.at, l.kids, p, id);
      found := null;
    }
  }

  method FindIndex(branch: seq<TreeNode>, id: Id) returns (i: nat)
    ensures i <= |branch| && (i < |branch| ==> branch[i].id == id)
    ensures forall k :: 0 <= k < i ==> branch[k].id != id
  {
    i := 0;
    while i < |branch| && branch[i].id != id
      invariant 0 <= i <= |branch|
      invariant forall k :: 0 <= k < i ==> branch[k].id != id
    {
      i := i + 1;
    }
  }
}
