/** The architecture diagram: what a connection may join, and what every edit of the
    canvas keeps. Ids come from `crypto.randomUUID()` and are taken to be new. */
module ArchitectureGraph {
  import opened Texts

  type Id = string

  datatype Kind = Application | Api | Group | Role | Stream | IdentityProvider | User | Gateway

  /** A node; `data` stands for label, identifier, mode, position and settings. */
  datatype Node = Node(id: Id, kind: Kind, data: int)

  datatype Edge = Edge(id: Id, source: Id, target: Id)

  datatype Graph = Graph(nodes: seq<Node>, edges: seq<Edge>)

  const EMPTY := Graph([], [])

  predicate ValidPair(from: Kind, to: Kind) {
    (from, to) in {
      (Application, Api), (Group, Role), (Application, Role), (Application, Stream), (Application, Gateway),
      (Api, Api), (Api, Gateway), (Gateway, Api), (IdentityProvider, Group), (IdentityProvider, User)}
  }

  /** `nodes.find(node => node.id === id)` */
  function Find(nodes: seq<Node>, id: Id): Option<Node> {
    if nodes == [] then None else if nodes[0].id == id then Some(nodes[0]) else Find(nodes[1..], id)
  }

  /** A pair of nodes that may be joined at all. */
  predicate Joinable(nodes: seq<Node>, source: Id, target: Id) {
    && source != target && Find(nodes, source).Some? && Find(nodes, target).Some?
    && ValidPair(Find(nodes, source).value.kind, Find(nodes, target).value.kind)
  }

  predicate Joined(edges: seq<Edge>, source: Id, target: Id) {
    exists i :: 0 <= i < |edges| && edges[i].source == source && edges[i].target == target
  }

  predicate ValidConnection(g: Graph, source: Id, target: Id) {
    Joinable(g.nodes, source, target) && !Joined(g.edges, source, target)
  }

  // ----- the edits -----

  function DropNode(nodes: seq<Node>, id: Id): seq<Node> {
    if nodes == [] then []
    else (if nodes[0].id != id then [nodes[0]] else []) + DropNode(nodes[1..], id)
  }

  function DropEdge(edges: seq<Edge>, id: Id): seq<Edge> {
    if edges == [] then []
    else (if edges[0].id != id then [edges[0]] else []) + DropEdge(edges[1..], id)
  }

  /** The edges that do not touch a node. */
  function Detach(edges: seq<Edge>, id: Id): seq<Edge> {
    if edges == [] then []
    else (if edges[0].source != id && edges[0].target != id then [edges[0]] else []) + Detach(edges[1..], id)
  }

  /** `map` over the nodes, changing only what `data` stands for. */
  function Redrawn(nodes: seq<Node>, data: Id -> int): seq<Node> {
    seq(|nodes|, i requires 0 <= i < |nodes| => nodes[i].(data := data(nodes[i].id)))
  }

  function Bff(app: Id, api: Id, edge: Id, data: int): Graph {
    Graph([Node(app, Application, data), Node(api, Api, data)], [Edge(edge, app, api)])
  }

  function WebTemplate(ids: seq<Id>): Graph
    requires |ids| == 7
  {
    Graph([Node(ids[0], Application, 0), Node(ids[1], Api, 0), Node(ids[2], Role, 0), Node(ids[3], Group, 0)],
          [Edge(ids[4], ids[0], ids[1]), Edge(ids[5], ids[0], ids[2]), Edge(ids[6], ids[3], ids[2])])
  }

  datatype Edit =
    | Connect(edge: Id, source: Id, target: Id)
    | AddNode(id: Id, kind: Kind, data: int)
    | AddBff(app: Id, api: Id, link: Id, data: int)
    | RemoveNode(id: Id)
    | RemoveEdge(edge: Id)
    | Redraw(draw: Id -> int)                        // drag, rename, reconfigure
    | UseTemplate(ids: seq<Id>)
    | UseBffTemplate(app: Id, api: Id, link: Id)
    | Clear

  function Step(g: Graph, e: Edit): Graph
    requires e.UseTemplate? ==> |e.ids| == 7
  {
    match e
    case Connect(edge, source, target) =>
      if ValidConnection(g, source, target) then g.(edges := g.edges + [Edge(edge, source, target)]) else g
    case AddNode(id, kind, data) => g.(nodes := g.nodes + [Node(id, kind, data)])
    case AddBff(app, api, link, data) =>
      var preset := Bff(app, api, link, data);
      Graph(g.nodes + preset.nodes, g.edges + preset.edges)
    case RemoveNode(id) => Graph(DropNode(g.nodes, id), Detach(g.edges, id))
    case RemoveEdge(edge) => g.(edges := DropEdge(g.edges, edge))
    case Redraw(draw) => g.(nodes := Redrawn(g.nodes, draw))
    case UseTemplate(ids) => WebTemplate(ids)
    case UseBffTemplate(app, api, link) => Bff(app, api, link, 0)
    case Clear => EMPTY
  }

  // ----- fresh ids -----

  predicate HasNode(nodes: seq<Node>, id: Id) { exists i :: 0 <= i < |nodes| && nodes[i].id == id }

  predicate HasEdge(edges: seq<Edge>, id: Id) { exists i :: 0 <= i < |edges| && edges[i].id == id }

  predicate Distinct(ids: seq<Id>) { forall i, j :: 0 <= i < j < |ids| ==> ids[i] != ids[j] }

  /** What `randomUUID` promises: ids not used before, and not twice at once. */
  predicate Fresh(g: Graph, e: Edit) {
    match e
    case Connect(edge, _, _) => !HasEdge(g.edges, edge)
    case AddNode(id, _, _) => !HasNode(g.nodes, id)
    case AddBff(app, api, link, _) =>
      !HasNode(g.nodes, app) && !HasNode(g.nodes, api) && app != api && !HasEdge(g.edges, link)
    case UseTemplate(ids) => |ids| == 7 && Distinct(ids)
    case UseBffTemplate(app, api, _) => app != api
    case _ => true
  }

  // ----- the invariant -----

  predicate UniqueNodes(nodes: seq<Node>) {
    forall i, j :: 0 <= i < j < |nodes| ==> nodes[i].id != nodes[j].id
  }

  /** Different ids, and not the same two nodes the same way. */
  predicate Differ(a: Edge, b: Edge) {
    a.id != b.id && (a.source != b.source || a.target != b.target)
  }

  predicate Simple(edges: seq<Edge>) {
    forall i, j :: 0 <= i < j < |edges| ==> Differ(edges[i], edges[j])
  }

  predicate Supported(nodes: seq<Node>, edges: seq<Edge>) {
    forall i :: 0 <= i < |edges| ==> Joinable(nodes, edges[i].source, edges[i].target)
  }

  predicate Inv(g: Graph) {
    UniqueNodes(g.nodes) && Simple(g.edges) && Supported(g.nodes, g.edges)
  }

  // ----- finding nodes -----

  lemma {:induction false} FindIs(nodes: seq<Node>, id: Id)
    ensures Find(nodes, id).Some? <==> HasNode(nodes, id)
    ensures Find(nodes, id).Some? ==> Find(nodes, id).value in nodes && Find(nodes, id).value.id == id
  {
    if nodes != [] {
      FindIs(nodes[1..], id);
      if HasNode(nodes, id) && nodes[0].id != id {
        var i :| 0 <= i < |nodes| && nodes[i].id == id;
        assert nodes[1..][i - 1].id == id;
      }
      if HasNode(nodes[1..], id) {
        var i :| 0 <= i < |nodes[1..]| && nodes[1..][i].id == id;
        assert nodes[i + 1].id == id;
      }
    }
  }

  lemma {:induction false} FindAppended(nodes: seq<Node>, more: seq<Node>, id: Id)
    requires Find(nodes, id).Some?
    ensures Find(nodes + more, id) == Find(nodes, id)
  {
    if nodes[0].id != id {
      assert (nodes + more)[1..] == nodes[1..] + more;
      FindAppended(nodes[1..], more, id);
    }
  }

  lemma {:induction false} FindDropped(nodes: seq<Node>, dropped: Id, id: Id)
    requires id != dropped
    ensures Find(DropNode(nodes, dropped), id) == Find(nodes, id)
  {
    if nodes != [] {
      FindDropped(nodes[1..], dropped, id);
      var rest := DropNode(nodes[1..], dropped);
      assert ([nodes[0]] + rest)[1..] == rest;
      assert [] + rest == rest;
    }
  }

  lemma {:induction false} FindRedrawn(nodes: seq<Node>, data: Id -> int, id: Id)
    ensures Find(Redrawn(nodes, data), id).Some? == Find(nodes, id).Some?
    ensures Find(nodes, id).Some? ==> Find(Redrawn(nodes, data), id).value.kind == Find(nodes, id).value.kind
  {
    if nodes != [] {
      assert Redrawn(nodes, data)[1..] == Redrawn(nodes[1..], data);
      FindRedrawn(nodes[1..], data, id);
    }
  }

  // ----- filtering -----

  lemma {:induction false} DropNodeIs(nodes: seq<Node>, id: Id)
    ensures forall n :: n in DropNode(nodes, id) <==> n in nodes && n.id != id
    ensures UniqueNodes(nodes) ==> UniqueNodes(DropNode(nodes, id))
  {
    if nodes != [] {
      DropNodeIs(nodes[1..], id);
      assert nodes == [nodes[0]] + nodes[1..];
      if UniqueNodes(nodes) {
        assert UniqueNodes(nodes[1..]);
        assert forall n :: n in nodes[1..] ==> n.id != nodes[0].id;
      }
    }
  }

  lemma {:induction false} DropEdgeIs(edges: seq<Edge>, id: Id)
    ensures forall e :: e in DropEdge(edges, id) <==> e in edges && e.id != id
    ensures Simple(edges) ==> Simple(DropEdge(edges, id))
  {
    if edges != [] {
      DropEdgeIs(edges[1..], id);
      assert edges == [edges[0]] + edges[1..];
      if Simple(edges) {
        assert Simple(edges[1..]);
        assert forall e :: e in edges[1..] ==> Differ(edges[0], e);
      }
    }
  }

  lemma {:induction false} DetachIs(edges: seq<Edge>, id: Id)
    ensures forall e :: e in Detach(edges, id) <==> e in edges && e.source != id && e.target != id
    ensures Simple(edges) ==> Simple(Detach(edges, id))
  {
    if edges != [] {
      DetachIs(edges[1..], id);
      assert edges == [edges[0]] + edges[1..];
      if Simple(edges) {
        assert Simple(edges[1..]);
        assert forall e :: e in edges[1..] ==> Differ(edges[0], e);
      }
    }
  }

  // ----- what every edit keeps -----

  lemma ConnectKeeps(g: Graph, edge: Id, source: Id, target: Id)
    requires Inv(g) && !HasEdge(g.edges, edge)
    ensures Inv(Step(g, Connect(edge, source, target)))
  {
  }

  lemma AppendSupported(nodes: seq<Node>, more: seq<Node>, edges: seq<Edge>)
    requires Supported(nodes, edges)
    ensures Supported(nodes + more, edges)
  {
    forall i | 0 <= i < |edges| ensures Joinable(nodes + more, edges[i].source, edges[i].target) {
      FindAppended(nodes, more, edges[i].source);
      FindAppended(nodes, more, edges[i].target);
    }
  }

  lemma AddNodeKeeps(g: Graph, id: Id, kind: Kind, data: int)
    requires Inv(g) && !HasNode(g.nodes, id)
    ensures Inv(Step(g, AddNode(id, kind, data)))
  {
    AppendSupported(g.nodes, [Node(id, kind, data)], g.edges);
  }

  lemma {:induction false} FindLater(nodes: seq<Node>, more: seq<Node>, id: Id)
    requires Find(nodes, id).None?
    ensures Find(nodes + more, id) == Find(more, id)
  {
    if nodes == [] {
      assert nodes + more == more;
    } else {
      assert (nodes + more)[1..] == nodes[1..] + more;
      FindLater(nodes[1..], more, id);
    }
  }

  lemma AddBffKeeps(g: Graph, app: Id, api: Id, link: Id, data: int)
    requires Inv(g) && Fresh(g, AddBff(app, api, link, data))
    ensures Inv(Step(g, AddBff(app, api, link, data)))
  {
    var preset := Bff(app, api, link, data);
    FindIs(g.nodes, app);
    FindIs(g.nodes, api);
    AppendSupported(g.nodes, preset.nodes, g.edges);
    FindLater(g.nodes, preset.nodes, app);
    FindLater(g.nodes, preset.nodes, api);
    assert preset.nodes[1..] == [Node(api, Api, data)];
    assert Find(preset.nodes, api) == Some(Node(api, Api, data));
    forall i | 0 <= i < |g.edges| ensures g.edges[i].source != app && g.edges[i].id != link {
      assert Joinable(g.nodes, g.edges[i].source, g.edges[i].target);
    }
  }

  lemma RemoveNodeKeeps(g: Graph, id: Id)
    requires Inv(g)
    ensures Inv(Step(g, RemoveNode(id)))
  {
    DropNodeIs(g.nodes, id);
    DetachIs(g.edges, id);
    var kept := Detach(g.edges, id);
    forall i | 0 <= i < |kept| ensures Joinable(DropNode(g.nodes, id), kept[i].source, kept[i].target) {
      assert kept[i] in g.edges;
      FindDropped(g.nodes, id, kept[i].source);
      FindDropped(g.nodes, id, kept[i].target);
    }
  }

  lemma RemoveEdgeKeeps(g: Graph, edge: Id)
    requires Inv(g)
    ensures Inv(Step(g, RemoveEdge(edge)))
  {
    DropEdgeIs(g.edges, edge);
    var kept := DropEdge(g.edges, edge);
    forall i | 0 <= i < |kept| ensures Joinable(g.nodes, kept[i].source, kept[i].target) {
      assert kept[i] in g.edges;
    }
  }

  lemma RedrawKeeps(g: Graph, draw: Id -> int)
    requires Inv(g)
    ensures Inv(Step(g, Redraw(draw)))
  {
    forall i | 0 <= i < |g.edges| ensures Joinable(Redrawn(g.nodes, draw), g.edges[i].source, g.edges[i].target) {
      FindRedrawn(g.nodes, draw, g.edges[i].source);
      FindRedrawn(g.nodes, draw, g.edges[i].target);
    }
  }

  lemma {:induction false} FindAt(nodes: seq<Node>, i: nat)
    requires UniqueNodes(nodes) && i < |nodes|
    ensures Find(nodes, nodes[i].id) == Some(nodes[i])
  {
    if i > 0 { FindAt(nodes[1..], i - 1); }
  }

  lemma TemplateKeeps(ids: seq<Id>)
    requires |ids| == 7 && Distinct(ids)
    ensures Inv(WebTemplate(ids))
  {
    var g := WebTemplate(ids);
    FindAt(g.nodes, 0);
    FindAt(g.nodes, 1);
    FindAt(g.nodes, 2);
    FindAt(g.nodes, 3);
  }

  lemma BffKeeps(app: Id, api: Id, link: Id)
    requires app != api
    ensures Inv(Bff(app, api, link, 0))
  {
    var g := Bff(app, api, link, 0);
    FindAt(g.nodes, 0);
    FindAt(g.nodes, 1);
  }

  lemma StepKeeps(g: Graph, e: Edit)
    requires Inv(g) && Fresh(g, e)
    ensures Inv(Step(g, e))
  {
    match e {
      case Connect(edge, source, target) => ConnectKeeps(g, edge, source, target);
      case AddNode(id, kind, data) => AddNodeKeeps(g, id, kind, data);
      case AddBff(app, api, link, data) => AddBffKeeps(g, app, api, link, data);
      case RemoveNode(id) => RemoveNodeKeeps(g, id);
      case RemoveEdge(edge) => RemoveEdgeKeeps(g, edge);
      case Redraw(draw) => RedrawKeeps(g, draw);
      case UseTemplate(ids) => TemplateKeeps(ids);
      case UseBffTemplate(app, api, link) => BffKeeps(app, api, link);
      case Clear =>
    }
  }

  ghost predicate ValidRun(g: Graph, edits: seq<Edit>)
    decreases |edits|
  {
    edits != [] ==> Fresh(g, edits[0]) && ValidRun(Step(g, edits[0]), edits[1..])
  }

  ghost function Run(g: Graph, edits: seq<Edit>): Graph
    requires ValidRun(g, edits)
    decreases |edits|
  {
    if edits == [] then g else Run(Step(g, edits[0]), edits[1..])
  }

  lemma {:induction false} RunKeeps(g: Graph, edits: seq<Edit>)
    requires Inv(g) && ValidRun(g, edits)
    ensures Inv(Run(g, edits))
    decreases |edits|
  {
    if edits != [] {
      StepKeeps(g, edits[0]);
      RunKeeps(Step(g, edits[0]), edits[1..]);
    }
  }

  /** Every diagram the editor can reach joins existing, distinct nodes of allowed
      kinds, each pair once; so nothing leaves a role, a user or a stream, and
      nothing enters an identity provider. */
  lemma ReachableGraphs(edits: seq<Edit>, i: nat)
    requires ValidRun(EMPTY, edits) && i < |Run(EMPTY, edits).edges|
    ensures Inv(Run(EMPTY, edits))
    ensures var g := Run(EMPTY, edits);
            var from, to := Find(g.nodes, g.edges[i].source), Find(g.nodes, g.edges[i].target);
            && from.Some? && to.Some? && from.value != to.value
            && from.value.kind !in {Role, User, Stream} && to.value.kind != IdentityProvider
  {
    RunKeeps(EMPTY, edits);
    var g := Run(EMPTY, edits);
    assert Joinable(g.nodes, g.edges[i].source, g.edges[i].target);
    FindIs(g.nodes, g.edges[i].source);
    FindIs(g.nodes, g.edges[i].target);
  }

  /** What each removal takes away and what it leaves: exactly the node and the edges
      that touch it, or exactly the edges with the id. */
  lemma RemovalIs(g: Graph, id: Id)
    ensures forall n :: n in Step(g, RemoveNode(id)).nodes <==> n in g.nodes && n.id != id
    ensures forall e :: e in Step(g, RemoveNode(id)).edges <==> e in g.edges && e.source != id && e.target != id
    ensures Step(g, RemoveEdge(id)).nodes == g.nodes
    ensures forall e :: e in Step(g, RemoveEdge(id)).edges <==> e in g.edges && e.id != id
  {
    DropNodeIs(g.nodes, id);
    DetachIs(g.edges, id);
    DropEdgeIs(g.edges, id);
  }

  /** A node just added can be connected wherever its kind allows, and removing it
      again restores the diagram. */
  lemma AddedNodeIs(g: Graph, id: Id, kind: Kind, data: int, other: Id)
    requires Inv(g) && !HasNode(g.nodes, id) && Find(g.nodes, other).Some?
    ensures var t := Step(g, AddNode(id, kind, data));
            && (ValidConnection(t, id, other) <==> ValidPair(kind, Find(g.nodes, other).value.kind))
            && (ValidConnection(t, other, id) <==> ValidPair(Find(g.nodes, other).value.kind, kind))
            && Step(t, RemoveNode(id)) == g
  {
    hide Inv;
    hide HasNode;
    hide DropNode;
    hide Detach;
    hide ValidPair;
    var added := Node(id, kind, data);
    FindIs(g.nodes, id);
    FindIs(g.nodes, other);
    FindAppended(g.nodes, [added], other);
    FindLater(g.nodes, [added], id);
    UnknownUntouched(g, id);
    DropAppended(g.nodes, added);
    DetachNone(g.edges, id);
  }

  /** No edge touches a node that is not there. */
  lemma UnknownUntouched(g: Graph, id: Id)
    requires Inv(g) && Find(g.nodes, id).None?
    ensures forall i :: 0 <= i < |g.edges| ==> g.edges[i].source != id && g.edges[i].target != id
  {
    forall i | 0 <= i < |g.edges| ensures g.edges[i].source != id && g.edges[i].target != id {
      assert Joinable(g.nodes, g.edges[i].source, g.edges[i].target);
    }
  }

  lemma {:induction false} DropAppended(nodes: seq<Node>, added: Node)
    requires !HasNode(nodes, added.id)
    ensures DropNode(nodes + [added], added.id) == nodes
  {
    if nodes == [] {
      assert (nodes + [added])[1..] == [];
    } else {
      assert (nodes + [added])[1..] == nodes[1..] + [added];
      assert nodes[0].id != added.id;
      forall i | 0 <= i < |nodes[1..]| ensures nodes[1..][i].id != added.id {
        assert nodes[1..][i] == nodes[i + 1];
      }
      DropAppended(nodes[1..], added);
    }
  }

  lemma {:induction false} DetachNone(edges: seq<Edge>, id: Id)
    requires forall i :: 0 <= i < |edges| ==> edges[i].source != id && edges[i].target != id
    ensures Detach(edges, id) == edges
  {
    if edges != [] { DetachNone(edges[1..], id); }
  }

  // ----- the warning -----

  /** The editor's own test for an unsupported link: each edge is checked against
      the diagram without it. */
  predicate Warns(g: Graph) {
    exists i :: 0 <= i < |g.edges| &&
      !ValidConnection(g.(edges := DropEdge(g.edges, g.edges[i].id)), g.edges[i].source, g.edges[i].target)
  }

  predicate UniqueIds(edges: seq<Edge>) {
    forall i, j :: 0 <= i < j < |edges| ==> edges[i].id != edges[j].id
  }

  /** For any diagram whose edges have distinct ids, one loaded from elsewhere
      included, the warning is off exactly when the edges are in order. */
  lemma WarningIsExact(g: Graph)
    requires UniqueIds(g.edges)
    ensures !Warns(g) <==> Simple(g.edges) && Supported(g.nodes, g.edges)
  {
    forall i | 0 <= i < |g.edges|
      ensures Joined(DropEdge(g.edges, g.edges[i].id), g.edges[i].source, g.edges[i].target) <==> HasTwin(g.edges, i)
    {
      TwinIs(g.edges, i);
    }
    if Simple(g.edges) {
      assert forall i :: 0 <= i < |g.edges| ==> !HasTwin(g.edges, i);
    } else {
      var i, j :| 0 <= i < j < |g.edges| && !Differ(g.edges[i], g.edges[j]);
      assert HasTwin(g.edges, i);
    }
  }

  /** Another edge joins the same two nodes the same way. */
  predicate HasTwin(edges: seq<Edge>, i: nat)
    requires i < |edges|
  {
    exists j :: 0 <= j < |edges| && j != i && edges[j].source == edges[i].source && edges[j].target == edges[i].target
  }

  lemma TwinIs(edges: seq<Edge>, i: nat)
    requires UniqueIds(edges) && i < |edges|
    ensures Joined(DropEdge(edges, edges[i].id), edges[i].source, edges[i].target) <==> HasTwin(edges, i)
  {
    var rest, e := DropEdge(edges, edges[i].id), edges[i];
    DropEdgeIs(edges, e.id);
    if HasTwin(edges, i) {
      var j :| 0 <= j < |edges| && j != i && edges[j].source == e.source && edges[j].target == e.target;
      assert edges[j] in rest;
    }
    if Joined(rest, e.source, e.target) {
      var k :| 0 <= k < |rest| && rest[k].source == e.source && rest[k].target == e.target;
      assert rest[k] in edges;
    }
  }

  // ----- what each edit adds -----

  /** Connecting adds the edge exactly when the pair may be joined and is not; after it
      the pair is joined, may not be joined again, and removing the edge undoes it. */
  lemma ConnectIs(g: Graph, edge: Id, source: Id, target: Id)
    requires !HasEdge(g.edges, edge)
    ensures var t := Step(g, Connect(edge, source, target));
            && t.nodes == g.nodes
            && (if ValidConnection(g, source, target)
                then t.edges == g.edges + [Edge(edge, source, target)] && Joined(t.edges, source, target)
                     && !ValidConnection(t, source, target) && Step(t, RemoveEdge(edge)) == g
                else t == g)
  {
    var added := Edge(edge, source, target);
    if ValidConnection(g, source, target) {
      var edges := g.edges + [added];
      assert edges[|g.edges|] == added;
      DropLastEdge(g.edges, added);
    }
  }

  lemma {:induction false} DropLastEdge(edges: seq<Edge>, added: Edge)
    requires !HasEdge(edges, added.id)
    ensures DropEdge(edges + [added], added.id) == edges
  {
    if edges == [] {
      assert (edges + [added])[1..] == [];
    } else {
      assert (edges + [added])[1..] == edges[1..] + [added];
      assert edges[0].id != added.id;
      forall i | 0 <= i < |edges[1..]| ensures edges[1..][i].id != added.id { assert edges[i + 1].id != added.id; }
      DropLastEdge(edges[1..], added);
    }
  }

  /** Adding a backend-for-frontend adds an application and an API, joined. */
  lemma AddBffIs(g: Graph, app: Id, api: Id, link: Id, data: int)
    ensures var t := Step(g, AddBff(app, api, link, data));
            && g.nodes <= t.nodes && |t.nodes| == |g.nodes| + 2 && g.edges <= t.edges && |t.edges| == |g.edges| + 1
            && t.nodes[|g.nodes|].id == app && t.nodes[|g.nodes|].kind == Application
            && t.nodes[|g.nodes| + 1].id == api && t.nodes[|g.nodes| + 1].kind == Api
            && t.edges[|g.edges|] == Edge(link, app, api)
            && Step(EMPTY, AddBff(app, api, link, 0)) == Step(g, UseBffTemplate(app, api, link))
  {
  }

  /** The web template starts over with an application that uses an API and a role that
      a group has as well. */
  lemma TemplateIs(g: Graph, ids: seq<Id>)
    requires |ids| == 7 && Distinct(ids)
    ensures var t := Step(g, UseTemplate(ids));
            && |t.nodes| == 4 && |t.edges| == 3
            && Find(t.nodes, ids[0]).Some? && Find(t.nodes, ids[0]).value.kind == Application
            && Find(t.nodes, ids[1]).Some? && Find(t.nodes, ids[1]).value.kind == Api
            && Find(t.nodes, ids[2]).Some? && Find(t.nodes, ids[2]).value.kind == Role
            && Find(t.nodes, ids[3]).Some? && Find(t.nodes, ids[3]).value.kind == Group
            && Joined(t.edges, ids[0], ids[1]) && Joined(t.edges, ids[0], ids[2]) && Joined(t.edges, ids[3], ids[2])
  {
    var t := WebTemplate(ids);
    forall k: nat | k < 4 ensures t.nodes[k].id == ids[k] {}
    assert UniqueNodes(t.nodes);
    forall k: nat | k < 4 ensures Find(t.nodes, ids[k]) == Some(t.nodes[k]) { FindAt(t.nodes, k); }
    assert t.edges[0].source == ids[0] && t.edges[1].source == ids[0] && t.edges[2].source == ids[3];
  }

  /** Redrawing changes nothing that a connection depends on. */
  lemma RedrawIs(g: Graph, draw: Id -> int)
    ensures var t := Step(g, Redraw(draw));
            && t.edges == g.edges && |t.nodes| == |g.nodes|
            && forall i :: 0 <= i < |g.nodes| ==>
                 t.nodes[i].id == g.nodes[i].id && t.nodes[i].kind == g.nodes[i].kind
                 && t.nodes[i].data == draw(g.nodes[i].id)
  {
  }
}
