/** The bounded forward journey: level-by-level BFS with a hard node cap. */
module Journey {
  import opened Graph

  type Id = int

  datatype Node = Node(id: Id, kind: string, name: string)

  datatype Edge = Edge(src: Id, dst: Id, kind: string, confidence: real)

  type EdgeKey = (Id, Id, string)

  /** One project's rows. `fetchOrder` is the order in which the store returns a set of ids. */
  datatype Project = Project(nodes: map<Id, Node>, edges: seq<Edge>, fetchOrder: set<Id> -> seq<Id>)

  const MAX_JOURNEY_NODES := 500

  datatype Subgraph = NodeNotFound | Subgraph(nodes: map<Id, Node>, edges: map<EdgeKey, Edge>)

  /** The store returns exactly the project's nodes among the ids asked for, once each. */
  ghost predicate Fetches(p: Project) {
    forall ids: set<Id> ::
      && (forall i :: 0 <= i < |p.fetchOrder(ids)| ==> p.fetchOrder(ids)[i] in ids && p.fetchOrder(ids)[i] in p.nodes)
      && (forall v :: v in ids && v in p.nodes ==> v in p.fetchOrder(ids))
      && (forall i, j :: 0 <= i < j < |p.fetchOrder(ids)| ==> p.fetchOrder(ids)[i] != p.fetchOrder(ids)[j])
  }

  function KeyOf(e: Edge): EdgeKey { (e.src, e.dst, e.kind) }

  ghost predicate Hop(p: Project, u: Id, v: Id) {
    v in p.nodes && exists e :: e in p.edges && e.src == u && e.dst == v
  }

  ghost function Hops(p: Project): (Id, Id) -> bool {
    (u, v) => Hop(p, u, v)
  }

  ghost predicate Near(p: Project, root: Id, d: nat, v: Id) {
    Within(Hops(p), root, d, v)
  }

  /** The set `level` is what is new at distance `d`. */
  ghost predicate IsLevel(p: Project, root: Id, d: nat, level: set<Id>) {
    forall v :: v in level <==> Near(p, root, d, v) && (d > 0 ==> !Near(p, root, d - 1, v))
  }

  /** `es` holds only out-edges of nodes nearer than `d`. */
  ghost predicate EdgesSound(p: Project, root: Id, d: nat, es: map<EdgeKey, Edge>) {
    RealEdges(p, es) && forall k :: k in es ==> d > 0 && Near(p, root, d - 1, k.0)
  }

  /** Every edge is the project's, under its own source, target and kind. */
  ghost predicate RealEdges(p: Project, es: map<EdgeKey, Edge>) {
    forall k :: k in es ==> es[k] in p.edges && es[k].src == k.0 && es[k].dst == k.1 && es[k].kind == k.2
  }

  /** `es` are exactly the out-edges of the nodes nearer than `d`. */
  ghost predicate EdgesBelow(p: Project, root: Id, d: nat, es: map<EdgeKey, Edge>) {
    && EdgesSound(p, root, d, es)
    && (forall e :: e in p.edges && d > 0 && Near(p, root, d - 1, e.src) ==> (e.src, e.dst, e.kind) in es)
  }

  /** Below the cap the nodes held are exactly the ball of radius `d`. */
  ghost predicate BallHeld(p: Project, root: Id, d: nat, nodes: map<Id, Node>) {
    forall v :: v in nodes <==> Near(p, root, d, v)
  }

  ghost predicate SomeHeld(p: Project, root: Id, d: nat, nodes: map<Id, Node>) {
    && |nodes| <= MAX_JOURNEY_NODES
    && root in nodes
    && forall v :: v in nodes ==> v in p.nodes && nodes[v] == p.nodes[v] && Near(p, root, d, v)
  }

  /** An empty level closes the ball: it does not grow any more. */
  lemma {:induction false} EmptyLevelCloses(p: Project, root: Id, d: nat, e: nat, v: Id)
    requires d > 0 && d <= e + 1
    requires IsLevel(p, root, d, {})
    ensures Near(p, root, e, v) <==> Near(p, root, d - 1, v)
    decreases e
  {
    forall x ensures Near(p, root, d, x) <==> Near(p, root, d - 1, x) {
      assert x !in {};
      if Near(p, root, d - 1, x) { WithinGrows(Hops(p), root, d - 1, d, x); }
    }
    if d <= e {
      EmptyLevelCloses(p, root, d, e - 1, v);
      forall u | Near(p, root, e - 1, u) && Hop(p, u, v) ensures Near(p, root, d, v) {
        EmptyLevelCloses(p, root, d, e - 1, u);
        assert Hops(p)(u, v);
      }
    }
  }

  /** The edges out of the frontier, and the nodes they newly reach. */
  method OutEdges(p: Project, frontier: set<Id>, nodes: map<Id, Node>, edges: map<EdgeKey, Edge>)
    returns (es: map<EdgeKey, Edge>, discovered: set<Id>)
    ensures Found(p, nodes, edges, frontier, es, discovered)
  {
    es, discovered := edges, {};
    for n := 0 to |p.edges|
      invariant forall k :: k in es ==>
                  (k in edges && es[k] == edges[k]) || (es[k] in p.edges && KeyOf(es[k]) == k && k.0 in frontier)
      invariant forall k :: k in edges ==> k in es
      invariant forall i :: 0 <= i < n && p.edges[i].src in frontier ==> KeyOf(p.edges[i]) in es
      invariant forall v :: v in discovered <==>
                  v !in nodes && exists i :: 0 <= i < n && p.edges[i].src in frontier && p.edges[i].dst == v
    {
      var edge := p.edges[n];
      if edge.src in frontier {
        es := es[KeyOf(edge) := edge];
        if edge.dst !in nodes {
          discovered := discovered + {edge.dst};
        }
      }
    }
  }

  /** The rows `found` were taken in their order, until none was left or the cap was reached. */
  ghost predicate TakenInOrder(found: seq<Id>, nodes: map<Id, Node>, r: map<Id, Node>) {
    exists n ::
      && 0 <= n <= |found|
      && (forall v :: v in r <==> v in nodes || v in found[..n])
      && (n < |found| ==> |r| == MAX_JOURNEY_NODES)
  }

  /** Hydrate the discovered ids, stopping at the cap. */
  method Hydrate(p: Project, discovered: set<Id>, nodes: map<Id, Node>) returns (r: map<Id, Node>)
    requires Fetches(p) && |nodes| <= MAX_JOURNEY_NODES && (forall v :: v in discovered ==> v !in nodes)
    ensures Hydrated(p, nodes, discovered, r)
    ensures TakenInOrder(p.fetchOrder(discovered), nodes, r)
  {
    r := nodes;
    var found := p.fetchOrder(discovered);
    var n := 0;
    while n < |found|
      invariant 0 <= n <= |found|
      invariant |r| <= MAX_JOURNEY_NODES
      invariant forall v :: v in nodes ==> v in r && r[v] == nodes[v]
      invariant forall v :: v in r ==> (v in nodes && r[v] == nodes[v]) || (v in discovered && v in p.nodes && r[v] == p.nodes[v])
      invariant forall v :: v in r <==> v in nodes || v in found[..n]
    {
      if |r| >= MAX_JOURNEY_NODES {
        return;
      }
      r := r[found[n] := p.nodes[found[n]]];
      n := n + 1;
    }
  }

  /** What the loop knows after `d` levels. */
  ghost predicate LevelInv(p: Project, root: Id, d: nat, nodes: map<Id, Node>, edges: map<EdgeKey, Edge>, frontier: set<Id>) {
    && SomeHeld(p, root, d, nodes)
    && EdgesSound(p, root, d, edges)
    && (forall v :: v in frontier ==> Near(p, root, d, v))
    && (|nodes| < MAX_JOURNEY_NODES ==>
          BallHeld(p, root, d, nodes) && EdgesBelow(p, root, d, edges) && IsLevel(p, root, d, frontier))
    && (|nodes| >= MAX_JOURNEY_NODES ==> d > 0 && CutAtLevel(p, root, d - 1, nodes, edges))
  }

  /** The nearest nodes come first: the whole ball of radius `d`, then some nodes one hop
      further, and exactly the out-edges of the ball. */
  ghost predicate CutAtLevel(p: Project, root: Id, d: nat, nodes: map<Id, Node>, edges: map<EdgeKey, Edge>) {
    && (forall v :: Near(p, root, d, v) ==> v in nodes)
    && (forall v :: v in nodes ==> Near(p, root, d + 1, v))
    && EdgesBelow(p, root, d + 1, edges)
  }

  /** What one pass over the frontier's edges found. */
  ghost predicate Found(p: Project, nodes: map<Id, Node>, edges: map<EdgeKey, Edge>, frontier: set<Id>,
                        es: map<EdgeKey, Edge>, discovered: set<Id>)
  {
    && (forall k :: k in es ==>
          (k in edges && es[k] == edges[k]) || (es[k] in p.edges && KeyOf(es[k]) == k && k.0 in frontier))
    && (forall k :: k in edges ==> k in es)
    && (forall e :: e in p.edges && e.src in frontier ==> KeyOf(e) in es)
    && (forall v :: v in discovered <==>
          v !in nodes && exists e :: e in p.edges && e.src in frontier && e.dst == v)
  }

  ghost predicate Hydrated(p: Project, nodes: map<Id, Node>, discovered: set<Id>, ns: map<Id, Node>) {
    && |ns| <= MAX_JOURNEY_NODES
    && (forall v :: v in nodes ==> v in ns && ns[v] == nodes[v])
    && (forall v :: v in ns && v !in nodes ==> v in discovered && v in p.nodes && ns[v] == p.nodes[v])
    && (|ns| < MAX_JOURNEY_NODES ==> forall v :: v in discovered && v in p.nodes ==> v in ns)
  }

  lemma NearHop(p: Project, root: Id, d: nat, u: Id, v: Id)
    requires Near(p, root, d, u) && Hop(p, u, v)
    ensures Near(p, root, d + 1, v)
  {
    assert Hops(p)(u, v);
  }

  lemma DiscoveredNear(p: Project, root: Id, d: nat, frontier: set<Id>, v: Id)
    requires forall u :: u in frontier ==> Near(p, root, d, u)
    requires v in p.nodes && exists e :: e in p.edges && e.src in frontier && e.dst == v
    ensures Near(p, root, d + 1, v)
  {
    var e :| e in p.edges && e.src in frontier && e.dst == v;
    NearHop(p, root, d, e.src, v);
  }

  lemma HeldStep(p: Project, root: Id, d: nat, nodes: map<Id, Node>, discovered: set<Id>, ns: map<Id, Node>)
    requires SomeHeld(p, root, d, nodes) && Hydrated(p, nodes, discovered, ns)
    requires forall v :: v in discovered && v in p.nodes ==> Near(p, root, d + 1, v)
    ensures SomeHeld(p, root, d + 1, ns)
  {
    HeldGrows(p, root, d, d + 1, nodes);
  }

  lemma EdgesStep(p: Project, root: Id, d: nat, nodes: map<Id, Node>, edges: map<EdgeKey, Edge>, frontier: set<Id>,
                  es: map<EdgeKey, Edge>, discovered: set<Id>)
    requires EdgesSound(p, root, d, edges) && Found(p, nodes, edges, frontier, es, discovered)
    requires forall v :: v in frontier ==> Near(p, root, d, v)
    ensures EdgesSound(p, root, d + 1, es)
  {
    forall k | k in es ensures es[k] in p.edges && KeyOf(es[k]) == k && Near(p, root, d, k.0) {
      if k in edges { WithinGrows(Hops(p), root, d - 1, d, k.0); }
    }
  }

  lemma LevelStep(p: Project, root: Id, d: nat, nodes: map<Id, Node>, edges: map<EdgeKey, Edge>, frontier: set<Id>,
                  ns: map<Id, Node>, es: map<EdgeKey, Edge>, discovered: set<Id>)
    requires LevelInv(p, root, d, nodes, edges, frontier) && |nodes| < MAX_JOURNEY_NODES
    requires Found(p, nodes, edges, frontier, es, discovered) && Hydrated(p, nodes, discovered, ns)
    ensures LevelInv(p, root, d + 1, ns, es, set v | v in discovered && v in ns)
  {
    forall v | v in discovered && v in p.nodes ensures Near(p, root, d + 1, v) {
      DiscoveredNear(p, root, d, frontier, v);
    }
    HeldStep(p, root, d, nodes, discovered, ns);
    EdgesStep(p, root, d, nodes, edges, frontier, es, discovered);
    EdgesExact(p, root, d, nodes, edges, frontier, es, discovered);
    if |ns| < MAX_JOURNEY_NODES {
      LevelExact(p, root, d, nodes, edges, frontier, ns, es, discovered);
    }
  }

  /** Below the cap a pass over the frontier's edges completes the out-edges of the ball. */
  lemma EdgesExact(p: Project, root: Id, d: nat, nodes: map<Id, Node>, edges: map<EdgeKey, Edge>, frontier: set<Id>,
                   es: map<EdgeKey, Edge>, discovered: set<Id>)
    requires LevelInv(p, root, d, nodes, edges, frontier) && |nodes| < MAX_JOURNEY_NODES
    requires Found(p, nodes, edges, frontier, es, discovered)
    ensures EdgesBelow(p, root, d + 1, es)
  {
    EdgesStep(p, root, d, nodes, edges, frontier, es, discovered);
    forall e | e in p.edges && Near(p, root, d, e.src) ensures KeyOf(e) in es {
      if d > 0 && Near(p, root, d - 1, e.src) { assert KeyOf(e) in edges; } else { assert e.src in frontier; }
    }
  }

  lemma LevelExact(p: Project, root: Id, d: nat, nodes: map<Id, Node>, edges: map<EdgeKey, Edge>, frontier: set<Id>,
                   ns: map<Id, Node>, es: map<EdgeKey, Edge>, discovered: set<Id>)
    requires LevelInv(p, root, d, nodes, edges, frontier) && |nodes| < MAX_JOURNEY_NODES
    requires Found(p, nodes, edges, frontier, es, discovered) && Hydrated(p, nodes, discovered, ns)
    requires |ns| < MAX_JOURNEY_NODES
    requires forall v :: v in discovered && v in p.nodes ==> Near(p, root, d + 1, v)
    ensures BallHeld(p, root, d + 1, ns)
    ensures IsLevel(p, root, d + 1, set v | v in discovered && v in ns)
  {
    forall v | Near(p, root, d + 1, v) && !Near(p, root, d, v) ensures v in discovered && v in ns {
      var u :| Near(p, root, d, u) && Hops(p)(u, v);
      ReachedFromFrontier(p, root, d, u, v, frontier);
    }
  }

  /** A node new at distance `d + 1` hangs off a node at distance exactly `d`. */
  lemma ReachedFromFrontier(p: Project, root: Id, d: nat, u: Id, v: Id, frontier: set<Id>)
    requires IsLevel(p, root, d, frontier)
    requires Near(p, root, d, u) && Hop(p, u, v) && !Near(p, root, d, v)
    ensures u in frontier && v in p.nodes && exists e :: e in p.edges && e.src in frontier && e.dst == v
  {
    if d > 0 && Near(p, root, d - 1, u) {
      NearHop(p, root, d - 1, u, v);
    }
  }

  /** What is promised when the node cap was not reached: the exact ball and its edges. */
  ghost predicate ExactJourney(p: Project, root: Id, radius: nat, nodes: map<Id, Node>, edges: map<EdgeKey, Edge>) {
    BallHeld(p, root, radius, nodes) && EdgesBelow(p, root, radius, edges)
  }

  lemma ClosedEarly(p: Project, root: Id, d: nat, radius: nat, nodes: map<Id, Node>, edges: map<EdgeKey, Edge>)
    requires d <= radius && LevelInv(p, root, d, nodes, edges, {}) && |nodes| < MAX_JOURNEY_NODES
    ensures ExactJourney(p, root, radius, nodes, edges)
  {
    assert d > 0;
    forall v ensures Near(p, root, radius, v) <==> Near(p, root, d, v) {
      EmptyLevelCloses(p, root, d, radius, v);
      EmptyLevelCloses(p, root, d, d, v);
    }
    forall e | e in p.edges && Near(p, root, radius - 1, e.src) ensures KeyOf(e) in edges {
      EmptyLevelCloses(p, root, d, radius - 1, e.src);
    }
    forall k | k in edges ensures Near(p, root, radius - 1, k.0) {
      EmptyLevelCloses(p, root, d, radius - 1, k.0);
    }
  }

  lemma HeldGrows(p: Project, root: Id, d: nat, radius: nat, nodes: map<Id, Node>)
    requires d <= radius && SomeHeld(p, root, d, nodes)
    ensures SomeHeld(p, root, radius, nodes)
  {
    forall v | v in nodes ensures Near(p, root, radius, v) {
      WithinGrows(Hops(p), root, d, radius, v);
    }
  }

  method Journey(p: Project, root: Id, maxDepth: int) returns (r: Subgraph)
    requires Fetches(p)
    ensures r.NodeNotFound? <==> root !in p.nodes
    ensures r.Subgraph? ==>
              var radius := if maxDepth < 0 then 0 else maxDepth;
              && SomeHeld(p, root, radius, r.nodes)
              && RealEdges(p, r.edges)
              && (|r.nodes| < MAX_JOURNEY_NODES ==> ExactJourney(p, root, radius, r.nodes, r.edges))
              && (|r.nodes| == MAX_JOURNEY_NODES ==>
                    exists d :: 0 <= d < radius && CutAtLevel(p, root, d, r.nodes, r.edges))
  {
    if root !in p.nodes {
      return NodeNotFound;
    }
    var nodes := map[root := p.nodes[root]];
    var edges: map<EdgeKey, Edge> := map[];
    var frontier := {root};
    var radius := if maxDepth < 0 then 0 else maxDepth;
    var depth := 0;
    while depth < radius
      invariant 0 <= depth <= radius
      invariant LevelInv(p, root, depth, nodes, edges, frontier)
    {
      if frontier == {} || |nodes| >= MAX_JOURNEY_NODES {
        break;
      }
      var es, discovered := OutEdges(p, frontier, nodes, edges);
      var ns := Hydrate(p, discovered, nodes);
      LevelStep(p, root, depth, nodes, edges, frontier, ns, es, discovered);
      nodes, edges := ns, es;
      frontier := set v | v in discovered && v in nodes;
      depth := depth + 1;
    }
    HeldGrows(p, root, depth, radius, nodes);
    if |nodes| < MAX_JOURNEY_NODES && depth < radius {
      ClosedEarly(p, root, depth, radius, nodes, edges);
    }
    if |nodes| == MAX_JOURNEY_NODES { assert CutAtLevel(p, root, depth - 1, nodes, edges); }
    r := Subgraph(nodes, edges);
  }
}
