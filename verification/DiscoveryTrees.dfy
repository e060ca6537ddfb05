/** Graphs whose paths are added below known parents: acyclic, valid, with links and indexes that are exact. */
module DiscoveryTrees {
  import opened CycleDetection
  import opened DiscoveryGraphs
  import opened DiscoveryRuns

  ghost predicate ParentsExist(g: Graph) {
    forall id :: id in g.nodes && g.nodes[id].parent != 0 ==> g.nodes[id].parent in g.nodes
  }

  /** Parent and child links are mutual inverses. */
  ghost predicate Inverse(g: Graph) {
    forall a, c :: a in g.nodes ==> (c in g.nodes[a].children <==> c in g.nodes && g.nodes[c].parent == a)
  }

  ghost predicate Ranked(g: Graph, rank: map<Id, nat>) {
    && rank.Keys == g.nodes.Keys
    && forall c :: c in g.nodes && g.nodes[c].parent in g.nodes ==> rank[g.nodes[c].parent] < rank[c]
  }

  ghost predicate Founded(g: Graph) { exists rank :: Ranked(g, rank) }

  ghost predicate OnPath(g: Graph, id: Id, path: string) {
    id in g.nodes && g.nodes[id].kind == PathNode && g.nodes[id].path == path
  }

  ghost predicate Distinct(ids: seq<Id>) {
    forall i, j :: 0 <= i < j < |ids| ==> ids[i] != ids[j]
  }

  /** `byPath[p]` lists exactly the path nodes for p, without repeats. */
  ghost predicate PathIndexed(g: Graph) {
    forall path :: Distinct(Listed(g.byPath, path)) && forall id :: id in Listed(g.byPath, path) <==> OnPath(g, id, path)
  }

  /** `bySignature` is a bijection between the signatures in use and the nodes. */
  ghost predicate SignatureIndexed(g: Graph) {
    && (forall id :: id in g.nodes ==> SignatureOf(g.nodes[id]) in g.bySignature
                                       && g.bySignature[SignatureOf(g.nodes[id])] == id)
    && (forall sig :: sig in g.bySignature ==> g.bySignature[sig] in g.nodes
                                               && SignatureOf(g.nodes[g.bySignature[sig]]) == sig)
  }

  /** Acyclic, with exact links and indexes. */
  ghost predicate Tree(g: Graph) {
    ParentsExist(g) && Inverse(g) && Founded(g) && PathIndexed(g) && SignatureIndexed(g)
  }

  ghost predicate Inv(g: Graph) { Sound(g) && Tree(g) }

  lemma ShapeKeeps(g: Graph, h: Graph)
    requires SameShape(g, h)
    requires Tree(g)
    ensures Tree(h)
  {
    var rank :| Ranked(g, rank);
    assert Ranked(h, rank);
    forall path ensures Distinct(Listed(h.byPath, path)) && forall id :: id in Listed(h.byPath, path) <==> OnPath(h, id, path) {
      assert forall id :: OnPath(g, id, path) <==> OnPath(h, id, path);
    }
  }

  // ---------- storing a node ----------

  /** A node as the two Add operations build it, below a known parent. */
  ghost predicate Newborn(g: Graph, n: Node) {
    && Unborn(g, n) && SignatureOf(n) !in g.bySignature && n.children == {}
    && (n.kind == SourceNode ==> n.parent == 0)
    && 0 !in g.nodes && (n.parent == 0 || n.parent in g.nodes)
  }

  /** The node map after an insertion. */
  function Grown(nodes: map<Id, Node>, n: Node): map<Id, Node> {
    Linked(nodes[n.id := n], n.parent, n.id)
  }

  lemma InsertedNodes(g: Graph, n: Node, event: Id)
    requires Newborn(g, n)
    ensures Insert(g, n, event).nodes == Grown(g.nodes, n)
  {
  }

  lemma GrownNodes(g: Graph, n: Node)
    requires Newborn(g, n)
    ensures var m := Grown(g.nodes, n);
            && m.Keys == g.nodes.Keys + {n.id}
            && m[n.id] == n
            && forall id :: id in g.nodes ==>
                 m[id] == if id == n.parent then g.nodes[id].(children := g.nodes[id].children + {n.id}) else g.nodes[id]
  {
  }

  lemma GrownParents(g: Graph, h: Graph, n: Node)
    requires ParentsExist(g) && Newborn(g, n) && h.nodes == Grown(g.nodes, n)
    ensures ParentsExist(h)
  {
    GrownNodes(g, n);
  }

  lemma GrownInverse(g: Graph, h: Graph, n: Node)
    requires ParentsExist(g) && Inverse(g)
    requires Newborn(g, n) && h.nodes == Grown(g.nodes, n)
    ensures Inverse(h)
  {
    GrownNodes(g, n);
    forall a, c | a in h.nodes ensures c in h.nodes[a].children <==> c in h.nodes && h.nodes[c].parent == a {
      if a in g.nodes {
        assert c in g.nodes[a].children <==> c in g.nodes && g.nodes[c].parent == a;
      } else {
        assert c in g.nodes ==> g.nodes[c].parent == 0 || g.nodes[c].parent in g.nodes;
      }
    }
  }

  lemma GrownRanked(g: Graph, h: Graph, n: Node, rank: map<Id, nat>, place: nat)
    requires ParentsExist(g) && Ranked(g, rank) && Newborn(g, n) && h.nodes == Grown(g.nodes, n)
    requires n.parent != 0 ==> rank[n.parent] < place
    ensures Ranked(h, rank[n.id := place])
  {
    GrownNodes(g, n);
    forall c | c in h.nodes && h.nodes[c].parent in h.nodes
      ensures rank[n.id := place][h.nodes[c].parent] < rank[n.id := place][c]
    {
      if c in g.nodes {
        assert h.nodes[c].parent == g.nodes[c].parent;
      }
    }
  }

  lemma GrownFounded(g: Graph, h: Graph, n: Node)
    requires ParentsExist(g) && Founded(g) && Newborn(g, n) && h.nodes == Grown(g.nodes, n)
    ensures Founded(h)
  {
    var rank :| Ranked(g, rank);
    GrownRanked(g, h, n, rank, if n.parent == 0 then 0 else rank[n.parent] + 1);
  }

  lemma InsertSignatures(g: Graph, n: Node, event: Id)
    requires SignatureIndexed(g)
    requires Newborn(g, n)
    ensures SignatureIndexed(Insert(g, n, event))
  {
    InsertedNodes(g, n, event);
    GrownNodes(g, n);
    var h := Insert(g, n, event);
    assert h.bySignature == g.bySignature[SignatureOf(n) := n.id];
    forall id | id in h.nodes
      ensures SignatureOf(h.nodes[id]) in h.bySignature && h.bySignature[SignatureOf(h.nodes[id])] == id
    {
      if id in g.nodes {
        assert SignatureOf(h.nodes[id]) == SignatureOf(g.nodes[id]);
      }
    }
    forall sig | sig in h.bySignature
      ensures h.bySignature[sig] in h.nodes && SignatureOf(h.nodes[h.bySignature[sig]]) == sig
    {
      if sig in g.bySignature {
        assert SignatureOf(g.nodes[g.bySignature[sig]]) == sig;
      }
    }
  }

  lemma InsertListed(g: Graph, n: Node, event: Id, path: string)
    ensures Listed(Insert(g, n, event).byPath, path)
            == if n.kind == PathNode && n.path == path then Listed(g.byPath, path) + [n.id] else Listed(g.byPath, path)
  {
  }

  lemma InsertOnPath(g: Graph, n: Node, event: Id, id: Id, path: string)
    requires Newborn(g, n)
    ensures OnPath(Insert(g, n, event), id, path) <==>
            OnPath(g, id, path) || (id == n.id && n.kind == PathNode && n.path == path)
  {
    InsertedNodes(g, n, event);
    GrownNodes(g, n);
  }

  lemma InsertPaths(g: Graph, n: Node, event: Id)
    requires PathIndexed(g)
    requires Newborn(g, n)
    ensures PathIndexed(Insert(g, n, event))
  {
    var h := Insert(g, n, event);
    forall path
      ensures Distinct(Listed(h.byPath, path)) && forall id :: id in Listed(h.byPath, path) <==> OnPath(h, id, path)
    {
      assert Distinct(Listed(g.byPath, path)) && forall id :: id in Listed(g.byPath, path) <==> OnPath(g, id, path);
      InsertListed(g, n, event, path);
      assert n.id !in Listed(g.byPath, path);
      forall id ensures id in Listed(h.byPath, path) <==> OnPath(h, id, path) {
        InsertOnPath(g, n, event, id, path);
      }
    }
  }

  lemma InsertLinks(g: Graph, n: Node, event: Id)
    requires Tree(g) && Newborn(g, n)
    ensures var h := Insert(g, n, event); ParentsExist(h) && Inverse(h) && Founded(h)
  {
    var h := Insert(g, n, event);
    InsertedNodes(g, n, event);
    GrownParents(g, h, n);
    GrownFounded(g, h, n);
    GrownInverse(g, h, n);
  }

  lemma InsertTree(g: Graph, n: Node, event: Id)
    requires Tree(g) && Newborn(g, n)
    ensures Tree(Insert(g, n, event))
  {
    InsertLinks(g, n, event);
    InsertSignatures(g, n, event);
    InsertPaths(g, n, event);
  }

  lemma InsertKeeps(g: Graph, n: Node, event: Id)
    requires Inv(g) && Newborn(g, n)
    ensures Inv(Insert(g, n, event)) && Insert(g, n, event).nodes.Keys == g.nodes.Keys + {n.id}
    ensures Insert(g, n, event).history == g.history && Insert(g, n, event).executions == g.executions
  {
    StoredNodes(g, n, event);
    InsertSound(g, n, event);
    InsertTree(g, n, event);
  }

  // ---------- the operations keep the tree ----------

  lemma NewTree(maxEvents: int)
    ensures Tree(New(maxEvents))
  {
    assert Ranked(New(maxEvents), map[]);
  }

  lemma NewInv(maxEvents: int)
    ensures Inv(New(maxEvents))
  {
    NewSound(maxEvents);
    NewTree(maxEvents);
  }

  lemma EvaluateKeeps(g: Graph, id: Id, ticket: Ticket)
    requires Inv(g) && id in g.nodes && ticket.action !in g.executions
    ensures var h := Evaluate(g, id, ticket).0; Inv(h) && SameShape(g, h)
    ensures var r := Evaluate(g, id, ticket); Emitted(g, r.0, r.1)
  {
    EvaluateSound(g, id, ticket);
    ShapeKeeps(g, Evaluate(g, id, ticket).0);
  }

  /** The new node stands under its signature once it is stored and evaluated. */
  lemma AddedKeeps(g: Graph, n: Node, ids: Ids)
    requires Inv(g) && Newborn(g, n) && n.id == ids.node && FreshFor(g, ids)
    ensures var h := Evaluate(Insert(g, n, ids.event), ids.node, ids.ticket).0;
            Tree(h) && ids.node in h.nodes && SignatureOf(h.nodes[ids.node]) == SignatureOf(n)
  {
    InsertKeeps(g, n, ids.event);
    StoredOneMore(g, n, ids.event);
    StoredNodes(g, n, ids.event);
    EvaluateKeeps(Insert(g, n, ids.event), ids.node, ids.ticket);
  }

  lemma AddSourceTree(g: Graph, source: Source, ids: Ids)
    requires Inv(g) && FreshFor(g, ids)
    ensures var r := AddSource(g, source, ids);
            Tree(r.0) && r.1 in r.0.nodes && SignatureOf(r.0.nodes[r.1]) == Signature(0, "", source)
  {
    if Signature(0, "", source) !in g.bySignature {
      AddedKeeps(g, FreshSource(ids.node, source), ids);
    }
  }

  lemma AddPathTree(g: Graph, parent: Id, path: string, source: Source, evidence: Evidence, ids: Ids)
    requires Inv(g) && FreshFor(g, ids) && (parent == 0 || parent in g.nodes)
    ensures var r := AddPath(g, parent, path, source, evidence, ids);
            Tree(r.0) && r.1 in r.0.nodes && SignatureOf(r.0.nodes[r.1]) == Signature(parent, path, source)
  {
    var sig := Signature(parent, path, source);
    if sig in g.bySignature {
      EvaluateKeeps(g, g.bySignature[sig], ids.ticket);
    } else {
      AddedKeeps(g, FreshPath(ids.node, parent, path, source, evidence), ids);
    }
  }

  lemma UpdateTree(g: Graph, id: Id, resp: Response, ids: Ids)
    requires Inv(g) && FreshFor(g, ids)
    ensures Tree(Update(g, id, resp, ids).0)
  {
    if id in g.nodes && g.nodes[id].lastEvidence != resp.digest {
      var mid := Observed(g, id, resp, ids.event);
      ObservedSound(g, id, resp, ids.event);
      ObservedShape(g, id, resp, ids.event);
      ShapeKeeps(g, mid);
      RetortSound(mid, id, resp, ids.ticket);
      ShapeKeeps(mid, Retort(mid, id, resp, ids.ticket).0);
    }
  }

  predicate KnownParent(g: Graph, op: Op) { op.DoPath? ==> op.parent == 0 || op.parent in g.nodes }

  lemma DoTree(g: Graph, op: Op, ids: Ids)
    requires Inv(g) && Legal(g, ids) && KnownParent(g, op)
    ensures Tree(Do(g, op, ids).0)
  {
    match op
    case DoSource(source) => AddSourceTree(g, source, ids);
    case DoPath(parent, path, source, evidence) => AddPathTree(g, parent, path, source, evidence, ids);
    case DoUpdate(id, resp) => UpdateTree(g, id, resp, ids);
  }

  /** Below known parents an operation keeps the tree as well. */
  lemma DoKeeps(g: Graph, op: Op, ids: Ids)
    requires Inv(g) && Legal(g, ids) && KnownParent(g, op)
    ensures Inv(Do(g, op, ids).0) && Emitted(g, Do(g, op, ids).0, Do(g, op, ids).1)
  {
    DoSteps(g, op, ids);
    DoTree(g, op, ids);
  }

  // ---------- validation ----------

  function LinksOf(g: Graph): Links { map id | id in g.nodes :: g.nodes[id].children }

  ghost predicate NodeValid(g: Graph, id: Id)
    requires id in g.nodes
  {
    var n := g.nodes[id];
    && n.id == id
    && 0 <= n.confidence <= 100 && 0 <= n.risk <= 100 && 0 <= n.priority
    && (n.parent != 0 ==> n.parent in g.nodes)
    && (forall c :: c in n.children ==> c in g.nodes)
  }

  /** What `ValidateGraph` checks. */
  ghost predicate Validates(g: Graph) {
    (forall id :: id in g.nodes ==> NodeValid(g, id)) && !HasCycle(LinksOf(g))
  }

  lemma TreeIsAcyclic(g: Graph)
    requires Inverse(g) && Founded(g)
    ensures !HasCycle(LinksOf(g))
  {
    var rank :| Ranked(g, rank);
    forall a, c | Edge(LinksOf(g), a, c) ensures a in rank && c in rank && rank[a] < rank[c] {
      assert c in g.nodes[a].children;
    }
    RankedIsAcyclic(LinksOf(g), rank);
  }

  lemma NodesValid(g: Graph)
    requires Scored(g) && ParentsExist(g) && Inverse(g)
    ensures forall id :: id in g.nodes ==> NodeValid(g, id)
  {
  }

  /** Spelled out: own ids, scores in range, known parents and children, and no path of child links from a node back to
      itself. */
  lemma ValidatesIff(g: Graph)
    ensures Validates(g)
            <==> (forall id :: id in g.nodes ==>
                    var n := g.nodes[id];
                    && n.id == id && 0 <= n.confidence && n.confidence <= 100 && 0 <= n.risk && n.risk <= 100
                    && 0 <= n.priority && (n.parent == 0 || n.parent in g.nodes) && n.children <= g.nodes.Keys)
                 && !(exists p: seq<Id> :: |p| >= 2 && p[0] == p[|p| - 1] && Descends(g, p))
  {
    forall id | id in g.nodes
      ensures NodeValid(g, id) <==>
              var n := g.nodes[id];
              && n.id == id && 0 <= n.confidence && n.confidence <= 100 && 0 <= n.risk && n.risk <= 100
              && 0 <= n.priority && (n.parent == 0 || n.parent in g.nodes) && n.children <= g.nodes.Keys
    {
    }
    forall p: seq<Id> ensures Path(LinksOf(g), p) <==> Descends(g, p) {
      DescendsIff(g, p);
    }
    if p: seq<Id> :| |p| >= 2 && p[0] == p[|p| - 1] && Descends(g, p) {
      assert Cycle(LinksOf(g), p);
    }
    if HasCycle(LinksOf(g)) {
      var p :| Cycle(LinksOf(g), p);
      assert Descends(g, p);
    }
  }

  /** Each but the last is a node that has the next as a child. */
  ghost predicate Descends(g: Graph, p: seq<Id>) {
    forall i :: 0 <= i < |p| - 1 ==> p[i] in g.nodes && p[i + 1] in g.nodes[p[i]].children
  }

  lemma DescendsIff(g: Graph, p: seq<Id>)
    ensures Path(LinksOf(g), p) <==> Descends(g, p)
  {
    if Path(LinksOf(g), p) {
      forall i | 0 <= i < |p| - 1 ensures p[i] in g.nodes && p[i + 1] in g.nodes[p[i]].children {
        assert Edge(LinksOf(g), p[i], p[i + 1]);
      }
    }
  }

  lemma InvValidates(g: Graph)
    requires Inv(g)
    ensures Validates(g)
  {
    TreeIsAcyclic(g);
    NodesValid(g);
  }

  lemma EvaluateLeavesParents(g: Graph, id: Id, ticket: Ticket)
    requires id in g.nodes
    ensures var h := Evaluate(g, id, ticket).0;
            h.nodes.Keys == g.nodes.Keys && forall x :: x in g.nodes ==> h.nodes[x].parent == g.nodes[x].parent
  {
    var n := g.nodes[id];
    if !Capped(n, false) && Proposed(n) != [] {
      assert Proposed(n) == [ActionFor(n.source)] && seq(1, i => ticket) == [ticket];
      EmitOne(g, id, false, ActionFor(n.source), ticket);
    }
  }

  lemma OrphanIsInvalid(g: Graph, n: Node, ids: Ids)
    requires n.id !in g.nodes && n.parent != 0 && n.parent !in g.nodes && n.parent != n.id && n.id == ids.node
    ensures !Validates(Evaluate(Insert(g, n, ids.event), n.id, ids.ticket).0)
  {
    var h := Insert(g, n, ids.event);
    assert h.nodes == g.nodes[n.id := n];
    EvaluateLeavesParents(h, n.id, ids.ticket);
    assert !NodeValid(Evaluate(h, n.id, ids.ticket).0, n.id);
  }

  /** Adding a path keeps a graph valid exactly when the parent is empty or an existing node; with any
      other parent the new node is an orphan that `ValidateGraph` reports. */
  lemma AddPathValidIff(g: Graph, parent: Id, path: string, source: Source, evidence: Evidence, ids: Ids)
    requires Inv(g) && FreshFor(g, ids) && ids.node != parent
    ensures Validates(AddPath(g, parent, path, source, evidence, ids).0) <==> parent == 0 || parent in g.nodes
  {
    if parent == 0 || parent in g.nodes {
      DoKeeps(g, DoPath(parent, path, source, evidence), ids);
      InvValidates(AddPath(g, parent, path, source, evidence, ids).0);
    } else {
      assert Signature(parent, path, source) !in g.bySignature;
      OrphanIsInvalid(g, FreshPath(ids.node, parent, path, source, evidence), ids);
    }
  }

  /** Adding a path again, with whatever evidence, returns the same node and changes nothing. */
  lemma AddPathAgain(g: Graph, parent: Id, path: string, source: Source, first: Evidence, second: Evidence, ids: Ids, again: Ids)
    requires Inv(g) && FreshFor(g, ids) && (parent == 0 || parent in g.nodes)
    ensures var r := AddPath(g, parent, path, source, first, ids);
            && IndexSound(r.0)
            && AddPath(r.0, parent, path, source, second, again) == (r.0, r.1, [])
  {
    var r := AddPath(g, parent, path, source, first, ids);
    AddPathTree(g, parent, path, source, first, ids);
    DoSteps(g, DoPath(parent, path, source, first), ids);
    assert r.0.bySignature[Signature(parent, path, source)] == r.1;
    if Signature(parent, path, source) in g.bySignature {
      EvaluateAgain(g, r.1, ids.ticket, again.ticket);
    } else {
      var n := FreshPath(ids.node, parent, path, source, first);
      InsertedNodes(g, n, ids.event);
      GrownNodes(g, n);
      EvaluateAgain(Insert(g, n, ids.event), r.1, ids.ticket, again.ticket);
    }
  }

  // ---------- runs ----------

  /** Every path of the run is added below a node that is there, or below none. */
  ghost predicate Rooted(g: Graph, ops: seq<(Op, Ids)>)
    decreases |ops|
  {
    ops != [] && Legal(g, ops[0].1) ==> KnownParent(g, ops[0].0) && Rooted(Do(g, ops[0].0, ops[0].1).0, ops[1..])
  }

  lemma {:induction false} RunTree(g: Graph, ops: seq<(Op, Ids)>, h: Graph, log: seq<ActionKey>)
    requires Inv(g) && RunsTo(g, ops, h, log) && Rooted(g, ops)
    ensures Inv(h)
    decreases |ops|
  {
    if ops != [] {
      FirstRuns(g, ops, h, log);
      DoKeeps(g, ops[0].0, ops[0].1);
      var r := Do(g, ops[0].0, ops[0].1);
      RunTree(r.0, ops[1..], h, log[|r.1|..]);
    }
  }

  /** A run below known parents keeps the tree, and its log extends the history without repeats. */
  lemma RunKeeps(g: Graph, ops: seq<(Op, Ids)>, h: Graph, log: seq<ActionKey>)
    requires Inv(g) && RunsTo(g, ops, h, log) && Rooted(g, ops)
    ensures Inv(h) && Extends(g.history, h.history, log)
  {
    RunTree(g, ops, h, log);
    RunSteps(g, ops, h, log);
  }

  /** Every graph the operations build below known parents is acyclic and passes validation; parent and child links are
      mutual inverses, and both indexes are exact. */
  lemma BuiltGraphs(maxEvents: int, ops: seq<(Op, Ids)>, h: Graph, log: seq<ActionKey>)
    requires RunsTo(New(maxEvents), ops, h, log) && Rooted(New(maxEvents), ops)
    ensures Validates(h) && !HasCycle(LinksOf(h))
    ensures Inverse(h) && PathIndexed(h) && SignatureIndexed(h)
  {
    NewInv(maxEvents);
    RunKeeps(New(maxEvents), ops, h, log);
    InvValidates(h);
  }
}
