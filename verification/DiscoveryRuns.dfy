/** What every run of the graph's operations keeps, whatever their arguments: sound scores and indexes, counters
    that agree with the action history, and an exact event ledger. */
module DiscoveryRuns {
  import opened CycleDetection
  import opened DiscoveryGraphs

  ghost predicate Scored(g: Graph) {
    forall id :: id in g.nodes ==>
      var n := g.nodes[id];
      n.id == id && id != 0 && 0 <= n.confidence <= 100 && 0 <= n.risk <= 100 && 0 <= n.priority
  }

  ghost function Total(nodes: map<Id, Node>): nat {
    if nodes == map[] then 0
    else
      var id :| id in nodes;
      nodes[id].derived + nodes[id].feedback + Total(nodes - {id})
  }

  /** The counters of a node say which of the two keys it can have are in the history. */
  ghost predicate Tally(g: Graph, id: Id)
    requires id in g.nodes
  {
    var n := g.nodes[id];
    && n.derived == (if ActionKey(id, ActionFor(n.source), false) in g.history then 1 else 0)
    && n.feedback == (if ActionKey(id, Validation, true) in g.history then 1 else 0)
  }

  ghost predicate Tallied(g: Graph) {
    && (forall id :: id in g.nodes ==> Tally(g, id))
    && (forall key :: key in g.history ==>
          && key.node in g.nodes
          && key.action == if key.feedback then Validation else ActionFor(g.nodes[key.node].source))
    && |g.history| == |g.executions| == Total(g.nodes)
  }

  ghost predicate DistinctIds(events: seq<Event>) {
    forall i, j :: 0 <= i < j < |events| ==> events[i].id != events[j].id
  }

  ghost predicate Ledger(g: Graph) {
    && DistinctIds(g.events)
    && (g.maxEvents > 0 ==> |g.events| <= g.maxEvents)
  }

  /** What holds without regard to parents. */
  ghost predicate Sound(g: Graph) { Scored(g) && IndexSound(g) && Tallied(g) && Ledger(g) }

  ghost predicate FreshFor(g: Graph, ids: Ids) {
    ids.node != 0 && ids.node !in g.nodes && ids.ticket.action !in g.executions
  }

  // ---------- totals ----------

  lemma {:induction false} TotalRemove(nodes: map<Id, Node>, id: Id)
    requires id in nodes
    ensures Total(nodes) == nodes[id].derived + nodes[id].feedback + Total(nodes - {id})
    decreases |nodes|
  {
    var first :| first in nodes && Total(nodes) == nodes[first].derived + nodes[first].feedback + Total(nodes - {first});
    if first != id {
      TotalRemove(nodes - {first}, id);
      TotalRemove(nodes - {id}, first);
      assert nodes - {first} - {id} == nodes - {id} - {first};
    }
  }

  lemma TotalUpdate(nodes: map<Id, Node>, id: Id, n: Node)
    ensures Total(nodes[id := n]) == Total(nodes) + n.derived + n.feedback
            - (if id in nodes then nodes[id].derived + nodes[id].feedback else 0)
  {
    TotalRemove(nodes[id := n], id);
    if id in nodes {
      TotalRemove(nodes, id);
      assert nodes[id := n] - {id} == nodes - {id};
    } else {
      assert nodes[id := n] - {id} == nodes;
    }
  }

  // ---------- the ledger over any calls of AddEvent ----------

  lemma LoggedKeeps(events: seq<Event>, e: Event, max: int)
    requires DistinctIds(events) && (max > 0 ==> |events| <= max)
    ensures DistinctIds(Logged(events, e, max)) && (max > 0 ==> |Logged(events, e, max)| <= max)
  {
    if !HasEvent(events, e.id) {
      assert forall i :: 0 <= i < |events| ==> events[i].id != e.id;
    }
  }

  function AddAll(events: seq<Event>, run: seq<Event>, max: int): seq<Event>
    decreases |run|
  {
    if run == [] then events else AddAll(Logged(events, run[0], max), run[1..], max)
  }

  /** The events of a run that are not ignored as duplicates of a retained one. */
  function Accepted(events: seq<Event>, run: seq<Event>, max: int): seq<Event>
    decreases |run|
  {
    if run == [] then []
    else if HasEvent(events, run[0].id) then Accepted(events, run[1..], max)
    else [run[0]] + Accepted(Logged(events, run[0], max), run[1..], max)
  }

  lemma {:induction false} AddAllDistinct(events: seq<Event>, run: seq<Event>, max: int)
    requires (max > 0 ==> |events| <= max) && DistinctIds(events)
    ensures DistinctIds(AddAll(events, run, max))
    decreases |run|
  {
    if run != [] {
      LoggedKeeps(events, run[0], max);
      AddAllDistinct(Logged(events, run[0], max), run[1..], max);
    }
  }

  lemma DropTwice(s: seq<Event>, i: nat, j: nat)
    requires i + j <= |s|
    ensures s[i..][j..] == s[i + j..]
  {
  }

  lemma NewestAppend(a: seq<Event>, b: seq<Event>, max: int)
    ensures Newest(Newest(a, max) + b, max) == Newest(a + b, max)
  {
    if max > 0 && |a| > max {
      var s, cut := a + b, |a| - max;
      assert a[cut..] + b == s[cut..];
      assert |s[cut..]| == max + |b|;
      DropTwice(s, cut, |b|);
    }
  }

  lemma NewestTwice(events: seq<Event>, e: Event, rest: seq<Event>, max: int)
    ensures Newest(Newest(events + [e], max) + rest, max) == Newest(events + ([e] + rest), max)
  {
    NewestAppend(events + [e], rest, max);
    assert events + ([e] + rest) == (events + [e]) + rest;
  }

  lemma {:induction false} AddAllNewest(events: seq<Event>, run: seq<Event>, max: int)
    requires max > 0 ==> |events| <= max
    ensures AddAll(events, run, max) == Newest(events + Accepted(events, run, max), max)
    decreases |run|
  {
    if run == [] {
      assert events + [] == events;
    } else {
      AddAllNewest(Logged(events, run[0], max), run[1..], max);
      if !HasEvent(events, run[0].id) {
        NewestTwice(events, run[0], Accepted(Logged(events, run[0], max), run[1..], max), max);
      }
    }
  }

  /** After any calls of AddEvent the ledger holds exactly the newest MaxEvents accepted events, in
      order (all of them when MaxEvents is not positive), and their ids are distinct. */
  lemma LedgerIsNewest(run: seq<Event>, max: int)
    ensures var all := Accepted([], run, max);
            AddAll([], run, max) == if max > 0 && |all| > max then all[|all| - max..] else all
    ensures DistinctIds(AddAll([], run, max))
  {
    AddAllDistinct([], run, max);
    AddAllNewest([], run, max);
    assert [] + Accepted([], run, max) == Accepted([], run, max);
  }

  lemma {:induction false} AddAllAppend(events: seq<Event>, a: seq<Event>, b: seq<Event>, max: int)
    ensures AddAll(events, a + b, max) == AddAll(AddAll(events, a, max), b, max)
    decreases |a|
  {
    if a == [] {
      assert a + b == b;
    } else {
      assert (a + b)[1..] == a[1..] + b;
      AddAllAppend(Logged(events, a[0], max), a[1..], b, max);
    }
  }

  /** Events with ids of their own are all accepted. */
  lemma {:induction false} AllAccepted(events: seq<Event>, run: seq<Event>, max: int)
    requires DistinctIds(run) && forall i :: 0 <= i < |run| ==> !HasEvent(events, run[i].id)
    ensures Accepted(events, run, max) == run
    decreases |run|
  {
    if run != [] {
      var next := Logged(events, run[0], max);
      forall i | 0 <= i < |run[1..]| ensures !HasEvent(next, run[1..][i].id) {
        assert run[1..][i] == run[i + 1] && run[i + 1].id != run[0].id && !HasEvent(events, run[i + 1].id);
      }
      AllAccepted(next, run[1..], max);
    }
  }

  lemma OneEvent(events: seq<Event>, e: Event, max: int)
    ensures AddAll(events, [e], max) == Logged(events, e, max)
  {
    assert [e][1..] == [];
  }

  // ---------- recording an action ----------

  /** Same nodes up to their counters and scores, same indexes. */
  ghost predicate SameShape(g: Graph, h: Graph) {
    && h.nodes.Keys == g.nodes.Keys
    && (forall id :: id in g.nodes ==>
          var n, m := g.nodes[id], h.nodes[id];
          m.id == n.id && m.kind == n.kind && m.path == n.path && m.parent == n.parent && m.source == n.source
          && m.children == n.children)
    && h.bySignature == g.bySignature && h.byPath == g.byPath && h.maxEvents == g.maxEvents
  }

  lemma RecordedTotals(g: Graph, key: ActionKey, ticket: Ticket)
    requires |g.history| == |g.executions| == Total(g.nodes)
    requires key.node in g.nodes && key !in g.history && ticket.action !in g.executions
    ensures var h := Recorded(g, key, ticket); |h.history| == |h.executions| == Total(h.nodes)
  {
    TotalUpdate(g.nodes, key.node, Charged(g.nodes[key.node], key.feedback));
  }

  lemma ChargedTallied(g: Graph, h: Graph, key: ActionKey)
    requires Tallied(g) && key.node in g.nodes && key !in g.history
    requires key.action == if key.feedback then Validation else ActionFor(g.nodes[key.node].source)
    requires h.nodes == g.nodes[key.node := Charged(g.nodes[key.node], key.feedback)] && h.history == g.history + {key}
    requires |h.history| == |h.executions| == Total(h.nodes)
    ensures Tallied(h)
  {
    forall id | id in h.nodes ensures Tally(h, id) {
      assert Tally(g, id);
    }
  }

  lemma RecordedTallied(g: Graph, key: ActionKey, ticket: Ticket)
    requires Tallied(g) && key.node in g.nodes && key !in g.history && ticket.action !in g.executions
    requires key.action == if key.feedback then Validation else ActionFor(g.nodes[key.node].source)
    ensures Tallied(Recorded(g, key, ticket))
  {
    RecordedTotals(g, key, ticket);
    ChargedTallied(g, Recorded(g, key, ticket), key);
  }

  lemma RecordedShape(g: Graph, key: ActionKey, ticket: Ticket)
    requires Scored(g) && Ledger(g) && key.node in g.nodes
    ensures SameShape(g, Recorded(g, key, ticket))
    ensures Scored(Recorded(g, key, ticket)) && Ledger(Recorded(g, key, ticket))
  {
    LoggedKeeps(g.events, Event(ticket.event, ActionCreated, key.node), g.maxEvents);
  }

  lemma RecordedSound(g: Graph, key: ActionKey, ticket: Ticket)
    requires Sound(g) && key.node in g.nodes && key !in g.history && ticket.action !in g.executions
    requires key.action == if key.feedback then Validation else ActionFor(g.nodes[key.node].source)
    ensures Sound(Recorded(g, key, ticket)) && SameShape(g, Recorded(g, key, ticket))
  {
    RecordedShape(g, key, ticket);
    RecordedTallied(g, key, ticket);
  }

  // ---------- emitting actions ----------

  lemma EmitOne(g: Graph, id: Id, feedback: bool, action: Action, ticket: Ticket)
    requires id in g.nodes
    ensures var key := ActionKey(id, action, feedback);
            Emit(g, id, feedback, [action], [ticket])
            == if key in g.history then (g, []) else (Recorded(g, key, ticket), [key])
  {
    var key := ActionKey(id, action, feedback);
    assert [action][1..] == [] && [ticket][1..] == [];
    if key !in g.history {
      var h := Recorded(g, key, ticket);
      assert Emit(h, id, feedback, [], []) == (h, []);
      assert [key] + [] == [key];
    }
  }

  /** Emissions are new to the history, which grows by exactly them. */
  ghost predicate Emitted(g: Graph, h: Graph, emitted: seq<ActionKey>) {
    && h.history == g.history + (set k | k in emitted)
    && |emitted| <= 1
    && forall k :: k in emitted ==> k !in g.history
  }

  lemma EmitNew(g: Graph, id: Id, feedback: bool, action: Action, ticket: Ticket)
    requires id in g.nodes
    ensures var r := Emit(g, id, feedback, [action], [ticket]); Emitted(g, r.0, r.1)
  {
    EmitOne(g, id, feedback, action, ticket);
  }

  /** The events of the emitted actions. */
  function ActionEvents(emitted: seq<ActionKey>, ticket: Ticket): seq<Event> {
    seq(|emitted|, i requires 0 <= i < |emitted| => Event(ticket.event, ActionCreated, emitted[i].node))
  }

  /** No score moves, and no counter falls. */
  ghost predicate KeepsScores(g: Graph, h: Graph) {
    forall id :: id in g.nodes ==>
      && id in h.nodes
      && h.nodes[id].risk == g.nodes[id].risk && h.nodes[id].priority == g.nodes[id].priority
      && g.nodes[id].derived <= h.nodes[id].derived && g.nodes[id].feedback <= h.nodes[id].feedback
  }

  /** A step that leaves the shape alone, emits what is new and logs it. */
  ghost predicate Emits(g: Graph, h: Graph, emitted: seq<ActionKey>, ticket: Ticket) {
    && Sound(h) && SameShape(g, h) && Emitted(g, h, emitted)
    && h.events == AddAll(g.events, ActionEvents(emitted, ticket), g.maxEvents)
    && KeepsScores(g, h)
  }

  lemma EmitsNothing(g: Graph, ticket: Ticket)
    requires Sound(g)
    ensures Emits(g, g, [], ticket)
  {
    assert ActionEvents([], ticket) == [];
    assert AddAll(g.events, [], g.maxEvents) == g.events;
  }

  lemma RecordedEvents(g: Graph, key: ActionKey, ticket: Ticket)
    requires key.node in g.nodes
    ensures Recorded(g, key, ticket).events == AddAll(g.events, ActionEvents([key], ticket), g.maxEvents)
  {
    var e := Event(ticket.event, ActionCreated, key.node);
    assert ActionEvents([key], ticket) == [e];
    OneEvent(g.events, e, g.maxEvents);
  }

  lemma RecordedScores(g: Graph, key: ActionKey, ticket: Ticket)
    requires key.node in g.nodes
    ensures KeepsScores(g, Recorded(g, key, ticket))
  {
  }

  lemma RecordedEmitted(g: Graph, key: ActionKey, ticket: Ticket)
    requires key.node in g.nodes && key !in g.history
    ensures Emitted(g, Recorded(g, key, ticket), [key])
  {
  }

  lemma EmitSound(g: Graph, id: Id, feedback: bool, action: Action, ticket: Ticket)
    requires Sound(g) && id in g.nodes && ticket.action !in g.executions
    requires action == if feedback then Validation else ActionFor(g.nodes[id].source)
    ensures var r := Emit(g, id, feedback, [action], [ticket]); Emits(g, r.0, r.1, ticket)
  {
    var key := ActionKey(id, action, feedback);
    EmitOne(g, id, feedback, action, ticket);
    if key in g.history {
      EmitsNothing(g, ticket);
    } else {
      RecordedSound(g, key, ticket);
      RecordedEmitted(g, key, ticket);
      RecordedEvents(g, key, ticket);
      RecordedScores(g, key, ticket);
    }
  }

  lemma EvaluateSound(g: Graph, id: Id, ticket: Ticket)
    requires Sound(g) && id in g.nodes && ticket.action !in g.executions
    ensures var r := Evaluate(g, id, ticket); Emits(g, r.0, r.1, ticket)
  {
    EmitsNothing(g, ticket);
    if !Capped(g.nodes[id], false) && Proposed(g.nodes[id]) != [] {
      assert seq(1, i => ticket) == [ticket];
      EmitSound(g, id, false, ActionFor(g.nodes[id].source), ticket);
    }
  }

  lemma RetortSound(g: Graph, id: Id, resp: Response, ticket: Ticket)
    requires Sound(g) && id in g.nodes && ticket.action !in g.executions
    ensures var r := Retort(g, id, resp, ticket); Emits(g, r.0, r.1, ticket)
  {
    EmitsNothing(g, ticket);
    if !Capped(g.nodes[id], true) && Retorts(resp) != [] {
      assert seq(1, i => ticket) == [ticket];
      EmitSound(g, id, true, Validation, ticket);
    }
  }

  // ---------- storing a node ----------

  lemma LinkedNodes(nodes: map<Id, Node>, parent: Id, child: Id)
    ensures var m := Linked(nodes, parent, child);
            && m.Keys == nodes.Keys
            && forall id :: id in nodes ==> m[id] == nodes[id].(children := m[id].children) && nodes[id].children <= m[id].children
  {
  }

  lemma LinkedTotal(nodes: map<Id, Node>, parent: Id, child: Id)
    ensures Total(Linked(nodes, parent, child)) == Total(nodes)
  {
    if parent != 0 && parent in nodes {
      TotalUpdate(nodes, parent, nodes[parent].(children := nodes[parent].children + {child}));
    }
  }

  /** A node of its own id, with nothing counted yet. */
  ghost predicate Unborn(g: Graph, n: Node) {
    && n.id != 0 && n.id !in g.nodes && n.derived == 0 && n.feedback == 0
    && n.confidence == 0 && n.risk == 0 && 0 <= n.priority
  }

  lemma StoredNodes(g: Graph, n: Node, event: Id)
    ensures Insert(g, n, event).nodes
            == if n.kind == SourceNode then g.nodes[n.id := n] else Linked(g.nodes[n.id := n], n.parent, n.id)
    ensures Insert(g, n, event).history == g.history && Insert(g, n, event).executions == g.executions
    ensures Insert(g, n, event).bySignature == g.bySignature[SignatureOf(n) := n.id]
    ensures Insert(g, n, event).maxEvents == g.maxEvents
    ensures Insert(g, n, event).events == Logged(g.events, Event(event, NodeAdded, n.id), g.maxEvents)
  {
  }

  /** `h` has the nodes of `g` up to their children, and one more. */
  ghost predicate OneMore(g: Graph, h: Graph, n: Node) {
    && h.nodes.Keys == g.nodes.Keys + {n.id}
    && (forall id :: id in g.nodes ==>
          h.nodes[id] == g.nodes[id].(children := h.nodes[id].children) && g.nodes[id].children <= h.nodes[id].children)
    && h.nodes[n.id] == n.(children := h.nodes[n.id].children)
  }

  lemma StoredOneMore(g: Graph, n: Node, event: Id)
    requires Unborn(g, n)
    ensures OneMore(g, Insert(g, n, event), n) && Total(Insert(g, n, event).nodes) == Total(g.nodes)
  {
    StoredNodes(g, n, event);
    LinkedNodes(g.nodes[n.id := n], n.parent, n.id);
    LinkedTotal(g.nodes[n.id := n], n.parent, n.id);
    TotalUpdate(g.nodes, n.id, n);
  }

  lemma OneMoreTallied(g: Graph, h: Graph, n: Node)
    requires Tallied(g) && Unborn(g, n) && OneMore(g, h, n)
    requires h.history == g.history && h.executions == g.executions && Total(h.nodes) == Total(g.nodes)
    ensures Tallied(h)
  {
    forall id | id in h.nodes ensures Tally(h, id) {
      if id in g.nodes {
        assert Tally(g, id);
      }
    }
  }

  lemma InsertSound(g: Graph, n: Node, event: Id)
    requires Sound(g) && Unborn(g, n)
    ensures Sound(Insert(g, n, event)) && OneMore(g, Insert(g, n, event), n)
  {
    StoredNodes(g, n, event);
    StoredOneMore(g, n, event);
    OneMoreTallied(g, Insert(g, n, event), n);
    LoggedKeeps(g.events, Event(event, NodeAdded, n.id), g.maxEvents);
  }

  // ---------- observing a response ----------

  lemma ObservedShape(g: Graph, id: Id, resp: Response, event: Id)
    requires Scored(g) && Ledger(g) && id in g.nodes
    ensures SameShape(g, Observed(g, id, resp, event))
    ensures Scored(Observed(g, id, resp, event)) && Ledger(Observed(g, id, resp, event))
  {
    LoggedKeeps(g.events, Event(event, ResponseObserved, id), g.maxEvents);
  }

  lemma ObservedTallied(g: Graph, id: Id, resp: Response, event: Id)
    requires Tallied(g) && id in g.nodes
    ensures Tallied(Observed(g, id, resp, event))
  {
    var h := Observed(g, id, resp, event);
    TotalUpdate(g.nodes, id, Rescored(g.nodes[id], resp));
    forall x | x in h.nodes ensures Tally(h, x) {
      assert Tally(g, x);
    }
  }

  lemma ObservedSound(g: Graph, id: Id, resp: Response, event: Id)
    requires Sound(g) && id in g.nodes
    ensures Sound(Observed(g, id, resp, event))
  {
    ObservedShape(g, id, resp, event);
    ObservedTallied(g, id, resp, event);
  }

  // ---------- one operation ----------

  datatype Op =
    | DoSource(source: Source)
    | DoPath(parent: Id, path: string, source: Source, evidence: Evidence)
    | DoUpdate(id: Id, resp: Response)

  /** Fresh ids, and an index that names nodes only. */
  ghost predicate Legal(g: Graph, ids: Ids) { FreshFor(g, ids) && IndexSound(g) }

  ghost function Do(g: Graph, op: Op, ids: Ids): (Graph, seq<ActionKey>)
    requires Legal(g, ids)
  {
    match op
    case DoSource(source) => var r := AddSource(g, source, ids); (r.0, r.2)
    case DoPath(parent, path, source, evidence) => var r := AddPath(g, parent, path, source, evidence, ids); (r.0, r.2)
    case DoUpdate(id, resp) => Update(g, id, resp, ids)
  }

  /** Nothing is forgotten: nodes stay, with their place, and with risk, priority and counters that never fall. */
  ghost predicate Grows(g: Graph, h: Graph) {
    && g.history <= h.history
    && forall id :: id in g.nodes ==>
         && id in h.nodes
         && var n, m := g.nodes[id], h.nodes[id];
            && m.kind == n.kind && m.path == n.path && m.parent == n.parent && m.source == n.source
            && n.children <= m.children && n.risk <= m.risk && n.priority <= m.priority
            && n.derived <= m.derived && n.feedback <= m.feedback
  }

  function FirstEvent(g: Graph, op: Op, ids: Ids): seq<Event> {
    match op
    case DoSource(source) =>
      if Signature(0, "", source) in g.bySignature then [] else [Event(ids.event, NodeAdded, ids.node)]
    case DoPath(parent, path, source, _) =>
      if Signature(parent, path, source) in g.bySignature then [] else [Event(ids.event, NodeAdded, ids.node)]
    case DoUpdate(id, resp) =>
      if id !in g.nodes || g.nodes[id].lastEvidence == resp.digest then [] else [Event(ids.event, ResponseObserved, id)]
  }

  /** What one operation hands to AddEvent. */
  ghost function Handed(g: Graph, op: Op, ids: Ids): seq<Event>
    requires Legal(g, ids)
  {
    FirstEvent(g, op, ids) + ActionEvents(Do(g, op, ids).1, ids.ticket)
  }

  /** What one operation does to a sound graph, whatever its arguments. */
  ghost predicate Steps(g: Graph, h: Graph, emitted: seq<ActionKey>, handed: seq<Event>) {
    && Sound(h) && Emitted(g, h, emitted) && Grows(g, h)
    && h.maxEvents == g.maxEvents && h.events == AddAll(g.events, handed, g.maxEvents)
  }

  lemma NothingSteps(g: Graph)
    requires Sound(g)
    ensures Steps(g, g, [], [])
  {
  }

  /** First a change that is logged with one event, then emissions. */
  lemma TwoSteps(g: Graph, mid: Graph, h: Graph, e: Event, emitted: seq<ActionKey>, ticket: Ticket)
    requires Emits(mid, h, emitted, ticket) && Grows(g, mid) && mid.history == g.history
    requires mid.maxEvents == g.maxEvents && mid.events == Logged(g.events, e, g.maxEvents)
    ensures Steps(g, h, emitted, [e] + ActionEvents(emitted, ticket))
  {
    OneEvent(g.events, e, g.maxEvents);
    AddAllAppend(g.events, [e], ActionEvents(emitted, ticket), g.maxEvents);
  }

  lemma EmitsSteps(g: Graph, h: Graph, emitted: seq<ActionKey>, ticket: Ticket)
    requires Emits(g, h, emitted, ticket)
    ensures Steps(g, h, emitted, [] + ActionEvents(emitted, ticket))
  {
    assert [] + ActionEvents(emitted, ticket) == ActionEvents(emitted, ticket);
  }

  lemma InsertSteps(g: Graph, n: Node, ids: Ids)
    requires Sound(g) && Unborn(g, n) && n.id == ids.node && FreshFor(g, ids)
    ensures var r := Evaluate(Insert(g, n, ids.event), ids.node, ids.ticket);
            Steps(g, r.0, r.1, [Event(ids.event, NodeAdded, ids.node)] + ActionEvents(r.1, ids.ticket))
  {
    var mid := Insert(g, n, ids.event);
    InsertSound(g, n, ids.event);
    StoredNodes(g, n, ids.event);
    EvaluateSound(mid, ids.node, ids.ticket);
    var r := Evaluate(mid, ids.node, ids.ticket);
    TwoSteps(g, mid, r.0, Event(ids.event, NodeAdded, ids.node), r.1, ids.ticket);
  }

  lemma ObservedGrows(g: Graph, id: Id, resp: Response, event: Id)
    requires Scored(g) && id in g.nodes
    ensures var h := Observed(g, id, resp, event);
            && Grows(g, h) && h.history == g.history && h.executions == g.executions && h.maxEvents == g.maxEvents
            && h.events == Logged(g.events, Event(event, ResponseObserved, id), g.maxEvents)
  {
  }

  lemma UpdateSteps(g: Graph, id: Id, resp: Response, ids: Ids)
    requires Sound(g) && FreshFor(g, ids)
    ensures var r := Update(g, id, resp, ids);
            Steps(g, r.0, r.1, FirstEvent(g, DoUpdate(id, resp), ids) + ActionEvents(r.1, ids.ticket))
  {
    if id in g.nodes && g.nodes[id].lastEvidence != resp.digest {
      var mid := Observed(g, id, resp, ids.event);
      ObservedSound(g, id, resp, ids.event);
      ObservedGrows(g, id, resp, ids.event);
      RetortSound(mid, id, resp, ids.ticket);
      var r := Retort(mid, id, resp, ids.ticket);
      TwoSteps(g, mid, r.0, Event(ids.event, ResponseObserved, id), r.1, ids.ticket);
    } else {
      NothingSteps(g);
      assert ActionEvents([], ids.ticket) == [];
    }
  }

  /** Every operation with any arguments, an unknown parent included. */
  lemma DoSteps(g: Graph, op: Op, ids: Ids)
    requires Sound(g) && Legal(g, ids)
    ensures Steps(g, Do(g, op, ids).0, Do(g, op, ids).1, Handed(g, op, ids))
  {
    match op
    case DoSource(source) =>
      if Signature(0, "", source) in g.bySignature {
        NothingSteps(g);
        assert ActionEvents([], ids.ticket) == [];
      } else {
        InsertSteps(g, FreshSource(ids.node, source), ids);
      }
    case DoPath(parent, path, source, evidence) =>
      var sig := Signature(parent, path, source);
      if sig in g.bySignature {
        EvaluateSound(g, g.bySignature[sig], ids.ticket);
        var r := Evaluate(g, g.bySignature[sig], ids.ticket);
        EmitsSteps(g, r.0, r.1, ids.ticket);
      } else {
        InsertSteps(g, FreshPath(ids.node, parent, path, source, evidence), ids);
      }
    case DoUpdate(id, resp) => UpdateSteps(g, id, resp, ids);
  }

  // ---------- runs ----------

  /** The operations lead from `g` to `h` and emit `log` on the way. */
  ghost predicate RunsTo(g: Graph, ops: seq<(Op, Ids)>, h: Graph, log: seq<ActionKey>)
    decreases |ops|
  {
    if ops == [] then g == h && log == []
    else
      && Legal(g, ops[0].1)
      && var r := Do(g, ops[0].0, ops[0].1);
         r.1 <= log && RunsTo(r.0, ops[1..], h, log[|r.1|..])
  }

  ghost predicate NoRepeat(log: seq<ActionKey>) {
    forall i, j :: 0 <= i < j < |log| ==> log[i] != log[j]
  }

  /** `after` is `before` and the log, which is new to it and free of repeats. */
  ghost predicate Extends(before: set<ActionKey>, after: set<ActionKey>, log: seq<ActionKey>) {
    && NoRepeat(log)
    && (forall k :: k in log ==> k !in before)
    && (forall k :: k in after <==> k in before || k in log)
  }

  lemma ExtendTwice(a: set<ActionKey>, b: set<ActionKey>, c: set<ActionKey>, log: seq<ActionKey>, n: nat)
    requires n <= |log| && Extends(a, b, log[..n]) && Extends(b, c, log[n..])
    ensures Extends(a, c, log)
  {
    forall k ensures k in log <==> k in log[..n] || k in log[n..] {
      assert log == log[..n] + log[n..];
    }
    forall i, j | 0 <= i < j < |log| ensures log[i] != log[j] {
      if j < n {
        assert log[..n][i] != log[..n][j];
      } else if n <= i {
        assert log[n..][i - n] != log[n..][j - n];
      } else {
        assert log[i] in log[..n] && log[j] in log[n..];
      }
    }
  }

  lemma EmittedExtends(g: Graph, h: Graph, emitted: seq<ActionKey>)
    requires Emitted(g, h, emitted)
    ensures Extends(g.history, h.history, emitted)
  {
  }

  lemma FirstRuns(g: Graph, ops: seq<(Op, Ids)>, h: Graph, log: seq<ActionKey>)
    requires ops != [] && RunsTo(g, ops, h, log)
    ensures Legal(g, ops[0].1)
    ensures var r := Do(g, ops[0].0, ops[0].1);
            |r.1| <= |log| && r.1 == log[..|r.1|] && RunsTo(r.0, ops[1..], h, log[|r.1|..])
  {
  }

  /** Everything a run hands to AddEvent, in order. */
  ghost function HandedBy(g: Graph, ops: seq<(Op, Ids)>): seq<Event>
    decreases |ops|
  {
    if ops == [] || !Legal(g, ops[0].1) then []
    else Handed(g, ops[0].0, ops[0].1) + HandedBy(Do(g, ops[0].0, ops[0].1).0, ops[1..])
  }

  lemma GrowsTwice(a: Graph, b: Graph, c: Graph)
    requires Grows(a, b) && Grows(b, c)
    ensures Grows(a, c)
  {
  }

  lemma {:induction false} RunSteps(g: Graph, ops: seq<(Op, Ids)>, h: Graph, log: seq<ActionKey>)
    requires Sound(g) && RunsTo(g, ops, h, log)
    ensures Sound(h) && Extends(g.history, h.history, log) && Grows(g, h) && h.maxEvents == g.maxEvents
    ensures h.events == AddAll(g.events, HandedBy(g, ops), g.maxEvents)
    decreases |ops|
  {
    if ops != [] {
      FirstRuns(g, ops, h, log);
      DoSteps(g, ops[0].0, ops[0].1);
      var r := Do(g, ops[0].0, ops[0].1);
      EmittedExtends(g, r.0, r.1);
      RunSteps(r.0, ops[1..], h, log[|r.1|..]);
      ExtendTwice(g.history, r.0.history, h.history, log, |r.1|);
      GrowsTwice(g, r.0, h);
      AddAllAppend(g.events, Handed(g, ops[0].0, ops[0].1), HandedBy(r.0, ops[1..]), g.maxEvents);
    }
  }

  lemma NewSound(maxEvents: int)
    ensures Sound(New(maxEvents))
  {
  }

  /** Along any run, with whatever parents, each (node, action) is emitted at most once by evaluation and at
      most once by feedback; the history is exactly what was emitted; and its size, like that of the
      executions, is the sum of the nodes' counters.  The counters never come near their caps: each is 0 or
      1.  The ledger holds exactly the newest MaxEvents events the run had accepted, which are all it logged
      if these have ids of their own. */
  lemma EmittedOnce(maxEvents: int, ops: seq<(Op, Ids)>, h: Graph, log: seq<ActionKey>)
    requires RunsTo(New(maxEvents), ops, h, log)
    ensures NoRepeat(log) && forall k :: k in h.history <==> k in log
    ensures |h.history| == |h.executions| == Total(h.nodes)
    ensures forall id :: id in h.nodes ==> h.nodes[id].derived <= 1 < MAX_DERIVED && h.nodes[id].feedback <= 1 < MAX_FEEDBACK
    ensures var handed := HandedBy(New(maxEvents), ops); var all := Accepted([], handed, maxEvents);
            && h.events == (if maxEvents > 0 && |all| > maxEvents then all[|all| - maxEvents..] else all)
            && (DistinctIds(handed) ==> all == handed)
  {
    var handed := HandedBy(New(maxEvents), ops);
    NewSound(maxEvents);
    RunSteps(New(maxEvents), ops, h, log);
    LedgerIsNewest(handed, maxEvents);
    if DistinctIds(handed) {
      AllAccepted([], handed, maxEvents);
    }
    forall id | id in h.nodes ensures h.nodes[id].derived <= 1 && h.nodes[id].feedback <= 1 {
      assert Tally(h, id);
    }
  }

  /** Along any run no node is lost or moved, and its risk, priority, counters and children never shrink. */
  lemma NothingForgotten(maxEvents: int, before: seq<(Op, Ids)>, g: Graph, first: seq<ActionKey>,
                         after: seq<(Op, Ids)>, h: Graph, second: seq<ActionKey>)
    requires RunsTo(New(maxEvents), before, g, first) && RunsTo(g, after, h, second)
    ensures Grows(g, h)
  {
    NewSound(maxEvents);
    RunSteps(New(maxEvents), before, g, first);
    RunSteps(g, after, h, second);
  }

  // ---------- repeating an operation ----------

  /** What evaluation proposes depends on nothing it changes, so a second evaluation finds it done. */
  lemma EvaluateAgain(g: Graph, id: Id, ticket: Ticket, again: Ticket)
    requires id in g.nodes
    ensures var h := Evaluate(g, id, ticket).0; id in h.nodes && Evaluate(h, id, again) == (h, [])
  {
    var n := g.nodes[id];
    if !Capped(n, false) && Proposed(n) != [] {
      var action := ActionFor(n.source);
      assert Proposed(n) == [action] && seq(1, i => ticket) == [ticket] && seq(1, i => again) == [again];
      EmitOne(g, id, false, action, ticket);
      var h := Evaluate(g, id, ticket).0;
      assert Proposed(h.nodes[id]) == [action];
      EmitOne(h, id, false, action, again);
    }
  }

  /** In a graph the operations built the cap suppresses nothing: evaluation emits exactly when the path
      asks for an action that the history does not hold. */
  lemma EvaluateEmits(g: Graph, id: Id, ticket: Ticket)
    requires Tallied(g) && id in g.nodes
    ensures var n := g.nodes[id]; var key := ActionKey(id, ActionFor(n.source), false);
            Evaluate(g, id, ticket).1 == if Suspicious(n.source, n.path) && key !in g.history then [key] else []
  {
    assert Tally(g, id);
    var action := ActionFor(g.nodes[id].source);
    if Proposed(g.nodes[id]) != [] {
      assert seq(1, i => ticket) == [ticket];
      EmitOne(g, id, false, action, ticket);
    }
  }

  /** The same evidence again is ignored: no score moves, no event is logged, nothing is emitted. */
  lemma EvidenceOnce(g: Graph, id: Id, resp: Response, ids: Ids, again: Ids)
    ensures var h := Update(g, id, resp, ids).0; Update(h, id, resp, again) == (h, [])
  {
    if id in g.nodes && g.nodes[id].lastEvidence != resp.digest {
      var o := Observed(g, id, resp, ids.event);
      assert o.nodes[id].lastEvidence == resp.digest;
      if !Capped(o.nodes[id], true) && Retorts(resp) != [] {
        assert seq(1, i => ids.ticket) == [ids.ticket];
        EmitOne(o, id, true, Validation, ids.ticket);
      }
    }
  }
}
