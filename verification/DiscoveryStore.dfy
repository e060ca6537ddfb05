/** The discovery graph as the object the engine updates in place, and its event ledger. */
module DiscoveryStore {
  import opened CycleDetection
  import opened DiscoveryGraphs
  import opened DiscoveryTrees

  class DiscoveryGraph {
    var nodes: map<Id, Node>
    var bySignature: map<Signature, Id>
    var byPath: map<string, seq<Id>>
    var history: set<ActionKey>
    var executions: set<Id>
    var events: seq<Event>
    const maxEvents: int

    function State(): Graph
      reads this
    {
      Graph(nodes, bySignature, byPath, history, executions, events, maxEvents)
    }

    constructor (maxEvents: int)
      ensures State() == New(maxEvents) && Inv(State())
    {
      this.maxEvents := maxEvents;
      nodes, bySignature, byPath, history, executions, events := map[], map[], map[], {}, {}, [];
      new;
      NewInv(maxEvents);
    }

    /** Scans from the newest event for the id, appends, and prunes the oldest. */
    method AddEvent(e: Event)
      modifies this`events
      ensures State() == WithEvent(old(State()), e)
    {
      var i := |events|;
      while i > 0
        invariant 0 <= i <= |events| && events == old(events)
        invariant forall j :: i <= j < |events| ==> events[j].id != e.id
      {
        i := i - 1;
        if events[i].id == e.id {
          return;
        }
      }
      events := events + [e];
      if maxEvents > 0 && |events| > maxEvents {
        events := events[|events| - maxEvents..];
      }
    }

    /** The loop over proposed actions shared by evaluation and feedback. */
    method EmitActions(id: Id, feedback: bool, proposed: seq<Action>, tickets: seq<Ticket>) returns (emitted: seq<ActionKey>)
      requires id in nodes && |tickets| == |proposed|
      modifies this
      ensures (State(), emitted) == Emit(old(State()), id, feedback, proposed, tickets)
    {
      emitted := [];
      ghost var whole := Emit(State(), id, feedback, proposed, tickets);
      assert proposed[0..] == proposed && tickets[0..] == tickets && [] + whole.1 == whole.1;
      var i := 0;
      while i < |proposed|
        invariant 0 <= i <= |proposed| && id in nodes
        invariant var rest := Emit(State(), id, feedback, proposed[i..], tickets[i..]);
                  whole.0 == rest.0 && whole.1 == emitted + rest.1
      {
        var key := ActionKey(id, proposed[i], feedback);
        assert proposed[i..][1..] == proposed[i + 1..] && tickets[i..][1..] == tickets[i + 1..];
        if key !in history {
          Record(key, tickets[i]);
          emitted := emitted + [key];
          if Capped(nodes[id], feedback) {
            return;
          }
        }
        i := i + 1;
      }
      assert proposed[i..] == [] && emitted + [] == emitted;
    }

    method Record(key: ActionKey, ticket: Ticket)
      requires key.node in nodes
      modifies this
      ensures State() == Recorded(old(State()), key, ticket)
    {
      history := history + {key};
      nodes := nodes[key.node := Charged(nodes[key.node], key.feedback)];
      executions := executions + {ticket.action};
      AddEvent(Event(ticket.event, ActionCreated, key.node));
    }

    method EvaluateNode(id: Id, ticket: Ticket) returns (emitted: seq<ActionKey>)
      requires id in nodes
      modifies this
      ensures (State(), emitted) == Evaluate(old(State()), id, ticket)
    {
      if nodes[id].derived >= MAX_DERIVED {
        return [];
      }
      var proposed := Proposed(nodes[id]);
      emitted := EmitActions(id, false, proposed, seq(|proposed|, i => ticket));
    }

    /** The part the two Add operations share: both indexes, the parent link and the event. */
    method InsertNode(n: Node, event: Id)
      modifies this
      ensures State() == Insert(old(State()), n, event)
    {
      nodes := nodes[n.id := n];
      bySignature := bySignature[SignatureOf(n) := n.id];
      if n.kind == PathNode {
        byPath := byPath[n.path := Listed(byPath, n.path) + [n.id]];
        if n.parent != 0 {
          if n.parent in nodes {
            nodes := nodes[n.parent := nodes[n.parent].(children := nodes[n.parent].children + {n.id})];
          }
        }
      }
      AddEvent(Event(event, NodeAdded, n.id));
    }

    method AddSourceNode(source: Source, ids: Ids) returns (id: Id, emitted: seq<ActionKey>)
      modifies this
      ensures (State(), id, emitted) == AddSource(old(State()), source, ids)
    {
      var sig := Signature(0, "", source);
      if sig in bySignature {
        return bySignature[sig], [];
      }
      id := ids.node;
      InsertNode(FreshSource(id, source), ids.event);
      emitted := EvaluateNode(id, ids.ticket);
    }

    method AddPathNode(parent: Id, path: string, source: Source, evidence: Evidence, ids: Ids)
      returns (id: Id, emitted: seq<ActionKey>)
      requires IndexSound(State())
      modifies this
      ensures (State(), id, emitted) == AddPath(old(State()), parent, path, source, evidence, ids)
    {
      var sig := Signature(parent, path, source);
      if sig in bySignature {
        id := bySignature[sig];
      } else {
        id := ids.node;
        InsertNode(FreshPath(id, parent, path, source, evidence), ids.event);
      }
      emitted := EvaluateNode(id, ids.ticket);
    }

    method UpdateEvidence(id: Id, resp: Response, ids: Ids) returns (emitted: seq<ActionKey>)
      modifies this
      ensures (State(), emitted) == Update(old(State()), id, resp, ids)
    {
      if id !in nodes || nodes[id].lastEvidence == resp.digest {
        return [];
      }
      AddEvent(Event(ids.event, ResponseObserved, id));
      nodes := nodes[id := Rescored(nodes[id], resp)];
      assert State() == Observed(old(State()), id, resp, ids.event);
      if nodes[id].feedback >= MAX_FEEDBACK {
        return [];
      }
      var retorts := Retorts(resp);
      emitted := EmitActions(id, true, retorts, seq(|retorts|, i => ids.ticket));
    }

    /** Loops over the nodes in any order, then searches for cycles. */
    method ValidateGraph() returns (ok: bool)
      ensures ok <==> Validates(State())
    {
      var todo := nodes.Keys;
      while todo != {}
        invariant todo <= nodes.Keys
        invariant forall id :: id in nodes && id !in todo ==> NodeValid(State(), id)
        decreases todo
      {
        var id :| id in todo;
        var n := nodes[id];
        if n.id != id || n.confidence < 0 || n.confidence > 100 || n.risk < 0 || n.risk > 100 || n.priority < 0
           || (n.parent != 0 && n.parent !in nodes) {
          assert !NodeValid(State(), id);
          return false;
        }
        var children := n.children;
        while children != {}
          invariant children <= n.children
          invariant forall c :: c in n.children && c !in children ==> c in nodes
          decreases children
        {
          var child :| child in children;
          if child !in nodes {
            assert !NodeValid(State(), id);
            return false;
          }
          children := children - {child};
        }
        todo := todo - {id};
      }
      ok := DetectCycles(LinksOf(State()));
    }
  }
}
