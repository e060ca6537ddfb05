/** `DetectCycles`: a depth-first search over the Children links with a visited set and a recursion
    stack, on any finite map of children, including child ids that are no nodes. */
module CycleDetection {

  /** Node ids; 0 stands for the empty string. */
  type Id = nat

  type Links = map<Id, set<Id>>

  predicate Edge(links: Links, a: Id, b: Id) { a in links && b in links[a] }

  ghost predicate Path(links: Links, p: seq<Id>) {
    forall i :: 0 <= i < |p| - 1 ==> Edge(links, p[i], p[i + 1])
  }

  ghost predicate Cycle(links: Links, p: seq<Id>) {
    |p| >= 2 && p[0] == p[|p| - 1] && Path(links, p)
  }

  ghost predicate HasCycle(links: Links) {
    exists p :: Cycle(links, p)
  }

  // ---------- a finishing order rules cycles out ----------

  ghost predicate Precedes(order: seq<Id>, i: nat, id: Id) {
    exists j: nat :: j < i && j < |order| && order[j] == id
  }

  /** Every link from a listed id goes to an id listed earlier. */
  ghost predicate Topological(links: Links, order: seq<Id>) {
    forall i: nat, c: Id :: i < |order| && Edge(links, order[i], c) ==> Precedes(order, i, c)
  }

  lemma {:induction false} LinksDescend(links: Links, order: seq<Id>, p: seq<Id>, i: nat) returns (j: nat)
    requires Topological(links, order) && Path(links, p) && p != []
    requires i < |order| && order[i] == p[0]
    ensures j < |order| && order[j] == p[|p| - 1] && j + |p| - 1 <= i
    decreases |p|
  {
    if |p| == 1 {
      j := i;
    } else {
      assert Edge(links, p[0], p[1]);
      assert Precedes(order, i, p[1]);
      var k: nat :| k < i && k < |order| && order[k] == p[1];
      assert Path(links, p[1..]) by {
        forall n | 0 <= n < |p[1..]| - 1 ensures Edge(links, p[1..][n], p[1..][n + 1]) {
          assert Edge(links, p[n + 1], p[n + 2]);
        }
      }
      j := LinksDescend(links, order, p[1..], k);
    }
  }

  /** Following a cycle through the order again and again would descend for ever. */
  lemma {:induction false} NoCycleFrom(links: Links, order: seq<Id>, p: seq<Id>, i: nat)
    requires Topological(links, order) && i < |order|
    ensures !(Cycle(links, p) && order[i] == p[0])
    decreases i
  {
    if Cycle(links, p) && order[i] == p[0] {
      var j := LinksDescend(links, order, p, i);
      NoCycleFrom(links, order, p, j);
    }
  }

  lemma OrderedIsAcyclic(links: Links, order: seq<Id>)
    requires Topological(links, order) && forall id :: id in links ==> id in order
    ensures !HasCycle(links)
  {
    forall p ensures !Cycle(links, p) {
      if Cycle(links, p) {
        assert Edge(links, p[0], p[1]);
        var i :| 0 <= i < |order| && order[i] == p[0];
        NoCycleFrom(links, order, p, i);
      }
    }
  }

  lemma {:induction false} RankedDescends(links: Links, rank: map<Id, nat>, p: seq<Id>)
    requires forall a, b :: Edge(links, a, b) ==> a in rank && b in rank && rank[a] < rank[b]
    requires Path(links, p) && |p| >= 2
    ensures p[0] in rank && p[|p| - 1] in rank && rank[p[0]] < rank[p[|p| - 1]]
    decreases |p|
  {
    assert Edge(links, p[0], p[1]);
    if |p| > 2 {
      assert Path(links, p[1..]) by {
        forall n | 0 <= n < |p[1..]| - 1 ensures Edge(links, p[1..][n], p[1..][n + 1]) {
          assert Edge(links, p[n + 1], p[n + 2]);
        }
      }
      RankedDescends(links, rank, p[1..]);
    }
  }

  /** Links that respect a rank form no cycle. */
  lemma RankedIsAcyclic(links: Links, rank: map<Id, nat>)
    requires forall a, b :: Edge(links, a, b) ==> a in rank && b in rank && rank[a] < rank[b]
    ensures !HasCycle(links)
  {
    forall p ensures !Cycle(links, p) {
      if Cycle(links, p) {
        RankedDescends(links, rank, p);
      }
    }
  }

  // ---------- the search ----------

  /** The closure of `DetectCycles` with the two maps it updates. */
  class Detector {
    const links: Links
    var visited: set<Id>
    var recStack: set<Id>
    ghost var stack: seq<Id>      // the ids of recStack, outermost first
    ghost var finished: seq<Id>   // visited ids no longer on the stack, in finishing order

    ghost function Universe(): set<Id> {
      links.Keys + set a, c | a in links && c in links[a] :: c
    }

    ghost predicate Valid()
      reads this
    {
      && visited <= Universe()
      && recStack <= visited
      && (forall id :: id in recStack <==> id in stack)
      && (forall i, j :: 0 <= i < j < |stack| ==> stack[i] != stack[j])
      && (forall id :: id in finished <==> id in visited && id !in recStack)
      && Path(links, stack)
      && Topological(links, finished)
    }

    constructor (links: Links)
      ensures Valid() && this.links == links && stack == []
    {
      this.links := links;
      visited, recStack := {}, {};
      stack, finished := [], [];
    }

    /** `detect(id)`: false when it returns an error. */
    method Detect(id: Id) returns (ok: bool)
      requires Valid() && id in Universe()
      requires stack != [] ==> Edge(links, stack[|stack| - 1], id)
      modifies this
      ensures ok ==> Valid() && stack == old(stack) && id in visited && old(visited) <= visited
      ensures ok ==> id !in recStack
      ensures !ok ==> HasCycle(links)
      decreases Universe() - visited
    {
      if id in recStack {
        ghost var k :| 0 <= k < |stack| && stack[k] == id;
        ClosesCycle(stack, k);
        return false;
      }
      if id in visited {
        return true;
      }
      visited := visited + {id};
      recStack := recStack + {id};
      stack := stack + [id];
      if id !in links {
        Leave(id);
        return true;
      }
      var todo := links[id];
      while todo != {}
        invariant Valid() && todo <= links[id]
        invariant stack == old(stack) + [id] && old(visited) + {id} <= visited
        invariant forall c :: c in links[id] && c !in todo ==> c in finished
        decreases todo
      {
        var child :| child in todo;
        assert Edge(links, id, child);
        var good := Detect(child);
        if !good {
          recStack := recStack - {id};
          return false;
        }
        todo := todo - {child};
      }
      Leave(id);
      return true;
    }

    /** The deferred reset of the recursion stack. */
    method Leave(id: Id)
      requires Valid() && stack != [] && stack[|stack| - 1] == id
      requires forall c :: Edge(links, id, c) ==> c in finished
      modifies this
      ensures Valid() && visited == old(visited)
      ensures stack == old(stack)[..|old(stack)| - 1] && finished == old(finished) + [id]
    {
      recStack := recStack - {id};
      stack := stack[..|stack| - 1];
      finished := finished + [id];
      assert forall i: nat, c: Id :: i < |finished| && Edge(links, finished[i], c) ==> Precedes(finished, i, c) by {
        forall i: nat, c: Id | i < |finished| && Edge(links, finished[i], c) ensures Precedes(finished, i, c) {
          if i < |old(finished)| {
            assert Precedes(old(finished), i, c);
            var j: nat :| j < i && j < |old(finished)| && old(finished)[j] == c;
            assert finished[j] == c;
          } else {
            var j: nat :| j < |old(finished)| && old(finished)[j] == c;
            assert finished[j] == c;
          }
        }
      }
    }

    lemma ClosesCycle(stack: seq<Id>, k: nat)
      requires k < |stack| && Path(links, stack) && Edge(links, stack[|stack| - 1], stack[k])
      ensures HasCycle(links)
    {
      var p := stack[k..] + [stack[k]];
      forall i | 0 <= i < |p| - 1 ensures Edge(links, p[i], p[i + 1]) {
        if i + 1 < |stack| - k {
          assert Edge(links, stack[k + i], stack[k + i + 1]);
        }
      }
      assert Cycle(links, p);
    }

    /** The search from every node: an error exactly when the Children links have a cycle. */
    method DetectCycles() returns (ok: bool)
      requires Valid() && stack == []
      modifies this
      ensures ok <==> !HasCycle(links)
    {
      var todo := links.Keys;
      while todo != {}
        invariant Valid() && stack == [] && todo <= links.Keys
        invariant forall id :: id in links && id !in todo ==> id in visited
        decreases todo
      {
        var id :| id in todo;
        if id !in visited {
          var good := Detect(id);
          if !good {
            return false;
          }
        }
        todo := todo - {id};
      }
      OrderedIsAcyclic(links, finished);
      return true;
    }
  }

  method DetectCycles(links: Links) returns (ok: bool)
    ensures ok <==> !HasCycle(links)
  {
    var detector := new Detector(links);
    ok := detector.DetectCycles();
  }
}
