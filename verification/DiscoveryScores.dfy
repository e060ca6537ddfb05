/** What the operations on the discovery graph make of their input, by value: which responses and which paths call
    for a follow-up action, how far each status moves the scores, and what a new node starts with. */
module DiscoveryScores {
  import opened CycleDetection
  import opened DiscoveryGraphs
  import opened DiscoveryRuns

  // ---------- texts ----------

  lemma LowerAppend(a: string, b: string)
    ensures Lower(a + b) == Lower(a) + Lower(b)
  {
  }

  lemma LowerKeeps(s: string)
    requires forall i :: 0 <= i < |s| ==> !('A' <= s[i] <= 'Z')
    ensures Lower(s) == s
  {
  }

  lemma LowerAlphabet()
    ensures Lower("ABCDEFGHIJKLM") == "abcdefghijklm" && Lower("NOPQRSTUVWXYZ") == "nopqrstuvwxyz"
  {
  }

  lemma ContainsIff(s: string, part: string)
    ensures Contains(s, part) <==> exists a, b :: s == a + part + b
  {
    if Contains(s, part) {
      var i :| 0 <= i <= |s| && OccursAt(s, i, part);
      assert s == s[..i] + part + s[i + |part|..];
    }
    if a, b :| s == a + part + b {
      assert OccursAt(s, |a|, part);
    }
  }

  lemma SuffixIff(s: string, end: string)
    ensures HasSuffix(s, end) <==> exists a :: s == a + end
  {
    if HasSuffix(s, end) {
      assert s == s[..|s| - |end|] + end;
    }
  }

  // ---------- follow-up actions ----------

  /** Exactly a first 401 or 403 of a known node with new evidence calls for a follow-up, a validation, unless the
      node has had three. */
  lemma UpdateEmits(g: Graph, id: Id, resp: Response, ids: Ids)
    requires id in g.nodes && g.nodes[id].lastEvidence != resp.digest
    ensures Update(g, id, resp, ids).1
            == if (resp.status == 401 || resp.status == 403) && g.nodes[id].feedback < 3
                  && ActionKey(id, Validation, true) !in g.history
               then [ActionKey(id, Validation, true)] else []
  {
    var o := Observed(g, id, resp, ids.event);
    assert o.history == g.history && o.nodes[id].feedback == g.nodes[id].feedback;
    if !Capped(o.nodes[id], true) && Retorts(resp) != [] {
      assert seq(1, i => ids.ticket) == [ids.ticket];
      EmitOne(o, id, true, Validation, ids.ticket);
    }
  }

  /** In a graph the operations built the limit of three never matters. */
  lemma FirstDenialEmits(maxEvents: int, ops: seq<(Op, Ids)>, g: Graph, log: seq<ActionKey>, id: Id, resp: Response, ids: Ids)
    requires RunsTo(New(maxEvents), ops, g, log) && id in g.nodes && g.nodes[id].lastEvidence != resp.digest
    ensures Update(g, id, resp, ids).1
            == if (resp.status == 401 || resp.status == 403) && ActionKey(id, Validation, true) !in log
               then [ActionKey(id, Validation, true)] else []
  {
    EmittedOnce(maxEvents, ops, g, log);
    UpdateEmits(g, id, resp, ids);
  }

  /** A node that is not known, or evidence seen last, changes nothing. */
  lemma UpdateIgnores(g: Graph, id: Id, resp: Response, ids: Ids)
    ensures id !in g.nodes || g.nodes[id].lastEvidence == resp.digest <==> Update(g, id, resp, ids) == (g, [])
  {
    if id in g.nodes && g.nodes[id].lastEvidence != resp.digest {
      UpdateScores(g, id, resp, ids);
    }
  }

  /** What asks for an action: a parameter in a path of an API description, a sensitive part in a path out of a
      script, a mutation of GraphQL. */
  predicate Asks(source: Source, path: string) {
    || (source.OpenApi? && (Has(path, "{id}") || Has(path, "{uuid}")))
    || (source.JavaScript? && (Has(path, "/admin") || Has(path, "/debug") || Has(path, "/internal")))
    || (source.GraphQL? && Has(path, "mutation"))
  }

  /** The part stands somewhere in the text, in whatever letter case. */
  predicate Has(text: string, part: string) { Contains(Lower(text), part) }

  /** Exactly such a path calls for an action, a parameter scan for an API description and a validation otherwise,
      unless the node has had five or the history holds it. */
  lemma PathEmits(g: Graph, id: Id, ticket: Ticket)
    requires id in g.nodes
    ensures var n := g.nodes[id];
            var key := ActionKey(id, if n.source.OpenApi? then ParamFuzz else Validation, false);
            Evaluate(g, id, ticket).1
            == if Asks(n.source, n.path) && n.derived < 5 && key !in g.history then [key] else []
  {
    AsksIff(g.nodes[id].source, g.nodes[id].path);
    if !Capped(g.nodes[id], false) && Proposed(g.nodes[id]) != [] {
      assert seq(1, i => ticket) == [ticket];
      EmitOne(g, id, false, ActionFor(g.nodes[id].source), ticket);
    }
  }

  lemma AsksIff(source: Source, path: string)
    ensures Suspicious(source, path) <==> Asks(source, path)
  {
  }

  // ---------- scores ----------

  function Bounded(x: int): (r: int)
    ensures r == x || (x < 0 && r == 0) || (x > 100 && r == 100)
    ensures 0 <= r <= 100
  {
    if x < 0 then 0 else if x > 100 then 100 else x
  }

  /** How far a response moves each score: a dead end lowers the confidence, a denial raises everything, and so on;
      confidence and risk stay within 100.  Nothing else changes in the node but the counter of its follow-ups,
      and nothing in any other node. */
  lemma UpdateScores(g: Graph, id: Id, resp: Response, ids: Ids)
    requires id in g.nodes && g.nodes[id].lastEvidence != resp.digest
    ensures var n, h, s := g.nodes[id], Update(g, id, resp, ids).0, resp.status;
            && h.nodes.Keys == g.nodes.Keys
            && (forall other :: other in g.nodes && other != id ==> h.nodes[other] == g.nodes[other])
            && h.nodes[id]
               == n.(confidence := Bounded(n.confidence + if s == 404 || s == 410 then -20
                                                          else if s == 401 || s == 403 then 20
                                                          else if s == 200 then 10
                                                          else if s == 0 then -5 else 0),
                     risk := Bounded(n.risk + if s == 401 || s == 403 then 40
                                              else if s == 500 then 10
                                              else if s == 200 && resp.interesting then 30 else 0),
                     priority := Max0(n.priority + if s == 401 || s == 403 then 40 else if s == 200 then 20 else 0),
                     lastEvidence := resp.digest,
                     feedback := n.feedback + |Update(g, id, resp, ids).1|)
  {
    var o := Observed(g, id, resp, ids.event);
    if !Capped(o.nodes[id], true) && Retorts(resp) != [] {
      assert seq(1, i => ids.ticket) == [ids.ticket];
      EmitOne(o, id, true, Validation, ids.ticket);
    }
  }

  function Max0(x: int): int { if x < 0 then 0 else x }

  // ---------- new nodes ----------

  /** How good the evidence of a source is by itself. */
  function SourceQuality(source: Source): int {
    if source.OpenApi? then 95 else if source.JavaScript? then 70 else if source.Wordlist? then 20 else 10
  }

  /** The words that make a path urgent, and the ends that make it dull. */
  ghost predicate Urgent(path: string) {
    exists w :: w in {"admin", "internal", "debug", "config", "secret", ".env", ".git", "api"} && Has(path, w)
  }

  ghost predicate Dull(path: string) {
    exists w :: w in {".png", ".jpg", ".jpeg", ".gif", ".css", ".svg", ".woff", ".woff2", ".ttf", ".eot"}
                && HasSuffix(Lower(path), w)
  }

  lemma UrgentIff(path: string)
    ensures Urgent(path) <==> exists i :: 0 <= i < |SENSITIVE| && Contains(Lower(path), SENSITIVE[i])
  {
    if w :| w in {"admin", "internal", "debug", "config", "secret", ".env", ".git", "api"} && Has(path, w) {
      assert w in SENSITIVE;
      var i :| 0 <= i < |SENSITIVE| && SENSITIVE[i] == w;
      assert Contains(Lower(path), SENSITIVE[i]);
    }
    if i :| 0 <= i < |SENSITIVE| && Contains(Lower(path), SENSITIVE[i]) {
      assert Has(path, SENSITIVE[i]);
    }
  }

  lemma DullIff(path: string)
    ensures Dull(path) <==> exists i :: 0 <= i < |STATIC| && HasSuffix(Lower(path), STATIC[i])
  {
    if w :| w in {".png", ".jpg", ".jpeg", ".gif", ".css", ".svg", ".woff", ".woff2", ".ttf", ".eot"}
            && HasSuffix(Lower(path), w) {
      assert w in STATIC;
      var i :| 0 <= i < |STATIC| && STATIC[i] == w;
      assert HasSuffix(Lower(path), STATIC[i]);
    }
    if i :| 0 <= i < |STATIC| && HasSuffix(Lower(path), STATIC[i]) {
      assert STATIC[i] in {".png", ".jpg", ".jpeg", ".gif", ".css", ".svg", ".woff", ".woff2", ".ttf", ".eot"};
    }
  }

  /** Thirty for a source that extracts, half the quality, a fifth of the confidence, fifty more for a sensitive word
      and fifty less for a static file, within 0 and 100. */
  lemma PriorityIs(source: Source, path: string, evidence: Evidence)
    ensures PriorityOf(source, path, evidence)
            == Bounded((if source.JavaScript? || source.OpenApi? || source.GraphQL? || source.SourceMap? then 30 else 0)
                       + Max0(evidence.quality) / 2 + Max0(evidence.confidence) / 5
                       + (if Urgent(path) then 50 else 0) - (if Dull(path) then 50 else 0))
  {
    UrgentIff(path);
    DullIff(path);
  }

  /** A path that is new starts with the evidence given, its quality filled in from the source, and with no
      confidence, risk or children. */
  lemma NewPathNode(g: Graph, parent: Id, path: string, source: Source, given: Evidence, ids: Ids)
    requires IndexSound(g) && Signature(parent, path, source) !in g.bySignature && parent != ids.node
    ensures var r := AddPath(g, parent, path, source, given, ids);
            var evidence := if given.quality == 0 then given.(quality := SourceQuality(source)) else given;
            && r.1 == ids.node && ids.node in r.0.nodes
            && r.0.nodes[ids.node] == Node(ids.node, PathNode, path, parent, source, evidence, 0, 0,
                                           PriorityOf(source, path, evidence), |r.2|, 0, "", {})
  {
    var mid := Insert(g, FreshPath(ids.node, parent, path, source, given), ids.event);
    StoredNodes(g, FreshPath(ids.node, parent, path, source, given), ids.event);
    Charges(mid, ids.node, ids.ticket);
  }

  lemma NewSourceNode(g: Graph, source: Source, ids: Ids)
    requires Signature(0, "", source) !in g.bySignature
    ensures var r := AddSource(g, source, ids);
            && r.1 == ids.node && ids.node in r.0.nodes && r.2 == []
            && r.0.nodes[ids.node] == Node(ids.node, SourceNode, "", 0, source, Evidence(0, SourceQuality(source)), 0, 0,
                                           PriorityOf(source, "", Evidence(0, SourceQuality(source))), 0, 0, "", {})
  {
    var mid := Insert(g, FreshSource(ids.node, source), ids.event);
    StoredNodes(g, FreshSource(ids.node, source), ids.event);
    Charges(mid, ids.node, ids.ticket);
    PathEmits(mid, ids.node, ids.ticket);
    assert Lower("") == "";
  }

  /** Evaluation changes only the counter of the node. */
  lemma Charges(g: Graph, id: Id, ticket: Ticket)
    requires id in g.nodes
    ensures var r := Evaluate(g, id, ticket);
            r.0.nodes == g.nodes[id := g.nodes[id].(derived := g.nodes[id].derived + |r.1|)]
  {
    if !Capped(g.nodes[id], false) && Proposed(g.nodes[id]) != [] {
      assert seq(1, i => ticket) == [ticket];
      EmitOne(g, id, false, ActionFor(g.nodes[id].source), ticket);
    }
  }
}
