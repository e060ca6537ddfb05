/** The discovery graph: nodes, their two indexes, the action history and the event ledger.

    Each operation is a function on `Graph` values, implemented by the methods of `DiscoveryGraph`.
    `uuid.New` is modelled by ids handed in by the caller that must be fresh; the SHA-256 signature
    by the triple it is computed from.
 */
module DiscoveryGraphs {
  import opened CycleDetection

  datatype Source = OpenApi | JavaScript | GraphQL | SourceMap | Wordlist | OtherSource(name: string)

  datatype Kind = SourceNode | PathNode

  datatype Evidence = Evidence(confidence: int, quality: int)

  datatype Node = Node(
    id: Id, kind: Kind, path: string, parent: Id, source: Source, evidence: Evidence,
    confidence: int, risk: int, priority: int,
    derived: nat, feedback: nat, lastEvidence: string, children: set<Id>)

  datatype Action = ParamFuzz | Validation

  /** The key of ActionHistory: node and action type, with the `_feedback` suffix as a flag. */
  datatype ActionKey = ActionKey(node: Id, action: Action, feedback: bool)

  datatype EventKind = NodeAdded | ResponseObserved | ActionCreated

  datatype Event = Event(id: Id, kind: EventKind, node: Id)

  datatype Signature = Signature(parent: Id, path: string, source: Source)

  datatype Graph = Graph(
    nodes: map<Id, Node>,
    bySignature: map<Signature, Id>,
    byPath: map<string, seq<Id>>,
    history: set<ActionKey>,
    executions: set<Id>,
    events: seq<Event>,
    maxEvents: int)

  function New(maxEvents: int): Graph {
    Graph(map[], map[], map[], {}, {}, [], maxEvents)
  }

  /** What a response contributes; `digest` is the formatted string compared with the last one. */
  datatype Response = Response(status: int, interesting: bool, digest: string)

  const MAX_DERIVED: nat := 5
  const MAX_FEEDBACK: nat := 3

  // ---------- heuristics on paths ----------

  function Lower(s: string): string {
    seq(|s|, i requires 0 <= i < |s| => if 'A' <= s[i] <= 'Z' then ((s[i] as int) + 32) as char else s[i])
  }

  predicate OccursAt(s: string, i: int, part: string) {
    0 <= i <= |s| - |part| && s[i..i + |part|] == part
  }

  predicate Contains(s: string, part: string) {
    exists i :: 0 <= i <= |s| && OccursAt(s, i, part)
  }

  predicate HasSuffix(s: string, end: string) {
    |end| <= |s| && s[|s| - |end|..] == end
  }

  function QualityOf(source: Source): int {
    match source
    case OpenApi => 95
    case JavaScript => 70
    case Wordlist => 20
    case _ => 10
  }

  function Clamp(x: int, low: int, high: int): int {
    if x < low then low else if x > high then high else x
  }

  const SENSITIVE := ["admin", "internal", "debug", "config", "secret", ".env", ".git", "api"]
  const STATIC := [".png", ".jpg", ".jpeg", ".gif", ".css", ".svg", ".woff", ".woff2", ".ttf", ".eot"]

  function PriorityOf(source: Source, path: string, evidence: Evidence): (score: int)
    ensures 0 <= score <= 100
  {
    var s0 := if source.JavaScript? || source.OpenApi? || source.GraphQL? || source.SourceMap? then 30 else 0;
    var s1 := s0 + (if evidence.quality > 0 then evidence.quality / 2 else 0);
    var s2 := s1 + (if evidence.confidence > 0 then evidence.confidence / 5 else 0);
    var lower := Lower(path);
    var s3 := s2 + (if exists i :: 0 <= i < |SENSITIVE| && Contains(lower, SENSITIVE[i]) then 50 else 0);
    var s4 := s3 - (if exists i :: 0 <= i < |STATIC| && HasSuffix(lower, STATIC[i]) then 50 else 0);
    Clamp(s4, 0, 100)
  }

  /** The action `EvaluateNode` proposes for nodes of a source, if their path asks for one. */
  function ActionFor(source: Source): Action {
    if source.OpenApi? then ParamFuzz else Validation
  }

  predicate Suspicious(source: Source, path: string) {
    var lower := Lower(path);
    match source
    case OpenApi => Contains(lower, "{id}") || Contains(lower, "{uuid}")
    case JavaScript => Contains(lower, "/admin") || Contains(lower, "/debug") || Contains(lower, "/internal")
    case GraphQL => Contains(lower, "mutation")
    case _ => false
  }

  // ---------- events ----------

  predicate HasEvent(events: seq<Event>, id: Id) {
    exists i :: 0 <= i < |events| && events[i].id == id
  }

  function Newest(events: seq<Event>, max: int): seq<Event> {
    if max > 0 && |events| > max then events[|events| - max..] else events
  }

  function Logged(events: seq<Event>, e: Event, max: int): seq<Event> {
    if HasEvent(events, e.id) then events else Newest(events + [e], max)
  }

  function WithEvent(g: Graph, e: Event): Graph {
    g.(events := Logged(g.events, e, g.maxEvents))
  }

  // ---------- emitting actions ----------

  /** Fresh ids for one emitted action and its event. */
  datatype Ticket = Ticket(action: Id, event: Id)

  predicate Capped(n: Node, feedback: bool) {
    if feedback then n.feedback >= MAX_FEEDBACK else n.derived >= MAX_DERIVED
  }

  function Charged(n: Node, feedback: bool): Node {
    if feedback then n.(feedback := n.feedback + 1) else n.(derived := n.derived + 1)
  }

  /** Records one new action: history, counter, execution and event. */
  function Recorded(g: Graph, key: ActionKey, ticket: Ticket): Graph
    requires key.node in g.nodes
  {
    WithEvent(g.(history := g.history + {key},
                 nodes := g.nodes[key.node := Charged(g.nodes[key.node], key.feedback)],
                 executions := g.executions + {ticket.action}),
              Event(ticket.event, ActionCreated, key.node))
  }

  /** The loop over the proposed actions: skips those in the history, stops at the cap. */
  function Emit(g: Graph, id: Id, feedback: bool, proposed: seq<Action>, tickets: seq<Ticket>): (r: (Graph, seq<ActionKey>))
    requires id in g.nodes && |tickets| == |proposed|
    decreases |proposed|
  {
    if proposed == [] then (g, [])
    else
      var key := ActionKey(id, proposed[0], feedback);
      if key in g.history then Emit(g, id, feedback, proposed[1..], tickets[1..])
      else
        var g' := Recorded(g, key, tickets[0]);
        if Capped(g'.nodes[id], feedback) then (g', [key])
        else
          var rest := Emit(g', id, feedback, proposed[1..], tickets[1..]);
          (rest.0, [key] + rest.1)
  }

  function Proposed(n: Node): seq<Action> {
    if Suspicious(n.source, n.path) then [ActionFor(n.source)] else []
  }

  function Evaluate(g: Graph, id: Id, ticket: Ticket): (Graph, seq<ActionKey>)
    requires id in g.nodes
  {
    if Capped(g.nodes[id], false) then (g, [])
    else Emit(g, id, false, Proposed(g.nodes[id]), seq(|Proposed(g.nodes[id])|, i => ticket))
  }

  // ---------- adding nodes ----------

  function SignatureOf(n: Node): Signature { Signature(n.parent, n.path, n.source) }

  /** Every signature in use names a node. */
  ghost predicate IndexSound(g: Graph) {
    forall sig :: sig in g.bySignature ==> g.bySignature[sig] in g.nodes
  }

  /** Fresh ids for one operation. */
  datatype Ids = Ids(node: Id, event: Id, ticket: Ticket)

  function Linked(nodes: map<Id, Node>, parent: Id, child: Id): map<Id, Node> {
    if parent != 0 && parent in nodes
    then nodes[parent := nodes[parent].(children := nodes[parent].children + {child})] else nodes
  }

  function Listed(byPath: map<string, seq<Id>>, path: string): seq<Id> {
    if path in byPath then byPath[path] else []
  }

  /** Stores a node under its signature and, for a path node, under its path and its parent. */
  function Insert(g: Graph, n: Node, event: Id): Graph {
    var g' := g.(nodes := g.nodes[n.id := n], bySignature := g.bySignature[SignatureOf(n) := n.id]);
    var g'' := if n.kind == SourceNode then g'
               else g'.(byPath := g.byPath[n.path := Listed(g.byPath, n.path) + [n.id]],
                        nodes := Linked(g'.nodes, n.parent, n.id));
    WithEvent(g'', Event(event, NodeAdded, n.id))
  }

  function FreshSource(id: Id, source: Source): Node {
    var evidence := Evidence(0, QualityOf(source));
    Node(id, SourceNode, "", 0, source, evidence, 0, 0, PriorityOf(source, "", evidence), 0, 0, "", {})
  }

  function FreshPath(id: Id, parent: Id, path: string, source: Source, given: Evidence): Node {
    var evidence := if given.quality == 0 then given.(quality := QualityOf(source)) else given;
    Node(id, PathNode, path, parent, source, evidence, 0, 0, PriorityOf(source, path, evidence), 0, 0, "", {})
  }

  function AddSource(g: Graph, source: Source, ids: Ids): (Graph, Id, seq<ActionKey>) {
    if Signature(0, "", source) in g.bySignature then (g, g.bySignature[Signature(0, "", source)], [])
    else
      var r := Evaluate(Insert(g, FreshSource(ids.node, source), ids.event), ids.node, ids.ticket);
      (r.0, ids.node, r.1)
  }

  function AddPath(g: Graph, parent: Id, path: string, source: Source, evidence: Evidence, ids: Ids)
    : (Graph, Id, seq<ActionKey>)
    requires IndexSound(g)
  {
    var sig := Signature(parent, path, source);
    if sig in g.bySignature then
      var r := Evaluate(g, g.bySignature[sig], ids.ticket);
      (r.0, g.bySignature[sig], r.1)
    else
      var r := Evaluate(Insert(g, FreshPath(ids.node, parent, path, source, evidence), ids.event), ids.node, ids.ticket);
      (r.0, ids.node, r.1)
  }

  // ---------- feedback ----------

  /** The scores after a response, clamped. */
  function Rescored(n: Node, resp: Response): Node {
    var s := resp.status;
    var confidence :=
      if s == 404 || s == 410 then n.confidence - 20
      else if s == 403 || s == 401 then n.confidence + 20
      else if s == 500 then n.confidence
      else if s == 200 then n.confidence + 10
      else if s == 0 then n.confidence - 5 else n.confidence;
    var risk :=
      if s == 403 || s == 401 then n.risk + 40
      else if s == 500 then n.risk + 10
      else if s == 200 && resp.interesting then n.risk + 30 else n.risk;
    var priority :=
      if s == 403 || s == 401 then n.priority + 40 else if s == 200 then n.priority + 20 else n.priority;
    n.(confidence := Clamp(confidence, 0, 100), risk := Clamp(risk, 0, 100),
       priority := if priority < 0 then 0 else priority, lastEvidence := resp.digest)
  }

  function Retorts(resp: Response): seq<Action> {
    if resp.status == 403 || resp.status == 401 then [Validation] else []
  }

  /** The graph once the response is logged and scored. */
  function Observed(g: Graph, id: Id, resp: Response, event: Id): Graph
    requires id in g.nodes
  {
    WithEvent(g, Event(event, ResponseObserved, id)).(nodes := g.nodes[id := Rescored(g.nodes[id], resp)])
  }

  /** The actions a response calls for, under the feedback cap. */
  function Retort(g: Graph, id: Id, resp: Response, ticket: Ticket): (Graph, seq<ActionKey>)
    requires id in g.nodes
  {
    if Capped(g.nodes[id], true) then (g, [])
    else Emit(g, id, true, Retorts(resp), seq(|Retorts(resp)|, i => ticket))
  }

  function Update(g: Graph, id: Id, resp: Response, ids: Ids): (Graph, seq<ActionKey>) {
    if id !in g.nodes || g.nodes[id].lastEvidence == resp.digest then (g, [])
    else Retort(Observed(g, id, resp, ids.event), id, resp, ids.ticket)
  }
}
