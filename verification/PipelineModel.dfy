/** The pipeline engine as a transition system.

    One run of one pipeline over a fixed graph snapshot. Each step stands for one
    queue delivery or one API call and is atomic; the source takes no lock, so this
    granularity is an assumption of the model. The queue neither loses nor
    duplicates messages, except that Stop may kill node executions. */
module PipelineModel {

  datatype NodeId = NodeId(text: string)

  datatype Edge = Edge(source: NodeId, target: NodeId)

  datatype NodeConfig = NodeConfig(id: NodeId, isApproval: bool, maxRetries: int)

  /** An arbitrary finite graph: ids may repeat, edges may form cycles or name unknown nodes. */
  datatype Graph = Graph(nodes: seq<NodeConfig>, edges: seq<Edge>)

  datatype RunStatus = RunPending | RunRunning | RunSuccess | RunFailed | RunCancelled

  datatype NodeStatus = Pending | Waiting | Running | Success | Failed | Skipped | Cancelled

  datatype NodeRun = NodeRun(status: NodeStatus, isApproval: bool, retries: nat)

  /** `advances` counts queued scheduler messages; `queued` and `active` hold the node
      executions that are waiting in the queue and running on a worker. */
  datatype RunState = RunState(
    status: RunStatus,
    nodes: map<NodeId, NodeRun>,
    advances: nat,
    queued: multiset<NodeId>,
    active: multiset<NodeId>)

  datatype Step =
    | Advance
    | Start(node: NodeId)
    | Finish(node: NodeId, ok: bool)
    | Approve(node: NodeId, pass: bool)
    | Stop(survivors: multiset<NodeId>)

  /******* Graph access *******/

  function Ids(g: Graph): set<NodeId> {
    set c | c in g.nodes :: c.id
  }

  /** The first configuration entry with this id decides, as in the source. */
  function ConfigOf(configs: seq<NodeConfig>, n: NodeId): NodeConfig {
    if configs == [] then NodeConfig(n, false, 0)
    else if configs[0].id == n then configs[0]
    else ConfigOf(configs[1..], n)
  }

  lemma {:induction false} FirstConfig(configs: seq<NodeConfig>, i: nat)
    requires i < |configs| && forall c | c in configs[..i] :: c.id != configs[i].id
    ensures ConfigOf(configs, configs[i].id) == configs[i]
  {
    if i == 0 {
    } else {
      assert configs[0] in configs[..i];
      assert forall c | c in configs[1..][..i - 1] :: c in configs[..i];
      FirstConfig(configs[1..], i - 1);
    }
  }

  function RetryLimit(g: Graph, n: NodeId): nat {
    var m := ConfigOf(g.nodes, n).maxRetries;
    if m < 0 then 0 else m
  }

  ghost predicate EdgeInto(g: Graph, m: NodeId, n: NodeId) {
    Edge(m, n) in g.edges
  }

  /** The edges as pairs. */
  ghost function Rel(edges: seq<Edge>): set<(NodeId, NodeId)> {
    set e | e in edges :: (e.source, e.target)
  }

  lemma RelHas(edges: seq<Edge>, m: NodeId, n: NodeId)
    ensures (m, n) in Rel(edges) <==> Edge(m, n) in edges
  {
  }

  /******* Advance *******/

  predicate Terminal(status: RunStatus) {
    status in {RunSuccess, RunFailed, RunCancelled}
  }

  predicate Done(nodes: map<NodeId, NodeRun>, m: NodeId) {
    m in nodes && nodes[m].status in {Success, Skipped}
  }

  predicate Ready(g: Graph, nodes: map<NodeId, NodeRun>, n: NodeId) {
    n in nodes && nodes[n].status == Pending &&
    forall e | e in g.edges && e.target == n :: Done(nodes, e.source)
  }

  predicate Has(nodes: map<NodeId, NodeRun>, status: NodeStatus) {
    exists n :: n in nodes && nodes[n].status == status
  }

  function WithRecords(g: Graph, nodes: map<NodeId, NodeRun>): map<NodeId, NodeRun> {
    map n | n in nodes.Keys + Ids(g) ::
      if n in nodes then nodes[n] else NodeRun(Pending, ConfigOf(g.nodes, n).isApproval, 0)
  }

  function ReadySet(g: Graph, nodes: map<NodeId, NodeRun>): set<NodeId> {
    set n | n in nodes && Ready(g, nodes, n)
  }

  function Dispatched(nodes: map<NodeId, NodeRun>, ready: set<NodeId>): map<NodeId, NodeRun> {
    map n | n in nodes ::
      if n !in ready then nodes[n]
      else nodes[n].(status := if nodes[n].isApproval then Waiting else Running)
  }

  function Workers(nodes: map<NodeId, NodeRun>, ready: set<NodeId>): set<NodeId> {
    set n | n in ready && n in nodes && !nodes[n].isApproval
  }

  function FinalStatus(nodes: map<NodeId, NodeRun>): RunStatus {
    if Has(nodes, Failed) || (Has(nodes, Pending) && !Has(nodes, Cancelled)) then RunFailed
    else if Has(nodes, Cancelled) then RunCancelled
    else RunSuccess
  }

  /** What one wake-up of the scheduler does. */
  function AdvanceBody(g: Graph, s: RunState): RunState {
    if Terminal(s.status) then s
    else if g.nodes == [] then s.(status := RunFailed)
    else
      var nodes := WithRecords(g, s.nodes);
      var ready := ReadySet(g, nodes);
      if ready != {} then
        s.(status := RunRunning, nodes := Dispatched(nodes, ready),
           queued := s.queued + multiset(Workers(nodes, ready)))
      else if Has(nodes, Running) || Has(nodes, Waiting) then
        s.(status := RunRunning, nodes := nodes)
      else
        s.(status := FinalStatus(nodes), nodes := nodes)
  }

  /******* Steps *******/

  function SetStatus(nodes: map<NodeId, NodeRun>, n: NodeId, status: NodeStatus): map<NodeId, NodeRun>
    requires n in nodes
  {
    nodes[n := nodes[n].(status := status)]
  }

  predicate Enabled(g: Graph, s: RunState, step: Step) {
    match step
    case Advance => s.advances > 0
    case Start(n) => n in s.queued && n in s.nodes
    case Finish(n, _) => n in s.active && n in s.nodes
    case Approve(n, _) => n in s.nodes && s.nodes[n].status == Waiting
    case Stop(survivors) => s.status in {RunPending, RunRunning} && survivors <= s.active
  }

  /** A worker picks up an execute message. */
  function StartBody(s: RunState, n: NodeId): RunState
    requires n in s.queued && n in s.nodes
  {
    var s' := s.(queued := s.queued - multiset{n});
    if s.status == RunCancelled then s'.(nodes := SetStatus(s.nodes, n, Failed))
    else s'.(nodes := SetStatus(s.nodes, n, Running), active := s.active + multiset{n})
  }

  /** A worker ends a node body: success, bounded retry, or failure. */
  function FinishBody(g: Graph, s: RunState, n: NodeId, ok: bool): RunState
    requires n in s.active && n in s.nodes
  {
    var s' := s.(active := s.active - multiset{n});
    var record := s.nodes[n];
    if ok then
      s'.(nodes := SetStatus(s.nodes, n, Success), advances := s.advances + 1)
    else if record.retries < ConfigOf(g.nodes, n).maxRetries then
      s'.(nodes := s.nodes[n := record.(status := Running, retries := record.retries + 1)],
          queued := s.queued + multiset{n})
    else
      s'.(nodes := SetStatus(s.nodes, n, Failed), advances := s.advances + 1)
  }

  function ApproveBody(s: RunState, n: NodeId, pass: bool): RunState
    requires n in s.nodes
  {
    s.(nodes := SetStatus(s.nodes, n, if pass then Success else Failed), advances := s.advances + 1)
  }

  /** Stop marks every unfinished node cancelled. The kill signal reaches some of the running
      executions; `survivors` are those it does not reach. Queued executions stay queued. */
  function StopBody(s: RunState, survivors: multiset<NodeId>): RunState {
    s.(status := RunCancelled,
       nodes := map n | n in s.nodes ::
         if s.nodes[n].status in {Success, Failed, Skipped} then s.nodes[n]
         else s.nodes[n].(status := Cancelled),
       active := survivors)
  }

  function Apply(g: Graph, s: RunState, step: Step): RunState
    requires Enabled(g, s, step)
  {
    match step
    case Advance => AdvanceBody(g, s.(advances := s.advances - 1))
    case Start(n) => StartBody(s, n)
    case Finish(n, ok) => FinishBody(g, s, n, ok)
    case Approve(n, pass) => ApproveBody(s, n, pass)
    case Stop(survivors) => StopBody(s, survivors)
  }

  /******* Runs *******/

  /** Initial states: a fresh run has no records; a retry wave starts with every record
      present, some of them skipped. */
  ghost predicate Init(g: Graph, s: RunState) {
    && s.status == RunPending
    && s.advances == 1
    && s.queued == multiset{}
    && s.active == multiset{}
    && s.nodes.Keys <= Ids(g)
    && forall n | n in s.nodes :: s.nodes[n].status in {Pending, Skipped} && s.nodes[n].retries == 0
  }

  ghost predicate Fresh(g: Graph, s: RunState) {
    Init(g, s) && s.nodes == map[]
  }

  /** `steps` leads from `s` to `t`. */
  ghost predicate Runs(g: Graph, s: RunState, steps: seq<Step>, t: RunState)
    decreases |steps|
  {
    if steps == [] then s == t
    else Enabled(g, s, steps[0]) && Runs(g, Apply(g, s, steps[0]), steps[1..], t)
  }

  lemma {:induction false} RunsConcat(g: Graph, s: RunState, xs: seq<Step>, t: RunState, ys: seq<Step>, u: RunState)
    requires Runs(g, s, xs, t) && Runs(g, t, ys, u)
    ensures Runs(g, s, xs + ys, u)
    decreases |xs|
  {
    if xs == [] {
      assert xs + ys == ys;
    } else {
      RunsConcat(g, Apply(g, s, xs[0]), xs[1..], t, ys, u);
      assert (xs + ys)[1..] == xs[1..] + ys;
    }
  }
}
