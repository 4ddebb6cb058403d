/** `ultra::core::StateManager`: optimistic mutations over one versioned kernel state. */
module StateManagers {
  // Every method holds the manager's lock, so a run of many clients is a sequence of whole methods.

  import opened Decimals
  import opened Orders
  import opened Snapshots

  // Values the protocol only stores and passes on.
  type Core(==, !new)
  type Tables(==, !new)
  type Weights(==, !new)
  type Graph(==, 0, !new)
  type Diff(==, 0, !new)

  datatype RuntimeState = RuntimeState(core: Core, tables: Tables)

  /** What a mutation callback may change. */
  datatype Work = Work(runtime: RuntimeState, weights: Weights, lru: seq<string>)

  /** A callback accepts its working copy, rejects it, or throws. */
  datatype Verdict = Accepted(work: Work) | Rejected | Failed

  type Mutation = Work -> Verdict

  /** Collaborators: the deterministic graph hash, the weight engine's rebuild, and the paths of the file table. */
  datatype Engine = Engine(hash: Graph -> string, reweigh: (Weights, RuntimeState) -> Weights,
                           paths: RuntimeState -> seq<string>)

  /** Everything a rollback restores. */
  datatype Kernel = Kernel(
    work: Work,
    graph: Graph,
    version: nat,
    branch: string,
    diff: Diff,
    chain: seq<StateSnapshot<Graph>>,
    branchLru: seq<string>)

  datatype GraphSnapshot = GraphSnapshot(graph: Option<Graph>, runtime: RuntimeState, version: nat, branch: string)

  datatype MutationOutcome = MutationOutcome(
    applied: bool, rolledBack: bool, versionBefore: nat, versionAfter: nat, hashBefore: string, hashAfter: string)

  /** The exceptions of `applyOverlayMutation`, or its return value. */
  datatype Outcome = EmptyCallback | StaleVersion | HashMismatch | CallbackThrew | Returned(result: MutationOutcome) {
    predicate Committed() {
      Returned? && result.applied
    }
  }

  const NIL_BRANCH := "00000000-0000-0000-0000-000000000000"
  const LRU_CAP: nat := 3

  // ----- values -----

  function Front(order: seq<string>): seq<string> {
    if |order| <= LRU_CAP then order else order[..LRU_CAP]
  }

  function Touched(order: seq<string>, id: string): seq<string> {
    Front([id] + Without(order, id))
  }

  function Governed(branchLru: seq<string>, branch: string): seq<string> {
    if branch == NIL_BRANCH then branchLru else Touched(branchLru, branch)
  }

  function SnapshotAt(version: nat, graph: Graph): StateSnapshot<Graph> {
    StateSnapshot(version, Dec(version), "", graph)
  }

  function SnapshotOf(k: Kernel): GraphSnapshot {
    GraphSnapshot(Some(k.graph), k.work.runtime, k.version, k.branch)
  }

  /** The next version, holding this graph. */
  function Advanced(k: Kernel, graph: Graph): Kernel {
    k.(graph := graph, version := k.version + 1,
       chain := Snapshots.Capped(k.chain + [SnapshotAt(k.version + 1, graph)]),
       branchLru := Governed(k.branchLru, k.branch))
  }

  function Reloaded(e: Engine, w: Work, state: RuntimeState): Work {
    Work(state, e.reweigh(w.weights, state), Front(e.paths(state)))
  }

  // ----- the atomic steps -----

  datatype Operation =
    | Overlay(snapshot: GraphSnapshot, mutation: Option<Mutation>, outcome: Outcome)
    | Replace(state: RuntimeState)
    | UpdateCore(core: Core)
    | SetBranch(branch: string)
    | LoadGraph(loaded: Option<RuntimeState>)

  predicate HashAccepted(e: Engine, k: Kernel, snapshot: GraphSnapshot) {
    e.hash(k.graph) == "" || (snapshot.graph.Some? && e.hash(snapshot.graph.value) == e.hash(k.graph))
  }

  ghost predicate OverlayStep(e: Engine, k: Kernel, snapshot: GraphSnapshot, mutation: Option<Mutation>,
                              outcome: Outcome, k': Kernel) {
    var h := e.hash(k.graph);
    if mutation.None? then outcome == EmptyCallback && k' == k
    else if snapshot.version != k.version then outcome == StaleVersion && k' == k
    else if !HashAccepted(e, k, snapshot) then outcome == HashMismatch && k' == k
    else match mutation.value(k.work)
      case Failed => outcome == CallbackThrew && k' == k
      case Rejected => outcome == Returned(MutationOutcome(false, false, k.version, k.version, h, h)) && k' == k
      case Accepted(w) =>
        || (outcome == Returned(MutationOutcome(false, true, k.version, k.version, h, h)) && k' == k)
        || (k' == Advanced(k.(work := w, diff := k'.diff), k'.graph) && e.hash(k'.graph) != ""
            && outcome == Returned(MutationOutcome(true, false, k.version, k.version + 1, h, e.hash(k'.graph))))
  }

  ghost predicate Step(e: Engine, k: Kernel, op: Operation, k': Kernel) {
    match op
    case Overlay(snapshot, mutation, outcome) => OverlayStep(e, k, snapshot, mutation, outcome, k')
    case Replace(state) => k' == Advanced(k.(work := Reloaded(e, k.work, state)), k'.graph)
    case UpdateCore(core) => k' == Advanced(k.(work := k.work.(runtime := k.work.runtime.(core := core))), k'.graph)
    case SetBranch(branch) => k' == Advanced(k.(branch := branch, branchLru := Touched(k.branchLru, branch)), k'.graph)
    case LoadGraph(loaded) =>
      if loaded.None? then k' == k
      else k' == Advanced(k.(work := Reloaded(e, k.work, loaded.value), chain := []), k'.graph)
  }

  /** What an operation that takes effect does to the work, whoever runs it and whatever snapshot it holds. */
  function Effect(e: Engine, op: Operation, w: Work): Work {
    match op
    case Overlay(_, mutation, _) =>
      if mutation.Some? && mutation.value(w).Accepted? then mutation.value(w).work else w
    case Replace(state) => Reloaded(e, w, state)
    case UpdateCore(core) => w.(runtime := w.runtime.(core := core))
    case SetBranch(_) => w
    case LoadGraph(loaded) => if loaded.Some? then Reloaded(e, w, loaded.value) else w
  }

  /** The operations that must not be lost: committed mutations and all other writes but a failed load. */
  predicate TakesEffect(op: Operation) {
    match op
    case Overlay(_, _, outcome) => outcome.Committed()
    case LoadGraph(loaded) => loaded.Some?
    case _ => true
  }

  /** Without effect nothing at all changes; with it the version grows by one and names a new snapshot. */
  lemma StepEffect(e: Engine, k: Kernel, op: Operation, k': Kernel)
    requires Step(e, k, op, k')
    ensures !TakesEffect(op) ==> k' == k
    ensures TakesEffect(op) ==> k'.version == k.version + 1 && k'.work == Effect(e, op, k.work)
    ensures TakesEffect(op) ==>
      k'.chain == Snapshots.Capped((if op.LoadGraph? then [] else k.chain) + [SnapshotAt(k'.version, k'.graph)])
    ensures op.Overlay? && op.outcome.Committed() ==> op.snapshot.version == k.version && e.hash(k'.graph) != ""
  {
    hide Snapshots.Capped, SnapshotAt, Governed, Touched, Reloaded;
  }

  /** What the next snapshot shows after each kind of write: a replaced or loaded state is shown as it was given, with
      weights and hot paths made for it; a new core comes with the old tables; a new branch leads the recency list. */
  lemma WriteShows(e: Engine, k: Kernel, op: Operation, k': Kernel)
    requires Step(e, k, op, k')
    ensures op.Replace? ==>
      && SnapshotOf(k').runtime == op.state && SnapshotOf(k').branch == k.branch
      && k'.work.weights == e.reweigh(k.work.weights, op.state) && k'.diff == k.diff
      && FirstOf(k'.work.lru, e.paths(op.state))
    ensures op.LoadGraph? && op.loaded.Some? ==>
      && SnapshotOf(k').runtime == op.loaded.value && SnapshotOf(k').branch == k.branch
      && k'.work.weights == e.reweigh(k.work.weights, op.loaded.value) && k'.diff == k.diff
      && FirstOf(k'.work.lru, e.paths(op.loaded.value)) && |k'.chain| == 1
    ensures op.UpdateCore? ==>
      && SnapshotOf(k').runtime.core == op.core && SnapshotOf(k').runtime.tables == k.work.runtime.tables
      && SnapshotOf(k').branch == k.branch && k'.work.weights == k.work.weights && k'.work.lru == k.work.lru
    ensures op.SetBranch? ==>
      && SnapshotOf(k').branch == op.branch && SnapshotOf(k').runtime == k.work.runtime
      && k'.work == k.work && k'.branchLru != [] && k'.branchLru[0] == op.branch
    ensures TakesEffect(op) ==> k'.chain != [] && Shows(k'.chain[|k'.chain| - 1], k') && SnapshotOf(k').graph == Some(
      k'.graph)
  {
    if TakesEffect(op) {
      StepEffect(e, k, op, k');
      NewestOf(k, k', op);
    }
    if op.SetBranch? { LeadsTwice(k.branchLru, op.branch); }
    hide Snapshots.Capped, Dec;
  }

  /** The first three of the list, or all of it. */
  ghost predicate FirstOf(order: seq<string>, all: seq<string>) {
    && order <= all && |order| <= 3 && (|all| <= 3 ==> order == all) && (|all| > 3 ==> |order| == 3)
  }

  /** A kept snapshot of the kernel's graph under its version. */
  ghost predicate Shows(x: StateSnapshot<Graph>, k: Kernel) {
    x.id == k.version && x.snapshotId == Dec(k.version) && x.graph == k.graph
  }

  lemma NewestOf(k: Kernel, k': Kernel, op: Operation)
    requires k'.chain == Snapshots.Capped((if op.LoadGraph? then [] else k.chain) + [SnapshotAt(k'.version, k'.graph)])
    ensures k'.chain != [] && Shows(k'.chain[|k'.chain| - 1], k') && (op.LoadGraph? ==> |k'.chain| == 1)
  {
  }

  /** The id leads; the others follow in their order, as far as the cap lets them. */
  lemma TouchedLeads(order: seq<string>, id: string)
    ensures Touched(order, id) != [] && Touched(order, id)[0] == id && |Touched(order, id)| <= 3
    ensures Touched(order, id) <= [id] + Without(order, id)
    ensures |order| < 3 ==> Touched(order, id) == [id] + Without(order, id)
  {
    WithoutShorter(order, id);
  }

  lemma {:induction false} WithoutShorter(order: seq<string>, id: string)
    ensures |Without(order, id)| <= |order|
  {
    if order != [] { WithoutShorter(order[1..], id); }
  }

  lemma LeadsTwice(order: seq<string>, id: string)
    ensures var once := Touched(order, id);
      Governed(once, id) != [] && Governed(once, id)[0] == id
  {
    TouchedLeads(order, id);
    TouchedLeads(Touched(order, id), id);
    hide Touched;
  }

  /** Every way a mutation can end, and exactly when: only a commit changes anything, and a commit leaves what the
      callback made of the state. */
  lemma OverlayOutcomes(e: Engine, k: Kernel, op: Operation, k': Kernel)
    requires Step(e, k, op, k') && op.Overlay?
    ensures op.outcome == EmptyCallback <==> op.mutation.None?
    ensures op.outcome == StaleVersion <==> op.mutation.Some? && op.snapshot.version != k.version
    ensures op.outcome == HashMismatch <==>
      && op.mutation.Some? && op.snapshot.version == k.version && e.hash(k.graph) != ""
      && (op.snapshot.graph.None? || e.hash(op.snapshot.graph.value) != e.hash(k.graph))
    ensures op.outcome == CallbackThrew ==> op.mutation.Some? && op.mutation.value(k.work).Failed?
    ensures op.outcome.Committed() ==>
      && op.mutation.Some? && op.mutation.value(k.work) == Accepted(k'.work) && k'.branch == k.branch
      && op.outcome.result == MutationOutcome(true, false, k.version, k'.version, e.hash(k.graph), e.hash(k'.graph))
      && k'.version == k.version + 1 && e.hash(k'.graph) != ""
    ensures !op.outcome.Committed() ==> k' == k
    ensures op.outcome.Returned? && !op.outcome.Committed() ==>
      && op.outcome.result.versionAfter == k.version && op.outcome.result.hashAfter == e.hash(k.graph)
      && op.mutation.Some? && op.outcome.result.rolledBack == op.mutation.value(k.work).Accepted?
  {
    hide Snapshots.Capped, Governed, SnapshotAt;
  }

  // ----- runs of many clients -----

  ghost predicate Run(e: Engine, states: seq<Kernel>, ops: seq<Operation>) {
    && |states| == |ops| + 1
    && forall i :: 0 <= i < |ops| ==> Step(e, states[i], ops[i], states[i + 1])
  }

  /** Each mutation is submitted with a snapshot taken earlier in the run, by whichever client. */
  ghost predicate Genuine(states: seq<Kernel>, ops: seq<Operation>)
    requires |states| == |ops| + 1
  {
    forall j :: 0 <= j < |ops| && ops[j].Overlay? ==>
      exists i :: 0 <= i <= j && ops[j].snapshot == SnapshotOf(states[i])
  }

  lemma RunStep(e: Engine, states: seq<Kernel>, ops: seq<Operation>, i: nat)
    requires Run(e, states, ops) && i < |ops|
    ensures |states| == |ops| + 1 && Step(e, states[i], ops[i], states[i + 1])
  {
    hide Step;
  }

  function Commits(ops: seq<Operation>): nat {
    if ops == [] then 0 else Commits(ops[..|ops| - 1]) + if TakesEffect(ops[|ops| - 1]) then 1 else 0
  }

  /** The version counts the operations that took effect, one each. */
  lemma {:induction false} VersionCountsCommits(e: Engine, states: seq<Kernel>, ops: seq<Operation>, j: nat)
    requires Run(e, states, ops) && j <= |ops|
    ensures states[j].version == states[0].version + Commits(ops[..j])
  {
    hide Step, TakesEffect;
    if j > 0 {
      VersionCountsCommits(e, states, ops, j - 1);
      RunStep(e, states, ops, j - 1);
      StepEffect(e, states[j - 1], ops[j - 1], states[j]);
      assert ops[..j][..j - 1] == ops[..j - 1];
    }
  }

  lemma {:induction false} VersionsGrow(e: Engine, states: seq<Kernel>, ops: seq<Operation>, i: nat, j: nat)
    requires Run(e, states, ops) && i <= j <= |ops|
    ensures states[i].version <= states[j].version
    ensures states[i].version == states[j].version ==> states[i] == states[j]
    decreases j - i
  {
    hide Step, TakesEffect;
    if i < j {
      VersionsGrow(e, states, ops, i, j - 1);
      RunStep(e, states, ops, j - 1);
      StepEffect(e, states[j - 1], ops[j - 1], states[j]);
    }
  }

  /** The snapshot carries the version of the state; nothing else about it is compared. */
  predicate IsCurrent(snapshot: GraphSnapshot, version: nat) {
    snapshot.version == version
  }

  /** A snapshot taken earlier is current exactly when nothing has taken effect since; then the whole state
      is the same. */
  lemma {:induction false} CurrentIffUnwritten(e: Engine, states: seq<Kernel>, ops: seq<Operation>, i: nat, j: nat)
    requires Run(e, states, ops) && i <= j <= |ops|
    ensures IsCurrent(SnapshotOf(states[i]), states[j].version) <==> forall m :: i <= m < j ==> !TakesEffect(ops[m])
    ensures IsCurrent(SnapshotOf(states[i]), states[j].version) ==> states[i] == states[j]
    decreases j - i
  {
    hide Step, TakesEffect;
    if i < j {
      CurrentIffUnwritten(e, states, ops, i, j - 1);
      VersionsGrow(e, states, ops, i, j - 1);
      RunStep(e, states, ops, j - 1);
      StepEffect(e, states[j - 1], ops[j - 1], states[j]);
      hide Run;
    }
  }

  /** A snapshot that names the current version shows the current state: the version check is enough. */
  lemma SeenState(e: Engine, states: seq<Kernel>, ops: seq<Operation>, j: nat) returns (i: nat)
    requires Run(e, states, ops) && Genuine(states, ops) && j < |ops| && ops[j].Overlay?
    ensures i <= j && ops[j].snapshot == SnapshotOf(states[i])
    ensures ops[j].snapshot.version == states[j].version ==> states[i] == states[j]
    ensures ops[j].snapshot.version <= states[j].version
  {
    i :| 0 <= i <= j && ops[j].snapshot == SnapshotOf(states[i]);
    hide Run;
    VersionsGrow(e, states, ops, i, j);
  }

  /** A genuine snapshot is refused exactly when some write has taken effect since it was taken; its hash then
      never matters. */
  lemma AcceptedIffCurrent(e: Engine, states: seq<Kernel>, ops: seq<Operation>, j: nat)
    requires Run(e, states, ops) && Genuine(states, ops) && j < |ops| && ops[j].Overlay? && ops[j].mutation.Some?
    ensures ops[j].outcome == StaleVersion <==> ops[j].snapshot.version != states[j].version
    ensures ops[j].outcome != HashMismatch
  {
    var i := SeenState(e, states, ops, j);
    RunStep(e, states, ops, j);
    hide Run;
  }

  /** No lost update: a committed mutation ran on exactly the state its client had seen. */
  lemma CommittedOnSeenState(e: Engine, states: seq<Kernel>, ops: seq<Operation>, j: nat)
    requires Run(e, states, ops) && Genuine(states, ops) && j < |ops| && ops[j].Overlay? && ops[j].outcome.Committed()
    ensures ops[j].snapshot.runtime == states[j].work.runtime && ops[j].snapshot.graph == Some(states[j].graph)
    ensures ops[j].mutation.Some? && ops[j].mutation.value(states[j].work) == Accepted(states[j + 1].work)
    ensures states[j + 1].version == ops[j].snapshot.version + 1
  {
    var i := SeenState(e, states, ops, j);
    RunStep(e, states, ops, j);
    hide Run, Snapshots.Capped;
  }

  /** At most one mutation commits per snapshot version: of two holders of the same snapshot one must start again. */
  lemma OneCommitPerVersion(e: Engine, states: seq<Kernel>, ops: seq<Operation>, i: nat, j: nat)
    requires Run(e, states, ops) && i < j < |ops|
    requires ops[i].Overlay? && ops[i].outcome.Committed() && ops[j].Overlay? && ops[j].outcome.Committed()
    ensures ops[i].snapshot.version < ops[j].snapshot.version
  {
    hide *;
    RunStep(e, states, ops, i);
    RunStep(e, states, ops, j);
    CommitVersions(e, states[i], ops[i], states[i + 1]);
    CommitVersions(e, states[j], ops[j], states[j + 1]);
    VersionsGrow(e, states, ops, i + 1, j);
  }

  lemma CommitVersions(e: Engine, k: Kernel, op: Operation, k': Kernel)
    requires Step(e, k, op, k') && op.Overlay? && op.outcome.Committed()
    ensures op.snapshot.version == k.version && k'.version == k.version + 1
  {
    hide Snapshots.Capped;
  }

  /** The work a single client would reach by performing, one after another, the operations that took effect. */
  function Replay(e: Engine, w: Work, ops: seq<Operation>): Work {
    if ops == [] then w
    else
      var before := Replay(e, w, ops[..|ops| - 1]);
      if TakesEffect(ops[|ops| - 1]) then Effect(e, ops[|ops| - 1], before) else before
  }

  /** Every run is equivalent to that serial one. */
  lemma {:induction false} Serializable(e: Engine, states: seq<Kernel>, ops: seq<Operation>, j: nat)
    requires Run(e, states, ops) && j <= |ops|
    ensures states[j].work == Replay(e, states[0].work, ops[..j])
  {
    hide Step, TakesEffect, Effect;
    if j > 0 {
      Serializable(e, states, ops, j - 1);
      RunStep(e, states, ops, j - 1);
      StepEffect(e, states[j - 1], ops[j - 1], states[j]);
      assert ops[..j][..j - 1] == ops[..j - 1];
    }
  }

  /** The state a write stores, if it stores a whole one: what was given, loaded, or made by a callback. */
  ghost function Stored(op: Operation, k: Kernel): Option<RuntimeState> {
    match op
    case Overlay(_, mutation, outcome) =>
      if outcome.Committed() && mutation.Some? && mutation.value(k.work).Accepted? then
        Some(mutation.value(k.work).work.runtime) else None
    case Replace(state) => Some(state)
    case LoadGraph(loaded) => loaded
    case UpdateCore(_) => None
    case SetBranch(_) => None
  }

  /** A snapshot shows the tables of the last write that stored a state, and that whole state as long as no core was
      written since. */
  lemma {:induction false} SnapshotShowsLastWrite(e: Engine, states: seq<Kernel>, ops: seq<Operation>, i: nat, j: nat)
    requires Run(e, states, ops) && i < j <= |ops| && Stored(ops[i], states[i]).Some?
    requires forall m :: i < m < j ==> Stored(ops[m], states[m]).None?
    ensures SnapshotOf(states[j]).runtime.tables == Stored(ops[i], states[i]).value.tables
    ensures (forall m :: i < m < j ==> !ops[m].UpdateCore?) ==>
      SnapshotOf(states[j]).runtime == Stored(ops[i], states[i]).value
    decreases j
  {
    hide Run, Step, Stored, TakesEffect;
    RunStep(e, states, ops, j - 1);
    if i + 1 == j {
      StoredShows(e, states[i], ops[i], states[j]);
    } else {
      SnapshotShowsLastWrite(e, states, ops, i, j - 1);
      StoresNothing(e, states[j - 1], ops[j - 1], states[j]);
    }
  }

  lemma StoredShows(e: Engine, k: Kernel, op: Operation, k': Kernel)
    requires Step(e, k, op, k') && Stored(op, k).Some?
    ensures SnapshotOf(k').runtime == Stored(op, k).value
  {
    WriteShows(e, k, op, k');
    if op.Overlay? { OverlayOutcomes(e, k, op, k'); }
    hide Step;
  }

  lemma StoresNothing(e: Engine, k: Kernel, op: Operation, k': Kernel)
    requires Step(e, k, op, k') && Stored(op, k).None?
    ensures SnapshotOf(k').runtime.tables == SnapshotOf(k).runtime.tables
    ensures !op.UpdateCore? ==> SnapshotOf(k').runtime == SnapshotOf(k).runtime
  {
    WriteShows(e, k, op, k');
    StepEffect(e, k, op, k');
    if op.Overlay? { OverlayOutcomes(e, k, op, k'); }
    hide Step, Effect;
  }

  // ----- the snapshot chain -----

  /** Consecutive versions up to the current one, the newest holding the current graph; empty only before any commit. */
  ghost predicate ChainCurrent(k: Kernel) {
    && |k.chain| <= MAX_SNAPSHOTS_RETAINED && |k.chain| <= k.version
    && (forall c :: 0 <= c < |k.chain| ==> k.chain[c].id == k.version - (|k.chain| - 1 - c))
    && (k.version > 0 ==> k.chain != [] && k.chain[|k.chain| - 1] == SnapshotAt(k.version, k.graph))
  }

  lemma ChainStep(e: Engine, k: Kernel, op: Operation, k': Kernel)
    requires Step(e, k, op, k') && ChainCurrent(k)
    ensures ChainCurrent(k')
  {
    StepEffect(e, k, op, k');
    hide Step, TakesEffect;
    if k' != k {
      var prior := if op.LoadGraph? then [] else k.chain;
      var longer := prior + [SnapshotAt(k'.version, k'.graph)];
      assert longer[|longer| - 1] == SnapshotAt(k'.version, k'.graph);
      assert forall c :: 0 <= c < |prior| ==> longer[c] == prior[c];
    }
  }

  /** After every step of a run that starts without snapshots, the newest snapshot is the current version. */
  lemma {:induction false} ChainStaysCurrent(e: Engine, states: seq<Kernel>, ops: seq<Operation>, j: nat)
    requires Run(e, states, ops) && j <= |ops| && states[0].version == 0 && states[0].chain == []
    ensures ChainCurrent(states[j])
  {
    hide Step;
    if j > 0 {
      ChainStaysCurrent(e, states, ops, j - 1);
      RunStep(e, states, ops, j - 1);
      ChainStep(e, states[j - 1], ops[j - 1], states[j]);
    }
  }

  /** Every snapshot kept shows the graph that was current when its version was. */
  lemma {:induction false} ChainHoldsHistory(e: Engine, states: seq<Kernel>, ops: seq<Operation>, j: nat)
    requires Run(e, states, ops) && j <= |ops| && states[0].chain == []
    ensures forall x :: x in states[j].chain ==>
      exists i :: 0 <= i <= j && x == SnapshotAt(states[i].version, states[i].graph)
  {
    hide Step, SnapshotAt, TakesEffect;
    if j > 0 {
      ChainHoldsHistory(e, states, ops, j - 1);
      RunStep(e, states, ops, j - 1);
      StepEffect(e, states[j - 1], ops[j - 1], states[j]);
      forall x | x in states[j].chain
        ensures exists i :: 0 <= i <= j && x == SnapshotAt(states[i].version, states[i].graph) {
        if x in states[j - 1].chain {
          var i :| 0 <= i <= j - 1 && x == SnapshotAt(states[i].version, states[i].graph);
          assert 0 <= i <= j;
        } else {
          assert x == SnapshotAt(states[j].version, states[j].graph);
        }
      }
    }
  }

  // ----- the class -----

  class StateManager {
    const engine: Engine
    const snapshotChain: SnapshotChain<Graph>
    var state: RuntimeState
    var weightEngine: Weights
    var lruManager: seq<string>
    var branchOverlayLruManager: seq<string>
    var graph: Graph
    var globalVersion: nat
    var activeBranch: string
    var pendingDiffResult: Diff

    ghost function Abs(): Kernel
      reads this, snapshotChain
    {
      Kernel(Work(state, weightEngine, lruManager), graph, globalVersion, activeBranch, pendingDiffResult,
                           snapshotChain.snapshots, branchOverlayLruManager)
    }

    constructor (engine: Engine, state: RuntimeState, weights: Weights, graph: Graph, diff: Diff)
      ensures this.engine == engine && fresh(snapshotChain)
      ensures Abs() == Kernel(Work(state, weights, []), graph, 0, NIL_BRANCH, diff, [], [])
    {
      this.engine, this.state, this.graph := engine, state, graph;
      weightEngine, lruManager, branchOverlayLruManager, pendingDiffResult := weights, [], [], diff;
      globalVersion, activeBranch := 0, NIL_BRANCH;
      snapshotChain := new SnapshotChain<Graph>();
    }

    method GetSnapshot() returns (snapshot: GraphSnapshot)
      ensures snapshot == SnapshotOf(Abs())
    {
      snapshot := GraphSnapshot(Some(graph), state, globalVersion, activeBranch);
    }

    /** False stands for the exception. `CurrentIffUnwritten` says what it means for a snapshot taken earlier. */
    method EnsureSnapshotCurrent(snapshot: GraphSnapshot) returns (current: bool)
      ensures current <==> IsCurrent(snapshot, Abs().version)
    {
      current := snapshot.version == globalVersion;
    }

    method RunMemoryGovernance()
      modifies this`branchOverlayLruManager, snapshotChain
      ensures branchOverlayLruManager == Governed(old(branchOverlayLruManager), activeBranch)
      ensures snapshotChain.snapshots == Snapshots.Capped(old(snapshotChain.snapshots))
    {
      snapshotChain.EnforceRetentionCap();
      if activeBranch != NIL_BRANCH {
        branchOverlayLruManager := Touched(branchOverlayLruManager, activeBranch);
      }
    }

    /** Counts the version, rebuilds or invalidates the graph (any graph may come out), and keeps a snapshot of it. */
    method AdvanceVersion()
      modifies this`globalVersion, this`graph, this`branchOverlayLruManager, snapshotChain
      ensures Abs() == Advanced(old(Abs()), graph)
    {
      globalVersion := globalVersion + 1;
      graph := *;
      snapshotChain.Append(SnapshotAt(globalVersion, graph));
      RunMemoryGovernance();
    }

    method ReplaceState(newState: RuntimeState)
      modifies this, snapshotChain
      ensures Step(engine, old(Abs()), Replace(newState), Abs())
    {
      state := newState;
      weightEngine := engine.reweigh(weightEngine, state);
      lruManager := Front(engine.paths(state));
      AdvanceVersion();
    }

    method UpdateCore(core: Core)
      modifies this, snapshotChain
      ensures Step(engine, old(Abs()), Operation.UpdateCore(core), Abs())
    {
      state := state.(core := core);
      AdvanceVersion();
    }

    method SetActiveBranch(branch: string)
      modifies this, snapshotChain
      ensures Step(engine, old(Abs()), SetBranch(branch), Abs())
    {
      activeBranch := branch;
      branchOverlayLruManager := Touched(branchOverlayLruManager, branch);
      AdvanceVersion();
    }

    /** `stored` is what the graph store holds, if it can be read. */
    method LoadPersistedGraph(stored: Option<RuntimeState>) returns (loaded: bool)
      modifies this, snapshotChain
      ensures loaded == stored.Some? && Step(engine, old(Abs()), LoadGraph(stored), Abs())
    {
      if stored.None? {
        return false;
      }
      state := stored.value;
      weightEngine := engine.reweigh(weightEngine, state);
      lruManager := Front(engine.paths(state));
      snapshotChain.Clear();
      AdvanceVersion();
      return true;
    }

    method ApplyOverlayMutation(expectedSnapshot: GraphSnapshot, mutation: Option<Mutation>) returns (outcome: Outcome)
      modifies this, snapshotChain
      ensures Step(engine, old(Abs()), Overlay(expectedSnapshot, mutation, outcome), Abs())
    {
      if mutation.None? {
        return EmptyCallback;
      }
      if expectedSnapshot.version != globalVersion {
        return StaleVersion;
      }
      var hashBefore := engine.hash(graph);
      if hashBefore != "" {
        if expectedSnapshot.graph.None? || engine.hash(expectedSnapshot.graph.value) != hashBefore {
          return HashMismatch;
        }
      }
      var previousState, previousWeightEngine, previousLru := state, weightEngine, lruManager;
      var previousBranchOverlayLru, previousSnapshotChain := branchOverlayLruManager, snapshotChain.snapshots;
      var previousGraph, previousDiffResult, previousVersion, previousBranch := graph, pendingDiffResult, globalVersion,
        activeBranch;
      var verdict := mutation.value(Work(previousState, previousWeightEngine, previousLru));
      if verdict.Failed? {
        return CallbackThrew;
      }
      if verdict.Rejected? {
        return Returned(MutationOutcome(false, false, previousVersion, globalVersion, hashBefore, hashBefore));
      }
      state, weightEngine, lruManager := verdict.work.runtime, verdict.work.weights, verdict.work.lru;
      pendingDiffResult := *;
      AdvanceVersion();
      var hashAfter := engine.hash(graph);
      if hashAfter == "" {
        state, weightEngine, lruManager := previousState, previousWeightEngine, previousLru;
        branchOverlayLruManager, snapshotChain.snapshots := previousBranchOverlayLru, previousSnapshotChain;
        graph, pendingDiffResult, activeBranch, globalVersion := previousGraph, previousDiffResult, previousBranch,
          previousVersion;
        return Returned(MutationOutcome(false, true, previousVersion, globalVersion, hashBefore, engine.hash(graph)));
      }
      return Returned(MutationOutcome(true, false, previousVersion, globalVersion, hashBefore, hashAfter));
    }

    /** Reads a snapshot and submits it. With no other client in between it is never refused as out of date. */
    method WithWriteLock(mutation: Option<Mutation>) returns (outcome: Outcome)
      modifies this, snapshotChain
      ensures Step(engine, old(Abs()), Overlay(SnapshotOf(old(Abs())), mutation, outcome), Abs())
      ensures outcome != StaleVersion && outcome != HashMismatch
    {
      var expectedSnapshot := GetSnapshot();
      outcome := ApplyOverlayMutation(expectedSnapshot, mutation);
    }
  }
}
