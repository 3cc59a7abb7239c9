/** The search queue as a state machine: the claim loop, its workers, the spawned transfers and
    the transfer monitor act on the rows, the candidate cache and the permits, one atomic
    section (an SQL statement, a lock-held region, a channel operation) at a time. */
module SearchQueue {
  import opened Wrappers
  import opened Messages
  import opened SearchTable

  /** What one attempt at a row came to: the result of `execute_search_and_download`. */
  datatype Attempt = ItemCompleted | ItemInProgress | SearchFailed(noResults: bool)

  /** Where a spawned worker stands in `process_queued_search`. */
  datatype Phase =
    | Claimed              // spawned, the row's status not yet re-read
    | Checked              // the row was still 'processing'
    | Selected             // a candidate has been chosen
    | Decided(attempt: Attempt)
    | Closing              // marked completed, about to delete the entry
    | Finished             // returned, about to release its permit

  /** A worker keeps the copy of the row it claimed; only its id and retry count are used. */
  datatype Worker = Worker(queueId: nat, retryCount: nat, phase: Phase)

  datatype Completion = Completion(queueId: nat, ok: bool)

  /** Where the transfer monitor stands in `handle_transfer_completion`. */
  datatype Monitor =
    | Idle
    | Fetched(completion: Completion, retryCount: nat)
    | Requeuing(queueId: nat)
    | Dropping(queueId: nat)
    | Deleting(queueId: nat)
    | Forgetting(queueId: nat)

  datatype State = State(
    rows: Table,
    nextId: nat,
    clock: nat,
    cache: map<nat, seq<ScoredFile>>,
    maxConcurrent: nat,
    permits: nat,
    loopHolds: bool,               // the claim loop holds a permit it has not handed on
    workers: map<nat, Worker>,
    nextWorker: nat,
    transfers: map<nat, nat>,      // spawned transfer (by its worker's number) -> row
    channel: seq<Completion>,
    monitor: Monitor,
    claims: map<nat, nat>,         // history: claims of each row in this server run
    claimant: map<nat, nat>,       // history: the worker of each row's latest claim
    unwound: map<nat, nat>)        // history: workers whose task unwound -> row

  datatype ClientStep =
    | Enqueue(listId: Option<nat>)
    | Cancel(id: nat)
    | CancelList(list: nat)
    | DeleteList(list: nat)

  datatype LoopStep =
    | Acquire
    | Claim(id: nat)
    | ClaimNothing

  datatype WorkerStep =
    | Verify
    | FindDuplicate
    | UseCached
    | SearchFails(noResults: bool)
    | SearchFinds(found: seq<ScoredFile>)
    | PathExists
    | StartTransfer
    | RefuseOnce(noResults: bool)
    | RefuseTwice(noResults: bool)
    | Record
    | DeleteFinished

  datatype MonitorStep =
    | Take
    | Succeed
    | Decide
    | Requeue
    | Drop
    | Delete
    | Forget

  datatype Label =
    | Client(client: ClientStep)
    | Loop(loop: LoopStep)
    | Work(w: nat, act: WorkerStep)
    | Release(w: nat)
    | Unwind(w: nat)
    | Report(w: nat, ok: bool)
    | Watch(watch: MonitorStep)
    | Restart

  const CACHED_ALTERNATIVES := 5

  function Min(a: nat, b: nat): nat {
    if a <= b then a else b
  }

  function ClaimsOf(s: State, id: nat): nat {
    if id in s.claims then s.claims[id] else 0
  }

  function Cached(s: State, id: nat): seq<ScoredFile> {
    if id in s.cache then s.cache[id] else []
  }

  predicate AtPhase(s: State, w: nat, phase: Phase) {
    w in s.workers && s.workers[w].phase == phase
  }

  /** The alternatives kept for later attempts once the best candidate is taken. */
  function Alternatives(found: seq<ScoredFile>): (kept: seq<ScoredFile>)
    requires found != []
    ensures |kept| == Min(5, |found| - 1) && kept == found[1..1 + |kept|]
  {
    if |found| - 1 <= CACHED_ALTERNATIVES then found[1..] else found[1..1 + CACHED_ALTERNATIVES]
  }

  // ---------------------------------------------------------------- clients

  ghost function ApplyClient(s: State, step: ClientStep): State {
    match step
    case Enqueue(listId) =>
      s.(rows := s.rows[s.nextId := Row(Pending, s.clock, 0, listId)],
         nextId := s.nextId + 1, clock := s.clock + 1)
    case Cancel(id) => s.(rows := WithoutIfStatus(s.rows, id, Pending))
    case CancelList(list) => s.(rows := WithoutPendingInList(s.rows, list))
    case DeleteList(list) => s.(rows := WithoutList(s.rows, list))
  }

  // ---------------------------------------------------------------- the claim loop

  ghost predicate LoopEnabled(s: State, step: LoopStep) {
    match step
    case Acquire => !s.loopHolds && s.permits > 0
    case Claim(id) => s.loopHolds && IsNext(s.rows, id)
    case ClaimNothing => s.loopHolds && forall id :: !Waiting(s.rows, id)
  }

  ghost function ApplyLoop(s: State, step: LoopStep): State
    requires LoopEnabled(s, step)
  {
    match step
    case Acquire => s.(permits := s.permits - 1, loopHolds := true)
    case Claim(id) =>
      s.(rows := WithStatus(s.rows, id, Processing),
         loopHolds := false,
         workers := s.workers[s.nextWorker := Worker(id, s.rows[id].retryCount, Claimed)],
         nextWorker := s.nextWorker + 1,
         claims := s.claims[id := ClaimsOf(s, id) + 1],
         claimant := s.claimant[id := s.nextWorker])
    case ClaimNothing => s.(permits := s.permits + 1, loopHolds := false)
  }

  // ---------------------------------------------------------------- workers

  ghost predicate WorkEnabled(s: State, w: nat, step: WorkerStep) {
    && w in s.workers
    && var phase := s.workers[w].phase;
       var cached := Cached(s, s.workers[w].queueId);
       match step
       case Verify => phase.Claimed?
       case FindDuplicate => phase.Checked?
       case UseCached => phase.Checked? && cached != []
       case SearchFails(_) => phase.Checked? && cached == []
       case SearchFinds(found) => phase.Checked? && cached == [] && found != []
       case PathExists => phase.Selected?
       case StartTransfer => phase.Selected?
       case RefuseOnce(_) => phase.Selected?
       case RefuseTwice(_) => phase.Selected?
       case Record => phase.Decided?
       case DeleteFinished => phase.Closing?
  }

  function PhaseAfter(s: State, worker: Worker, step: WorkerStep): Phase {
    match step
    case Verify => if InProgress(s.rows, worker.queueId) then Checked else Finished
    case FindDuplicate => Decided(ItemCompleted)
    case UseCached => Selected
    case SearchFails(noResults) => Decided(SearchFailed(noResults))
    case SearchFinds(_) => Selected
    case PathExists => Decided(ItemCompleted)
    case StartTransfer => Decided(ItemInProgress)
    case RefuseOnce(noResults) => Decided(SearchFailed(noResults))
    case RefuseTwice(noResults) => Decided(SearchFailed(noResults))
    case Record => if worker.phase == Decided(ItemCompleted) then Closing else Finished
    case DeleteFinished => Finished
  }

  /** A failed attempt is retried once; later failures, and an empty search, delete the entry. */
  predicate WillRetry(worker: Worker) {
    worker.phase == Decided(SearchFailed(false)) && worker.retryCount == 0
  }

  function RowsRecorded(s: State, worker: Worker): Table {
    if worker.phase == Decided(ItemCompleted) || worker.phase == Decided(ItemInProgress) then
      WithStatus(s.rows, worker.queueId, Completed)
    else if WillRetry(worker) then
      Requeued(s.rows, worker.queueId, s.clock)
    else
      s.rows - {worker.queueId}
  }

  ghost function ApplyWork(s: State, w: nat, step: WorkerStep): State
    requires WorkEnabled(s, w, step)
  {
    var worker := s.workers[w];
    var id := worker.queueId;
    var s' := s.(workers := s.workers[w := worker.(phase := PhaseAfter(s, worker, step))]);
    match step
    case UseCached => s'.(cache := s.cache[id := s.cache[id][1..]])
    case SearchFinds(found) =>
      s'.(cache := if Alternatives(found) != [] then s.cache[id := Alternatives(found)] else s.cache)
    case StartTransfer => s'.(transfers := s.transfers[w := id])
    case RefuseTwice(_) => s'.(channel := s.channel + [Completion(id, false)])
    case Record => s'.(rows := RowsRecorded(s, worker), clock := s.clock + 1)
    case DeleteFinished => s'.(rows := WithoutIfStatus(s.rows, id, Completed))
    case _ => s'
  }

  ghost function ApplyRelease(s: State, w: nat): State
    requires AtPhase(s, w, Finished)
  {
    s.(workers := s.workers - {w}, permits := s.permits + 1)
  }

  /** Starting the download panics on what the peer has sent. The worker's task unwinds: its permit
      is dropped, its completion sender too, and row and cache stay as they are. */
  ghost function ApplyUnwind(s: State, w: nat): State
    requires AtPhase(s, w, Selected)
  {
    s.(workers := s.workers - {w}, permits := s.permits + 1, unwound := s.unwound[w := s.workers[w].queueId])
  }

  /** A spawned transfer ends and reports through its completion sender. */
  ghost function ApplyReport(s: State, w: nat, ok: bool): State
    requires w in s.transfers
  {
    s.(transfers := s.transfers - {w}, channel := s.channel + [Completion(s.transfers[w], ok)])
  }

  // ---------------------------------------------------------------- the transfer monitor

  ghost predicate MonitorEnabled(s: State, step: MonitorStep) {
    match step
    case Take => s.monitor.Idle? && s.channel != []
    case Succeed => s.monitor.Fetched? && s.monitor.completion.ok
    case Decide => s.monitor.Fetched? && !s.monitor.completion.ok
    case Requeue => s.monitor.Requeuing?
    case Drop => s.monitor.Dropping?
    case Delete => s.monitor.Deleting?
    case Forget => s.monitor.Forgetting?
  }

  ghost function ApplyMonitor(s: State, step: MonitorStep): State
    requires MonitorEnabled(s, step)
  {
    match step
    case Take =>
      var c := s.channel[0];
      s.(channel := s.channel[1..],
         monitor := Fetched(c, if c.queueId in s.rows then s.rows[c.queueId].retryCount else 1))
    case Succeed =>
      s.(rows := s.rows - {s.monitor.completion.queueId}, monitor := Forgetting(s.monitor.completion.queueId))
    case Decide =>
      var id := s.monitor.completion.queueId;
      s.(monitor := if s.monitor.retryCount == 0 || Cached(s, id) != [] then Requeuing(id) else Dropping(id))
    case Requeue =>
      s.(rows := Requeued(s.rows, s.monitor.queueId, s.clock), clock := s.clock + 1, monitor := Idle)
    case Drop => s.(cache := s.cache - {s.monitor.queueId}, monitor := Deleting(s.monitor.queueId))
    case Delete => s.(rows := s.rows - {s.monitor.queueId}, monitor := Idle)
    case Forget => s.(cache := s.cache - {s.monitor.queueId}, monitor := Idle)
  }

  // ---------------------------------------------------------------- all steps

  ghost predicate Enabled(s: State, step: Label) {
    match step
    case Client(_) => true
    case Loop(l) => LoopEnabled(s, l)
    case Work(w, act) => WorkEnabled(s, w, act)
    case Release(w) => AtPhase(s, w, Finished)
    case Unwind(w) => AtPhase(s, w, Selected)
    case Report(w, _) => w in s.transfers
    case Watch(m) => MonitorEnabled(s, m)
    case Restart => true
  }

  ghost function Apply(s: State, step: Label): State
    requires Enabled(s, step)
  {
    match step
    case Client(c) => ApplyClient(s, c)
    case Loop(l) => ApplyLoop(s, l)
    case Work(w, act) => ApplyWork(s, w, act)
    case Release(w) => ApplyRelease(s, w)
    case Unwind(w) => ApplyUnwind(s, w)
    case Report(w, ok) => ApplyReport(s, w, ok)
    case Watch(m) => ApplyMonitor(s, m)
    case Restart => Started(Recovered(s.rows), s.nextId, s.clock, s.maxConcurrent)
  }

  /** A server that has just started on a recovered table: everything in memory is fresh. */
  function Started(rows: Table, nextId: nat, clock: nat, maxConcurrent: nat): State {
    State(rows, nextId, clock, map[], maxConcurrent, maxConcurrent, false,
          map[], 0, map[], [], Idle, map[], map[], map[])
  }

  // ---------------------------------------------------------------- what steps leave alone

  lemma ClientFrame(s: State, step: ClientStep)
    ensures var t := ApplyClient(s, step);
            && t == s.(rows := t.rows, nextId := t.nextId, clock := t.clock)
            && s.nextId <= t.nextId
  {
  }

  lemma LoopFrame(s: State, step: LoopStep)
    requires LoopEnabled(s, step)
    ensures var t := ApplyLoop(s, step);
            && t.nextId == s.nextId && t.transfers == s.transfers && t.channel == s.channel
            && t.monitor == s.monitor && t.cache == s.cache && t.unwound == s.unwound
            && (forall v | v in t.workers ::
                  t.workers[v].phase.Claimed? || (v in s.workers && t.workers[v] == s.workers[v]))
  {
  }

  lemma WorkFrame(s: State, w: nat, step: WorkerStep)
    requires WorkEnabled(s, w, step)
    ensures var t := ApplyWork(s, w, step);
            && t == s.(rows := t.rows, clock := t.clock, cache := t.cache, workers := t.workers,
                       transfers := t.transfers, channel := t.channel)
            && (forall v | v != w :: (v in t.workers <==> v in s.workers)
                                     && (v in s.workers ==> t.workers[v] == s.workers[v]))
            && w in t.workers && t.workers[w].queueId == s.workers[w].queueId
  {
  }

  lemma MonitorFrame(s: State, step: MonitorStep)
    requires MonitorEnabled(s, step)
    ensures var t := ApplyMonitor(s, step);
            t == s.(rows := t.rows, clock := t.clock, cache := t.cache, channel := t.channel, monitor := t.monitor)
  {
  }

  // ---------------------------------------------------------------- runs

  ghost predicate Legal(s: State, run: seq<Label>)
    decreases |run|
  {
    run == [] || (Enabled(s, run[0]) && Legal(Apply(s, run[0]), run[1..]))
  }

  ghost function After(s: State, run: seq<Label>): State
    requires Legal(s, run)
    decreases |run|
  {
    if run == [] then s else After(Apply(s, run[0]), run[1..])
  }

  lemma RunFrom(s: State, step: Label, rest: seq<Label>)
    requires Enabled(s, step) && Legal(Apply(s, step), rest)
    ensures Legal(s, [step] + rest) && After(s, [step] + rest) == After(Apply(s, step), rest)
  {
    assert ([step] + rest)[1..] == rest;
  }

  /** One more step at the front of a run. */
  lemma Then(s: State, step: Label, rest: seq<Label>) returns (run: seq<Label>)
    requires Enabled(s, step) && Legal(Apply(s, step), rest)
    ensures Legal(s, run) && run == [step] + rest && After(s, run) == After(Apply(s, step), rest)
  {
    RunFrom(s, step, rest);
    run := [step] + rest;
  }

  lemma {:induction false} RunConcat(s: State, a: seq<Label>, b: seq<Label>)
    requires Legal(s, a) && Legal(After(s, a), b)
    ensures Legal(s, a + b) && After(s, a + b) == After(After(s, a), b)
    decreases |a|
  {
    hide Enabled, Apply;
    if a == [] {
      assert a + b == b;
    } else {
      RunConcat(Apply(s, a[0]), a[1..], b);
      RunFrom(s, a[0], a[1..] + b);
      assert [a[0]] + (a[1..] + b) == a + b;
    }
  }

  /** The row claimed, and handed with a permit to a new worker. */
  function HandedOver(s: State, id: nat): State
    requires id in s.rows && s.permits > 0
  {
    s.(permits := s.permits - 1, rows := WithStatus(s.rows, id, Processing),
       workers := s.workers[s.nextWorker := Worker(id, s.rows[id].retryCount, Claimed)],
       nextWorker := s.nextWorker + 1, claims := s.claims[id := ClaimsOf(s, id) + 1],
       claimant := s.claimant[id := s.nextWorker])
  }

  lemma ClaimRun(s: State, id: nat)
    requires s.permits > 0 && !s.loopHolds && IsNext(s.rows, id)
    ensures var run := [Loop(Acquire)] + [Loop(Claim(id))];
            Legal(s, run) && After(s, run) == HandedOver(s, id)
  {
    var s1 := Apply(s, Loop(Acquire));
    RunFrom(s1, Loop(Claim(id)), []);
    RunFrom(s, Loop(Acquire), [Loop(Claim(id))]);
  }

  /** The run of one server, from its start on. */
  predicate WithoutRestart(run: seq<Label>) {
    forall i | 0 <= i < |run| :: !run[i].Restart?
  }

  /** A database whose columns are consistent; what a server finds when it starts. */
  ghost predicate WellFormedTable(rows: Table, nextId: nat, clock: nat) {
    && (forall id | id in rows :: id < nextId && rows[id].createdAt < clock)
    && DistinctStamps(rows)
  }

  ghost predicate Initial(s: State) {
    && WellFormedTable(s.rows, s.nextId, s.clock)
    && s == Started(s.rows, s.nextId, s.clock, s.maxConcurrent)
    && InProgressRows(s.rows) == {}
  }

  // ---------------------------------------------------------------- the concurrency invariant

  /** A worker that has claimed `id` and has not yet recorded what came of it. */
  predicate Responsible(s: State, w: nat, id: nat) {
    && w in s.workers
    && s.workers[w].queueId == id
    && (s.workers[w].phase.Claimed? || s.workers[w].phase.Checked? || s.workers[w].phase.Selected?
        || s.workers[w].phase.Decided?)
  }

  ghost predicate Attended(s: State, id: nat) {
    exists w :: Responsible(s, w, id)
  }

  /** The worker that claimed the row last was at it when its task unwound. */
  predicate LeftBehind(s: State, id: nat) {
    && InProgress(s.rows, id)
    && id in s.claimant && s.claimant[id] in s.unwound && s.unwound[s.claimant[id]] == id
  }

  ghost function LeftRows(s: State): set<nat> {
    set id | id in s.rows && LeftBehind(s, id)
  }

  ghost predicate Staffed(s: State) {
    forall id | InProgress(s.rows, id) ::
      id in s.claimant && (Responsible(s, s.claimant[id], id) || LeftBehind(s, id))
  }

  ghost predicate PermitsBalance(s: State) {
    |s.workers| + s.permits + (if s.loopHolds then 1 else 0) == s.maxConcurrent
  }

  /** Every row and worker number in use has been handed out before. */
  ghost predicate Named(s: State) {
    && (forall w | w in s.workers :: w < s.nextWorker && s.workers[w].queueId < s.nextId)
    && (forall w | w in s.transfers :: w < s.nextWorker && s.transfers[w] < s.nextId)
    && (forall w | w in s.unwound :: w < s.nextWorker && w !in s.workers)
    && (forall i | 0 <= i < |s.channel| :: s.channel[i].queueId < s.nextId)
    && (s.monitor.Fetched? ==> s.monitor.completion.queueId < s.nextId)
    && (!s.monitor.Fetched? && !s.monitor.Idle? ==> s.monitor.queueId < s.nextId)
    && (forall id | id in s.claims :: id < s.nextId)
  }

  ghost predicate PendingUnclaimed(s: State) {
    forall id | id in s.rows && s.rows[id].status.Pending? :: ClaimsOf(s, id) == 0
  }

  ghost predicate Inv(s: State) {
    && WellFormedTable(s.rows, s.nextId, s.clock)
    && Named(s)
    && PermitsBalance(s)
    && Staffed(s)
    && PendingUnclaimed(s)
  }

  lemma InitialInv(s: State)
    requires Initial(s)
    ensures Inv(s)
  {
    assert forall id :: InProgress(s.rows, id) ==> id in InProgressRows(s.rows);
  }

  /** Rows may leave 'processing' freely; the workers in charge of the others must stay. */
  lemma StaffedKept(s: State, s': State)
    requires Staffed(s)
    requires s'.claimant == s.claimant && s'.unwound == s.unwound
    requires forall id | InProgress(s'.rows, id) :: InProgress(s.rows, id)
    requires forall w, id | Responsible(s, w, id) && InProgress(s'.rows, id) :: Responsible(s', w, id)
    ensures Staffed(s')
  {
  }

  lemma ClientTable(s: State, step: ClientStep)
    requires WellFormedTable(s.rows, s.nextId, s.clock)
    ensures var s' := ApplyClient(s, step); WellFormedTable(s'.rows, s'.nextId, s'.clock)
  {
  }

  lemma ClientStaffed(s: State, step: ClientStep)
    requires Staffed(s)
    ensures Staffed(ApplyClient(s, step))
  {
    StaffedKept(s, ApplyClient(s, step));
  }

  lemma ClientNamed(s: State, step: ClientStep)
    requires Named(s) && PendingUnclaimed(s)
    ensures Named(ApplyClient(s, step)) && PendingUnclaimed(ApplyClient(s, step))
  {
  }

  lemma ClientInv(s: State, step: ClientStep)
    requires Inv(s)
    ensures Inv(ApplyClient(s, step)) && ApplyClient(s, step).maxConcurrent == s.maxConcurrent
  {
    ClientTable(s, step);
    ClientStaffed(s, step);
    ClientNamed(s, step);
    hide Staffed, WellFormedTable, Named, PendingUnclaimed;
  }

  lemma LoopTable(s: State, step: LoopStep)
    requires LoopEnabled(s, step) && WellFormedTable(s.rows, s.nextId, s.clock)
    ensures var s' := ApplyLoop(s, step); WellFormedTable(s'.rows, s'.nextId, s'.clock)
  {
  }

  lemma ClaimStaffed(s: State, id: nat)
    requires LoopEnabled(s, Claim(id)) && Staffed(s) && Named(s)
    ensures Staffed(ApplyLoop(s, Claim(id)))
  {
    var s' := ApplyLoop(s, Claim(id));
    assert Responsible(s', s.nextWorker, id);
    assert forall other | other != id && InProgress(s'.rows, other) :: InProgress(s.rows, other);
  }

  lemma LoopInv(s: State, step: LoopStep)
    requires Inv(s) && LoopEnabled(s, step)
    ensures Inv(ApplyLoop(s, step)) && ApplyLoop(s, step).maxConcurrent == s.maxConcurrent
  {
    LoopTable(s, step);
    if step.Claim? {
      assert s.nextWorker !in s.workers;
      ClaimStaffed(s, step.id);
    } else {
      StaffedKept(s, ApplyLoop(s, step));
    }
  }

  lemma RecordTable(s: State, w: nat)
    requires WorkEnabled(s, w, Record) && WellFormedTable(s.rows, s.nextId, s.clock)
    ensures WellFormedTable(RowsRecorded(s, s.workers[w]), s.nextId, s.clock + 1)
  {
  }

  lemma NothingBecomesPending(s: State, w: nat)
    requires WorkEnabled(s, w, Record) && PendingUnclaimed(s)
    ensures PendingUnclaimed(ApplyWork(s, w, Record))
  {
  }

  lemma RecordNamed(s: State, w: nat)
    requires WorkEnabled(s, w, Record) && Named(s)
    ensures Named(ApplyWork(s, w, Record))
  {
  }

  lemma RecordInv(s: State, w: nat)
    requires Inv(s) && WorkEnabled(s, w, Record)
    ensures Inv(ApplyWork(s, w, Record))
  {
    var s' := ApplyWork(s, w, Record);
    RecordTable(s, w);
    StaffedKept(s, s');
    WorkFrame(s, w, Record);
    NothingBecomesPending(s, w);
    RecordNamed(s, w);
    hide Staffed, WellFormedTable, RowsRecorded, Named, PendingUnclaimed;
    assert s'.workers.Keys == s.workers.Keys;
    assert |s'.workers| == |s'.workers.Keys| && |s.workers| == |s.workers.Keys|;
  }

  lemma DeleteFinishedInv(s: State, w: nat)
    requires Inv(s) && WorkEnabled(s, w, DeleteFinished)
    ensures Inv(ApplyWork(s, w, DeleteFinished))
  {
    StaffedKept(s, ApplyWork(s, w, DeleteFinished));
  }

  lemma AttemptStaffed(s: State, w: nat, step: WorkerStep)
    requires Staffed(s) && WorkEnabled(s, w, step) && !step.Record? && !step.DeleteFinished?
    ensures Staffed(ApplyWork(s, w, step))
  {
    StaffedKept(s, ApplyWork(s, w, step));
  }

  lemma AttemptNamed(s: State, w: nat, step: WorkerStep)
    requires Named(s) && WorkEnabled(s, w, step) && !step.Record? && !step.DeleteFinished?
    ensures Named(ApplyWork(s, w, step))
  {
  }

  lemma AttemptKeepsRows(s: State, w: nat, step: WorkerStep)
    requires WorkEnabled(s, w, step) && !step.Record? && !step.DeleteFinished?
    ensures ApplyWork(s, w, step).rows == s.rows && ApplyWork(s, w, step).clock == s.clock
  {
  }

  lemma AttemptInv(s: State, w: nat, step: WorkerStep)
    requires Inv(s) && WorkEnabled(s, w, step) && !step.Record? && !step.DeleteFinished?
    ensures Inv(ApplyWork(s, w, step))
  {
    var s' := ApplyWork(s, w, step);
    AttemptStaffed(s, w, step);
    AttemptNamed(s, w, step);
    WorkFrame(s, w, step);
    AttemptKeepsRows(s, w, step);
    hide Staffed, Named, ApplyWork, WorkEnabled;
    assert s'.workers.Keys == s.workers.Keys;
    assert |s'.workers| == |s'.workers.Keys| && |s.workers| == |s.workers.Keys|;
  }

  lemma WorkInv(s: State, w: nat, step: WorkerStep)
    requires Inv(s) && WorkEnabled(s, w, step)
    ensures Inv(ApplyWork(s, w, step)) && ApplyWork(s, w, step).maxConcurrent == s.maxConcurrent
  {
    match step
    case Record => RecordInv(s, w);
    case DeleteFinished => DeleteFinishedInv(s, w);
    case _ => AttemptInv(s, w, step);
  }

  lemma ReleaseInv(s: State, w: nat)
    requires Inv(s) && AtPhase(s, w, Finished)
    ensures Inv(ApplyRelease(s, w))
  {
    var s' := ApplyRelease(s, w);
    assert s'.workers.Keys == s.workers.Keys - {w};
    assert |s'.workers| == |s'.workers.Keys| && |s.workers| == |s.workers.Keys|;
    StaffedKept(s, s');
  }

  lemma UnwindStaffed(s: State, w: nat)
    requires AtPhase(s, w, Selected) && Staffed(s) && Named(s)
    ensures Staffed(ApplyUnwind(s, w))
  {
  }

  lemma UnwindInv(s: State, w: nat)
    requires Inv(s) && AtPhase(s, w, Selected)
    ensures Inv(ApplyUnwind(s, w))
  {
    var s' := ApplyUnwind(s, w);
    assert s'.workers.Keys == s.workers.Keys - {w};
    assert |s'.workers| == |s'.workers.Keys| && |s.workers| == |s.workers.Keys|;
    UnwindStaffed(s, w);
  }

  lemma ReportInv(s: State, w: nat, ok: bool)
    requires Inv(s) && w in s.transfers
    ensures Inv(ApplyReport(s, w, ok))
  {
    StaffedKept(s, ApplyReport(s, w, ok));
  }

  lemma MonitorTable(s: State, step: MonitorStep)
    requires MonitorEnabled(s, step) && WellFormedTable(s.rows, s.nextId, s.clock)
    ensures var s' := ApplyMonitor(s, step); WellFormedTable(s'.rows, s'.nextId, s'.clock)
  {
  }

  lemma MonitorStaffed(s: State, step: MonitorStep)
    requires MonitorEnabled(s, step) && Staffed(s)
    ensures Staffed(ApplyMonitor(s, step))
  {
    StaffedKept(s, ApplyMonitor(s, step));
  }

  lemma MonitorNamed(s: State, step: MonitorStep)
    requires MonitorEnabled(s, step) && Named(s) && PendingUnclaimed(s)
    ensures Named(ApplyMonitor(s, step)) && PendingUnclaimed(ApplyMonitor(s, step))
  {
  }

  lemma MonitorInv(s: State, step: MonitorStep)
    requires Inv(s) && MonitorEnabled(s, step)
    ensures Inv(ApplyMonitor(s, step)) && ApplyMonitor(s, step).maxConcurrent == s.maxConcurrent
  {
    MonitorTable(s, step);
    MonitorStaffed(s, step);
    MonitorNamed(s, step);
    MonitorFrame(s, step);
    hide ApplyMonitor, MonitorEnabled, Staffed, WellFormedTable, Named, PendingUnclaimed;
  }

  /** Every kind of step keeps the invariant, and none changes the limit. */
  lemma StepInv(s: State, step: Label)
    requires Inv(s) && Enabled(s, step)
    ensures Inv(Apply(s, step)) && Apply(s, step).maxConcurrent == s.maxConcurrent
  {
    match step
    case Client(c) => ClientInv(s, c);
    case Loop(l) => LoopInv(s, l);
    case Work(w, act) => WorkInv(s, w, act);
    case Release(w) => ReleaseInv(s, w);
    case Unwind(w) => UnwindInv(s, w);
    case Report(w, ok) => ReportInv(s, w, ok);
    case Watch(m) => MonitorInv(s, m);
    case Restart => InitialInv(Apply(s, step));
  }

  lemma RunInv(s: State, run: seq<Label>)
    requires Inv(s) && Legal(s, run)
    ensures Inv(After(s, run)) && After(s, run).maxConcurrent == s.maxConcurrent
    decreases |run|
  {
    if run != [] {
      StepInv(s, run[0]);
      RunInv(Apply(s, run[0]), run[1..]);
    }
  }

  // ---------------------------------------------------------------- concurrency

  lemma SubsetOfImage<T, U>(image: set<U>, source: set<T>, f: T -> U)
    requires forall y | y in image :: exists x | x in source :: f(x) == y
    ensures |image| <= |source|
  {
    if image != {} {
      var y :| y in image;
      var x :| x in source && f(x) == y;
      assert forall z | z in image - {y} :: exists x' | x' in source - {x} :: f(x') == z by {
        forall z | z in image - {y} ensures exists x' | x' in source - {x} :: f(x') == z {
          var x' :| x' in source && f(x') == z;
          assert x' in source - {x};
        }
      }
      SubsetOfImage(image - {y}, source - {x}, f);
    }
  }

  lemma TendedRowsFit(s: State)
    requires Staffed(s)
    ensures |InProgressRows(s.rows) - LeftRows(s)| <= |s.workers|
  {
    var tended := InProgressRows(s.rows) - LeftRows(s);
    var rowOf := w => if w in s.workers then s.workers[w].queueId else 0;
    forall id | id in tended ensures exists w | w in s.workers.Keys :: rowOf(w) == id {
      assert s.claimant[id] in s.workers.Keys && rowOf(s.claimant[id]) == id;
    }
    SubsetOfImage(tended, s.workers.Keys, rowOf);
  }

  lemma LatestClaimTends(s: State)
    requires Inv(s)
    ensures forall id | InProgress(s.rows, id) ::
              id in s.claimant && (Responsible(s, s.claimant[id], id) <==> !LeftBehind(s, id))
  {
  }

  lemma LeftRowsFit(s: State)
    ensures |LeftRows(s)| <= |s.unwound|
  {
    var rowOf := w => if w in s.unwound then s.unwound[w] else 0;
    forall id | id in LeftRows(s) ensures exists w | w in s.unwound.Keys :: rowOf(w) == id {
      assert s.claimant[id] in s.unwound.Keys && rowOf(s.claimant[id]) == id;
    }
    SubsetOfImage(LeftRows(s), s.unwound.Keys, rowOf);
  }

  lemma LeftRowsAreInProgress(s: State)
    ensures LeftRows(s) <= InProgressRows(s.rows)
  {
  }

  /** Each row in 'processing' is worked on by the worker of its latest claim exactly when that worker
      has not unwound; so these rows number at most the running workers and the rows left behind. */
  lemma ProcessingIsStaffed(s: State)
    requires Inv(s)
    ensures forall id | InProgress(s.rows, id) ::
              id in s.claimant && (Responsible(s, s.claimant[id], id) <==> !LeftBehind(s, id))
    ensures |InProgressRows(s.rows)| <= |s.workers| + |LeftRows(s)|
    ensures |s.workers| <= s.maxConcurrent && |LeftRows(s)| <= |s.unwound|
  {
    hide Responsible, LeftBehind, WellFormedTable, Named, PendingUnclaimed, InProgress;
    TendedRowsFit(s);
    LeftRowsFit(s);
    LatestClaimTends(s);
    assert PermitsBalance(s);
    hide Inv, Staffed;
    LeftRowsAreInProgress(s);
    hide LeftRows, InProgressRows;
    var (all, left) := (InProgressRows(s.rows), LeftRows(s));
    assert all == (all - left) + left;
  }

  /** No worker unwinds. */
  predicate NoneUnwinds(run: seq<Label>) {
    forall step | step in run :: !step.Unwind?
  }

  lemma StepUnwindsNone(s: State, step: Label)
    requires Enabled(s, step) && !step.Unwind? && s.unwound == map[]
    ensures Apply(s, step).unwound == map[]
  {
    hide ApplyClient, ApplyLoop, ApplyWork, ApplyMonitor, LoopEnabled, WorkEnabled, MonitorEnabled;
    match step
    case Client(c) => ClientFrame(s, c);
    case Loop(l) => LoopFrame(s, l);
    case Work(w, act) => WorkFrame(s, w, act);
    case Watch(m) => MonitorFrame(s, m);
    case _ =>
  }

  lemma {:induction false} NothingUnwound(s: State, run: seq<Label>)
    requires Legal(s, run) && NoneUnwinds(run) && s.unwound == map[]
    ensures After(s, run).unwound == map[]
    decreases |run|
  {
    hide Apply, Enabled;
    if run != [] {
      assert run[0] in run;
      StepUnwindsNone(s, run[0]);
      NothingUnwound(Apply(s, run[0]), run[1..]);
    }
  }

  /** On every run, the running workers number at most the configured limit, and the rows in
      'processing' at most those workers and the rows left behind by workers that unwound; on a run
      without unwinding at most the workers. */
  lemma ConcurrencyBound(s: State, run: seq<Label>)
    requires Initial(s) && Legal(s, run)
    ensures var t := After(s, run);
            && |InProgressRows(t.rows)| <= |t.workers| + |LeftRows(t)|
            && |t.workers| <= t.maxConcurrent == s.maxConcurrent
            && (NoneUnwinds(run) ==> LeftRows(t) == {})
  {
    InitialInv(s);
    RunInv(s, run);
    ProcessingIsStaffed(After(s, run));
    if NoneUnwinds(run) {
      NothingUnwound(s, run);
    }
  }

  // ---------------------------------------------------------------- claims and requeues

  /** This step puts row `id` back into the queue: a retry mark, or the recovery of a row that was
      being processed when the server stopped. */
  ghost predicate Requeues(s: State, step: Label, id: nat)
    requires Enabled(s, step)
  {
    && id in s.rows
    && (|| (step.Work? && step.act.Record? && s.workers[step.w].queueId == id && WillRetry(s.workers[step.w]))
        || (step.Watch? && step.watch.Requeue? && s.monitor.queueId == id)
        || (step.Restart? && InProgress(s.rows, id)))
  }

  ghost predicate SomeRequeue(s: State, run: seq<Label>, id: nat)
    requires Legal(s, run)
    decreases |run|
  {
    run != [] && (Requeues(s, run[0], id) || SomeRequeue(Apply(s, run[0]), run[1..], id))
  }

  lemma ClientNeverReturns(s: State, step: ClientStep, id: nat)
    requires id < s.nextId && !Waiting(s.rows, id)
    ensures !Waiting(ApplyClient(s, step).rows, id) && id < ApplyClient(s, step).nextId
  {
  }

  lemma LoopNeverReturns(s: State, step: LoopStep, id: nat)
    requires LoopEnabled(s, step) && !Waiting(s.rows, id)
    ensures !Waiting(ApplyLoop(s, step).rows, id)
  {
  }

  lemma WorkNeverReturns(s: State, w: nat, step: WorkerStep, id: nat)
    requires WorkEnabled(s, w, step)
    requires !Waiting(s.rows, id) && !Requeues(s, Work(w, step), id)
    ensures !Waiting(ApplyWork(s, w, step).rows, id)
  {
  }

  lemma MonitorNeverReturns(s: State, step: MonitorStep, id: nat)
    requires MonitorEnabled(s, step)
    requires !Waiting(s.rows, id) && !Requeues(s, Watch(step), id)
    ensures !Waiting(ApplyMonitor(s, step).rows, id)
  {
  }

  /** Only a requeue makes a row that has left the queue wait again. */
  lemma OnlyRequeueReturns(s: State, step: Label, id: nat)
    requires Enabled(s, step) && id < s.nextId
    requires !Waiting(s.rows, id) && !Requeues(s, step, id)
    ensures !Waiting(Apply(s, step).rows, id) && id < Apply(s, step).nextId
  {
    hide ApplyMonitor, ApplyWork, ApplyLoop, ApplyClient;
    match step
    case Client(c) => ClientNeverReturns(s, c, id);
    case Loop(l) =>
      LoopFrame(s, l);
      LoopNeverReturns(s, l, id);
    case Work(w, act) =>
      WorkFrame(s, w, act);
      WorkNeverReturns(s, w, act, id);
    case Watch(m) =>
      MonitorFrame(s, m);
      MonitorNeverReturns(s, m, id);
    case _ =>
  }

  lemma NotWaitingAfter(s: State, run: seq<Label>, id: nat)
    requires Inv(s) && Legal(s, run) && id < s.nextId
    requires !Waiting(s.rows, id) && !SomeRequeue(s, run, id)
    ensures !Waiting(After(s, run).rows, id)
    decreases |run|
  {
    if run != [] {
      OnlyRequeueReturns(s, run[0], id);
      StepInv(s, run[0]);
      NotWaitingAfter(Apply(s, run[0]), run[1..], id);
    }
  }

  /** Between two claims of one row there is a requeue of it. */
  lemma ClaimsAreSeparated(s: State, between: seq<Label>, id: nat)
    requires Inv(s) && Enabled(s, Loop(Claim(id)))
    requires Legal(Apply(s, Loop(Claim(id))), between)
    requires Enabled(After(Apply(s, Loop(Claim(id))), between), Loop(Claim(id)))
    ensures SomeRequeue(Apply(s, Loop(Claim(id))), between, id)
  {
    var claimed := Apply(s, Loop(Claim(id)));
    StepInv(s, Loop(Claim(id)));
    if !SomeRequeue(claimed, between, id) {
      NotWaitingAfter(claimed, between, id);
    }
  }

  /** On every run, cancelling leaves alone each row that was claimed since the server started. */
  lemma CancelSparesClaimed(s: State, run: seq<Label>, cancel: ClientStep, id: nat)
    requires Initial(s) && Legal(s, run) && (cancel.Cancel? || cancel.CancelList?)
    ensures var t := After(s, run);
            id in t.rows && (ClaimsOf(t, id) > 0 || InProgress(t.rows, id)) ==>
            var t' := ApplyClient(t, cancel); id in t'.rows && t'.rows[id] == t.rows[id]
  {
    InitialInv(s);
    RunInv(s, run);
  }
}
