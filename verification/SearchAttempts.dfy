/** How often one queue entry is tried. When every attempt reports one outcome, an entry is
    always in one place only, and its claims and its remaining budget never exceed seven. */
module SearchAttempts {
  import opened Wrappers
  import opened Messages
  import opened SearchTable
  import opened SearchQueue

  const MAX_CLAIMS := 7

  /** The places a row can be in from one claim to the next; from all but the last, the next claim can
      still come about in this server run. */
  datatype Holder =
    | InQueue               // the row waits
    | WithWorker(w: nat)    // a worker is on an attempt that has not succeeded
    | InTransfer(w: nat)    // its spawned transfer has not reported
    | InChannel(i: nat)     // its report has not been read
    | WithMonitor           // the monitor is acting on its report
    | WithNobody            // the worker of its latest claim has unwound

  predicate Trying(phase: Phase) {
    phase.Claimed? || phase.Checked? || phase.Selected? || (phase.Decided? && phase.attempt.SearchFailed?)
  }

  predicate Handling(monitor: Monitor, id: nat) {
    if monitor.Fetched? then monitor.completion.queueId == id
    else !monitor.Idle? && monitor.queueId == id
  }

  predicate Holds(s: State, id: nat, h: Holder) {
    match h
    case InQueue => Waiting(s.rows, id)
    case WithWorker(w) => w in s.workers && s.workers[w].queueId == id && Trying(s.workers[w].phase)
    case InTransfer(w) => w in s.transfers && s.transfers[w] == id
    case InChannel(i) => i < |s.channel| && s.channel[i].queueId == id
    case WithMonitor => Handling(s.monitor, id)
    case WithNobody => LeftBehind(s, id)
  }

  /** Claims an entry can still get when it waits with this retry count and cache size. */
  function Budget(retryCount: nat, cached: nat): nat {
    if retryCount == 0 then 7 else if cached == 0 then 6 else cached
  }

  /** Claims it can still get once an attempt with this retry count has taken its candidate. */
  function BudgetAfter(retryCount: nat, cached: nat): nat {
    if retryCount == 0 && cached == 0 then 6 else cached
  }

  ghost predicate Affordable(s: State, id: nat, h: Holder)
    requires Holds(s, id, h)
  {
    var claims := ClaimsOf(s, id);
    var cached := |Cached(s, id)|;
    match h
    case InQueue => claims + Budget(s.rows[id].retryCount, cached) <= MAX_CLAIMS
    case WithWorker(w) =>
      var retryCount := s.workers[w].retryCount;
      && (id in s.rows ==> s.rows[id].retryCount == retryCount)
      && (if s.workers[w].phase.Claimed? || s.workers[w].phase.Checked? then
            1 <= claims && claims - 1 + Budget(retryCount, cached) <= MAX_CLAIMS
          else
            claims + BudgetAfter(retryCount, cached) <= MAX_CLAIMS)
    case InTransfer(_) => id in s.rows ==> claims + BudgetAfter(s.rows[id].retryCount, cached) <= MAX_CLAIMS
    case InChannel(_) => id in s.rows ==> claims + BudgetAfter(s.rows[id].retryCount, cached) <= MAX_CLAIMS
    case WithMonitor =>
      && (s.monitor.Fetched? && id in s.rows ==>
            s.monitor.retryCount == s.rows[id].retryCount
            && claims + BudgetAfter(s.rows[id].retryCount, cached) <= MAX_CLAIMS)
      && (s.monitor.Requeuing? && id in s.rows ==> claims + Budget(1, cached) <= MAX_CLAIMS)
    case WithNobody => true
  }

  ghost predicate OneHolder(s: State) {
    forall id, h, h' | Holds(s, id, h) && Holds(s, id, h') :: h == h'
  }

  ghost predicate WithinBudget(s: State) {
    && (forall id | id in s.cache :: |s.cache[id]| <= CACHED_ALTERNATIVES)
    && (forall id | id in s.claims :: s.claims[id] <= MAX_CLAIMS)
    && (forall id, h | Holds(s, id, h) :: Affordable(s, id, h))
  }

  ghost predicate Thrifty(s: State) {
    OneHolder(s) && WithinBudget(s)
  }

  /** Where the holder `h` of row `id` after a step was before it. */
  ghost function Origin(s: State, step: Label, id: nat, h: Holder): Holder {
    match step
    case Loop(Claim(claimed)) => if h == WithWorker(s.nextWorker) then InQueue else h
    case Work(w, act) =>
      if act.StartTransfer? && h == InTransfer(w) then WithWorker(w)
      else if act.Record? && h.InQueue? && w in s.workers && s.workers[w].queueId == id && WillRetry(s.workers[w]) then
        WithWorker(w)
      else h
    case Unwind(w) => if h.WithNobody? && !LeftBehind(s, id) then WithWorker(w) else h
    case Report(w, _) => if h == InChannel(|s.channel|) then InTransfer(w) else h
    case Watch(Take) =>
      if h.WithMonitor? then InChannel(0) else if h.InChannel? then InChannel(h.i + 1) else h
    case Watch(Requeue) => if h.InQueue? && Handling(s.monitor, id) then WithMonitor else h
    case _ => h
  }

  /** A step that reports an attempt's failure twice. */
  predicate ReportsTwice(step: Label) {
    step.Work? && step.act.RefuseTwice?
  }

  predicate ReportsOnce(run: seq<Label>) {
    forall step | step in run :: !ReportsTwice(step)
  }

  lemma ClientMoves(s: State, step: ClientStep, id: nat, h: Holder)
    requires Named(s) && Holds(ApplyClient(s, step), id, h) && id < s.nextId
    ensures Holds(s, id, h)
    ensures Affordable(s, id, h) ==> Affordable(ApplyClient(s, step), id, h)
  {
  }

  lemma NewRowsOnlyWait(s: State, step: ClientStep, id: nat, h: Holder)
    requires Named(s) && WellFormedTable(s.rows, s.nextId, s.clock)
    requires Holds(ApplyClient(s, step), id, h) && id >= s.nextId
    ensures h == InQueue
  {
  }

  lemma LoopMoves(s: State, step: LoopStep, id: nat, h: Holder)
    requires Named(s) && LoopEnabled(s, step) && Thrifty(s) && Holds(ApplyLoop(s, step), id, h)
    ensures var o := Origin(s, Loop(step), id, h); Holds(s, id, o) && Affordable(ApplyLoop(s, step), id, h)
  {
    var o := Origin(s, Loop(step), id, h);
    assert Holds(s, id, o);
    if step.Claim? && step.id == id {
      assert Holds(s, id, InQueue);
    }
  }

  lemma AttemptHeld(s: State, w: nat, step: WorkerStep, id: nat, h: Holder)
    requires WorkEnabled(s, w, step) && Holds(ApplyWork(s, w, step), id, h)
    requires !step.RefuseTwice? && !step.Record?
    ensures Holds(s, id, Origin(s, Work(w, step), id, h))
  {
  }

  /** A worker's step on another row changes neither the row's claims nor its candidates. */
  lemma AttemptElsewhere(s: State, w: nat, step: WorkerStep, id: nat, h: Holder)
    requires WorkEnabled(s, w, step) && WithinBudget(s) && Holds(ApplyWork(s, w, step), id, h)
    requires !step.RefuseTwice? && !step.Record? && s.workers[w].queueId != id
    ensures Holds(s, id, h) && Affordable(ApplyWork(s, w, step), id, h)
  {
    assert Holds(s, id, h);
  }

  /** A candidate is taken from the cache, or from a fresh search that may refill it. */
  lemma CandidateMoves(s: State, w: nat, step: WorkerStep, h: Holder)
    requires WorkEnabled(s, w, step) && Thrifty(s) && Holds(ApplyWork(s, w, step), s.workers[w].queueId, h)
    requires step.UseCached? || step.SearchFinds?
    ensures Affordable(ApplyWork(s, w, step), s.workers[w].queueId, h)
  {
    var id := s.workers[w].queueId;
    assert Holds(s, id, h) && Holds(s, id, WithWorker(w));
  }

  lemma AttemptMoves(s: State, w: nat, step: WorkerStep, id: nat, h: Holder)
    requires WorkEnabled(s, w, step) && Thrifty(s) && Holds(ApplyWork(s, w, step), id, h)
    requires !step.RefuseTwice? && !step.Record?
    ensures var o := Origin(s, Work(w, step), id, h); Holds(s, id, o) && Affordable(ApplyWork(s, w, step), id, h)
  {
    AttemptHeld(s, w, step, id, h);
    if s.workers[w].queueId != id {
      AttemptElsewhere(s, w, step, id, h);
    } else if step.UseCached? || step.SearchFinds? {
      CandidateMoves(s, w, step, h);
    } else {
      hide OneHolder;
      if Trying(s.workers[w].phase) {
        assert Holds(s, id, WithWorker(w));
      }
    }
  }

  lemma RecordMoves(s: State, w: nat, id: nat, h: Holder)
    requires WorkEnabled(s, w, Record) && Thrifty(s) && Holds(ApplyWork(s, w, Record), id, h)
    ensures var o := Origin(s, Work(w, Record), id, h); Holds(s, id, o) && Affordable(ApplyWork(s, w, Record), id, h)
  {
    var o := Origin(s, Work(w, Record), id, h);
    assert Holds(s, id, o);
    if s.workers[w].queueId == id && Trying(s.workers[w].phase) {
      assert Holds(s, id, WithWorker(w));
    }
  }

  lemma ReportMoves(s: State, w: nat, ok: bool, id: nat, h: Holder)
    requires w in s.transfers && Thrifty(s) && Holds(ApplyReport(s, w, ok), id, h)
    ensures var o := Origin(s, Report(w, ok), id, h); Holds(s, id, o) && Affordable(ApplyReport(s, w, ok), id, h)
  {
    assert Holds(s, id, Origin(s, Report(w, ok), id, h));
  }

  lemma MonitorHeld(s: State, step: MonitorStep, id: nat, h: Holder)
    requires MonitorEnabled(s, step) && Holds(ApplyMonitor(s, step), id, h)
    ensures Holds(s, id, Origin(s, Watch(step), id, h))
  {
  }

  lemma MonitorMoves(s: State, step: MonitorStep, id: nat, h: Holder)
    requires MonitorEnabled(s, step) && Thrifty(s) && Holds(ApplyMonitor(s, step), id, h)
    ensures var o := Origin(s, Watch(step), id, h); Holds(s, id, o) && Affordable(ApplyMonitor(s, step), id, h)
  {
    MonitorHeld(s, step, id, h);
    if Handling(s.monitor, id) {
      assert Holds(s, id, WithMonitor);
      HandledMoves(s, step, id, h);
    } else {
      hide OneHolder;
    }
  }

  lemma HandledMoves(s: State, step: MonitorStep, id: nat, h: Holder)
    requires MonitorEnabled(s, step) && Thrifty(s) && Holds(ApplyMonitor(s, step), id, h)
    requires Handling(s.monitor, id) && Holds(s, id, WithMonitor) && Holds(s, id, Origin(s, Watch(step), id, h))
    ensures Affordable(ApplyMonitor(s, step), id, h)
  {
  }

  // ---------------------------------------------------------------- one holder, kept

  /** Two holders after a worker's step that were one before it are one. */
  lemma WorkSplitsNothing(s: State, w: nat, step: WorkerStep, id: nat, h: Holder, h': Holder)
    requires WorkEnabled(s, w, step) && !step.RefuseTwice?
    requires Holds(ApplyWork(s, w, step), id, h) && Holds(ApplyWork(s, w, step), id, h')
    requires Origin(s, Work(w, step), id, h) == Origin(s, Work(w, step), id, h')
    ensures h == h'
  {
  }

  lemma MonitorSplitsNothing(s: State, step: MonitorStep, id: nat, h: Holder, h': Holder)
    requires MonitorEnabled(s, step)
    requires Holds(ApplyMonitor(s, step), id, h) && Holds(ApplyMonitor(s, step), id, h')
    requires Origin(s, Watch(step), id, h) == Origin(s, Watch(step), id, h')
    ensures h == h'
  {
  }

  lemma LoopSplitsNothing(s: State, step: LoopStep, id: nat, h: Holder, h': Holder)
    requires LoopEnabled(s, step) && Named(s)
    requires Holds(ApplyLoop(s, step), id, h) && Holds(ApplyLoop(s, step), id, h')
    requires Origin(s, Loop(step), id, h) == Origin(s, Loop(step), id, h')
    ensures h == h'
  {
  }

  lemma ReportSplitsNothing(s: State, w: nat, ok: bool, id: nat, h: Holder, h': Holder)
    requires w in s.transfers
    requires Holds(ApplyReport(s, w, ok), id, h) && Holds(ApplyReport(s, w, ok), id, h')
    requires Origin(s, Report(w, ok), id, h) == Origin(s, Report(w, ok), id, h')
    ensures h == h'
  {
  }

  lemma ClientThrifty(s: State, step: ClientStep)
    requires Named(s) && WellFormedTable(s.rows, s.nextId, s.clock) && Thrifty(s)
    ensures Thrifty(ApplyClient(s, step))
  {
    var s' := ApplyClient(s, step);
    forall id: nat, h | Holds(s', id, h) ensures Affordable(s', id, h) && (id < s.nextId ==> Holds(s, id, h)) {
      if id < s.nextId {
        ClientMoves(s, step, id, h);
      }
    }
    forall id: nat, h | Holds(s', id, h) && id >= s.nextId ensures h == InQueue {
      NewRowsOnlyWait(s, step, id, h);
    }
  }

  lemma LoopThrifty(s: State, step: LoopStep)
    requires LoopEnabled(s, step) && Named(s) && Thrifty(s)
    ensures Thrifty(ApplyLoop(s, step))
  {
    var s' := ApplyLoop(s, step);
    forall id, h, h' | Holds(s', id, h) && Holds(s', id, h') ensures h == h' {
      LoopMoves(s, step, id, h);
      LoopMoves(s, step, id, h');
      LoopSplitsNothing(s, step, id, h, h');
    }
    forall id, h | Holds(s', id, h) ensures Affordable(s', id, h) {
      LoopMoves(s, step, id, h);
    }
    if step.Claim? {
      assert Holds(s, step.id, InQueue);
    }
  }

  lemma WorkThrifty(s: State, w: nat, step: WorkerStep)
    requires WorkEnabled(s, w, step) && Thrifty(s) && !step.RefuseTwice?
    ensures Thrifty(ApplyWork(s, w, step))
  {
    var s' := ApplyWork(s, w, step);
    forall id, h | Holds(s', id, h)
      ensures Affordable(s', id, h) && Holds(s, id, Origin(s, Work(w, step), id, h))
    {
      if step.Record? { RecordMoves(s, w, id, h); } else { AttemptMoves(s, w, step, id, h); }
    }
    forall id, h, h' | Holds(s', id, h) && Holds(s', id, h') ensures h == h' {
      WorkSplitsNothing(s, w, step, id, h, h');
    }
    WorkCacheSmall(s, w, step);
  }

  lemma WorkCacheSmall(s: State, w: nat, step: WorkerStep)
    requires WorkEnabled(s, w, step) && forall id | id in s.cache :: |s.cache[id]| <= CACHED_ALTERNATIVES
    ensures var s' := ApplyWork(s, w, step);
            (forall id | id in s'.cache :: |s'.cache[id]| <= CACHED_ALTERNATIVES) && s'.claims == s.claims
  {
  }

  lemma ReportThrifty(s: State, w: nat, ok: bool)
    requires w in s.transfers && Thrifty(s)
    ensures Thrifty(ApplyReport(s, w, ok))
  {
    var s' := ApplyReport(s, w, ok);
    forall id, h, h' | Holds(s', id, h) && Holds(s', id, h') ensures h == h' {
      ReportMoves(s, w, ok, id, h);
      ReportMoves(s, w, ok, id, h');
      ReportSplitsNothing(s, w, ok, id, h, h');
    }
    forall id, h | Holds(s', id, h) ensures Affordable(s', id, h) {
      ReportMoves(s, w, ok, id, h);
    }
  }

  lemma MonitorThrifty(s: State, step: MonitorStep)
    requires MonitorEnabled(s, step) && Thrifty(s)
    ensures Thrifty(ApplyMonitor(s, step))
  {
    var s' := ApplyMonitor(s, step);
    forall id, h, h' | Holds(s', id, h) && Holds(s', id, h') ensures h == h' {
      MonitorMoves(s, step, id, h);
      MonitorMoves(s, step, id, h');
      MonitorSplitsNothing(s, step, id, h, h');
    }
    forall id, h | Holds(s', id, h) ensures Affordable(s', id, h) {
      MonitorMoves(s, step, id, h);
    }
  }

  lemma ReleaseThrifty(s: State, w: nat)
    requires AtPhase(s, w, Finished) && Thrifty(s)
    ensures Thrifty(ApplyRelease(s, w))
  {
    var s' := ApplyRelease(s, w);
    assert forall id, h | Holds(s', id, h) :: Holds(s, id, h);
  }

  lemma UnwindThrifty(s: State, w: nat)
    requires AtPhase(s, w, Selected) && Thrifty(s)
    ensures Thrifty(ApplyUnwind(s, w))
  {
    var s' := ApplyUnwind(s, w);
    forall id, h | Holds(s', id, h)
      ensures Holds(s, id, Origin(s, Unwind(w), id, h)) && Affordable(s', id, h)
    {
      assert Holds(s, id, Origin(s, Unwind(w), id, h));
    }
    forall id, h, h' | Holds(s', id, h) && Holds(s', id, h') ensures h == h' {
      assert Origin(s, Unwind(w), id, h) == Origin(s, Unwind(w), id, h');
    }
  }

  lemma StepThrifty(s: State, step: Label)
    requires Inv(s) && Enabled(s, step) && Thrifty(s) && !ReportsTwice(step)
    ensures Thrifty(Apply(s, step))
  {
    match step
    case Client(c) => ClientThrifty(s, c);
    case Loop(l) => LoopThrifty(s, l);
    case Work(w, act) => WorkThrifty(s, w, act);
    case Release(w) => ReleaseThrifty(s, w);
    case Unwind(w) => UnwindThrifty(s, w);
    case Report(w, ok) => ReportThrifty(s, w, ok);
    case Watch(m) => MonitorThrifty(s, m);
    case Restart => StartThrifty(Apply(s, step));
  }

  lemma StartThrifty(s: State)
    requires s == Started(s.rows, s.nextId, s.clock, s.maxConcurrent)
    ensures Thrifty(s)
  {
    assert forall id, h | Holds(s, id, h) :: h == InQueue;
  }

  lemma RunThrifty(s: State, run: seq<Label>)
    requires Inv(s) && Thrifty(s) && Legal(s, run)
    requires ReportsOnce(run)
    ensures Thrifty(After(s, run))
    decreases |run|
  {
    if run != [] {
      assert run[0] in run;
      StepInv(s, run[0]);
      StepThrifty(s, run[0]);
      RunThrifty(Apply(s, run[0]), run[1..]);
    }
  }

  /** On every run in which attempts report once, each entry is claimed at most seven times per
      server run, and is never in two places at once. */
  lemma AttemptBound(s: State, run: seq<Label>, id: nat)
    requires Initial(s) && Legal(s, run)
    requires ReportsOnce(run)
    ensures ClaimsOf(After(s, run), id) <= 7
    ensures OneHolder(After(s, run))
    ensures |Cached(After(s, run), id)| <= 5
  {
    InitialInv(s);
    StartThrifty(s);
    RunThrifty(s, run);
  }

  // ---------------------------------------------------------------- seven claims are reached

  /** The only entry waits for its next claim: `k` claims made, `cached` candidates left. */
  function BetweenAttempts(listId: Option<nat>, limit: nat, k: nat, clock: nat, cached: seq<ScoredFile>): State
    requires k > 0 && clock > 0
  {
    State(map[0 := Row(Retry, clock - 1, k, listId)], 1, clock,
          if k > 1 || cached != [] then map[0 := cached] else map[], limit, limit, false,
          map[], k, map[], [], SearchQueue.Monitor.Idle, map[0 := k], map[0 := k - 1], map[])
  }

  /** Concatenating runs that report once gives such a run. */
  lemma OnceConcat(a: seq<Label>, b: seq<Label>)
    requires ReportsOnce(a) && ReportsOnce(b)
    ensures ReportsOnce(a + b)
  {
  }

  /** One step in front of a run that reports once. */
  lemma ThenOnce(s: State, step: Label, rest: seq<Label>) returns (run: seq<Label>)
    requires Enabled(s, step) && Legal(Apply(s, step), rest) && ReportsOnce(rest) && !ReportsTwice(step)
    ensures Legal(s, run) && ReportsOnce(run) && After(s, run) == After(Apply(s, step), rest)
  {
    run := Then(s, step, rest);
  }

  lemma Both(s: State, a: seq<Label>, b: seq<Label>) returns (run: seq<Label>)
    requires Legal(s, a) && Legal(After(s, a), b) && ReportsOnce(a) && ReportsOnce(b)
    ensures Legal(s, run) && ReportsOnce(run) && After(s, run) == After(After(s, a), b)
  {
    RunConcat(s, a, b);
    OnceConcat(a, b);
    run := a + b;
  }

  /** The state once a claimed entry's search has failed. */
  function SearchFailed(s: State, w: nat): State
    requires w in s.workers
  {
    s.(workers := s.workers[w := s.workers[w].(phase := Decided(SearchQueue.SearchFailed(false)))])
  }

  lemma SearchFailsRun(s: State, w: nat) returns (run: seq<Label>)
    requires AtPhase(s, w, Claimed) && InProgress(s.rows, s.workers[w].queueId)
    requires Cached(s, s.workers[w].queueId) == []
    ensures Legal(s, run) && ReportsOnce(run) && After(s, run) == SearchFailed(s, w)
  {
    var s1 := Apply(s, Work(w, Verify));
    run := ThenOnce(s1, Work(w, SearchFails(false)), []);
    run := ThenOnce(s, Work(w, Verify), run);
  }

  /** Once the worker has recorded and returned. */
  function Recorded(s: State, w: nat): State
    requires w in s.workers
  {
    s.(rows := RowsRecorded(s, s.workers[w]), clock := s.clock + 1,
       workers := s.workers - {w}, permits := s.permits + 1)
  }

  lemma RecordRun(s: State, w: nat) returns (run: seq<Label>)
    requires w in s.workers && s.workers[w].phase.Decided? && s.workers[w].phase.attempt != ItemCompleted
    ensures Legal(s, run) && ReportsOnce(run) && After(s, run) == Recorded(s, w)
  {
    var s1 := Apply(s, Work(w, Record));
    assert s1.workers - {w} == s.workers - {w};
    run := ThenOnce(s1, Release(w), []);
    run := ThenOnce(s, Work(w, Record), run);
  }

  /** What the next worker takes: the first cached candidate, or the best of a fresh search. */
  function Taking(s: State, found: seq<ScoredFile>): WorkerStep {
    if Cached(s, 0) != [] then UseCached else SearchFinds(found)
  }

  /** What stays cached then. */
  function Left(cached: seq<ScoredFile>, found: seq<ScoredFile>): seq<ScoredFile> {
    if cached != [] then cached[1..] else if found != [] then Alternatives(found) else []
  }

  /** Once the worker has taken its candidate. */
  function Taken(s: State, w: nat, found: seq<ScoredFile>): State
    requires w in s.workers
  {
    s.(workers := s.workers[w := s.workers[w].(phase := Selected)], cache := s.cache[0 := Left(Cached(s, 0), found)])
  }

  lemma CandidateRun(s: State, w: nat, found: seq<ScoredFile>) returns (run: seq<Label>)
    requires AtPhase(s, w, Claimed) && s.workers[w].queueId == 0 && InProgress(s.rows, 0) && |found| > 1
    ensures Legal(s, run) && ReportsOnce(run) && After(s, run) == Taken(s, w, found)
  {
    var s1 := s.(workers := s.workers[w := s.workers[w].(phase := Checked)]);
    VerifyIs(s, w);
    TakingIs(s1, w, found);
    hide ApplyWork, WorkEnabled, Left;
    assert Taken(s1, w, found) == Taken(s, w, found);
    run := ThenOnce(s1, Work(w, Taking(s, found)), []);
    run := ThenOnce(s, Work(w, Verify), run);
  }

  lemma VerifyIs(s: State, w: nat)
    requires AtPhase(s, w, Claimed) && InProgress(s.rows, s.workers[w].queueId)
    ensures WorkEnabled(s, w, Verify)
    ensures ApplyWork(s, w, Verify) == s.(workers := s.workers[w := s.workers[w].(phase := Checked)])
  {
  }

  lemma TakingIs(s: State, w: nat, found: seq<ScoredFile>)
    requires AtPhase(s, w, Checked) && s.workers[w].queueId == 0 && |found| > 1
    ensures WorkEnabled(s, w, Taking(s, found)) && ApplyWork(s, w, Taking(s, found)) == Taken(s, w, found)
  {
  }

  /** Once the transfer runs and the worker has recorded it and returned. */
  function Transferring(s: State, w: nat): State
    requires w in s.workers
  {
    s.(rows := WithStatus(s.rows, s.workers[w].queueId, Completed), clock := s.clock + 1,
       workers := s.workers - {w}, permits := s.permits + 1, transfers := s.transfers[w := s.workers[w].queueId])
  }

  lemma DownloadRun(s: State, w: nat) returns (run: seq<Label>)
    requires AtPhase(s, w, Selected)
    ensures Legal(s, run) && ReportsOnce(run) && After(s, run) == Transferring(s, w)
  {
    var s1 := Apply(s, Work(w, StartTransfer));
    var record := RecordRun(s1, w);
    assert s1.workers - {w} == s.workers - {w};
    hide Legal, After;
    run := ThenOnce(s, Work(w, StartTransfer), record);
  }

  /** Once the only transfer has failed and the monitor has put its row back. */
  function PutBack(s: State, id: nat): State {
    s.(rows := Requeued(s.rows, id, s.clock), clock := s.clock + 1, transfers := map[])
  }

  /** The transfer fails, and the monitor puts the row back because candidates are left. */
  lemma FailureRun(s: State, w: nat, id: nat) returns (run: seq<Label>)
    requires s.transfers == map[w := id] && s.channel == [] && s.monitor.Idle? && id in s.rows && Cached(s, id) != []
    ensures Legal(s, run) && ReportsOnce(run) && After(s, run) == PutBack(s, id)
  {
    var s1 := Apply(s, Report(w, false));
    assert s1.transfers == map[];
    var s2 := Apply(s1, Watch(Take));
    var s3 := Apply(s2, Watch(Decide));
    run := ThenOnce(s3, Watch(Requeue), []);
    run := ThenOnce(s2, Watch(Decide), run);
    run := ThenOnce(s1, Watch(Take), run);
    run := ThenOnce(s, Report(w, false), run);
  }

  /** The claim loop hands the entry to worker `k`. */
  lemma EntryIsClaimed(s: State) returns (run: seq<Label>)
    requires s.permits > 0 && !s.loopHolds && IsNext(s.rows, 0)
    ensures Legal(s, run) && ReportsOnce(run) && After(s, run) == HandedOver(s, 0)
  {
    ClaimRun(s, 0);
    run := [Loop(Acquire)] + [Loop(Claim(0))];
    hide Legal, After;
  }

  function Entry(listId: Option<nat>, limit: nat): State {
    Started(map[0 := Row(Pending, 0, 0, listId)], 1, 1, limit)
  }

  lemma FirstAttemptIs(listId: Option<nat>, limit: nat)
    requires limit > 0
    ensures var (s, claimed) := (Entry(listId, limit), HandedOver(Entry(listId, limit), 0));
            && IsNext(s.rows, 0) && AtPhase(claimed, 0, Claimed) && InProgress(claimed.rows, 0)
            && claimed.workers[0].queueId == 0 && Cached(claimed, 0) == []
            && Recorded(SearchFailed(claimed, 0), 0) == BetweenAttempts(listId, limit, 1, 2, [])
  {
    assert SearchFailed(HandedOver(Entry(listId, limit), 0), 0).workers - {0} == map[];
  }

  /** The first attempt: claimed, and the search fails. */
  lemma FirstAttemptFails(listId: Option<nat>, limit: nat) returns (run: seq<Label>)
    requires limit > 0
    ensures Legal(Entry(listId, limit), run) && ReportsOnce(run)
    ensures After(Entry(listId, limit), run) == BetweenAttempts(listId, limit, 1, 2, [])
  {
    hide Legal, After, Apply, Enabled, Recorded, IsNext, ReportsOnce;
    var s := Entry(listId, limit);
    FirstAttemptIs(listId, limit);
    run := EntryIsClaimed(s);
    var search := SearchFailsRun(HandedOver(s, 0), 0);
    var record := RecordRun(SearchFailed(HandedOver(s, 0), 0), 0);
    search := Both(HandedOver(s, 0), search, record);
    run := Both(s, run, search);
  }

  lemma NextAttemptIs(listId: Option<nat>, limit: nat, k: nat, clock: nat, cached: seq<ScoredFile>,
                      found: seq<ScoredFile>)
    requires limit > 0 && k > 0 && clock > 0 && Left(cached, found) != []
    ensures var s := BetweenAttempts(listId, limit, k, clock, cached);
            var claimed := HandedOver(s, 0);
            && IsNext(s.rows, 0) && AtPhase(claimed, k, Claimed) && InProgress(claimed.rows, 0)
            && claimed.workers[k].queueId == 0
            && var moving := Transferring(Taken(claimed, k, found), k);
               && moving.transfers == map[k := 0] && moving.channel == [] && moving.monitor.Idle? && 0 in moving.rows
               && Cached(moving, 0) == Left(cached, found)
               && PutBack(moving, 0) == BetweenAttempts(listId, limit, k + 1, clock + 2, Left(cached, found))
  {
    hide Left;
    var claimed := HandedOver(BetweenAttempts(listId, limit, k, clock, cached), 0);
    assert Cached(claimed, 0) == cached;
    assert Taken(claimed, k, found).workers - {k} == map[];
  }

  /** A later attempt: claimed, a candidate taken, its download started, and failed. */
  lemma NextAttemptFails(listId: Option<nat>, limit: nat, k: nat, clock: nat, cached: seq<ScoredFile>,
                         found: seq<ScoredFile>) returns (run: seq<Label>)
    requires limit > 0 && k > 0 && clock > 0 && |found| > 1 && Left(cached, found) != []
    ensures var s := BetweenAttempts(listId, limit, k, clock, cached);
            && Legal(s, run) && ReportsOnce(run)
            && After(s, run) == BetweenAttempts(listId, limit, k + 1, clock + 2, Left(cached, found))
  {
    hide Legal, After, Apply, Enabled, Left, IsNext, ReportsOnce, PutBack;
    var s := BetweenAttempts(listId, limit, k, clock, cached);
    NextAttemptIs(listId, limit, k, clock, cached, found);
    run := EntryIsClaimed(s);
    var claimed := HandedOver(s, 0);
    var take := CandidateRun(claimed, k, found);
    var selected := Taken(claimed, k, found);
    var download := DownloadRun(selected, k);
    var fail := FailureRun(Transferring(selected, k), k, 0);
    download := Both(selected, download, fail);
    take := Both(claimed, take, download);
    run := Both(s, run, take);
  }

  /** With `n` candidates cached, `n - 1` more attempts can fail and leave one. */
  lemma {:induction false} CachedAttemptsFail(listId: Option<nat>, limit: nat, k: nat, clock: nat,
                                              cached: seq<ScoredFile>, found: seq<ScoredFile>) returns (run: seq<Label>)
    requires limit > 0 && k > 0 && clock > 0 && |found| > 1 && cached != []
    ensures var s := BetweenAttempts(listId, limit, k, clock, cached);
            && Legal(s, run) && ReportsOnce(run)
            && After(s, run) == BetweenAttempts(listId, limit, k + |cached| - 1, clock + 2 * (|cached| - 1),
                                                cached[|cached| - 1..])
    decreases |cached|
  {
    hide Apply, Enabled, BetweenAttempts;
    if |cached| == 1 {
      run := [];
      assert cached[0..] == cached;
    } else {
      assert Left(cached, found) == cached[1..];
      run := NextAttemptFails(listId, limit, k, clock, cached, found);
      var rest := CachedAttemptsFail(listId, limit, k + 1, clock + 2, cached[1..], found);
      assert cached[1..][|cached| - 2..] == cached[|cached| - 1..];
      hide Legal, After;
      run := Both(BetweenAttempts(listId, limit, k, clock, cached), run, rest);
    }
  }

  /** From the failed first search to the seventh claim. */
  lemma SixMoreClaims(listId: Option<nat>, limit: nat, found: seq<ScoredFile>) returns (run: seq<Label>)
    requires limit > 0 && |found| >= 6
    ensures var s := BetweenAttempts(listId, limit, 1, 2, []);
            Legal(s, run) && ReportsOnce(run) && ClaimsOf(After(s, run), 0) == 7
  {
    var cached := Alternatives(found);
    assert |cached| == 5 && Left([], found) == cached;
    hide Legal, After, Apply, Enabled, BetweenAttempts, Left, Alternatives, ReportsOnce, ClaimsOf, Inv;
    run := NextAttemptFails(listId, limit, 1, 2, [], found);
    var more := CachedAttemptsFail(listId, limit, 2, 4, cached, found);
    var last := SeventhClaim(listId, limit, cached[4..]);
    more := Both(BetweenAttempts(listId, limit, 2, 4, cached), more, last);
    run := Both(BetweenAttempts(listId, limit, 1, 2, []), run, more);
  }

  lemma SeventhClaim(listId: Option<nat>, limit: nat, cached: seq<ScoredFile>) returns (run: seq<Label>)
    requires limit > 0
    ensures var s := BetweenAttempts(listId, limit, 6, 12, cached);
            Legal(s, run) && ReportsOnce(run) && ClaimsOf(After(s, run), 0) == 7
  {
    run := EntryIsClaimed(BetweenAttempts(listId, limit, 6, 12, cached));
    hide Legal, After;
  }

  /** Seven is reached: whatever ranking of six offers or more a search brings, a server that has just
      started on one entry can claim it exactly seven times, each attempt reporting once. */
  lemma SevenClaimsAreReached(listId: Option<nat>, limit: nat, found: seq<ScoredFile>) returns (run: seq<Label>)
    requires limit > 0 && |found| >= 6
    ensures var s := Started(map[0 := Row(Pending, 0, 0, listId)], 1, 1, limit);
            Initial(s) && Legal(s, run) && ReportsOnce(run) && ClaimsOf(After(s, run), 0) == 7
  {
    hide Legal, After, Apply, Enabled, BetweenAttempts, ReportsOnce, ClaimsOf, IsNext;
    assert InProgressRows(map[0 := Row(Pending, 0, 0, listId)]) == {};
    var first := FirstAttemptFails(listId, limit);
    var more := SixMoreClaims(listId, limit, found);
    run := Both(Entry(listId, limit), first, more);
  }
}
