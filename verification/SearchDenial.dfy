/** Attempts that report twice: a refused download fails its worker's attempt and is reported to the
    transfer monitor as well, so that the two settle one entry in either order. */
module SearchDenial {
  import opened Wrappers
  import opened Messages
  import opened SearchTable
  import opened SearchQueue
  import opened SearchAttempts
  import opened SearchCompletion

  // ---------------------------------------------------------------- one refusal on its own

  /** Worker `w` is about to start the first download of its row, and the monitor has nothing to do. */
  predicate FirstAttempt(s: State, w: nat) {
    && AtPhase(s, w, Selected) && s.workers[w].retryCount == 0
    && InProgress(s.rows, s.workers[w].queueId) && s.rows[s.workers[w].queueId].retryCount == 0
    && s.channel == [] && s.monitor.Idle?
  }

  function Refused(s: State, w: nat, noResults: bool): State
    requires AtPhase(s, w, Selected)
  {
    s.(workers := s.workers[w := s.workers[w].(phase := Decided(SearchFailed(noResults)))],
       channel := s.channel + [Completion(s.workers[w].queueId, false)])
  }

  lemma RefusedIsStep(s: State, w: nat, noResults: bool)
    requires AtPhase(s, w, Selected)
    ensures Enabled(s, Work(w, RefuseTwice(noResults)))
    ensures Apply(s, Work(w, RefuseTwice(noResults))) == Refused(s, w, noResults)
  {
  }

  /** One of the two acts: the worker or the monitor. */
  predicate ByTheTwo(step: Label, w: nat) {
    (step.Work? && step.w == w) || step == Release(w) || step.Watch?
  }

  predicate OnlyTheTwo(run: seq<Label>, w: nat) {
    forall step | step in run :: ByTheTwo(step, w)
  }

  /** Both have done all they will. */
  predicate BothDone(s: State, w: nat) {
    w !in s.workers && s.channel == [] && s.monitor.Idle?
  }

  /** The monitor takes the report before the worker records. */
  predicate TakenFirst(run: seq<Label>, w: nat)
    decreases |run|
  {
    run != [] && (run[0] == Watch(Take) || (run[0] != Work(w, Record) && TakenFirst(run[1..], w)))
  }

  predicate Recorded(s: State, w: nat) {
    w !in s.workers || s.workers[w].phase.Finished?
  }

  /** What is common to all that follows: the worker's verdict, and what is cached. */
  predicate Following(s: State, w: nat, id: nat, noResults: bool, cached: seq<ScoredFile>) {
    && (w in s.workers ==>
          && s.workers[w].queueId == id && s.workers[w].retryCount == 0
          && (s.workers[w].phase.Finished? || s.workers[w].phase == Decided(SearchFailed(noResults))))
    && Cached(s, id) == cached
  }

  predicate Retried(rows: Table, id: nat, count: nat) {
    id in rows && rows[id].status.Retry? && rows[id].retryCount == count
  }

  /** Neither has acted yet. */
  predicate Undealt(s: State, w: nat, id: nat, noResults: bool, cached: seq<ScoredFile>) {
    && Following(s, w, id, noResults, cached) && !Recorded(s, w)
    && s.channel == [Completion(id, false)] && s.monitor.Idle?
    && InProgress(s.rows, id) && s.rows[id].retryCount == 0
  }

  /** The monitor has read retry count 0, so it requeues. */
  predicate MonitorFirst(s: State, w: nat, id: nat, noResults: bool, cached: seq<ScoredFile>) {
    && Following(s, w, id, noResults, cached) && s.channel == []
    && (s.monitor.Idle? || s.monitor == Fetched(Completion(id, false), 0) || s.monitor == Requeuing(id))
    && if Recorded(s, w) then
         if noResults then id !in s.rows else Retried(s.rows, id, if s.monitor.Idle? then 2 else 1)
       else
         if s.monitor.Idle? then Retried(s.rows, id, 1) else InProgress(s.rows, id) && s.rows[id].retryCount == 0
  }

  /** The monitor finds the worker's verdict carried out: the retry count is 1, or the row is gone. */
  predicate WorkerFirst(s: State, w: nat, id: nat, noResults: bool, cached: seq<ScoredFile>) {
    && Following(s, w, id, noResults, cached) && Recorded(s, w)
    && (noResults ==> id !in s.rows)
    && if s.channel == [Completion(id, false)] then s.monitor.Idle? && (!noResults ==> Retried(s.rows, id, 1))
       else
         && s.channel == []
         && match s.monitor
            case Fetched(completion, retryCount) =>
              completion == Completion(id, false) && retryCount == 1 && (!noResults ==> Retried(s.rows, id, 1))
            case Requeuing(queueId) => queueId == id && cached != [] && (!noResults ==> Retried(s.rows, id, 1))
            case Dropping(queueId) => queueId == id && cached == []
            case Deleting(queueId) => queueId == id && cached == []
            case Idle => if cached == [] then id !in s.rows else !noResults ==> Retried(s.rows, id, 2)
            case Forgetting(_) => false
  }

  lemma UndealtStep(s: State, step: Label, w: nat, id: nat, noResults: bool, cached: seq<ScoredFile>)
    requires Undealt(s, w, id, noResults, cached) && Enabled(s, step) && ByTheTwo(step, w)
    ensures step == Watch(Take) || step == Work(w, Record)
    ensures step == Watch(Take) ==> MonitorFirst(Apply(s, step), w, id, noResults, cached)
    ensures step == Work(w, Record) ==> WorkerFirst(Apply(s, step), w, id, noResults, cached)
  {
  }

  lemma MonitorFirstWork(s: State, step: WorkerStep, w: nat, id: nat, noResults: bool, cached: seq<ScoredFile>)
    requires MonitorFirst(s, w, id, noResults, cached) && WorkEnabled(s, w, step)
    ensures MonitorFirst(ApplyWork(s, w, step), w, id, noResults, cached)
  {
    assert step.Record?;
  }

  lemma MonitorFirstWatch(s: State, step: MonitorStep, w: nat, id: nat, noResults: bool, cached: seq<ScoredFile>)
    requires MonitorFirst(s, w, id, noResults, cached) && MonitorEnabled(s, step)
    ensures MonitorFirst(ApplyMonitor(s, step), w, id, noResults, cached)
  {
  }

  lemma MonitorFirstStep(s: State, step: Label, w: nat, id: nat, noResults: bool, cached: seq<ScoredFile>)
    requires MonitorFirst(s, w, id, noResults, cached) && Enabled(s, step) && ByTheTwo(step, w)
    ensures MonitorFirst(Apply(s, step), w, id, noResults, cached)
  {
    hide ApplyWork, WorkEnabled, ApplyMonitor, MonitorEnabled;
    match step
    case Work(_, act) => MonitorFirstWork(s, act, w, id, noResults, cached);
    case Watch(watch) => MonitorFirstWatch(s, watch, w, id, noResults, cached);
    case Release(_) =>
  }

  lemma WorkerHasReturned(s: State, w: nat, id: nat, noResults: bool, cached: seq<ScoredFile>)
    requires WorkerFirst(s, w, id, noResults, cached)
    ensures forall act :: !WorkEnabled(s, w, act)
  {
  }

  lemma WorkerFirstWatch(s: State, step: MonitorStep, w: nat, id: nat, noResults: bool, cached: seq<ScoredFile>)
    requires WorkerFirst(s, w, id, noResults, cached) && MonitorEnabled(s, step)
    ensures WorkerFirst(ApplyMonitor(s, step), w, id, noResults, cached)
  {
  }

  lemma WorkerFirstStep(s: State, step: Label, w: nat, id: nat, noResults: bool, cached: seq<ScoredFile>)
    requires WorkerFirst(s, w, id, noResults, cached) && Enabled(s, step) && ByTheTwo(step, w)
    ensures WorkerFirst(Apply(s, step), w, id, noResults, cached)
  {
    hide ApplyWork, WorkEnabled, ApplyMonitor, MonitorEnabled;
    WorkerHasReturned(s, w, id, noResults, cached);
    match step
    case Watch(watch) => WorkerFirstWatch(s, watch, w, id, noResults, cached);
    case Release(_) =>
  }

  lemma {:induction false} MonitorFirstRun(s: State, run: seq<Label>, w: nat, id: nat, noResults: bool,
                                         cached: seq<ScoredFile>)
    requires MonitorFirst(s, w, id, noResults, cached) && Legal(s, run) && OnlyTheTwo(run, w)
    ensures MonitorFirst(After(s, run), w, id, noResults, cached)
    decreases |run|
  {
    hide MonitorFirst, Apply, Enabled;
    if run != [] {
      assert run[0] in run;
      MonitorFirstStep(s, run[0], w, id, noResults, cached);
      MonitorFirstRun(Apply(s, run[0]), run[1..], w, id, noResults, cached);
    }
  }

  lemma {:induction false} WorkerFirstRun(s: State, run: seq<Label>, w: nat, id: nat, noResults: bool,
                                         cached: seq<ScoredFile>)
    requires WorkerFirst(s, w, id, noResults, cached) && Legal(s, run) && OnlyTheTwo(run, w)
    ensures WorkerFirst(After(s, run), w, id, noResults, cached)
    decreases |run|
  {
    hide WorkerFirst, Apply, Enabled;
    if run != [] {
      assert run[0] in run;
      WorkerFirstStep(s, run[0], w, id, noResults, cached);
      WorkerFirstRun(Apply(s, run[0]), run[1..], w, id, noResults, cached);
    }
  }

  /** What becomes of an entry whose first download is refused, once worker and monitor have both dealt
      with it in whatever order and nothing else has come between: it waits again exactly when the
      error does not count as "no results" and either another candidate is cached or the monitor took
      the report before the worker recorded. Otherwise it is gone. If it waits, both have counted a
      retry. */
  lemma RefusedFirstAttempt(s: State, w: nat, noResults: bool, run: seq<Label>)
    requires FirstAttempt(s, w)
    requires Legal(Refused(s, w, noResults), run) && OnlyTheTwo(run, w)
    requires BothDone(After(Refused(s, w, noResults), run), w)
    ensures var (t, id) := (After(Refused(s, w, noResults), run), s.workers[w].queueId);
            && (Waiting(t.rows, id) <==> !noResults && (Cached(s, id) != [] || TakenFirst(run, w)))
            && (!Waiting(t.rows, id) ==> id !in t.rows)
            && (Waiting(t.rows, id) ==> Retried(t.rows, id, 2))
            && Cached(t, id) == Cached(s, id)
  {
    var (u, id) := (Refused(s, w, noResults), s.workers[w].queueId);
    var cached := Cached(s, id);
    assert Undealt(u, w, id, noResults, cached);
    assert run[0] in run;
    UndealtStep(u, run[0], w, id, noResults, cached);
    hide Apply, Enabled;
    if run[0] == Watch(Take) {
      MonitorFirstRun(Apply(u, run[0]), run[1..], w, id, noResults, cached);
    } else {
      WorkerFirstRun(Apply(u, run[0]), run[1..], w, id, noResults, cached);
    }
  }

  // ---------------------------------------------------------------- what two reports can do

  /** The steps of the monitor for a report it takes after the worker has marked the row for retry. */
  lemma DroppedRun(s: State, id: nat) returns (run: seq<Label>)
    requires s.monitor.Idle? && s.channel == [Completion(id, false)]
    requires id in s.rows && s.rows[id].retryCount > 0 && Cached(s, id) == []
    ensures Legal(s, run) && OnlyTheTwo(run, 0)
    ensures After(s, run) == s.(rows := s.rows - {id}, cache := s.cache - {id}, channel := [])
  {
    var s1 := Apply(s, Watch(Take));
    var s2 := Apply(s1, Watch(Decide));
    var s3 := Apply(s2, Watch(Drop));
    run := Then(s3, Watch(SearchQueue.Delete), []);
    run := Then(s2, Watch(Drop), run);
    run := Then(s1, Watch(Decide), run);
    run := Then(s, Watch(Take), run);
  }

  /** A first attempt whose failure counts for a retry, with no other candidate: the worker marks the
      row for retry, and then the monitor finds that this is not the first failure and drops it. */
  lemma RetriedEntryIsDropped(listId: Option<nat>, limit: nat) returns (run: seq<Label>)
    requires limit > 0
    ensures var s := OneWorker(listId, limit, Selected, map[]);
            && FirstAttempt(s, 0) && WillRetry(Refused(s, 0, false).workers[0])
            && Legal(Refused(s, 0, false), run) && OnlyTheTwo(run, 0) && BothDone(After(Refused(s, 0, false), run), 0)
            && After(Refused(s, 0, false), run).rows == map[]
  {
    var s := Refused(OneWorker(listId, limit, Selected, map[]), 0, false);
    var s1 := Apply(s, Work(0, Record));
    var s2 := Apply(s1, Release(0));
    assert s2.rows - {0} == map[];
    run := DroppedRun(s2, 0);
    run := Then(s1, Release(0), run);
    run := Then(s, Work(0, Record), run);
  }

  /** The monitor requeues the entry before its worker records. */
  lemma RequeuedRun(listId: Option<nat>, limit: nat) returns (run: seq<Label>)
    requires limit > 0
    ensures var s := Refused(OneWorker(listId, limit, Selected, map[]), 0, false);
            && Legal(s, run)
            && After(s, run) == s.(rows := map[0 := Row(Retry, 1, 1, listId)], clock := 2, channel := [])
  {
    var s := Refused(OneWorker(listId, limit, Selected, map[]), 0, false);
    var s1 := Apply(s, Watch(Take));
    var s2 := Apply(s1, Watch(Decide));
    run := Then(s2, Watch(Requeue), []);
    run := Then(s1, Watch(Decide), run);
    run := Then(s, Watch(Take), run);
  }

  /** Why attempts have to report once for an entry to be in one place: after a refusal the monitor can
      requeue it before its worker records, and then a second worker claims it. */
  lemma RefusedEntryIsHeldTwice(listId: Option<nat>, limit: nat) returns (run: seq<Label>)
    requires limit > 1
    ensures var s := OneWorker(listId, limit, Selected, map[]);
            && Legal(Refused(s, 0, false), run)
            && var t := After(Refused(s, 0, false), run);
               Holds(t, 0, WithWorker(0)) && Holds(t, 0, WithWorker(1)) && ClaimsOf(t, 0) == 2
  {
    var first := RequeuedRun(listId, limit);
    var s := Refused(OneWorker(listId, limit, Selected, map[]), 0, false);
    var s1 := After(s, first);
    var s2 := Apply(s1, Loop(Acquire));
    run := Then(s2, Loop(Claim(0)), []);
    run := Then(s1, Loop(Acquire), run);
    RunConcat(s, first, run);
    run := first + run;
  }
}
