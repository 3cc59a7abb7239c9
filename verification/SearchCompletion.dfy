/** What becomes of entries marked 'completed': the mark is set while the download still runs, so
    somebody must come back to delete or requeue the row. */
module SearchCompletion {
  import opened Wrappers
  import opened Messages
  import opened SearchTable
  import opened SearchQueue

  predicate IsCompleted(s: State, id: nat) {
    id in s.rows && s.rows[id].status.Completed?
  }

  /** The monitor is about to delete or requeue the row. */
  predicate MonitorSettles(monitor: Monitor, id: nat) {
    match monitor
    case Fetched(completion, _) => completion.queueId == id
    case Requeuing(queueId) => queueId == id
    case Dropping(queueId) => queueId == id
    case Deleting(queueId) => queueId == id
    case _ => false
  }

  /** Somebody will still settle a completed row: a worker about to delete it, a running transfer,
      an unread report, or the monitor. */
  datatype Settler = ClosingWorker(w: nat) | RunningTransfer(w: nat) | UnreadReport(i: nat) | TheMonitor

  predicate Settles(s: State, id: nat, settler: Settler) {
    match settler
    case ClosingWorker(w) => w in s.workers && s.workers[w].queueId == id && s.workers[w].phase.Closing?
    case RunningTransfer(w) => w in s.transfers && s.transfers[w] == id
    case UnreadReport(i) => i < |s.channel| && s.channel[i].queueId == id
    case TheMonitor => MonitorSettles(s.monitor, id)
  }

  ghost predicate WillBeSettled(s: State, id: nat) {
    exists settler :: Settles(s, id, settler)
  }

  ghost predicate Covered(s: State, id: nat) {
    IsCompleted(s, id) ==> WillBeSettled(s, id)
  }

  /** Every completed row but those in `leftover` will be settled. */
  ghost predicate NoneStranded(s: State, leftover: set<nat>) {
    forall id | id !in leftover :: Covered(s, id)
  }

  /** When a worker records a running download whose row is still there, the download's end has not
      been dealt with yet. */
  ghost predicate RecordsInTime(s: State, step: Label) {
    (step.Work? && step.act.Record? && AtPhase(s, step.w, Decided(ItemInProgress))
     && s.workers[step.w].queueId in s.rows)
    ==> WillBeSettled(s, s.workers[step.w].queueId)
  }

  ghost predicate NeverStranded(s: State, run: seq<Label>, leftover: set<nat>)
    requires Legal(s, run)
    decreases |run|
  {
    NoneStranded(s, leftover) && (run == [] || NeverStranded(Apply(s, run[0]), run[1..], leftover))
  }

  ghost predicate AlwaysInTime(s: State, run: seq<Label>)
    requires Legal(s, run)
    decreases |run|
  {
    run == [] || (RecordsInTime(s, run[0]) && AlwaysInTime(Apply(s, run[0]), run[1..]))
  }

  /** A transfer is for its worker's row. */
  ghost predicate Paired(s: State) {
    forall w | w in s.workers && w in s.transfers :: s.transfers[w] == s.workers[w].queueId
  }

  lemma WorkPaired(s: State, w: nat, step: WorkerStep)
    requires Paired(s) && WorkEnabled(s, w, step)
    ensures Paired(ApplyWork(s, w, step))
  {
  }

  lemma StepPaired(s: State, step: Label)
    requires Named(s) && Paired(s) && Enabled(s, step) && !step.Restart?
    ensures Paired(Apply(s, step))
  {
    hide ApplyClient, ApplyMonitor, ApplyWork;
    match step
    case Work(w, act) => WorkPaired(s, w, act);
    case Client(client) => ClientFrame(s, client);
    case Watch(watch) => MonitorFrame(s, watch);
    case _ =>
  }

  /** Who settles the row after a step, given who was going to before it. */
  ghost function Successor(s: State, step: Label, settler: Settler): Settler {
    match step
    case Report(w, _) => if settler == RunningTransfer(w) then UnreadReport(|s.channel|) else settler
    case Watch(Take) =>
      if settler == UnreadReport(0) then TheMonitor
      else if settler.UnreadReport? then UnreadReport(settler.i - 1)
      else settler
    case _ => settler
  }

  lemma RecordKeepsSettled(s: State, w: nat, id: nat)
    requires WorkEnabled(s, w, Record) && s.workers[w].queueId == id && RecordsInTime(s, Work(w, Record))
    requires IsCompleted(ApplyWork(s, w, Record), id)
    ensures WillBeSettled(ApplyWork(s, w, Record), id)
  {
    var (t, phase) := (ApplyWork(s, w, Record), s.workers[w].phase);
    assert phase == Decided(ItemInProgress) || phase == Decided(ItemCompleted);
    if phase == Decided(ItemInProgress) {
      var settler :| Settles(s, id, settler);
      assert Settles(t, id, settler);
    } else {
      assert Settles(t, id, ClosingWorker(w));
    }
  }

  lemma WorkKeepsSettled(s: State, w: nat, step: WorkerStep, id: nat)
    requires WorkEnabled(s, w, step) && Covered(s, id) && RecordsInTime(s, Work(w, step)) && Paired(s)
    ensures Covered(ApplyWork(s, w, step), id)
  {
    if !IsCompleted(ApplyWork(s, w, step), id) {
    } else if step.Record? && s.workers[w].queueId == id {
      RecordKeepsSettled(s, w, id);
    } else {
      assert IsCompleted(s, id);
      var settler :| Settles(s, id, settler);
      assert Settles(ApplyWork(s, w, step), id, settler);
    }
  }

  /** Recording sends nobody new to settle the row. */
  lemma RecordShowsInTime(s: State, w: nat)
    requires WorkEnabled(s, w, Record) && Covered(ApplyWork(s, w, Record), s.workers[w].queueId)
    ensures RecordsInTime(s, Work(w, Record))
  {
    var (t, id) := (ApplyWork(s, w, Record), s.workers[w].queueId);
    if AtPhase(s, w, Decided(ItemInProgress)) && id in s.rows {
      assert IsCompleted(t, id);
      var settler :| Settles(t, id, settler);
      assert Settles(s, id, settler);
    }
  }

  lemma ClientKeepsSettled(s: State, step: ClientStep, id: nat)
    requires Covered(s, id)
    ensures Covered(ApplyClient(s, step), id)
  {
    if IsCompleted(ApplyClient(s, step), id) {
      assert IsCompleted(s, id);
      var settler :| Settles(s, id, settler);
      assert Settles(ApplyClient(s, step), id, settler);
    }
  }

  lemma LoopKeepsSettled(s: State, step: LoopStep, id: nat)
    requires Named(s) && LoopEnabled(s, step) && Covered(s, id)
    ensures Covered(ApplyLoop(s, step), id)
  {
    if IsCompleted(ApplyLoop(s, step), id) {
      assert IsCompleted(s, id);
      var settler :| Settles(s, id, settler);
      assert Settles(ApplyLoop(s, step), id, settler);
    }
  }

  lemma ReportKeepsSettled(s: State, w: nat, ok: bool, id: nat)
    requires w in s.transfers && Covered(s, id)
    ensures Covered(ApplyReport(s, w, ok), id)
  {
    if IsCompleted(ApplyReport(s, w, ok), id) {
      assert IsCompleted(s, id);
      var settler :| Settles(s, id, settler);
      assert Settles(ApplyReport(s, w, ok), id, Successor(s, Report(w, ok), settler));
    }
  }

  lemma ReleaseKeepsSettled(s: State, w: nat, id: nat)
    requires AtPhase(s, w, Finished) && Covered(s, id)
    ensures Covered(ApplyRelease(s, w), id)
  {
    if IsCompleted(ApplyRelease(s, w), id) {
      assert IsCompleted(s, id);
      var settler :| Settles(s, id, settler);
      assert Settles(ApplyRelease(s, w), id, settler);
    }
  }

  lemma UnwindKeepsSettled(s: State, w: nat, id: nat)
    requires AtPhase(s, w, Selected) && Covered(s, id)
    ensures Covered(ApplyUnwind(s, w), id)
  {
    if IsCompleted(ApplyUnwind(s, w), id) {
      assert IsCompleted(s, id);
      var settler :| Settles(s, id, settler);
      assert Settles(ApplyUnwind(s, w), id, settler);
    }
  }

  lemma WatchKeepsSettled(s: State, step: MonitorStep, id: nat)
    requires MonitorEnabled(s, step) && Covered(s, id)
    ensures Covered(ApplyMonitor(s, step), id)
  {
    if IsCompleted(ApplyMonitor(s, step), id) {
      assert IsCompleted(s, id);
      var settler :| Settles(s, id, settler);
      assert Settles(ApplyMonitor(s, step), id, Successor(s, Watch(step), settler));
    }
  }

  lemma StepCovers(s: State, step: Label, id: nat)
    requires Named(s) && Paired(s) && Enabled(s, step) && Covered(s, id) && RecordsInTime(s, step) && !step.Restart?
    ensures Covered(Apply(s, step), id)
  {
    hide Covered, RecordsInTime, Named, Paired;
    match step
    case Work(w, act) => WorkKeepsSettled(s, w, act, id);
    case Watch(watch) => WatchKeepsSettled(s, watch, id);
    case Client(client) => ClientKeepsSettled(s, client, id);
    case Loop(loop) => LoopKeepsSettled(s, loop, id);
    case Report(w, ok) => ReportKeepsSettled(s, w, ok, id);
    case Release(w) => ReleaseKeepsSettled(s, w, id);
    case Unwind(w) => UnwindKeepsSettled(s, w, id);
  }

  lemma StepStrandsNone(s: State, step: Label, leftover: set<nat>)
    requires Named(s) && Paired(s) && Enabled(s, step) && NoneStranded(s, leftover)
    requires RecordsInTime(s, step) && !step.Restart?
    ensures NoneStranded(Apply(s, step), leftover)
  {
    hide Covered, RecordsInTime, Named, Paired, Apply, Enabled;
    forall id | id !in leftover
      ensures Covered(Apply(s, step), id)
    {
      StepCovers(s, step, id);
    }
  }

  lemma StepShowsInTime(s: State, step: Label, leftover: set<nat>)
    requires Enabled(s, step) && NoneStranded(Apply(s, step), leftover) && NobodyDecided(s, leftover)
    ensures RecordsInTime(s, step)
  {
    if step.Work? && step.act.Record? {
      hide Covered;
      RecordShowsInTime(s, step.w);
    }
  }

  // ---------------------------------------------------------------- rows nobody has to do with

  /** Nobody will change the row: it is neither waiting nor failed, no worker is at it, and no transfer,
      report or monitor is about to settle it. A worker past its record does it no harm. */
  predicate Untended(s: State, id: nat) {
    && id < s.nextId
    && (id in s.rows ==> IsCompleted(s, id) || InProgress(s.rows, id))
    && (forall w | w in s.workers && s.workers[w].queueId == id ::
          s.workers[w].phase.Finished? || (s.workers[w].phase.Closing? && !IsCompleted(s, id)))
    && (forall w | w in s.transfers :: s.transfers[w] != id)
    && (forall completion | completion in s.channel :: completion.queueId != id)
    && !MonitorSettles(s.monitor, id)
  }

  ghost predicate AllUntended(s: State, ids: set<nat>) {
    forall id | id in ids :: Untended(s, id)
  }

  ghost predicate NobodyDecided(s: State, ids: set<nat>) {
    forall w | w in s.workers && s.workers[w].phase.Decided? :: s.workers[w].queueId !in ids
  }

  /** This step deletes the row's list. */
  predicate DeletesListOf(step: Label, row: Row) {
    row.listId.Some? && step == Client(DeleteList(row.listId.value))
  }

  /** The row is as it was, or gone with its list; no further worker is on it. */
  ghost predicate LeftAlone(s: State, t: State, step: Label, id: nat) {
    && (id in t.rows <==> id in s.rows && !DeletesListOf(step, s.rows[id]))
    && (id in t.rows ==> t.rows[id] == s.rows[id])
    && (forall w | w in t.workers && t.workers[w].queueId == id :: w in s.workers && s.workers[w].queueId == id)
  }

  lemma UntendedIsNotSettled(s: State, id: nat)
    requires Untended(s, id)
    ensures !Attended(s, id) && (IsCompleted(s, id) ==> !WillBeSettled(s, id))
  {
    forall settler | IsCompleted(s, id)
      ensures !Settles(s, id, settler)
    {
      if settler.UnreadReport? && settler.i < |s.channel| {
        assert s.channel[settler.i] in s.channel;
      }
    }
  }

  lemma WorkKeepsUntended(s: State, w: nat, step: WorkerStep, id: nat)
    requires WorkEnabled(s, w, step) && Untended(s, id)
    ensures Untended(ApplyWork(s, w, step), id) && LeftAlone(s, ApplyWork(s, w, step), Work(w, step), id)
  {
    if s.workers[w].queueId == id {
      assert step.DeleteFinished?;
    } else {
      WorkElsewhere(s, w, step, id);
      WorkReportsOwn(s, w, step);
      WorkFrame(s, w, step);
      hide ApplyWork, WorkEnabled;
    }
  }

  lemma WorkElsewhere(s: State, w: nat, step: WorkerStep, id: nat)
    requires WorkEnabled(s, w, step) && s.workers[w].queueId != id
    ensures var t := ApplyWork(s, w, step);
            && (id in t.rows <==> id in s.rows) && (id in s.rows ==> t.rows[id] == s.rows[id])
            && (forall v | v in t.transfers && t.transfers[v] == id :: v in s.transfers && s.transfers[v] == id)
  {
  }

  lemma WorkReportsOwn(s: State, w: nat, step: WorkerStep)
    requires WorkEnabled(s, w, step)
    ensures forall completion | completion in ApplyWork(s, w, step).channel ::
              completion in s.channel || completion.queueId == s.workers[w].queueId
  {
  }

  lemma MonitorKeepsUntended(s: State, step: MonitorStep, id: nat)
    requires MonitorEnabled(s, step) && Untended(s, id)
    ensures Untended(ApplyMonitor(s, step), id) && LeftAlone(s, ApplyMonitor(s, step), Watch(step), id)
  {
    if step.Take? {
      assert s.channel[0] in s.channel;
    }
  }

  lemma LoopKeepsUntended(s: State, step: LoopStep, id: nat)
    requires LoopEnabled(s, step) && Untended(s, id)
    ensures Untended(ApplyLoop(s, step), id) && LeftAlone(s, ApplyLoop(s, step), Loop(step), id)
  {
  }

  lemma ClientKeepsUntended(s: State, step: ClientStep, id: nat)
    requires Untended(s, id)
    ensures Untended(ApplyClient(s, step), id) && LeftAlone(s, ApplyClient(s, step), Client(step), id)
  {
  }

  lemma RestartKeepsUntended(s: State, id: nat)
    requires Untended(s, id) && (id in s.rows ==> IsCompleted(s, id))
    ensures Untended(Apply(s, Restart), id) && LeftAlone(s, Apply(s, Restart), Restart, id)
  {
  }

  lemma StepKeepsUntended(s: State, step: Label, id: nat)
    requires Enabled(s, step) && Untended(s, id) && (step.Restart? && id in s.rows ==> IsCompleted(s, id))
    ensures Untended(Apply(s, step), id) && LeftAlone(s, Apply(s, step), step, id)
  {
    hide ApplyWork, ApplyMonitor, ApplyLoop, ApplyClient;
    match step
    case Work(w, act) => WorkKeepsUntended(s, w, act, id);
    case Watch(watch) => MonitorKeepsUntended(s, watch, id);
    case Loop(loop) => LoopKeepsUntended(s, loop, id);
    case Client(client) => ClientKeepsUntended(s, client, id);
    case Restart => RestartKeepsUntended(s, id);
    case _ =>
  }

  ghost predicate NeverDeleted(run: seq<Label>, row: Row) {
    forall step | step in run :: !DeletesListOf(step, row)
  }

  /** The row stays as it is until its list is deleted, over any run; if it is in 'processing', over any
      run without a restart. */
  lemma {:induction false} RunKeepsUntended(s: State, run: seq<Label>, id: nat)
    requires Legal(s, run) && Untended(s, id)
    requires (id in s.rows ==> IsCompleted(s, id)) || WithoutRestart(run)
    ensures var t := After(s, run);
            && Untended(t, id)
            && (id in t.rows <==> id in s.rows && NeverDeleted(run, s.rows[id]))
            && (id in t.rows ==> t.rows[id] == s.rows[id])
            && (forall w | w in t.workers && t.workers[w].queueId == id :: w in s.workers && s.workers[w].queueId == id)
    decreases |run|
  {
    hide Apply, Enabled, Untended, DeletesListOf;
    if run != [] {
      var t := Apply(s, run[0]);
      StepKeepsUntended(s, run[0], id);
      RunKeepsUntended(t, run[1..], id);
      assert run == [run[0]] + run[1..];
    }
  }

  /** A row that is completed when the server restarts stays so after every later run, further
      restarts included, exactly until its list is deleted; nobody ever has to do with it again. */
  lemma RestartStrandsCompleted(s: State, later: seq<Label>, id: nat)
    requires Inv(s) && IsCompleted(s, id) && Legal(Apply(s, Restart), later)
    ensures var t := After(Apply(s, Restart), later);
            && (id in t.rows <==> NeverDeleted(later, s.rows[id]))
            && (id in t.rows ==> IsCompleted(t, id) && !WillBeSettled(t, id))
            && forall w | w in t.workers :: t.workers[w].queueId != id
  {
    StepInv(s, Restart);
    assert Untended(Apply(s, Restart), id);
    RunKeepsUntended(Apply(s, Restart), later, id);
    UntendedIsNotSettled(After(Apply(s, Restart), later), id);
  }

  /** What a restart leads to is a server that has just started. */
  lemma RestartIsInitial(s: State)
    requires Inv(s)
    ensures Initial(Apply(s, Restart))
    ensures forall id :: IsCompleted(Apply(s, Restart), id) <==> IsCompleted(s, id)
  {
    StepInv(s, Restart);
  }

  // ---------------------------------------------------------------- when rows are stranded

  lemma StepKeepsAllUntended(s: State, step: Label, leftover: set<nat>)
    requires Enabled(s, step) && AllUntended(s, leftover) && !step.Restart?
    ensures AllUntended(Apply(s, step), leftover)
  {
    hide Untended, Apply, Enabled;
    forall id | id in leftover
      ensures Untended(Apply(s, step), id)
    {
      StepKeepsUntended(s, step, id);
    }
  }

  lemma InvMeansNamed(s: State)
    requires Inv(s)
    ensures Named(s)
  {
  }

  lemma UntendedMeansNobody(s: State, leftover: set<nat>)
    requires AllUntended(s, leftover)
    ensures NobodyDecided(s, leftover)
  {
  }

  /** Along a run of one server, no row completed in the run is ever left with nobody to settle it
      exactly when every running download is recorded in time. */
  lemma {:induction false} StrandedExactlyWhenLate(s: State, run: seq<Label>, leftover: set<nat>)
    requires Inv(s) && Paired(s) && NoneStranded(s, leftover) && AllUntended(s, leftover)
    requires Legal(s, run) && WithoutRestart(run)
    ensures NeverStranded(s, run, leftover) <==> AlwaysInTime(s, run)
    decreases |run|
  {
    hide Inv, Paired, NoneStranded, AllUntended, RecordsInTime, Apply, Enabled, Named, WellFormedTable;
    if run != [] {
      var (step, t) := (run[0], Apply(s, run[0]));
      InvMeansNamed(s);
      StepInv(s, step);
      StepPaired(s, step);
      StepKeepsAllUntended(s, step, leftover);
      UntendedMeansNobody(s, leftover);
      if RecordsInTime(s, step) {
        StepStrandsNone(s, step, leftover);
      }
      if NoneStranded(t, leftover) {
        StepShowsInTime(s, step, leftover);
        StrandedExactlyWhenLate(t, run[1..], leftover);
      }
      assert NeverStranded(t, run[1..], leftover) ==> NoneStranded(t, leftover);
    }
  }

  lemma {:induction false} NeverToTheEnd(s: State, run: seq<Label>, leftover: set<nat>)
    requires Legal(s, run) && NeverStranded(s, run, leftover)
    ensures NoneStranded(After(s, run), leftover)
    decreases |run|
  {
    hide NoneStranded, Apply, Enabled;
    if run != [] {
      NeverToTheEnd(Apply(s, run[0]), run[1..], leftover);
    }
  }

  // ---------------------------------------------------------------- a sufficient order of events

  /** The download is still running, or its end has still to be dealt with by the monitor. */
  ghost predicate Coming(s: State, id: nat) {
    exists settler :: Settles(s, id, settler) && !settler.ClosingWorker?
  }

  ghost predicate DownloadsComing(s: State) {
    forall w | AtPhase(s, w, Decided(ItemInProgress)) && s.workers[w].queueId in s.rows ::
      Coming(s, s.workers[w].queueId)
  }

  /** The monitor does not mark a row for retry while a worker that has started its download has
      not recorded it: no requeue falls between the start and the record. */
  ghost predicate RequeuesAfterRecord(s: State, step: Label) {
    step.Watch? && step.watch.Requeue? && MonitorEnabled(s, Requeue) ==>
      forall w | AtPhase(s, w, Decided(ItemInProgress)) :: s.workers[w].queueId != s.monitor.queueId
  }

  ghost predicate Orderly(s: State, run: seq<Label>)
    requires Legal(s, run)
    decreases |run|
  {
    run == [] || (RequeuesAfterRecord(s, run[0]) && Orderly(Apply(s, run[0]), run[1..]))
  }

  lemma WorkKeepsComing(s: State, w: nat, step: WorkerStep)
    requires Paired(s) && WorkEnabled(s, w, step) && DownloadsComing(s)
    ensures DownloadsComing(ApplyWork(s, w, step))
  {
    var t := ApplyWork(s, w, step);
    forall v | AtPhase(t, v, Decided(ItemInProgress)) && t.workers[v].queueId in t.rows
      ensures Coming(t, t.workers[v].queueId)
    {
      var id := t.workers[v].queueId;
      if v == w && step.StartTransfer? {
        assert Settles(t, id, RunningTransfer(w));
      } else {
        assert AtPhase(s, v, Decided(ItemInProgress)) && id in s.rows;
        var settler :| Settles(s, id, settler) && !settler.ClosingWorker?;
        assert Settles(t, id, settler);
      }
    }
  }

  lemma OtherKeepsSettler(s: State, step: Label, id: nat, settler: Settler)
    requires Named(s) && Enabled(s, step) && !step.Work? && !step.Watch? && !step.Restart?
    requires Settles(s, id, settler) && !settler.ClosingWorker?
    ensures Settles(Apply(s, step), id, Successor(s, step, settler))
  {
    hide ApplyClient, ApplyLoop, LoopEnabled;
    match step
    case Client(client) => ClientFrame(s, client);
    case Loop(loop) => LoopFrame(s, loop);
    case _ =>
  }

  lemma OtherKeepsComing(s: State, step: Label)
    requires Named(s) && Enabled(s, step) && DownloadsComing(s) && !step.Work? && !step.Watch? && !step.Restart?
    ensures DownloadsComing(Apply(s, step))
  {
    hide Named, Apply, Enabled, Settles;
    var t := Apply(s, step);
    forall v | AtPhase(t, v, Decided(ItemInProgress)) && t.workers[v].queueId in t.rows
      ensures Coming(t, t.workers[v].queueId)
    {
      var id := t.workers[v].queueId;
      RowWasThere(s, step, v);
      var settler :| Settles(s, id, settler) && !settler.ClosingWorker?;
      OtherKeepsSettler(s, step, id, settler);
      assert !Successor(s, step, settler).ClosingWorker?;
    }
  }

  lemma ClientAddsElsewhere(s: State, step: ClientStep, v: nat)
    requires Named(s) && v in s.workers && s.workers[v].queueId in ApplyClient(s, step).rows
    ensures s.workers[v].queueId in s.rows
  {
  }

  lemma LoopDecidesNone(s: State, step: LoopStep, v: nat)
    requires LoopEnabled(s, step) && AtPhase(ApplyLoop(s, step), v, Decided(ItemInProgress))
    ensures v in s.workers && s.workers[v] == ApplyLoop(s, step).workers[v]
    ensures s.workers[v].queueId in ApplyLoop(s, step).rows ==> s.workers[v].queueId in s.rows
  {
  }

  /** Steps of clients, the claim loop, returning workers and reports start no download, and add no
      row under a worker's number. */
  lemma RowWasThere(s: State, step: Label, v: nat)
    requires Named(s) && Enabled(s, step) && !step.Work? && !step.Watch? && !step.Restart?
    requires var t := Apply(s, step);
             AtPhase(t, v, Decided(ItemInProgress)) && t.workers[v].queueId in t.rows
    ensures AtPhase(s, v, Decided(ItemInProgress))
    ensures s.workers[v] == Apply(s, step).workers[v] && s.workers[v].queueId in s.rows
  {
    hide ApplyClient, ApplyLoop, LoopEnabled;
    match step
    case Client(client) =>
      ClientFrame(s, client);
      ClientAddsElsewhere(s, client, v);
    case Loop(loop) => LoopDecidesNone(s, loop, v);
    case _ =>
  }

  lemma MonitorKeepsComing(s: State, step: MonitorStep)
    requires MonitorEnabled(s, step) && DownloadsComing(s) && RequeuesAfterRecord(s, Watch(step))
    ensures DownloadsComing(ApplyMonitor(s, step))
  {
    var t := ApplyMonitor(s, step);
    MonitorFrame(s, step);
    forall v | AtPhase(t, v, Decided(ItemInProgress)) && t.workers[v].queueId in t.rows
      ensures Coming(t, t.workers[v].queueId)
    {
      var id := t.workers[v].queueId;
      assert AtPhase(s, v, Decided(ItemInProgress)) && id in s.rows;
      var settler :| Settles(s, id, settler) && !settler.ClosingWorker?;
      assert Settles(t, id, Successor(s, Watch(step), settler));
    }
  }

  lemma StepKeepsComing(s: State, step: Label)
    requires Named(s) && Paired(s) && Enabled(s, step) && DownloadsComing(s)
    requires RequeuesAfterRecord(s, step) && !step.Restart?
    ensures DownloadsComing(Apply(s, step))
  {
    hide DownloadsComing, RequeuesAfterRecord, Named, Paired;
    match step
    case Work(w, act) => WorkKeepsComing(s, w, act);
    case Watch(watch) => MonitorKeepsComing(s, watch);
    case _ => OtherKeepsComing(s, step);
  }

  lemma ComingStepIsInTime(s: State, step: Label)
    requires DownloadsComing(s)
    ensures RecordsInTime(s, step)
  {
    if step.Work? && AtPhase(s, step.w, Decided(ItemInProgress)) && s.workers[step.w].queueId in s.rows {
      assert Coming(s, s.workers[step.w].queueId);
    }
  }

  /** If the monitor never marks a row for retry between the start of its download and the worker's
      record, all is recorded in time. */
  lemma {:induction false} OrderlyIsInTime(s: State, run: seq<Label>)
    requires Inv(s) && Paired(s) && DownloadsComing(s) && Legal(s, run) && WithoutRestart(run) && Orderly(s, run)
    ensures AlwaysInTime(s, run)
    decreases |run|
  {
    hide Inv, Paired, DownloadsComing, RecordsInTime, RequeuesAfterRecord, Apply, Enabled, Named, WellFormedTable;
    if run != [] {
      InvMeansNamed(s);
      ComingStepIsInTime(s, run[0]);
      StepInv(s, run[0]);
      StepPaired(s, run[0]);
      StepKeepsComing(s, run[0]);
      OrderlyIsInTime(Apply(s, run[0]), run[1..]);
    }
  }

  // ---------------------------------------------------------------- no row becomes 'failed'

  predicate IsFailed(s: State, id: nat) {
    id in s.rows && s.rows[id].status.Failed?
  }

  lemma WorkFailsNone(s: State, w: nat, step: WorkerStep, id: nat)
    requires WorkEnabled(s, w, step)
    ensures IsFailed(ApplyWork(s, w, step), id) ==> IsFailed(s, id)
  {
  }

  lemma MonitorFailsNone(s: State, step: MonitorStep, id: nat)
    requires MonitorEnabled(s, step)
    ensures IsFailed(ApplyMonitor(s, step), id) ==> IsFailed(s, id)
  {
  }

  lemma ClientFailsNone(s: State, step: ClientStep, id: nat)
    ensures IsFailed(ApplyClient(s, step), id) ==> IsFailed(s, id)
  {
  }

  lemma LoopFailsNone(s: State, step: LoopStep, id: nat)
    requires LoopEnabled(s, step)
    ensures IsFailed(ApplyLoop(s, step), id) ==> IsFailed(s, id)
  {
  }

  lemma StepFailsNone(s: State, step: Label, id: nat)
    requires Enabled(s, step)
    ensures IsFailed(Apply(s, step), id) ==> IsFailed(s, id)
  {
    hide ApplyWork, ApplyMonitor, ApplyClient, ApplyLoop;
    match step
    case Client(client) => ClientFailsNone(s, client, id);
    case Loop(loop) => LoopFailsNone(s, loop, id);
    case Work(w, act) => WorkFailsNone(s, w, act, id);
    case Watch(watch) => MonitorFailsNone(s, watch, id);
    case _ =>
  }

  lemma {:induction false} RunFailsNone(s: State, run: seq<Label>, id: nat)
    requires Legal(s, run)
    ensures IsFailed(After(s, run), id) ==> IsFailed(s, id)
    decreases |run|
  {
    hide IsFailed, Apply, Enabled;
    if run != [] {
      StepFailsNone(s, run[0], id);
      RunFailsNone(Apply(s, run[0]), run[1..], id);
    }
  }

  // ---------------------------------------------------------------- the main results

  /** From any start of a server, over every run of it in which running downloads are recorded in
      time: each entry waits; or is in 'processing', and then the worker that claimed it last is at it
      exactly when its task has not unwound; or is completed, and then somebody will settle it exactly
      when it was not completed at the start already; or is 'failed' and was so at the start. */
  lemma NoEntryIsForgotten(s: State, run: seq<Label>, id: nat)
    requires Initial(s) && Legal(s, run) && WithoutRestart(run) && AlwaysInTime(s, run)
    requires id in After(s, run).rows
    ensures var t := After(s, run);
            || Waiting(t.rows, id)
            || (InProgress(t.rows, id) && id in t.claimant
                && (Responsible(t, t.claimant[id], id) <==> !LeftBehind(t, id)))
            || (IsCompleted(t, id) && (WillBeSettled(t, id) <==> !IsCompleted(s, id)))
            || (IsFailed(t, id) && IsFailed(s, id))
  {
    var (t, leftover) := (After(s, run), set other | other in s.rows && IsCompleted(s, other));
    InitialInv(s);
    RunInv(s, run);
    assert NoneStranded(s, leftover) && AllUntended(s, leftover);
    StrandedExactlyWhenLate(s, run, leftover);
    NeverToTheEnd(s, run, leftover);
    RunFailsNone(s, run, id);
    assert id !in leftover ==> Covered(t, id);
    if id in leftover {
      RunKeepsUntended(s, run, id);
      UntendedIsNotSettled(t, id);
    }
  }

  /** Nothing is leftover that could still act on the row, short of a deletion of its list. */
  ghost predicate Idle(s: State) {
    s.workers == map[] && s.transfers == map[] && s.channel == [] && s.monitor.Idle?
  }

  /** One worker, number 0, on the only entry. */
  function OneWorker(listId: Option<nat>, limit: nat, phase: Phase, transfers: map<nat, nat>): State
    requires limit > 0
  {
    State(map[0 := Row(Processing, 0, 0, listId)], 1, 1, map[], limit, limit - 1, false,
          map[0 := Worker(0, 0, phase)], 1, transfers, [], SearchQueue.Monitor.Idle, map[0 := 1], map[0 := 0], map[])
  }

  /** The worker has started its download and has not recorded it yet. */
  function Downloading(listId: Option<nat>, limit: nat): State
    requires limit > 0
  {
    OneWorker(listId, limit, Decided(ItemInProgress), map[0 := 0])
  }

  lemma FirstClaim(listId: Option<nat>, limit: nat) returns (run: seq<Label>)
    requires limit > 0
    ensures var s := Started(map[0 := Row(Pending, 0, 0, listId)], 1, 1, limit);
            Initial(s) && Legal(s, run) && After(s, run) == OneWorker(listId, limit, Claimed, map[])
  {
    var s := Started(map[0 := Row(Pending, 0, 0, listId)], 1, 1, limit);
    ClaimRun(s, 0);
    run := [Loop(Acquire)] + [Loop(Claim(0))];
    hide Legal, After;
  }

  lemma FirstDownload(listId: Option<nat>, limit: nat, file: ScoredFile) returns (run: seq<Label>)
    requires limit > 0
    ensures Legal(OneWorker(listId, limit, Claimed, map[]), run)
    ensures After(OneWorker(listId, limit, Claimed, map[]), run) == Downloading(listId, limit)
  {
    var s := OneWorker(listId, limit, Claimed, map[]);
    var s1 := Apply(s, Work(0, Verify));
    var s2 := Apply(s1, Work(0, SearchFinds([file])));
    assert s2 == OneWorker(listId, limit, Selected, map[]);
    RunFrom(s2, Work(0, StartTransfer), []);
    RunFrom(s1, Work(0, SearchFinds([file])), [Work(0, StartTransfer)]);
    run := [Work(0, SearchFinds([file]))] + [Work(0, StartTransfer)];
    RunFrom(s, Work(0, Verify), run);
    run := [Work(0, Verify)] + run;
  }

  /** A server that has just started on one waiting entry gets there. */
  lemma DownloadingIsReached(listId: Option<nat>, limit: nat, file: ScoredFile) returns (run: seq<Label>)
    requires limit > 0
    ensures var s := Started(map[0 := Row(Pending, 0, 0, listId)], 1, 1, limit);
            Initial(s) && Legal(s, run) && After(s, run) == Downloading(listId, limit)
  {
    var claim := FirstClaim(listId, limit);
    var download := FirstDownload(listId, limit, file);
    RunConcat(Started(map[0 := Row(Pending, 0, 0, listId)], 1, 1, limit), claim, download);
    run := claim + download;
  }

  /** The transfer fails and the monitor marks the entry for retry, all before the worker records. */
  function RetriedEarly(listId: Option<nat>, limit: nat): State
    requires limit > 0
  {
    Downloading(listId, limit).(rows := map[0 := Row(Retry, 1, 1, listId)], clock := 2, transfers := map[])
  }

  lemma EarlyFailure(listId: Option<nat>, limit: nat) returns (run: seq<Label>)
    requires limit > 0
    ensures Legal(Downloading(listId, limit), run)
    ensures After(Downloading(listId, limit), run) == RetriedEarly(listId, limit)
  {
    var s := Downloading(listId, limit);
    var s1 := Apply(s, Report(0, false));
    var s2 := Apply(s1, Watch(Take));
    var s3 := Apply(s2, Watch(Decide));
    assert Apply(s3, Watch(Requeue)) == RetriedEarly(listId, limit);
    RunFrom(s3, Watch(Requeue), []);
    RunFrom(s2, Watch(Decide), [Watch(Requeue)]);
    run := [Watch(Decide)] + [Watch(Requeue)];
    RunFrom(s1, Watch(Take), run);
    run := [Watch(Take)] + run;
    RunFrom(s, Report(0, false), run);
    run := [Report(0, false)] + run;
  }

  lemma LateRecord(listId: Option<nat>, limit: nat) returns (run: seq<Label>)
    requires limit > 0
    ensures Legal(RetriedEarly(listId, limit), run)
    ensures var t := After(RetriedEarly(listId, limit), run);
            IsCompleted(t, 0) && Idle(t) && !WillBeSettled(t, 0)
  {
    var s := RetriedEarly(listId, limit);
    var s1 := Apply(s, Work(0, Record));
    RunFrom(s1, Release(0), []);
    RunFrom(s, Work(0, Record), [Release(0)]);
    run := [Work(0, Record)] + [Release(0)];
    assert s1.rows[0] == Row(Completed, 1, 1, listId);
    assert Apply(s1, Release(0)).workers == map[];
  }

  /** When the transfer fails before its worker has recorded the attempt, the retry mark is
      overwritten and the entry stays completed with nobody to settle it. */
  lemma EarlyFailureStrandsEntry(listId: Option<nat>, limit: nat) returns (run: seq<Label>)
    requires limit > 0
    ensures Legal(Downloading(listId, limit), run)
    ensures var t := After(Downloading(listId, limit), run);
            IsCompleted(t, 0) && Idle(t) && !WillBeSettled(t, 0)
  {
    var early := EarlyFailure(listId, limit);
    var late := LateRecord(listId, limit);
    RunConcat(Downloading(listId, limit), early, late);
    run := early + late;
  }
}
