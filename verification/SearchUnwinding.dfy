/** What becomes of an entry whose worker's task unwinds: it stays in 'processing' without a report to
    anyone, until the server restarts. */
module SearchUnwinding {
  import opened Wrappers
  import opened Messages
  import opened SearchTable
  import opened SearchQueue
  import opened SearchAttempts
  import opened SearchCompletion

  // ---------------------------------------------------------------- nothing but a restart helps

  /** A row in 'processing' that nobody has to do with stays exactly as it is, over every run without a
      restart, until its list is deleted; a restart then makes it wait again in its old place. */
  lemma UntendedWaitsForRestart(s: State, run: seq<Label>, id: nat)
    requires Inv(s) && InProgress(s.rows, id) && Untended(s, id)
    requires Legal(s, run) && WithoutRestart(run)
    ensures var t := After(s, run);
            && (id in t.rows <==> NeverDeleted(run, s.rows[id]))
            && (id in t.rows ==>
                  && t.rows[id] == s.rows[id] && !Attended(t, id)
                  && Apply(t, Restart).rows[id] == s.rows[id].(status := Pending))
  {
    RunKeepsUntended(s, run, id);
    hide Untended;
    UntendedIsNotSettled(After(s, run), id);
  }

  /** While a row is in one place, nobody has to do with it once it is left behind, unless a worker of an
      earlier claim is still about to record a success. */
  lemma LeftRowIsUntended(t: State, id: nat)
    requires Inv(t) && OneHolder(t) && LeftBehind(t, id)
    ensures Untended(t, id) <==> !Attended(t, id)
    ensures forall w | Responsible(t, w, id) :: Succeeding(t.workers[w].phase)
  {
    NobodyElseHolds(t, id);
    hide Inv, OneHolder;
    if !Attended(t, id) {
      forall w | w in t.workers && t.workers[w].queueId == id
        ensures t.workers[w].phase.Finished? || t.workers[w].phase.Closing?
      {
        assert !Responsible(t, w, id);
      }
    } else {
      var w :| Responsible(t, w, id);
      assert !t.workers[w].phase.Finished? && !t.workers[w].phase.Closing?;
    }
  }

  lemma NobodyElseHolds(t: State, id: nat)
    requires Inv(t) && OneHolder(t) && LeftBehind(t, id)
    ensures id < t.nextId
    ensures forall w | w in t.workers && t.workers[w].queueId == id :: !Trying(t.workers[w].phase)
    ensures forall w | w in t.transfers :: t.transfers[w] != id
    ensures forall completion | completion in t.channel :: completion.queueId != id
    ensures !MonitorSettles(t.monitor, id)
  {
    assert Holds(t, id, WithNobody);
    forall w | w in t.workers && t.workers[w].queueId == id
      ensures !Trying(t.workers[w].phase)
    {
      assert !Holds(t, id, WithWorker(w));
    }
    forall w | w in t.transfers
      ensures t.transfers[w] != id
    {
      assert !Holds(t, id, InTransfer(w));
    }
    forall i | 0 <= i < |t.channel|
      ensures t.channel[i].queueId != id
    {
      assert !Holds(t, id, InChannel(i));
    }
    assert !Holds(t, id, WithMonitor);
  }

  // ---------------------------------------------------------------- one worker for each row

  predicate Succeeding(phase: Phase) {
    phase == Decided(ItemInProgress) || phase == Decided(ItemCompleted)
  }

  /** Worker `w` is about to record a success at row `id`: nobody else is, and the row is in no place but
      where its download is. */
  ghost predicate RecordsAlone(s: State, w: nat, id: nat)
    requires w in s.workers
  {
    && (forall h | Holds(s, id, h) ::
          s.workers[w].phase == Decided(ItemInProgress) && (h.InTransfer? || h.InChannel? || h.WithMonitor?))
    && (forall v | v in s.workers && s.workers[v].queueId == id && Succeeding(s.workers[v].phase) :: v == w)
  }

  ghost predicate NoneRecordsLate(s: State) {
    forall w | w in s.workers && Succeeding(s.workers[w].phase) :: RecordsAlone(s, w, s.workers[w].queueId)
  }

  /** Every place of a row after a step comes from one before it. */
  lemma StepMoves(s: State, step: Label, id: nat, h: Holder)
    requires Inv(s) && Thrifty(s) && Enabled(s, step) && !ReportsTwice(step) && !step.Restart?
    requires id < s.nextId && Holds(Apply(s, step), id, h)
    ensures Holds(s, id, Origin(s, step, id, h))
  {
    hide ApplyClient, ApplyLoop, ApplyWork, ApplyMonitor, LoopEnabled, WorkEnabled, MonitorEnabled;
    match step
    case Client(client) => ClientMoves(s, client, id, h);
    case Loop(loop) => LoopMoves(s, loop, id, h);
    case Work(w, act) => if act.Record? { RecordMoves(s, w, id, h); } else { AttemptMoves(s, w, act, id, h); }
    case Watch(watch) => MonitorMoves(s, watch, id, h);
    case Report(w, ok) => ReportMoves(s, w, ok, id, h);
    case _ =>
  }

  /** Where a success is about to be recorded after a step, it was so before, or the step decided it. */
  lemma StepSucceeds(s: State, step: Label, w: nat)
    requires Inv(s) && Enabled(s, step) && !step.Restart?
    requires w in Apply(s, step).workers && Succeeding(Apply(s, step).workers[w].phase)
    ensures w in s.workers && Apply(s, step).workers[w].queueId == s.workers[w].queueId
    ensures s.workers[w].phase == Apply(s, step).workers[w].phase
            || (Trying(s.workers[w].phase) && step.Work? && step.w == w && !step.act.Record?)
  {
    hide ApplyClient, ApplyMonitor, MonitorEnabled, ApplyLoop, LoopEnabled, ApplyWork, WorkEnabled, Inv;
    match step
    case Loop(loop) => LoopFrame(s, loop);
    case Client(client) => ClientFrame(s, client);
    case Watch(watch) => MonitorFrame(s, watch);
    case Work(v, act) =>
      WorkFrame(s, v, act);
      if v == w {
        WorkSucceeds(s, w, act);
      }
    case _ =>
  }

  lemma WorkSucceeds(s: State, w: nat, step: WorkerStep)
    requires WorkEnabled(s, w, step) && Succeeding(ApplyWork(s, w, step).workers[w].phase)
    ensures w in s.workers && Trying(s.workers[w].phase) && !step.Record?
  {
  }

  /** A row whose success is about to be recorded does not start to wait, and nobody takes it up. */
  lemma StaysWithDownload(s: State, step: Label, w: nat, h: Holder)
    requires Inv(s) && Thrifty(s) && Enabled(s, step) && !ReportsTwice(step) && !step.Restart?
    requires NoneRecordsLate(s) && RequeuesAfterRecord(s, step)
    requires w in Apply(s, step).workers && Succeeding(Apply(s, step).workers[w].phase)
    requires Holds(Apply(s, step), Apply(s, step).workers[w].queueId, h)
    ensures Apply(s, step).workers[w].phase == Decided(ItemInProgress)
    ensures h.InTransfer? || h.InChannel? || h.WithMonitor?
  {
    StepSucceeds(s, step, w);
    var id := s.workers[w].queueId;
    assert id < s.nextId by { InvMeansNamed(s); }
    StepMoves(s, step, id, h);
    var o := Origin(s, step, id, h);
    if Succeeding(s.workers[w].phase) {
      assert RecordsAlone(s, w, id);
      hide Inv, Thrifty, NoneRecordsLate, RecordsAlone, Apply;
      OriginOfDownload(s, step, id, h);
      if step == Watch(Requeue) && s.monitor == Requeuing(id) {
        assert AtPhase(s, w, Decided(ItemInProgress));
      }
    } else {
      assert Holds(s, id, WithWorker(w)) && o == WithWorker(w);
      DecidedHasOnlyTransfer(s, step, w, h);
    }
  }

  lemma OriginOfDownload(s: State, step: Label, id: nat, h: Holder)
    requires Enabled(s, step) && !step.Restart?
    requires var o := Origin(s, step, id, h); o.InTransfer? || o.InChannel? || o.WithMonitor?
    ensures h.InTransfer? || h.InChannel? || h.WithMonitor?
            || (step == Watch(Requeue) && s.monitor == Requeuing(id))
  {
  }

  lemma DecidedHasOnlyTransfer(s: State, step: Label, w: nat, h: Holder)
    requires Enabled(s, step) && step.Work? && step.w == w && !step.act.Record? && !step.act.RefuseTwice?
    requires Succeeding(Apply(s, step).workers[w].phase)
    requires Holds(Apply(s, step), s.workers[w].queueId, h)
    requires Origin(s, step, s.workers[w].queueId, h) == WithWorker(w)
    ensures h.InTransfer? && Apply(s, step).workers[w].phase == Decided(ItemInProgress)
  {
  }

  lemma OnlyOneSucceeds(s: State, step: Label, w: nat, v: nat)
    requires Inv(s) && Enabled(s, step) && !step.Restart? && NoneRecordsLate(s)
    requires w in Apply(s, step).workers && Succeeding(Apply(s, step).workers[w].phase)
    requires v in Apply(s, step).workers && Succeeding(Apply(s, step).workers[v].phase)
    requires Apply(s, step).workers[w].queueId == Apply(s, step).workers[v].queueId
    ensures v == w
  {
    StepSucceeds(s, step, w);
    StepSucceeds(s, step, v);
    hide Inv, Apply, Enabled;
    var id := s.workers[w].queueId;
    assert Succeeding(s.workers[w].phase) ==> RecordsAlone(s, w, id);
    assert Succeeding(s.workers[v].phase) ==> RecordsAlone(s, v, id);
    assert Trying(s.workers[w].phase) ==> Holds(s, id, WithWorker(w));
    assert Trying(s.workers[v].phase) ==> Holds(s, id, WithWorker(v));
  }

  lemma RecordsAloneAfter(s: State, step: Label, w: nat)
    requires Inv(s) && Thrifty(s) && Enabled(s, step) && !ReportsTwice(step) && !step.Restart?
    requires NoneRecordsLate(s) && RequeuesAfterRecord(s, step)
    requires w in Apply(s, step).workers && Succeeding(Apply(s, step).workers[w].phase)
    ensures RecordsAlone(Apply(s, step), w, Apply(s, step).workers[w].queueId)
  {
    hide Inv, Thrifty, Apply, Enabled, RequeuesAfterRecord, NoneRecordsLate, Holds;
    var t := Apply(s, step);
    var id := t.workers[w].queueId;
    forall h | Holds(t, id, h)
      ensures t.workers[w].phase == Decided(ItemInProgress) && (h.InTransfer? || h.InChannel? || h.WithMonitor?)
    {
      StaysWithDownload(s, step, w, h);
    }
    forall v | v in t.workers && t.workers[v].queueId == id && Succeeding(t.workers[v].phase)
      ensures v == w
    {
      OnlyOneSucceeds(s, step, w, v);
    }
  }

  lemma StepRecordsAlone(s: State, step: Label)
    requires Inv(s) && Thrifty(s) && Enabled(s, step) && !ReportsTwice(step)
    requires NoneRecordsLate(s) && RequeuesAfterRecord(s, step)
    ensures NoneRecordsLate(Apply(s, step))
  {
    if !step.Restart? {
      hide Inv, Thrifty, Enabled, RequeuesAfterRecord, RecordsAlone, Apply;
      forall w | w in Apply(s, step).workers && Succeeding(Apply(s, step).workers[w].phase)
        ensures RecordsAlone(Apply(s, step), w, Apply(s, step).workers[w].queueId)
      {
        RecordsAloneAfter(s, step, w);
      }
    }
  }

  lemma {:induction false} RunRecordsAlone(s: State, run: seq<Label>)
    requires Inv(s) && Thrifty(s) && NoneRecordsLate(s) && Legal(s, run) && Orderly(s, run)
    requires ReportsOnce(run)
    ensures Inv(After(s, run)) && Thrifty(After(s, run)) && NoneRecordsLate(After(s, run))
    decreases |run|
  {
    hide Inv, Thrifty, NoneRecordsLate, RequeuesAfterRecord, Apply, Enabled;
    if run != [] {
      StepInv(s, run[0]);
      StepThrifty(s, run[0]);
      StepRecordsAlone(s, run[0]);
      RunRecordsAlone(Apply(s, run[0]), run[1..]);
    }
  }

  /** When attempts report once and the monitor never marks a row for retry between the start of its
      download and the worker's record, then at every moment: a row in 'processing' has a worker at it
      exactly when the worker of its latest claim has not unwound; and nobody has to do with one that has
      none, so that it stays until a restart. */
  lemma AttendedExactlyUnlessUnwound(s: State, run: seq<Label>, id: nat)
    requires Initial(s) && Legal(s, run) && Orderly(s, run)
    requires ReportsOnce(run)
    requires InProgress(After(s, run).rows, id)
    ensures var t := After(s, run);
            && (Attended(t, id) <==> !LeftBehind(t, id))
            && (LeftBehind(t, id) <==> Untended(t, id))
  {
    InitialInv(s);
    StartThrifty(s);
    RunRecordsAlone(s, run);
    var t := After(s, run);
    LatestClaimTends(t);
    if LeftBehind(t, id) {
      LeftRowIsUntended(t, id);
      assert Holds(t, id, WithNobody);
      assert forall w | w in t.workers && t.workers[w].queueId == id :: !Succeeding(t.workers[w].phase);
    } else {
      assert Responsible(t, t.claimant[id], id);
    }
  }

  /** This step deals with the row on behalf of somebody other than the worker that unwound: a late
      record, or the end of an earlier report. */
  predicate SettlesLate(s: State, step: Label, id: nat) {
    || (step.Work? && step.act.Record? && step.w in s.workers && s.workers[step.w].queueId == id)
    || (step.Watch? && step.watch.Succeed? && s.monitor.Fetched? && s.monitor.completion.queueId == id)
    || (step == Watch(Requeue) && s.monitor == Requeuing(id))
    || (step == Watch(SearchQueue.Delete) && s.monitor == Deleting(id))
  }

  /** A row left behind leaves 'processing' exactly in a restart, with its list, or when an earlier
      attempt at it is settled late; in any other step it stays left behind. */
  lemma LeftRowLeavesExactly(s: State, step: Label, id: nat)
    requires Inv(s) && LeftBehind(s, id) && Enabled(s, step)
    ensures var t := Apply(s, step);
            && (LeftBehind(t, id) <==> InProgress(t.rows, id))
            && (InProgress(t.rows, id) <==>
                  !step.Restart? && !DeletesListOf(step, s.rows[id]) && !SettlesLate(s, step, id))
  {
    hide Inv, ApplyClient, ApplyLoop, ApplyWork, ApplyMonitor, LoopEnabled, WorkEnabled, MonitorEnabled;
    match step
    case Client(client) => LeftByClient(s, client, id);
    case Loop(loop) => LeftByLoop(s, loop, id);
    case Work(w, act) => LeftByWork(s, w, act, id);
    case Watch(watch) => LeftByMonitor(s, watch, id);
    case Unwind(w) => InvMeansNamed(s);
    case _ =>
  }

  lemma LeftByClient(s: State, step: ClientStep, id: nat)
    requires Inv(s) && LeftBehind(s, id)
    ensures var t := ApplyClient(s, step);
            && (LeftBehind(t, id) <==> InProgress(t.rows, id))
            && (InProgress(t.rows, id) <==> !DeletesListOf(Client(step), s.rows[id]))
  {
    hide Named, Staffed, PendingUnclaimed, PermitsBalance;
  }

  lemma LeftByLoop(s: State, step: LoopStep, id: nat)
    requires LeftBehind(s, id) && LoopEnabled(s, step)
    ensures LeftBehind(ApplyLoop(s, step), id)
  {
  }

  lemma LeftByWork(s: State, w: nat, step: WorkerStep, id: nat)
    requires LeftBehind(s, id) && WorkEnabled(s, w, step)
    ensures var t := ApplyWork(s, w, step);
            && (LeftBehind(t, id) <==> InProgress(t.rows, id))
            && (InProgress(t.rows, id) <==> !SettlesLate(s, Work(w, step), id))
  {
  }

  lemma LeftByMonitor(s: State, step: MonitorStep, id: nat)
    requires LeftBehind(s, id) && MonitorEnabled(s, step)
    ensures var t := ApplyMonitor(s, step);
            && (LeftBehind(t, id) <==> InProgress(t.rows, id))
            && (InProgress(t.rows, id) <==> !SettlesLate(s, Watch(step), id))
  {
  }

  // ---------------------------------------------------------------- rows left behind add up

  function Below(k: nat): (numbers: set<nat>)
    ensures |numbers| == k && forall i :: i in numbers <==> 0 <= i < k
  {
    if k == 0 then {} else Below(k - 1) + {k - 1}
  }

  function PiledRows(k: nat, j: nat): Table {
    map i | i in Below(k) :: Row(if i < j then Processing else Pending, i, 0, None)
  }

  function Numbered(j: nat): map<nat, nat> {
    map i | i in Below(j) :: i
  }

  function Once(j: nat): map<nat, nat> {
    map i | i in Below(j) :: 1
  }

  /** `k` entries, the first `j` of them left behind. */
  function Piled(k: nat, j: nat, limit: nat): State
    requires j <= k
  {
    State(PiledRows(k, j), k, k, map[], limit, limit, false, map[], j, map[], [], SearchQueue.Monitor.Idle,
          Once(j), Numbered(j), Numbered(j))
  }

  lemma NextOfPile(k: nat, j: nat, limit: nat)
    requires j < k
    ensures IsNext(Piled(k, j, limit).rows, j)
  {
  }

  /** A claimed entry without cached candidates is searched for, and its worker unwinds. */
  lemma UnwindingAttempt(s: State, w: nat, file: ScoredFile) returns (run: seq<Label>)
    requires AtPhase(s, w, Claimed) && InProgress(s.rows, s.workers[w].queueId) && Cached(s, s.workers[w].queueId) == []
    ensures Legal(s, run)
    ensures After(s, run)
         == s.(workers := s.workers - {w}, permits := s.permits + 1, unwound := s.unwound[w := s.workers[w].queueId])
  {
    var s1 := Apply(s, Work(w, Verify));
    var s2 := Apply(s1, Work(w, SearchFinds([file])));
    assert Alternatives([file]) == [] && s2.cache == s.cache;
    assert Apply(s2, Unwind(w)).workers == s.workers - {w};
    RunFrom(s2, Unwind(w), []);
    RunFrom(s1, Work(w, SearchFinds([file])), [Unwind(w)]);
    RunFrom(s, Work(w, Verify), [Work(w, SearchFinds([file]))] + [Unwind(w)]);
    run := [Work(w, Verify)] + ([Work(w, SearchFinds([file]))] + [Unwind(w)]);
  }

  lemma RowsExtend(k: nat, j: nat)
    requires j < k
    ensures j in PiledRows(k, j) && PiledRows(k, j)[j].retryCount == 0
    ensures PiledRows(k, j + 1) == WithStatus(PiledRows(k, j), j, Processing)
  {
  }

  lemma HistoriesExtend(j: nat)
    ensures j !in Once(j) && Once(j + 1) == Once(j)[j := 1] && Numbered(j + 1) == Numbered(j)[j := j]
  {
  }

  lemma PileExtends(k: nat, j: nat, limit: nat)
    requires j < k && limit > 0
    ensures j in PiledRows(k, j)
    ensures var claimed := HandedOver(Piled(k, j, limit), j);
            && claimed.workers == map[j := Worker(j, 0, Claimed)] && claimed.cache == map[]
            && InProgress(claimed.rows, j)
            && claimed.(workers := map[], permits := limit, unwound := claimed.unwound[j := j])
            == Piled(k, j + 1, limit)
  {
    hide PiledRows, Once, Numbered, Below;
    RowsExtend(k, j);
    HistoriesExtend(j);
    assert HandedOver(Piled(k, j, limit), j).unwound[j := j] == Numbered(j + 1);
  }

  lemma PileGrows(k: nat, j: nat, limit: nat, file: ScoredFile) returns (run: seq<Label>)
    requires j < k && limit > 0
    ensures Legal(Piled(k, j, limit), run) && After(Piled(k, j, limit), run) == Piled(k, j + 1, limit)
  {
    hide Apply, Enabled, PiledRows, Once, Numbered, IsNext, Alternatives;
    NextOfPile(k, j, limit);
    PileExtends(k, j, limit);
    ClaimRun(Piled(k, j, limit), j);
    var (claimed, claim) := (HandedOver(Piled(k, j, limit), j), [Loop(Acquire)] + [Loop(Claim(j))]);
    var attempt := UnwindingAttempt(claimed, j, file);
    hide Legal, After;
    assert claimed.workers - {j} == map[];
    RunConcat(Piled(k, j, limit), claim, attempt);
    run := claim + attempt;
  }

  lemma {:induction false} PileRun(k: nat, j: nat, limit: nat, file: ScoredFile) returns (run: seq<Label>)
    requires j <= k && limit > 0
    ensures Legal(Piled(k, 0, limit), run) && After(Piled(k, 0, limit), run) == Piled(k, j, limit)
    decreases j
  {
    hide Piled, Apply, Enabled;
    if j == 0 {
      run := [];
    } else {
      run := PileRun(k, j - 1, limit, file);
      var more := PileGrows(k, j - 1, limit, file);
      RunConcat(Piled(k, 0, limit), run, more);
      run := run + more;
    }
  }

  /** However many entries wait, each of them can be left behind: `k` rows are then in 'processing', no
      worker is running and all permits are free, whatever the limit. */
  lemma LeftRowsAddUp(k: nat, limit: nat, file: ScoredFile) returns (run: seq<Label>)
    requires limit > 0
    ensures var s := Piled(k, 0, limit); Initial(s) && Legal(s, run)
    ensures var t := After(Piled(k, 0, limit), run);
            |InProgressRows(t.rows)| == k && t.workers == map[] && t.permits == limit && t.rows.Keys == Below(k)
  {
    FreshPile(k, limit);
    PileCount(k, k, limit);
    run := PileRun(k, k, limit, file);
    hide Initial, InProgressRows, Legal, After;
  }

  lemma FreshPile(k: nat, limit: nat)
    ensures Initial(Piled(k, 0, limit))
  {
    var s := Piled(k, 0, limit);
    assert s.claims == map[] && s.claimant == map[] && s.unwound == map[];
    assert InProgressRows(s.rows) == {};
  }

  lemma PileCount(k: nat, j: nat, limit: nat)
    requires j <= k
    ensures |InProgressRows(Piled(k, j, limit).rows)| == j
  {
    assert InProgressRows(Piled(k, j, limit).rows) == Below(j);
  }
}
