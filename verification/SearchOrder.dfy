/** The queue is first-in first-out with bounded overtaking: while a row waits, only rows that
    were ahead of it are claimed before it, and a retried row goes behind every waiting row. */
module SearchOrder {
  import opened Seqs
  import opened SearchTable
  import opened SearchQueue

  /** Row `id` waits with the stamp it has in `s`, here and after every step of the run. */
  ghost predicate KeepsWaiting(s: State, run: seq<Label>, id: nat)
    requires Legal(s, run)
    decreases |run|
  {
    && Waiting(s.rows, id)
    && (run == [] ||
        var s' := Apply(s, run[0]);
        Waiting(s'.rows, id) && s'.rows[id].createdAt == s.rows[id].createdAt && KeepsWaiting(s', run[1..], id))
  }

  function ClaimCount(run: seq<Label>): nat {
    if run == [] then 0
    else (if run[0].Loop? && run[0].loop.Claim? then 1 else 0) + ClaimCount(run[1..])
  }

  /** No row but a fresh or re-stamped one starts to wait. */
  ghost predicate NoneJumpsAhead(rows: Table, rows': Table, clock: nat) {
    forall other | Waiting(rows', other) && rows'[other].createdAt < clock ::
      Waiting(rows, other) && rows[other].createdAt == rows'[other].createdAt
  }

  lemma ClientKeepsOrder(s: State, step: ClientStep)
    requires Inv(s)
    ensures NoneJumpsAhead(s.rows, ApplyClient(s, step).rows, s.clock)
  {
  }

  lemma LoopKeepsOrder(s: State, step: LoopStep)
    requires LoopEnabled(s, step)
    ensures NoneJumpsAhead(s.rows, ApplyLoop(s, step).rows, s.clock)
  {
  }

  lemma WorkKeepsOrder(s: State, w: nat, step: WorkerStep)
    requires WorkEnabled(s, w, step)
    ensures NoneJumpsAhead(s.rows, ApplyWork(s, w, step).rows, s.clock)
  {
  }

  lemma MonitorKeepsOrder(s: State, step: MonitorStep)
    requires MonitorEnabled(s, step)
    ensures NoneJumpsAhead(s.rows, ApplyMonitor(s, step).rows, s.clock)
  {
  }

  lemma StepKeepsOrder(s: State, step: Label)
    requires Inv(s) && Enabled(s, step) && !step.Restart?
    ensures NoneJumpsAhead(s.rows, Apply(s, step).rows, s.clock)
  {
    match step
    case Client(c) => ClientKeepsOrder(s, c);
    case Loop(l) => LoopKeepsOrder(s, l);
    case Work(w, act) => WorkKeepsOrder(s, w, act);
    case Watch(m) => MonitorKeepsOrder(s, m);
    case _ =>
  }

  /** A claim of another row takes one of those ahead; no step adds to them. */
  lemma StepShrinksAhead(s: State, step: Label, id: nat)
    requires Inv(s) && Enabled(s, step) && !step.Restart? && Waiting(s.rows, id)
    requires Waiting(Apply(s, step).rows, id) && Apply(s, step).rows[id].createdAt == s.rows[id].createdAt
    ensures |Ahead(Apply(s, step).rows, id)| + ClaimCount([step]) <= |Ahead(s.rows, id)|
  {
    var rows, rows' := s.rows, Apply(s, step).rows;
    StepKeepsOrder(s, step);
    assert Ahead(rows', id) <= Ahead(rows, id);
    SubsetSize(Ahead(rows', id), Ahead(rows, id));
    assert ClaimCount([step]) == if step.Loop? && step.loop.Claim? then 1 else 0;
    if step.Loop? && step.loop.Claim? {
      ClaimTakesFromAhead(s, step.loop.id, id);
    }
  }

  lemma ClaimTakesFromAhead(s: State, claimed: nat, id: nat)
    requires Inv(s) && LoopEnabled(s, Claim(claimed)) && Waiting(s.rows, id)
    requires Waiting(ApplyLoop(s, Claim(claimed)).rows, id)
    ensures |Ahead(ApplyLoop(s, Claim(claimed)).rows, id)| + 1 <= |Ahead(s.rows, id)|
  {
    var rows, rows' := s.rows, ApplyLoop(s, Claim(claimed)).rows;
    assert claimed != id;
    assert claimed in Ahead(rows, id);
    assert Ahead(rows', id) <= Ahead(rows, id) - {claimed};
    SubsetSize(Ahead(rows', id), Ahead(rows, id) - {claimed});
  }

  lemma ClaimCountSplit(run: seq<Label>)
    requires run != []
    ensures ClaimCount(run) == ClaimCount([run[0]]) + ClaimCount(run[1..])
  {
  }

  /** While a row waits, the claims made number at most the rows that were ahead of it. */
  lemma BoundedOvertaking(s: State, run: seq<Label>, id: nat)
    requires Inv(s) && Legal(s, run) && WithoutRestart(run) && KeepsWaiting(s, run, id)
    ensures Waiting(After(s, run).rows, id)
    ensures ClaimCount(run) + |Ahead(After(s, run).rows, id)| <= |Ahead(s.rows, id)|
    decreases |run|
  {
    if run != [] {
      StepShrinksAhead(s, run[0], id);
      StepInv(s, run[0]);
      BoundedOvertaking(Apply(s, run[0]), run[1..], id);
      ClaimCountSplit(run);
    }
  }

  /** The row at the head of the queue is the only one that can be claimed next. */
  lemma HeadIsNext(s: State, id: nat, claimed: nat)
    requires Inv(s) && Waiting(s.rows, id) && |Ahead(s.rows, id)| == 0
    requires Enabled(s, Loop(Claim(claimed)))
    ensures claimed == id
  {
    assert Ahead(s.rows, id) == {};
    assert claimed !in Ahead(s.rows, id);
  }

  /** A retry mark, by a worker or by the monitor, puts the row behind all that wait. */
  lemma RetryGoesLast(s: State, step: Label, id: nat)
    requires Inv(s) && Enabled(s, step) && Requeues(s, step, id) && !step.Restart?
    ensures var rows := Apply(s, step).rows;
            && Waiting(rows, id)
            && (forall other :: other != id && Waiting(s.rows, other) <==> other in Ahead(rows, id))
  {
    if step.Watch? {
      MonitorRetryGoesLast(s, step.watch, id);
    } else {
      WorkerRetryGoesLast(s, step.w, step.act, id);
    }
  }

  lemma MonitorRetryGoesLast(s: State, step: MonitorStep, id: nat)
    requires Inv(s) && MonitorEnabled(s, step) && Requeues(s, Watch(step), id)
    ensures var rows := ApplyMonitor(s, step).rows;
            && Waiting(rows, id)
            && (forall other :: other != id && Waiting(s.rows, other) <==> other in Ahead(rows, id))
  {
  }

  lemma WorkerRetryGoesLast(s: State, w: nat, step: WorkerStep, id: nat)
    requires Inv(s) && WorkEnabled(s, w, step) && Requeues(s, Work(w, step), id)
    ensures var rows := ApplyWork(s, w, step).rows;
            && Waiting(rows, id)
            && (forall other :: other != id && Waiting(s.rows, other) <==> other in Ahead(rows, id))
  {
  }
}
