/** The upload queue: requests are admitted and appended while checks, serialised by a
    compare-and-swap flag, take entries off the front and start uploads under a slot limit. A step
    is one atomic operation, one lock-held region, or one spawn. */
module UploadQueue {
  import opened Wrappers
  import opened Bytes
  import opened Seqs
  import opened Text
  import Throttle = TokenBucket

  datatype Entry = Entry(id: nat, username: Bytes, path: Bytes)

  datatype Config = Config(slots: nat, speedKbps: nat, enabled: bool)

  /** A request that passed the config and share checks; then it draws its number and is pushed. */
  datatype Request = Admitted(username: Bytes, path: Bytes) | Numbered(entry: Entry)

  /** A check that has won the flag. */
  datatype Check =
    | Entered
    | Configured(slots: nat)
    | Measured(slots: nat, available: nat)
    | Popped(slots: nat, toStart: seq<Entry>)
    | Starting(slots: nat, toStart: seq<Entry>)
    | Counted(slots: nat, entry: Entry, rest: seq<Entry>)    // active count raised, task not yet spawned

  /** What became of an entry that left the queue. */
  datatype Fate = Started(entry: Entry) | Dropped(entry: Entry)

  datatype State = State(
    config: Config,
    clientSet: bool,
    nextId: nat,
    requests: map<nat, Request>,
    queue: seq<Entry>,
    active: int,                    // an unsigned counter; it never falls below 0 (SlotInv)
    checking: bool,
    checks: map<nat, Check>,
    owner: nat,                     // history: the check that last won the flag
    running: set<nat>,              // ids of spawned uploads that have not ended
    accepted: seq<Entry>,           // history: every entry pushed, in order
    fates: seq<Fate>,               // history: every entry popped and settled, in order
    finished: set<nat>)             // history: ids of uploads that have ended

  datatype RequestStep = Admit(username: Bytes, path: Bytes) | Number | Push

  datatype CheckStep =
    | Enter
    | ReadConfig
    | LoadActive
    | Pop
    | ReadClient
    | Count
    | Spawn
    | Leave

  datatype Label =
    | Handle(r: nat, request: RequestStep)
    | Run(c: nat, check: CheckStep)
    | Finish(id: nat)
    | Configure(config: Config)
    | SetClient

  function Initial(config: Config, clientSet: bool): State {
    State(config, clientSet, 1, map[], [], 0, false, map[], 0, {}, [], [], {})
  }

  function Min(a: nat, b: nat): nat {
    if a <= b then a else b
  }

  function AllDropped(entries: seq<Entry>): seq<Fate> {
    Map(entries, entry => Dropped(entry))
  }

  function AllStarted(entries: seq<Entry>): (fates: seq<Fate>)
    ensures |fates| == |entries|
  {
    Map(entries, entry => Started(entry))
  }

  function EntryOf(fate: Fate): Entry {
    fate.entry
  }

  function Settled(s: State): seq<Entry> {
    Map(s.fates, EntryOf)
  }

  // ---------------------------------------------------------------- steps

  predicate HandleEnabled(s: State, r: nat, step: RequestStep) {
    match step
    case Admit(_, _) => s.config.enabled && r !in s.requests
    case Number => r in s.requests && s.requests[r].Admitted?
    case Push => r in s.requests && s.requests[r].Numbered?
  }

  function ApplyHandle(s: State, r: nat, step: RequestStep): State
    requires HandleEnabled(s, r, step)
  {
    match step
    case Admit(username, path) => s.(requests := s.requests[r := Admitted(username, path)])
    case Number =>
      var entry := Entry(s.nextId, s.requests[r].username, s.requests[r].path);
      s.(requests := s.requests[r := Numbered(entry)], nextId := s.nextId + 1)
    case Push =>
      var entry := s.requests[r].entry;
      s.(requests := s.requests - {r}, queue := s.queue + [entry], accepted := s.accepted + [entry])
  }

  predicate RunEnabled(s: State, c: nat, step: CheckStep) {
    if step.Enter? then !s.checking && c !in s.checks
    else
      && c in s.checks
      && var check := s.checks[c];
         match step
         case Enter => false
         case ReadConfig => check.Entered?
         case LoadActive => check.Configured?
         case Pop => check.Measured?
         case ReadClient => check.Popped?
         case Count => check.Starting? && check.toStart != []
         case Spawn => check.Counted?
         case Leave => check.Starting? && check.toStart == []
  }

  /** The flag is cleared by every way out of a check. */
  function Exited(s: State, c: nat): State {
    s.(checks := s.checks - {c}, checking := false)
  }

  function ApplyRun(s: State, c: nat, step: CheckStep): State
    requires RunEnabled(s, c, step)
  {
    match step
    case Enter => s.(checking := true, owner := c, checks := s.checks[c := Entered])
    case ReadConfig =>
      if !s.config.enabled then Exited(s, c)
      else s.(checks := s.checks[c := Configured(s.config.slots)])
    case LoadActive =>
      var slots := s.checks[c].slots;
      if s.active >= slots then Exited(s, c)
      else s.(checks := s.checks[c := Measured(slots, slots - s.active)])
    case Pop =>
      var k := Min(s.checks[c].available, |s.queue|);
      s.(queue := s.queue[k..], checks := s.checks[c := Popped(s.checks[c].slots, s.queue[..k])])
    case ReadClient =>
      var (slots, toStart) := (s.checks[c].slots, s.checks[c].toStart);
      if s.clientSet then s.(checks := s.checks[c := Starting(slots, toStart)])
      else Exited(s, c).(fates := s.fates + AllDropped(toStart))
    case Count =>
      var (slots, toStart) := (s.checks[c].slots, s.checks[c].toStart);
      s.(active := s.active + 1, checks := s.checks[c := Counted(slots, toStart[0], toStart[1..])])
    case Spawn =>
      var (slots, entry, rest) := (s.checks[c].slots, s.checks[c].entry, s.checks[c].rest);
      s.(running := s.running + {entry.id}, fates := s.fates + [Started(entry)],
         checks := s.checks[c := Starting(slots, rest)])
    case Leave => Exited(s, c)
  }

  predicate Enabled(s: State, step: Label) {
    match step
    case Handle(r, request) => HandleEnabled(s, r, request)
    case Run(c, check) => RunEnabled(s, c, check)
    case Finish(id) => id in s.running
    case Configure(_) => true
    case SetClient => true
  }

  function Apply(s: State, step: Label): State
    requires Enabled(s, step)
  {
    match step
    case Handle(r, request) => ApplyHandle(s, r, request)
    case Run(c, check) => ApplyRun(s, c, check)
    case Finish(id) => s.(running := s.running - {id}, active := s.active - 1, finished := s.finished + {id})
    case Configure(config) => s.(config := config)
    case SetClient => s.(clientSet := true)
  }

  predicate Legal(s: State, run: seq<Label>)
    decreases |run|
  {
    run == [] || (Enabled(s, run[0]) && Legal(Apply(s, run[0]), run[1..]))
  }

  function After(s: State, run: seq<Label>): State
    requires Legal(s, run)
    decreases |run|
  {
    if run == [] then s else After(Apply(s, run[0]), run[1..])
  }

  // ---------------------------------------------------------------- checks and slots

  /** The entries a check has taken off the queue and not yet settled. */
  function Held(check: Check): seq<Entry> {
    match check
    case Popped(_, toStart) => toStart
    case Starting(_, toStart) => toStart
    case Counted(_, entry, rest) => [entry] + rest
    case _ => []
  }

  function InHand(s: State): seq<Entry> {
    if s.owner in s.checks then Held(s.checks[s.owner]) else []
  }

  function Counting(s: State): nat {
    if s.owner in s.checks && s.checks[s.owner].Counted? then 1 else 0
  }

  /** What a check may still add stays within the limit it read. */
  predicate WithinSlots(check: Check, active: int) {
    match check
    case Entered => true
    case Configured(_) => true
    case Measured(slots, available) => active + available <= slots
    case Popped(slots, toStart) => active + |toStart| <= slots
    case Starting(slots, toStart) => active + |toStart| <= slots
    case Counted(slots, _, rest) => active + |rest| <= slots
  }

  /** The flag is up exactly while a check is under way, and there is no other. */
  ghost predicate ChecksExclude(s: State) {
    && s.checking == (s.owner in s.checks)
    && forall c | c in s.checks :: c == s.owner
  }

  ghost predicate SlotInv(s: State) {
    && ChecksExclude(s)
    && (forall c | c in s.checks :: WithinSlots(s.checks[c], s.active))
    && s.active == |s.running| + Counting(s)
  }

  // ---------------------------------------------------------------- entries and uploads

  function StartedIds(fates: seq<Fate>): set<nat> {
    set i | 0 <= i < |fates| && fates[i].Started? :: fates[i].entry.id
  }

  ghost predicate DistinctIds(entries: seq<Entry>) {
    forall i, j | 0 <= i < j < |entries| :: entries[i].id != entries[j].id
  }

  /** Numbers are never given twice: not to accepted entries, not to those still to be pushed. */
  ghost predicate NumberInv(s: State) {
    && DistinctIds(s.accepted)
    && (forall entry | entry in s.accepted :: entry.id < s.nextId)
    && (forall r | r in s.requests && s.requests[r].Numbered? ::
          s.requests[r].entry.id < s.nextId
          && forall entry | entry in s.accepted :: entry.id != s.requests[r].entry.id)
    && (forall q, r | q in s.requests && r in s.requests && q != r
                      && s.requests[q].Numbered? && s.requests[r].Numbered? ::
          s.requests[q].entry.id != s.requests[r].entry.id)
  }

  ghost predicate OrderInv(s: State) {
    s.accepted == Settled(s) + InHand(s) + s.queue
  }

  ghost predicate TaskInv(s: State) {
    s.running + s.finished == StartedIds(s.fates) && s.running !! s.finished
  }

  ghost predicate Inv(s: State) {
    SlotInv(s) && NumberInv(s) && OrderInv(s) && TaskInv(s)
  }

  lemma PushInv(s: State, r: nat)
    requires Inv(s) && HandleEnabled(s, r, Push)
    ensures Inv(ApplyHandle(s, r, Push))
  {
    hide Map, StartedIds;
    var t := ApplyHandle(s, r, Push);
    assert InHand(t) == InHand(s) && Settled(t) == Settled(s);
    PushKeepsOrder(Settled(s) + InHand(s), s.queue, s.requests[r].entry);
  }

  lemma HandleInv(s: State, r: nat, step: RequestStep)
    requires Inv(s) && HandleEnabled(s, r, step)
    ensures Inv(ApplyHandle(s, r, step))
  {
    hide Map, StartedIds;
    if step.Push? {
      PushInv(s, r);
    } else {
      var t := ApplyHandle(s, r, step);
      assert InHand(t) == InHand(s) && Settled(t) == Settled(s);
      DrawKeepsNumbers(s, r, step);
      hide NumberInv;
    }
  }

  lemma DrawKeepsNumbers(s: State, r: nat, step: RequestStep)
    requires NumberInv(s) && HandleEnabled(s, r, step) && !step.Push?
    ensures NumberInv(ApplyHandle(s, r, step))
  {
  }

  lemma PushKeepsOrder(front: seq<Entry>, queue: seq<Entry>, entry: Entry)
    ensures (front + queue) + [entry] == front + (queue + [entry])
  {
  }

  lemma SplitKeepsOrder(front: seq<Entry>, queue: seq<Entry>, k: nat)
    requires k <= |queue|
    ensures (front + []) + queue == (front + queue[..k]) + queue[k..]
  {
  }

  lemma {:induction false} DroppedEntries(entries: seq<Entry>)
    ensures Map(AllDropped(entries), EntryOf) == entries
    ensures StartedIds(AllDropped(entries)) == {}
  {
  }

  lemma StartedIdsConcat(a: seq<Fate>, b: seq<Fate>)
    ensures StartedIds(a + b) == StartedIds(a) + StartedIds(b)
  {
    forall id | id in StartedIds(b)
      ensures id in StartedIds(a + b)
    {
      var i :| 0 <= i < |b| && b[i].Started? && b[i].entry.id == id;
      assert (a + b)[|a| + i] == b[i];
    }
    forall id | id in StartedIds(a)
      ensures id in StartedIds(a + b)
    {
      var i :| 0 <= i < |a| && a[i].Started? && a[i].entry.id == id;
      assert (a + b)[i] == a[i];
    }
  }

  /** The next entry to start has a number no started upload has. */
  lemma NextIsNew(s: State, entry: Entry, rest: seq<Entry>)
    requires NumberInv(s) && OrderInv(s) && InHand(s) == [entry] + rest
    ensures entry.id !in StartedIds(s.fates)
  {
    assert s.accepted[|s.fates|] == InHand(s)[0] == entry;
    forall i | 0 <= i < |s.fates|
      ensures s.fates[i].entry.id != entry.id
    {
      assert s.accepted[i] == Settled(s)[i] == s.fates[i].entry;
    }
  }

  /** The steps of a check that move no entry and spawn nothing. */
  lemma QuietStepInv(s: State, c: nat, step: CheckStep)
    requires Inv(s) && RunEnabled(s, c, step) && !step.Pop? && !step.ReadClient? && !step.Spawn?
    ensures Inv(ApplyRun(s, c, step))
  {
    hide Map, StartedIds, DistinctIds;
    var t := ApplyRun(s, c, step);
    assert Settled(t) == Settled(s);
    assert InHand(t) == InHand(s) && t.queue == s.queue && t.accepted == s.accepted;
  }

  lemma PopInv(s: State, c: nat)
    requires Inv(s) && RunEnabled(s, c, Pop)
    ensures Inv(ApplyRun(s, c, Pop))
  {
    hide Map, StartedIds, DistinctIds;
    SplitKeepsOrder(Settled(s), s.queue, Min(s.checks[c].available, |s.queue|));
  }

  lemma ReadClientInv(s: State, c: nat)
    requires Inv(s) && RunEnabled(s, c, ReadClient)
    ensures Inv(ApplyRun(s, c, ReadClient))
  {
    hide Map, StartedIds, AllDropped, DistinctIds;
    var (t, toStart) := (ApplyRun(s, c, ReadClient), s.checks[c].toStart);
    if s.clientSet {
      assert Settled(t) == Settled(s) && InHand(t) == InHand(s);
    } else {
      DroppedEntries(toStart);
      MapConcat(s.fates, AllDropped(toStart), EntryOf);
      StartedIdsConcat(s.fates, AllDropped(toStart));
      assert Settled(t) + [] == Settled(s) + toStart;
    }
  }

  lemma SpawnInv(s: State, c: nat)
    requires Inv(s) && RunEnabled(s, c, Spawn)
    ensures Inv(ApplyRun(s, c, Spawn))
  {
    hide Map, StartedIds, DistinctIds;
    var (t, entry, rest) := (ApplyRun(s, c, Spawn), s.checks[c].entry, s.checks[c].rest);
    NextIsNew(s, entry, rest);
    StartedIdsSnoc(s.fates, Started(entry));
    MapSnoc(s.fates, Started(entry), EntryOf);
    assert Settled(s) + ([entry] + rest) == Settled(t) + rest;
    assert entry.id !in s.running;
    SpawnKeepsSlots(s, c);
    hide SlotInv, NumberInv, RunEnabled, Settled;
    assert t.accepted == s.accepted && NumberInv(t) == NumberInv(s) by { SameNumbers(s, t); }
  }

  lemma SpawnKeepsSlots(s: State, c: nat)
    requires SlotInv(s) && RunEnabled(s, c, Spawn) && s.checks[c].entry.id !in s.running
    ensures SlotInv(ApplyRun(s, c, Spawn))
  {
  }

  lemma SameNumbers(s: State, t: State)
    requires t.accepted == s.accepted && t.nextId == s.nextId && t.requests == s.requests
    ensures NumberInv(t) == NumberInv(s)
  {
  }

  lemma StartedIdsSnoc(fates: seq<Fate>, fate: Fate)
    requires fate.Started?
    ensures StartedIds(fates + [fate]) == StartedIds(fates) + {fate.entry.id}
  {
    StartedIdsConcat(fates, [fate]);
    assert [fate][0] == fate;
  }

  lemma RunStepInv(s: State, c: nat, step: CheckStep)
    requires Inv(s) && RunEnabled(s, c, step)
    ensures Inv(ApplyRun(s, c, step))
  {
    hide Inv, ApplyRun, RunEnabled;
    match step
    case Pop => PopInv(s, c);
    case ReadClient => ReadClientInv(s, c);
    case Spawn => SpawnInv(s, c);
    case _ => QuietStepInv(s, c, step);
  }

  lemma FinishInv(s: State, id: nat)
    requires Inv(s) && id in s.running
    ensures Inv(Apply(s, Finish(id)))
  {
    hide Map, StartedIds, DistinctIds;
    var t := Apply(s, Finish(id));
    assert Settled(t) == Settled(s) && InHand(t) == InHand(s);
    assert |t.running| == |s.running| - 1;
  }

  lemma StepInv(s: State, step: Label)
    requires Inv(s) && Enabled(s, step)
    ensures Inv(Apply(s, step))
  {
    hide Map, ApplyRun, RunEnabled, ApplyHandle, HandleEnabled, StartedIds, DistinctIds;
    match step
    case Handle(r, request) => HandleInv(s, r, request);
    case Run(c, check) => RunStepInv(s, c, check);
    case Finish(id) => FinishInv(s, id);
    case _ => assert Settled(Apply(s, step)) == Settled(s);
  }

  lemma InitialInv(config: Config, clientSet: bool)
    ensures Inv(Initial(config, clientSet))
  {
    var s := Initial(config, clientSet);
    assert s.checks.Keys == {} && Settled(s) == [] && StartedIds(s.fates) == {};
    hide Map, StartedIds, Settled;
  }

  lemma {:induction false} RunInv(s: State, run: seq<Label>)
    requires Inv(s) && Legal(s, run)
    ensures Inv(After(s, run))
    decreases |run|
  {
    if run != [] {
      StepInv(s, run[0]);
      RunInv(Apply(s, run[0]), run[1..]);
    }
  }

  /** At every moment of every run: checks never overlap and the flag says whether one is under
      way; the active count is the number of running uploads (plus the one being spawned). */
  lemma ChecksNeverOverlap(config: Config, clientSet: bool, run: seq<Label>)
    requires Legal(Initial(config, clientSet), run)
    ensures var s := After(Initial(config, clientSet), run);
            && |s.checks| <= 1 && (s.checking <==> |s.checks| == 1)
            && s.active == |s.running| + (if exists c :: c in s.checks && s.checks[c].Counted? then 1 else 0)
  {
    InitialInv(config, clientSet);
    RunInv(Initial(config, clientSet), run);
    var s := After(Initial(config, clientSet), run);
    if s.checking {
      assert s.checks.Keys == {s.owner};
    } else {
      assert s.checks.Keys == {};
    }
    assert |s.checks| == |s.checks.Keys|;
  }

  /** No check raises the active count above the slot limit it read, whatever finishes or is
      reconfigured while it runs. */
  lemma CountsWithinSlots(config: Config, clientSet: bool, run: seq<Label>, c: nat)
    requires Legal(Initial(config, clientSet), run)
    requires RunEnabled(After(Initial(config, clientSet), run), c, Count)
    ensures var s := After(Initial(config, clientSet), run);
            ApplyRun(s, c, Count).active <= s.checks[c].slots
  {
    InitialInv(config, clientSet);
    RunInv(Initial(config, clientSet), run);
  }

  /** Every accepted entry is, in acceptance order, settled, held by the check under way, or still
      queued; numbers are unique; and what was started is either running or finished, not both. */
  lemma EachEntryInOnePlace(config: Config, clientSet: bool, run: seq<Label>)
    requires Legal(Initial(config, clientSet), run)
    ensures var s := After(Initial(config, clientSet), run);
            && s.accepted == Settled(s) + InHand(s) + s.queue
            && DistinctIds(s.accepted)
            && s.running + s.finished == StartedIds(s.fates) && s.running !! s.finished
  {
    InitialInv(config, clientSet);
    RunInv(Initial(config, clientSet), run);
  }

  /** An upper bound on every slot limit of a run bounds the active count. */
  predicate Capped(s: State, cap: nat) {
    && s.config.slots <= cap && s.active <= cap
    && forall c | c in s.checks && !s.checks[c].Entered? :: s.checks[c].slots <= cap
  }

  predicate ConfiguresWithin(run: seq<Label>, cap: nat) {
    forall step | step in run && step.Configure? :: step.config.slots <= cap
  }

  lemma StepCapped(s: State, step: Label, cap: nat)
    requires Inv(s) && Capped(s, cap) && Enabled(s, step)
    requires step.Configure? ==> step.config.slots <= cap
    ensures Capped(Apply(s, step), cap)
  {
    hide NumberInv, OrderInv, TaskInv;
  }

  lemma {:induction false} RunCapped(s: State, run: seq<Label>, cap: nat)
    requires Inv(s) && Capped(s, cap) && Legal(s, run) && ConfiguresWithin(run, cap)
    ensures After(s, run).active <= cap
    decreases |run|
  {
    hide Inv, Apply, Enabled;
    if run != [] {
      assert run[0] in run;
      StepCapped(s, run[0], cap);
      StepInv(s, run[0]);
      RunCapped(Apply(s, run[0]), run[1..], cap);
    }
  }

  /** While no configuration allows more than `cap` slots, no more than `cap` uploads run. */
  lemma ActiveWithinCap(config: Config, clientSet: bool, run: seq<Label>, cap: nat)
    requires Legal(Initial(config, clientSet), run) && config.slots <= cap && ConfiguresWithin(run, cap)
    ensures |After(Initial(config, clientSet), run).running| <= cap
  {
    InitialInv(config, clientSet);
    RunInv(Initial(config, clientSet), run);
    RunCapped(Initial(config, clientSet), run, cap);
  }

  // ---------------------------------------------------------------- the client

  predicate NoneDropped(fates: seq<Fate>) {
    forall fate | fate in fates :: fate.Started?
  }

  /** A check that holds entries looks for the client before it is set. */
  predicate ReadsTooEarly(s: State, step: Label)
    requires Enabled(s, step)
  {
    step.Run? && step.check.ReadClient? && !s.clientSet && s.checks[step.c].toStart != []
  }

  predicate NeverTooEarly(s: State, run: seq<Label>)
    requires Legal(s, run)
    decreases |run|
  {
    run == [] || (!ReadsTooEarly(s, run[0]) && NeverTooEarly(Apply(s, run[0]), run[1..]))
  }

  lemma AllDroppedDrops(fates: seq<Fate>, entries: seq<Entry>)
    ensures NoneDropped(fates + AllDropped(entries)) <==> NoneDropped(fates) && entries == []
  {
    var all := fates + AllDropped(entries);
    if entries != [] {
      assert all[|fates|] == Dropped(entries[0]) && all[|fates|] in all;
    } else {
      assert all == fates;
    }
  }

  lemma StartedIsNotDropped(fates: seq<Fate>, entry: Entry)
    ensures NoneDropped(fates + [Started(entry)]) <==> NoneDropped(fates)
  {
    assert forall fate | fate in fates :: fate in fates + [Started(entry)];
  }

  lemma StepDrops(s: State, step: Label)
    requires Enabled(s, step)
    ensures NoneDropped(Apply(s, step).fates) <==> NoneDropped(s.fates) && !ReadsTooEarly(s, step)
  {
    hide NoneDropped, AllDropped;
    if step.Run? && step.check.ReadClient? {
      AllDroppedDrops(s.fates, s.checks[step.c].toStart);
    } else if step.Run? && step.check.Spawn? {
      StartedIsNotDropped(s.fates, s.checks[step.c].entry);
    }
  }

  lemma {:induction false} RunDrops(s: State, run: seq<Label>)
    requires Legal(s, run)
    ensures NoneDropped(After(s, run).fates) <==> NoneDropped(s.fates) && NeverTooEarly(s, run)
    decreases |run|
  {
    hide Apply, Enabled, NoneDropped, ReadsTooEarly;
    if run != [] {
      StepDrops(s, run[0]);
      RunDrops(Apply(s, run[0]), run[1..]);
    }
  }

  /** Whenever the client is set: no entry is lost, and uploads start in acceptance order, exactly when no
      check that holds entries looks for the client before it is set. */
  lemma StartsInAcceptanceOrder(config: Config, clientSet: bool, run: seq<Label>)
    requires Legal(Initial(config, clientSet), run)
    ensures var s := After(Initial(config, clientSet), run);
            && |s.fates| <= |s.accepted|
            && (s.fates == AllStarted(s.accepted[..|s.fates|]) <==> NeverTooEarly(Initial(config, clientSet), run))
            && (NoneDropped(s.fates) <==> NeverTooEarly(Initial(config, clientSet), run))
  {
    EachEntryInOnePlace(config, clientSet, run);
    RunDrops(Initial(config, clientSet), run);
    var s := After(Initial(config, clientSet), run);
    forall i | 0 <= i < |s.fates|
      ensures s.fates[i].entry == s.accepted[i]
    {
      assert s.accepted[i] == Settled(s)[i];
    }
    if NoneDropped(s.fates) {
      forall i | 0 <= i < |s.fates|
        ensures s.fates[i] == Started(s.accepted[i])
      {
        assert s.fates[i] in s.fates;
      }
    }
  }

  /** With the client set before the first check, no check looks too early. */
  lemma {:induction false} SetClientIsNeverTooEarly(s: State, run: seq<Label>)
    requires Legal(s, run) && s.clientSet
    ensures NeverTooEarly(s, run)
    decreases |run|
  {
    hide Apply, Enabled;
    if run != [] {
      StaysSet(s, run[0]);
      SetClientIsNeverTooEarly(Apply(s, run[0]), run[1..]);
    }
  }

  lemma StaysSet(s: State, step: Label)
    requires Enabled(s, step) && s.clientSet
    ensures Apply(s, step).clientSet
  {
  }

  // ---------------------------------------------------------------- one check on its own

  function SpawnAll(s: State, entries: seq<Entry>): State
    decreases |entries|
  {
    if entries == [] then s
    else
      SpawnAll(s.(active := s.active + 1, running := s.running + {entries[0].id},
                  fates := s.fates + [Started(entries[0])]), entries[1..])
  }

  lemma {:induction false} SpawnIgnoresFlag(s: State, entries: seq<Entry>)
    ensures SpawnAll(s, entries).(checking := false) == SpawnAll(s.(checking := false), entries)
    decreases |entries|
  {
    if entries != [] {
      SpawnIgnoresFlag(s.(active := s.active + 1, running := s.running + {entries[0].id},
                          fates := s.fates + [Started(entries[0])]), entries[1..]);
    }
  }

  lemma {:induction false} SpawnAllStarts(s: State, entries: seq<Entry>)
    ensures var t := SpawnAll(s, entries);
            && t.active == s.active + |entries|
            && t.fates == s.fates + AllStarted(entries)
            && t.queue == s.queue && t.accepted == s.accepted
    decreases |entries|
  {
    if entries != [] {
      SpawnAllStarts(s.(active := s.active + 1, running := s.running + {entries[0].id},
                        fates := s.fates + [Started(entries[0])]), entries[1..]);
    }
  }

  /** What a check does when nothing else happens meanwhile: nothing, or the oldest entries that
      fit the free slots leave the queue, to be started if there is a client and lost otherwise. */
  function Checked(s: State, c: nat): State {
    var t := s.(owner := c);
    if !s.config.enabled || s.active >= s.config.slots then t
    else
      var k := Min(s.config.slots - s.active, |s.queue|);
      var u := t.(queue := s.queue[k..]);
      if s.clientSet then SpawnAll(u, s.queue[..k]) else u.(fates := s.fates + AllDropped(s.queue[..k]))
  }

  /** With a client, an undisturbed check starts the oldest entries that fit, and fills the slots
      or empties the queue. */
  lemma CheckStartsOldest(s: State, c: nat)
    requires s.config.enabled && s.clientSet && 0 <= s.active < s.config.slots
    ensures var (t, k) := (Checked(s, c), |Checked(s, c).fates| - |s.fates|);
            && 0 <= k <= |s.queue| && t.queue == s.queue[k..]
            && t.fates == s.fates + AllStarted(s.queue[..k])
            && t.active == s.active + k <= s.config.slots
            && (t.active == s.config.slots || t.queue == [])
  {
    hide SpawnAll, AllStarted;
    var k := Min(s.config.slots - s.active, |s.queue|);
    SpawnAllStarts(s.(owner := c, queue := s.queue[k..]), s.queue[..k]);
  }

  lemma RunFrom(s: State, step: Label, rest: seq<Label>)
    requires Enabled(s, step) && Legal(Apply(s, step), rest)
    ensures Legal(s, [step] + rest) && After(s, [step] + rest) == After(Apply(s, step), rest)
  {
    assert ([step] + rest)[1..] == rest;
  }

  lemma {:induction false} SpawnRun(s: State, c: nat, slots: nat, entries: seq<Entry>) returns (run: seq<Label>)
    requires c in s.checks && s.checks[c] == Starting(slots, entries)
    ensures Legal(s, run) && After(s, run) == SpawnAll(Exited(s, c), entries)
    decreases |entries|
  {
    if entries == [] {
      run := [Run(c, Leave)];
      RunFrom(s, Run(c, Leave), []);
    } else {
      var counted := Apply(s, Run(c, Count));
      var spawned := Apply(counted, Run(c, Spawn));
      var next := s.(active := s.active + 1, running := s.running + {entries[0].id},
                     fates := s.fates + [Started(entries[0])]);
      assert spawned == next.(checks := s.checks[c := Starting(slots, entries[1..])]);
      assert Exited(spawned, c) == Exited(next, c);
      run := SpawnRun(spawned, c, slots, entries[1..]);
      RunFrom(counted, Run(c, Spawn), run);
      RunFrom(s, Run(c, Count), [Run(c, Spawn)] + run);
      run := [Run(c, Count)] + ([Run(c, Spawn)] + run);
    }
  }

  /** From the free slots it measured to the end of an undisturbed check. */
  lemma MeasuredRun(s: State, c: nat) returns (run: seq<Label>)
    requires c !in s.checks && s.config.enabled && 0 <= s.active < s.config.slots && !s.checking
    ensures var slots := s.config.slots;
            var measured :=
              s.(owner := c, checking := true, checks := s.checks[c := Measured(slots, slots - s.active)]);
            Legal(measured, run) && After(measured, run) == Checked(s, c)
  {
    var slots := s.config.slots;
    var s3 := s.(owner := c, checking := true, checks := s.checks[c := Measured(slots, slots - s.active)]);
    var s4 := Apply(s3, Run(c, Pop));
    var s5 := Apply(s4, Run(c, ReadClient));
    var k := Min(slots - s.active, |s.queue|);
    if s.clientSet {
      run := SpawnRun(s5, c, slots, s.queue[..k]);
      assert Exited(s5, c) == s.(owner := c, queue := s.queue[k..]);
    } else {
      run := [];
      assert s5 == Checked(s, c);
    }
    RunFrom(s4, Run(c, ReadClient), run);
    RunFrom(s3, Run(c, Pop), [Run(c, ReadClient)] + run);
    run := [Run(c, Pop)] + ([Run(c, ReadClient)] + run);
  }

  /** The steps of an undisturbed check that finds free slots. */
  lemma BusyCheckRun(s: State, c: nat) returns (run: seq<Label>)
    requires !s.checking && c !in s.checks && s.config.enabled && 0 <= s.active < s.config.slots
    ensures Legal(s, run) && After(s, run) == Checked(s, c)
  {
    hide Checked, SpawnAll;
    var s1 := Apply(s, Run(c, Enter));
    var s2 := Apply(s1, Run(c, ReadConfig));
    run := MeasuredRun(s, c);
    var slots := s.config.slots;
    assert Apply(s2, Run(c, LoadActive))
        == s.(owner := c, checking := true, checks := s.checks[c := Measured(slots, slots - s.active)]);
    RunFrom(s2, Run(c, LoadActive), run);
    RunFrom(s1, Run(c, ReadConfig), [Run(c, LoadActive)] + run);
    run := [Run(c, ReadConfig)] + ([Run(c, LoadActive)] + run);
    RunFrom(s, Run(c, Enter), run);
    run := [Run(c, Enter)] + run;
  }

  /** An undisturbed check is a run of the machine. */
  lemma CheckIsRun(s: State, c: nat) returns (run: seq<Label>)
    requires Inv(s) && !s.checking && c !in s.checks
    ensures Legal(s, run) && After(s, run) == Checked(s, c)
  {
    if s.config.enabled && s.active < s.config.slots {
      run := BusyCheckRun(s, c);
      return;
    }
    var s1 := Apply(s, Run(c, Enter));
    var s2 := Apply(s1, Run(c, ReadConfig));
    if !s.config.enabled {
      run := [];
    } else {
      RunFrom(s2, Run(c, LoadActive), []);
      run := [Run(c, LoadActive)];
    }
    RunFrom(s1, Run(c, ReadConfig), run);
    RunFrom(s, Run(c, Enter), [Run(c, ReadConfig)] + run);
    run := [Run(c, Enter)] + ([Run(c, ReadConfig)] + run);
  }

  /** Before the client is set a check loses what it pops, and it pops exactly when there is
      something queued, sharing is on and a slot is free. */
  lemma CheckWithoutClientLosesEntries(s: State, c: nat)
    requires Inv(s) && !s.checking && !s.clientSet
    ensures var lost := |Checked(s, c).fates| - |s.fates|;
            && (lost > 0 <==> s.queue != [] && s.config.enabled && s.active < s.config.slots)
            && (forall i | 0 <= i < lost :: Checked(s, c).fates[|s.fates| + i] == Dropped(s.queue[i]))
            && Checked(s, c).running == s.running
  {
  }

  // ---------------------------------------------------------------- the object

  datatype Admission = Queued(position: nat) | Rejected(reason: Bytes)

  function RejectionReason(enabled: bool, shared: bool, path: Bytes): Bytes {
    if !enabled then Ascii("Sharing disabled")
    else if !shared then Ascii("File not shared: ") + path
    else Ascii("File not shared")
  }

  /** Admission, numbering and push without interruption. */
  lemma AdmissionIsRun(s: State, username: Bytes, path: Bytes)
    requires s.config.enabled && s.requests == map[]
    ensures var run := [Handle(0, Admit(username, path)), Handle(0, Number), Handle(0, Push)];
            && Legal(s, run)
            && var entry := Entry(s.nextId, username, path);
               After(s, run) == s.(nextId := s.nextId + 1, queue := s.queue + [entry], accepted := s.accepted + [entry])
  {
    var s1 := Apply(s, Handle(0, Admit(username, path)));
    var s2 := Apply(s1, Handle(0, Number));
    RunFrom(s2, Handle(0, Push), []);
    RunFrom(s1, Handle(0, Number), [Handle(0, Push)]);
    RunFrom(s, Handle(0, Admit(username, path)), [Handle(0, Number), Handle(0, Push)]);
    assert [Handle(0, Admit(username, path))] + [Handle(0, Number), Handle(0, Push)]
        == [Handle(0, Admit(username, path)), Handle(0, Number), Handle(0, Push)];
    assert [Handle(0, Number)] + [Handle(0, Push)] == [Handle(0, Number), Handle(0, Push)];
  }

  class UploadService {
    var config: Config
    var clientSet: bool
    var nextId: nat
    var queue: seq<Entry>
    var activeCount: int
    var checkingQueue: bool
    const throttle: Throttle.TokenBucket
    ghost var running: set<nat>
    ghost var accepted: seq<Entry>
    ghost var fates: seq<Fate>
    ghost var finished: set<nat>

    /** The machine's state between calls. */
    ghost function View(): State
      reads this
    {
      State(config, clientSet, nextId, map[], queue, activeCount, checkingQueue, map[], 0, running, accepted,
            fates, finished)
    }

    /** The throttle works at the configured speed. */
    predicate ThrottleFollows()
      reads this, throttle
    {
      throttle.rateBytesPerSec == Throttle.RateOf(config.speedKbps)
    }

    constructor (config: Config, now: real)
      ensures View() == Initial(config, false) && ThrottleFollows() && fresh(throttle)
    {
      this.config, clientSet, nextId, queue, activeCount, checkingQueue := config, false, 1, [], 0, false;
      running, accepted, fates, finished := {}, [], [], {};
      throttle := new Throttle.TokenBucket(config.speedKbps, now);
    }

    /** `shared` is the share index's answer, `onDisk` whether the file is still there. */
    method HandleQueueUpload(username: Bytes, path: Bytes, shared: bool, onDisk: bool) returns (r: Admission)
      modifies this
      ensures r.Queued? <==> old(config.enabled) && shared && onDisk
      ensures r.Rejected? ==> View() == old(View())
      ensures r.Rejected? ==> r.reason == RejectionReason(config.enabled, shared, path)
      ensures r.Queued? ==>
                var s := old(View());
                var run := [Handle(0, Admit(username, path)), Handle(0, Number), Handle(0, Push)];
                Legal(s, run) && View() == After(s, run)
      ensures r.Queued? ==> r.position == |queue|
    {
      if !config.enabled {
        return Rejected(Ascii("Sharing disabled"));
      }
      if !shared {
        return Rejected(Ascii("File not shared: ") + path);
      }
      if !onDisk {
        return Rejected(Ascii("File not shared"));
      }
      var id := nextId;
      nextId := nextId + 1;
      var entry := Entry(id, username, path);
      var position := |queue| + 1;
      queue := queue + [entry];
      accepted := accepted + [entry];
      r := Queued(position);
      AdmissionIsRun(old(View()), username, path);
    }

    /** The place of the first queued entry for this user and file, counted from 1. */
    method GetQueuePosition(username: Bytes, path: Bytes) returns (r: Option<nat>)
      ensures r.Some? <==> exists entry :: entry in queue && entry.username == username && entry.path == path
      ensures r.Some? ==> 1 <= r.value <= |queue|
      ensures r.Some? ==> queue[r.value - 1].username == username && queue[r.value - 1].path == path
      ensures r.Some? ==>
                forall entry | entry in queue[..r.value - 1] :: !(entry.username == username && entry.path == path)
    {
      for i := 0 to |queue|
        invariant forall entry | entry in queue[..i] :: !(entry.username == username && entry.path == path)
      {
        if queue[i].username == username && queue[i].path == path {
          return Some(i + 1);
        }
      }
      r := None;
    }

    /** The throttle's rate first, then the configuration; what the bucket holds stays. */
    method UpdateConfig(newConfig: Config)
      modifies `config, throttle`rateBytesPerSec
      ensures View() == Apply(old(View()), Configure(newConfig))
      ensures ThrottleFollows() && throttle.Contents() == old(throttle.Contents())
      ensures throttle.rateBytesPerSec == 1024 * newConfig.speedKbps
    {
      throttle.SetRate(newConfig.speedKbps);
      config := newConfig;
    }

    /** One check with nothing else going on; a check that finds the flag up does nothing. */
    method CheckUploadQueue()
      modifies this
      ensures View() == if old(checkingQueue) then old(View()) else Checked(old(View()), 0)
    {
      if checkingQueue {
        return;
      }
      checkingQueue := true;
      var maxSlots, enabled := config.slots, config.enabled;
      if !enabled {
        checkingQueue := false;
        return;
      }
      var active := activeCount;
      if active >= maxSlots {
        checkingQueue := false;
        return;
      }
      var slotsAvailable := maxSlots - active;
      var toStart := PopEntries(slotsAvailable);
      if !clientSet {
        fates := fates + AllDropped(toStart);
        checkingQueue := false;
        return;
      }
      ghost var popped := View();
      StartUploads(toStart);
      SpawnIgnoresFlag(popped, toStart);
      checkingQueue := false;
    }

    method PopEntries(slotsAvailable: nat) returns (toStart: seq<Entry>)
      modifies `queue
      ensures var k := Min(slotsAvailable, |old(queue)|);
              toStart == old(queue)[..k] && queue == old(queue)[k..]
    {
      toStart := [];
      var n := 0;
      while n < slotsAvailable && queue != []
        invariant n <= slotsAvailable && n + |queue| == |old(queue)|
        invariant toStart == old(queue)[..n] && queue == old(queue)[n..]
      {
        toStart := toStart + [queue[0]];
        queue := queue[1..];
        n := n + 1;
      }
    }

    /** Raises the count and spawns, entry by entry. */
    method StartUploads(toStart: seq<Entry>)
      modifies `activeCount, `running, `fates
      ensures View() == SpawnAll(old(View()), toStart)
    {
      for i := 0 to |toStart|
        invariant SpawnAll(View(), toStart[i..]) == SpawnAll(old(View()), toStart)
      {
        assert toStart[i..][1..] == toStart[i + 1..];
        activeCount := activeCount + 1;
        running := running + {toStart[i].id};
        fates := fates + [Started(toStart[i])];
      }
    }
  }
}
