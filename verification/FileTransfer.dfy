/** Chunked file transfer: the sending loop and the receiving loop joined by a connection, with
    reads and writes of any size, a throttle the sender waits for, and a fault possible at every
    point of either loop. */
module FileTransfer {
  import opened Wrappers
  import opened Bytes
  import opened Framing
  import Throttle = TokenBucket

  const BUFFER: nat := Throttle.BUFFER

  /** How the sender stands with the throttle: `consume` reads the rate once, when it is called, and
      waits with that rate. */
  datatype Throttled = NotAsked | Asked(rate: Throttle.Rate) | Granted

  /** The sender's loop variables. `chunk` is the buffer read from disk; once the throttle has
      granted it, it is being written, `sent` of it already gone. */
  datatype Sender = Sender(
    total: nat,
    drawn: nat,                  // bytes taken from the throttle
    chunk: Bytes,
    throttled: Throttled,
    sent: nat,
    emitted: Bytes,              // bytes put on the connection
    open: bool)

  /** The receiver's loop variables; `taken` counts the bytes it has read off the connection. */
  datatype Receiver = Receiver(total: nat, taken: nat, written: Bytes, open: bool, failed: bool)

  /** `rate` is the throttle's rate in bytes per second at this moment, 0 for none. */
  datatype Transfer = Transfer(sender: Sender, receiver: Receiver, rate: Throttle.Rate)

  /** What both loops work with: the file on disk, where to start, and the size agreed beforehand. */
  datatype Job = Job(file: Bytes, offset: nat, size: nat) {
    /** What lies beyond the offset; seeking past the end leaves nothing to read. */
    function Tail(): Bytes {
      if offset <= |file| then file[offset..] else []
    }
  }

  /** `consume` of that many bytes, with the rate it has read, lets the sender go on: at once without
      a rate, else when the passes at these clock readings, from the bucket as other senders left it,
      are granted. */
  predicate Grants(rate: Throttle.Rate, bytes: nat, found: Throttle.Bucket, readings: seq<real>) {
    rate == 0 || Throttle.ConsumeLoop(found, rate, bytes, readings).granted
  }

  predicate Affords(rate: Throttle.Rate, bytes: nat) {
    rate == 0 || bytes <= rate
  }

  datatype SendLabel =
    | Load(upTo: nat)            // read from disk
    | LoadFault
    | Ask(rate: Throttle.Rate)   // `consume` is called and reads the rate
    | Draw(found: Throttle.Bucket, readings: seq<real>)    // it returns
    | Emit(k: nat)               // `write_all` gets `k` more bytes out
    | EmitFault

  datatype ReceiveLabel =
    | Take(k: nat)               // read `k` bytes and write them all to disk
    | TakeThenFault(k: nat, kept: nat)
    | TakeEnd                    // the peer closed and everything has been read
    | TakeFault

  datatype Label = Send(send: SendLabel) | Receive(receive: ReceiveLabel) | SetRate(rate: Throttle.Rate)

  function Min(a: nat, b: nat): nat {
    if a <= b then a else b
  }

  /** What one read returns when it is willing to give `upTo` bytes and `waiting` are there. */
  function Chunked(upTo: nat, waiting: nat): (k: nat)
    ensures k <= BUFFER && k <= waiting && (k == 0 <==> waiting == 0)
  {
    Min(waiting, Min(BUFFER, if upTo == 0 then 1 else upTo))
  }

  /** What one disk read returns when it is willing to give `upTo` bytes: nothing only at the end. */
  function NextChunk(job: Job, total: nat, upTo: nat): (chunk: Bytes)
    ensures |chunk| <= BUFFER
    ensures chunk == [] <==> total >= |job.file|
  {
    if total >= |job.file| then []
    else job.file[total..total + Chunked(upTo, |job.file| - total)]
  }

  predicate CanSend(job: Job, s: Sender, step: SendLabel) {
    match step
    case Load(_) => s.open && s.chunk == []
    case LoadFault => s.open && s.chunk == []
    case Ask(_) => s.open && s.chunk != [] && s.throttled.NotAsked?
    case Draw(found, readings) => s.open && s.throttled.Asked? && Grants(s.throttled.rate, |s.chunk|, found, readings)
    case Emit(k) => s.open && s.throttled.Granted? && s.sent < s.sent + k <= |s.chunk|
    case EmitFault => s.open && s.throttled.Granted?
  }

  function Sent(job: Job, s: Sender, step: SendLabel): Sender
    requires CanSend(job, s, step)
  {
    match step
    case Load(upTo) =>
      var chunk := NextChunk(job, s.total, upTo);
      if chunk == [] then s.(open := false) else s.(chunk := chunk, throttled := NotAsked, sent := 0)
    case Ask(rate) => s.(throttled := Asked(rate))
    case Draw(_, _) => s.(throttled := Granted, drawn := s.drawn + |s.chunk|)
    case Emit(k) =>
      var out := s.(emitted := s.emitted + s.chunk[s.sent..s.sent + k], sent := s.sent + k);
      if out.sent < |s.chunk| then out
      else
        out.(total := s.total + |s.chunk|, chunk := [], throttled := NotAsked, sent := 0,
             open := s.total + |s.chunk| < job.size)
    case LoadFault => s.(open := false)
    case EmitFault => s.(open := false)
  }

  predicate CanReceive(n: Transfer, step: ReceiveLabel) {
    var waiting := |n.sender.emitted| - n.receiver.taken;
    match step
    case Take(k) => n.receiver.open && 1 <= k <= BUFFER && k <= waiting
    case TakeThenFault(k, kept) => n.receiver.open && 1 <= k <= BUFFER && k <= waiting && kept <= k
    case TakeEnd => n.receiver.open && !n.sender.open && waiting == 0
    case TakeFault => n.receiver.open
  }

  function Received(job: Job, n: Transfer, step: ReceiveLabel): Receiver
    requires CanReceive(n, step)
  {
    var (r, wire) := (n.receiver, n.sender.emitted);
    match step
    case Take(k) =>
      r.(written := r.written + wire[r.taken..r.taken + k], taken := r.taken + k, total := r.total + k,
         open := r.total + k < job.size)
    case TakeThenFault(k, kept) =>
      r.(written := r.written + wire[r.taken..r.taken + kept], taken := r.taken + k, open := false, failed := true)
    case TakeEnd => r.(open := false)
    case TakeFault => r.(open := false)
  }

  predicate Enabled(job: Job, n: Transfer, step: Label) {
    match step
    case Send(send) => CanSend(job, n.sender, send) && (send.Ask? ==> send.rate == n.rate)
    case Receive(receive) => CanReceive(n, receive)
    case SetRate(_) => true
  }

  function Apply(job: Job, n: Transfer, step: Label): Transfer
    requires Enabled(job, n, step)
  {
    match step
    case Send(send) => n.(sender := Sent(job, n.sender, send))
    case Receive(receive) => n.(receiver := Received(job, n, receive))
    case SetRate(rate) => n.(rate := rate)
  }

  function Start(job: Job, rate: Throttle.Rate): Transfer {
    Transfer(Sender(job.offset, 0, [], NotAsked, 0, [], true), Receiver(0, 0, [], true, false), rate)
  }

  predicate Legal(job: Job, n: Transfer, run: seq<Label>)
    decreases |run|
  {
    run == [] || (Enabled(job, n, run[0]) && Legal(job, Apply(job, n, run[0]), run[1..]))
  }

  function After(job: Job, n: Transfer, run: seq<Label>): Transfer
    requires Legal(job, n, run)
    decreases |run|
  {
    if run == [] then n else After(job, Apply(job, n, run[0]), run[1..])
  }

  // ---------------------------------------------------------------- safety on every run

  ghost predicate SenderInv(job: Job, s: Sender) {
    && s.emitted <= job.Tail() && job.offset <= s.total
    && s.total + s.sent == job.offset + |s.emitted|
    && s.drawn == s.total - job.offset + (if s.throttled.Granted? then |s.chunk| else 0)
    && (if s.chunk == [] then s.sent == 0 && s.throttled.NotAsked? else s.sent < |s.chunk| <= BUFFER)
    && (!s.throttled.Granted? ==> s.sent == 0)
    && (s.chunk != [] ==> s.total + |s.chunk| <= |job.file| && s.chunk == job.file[s.total..s.total + |s.chunk|])
    && (s.open || s.chunk != [] ==> s.total < job.size || s.total == job.offset)
    && (s.total > job.offset ==> s.total < job.size + BUFFER || s.total <= job.offset + BUFFER)
  }

  ghost predicate ReceiverInv(job: Job, n: Transfer) {
    var r := n.receiver;
    && r.taken <= |n.sender.emitted|
    && (if r.failed then !r.open && r.written <= n.sender.emitted[..r.taken]
        else r.written == n.sender.emitted[..r.taken] && r.total == r.taken)
    && (r.open ==> r.total < job.size || r.total == 0)
    && (r.total < job.size + BUFFER || r.total <= BUFFER)
  }

  ghost predicate Inv(job: Job, n: Transfer) {
    SenderInv(job, n.sender) && ReceiverInv(job, n)
  }

  /** The part of the buffer written next is the part of the file that comes next. */
  lemma NextBytes(file: Bytes, from: nat, total: nat, chunk: Bytes, sent: nat, k: nat)
    requires from <= total && total + |chunk| <= |file| && chunk == file[total..total + |chunk|]
    requires sent + k <= |chunk|
    ensures var at := total + sent - from;
            chunk[sent..sent + k] == file[from..][at..at + k]
  {
    SliceOfSlice(file, total, total + |chunk|, sent, sent + k);
    SliceOfSlice(file, from, |file|, total + sent - from, total + sent - from + k);
    assert file[from..] == file[from..|file|];
  }

  lemma SliceOfSlice(s: Bytes, a: nat, b: nat, i: nat, j: nat)
    requires a <= b <= |s| && i <= j <= b - a
    ensures s[a..b][i..j] == s[a + i..a + j]
  {
    var (x, y) := (s[a..b][i..j], s[a + i..a + j]);
    forall k | 0 <= k < |x|
      ensures x[k] == y[k]
    {
      assert x[k] == s[a..b][i + k] == s[a + (i + k)];
    }
  }

  lemma PrefixGrows(whole: Bytes, prefix: Bytes, k: nat)
    requires prefix <= whole && |prefix| + k <= |whole|
    ensures prefix + whole[|prefix|..|prefix| + k] == whole[..|prefix| + k]
  {
  }

  lemma EmitKeepsInv(job: Job, s: Sender, k: nat)
    requires SenderInv(job, s) && CanSend(job, s, Emit(k))
    ensures SenderInv(job, Sent(job, s, Emit(k)))
    ensures s.emitted <= Sent(job, s, Emit(k)).emitted
  {
    hide NextChunk;
    NextBytes(job.file, job.offset, s.total, s.chunk, s.sent, k);
    PrefixGrows(job.Tail(), s.emitted, k);
  }

  lemma SendKeepsInv(job: Job, s: Sender, step: SendLabel)
    requires SenderInv(job, s) && CanSend(job, s, step)
    ensures SenderInv(job, Sent(job, s, step))
    ensures s.emitted <= Sent(job, s, step).emitted
  {
    match step
    case Emit(k) => EmitKeepsInv(job, s, k);
    case _ =>
  }

  lemma ReceiveKeepsInv(job: Job, n: Transfer, step: ReceiveLabel)
    requires ReceiverInv(job, n) && CanReceive(n, step)
    ensures ReceiverInv(job, n.(receiver := Received(job, n, step)))
  {
    var (wire, at) := (n.sender.emitted, n.receiver.taken);
    match step
    case Take(k) => assert wire[..at] + wire[at..at + k] == wire[..at + k];
    case TakeThenFault(k, kept) => assert wire[..at] + wire[at..at + kept] == wire[..at + k][..at + kept];
    case _ =>
  }

  lemma StepInv(job: Job, n: Transfer, step: Label)
    requires Inv(job, n) && Enabled(job, n, step)
    ensures Inv(job, Apply(job, n, step))
  {
    match step
    case Send(send) =>
      hide SenderInv, Sent, CanSend;
      SendKeepsInv(job, n.sender, send);
      var emitted := Apply(job, n, step).sender.emitted;
      assert emitted[..n.receiver.taken] == n.sender.emitted[..n.receiver.taken];
    case Receive(receive) => ReceiveKeepsInv(job, n, receive);
    case SetRate(_) =>
  }

  lemma {:induction false} RunInv(job: Job, n: Transfer, run: seq<Label>)
    requires Inv(job, n) && Legal(job, n, run)
    ensures Inv(job, After(job, n, run))
    decreases |run|
  {
    if run != [] {
      StepInv(job, n, run[0]);
      RunInv(job, Apply(job, n, run[0]), run[1..]);
    }
  }

  /** Whatever the chunking and the faults: what is on the receiver's disk is a prefix of what the
      sender emitted, that is a prefix of the file beyond the offset, and the sender never emits
      more than it has drawn from the throttle, nor draws more than one buffer ahead. */
  lemma WrittenIsPrefix(job: Job, rate: Throttle.Rate, run: seq<Label>)
    requires Legal(job, Start(job, rate), run)
    ensures var n := After(job, Start(job, rate), run);
            && n.receiver.written <= n.sender.emitted <= job.Tail()
            && |n.sender.emitted| <= n.sender.drawn <= |n.sender.emitted| + 65536
            && (!n.receiver.failed ==> n.receiver.total == |n.receiver.written|)
  {
    RunInv(job, Start(job, rate), run);
  }

  /** A file longer than the agreed size is cut, but only at the end of the buffer that reaches it. */
  lemma OvershootBound(job: Job, rate: Throttle.Rate, run: seq<Label>)
    requires Legal(job, Start(job, rate), run)
    ensures var s := After(job, Start(job, rate), run).sender;
            s.emitted != [] ==> job.offset + |s.emitted| < job.size + 65536 || |s.emitted| <= 65536
  {
    RunInv(job, Start(job, rate), run);
  }

  // ---------------------------------------------------------------- runs without faults

  predicate Fault(step: Label) {
    match step
    case Send(send) => send.LoadFault? || send.EmitFault?
    case Receive(receive) => receive.TakeThenFault? || receive.TakeFault?
    case SetRate(_) => false
  }

  predicate Faultless(run: seq<Label>) {
    forall step | step in run :: !Fault(step)
  }

  /** Why each side stopped, when nothing went wrong. */
  ghost predicate CleanInv(job: Job, n: Transfer) {
    && Inv(job, n)
    && !n.receiver.failed
    && (!n.sender.open ==> n.sender.chunk == [] && n.sender.total >= Min(job.size, |job.file|))
    && (!n.receiver.open ==> n.receiver.total >= job.size
                             || (!n.sender.open && n.receiver.taken == |n.sender.emitted|))
  }

  lemma StepClean(job: Job, n: Transfer, step: Label)
    requires CleanInv(job, n) && Enabled(job, n, step) && !Fault(step)
    ensures CleanInv(job, Apply(job, n, step))
  {
    StepInv(job, n, step);
  }

  lemma {:induction false} RunClean(job: Job, n: Transfer, run: seq<Label>)
    requires CleanInv(job, n) && Legal(job, n, run) && Faultless(run)
    ensures CleanInv(job, After(job, n, run))
    decreases |run|
  {
    if run != [] {
      StepClean(job, n, run[0]);
      RunClean(job, Apply(job, n, run[0]), run[1..]);
    }
  }

  /** With no fault and offset 0, a finished transfer of a file no longer than agreed has copied
      it exactly, and both sides count its bytes; they count the agreed size exactly when the
      file has it. */
  lemma FaultlessTransferCopies(job: Job, rate: Throttle.Rate, run: seq<Label>)
    requires Legal(job, Start(job, rate), run) && Faultless(run)
    requires job.offset == 0 && |job.file| <= job.size
    requires var n := After(job, Start(job, rate), run); !n.sender.open && !n.receiver.open
    ensures var n := After(job, Start(job, rate), run);
            && n.receiver.written == n.sender.emitted == job.file
            && n.receiver.total == n.sender.total == n.sender.drawn == |job.file|
            && (n.receiver.total == job.size <==> |job.file| == job.size)
  {
    RunClean(job, Start(job, rate), run);
    var n := After(job, Start(job, rate), run);
    assert |n.sender.emitted| == |job.file|;
    assert n.sender.emitted == job.file[..|job.file|] == job.file;
    assert n.receiver.taken == |job.file|;
  }

  /** The receiver stops without having counted the agreed size, and still reports success: the peer has
      closed the connection, or a read has failed or timed out. */
  predicate CutsShort(step: Label) {
    step.Receive? && (step.receive.TakeEnd? || step.receive.TakeFault?)
  }

  predicate NeverCutShort(run: seq<Label>) {
    forall step | step in run :: !CutsShort(step)
  }

  lemma StepCounts(job: Job, n: Transfer, step: Label)
    requires ReceiverInv(job, n) && Enabled(job, n, step) && job.size > 0
    ensures var (r, t) := (n.receiver, Apply(job, n, step).receiver);
            && (!r.open ==> !CutsShort(step) && t == r)
            && (r.open && !t.open && !t.failed ==> (t.total >= job.size <==> !CutsShort(step)))
            && (t.open ==> r.open && !CutsShort(step))
  {
  }

  lemma {:induction false} RunCounts(job: Job, n: Transfer, run: seq<Label>)
    requires Inv(job, n) && Legal(job, n, run) && job.size > 0
    ensures var (r, t) := (n.receiver, After(job, n, run).receiver);
            && (!r.open ==> NeverCutShort(run) && t == r)
            && (r.open && !t.open && !t.failed ==> (t.total >= job.size <==> NeverCutShort(run)))
            && (t.open ==> r.open && NeverCutShort(run))
    decreases |run|
  {
    hide Apply, Enabled, CutsShort;
    if run != [] {
      StepCounts(job, n, run[0]);
      StepInv(job, n, run[0]);
      RunCounts(job, Apply(job, n, run[0]), run[1..]);
      hide Inv;
      assert run == [run[0]] + run[1..];
      assert NeverCutShort(run) <==> !CutsShort(run[0]) && NeverCutShort(run[1..]);
    }
  }

  /** A reported success, whatever else happens: the bytes it reports are on disk and are the first of
      the file beyond the offset, less than one buffer over the agreed size. They are the agreed size or
      more exactly when nothing cut the transfer short (or nothing was agreed on). */
  lemma AgreedSizeArrives(job: Job, rate: Throttle.Rate, run: seq<Label>)
    requires Legal(job, Start(job, rate), run)
    requires var r := After(job, Start(job, rate), run).receiver; !r.open && !r.failed
    ensures var r := After(job, Start(job, rate), run).receiver;
            && r.written <= job.Tail() && |r.written| == r.total
            && (r.total < job.size + 65536 || r.total <= 65536)
            && (r.total >= job.size <==> job.size == 0 || NeverCutShort(run))
  {
    RunInv(job, Start(job, rate), run);
    if job.size > 0 {
      RunCounts(job, Start(job, rate), run);
    }
  }

  /** How much both loops still have to do: bytes to load, to ask for, to draw, to emit and to take. */
  ghost function Work(job: Job, n: Transfer): nat
    requires Inv(job, n)
  {
    var (tail, s) := (|job.Tail()|, n.sender);
    var loaded := s.total - job.offset + |s.chunk|;
    var asked := s.total - job.offset + (if s.throttled.NotAsked? then 0 else |s.chunk|);
    assert s.chunk != [] ==> job.offset <= |job.file|;
    (if s.open then 1 else 0) + (if n.receiver.open then 1 else 0)
    + (tail - loaded) + (tail - asked) + (tail - s.drawn) + (tail - |s.emitted|) + (tail - n.receiver.taken)
  }

  lemma SendWorks(job: Job, n: Transfer, step: SendLabel)
    requires Inv(job, n) && CanSend(job, n.sender, step) && !step.LoadFault? && !step.EmitFault?
    requires Inv(job, n.(sender := Sent(job, n.sender, step)))
    ensures Work(job, n.(sender := Sent(job, n.sender, step))) < Work(job, n)
  {
    hide Chunked;
  }

  /** The steps of a run that the two loops take. */
  function Moves(run: seq<Label>): nat {
    if run == [] then 0 else (if run[0].SetRate? then 0 else 1) + Moves(run[1..])
  }

  lemma StepWorks(job: Job, n: Transfer, step: Label)
    requires CleanInv(job, n) && Enabled(job, n, step) && !Fault(step)
    ensures Inv(job, Apply(job, n, step))
    ensures Work(job, Apply(job, n, step)) + (if step.SetRate? then 0 else 1) <= Work(job, n)
  {
    StepInv(job, n, step);
    if step.Send? {
      SendWorks(job, n, step.send);
    }
  }

  lemma {:induction false} RunWorks(job: Job, n: Transfer, run: seq<Label>)
    requires CleanInv(job, n) && Legal(job, n, run) && Faultless(run)
    ensures Moves(run) <= Work(job, n)
    decreases |run|
  {
    if run != [] {
      StepClean(job, n, run[0]);
      StepWorks(job, n, run[0]);
      RunWorks(job, Apply(job, n, run[0]), run[1..]);
    }
  }

  // ---------------------------------------------------------------- when a transfer ends

  /** The throttle can let a chunk through exactly when it is no larger than a non-zero rate. */
  lemma DrawnExactlyWhenAffordable(rate: Throttle.Rate, bytes: nat)
    ensures (exists found, readings :: Grants(rate, bytes, found, readings)) <==> Affords(rate, bytes)
  {
    if Affords(rate, bytes) {
      var full := Throttle.Bucket(rate as real, 0.0);
      Throttle.EarnedAdds(rate, 0.0, 0.0);
      assert Throttle.Affordable(full, rate, bytes, 0.0) || rate == 0;
      assert Grants(rate, bytes, full, [0.0]);
    } else {
      forall found, readings
        ensures !Grants(rate, bytes, found, readings)
      {
        Throttle.NeverAffordable(found, rate, bytes, readings);
      }
    }
  }

  /** The sender waits for a grant that never comes. */
  predicate Stalled(n: Transfer) {
    n.sender.open && n.sender.throttled.Asked? && !Affords(n.sender.throttled.rate, |n.sender.chunk|)
  }

  /** Only a fault, or another rate, could still come. */
  ghost predicate Exhausted(job: Job, n: Transfer) {
    forall step :: Enabled(job, n, step) ==> Fault(step) || step.SetRate?
  }

  /** This step calls `consume` for a chunk that the rate it reads cannot afford. */
  predicate AsksTooMuch(n: Transfer, step: Label) {
    step.Send? && step.send.Ask? && !Affords(step.send.rate, |n.sender.chunk|)
  }

  /** Each `consume` of this run reads a rate that affords the chunk. */
  ghost predicate AsksAffordable(job: Job, n: Transfer, run: seq<Label>)
    requires Legal(job, n, run)
    decreases |run|
  {
    run == [] || (!AsksTooMuch(n, run[0]) && AsksAffordable(job, Apply(job, n, run[0]), run[1..]))
  }

  lemma StepStalls(job: Job, n: Transfer, step: Label)
    requires Enabled(job, n, step) && !Fault(step) && SenderInv(job, n.sender)
    ensures Stalled(Apply(job, n, step)) <==> Stalled(n) || AsksTooMuch(n, step)
  {
    if step.Send? && step.send.Draw? {
      DrawnExactlyWhenAffordable(n.sender.throttled.rate, |n.sender.chunk|);
    }
    hide SenderInv;
  }

  /** A sender that has once asked for too much waits ever after, whatever rates are set later. */
  lemma {:induction false} StalledExactlyWhenUnaffordable(job: Job, n: Transfer, run: seq<Label>)
    requires Inv(job, n) && Legal(job, n, run) && Faultless(run)
    ensures Stalled(After(job, n, run)) <==> Stalled(n) || !AsksAffordable(job, n, run)
    decreases |run|
  {
    hide Inv, Enabled, Apply, Stalled, Fault, AsksTooMuch;
    if run != [] {
      assert !Fault(run[0]);
      assert SenderInv(job, n.sender) by { InvMeansSenderInv(job, n); }
      StepInv(job, n, run[0]);
      StepStalls(job, n, run[0]);
      StalledExactlyWhenUnaffordable(job, Apply(job, n, run[0]), run[1..]);
    }
  }

  lemma InvMeansSenderInv(job: Job, n: Transfer)
    requires Inv(job, n)
    ensures SenderInv(job, n.sender)
  {
  }

  /** Without a fault something can go on until both sides have finished, unless the sender is
      stalled. */
  lemma FaultlessProgress(job: Job, n: Transfer)
    requires CleanInv(job, n) && (n.sender.open || n.receiver.open) && !Stalled(n)
    ensures !Exhausted(job, n)
  {
    var s := n.sender;
    if s.open && s.throttled.Asked? {
      DrawnExactlyWhenAffordable(s.throttled.rate, |s.chunk|);
      var found, readings :| Grants(s.throttled.rate, |s.chunk|, found, readings);
      assert Enabled(job, n, Send(Draw(found, readings))) && !Fault(Send(Draw(found, readings)));
    } else if s.open {
      var step := if s.chunk == [] then Load(1) else if s.throttled.NotAsked? then Ask(n.rate) else Emit(1);
      assert Enabled(job, n, Send(step)) && !Fault(Send(step));
    } else {
      var step := if n.receiver.taken < |s.emitted| then Take(1) else TakeEnd;
      assert Enabled(job, n, Receive(step)) && !Fault(Receive(step));
    }
  }

  /** However the rate is changed meanwhile: in a faultless run the two loops take at most 5|file|+2
      steps, and a run in which they cannot go on has ended on both sides exactly when each `consume`
      has read a rate that affords its chunk; otherwise the sender waits for the throttle for ever. */
  lemma EndsExactlyWhenAffordable(job: Job, rate: Throttle.Rate, run: seq<Label>)
    requires Legal(job, Start(job, rate), run) && Faultless(run)
    ensures Moves(run) <= 5 * |job.file| + 2
    ensures var n := After(job, Start(job, rate), run);
            Exhausted(job, n) ==>
              (!n.sender.open && !n.receiver.open <==> AsksAffordable(job, Start(job, rate), run))
    ensures var n := After(job, Start(job, rate), run);
            Stalled(n) <==> !AsksAffordable(job, Start(job, rate), run)
  {
    RunWorks(job, Start(job, rate), run);
    RunClean(job, Start(job, rate), run);
    StalledExactlyWhenUnaffordable(job, Start(job, rate), run);
    var n := After(job, Start(job, rate), run);
    if Exhausted(job, n) && AsksAffordable(job, Start(job, rate), run) && (n.sender.open || n.receiver.open) {
      FaultlessProgress(job, n);
    }
  }

  /** Under a limit below 64 KB/s, a read that fills the buffer stalls the transfer, even if the limit is
      raised or lifted later. */
  lemma SlowLimitStallsTransfer(job: Job, kbps: nat, later: seq<Label>)
    requires 0 < kbps < 64 && job.offset + 65536 <= |job.file|
    requires var n := Asking(job, 1024 * kbps);
             Legal(job, n, later) && Faultless(later)
    ensures Stalled(After(job, Asking(job, 1024 * kbps), later))
  {
    var (rate, n) := (1024 * kbps, Start(job, 1024 * kbps));
    StepInv(job, n, Send(Load(65536)));
    StepInv(job, Apply(job, n, Send(Load(65536))), Send(Ask(rate)));
    StalledExactlyWhenUnaffordable(job, Asking(job, rate), later);
  }

  /** The first buffer is read, and `consume` called for it. */
  function Asking(job: Job, rate: Throttle.Rate): Transfer
    requires job.offset < |job.file|
  {
    Apply(job, Apply(job, Start(job, rate), Send(Load(65536))), Send(Ask(rate)))
  }

  // ---------------------------------------------------------------- the two loops

  /** What one turn of the sending loop meets: a failed disk read, or a disk read of some size, the
      clock readings while it waits for the throttle, and a `write_all` that gets everything out or
      stops after `k` bytes. */
  datatype SendTurn = NoRead | ReadThenWrite(upTo: nat, readings: seq<real>, out: Option<nat>)

  /** The sending loop with the throttle it alone is using. */
  datatype Sending = Sending(sender: Sender, bucket: Throttle.Bucket)

  /** What one turn of the receiving loop meets; a disk write may stop after `kept` bytes. */
  datatype ReceiveTurn = Arrival(upTo: nat) | DiskFull(upTo: nat, kept: nat) | NoArrival

  /** What is left of the throttle's bucket after a `consume`. */
  function Consumed(rate: Throttle.Rate, bytes: nat, bucket: Throttle.Bucket, readings: seq<real>): Throttle.Bucket {
    if rate == 0 then bucket else Throttle.ConsumeLoop(bucket, rate, bytes, readings).bucket
  }

  /** `write_all` of a chunk that has been granted. */
  function WriteChunk(job: Job, s: Sender, out: Option<nat>): (t: Sender)
    requires s.open && s.throttled.Granted? && s.chunk != [] && s.sent == 0
    ensures (t.open ==> t.chunk == []) && t.total >= s.total
  {
    if out.None? || out.value >= |s.chunk| then Sent(job, s, Emit(|s.chunk|))
    else Sent(job, if out.value == 0 then s else Sent(job, s, Emit(out.value)), EmitFault)
  }

  /** One turn; a chunk that is not granted stays in the buffer. */
  function SendOnce(job: Job, rate: Throttle.Rate, g: Sending, turn: SendTurn): (h: Sending)
    requires g.sender.open && g.sender.chunk == []
    ensures h.sender.total >= g.sender.total
  {
    match turn
    case NoRead => g.(sender := Sent(job, g.sender, LoadFault))
    case ReadThenWrite(upTo, readings, out) =>
      var t := Sent(job, g.sender, Load(upTo));
      if !t.open then g.(sender := t)
      else
        var asked := Sent(job, t, Ask(rate));
        Sending(if Grants(rate, |t.chunk|, g.bucket, readings)
                then WriteChunk(job, Sent(job, asked, Draw(g.bucket, readings)), out) else asked,
                Consumed(rate, |t.chunk|, g.bucket, readings))
  }

  /** The sending loop, turn by turn; a run out of turns is a read that never returns. It stops
      open only while it waits for the throttle. */
  function SendLoop(job: Job, rate: Throttle.Rate, g: Sending, turns: seq<SendTurn>): (h: Sending)
    ensures h.sender.open ==> h.sender.chunk != []
    ensures h.sender.total >= g.sender.total
    decreases |turns|
  {
    if !g.sender.open || g.sender.chunk != [] then g
    else if turns == [] then g.(sender := g.sender.(open := false))
    else SendLoop(job, rate, SendOnce(job, rate, g, turns[0]), turns[1..])
  }

  function ReceiveOnce(job: Job, n: Transfer, turn: ReceiveTurn): Receiver
    requires n.receiver.open && !n.sender.open && n.receiver.taken <= |n.sender.emitted|
  {
    var waiting := |n.sender.emitted| - n.receiver.taken;
    match turn
    case NoArrival => Received(job, n, TakeFault)
    case Arrival(upTo) =>
      if waiting == 0 then Received(job, n, TakeEnd)
      else Received(job, n, Take(Chunked(upTo, waiting)))
    case DiskFull(upTo, kept) =>
      if waiting == 0 then Received(job, n, TakeEnd)
      else
        var k := Chunked(upTo, waiting);
        Received(job, n, TakeThenFault(k, Min(kept, k)))
  }

  /** The receiving loop on everything the sender emitted before it stopped. */
  function ReceiveLoop(job: Job, n: Transfer, turns: seq<ReceiveTurn>): (t: Transfer)
    requires !n.sender.open && n.receiver.taken <= |n.sender.emitted|
    ensures t.sender == n.sender && !t.receiver.open
    decreases |turns|
  {
    if !n.receiver.open then n
    else if turns == [] then n.(receiver := n.receiver.(open := false))
    else ReceiveLoop(job, n.(receiver := ReceiveOnce(job, n, turns[0])), turns[1..])
  }

  lemma RunFrom(job: Job, n: Transfer, step: Label, rest: seq<Label>)
    requires Enabled(job, n, step) && Legal(job, Apply(job, n, step), rest)
    ensures Legal(job, n, [step] + rest)
    ensures After(job, n, [step] + rest) == After(job, Apply(job, n, step), rest)
  {
    assert ([step] + rest)[1..] == rest;
  }

  /** Writing a granted chunk is one emission, or some and a fault. */
  lemma WriteIsRun(job: Job, n: Transfer, out: Option<nat>, rest: seq<Label>) returns (run: seq<Label>)
    requires var s := n.sender; s.open && s.throttled.Granted? && s.chunk != [] && s.sent == 0
    requires Legal(job, n.(sender := WriteChunk(job, n.sender, out)), rest)
    ensures Legal(job, n, run)
    ensures After(job, n, run) == After(job, n.(sender := WriteChunk(job, n.sender, out)), rest)
  {
    var chunk := n.sender.chunk;
    if out.None? || out.value >= |chunk| {
      RunFrom(job, n, Send(Emit(|chunk|)), rest);
      run := [Send(Emit(|chunk|))] + rest;
    } else if out.value == 0 {
      RunFrom(job, n, Send(EmitFault), rest);
      run := [Send(EmitFault)] + rest;
    } else {
      RunFrom(job, Apply(job, n, Send(Emit(out.value))), Send(EmitFault), rest);
      RunFrom(job, n, Send(Emit(out.value)), [Send(EmitFault)] + rest);
      run := [Send(Emit(out.value))] + ([Send(EmitFault)] + rest);
    }
  }

  /** Every execution of the sending loop is a run of the transfer. */
  lemma {:induction false} SendLoopIsRun(job: Job, n: Transfer, bucket: Throttle.Bucket, turns: seq<SendTurn>)
    returns (run: seq<Label>)
    ensures Legal(job, n, run)
    ensures After(job, n, run) == n.(sender := SendLoop(job, n.rate, Sending(n.sender, bucket), turns).sender)
    decreases |turns|
  {
    hide WriteChunk;
    var (s, g) := (n.sender, Sending(n.sender, bucket));
    if !s.open || s.chunk != [] {
      return [];
    }
    if turns == [] {
      RunFrom(job, n, Send(LoadFault), []);
      return [Send(LoadFault)];
    }
    var next := SendOnce(job, n.rate, g, turns[0]);
    run := SendLoopIsRun(job, n.(sender := next.sender), next.bucket, turns[1..]);
    match turns[0]
    case NoRead =>
      RunFrom(job, n, Send(LoadFault), run);
      run := [Send(LoadFault)] + run;
    case ReadThenWrite(upTo, readings, out) =>
      var loaded := Apply(job, n, Send(Load(upTo)));
      if loaded.sender.open {
        var asked := Apply(job, loaded, Send(Ask(n.rate)));
        if Grants(n.rate, |loaded.sender.chunk|, bucket, readings) {
          var drawn := Apply(job, asked, Send(Draw(bucket, readings)));
          run := WriteIsRun(job, drawn, out, run);
          RunFrom(job, asked, Send(Draw(bucket, readings)), run);
          run := [Send(Draw(bucket, readings))] + run;
        }
        RunFrom(job, loaded, Send(Ask(n.rate)), run);
        run := [Send(Ask(n.rate))] + run;
      }
      RunFrom(job, n, Send(Load(upTo)), run);
      run := [Send(Load(upTo))] + run;
  }

  /** Every execution of the receiving loop is one too. */
  lemma {:induction false} ReceiveLoopIsRun(job: Job, n: Transfer, turns: seq<ReceiveTurn>) returns (run: seq<Label>)
    requires !n.sender.open && n.receiver.taken <= |n.sender.emitted|
    ensures Legal(job, n, run)
    ensures After(job, n, run) == ReceiveLoop(job, n, turns)
    decreases |turns|
  {
    if !n.receiver.open {
      return [];
    }
    if turns == [] {
      RunFrom(job, n, Receive(TakeFault), []);
      return [Receive(TakeFault)];
    }
    run := ReceiveLoopIsRun(job, n.(receiver := ReceiveOnce(job, n, turns[0])), turns[1..]);
    var waiting := |n.sender.emitted| - n.receiver.taken;
    var step := match turns[0]
      case NoArrival => TakeFault
      case Arrival(upTo) =>
        if waiting == 0 then TakeEnd else Take(Chunked(upTo, waiting))
      case DiskFull(upTo, kept) =>
        if waiting == 0 then TakeEnd
        else
          var k := Chunked(upTo, waiting);
          TakeThenFault(k, Min(kept, k));
    RunFrom(job, n, Receive(step), run);
    run := [Receive(step)] + run;
  }

  /** One turn of the sending loop, in terms of the loop's own variables. */
  lemma SendOnceIs(job: Job, rate: Throttle.Rate, g: Sending, turn: SendTurn)
    requires g.sender.open && g.sender.chunk == []
    ensures var (s, h) := (g.sender, SendOnce(job, rate, g, turn));
            var t := h.sender;
            var buffer := if turn.NoRead? then [] else NextChunk(job, s.total, turn.upTo);
            if buffer == [] then h == g.(sender := s.(open := false))
            else
              && h.bucket == Consumed(rate, |buffer|, g.bucket, turn.readings)
              && if !Grants(rate, |buffer|, g.bucket, turn.readings) then
                   t == s.(chunk := buffer, throttled := Asked(rate), sent := 0)
                 else
                   var cut := turn.out.Some? && turn.out.value < |buffer|;
                   && t.emitted == s.emitted + (if cut then buffer[..turn.out.value] else buffer)
                   && t.total == s.total + (if cut then 0 else |buffer|)
                   && t.drawn == s.drawn + |buffer|
                   && t.open == (!cut && t.total < job.size)
                   && (t.open ==> t.chunk == [])
  {
    hide NextChunk;
  }

  lemma SameOffset(s: Bytes, prefix: Bytes)
    requires |s| >= 8 && prefix == s[..8]
    ensures GetU64(prefix) == GetU64(s)
  {
    assert prefix[..8] == s[..8];
  }

  /** How the sending call stands: it failed before the loop, it waits for the throttle, or it
      returned the number of bytes sent. */
  datatype SendResult = Failed | Waiting | Finished(bytesSent: nat)

  /** `send_file_data`: the peer's eight offset bytes first, then the loop. A call without a
      throttle is one with an unlimited throttle. */
  method SendFileData(stream: TcpStream, onDisk: Option<Bytes>, size: nat, throttle: Throttle.TokenBucket,
                      turns: seq<SendTurn>)
    returns (result: SendResult, drawn: nat)
    modifies stream, throttle`tokens, throttle`lastRefill
    ensures result.Failed? <==> |old(stream.inbound)| < 8 || onDisk.None?
    ensures result.Failed? ==>
              stream.outbound == old(stream.outbound) && drawn == 0 && throttle.Contents() == old(throttle.Contents())
    ensures !result.Failed? ==>
              var (job, rate) := (Job(onDisk.value, GetU64(old(stream.inbound)), size), throttle.rateBytesPerSec);
              var g := SendLoop(job, rate, Sending(Start(job, rate).sender, old(throttle.Contents())), turns);
              && stream.inbound == old(stream.inbound)[8..]
              && stream.outbound == old(stream.outbound) + g.sender.emitted
              && drawn == g.sender.drawn && throttle.Contents() == g.bucket
              && result == if g.sender.open then Waiting else Finished(g.sender.total - job.offset)
  {
    hide GetU64, NextChunk, SendOnce, Sent, Throttle.ConsumeLoop;
    drawn := 0;
    var offsetBytes := stream.ReadExact(8);
    if offsetBytes.None? || onDisk.None? {
      return Failed, 0;
    }
    SameOffset(old(stream.inbound), offsetBytes.value);
    var (job, rate) := (Job(onDisk.value, GetU64(offsetBytes.value), size), throttle.rateBytesPerSec);
    ghost var g := Sending(Start(job, rate).sender, throttle.Contents());
    var total, open, waiting, i := job.offset, true, false, 0;
    while i < |turns| && open && !waiting
      invariant 0 <= i <= |turns|
      invariant total >= job.offset && total == g.sender.total && drawn == g.sender.drawn
      invariant (open || waiting) == g.sender.open && (waiting <==> open && g.sender.chunk != [])
      invariant throttle.rateBytesPerSec == rate && throttle.Contents() == g.bucket
      invariant stream.inbound == old(stream.inbound)[8..]
      invariant stream.outbound == old(stream.outbound) + g.sender.emitted
      invariant SendLoop(job, rate, g, turns[i..])
             == SendLoop(job, rate, Sending(Start(job, rate).sender, old(throttle.Contents())), turns)
    {
      SendOnceIs(job, rate, g, turns[i]);
      g := SendOnce(job, rate, g, turns[i]);
      assert turns[i..][1..] == turns[i + 1..];
      match turns[i] {
        case NoRead => open := false;
        case ReadThenWrite(upTo, readings, out) =>
          var buffer := NextChunk(job, total, upTo);
          if buffer == [] {
            open := false;
          } else {
            var granted, passes := throttle.Consume(|buffer|, readings);
            if !granted {
              waiting := true;
            } else {
              drawn := drawn + |buffer|;
              if out.Some? && out.value < |buffer| {
                stream.Write(buffer[..out.value]);
                open := false;
              } else {
                stream.Write(buffer);
                total := total + |buffer|;
                open := total < job.size;
              }
            }
          }
      }
      i := i + 1;
    }
    result := if waiting then Waiting else Finished(total - job.offset);
  }

  /** One turn of the receiving loop, in terms of the loop's own variables. */
  lemma ReceiveOnceIs(job: Job, n: Transfer, turn: ReceiveTurn)
    requires n.receiver.open && !n.sender.open && n.receiver.taken <= |n.sender.emitted|
    ensures var (r, t, wire) := (n.receiver, ReceiveOnce(job, n, turn), n.sender.emitted);
            if turn.NoArrival? || r.taken == |wire| then t == r.(open := false)
            else
              var k := Chunked(turn.upTo, |wire| - r.taken);
              var kept := if turn.DiskFull? then Min(turn.kept, k) else k;
              && t.written == r.written + wire[r.taken..r.taken + kept]
              && t.taken == r.taken + k
              && t.total == r.total + (if turn.DiskFull? then 0 else k)
              && t.open == (turn.Arrival? && t.total < job.size)
              && t.failed == (turn.DiskFull? || r.failed)
  {
    hide Chunked;
  }

  lemma TakeSlices(wire: Bytes, taken: nat, k: nat, kept: nat)
    requires taken + k <= |wire| && kept <= k
    ensures wire[taken..][..k] == wire[taken..taken + k]
    ensures wire[taken..][k..] == wire[taken + k..]
    ensures wire[taken..taken + k][..kept] == wire[taken..taken + kept]
  {
  }

  /** The connection once the sender has stopped: `wire` is all that will ever arrive. */
  ghost function Arrived(wire: Bytes): Transfer {
    Transfer(Sender(|wire|, |wire|, [], NotAsked, 0, wire, false), Receiver(0, 0, [], true, false), 0)
  }

  /** `receive_file_data`: asks for offset 0, creates the file, then copies what arrives. */
  method ReceiveFileData(stream: TcpStream, canCreate: bool, size: nat, turns: seq<ReceiveTurn>)
    returns (bytesReceived: Option<nat>, file: Bytes)
    modifies stream
    ensures stream.outbound == old(stream.outbound) + PutU64(0)
    ensures !canCreate ==> bytesReceived.None? && file == []
    ensures canCreate ==>
              var job := Job([], 0, size);
              var r := ReceiveLoop(job, Arrived(old(stream.inbound)), turns).receiver;
              && file == r.written
              && bytesReceived == (if r.failed then None else Some(r.total))
  {
    hide ReceiveOnce, Received, Chunked, PutU64;
    stream.Write(PutU64(0));
    file := [];
    if !canCreate {
      return None, [];
    }
    ghost var job := Job([], 0, size);
    ghost var n := Arrived(stream.inbound);
    var total: nat, open, failed, i := 0, true, false, 0;
    while i < |turns| && open
      invariant 0 <= i <= |turns|
      invariant n.sender == Arrived(old(stream.inbound)).sender
      invariant open == n.receiver.open && failed == n.receiver.failed && !(open && failed)
      invariant file == n.receiver.written && total == n.receiver.total
      invariant n.receiver.taken <= |n.sender.emitted|
      invariant stream.inbound == n.sender.emitted[n.receiver.taken..]
      invariant stream.outbound == old(stream.outbound) + PutU64(0)
      invariant ReceiveLoop(job, n, turns[i..]) == ReceiveLoop(job, Arrived(old(stream.inbound)), turns)
    {
      ReceiveOnceIs(job, n, turns[i]);
      n := n.(receiver := ReceiveOnce(job, n, turns[i]));
      assert turns[i..][1..] == turns[i + 1..];
      if turns[i].NoArrival? || stream.inbound == [] {
        open := false;
      } else {
        var k := Chunked(turns[i].upTo, |stream.inbound|);
        ghost var kept := if turns[i].DiskFull? then Min(turns[i].kept, k) else k;
        TakeSlices(n.sender.emitted, |n.sender.emitted| - |stream.inbound|, k, kept);
        var buffer := stream.ReadExact(k);
        if turns[i].DiskFull? {
          file := file + buffer.value[..Min(turns[i].kept, k)];
          open, failed := false, true;
        } else {
          file := file + buffer.value;
          total := total + k;
          open := total < size;
        }
      }
      i := i + 1;
    }
    bytesReceived := if failed then None else Some(total);
  }

  /** The downloader always asks for the whole file. */
  lemma ReceiverAsksForOffsetZero(rest: Bytes)
    ensures GetU64(PutU64(0) + rest) == 0 && (PutU64(0) + rest)[8..] == rest
  {
    GetPutU64(0, rest);
  }
}
