/** File connections and the downloads waiting for them. A connection that names a transfer token
    goes to the queued download registered under the token, or through a channel to the waiter
    registered under it; both registrations are used once. A step is one lock-held region, one
    channel or one-shot operation, or one timeout. */
module OneShotRouting {
  import opened Wrappers
  import opened Bytes

  type Token = U32

  datatype Conn = Conn(id: nat, token: Token)

  /** Where a call of `wait_for_f_connection_routed` stands. */
  datatype Phase =
    | Waiting
    | Holding(conn: Conn)      // sent into its one-shot channel, not yet received
    | Received(conn: Conn)
    | TimedOut                 // its own registration not yet removed
    | Cancelled                // its sender was dropped; likewise
    | Quit

  datatype Waiter = Waiter(token: Token, phase: Phase)

  /** A download the peer has queued, resumed by the listener when the connection comes. */
  datatype Queued = Queued(token: Token, got: Option<Conn>)

  datatype Consumer = ByWaiter(w: nat) | ByQueued(p: nat)

  /** The one place of a connection that has arrived. */
  datatype Place = InChannel | With(consumer: Consumer) | Lost

  datatype State = State(
    pending: map<Token, nat>,        // token -> queued download
    channel: seq<Conn>,
    registered: map<Token, nat>,     // token -> waiter whose sender is stored
    waiters: map<nat, Waiter>,
    queued: map<nat, Queued>,
    places: seq<Place>)              // history, by connection number

  datatype Label =
    | Listen(token: Token)           // a handshake completed at the listener
    | Forward(token: Token)          // a connection made on the server's request
    | Dispatch
    | Queue(p: nat, token: Token)
    | Wait(w: nat, token: Token)
    | Receive(w: nat)
    | TimeOut(w: nat)
    | Cancel(w: nat)
    | Remove(w: nat)

  const INITIAL: State := State(map[], [], map[], map[], map[], [])

  predicate AtPhase(s: State, w: nat, phase: Phase) {
    w in s.waiters && s.waiters[w].phase == phase
  }

  /** The sender of `w` is still in the map. */
  predicate IsRegistered(s: State, w: nat) {
    && w in s.waiters
    && s.waiters[w].token in s.registered
    && s.registered[s.waiters[w].token] == w
  }

  function WithPhase(s: State, w: nat, phase: Phase): State
    requires w in s.waiters
  {
    s.(waiters := s.waiters[w := s.waiters[w].(phase := phase)])
  }

  predicate Enabled(s: State, step: Label) {
    match step
    case Listen(_) => true
    case Forward(_) => true
    case Dispatch => s.channel != []
    case Queue(p, _) => p !in s.queued
    case Wait(w, _) => w !in s.waiters
    case Receive(w) => w in s.waiters && s.waiters[w].phase.Holding?
    case TimeOut(w) => w in s.waiters && (s.waiters[w].phase.Waiting? || s.waiters[w].phase.Holding?)
    case Cancel(w) => AtPhase(s, w, Waiting) && !IsRegistered(s, w)
    case Remove(w) => AtPhase(s, w, TimedOut) || AtPhase(s, w, Cancelled)
  }

  function Moved(places: seq<Place>, id: nat, place: Place): (moved: seq<Place>)
    ensures |moved| == |places|
  {
    if id < |places| then places[id := place] else places
  }

  /** The dispatcher takes the registration; a waiter that is gone loses the connection. */
  function Dispatched(s: State): State
    requires s.channel != []
  {
    var conn := s.channel[0];
    var t := s.(channel := s.channel[1..], registered := s.registered - {conn.token});
    if conn.token in s.registered && AtPhase(s, s.registered[conn.token], Waiting) then
      var w := s.registered[conn.token];
      WithPhase(t, w, Holding(conn)).(places := Moved(s.places, conn.id, With(ByWaiter(w))))
    else t.(places := Moved(s.places, conn.id, Lost))
  }

  function Apply(s: State, step: Label): State
    requires Enabled(s, step)
  {
    match step
    case Listen(token) =>
      var conn := Conn(|s.places|, token);
      if token in s.pending && s.pending[token] in s.queued then
        var p := s.pending[token];
        s.(pending := s.pending - {token},
           queued := s.queued[p := s.queued[p].(got := Some(conn))],
           places := s.places + [With(ByQueued(p))])
      else s.(channel := s.channel + [conn], places := s.places + [InChannel])
    case Forward(token) => s.(channel := s.channel + [Conn(|s.places|, token)], places := s.places + [InChannel])
    case Dispatch => Dispatched(s)
    case Queue(p, token) => s.(pending := s.pending[token := p], queued := s.queued[p := Queued(token, None)])
    case Wait(w, token) =>
      s.(registered := s.registered[token := w], waiters := s.waiters[w := Waiter(token, Waiting)])
    case Receive(w) => WithPhase(s, w, Received(s.waiters[w].phase.conn))
    case TimeOut(w) =>
      var phase := s.waiters[w].phase;
      var t := WithPhase(s, w, TimedOut);
      if phase.Holding? then t.(places := Moved(s.places, phase.conn.id, Lost)) else t
    case Cancel(w) => WithPhase(s, w, Cancelled)
    case Remove(w) => WithPhase(s, w, Quit).(registered := s.registered - {s.waiters[w].token})
  }

  predicate Legal(s: State, run: seq<Label>)
    decreases |run|
  {
    run == [] || (Enabled(s, run[0]) && Legal(Apply(s, run[0]), run[1..]))
  }

  function After(s: State, run: seq<Label>): State
    requires Legal(s, run)
    decreases |run|
  {
    if run == [] then s else After(Apply(s, run[0]), run[1..])
  }

  // ---------------------------------------------------------------- the invariant

  /** The connection a consumer holds or has used. */
  function Held(s: State, consumer: Consumer): Option<Conn> {
    match consumer
    case ByWaiter(w) =>
      if w in s.waiters && (s.waiters[w].phase.Holding? || s.waiters[w].phase.Received?) then
        Some(s.waiters[w].phase.conn)
      else None
    case ByQueued(p) => if p in s.queued then s.queued[p].got else None
  }

  function TokenOf(s: State, consumer: Consumer): Option<Token> {
    match consumer
    case ByWaiter(w) => if w in s.waiters then Some(s.waiters[w].token) else None
    case ByQueued(p) => if p in s.queued then Some(s.queued[p].token) else None
  }

  ghost predicate Placed(s: State, id: nat, place: Place) {
    id < |s.places| && s.places[id] == place
  }

  ghost predicate HeldInv(s: State) {
    forall consumer | Held(s, consumer).Some? ::
      && Placed(s, Held(s, consumer).value.id, With(consumer))
      && TokenOf(s, consumer) == Some(Held(s, consumer).value.token)
  }

  ghost predicate ChannelInv(s: State) {
    && (forall conn | conn in s.channel :: Placed(s, conn.id, InChannel))
    && (forall i, j | 0 <= i < j < |s.channel| :: s.channel[i].id != s.channel[j].id)
  }

  /** A registration leads to a consumer with its token, a queued one to a download not yet resumed. */
  ghost predicate MapsInv(s: State) {
    && (forall token | token in s.pending ::
          s.pending[token] in s.queued && s.queued[s.pending[token]] == Queued(token, None))
    && (forall token | token in s.registered ::
          s.registered[token] in s.waiters && s.waiters[s.registered[token]].token == token)
  }

  ghost predicate Inv(s: State) {
    HeldInv(s) && ChannelInv(s) && MapsInv(s)
  }

  lemma DispatchChannel(s: State)
    requires Inv(s) && s.channel != []
    ensures ChannelInv(Dispatched(s))
  {
    var (t, conn) := (Dispatched(s), s.channel[0]);
    assert t.channel == s.channel[1..];
    forall other | other in t.channel
      ensures Placed(t, other.id, InChannel)
    {
      var i :| 0 <= i < |t.channel| && t.channel[i] == other;
      assert s.channel[i + 1] == other && s.channel[0].id != s.channel[i + 1].id;
      assert other in s.channel && Placed(s, other.id, InChannel);
    }
    forall i, j | 0 <= i < j < |t.channel|
      ensures t.channel[i].id != t.channel[j].id
    {
      assert s.channel[i + 1].id != s.channel[j + 1].id;
    }
  }

  lemma DispatchHeld(s: State)
    requires Inv(s) && s.channel != []
    ensures HeldInv(Dispatched(s))
  {
    var (t, conn) := (Dispatched(s), s.channel[0]);
    assert conn in s.channel && Placed(s, conn.id, InChannel);
    forall consumer | Held(t, consumer).Some?
      ensures Placed(t, Held(t, consumer).value.id, With(consumer))
      ensures TokenOf(t, consumer) == Some(Held(t, consumer).value.token)
    {
      if Held(s, consumer).Some? {
        assert Placed(s, Held(s, consumer).value.id, With(consumer));
      }
    }
  }

  lemma DispatchInv(s: State)
    requires Inv(s) && s.channel != []
    ensures Inv(Dispatched(s))
  {
    DispatchChannel(s);
    DispatchHeld(s);
    hide ChannelInv, HeldInv;
  }

  lemma ArriveHeld(s: State, step: Label)
    requires Inv(s) && (step.Listen? || step.Forward?)
    ensures HeldInv(Apply(s, step))
  {
    var t := Apply(s, step);
    forall consumer | Held(t, consumer).Some?
      ensures Placed(t, Held(t, consumer).value.id, With(consumer))
      ensures TokenOf(t, consumer) == Some(Held(t, consumer).value.token)
    {
      if Held(s, consumer).Some? {
        assert Placed(s, Held(s, consumer).value.id, With(consumer));
      }
    }
  }

  lemma ArriveInv(s: State, step: Label)
    requires Inv(s) && (step.Listen? || step.Forward?)
    ensures Inv(Apply(s, step))
  {
    ArriveHeld(s, step);
    hide HeldInv;
    forall conn | conn in s.channel
      ensures conn.id < |s.places|
    {
      assert Placed(s, conn.id, InChannel);
    }
  }

  lemma ConsumerStepHeld(s: State, step: Label)
    requires Inv(s) && Enabled(s, step) && !step.Listen? && !step.Forward? && !step.Dispatch?
    ensures HeldInv(Apply(s, step))
  {
    var t := Apply(s, step);
    forall consumer | Held(t, consumer).Some?
      ensures Placed(t, Held(t, consumer).value.id, With(consumer))
      ensures TokenOf(t, consumer) == Some(Held(t, consumer).value.token)
    {
      assert Held(s, consumer) == Held(t, consumer);
      assert Placed(s, Held(s, consumer).value.id, With(consumer));
      if step.TimeOut? && s.waiters[step.w].phase.Holding? {
        var late := ByWaiter(step.w);
        assert Held(s, late).Some? && Placed(s, Held(s, late).value.id, With(late));
      }
    }
  }

  lemma ConsumerStepInv(s: State, step: Label)
    requires Inv(s) && Enabled(s, step) && !step.Listen? && !step.Forward? && !step.Dispatch?
    ensures Inv(Apply(s, step))
  {
    var t := Apply(s, step);
    ConsumerStepHeld(s, step);
    hide HeldInv;
    forall conn | conn in s.channel
      ensures Placed(t, conn.id, InChannel)
    {
      assert Placed(s, conn.id, InChannel);
      if step.TimeOut? && s.waiters[step.w].phase.Holding? {
        HeldPlace(s, ByWaiter(step.w));
      }
    }
  }

  lemma HeldPlace(s: State, consumer: Consumer)
    requires HeldInv(s) && Held(s, consumer).Some?
    ensures Placed(s, Held(s, consumer).value.id, With(consumer))
  {
  }

  lemma StepInv(s: State, step: Label)
    requires Inv(s) && Enabled(s, step)
    ensures Inv(Apply(s, step))
  {
    hide Inv;
    if step.Dispatch? {
      DispatchInv(s);
    } else if step.Listen? || step.Forward? {
      ArriveInv(s, step);
    } else {
      ConsumerStepInv(s, step);
    }
  }

  lemma {:induction false} RunInv(s: State, run: seq<Label>)
    requires Inv(s) && Legal(s, run)
    ensures Inv(After(s, run))
    decreases |run|
  {
    hide Inv, Apply, Enabled;
    if run != [] {
      StepInv(s, run[0]);
      RunInv(Apply(s, run[0]), run[1..]);
    }
  }

  // ---------------------------------------------------------------- one connection, one consumer

  /** In every reachable state no two consumers have the same connection, and each has one only
      with its own token. */
  lemma ConnectionsAreNotShared(run: seq<Label>, a: Consumer, b: Consumer)
    requires Legal(INITIAL, run)
    requires Held(After(INITIAL, run), a).Some? && Held(After(INITIAL, run), b).Some?
    ensures var s := After(INITIAL, run);
            && (Held(s, a).value.id == Held(s, b).value.id ==> a == b)
            && TokenOf(s, a) == Some(Held(s, a).value.token)
  {
    RunInv(INITIAL, run);
    var s := After(INITIAL, run);
    HeldPlace(s, a);
    HeldPlace(s, b);
  }

  /** A consumer that no further connection can reach: it has been given one, or it has given up. */
  predicate Settled(s: State, consumer: Consumer) {
    match consumer
    case ByWaiter(w) => w in s.waiters && !s.waiters[w].phase.Waiting?
    case ByQueued(p) => p in s.queued && s.queued[p].got.Some?
  }

  /** A connection that was sent to a waiter and not yet received can still be lost to a timeout. */
  predicate Keeps(s: State, t: State, consumer: Consumer) {
    || Held(t, consumer) == Held(s, consumer)
    || (consumer.ByWaiter? && consumer.w in s.waiters && s.waiters[consumer.w].phase.Holding?
        && Held(t, consumer).None?)
  }

  lemma StepKeepsSettled(s: State, step: Label, consumer: Consumer)
    requires Inv(s) && Enabled(s, step) && Settled(s, consumer)
    ensures Settled(Apply(s, step), consumer) && Keeps(s, Apply(s, step), consumer)
    ensures var t := Apply(s, step);
            consumer.ByWaiter? && t.waiters[consumer.w].phase.Holding? ==>
              s.waiters[consumer.w] == t.waiters[consumer.w]
  {
    hide HeldInv, ChannelInv;
  }

  lemma {:induction false} RunKeepsSettled(s: State, run: seq<Label>, consumer: Consumer)
    requires Inv(s) && Legal(s, run) && Settled(s, consumer)
    ensures Settled(After(s, run), consumer) && Keeps(s, After(s, run), consumer)
    decreases |run|
  {
    if run != [] {
      var t := Apply(s, run[0]);
      StepKeepsSettled(s, run[0], consumer);
      StepInv(s, run[0]);
      hide Inv, Apply, Enabled;
      RunKeepsSettled(t, run[1..], consumer);
    }
  }

  /** A consumer that has been given a connection never gets another one: it keeps this one, or,
      while it has not yet received it, loses it to a timeout. A waiter that timed out or was
      cancelled never gets any. */
  lemma OneConnectionEach(before: seq<Label>, later: seq<Label>, consumer: Consumer)
    requires Legal(INITIAL, before) && Legal(After(INITIAL, before), later)
    requires Settled(After(INITIAL, before), consumer)
    ensures var (s, t) := (After(INITIAL, before), After(After(INITIAL, before), later));
            && (Held(t, consumer) == Held(s, consumer) || Held(t, consumer).None?)
            && (Held(t, consumer) != Held(s, consumer) ==> consumer.ByWaiter? && s.waiters[consumer.w].phase.Holding?)
  {
    RunInv(INITIAL, before);
    RunKeepsSettled(After(INITIAL, before), later, consumer);
  }

  // ---------------------------------------------------------------- delivery

  /** Another call takes the registration under the token over, or a call that is over removes
      whatever is registered under it. */
  predicate Disturbs(s: State, step: Label, token: Token) {
    || (step.Wait? && step.token == token)
    || (step.Remove? && step.w in s.waiters && s.waiters[step.w].token == token)
  }

  predicate Undisturbed(s: State, run: seq<Label>, token: Token)
    requires Legal(s, run)
    decreases |run|
  {
    run == [] || (!Disturbs(s, run[0], token) && Undisturbed(Apply(s, run[0]), run[1..], token))
  }

  lemma StepRegistered(s: State, step: Label, w: nat)
    requires MapsInv(s) && Enabled(s, step) && w in s.waiters && AtPhase(Apply(s, step), w, Waiting)
    ensures AtPhase(s, w, Waiting) && Apply(s, step).waiters[w].token == s.waiters[w].token
    ensures IsRegistered(Apply(s, step), w) <==> IsRegistered(s, w) && !Disturbs(s, step, s.waiters[w].token)
  {
  }

  lemma StepKeepsWaiter(s: State, step: Label, w: nat)
    requires Enabled(s, step) && w in s.waiters
    ensures w in Apply(s, step).waiters && Apply(s, step).waiters[w].token == s.waiters[w].token
    ensures !AtPhase(s, w, Waiting) ==> !AtPhase(Apply(s, step), w, Waiting)
  {
  }

  lemma {:induction false} WasWaiting(s: State, run: seq<Label>, w: nat)
    requires Legal(s, run) && w in s.waiters
    ensures w in After(s, run).waiters && After(s, run).waiters[w].token == s.waiters[w].token
    ensures AtPhase(After(s, run), w, Waiting) ==> AtPhase(s, w, Waiting)
    decreases |run|
  {
    hide Apply, Enabled, AtPhase;
    if run != [] {
      StepKeepsWaiter(s, run[0], w);
      WasWaiting(Apply(s, run[0]), run[1..], w);
    }
  }

  /** A call that is still waiting after a run is still registered exactly when it was before the
      run and no step of the run disturbed its token: no other call registered under it, and no
      call with it removed its registration. */
  lemma {:induction false} RegisteredExactlyWhenUndisturbed(s: State, run: seq<Label>, w: nat)
    requires Inv(s) && Legal(s, run) && w in s.waiters && AtPhase(After(s, run), w, Waiting)
    ensures IsRegistered(After(s, run), w) <==> IsRegistered(s, w) && Undisturbed(s, run, s.waiters[w].token)
    decreases |run|
  {
    hide Inv, Apply, Enabled, IsRegistered, AtPhase, Disturbs;
    if run != [] {
      var t := Apply(s, run[0]);
      StepInv(s, run[0]);
      assert MapsInv(s) by { InvMeansMapsInv(s); }
      StepKeepsWaiter(s, run[0], w);
      WasWaiting(t, run[1..], w);
      StepRegistered(s, run[0], w);
      RegisteredExactlyWhenUndisturbed(t, run[1..], w);
    }
  }

  lemma InvMeansMapsInv(s: State)
    requires Inv(s)
    ensures MapsInv(s)
  {
  }

  /** A waiting call gets the dispatched connection that names its token exactly when it is the one
      registered under the token. */
  lemma DispatchReachesRegistered(s: State, w: nat)
    requires Inv(s) && AtPhase(s, w, Waiting) && s.channel != [] && s.channel[0].token == s.waiters[w].token
    ensures Held(Dispatched(s), ByWaiter(w)) == Some(s.channel[0]) <==> IsRegistered(s, w)
  {
    hide HeldInv, ChannelInv;
  }

  /** From the moment a call registers: as long as it waits, it gets the next dispatched connection
      that names its token exactly when no other call has registered under the token since and no
      call has removed its registration under it. */
  lemma WaiterIsReached(before: seq<Label>, w: nat, token: Token, later: seq<Label>)
    requires Legal(INITIAL, before) && Enabled(After(INITIAL, before), Wait(w, token))
    requires Legal(Apply(After(INITIAL, before), Wait(w, token)), later)
    requires var t := After(Apply(After(INITIAL, before), Wait(w, token)), later);
             AtPhase(t, w, Waiting) && t.channel != [] && t.channel[0].token == token
    ensures var s := Apply(After(INITIAL, before), Wait(w, token));
            Held(Dispatched(After(s, later)), ByWaiter(w)) == Some(After(s, later).channel[0])
            <==> Undisturbed(s, later, token)
  {
    RunInv(INITIAL, before);
    var s := Apply(After(INITIAL, before), Wait(w, token));
    StepInv(After(INITIAL, before), Wait(w, token));
    RunInv(s, later);
    WasWaiting(s, later, w);
    RegisteredExactlyWhenUndisturbed(s, later, w);
    DispatchReachesRegistered(After(s, later), w);
  }

  // ---------------------------------------------------------------- tokens of live calls

  /** The call has not returned: its registration may be there, or it is still to remove one. */
  predicate Live(waiter: Waiter) {
    !waiter.phase.Received? && !waiter.phase.Quit?
  }

  ghost predicate LiveTokensDiffer(s: State) {
    forall v, w | v in s.waiters && w in s.waiters && v != w && Live(s.waiters[v]) && Live(s.waiters[w]) ::
      s.waiters[v].token != s.waiters[w].token
  }

  ghost predicate AlwaysDiffer(s: State, run: seq<Label>)
    requires Legal(s, run)
    decreases |run|
  {
    LiveTokensDiffer(s) && (run == [] || AlwaysDiffer(Apply(s, run[0]), run[1..]))
  }

  lemma DifferingTokensDoNotDisturb(s: State, step: Label, w: nat)
    requires Enabled(s, step) && LiveTokensDiffer(s) && LiveTokensDiffer(Apply(s, step))
    requires AtPhase(s, w, Waiting) && AtPhase(Apply(s, step), w, Waiting)
    ensures !Disturbs(s, step, s.waiters[w].token)
  {
    if step.Wait? {
      assert Live(Apply(s, step).waiters[step.w]);
    }
  }

  /** It is enough that no two live calls wait for one token; a token may be used again once its
      call has returned. */
  lemma {:induction false} DifferingTokensSuffice(s: State, run: seq<Label>, w: nat)
    requires Legal(s, run) && AlwaysDiffer(s, run) && w in s.waiters && AtPhase(After(s, run), w, Waiting)
    ensures Undisturbed(s, run, s.waiters[w].token)
    decreases |run|
  {
    hide Apply, Enabled, Disturbs, AtPhase, LiveTokensDiffer;
    if run != [] {
      var t := Apply(s, run[0]);
      StepKeepsWaiter(s, run[0], w);
      WasWaiting(s, run, w);
      WasWaiting(t, run[1..], w);
      assert LiveTokensDiffer(t);
      DifferingTokensDoNotDisturb(s, run[0], w);
      DifferingTokensSuffice(t, run[1..], w);
    }
  }

  lemma RunFrom(s: State, step: Label, rest: seq<Label>)
    requires Enabled(s, step) && Legal(Apply(s, step), rest)
    ensures Legal(s, [step] + rest) && After(s, [step] + rest) == After(Apply(s, step), rest)
  {
    assert ([step] + rest)[1..] == rest;
  }

  /** With a shared token the guarantee fails: the second registration cancels the first waiter,
      whose clean-up then removes the second one's registration, so the connection is lost
      although somebody was waiting for it. */
  lemma SharedTokenLosesConnection(token: Token) returns (run: seq<Label>)
    ensures Legal(INITIAL, run)
    ensures var s := After(INITIAL, run);
            AtPhase(s, 1, Waiting) && s.waiters[1].token == token && s.places == [Lost]
  {
    var s1 := Apply(INITIAL, Wait(0, token));
    var s2 := Apply(s1, Wait(1, token));
    var s3 := Apply(s2, Cancel(0));
    var s4 := Apply(s3, Remove(0));
    var s5 := Apply(s4, Forward(token));
    var s6 := Apply(s5, Dispatch);
    assert s4 == INITIAL.(waiters := map[0 := Waiter(token, Quit), 1 := Waiter(token, Waiting)]);
    assert s6 == s4.(places := [Lost]);
    RunFrom(s5, Dispatch, []);
    RunFrom(s4, Forward(token), [Dispatch]);
    RunFrom(s3, Remove(0), [Forward(token)] + [Dispatch]);
    RunFrom(s2, Cancel(0), [Remove(0)] + ([Forward(token)] + [Dispatch]));
    RunFrom(s1, Wait(1, token), [Cancel(0)] + ([Remove(0)] + ([Forward(token)] + [Dispatch])));
    run := [Wait(1, token)] + ([Cancel(0)] + ([Remove(0)] + ([Forward(token)] + [Dispatch])));
    RunFrom(INITIAL, Wait(0, token), run);
    run := [Wait(0, token)] + run;
  }

  // ---------------------------------------------------------------- the object

  /** The two shared maps and the channel; `state` is the machine's state they are part of. */
  class ConnectionRouter {
    var pendingDownloads: map<Token, nat>
    var fileConns: seq<Conn>
    var fileConnWaiters: map<Token, nat>
    ghost var state: State

    ghost predicate Valid()
      reads this
    {
      && pendingDownloads == state.pending
      && fileConns == state.channel
      && fileConnWaiters == state.registered
      && Inv(state)
    }

    constructor ()
      ensures Valid() && state == INITIAL
    {
      pendingDownloads, fileConns, fileConnWaiters, state := map[], [], map[], INITIAL;
    }

    /** The listener's hand-off: the queued download to resume, or `None` if the connection went to
        the channel. */
    method HandleFileConnection(conn: Conn) returns (resumed: Option<nat>)
      requires Valid() && conn.id == |state.places|
      modifies this
      ensures Valid() && state == Apply(old(state), Listen(conn.token))
      ensures resumed == if conn.token in old(pendingDownloads) then Some(old(pendingDownloads)[conn.token]) else None
      ensures resumed.Some? ==> Held(state, ByQueued(resumed.value)) == Some(conn)
    {
      hide ChannelInv, HeldInv;
      StepInv(state, Listen(conn.token));
      if conn.token in pendingDownloads {
        resumed := Some(pendingDownloads[conn.token]);
        pendingDownloads := pendingDownloads - {conn.token};
      } else {
        resumed := None;
        fileConns := fileConns + [conn];
      }
      state := Apply(state, Listen(conn.token));
    }

    /** One turn of the dispatcher; the waiter the connection was sent to, if one was registered. */
    method DispatchNext() returns (sentTo: Option<nat>)
      requires Valid() && fileConns != []
      modifies this
      ensures Valid() && state == Apply(old(state), Dispatch)
      ensures var token := old(fileConns)[0].token;
              sentTo == if token in old(fileConnWaiters) then Some(old(fileConnWaiters)[token]) else None
    {
      hide Inv;
      StepInv(state, Dispatch);
      var conn := fileConns[0];
      fileConns := fileConns[1..];
      if conn.token in fileConnWaiters {
        sentTo := Some(fileConnWaiters[conn.token]);
        fileConnWaiters := fileConnWaiters - {conn.token};
      } else {
        sentTo := None;
        assert fileConnWaiters - {conn.token} == fileConnWaiters;
      }
      state := Apply(state, Dispatch);
    }

    method RegisterWaiter(w: nat, token: Token)
      requires Valid() && w !in state.waiters
      modifies this
      ensures Valid() && state == Apply(old(state), Wait(w, token))
    {
      hide Inv;
      StepInv(state, Wait(w, token));
      fileConnWaiters := fileConnWaiters[token := w];
      state := Apply(state, Wait(w, token));
    }

    /** After a timeout or a cancellation: whatever is registered under the token goes. */
    method RemoveWaiter(ghost w: nat, token: Token)
      requires Valid() && Enabled(state, Remove(w)) && state.waiters[w].token == token
      modifies this
      ensures Valid() && state == Apply(old(state), Remove(w)) && token !in fileConnWaiters
    {
      hide Inv;
      StepInv(state, Remove(w));
      fileConnWaiters := fileConnWaiters - {token};
      state := Apply(state, Remove(w));
    }
  }
}
