/** Requests for a peer's address: every request waits under the lower-cased user name, and a
    response from the server resolves all of them. */
module AddressWaiters {
  import opened Wrappers
  import opened Bytes
  import opened Text

  datatype Response = Response(username: Bytes, address: Bytes)

  datatype Event = Subscribe(w: nat, username: Bytes) | Answer(response: Response)

  function KeyOf(username: Bytes): Bytes {
    Lowercase(username)
  }

  /** Independent of any map: what a call that starts waiting now, under `key`, will be sent. */
  function FirstAnswer(events: seq<Event>, key: Bytes): Option<Response> {
    if events == [] then None
    else if events[0].Answer? && KeyOf(events[0].response.username) == key then Some(events[0].response)
    else FirstAnswer(events[1..], key)
  }

  /** The first response whose user name is the same in lower case. */
  lemma {:induction false} FirstAnswerExactly(events: seq<Event>, username: Bytes, response: Response)
    ensures FirstAnswer(events, KeyOf(username)) == Some(response) <==>
              exists i: nat ::
                && i < |events| && events[i] == Answer(response)
                && Lowercase(response.username) == Lowercase(username)
                && forall j | 0 <= j < i && events[j].Answer? ::
                     Lowercase(events[j].response.username) != Lowercase(username)
  {
    hide Lowercase;
    if events != [] {
      var (first, rest) := (events[0], events[1..]);
      if first.Answer? && KeyOf(first.response.username) == KeyOf(username) {
        if first.response == response {
          assert events[0] == Answer(response);
        }
      } else {
        FirstAnswerExactly(rest, username, response);
        if FirstAnswer(rest, KeyOf(username)) == Some(response) {
          var i: nat :| i < |rest| && rest[i] == Answer(response)
            && Lowercase(response.username) == Lowercase(username)
            && forall j | 0 <= j < i && rest[j].Answer? ::
                 Lowercase(rest[j].response.username) != Lowercase(username);
          assert events[i + 1] == Answer(response);
          assert forall j | 0 < j < i + 1 :: events[j] == rest[j - 1];
        }
        forall i: nat | i < |events| && events[i] == Answer(response)
            && Lowercase(response.username) == Lowercase(username)
            && forall j | 0 <= j < i && events[j].Answer? ::
                 Lowercase(events[j].response.username) != Lowercase(username)
          ensures FirstAnswer(rest, KeyOf(username)) == Some(response)
        {
          assert i > 0 && rest[i - 1] == Answer(response);
          assert forall j | 0 <= j < i - 1 :: rest[j] == events[j + 1];
        }
      }
    }
  }

  datatype State = State(
    subs: map<Bytes, seq<nat>>,
    keys: map<nat, Bytes>,             // history: the key of every request made
    sent: seq<(nat, Response)>)        // history: every send on a one-shot channel, in order

  const INITIAL: State := State(map[], map[], [])

  function WaitersFor(s: State, key: Bytes): seq<nat> {
    if key in s.subs then s.subs[key] else []
  }

  function SendsOf(waiters: seq<nat>, response: Response): (sends: seq<(nat, Response)>)
    ensures |sends| == |waiters|
  {
    seq(|waiters|, i requires 0 <= i < |waiters| => (waiters[i], response))
  }

  predicate Enabled(s: State, event: Event) {
    event.Subscribe? ==> event.w !in s.keys
  }

  function Apply(s: State, event: Event): State {
    match event
    case Subscribe(w, username) =>
      var key := KeyOf(username);
      s.(subs := s.subs[key := WaitersFor(s, key) + [w]], keys := s.keys[w := key])
    case Answer(response) =>
      var key := KeyOf(response.username);
      s.(subs := s.subs - {key}, sent := s.sent + SendsOf(WaitersFor(s, key), response))
  }

  predicate Legal(s: State, events: seq<Event>)
    decreases |events|
  {
    events == [] || (Enabled(s, events[0]) && Legal(Apply(s, events[0]), events[1..]))
  }

  function After(s: State, events: seq<Event>): State
    decreases |events|
  {
    if events == [] then s else After(Apply(s, events[0]), events[1..])
  }

  // ---------------------------------------------------------------- the invariant

  ghost predicate IsWaiting(s: State, w: nat) {
    w in s.keys && w in WaitersFor(s, s.keys[w])
  }

  ghost predicate WasSent(s: State, w: nat) {
    exists i :: 0 <= i < |s.sent| && s.sent[i].0 == w
  }

  /** Every request made is waiting under its key, once, or has been sent one response. */
  ghost predicate Inv(s: State) {
    && (forall key, w | key in s.subs && w in s.subs[key] :: w in s.keys && s.keys[w] == key)
    && (forall key | key in s.subs :: forall i, j | 0 <= i < j < |s.subs[key]| :: s.subs[key][i] != s.subs[key][j])
    && (forall i | 0 <= i < |s.sent| :: s.sent[i].0 in s.keys && !IsWaiting(s, s.sent[i].0))
    && (forall i, j | 0 <= i < j < |s.sent| :: s.sent[i].0 != s.sent[j].0)
    && (forall w | w in s.keys :: IsWaiting(s, w) || WasSent(s, w))
  }

  lemma SubscribeInv(s: State, w: nat, username: Bytes)
    requires Inv(s) && w !in s.keys
    ensures Inv(Apply(s, Subscribe(w, username)))
    ensures IsWaiting(Apply(s, Subscribe(w, username)), w)
  {
    hide KeyOf;
    var (t, key) := (Apply(s, Subscribe(w, username)), KeyOf(username));
    assert t.subs[key][|t.subs[key]| - 1] == w;
    forall v | v in s.keys
      ensures IsWaiting(t, v) == IsWaiting(s, v)
    {
      WaitersGrow(s, w, username, s.keys[v], v);
    }
    forall v | v in t.keys
      ensures IsWaiting(t, v) || WasSent(t, v)
    {
      if v in s.keys && WasSent(s, v) {
        assert t.sent == s.sent;
      }
    }
  }

  lemma WaitersGrow(s: State, w: nat, username: Bytes, key: Bytes, v: nat)
    requires v != w
    ensures v in WaitersFor(Apply(s, Subscribe(w, username)), key) <==> v in WaitersFor(s, key)
  {
  }

  /** Who waits after a response, and who has been sent something. */
  lemma AnswerWaiting(s: State, response: Response, w: nat)
    requires Inv(s)
    ensures var (t, key) := (Apply(s, Answer(response)), KeyOf(response.username));
            && (IsWaiting(t, w) <==> IsWaiting(s, w) && s.keys[w] != key)
            && (WasSent(t, w) <==> WasSent(s, w) || (IsWaiting(s, w) && s.keys[w] == key))
  {
    hide KeyOf;
    var (t, key) := (Apply(s, Answer(response)), KeyOf(response.username));
    var waiters := WaitersFor(s, key);
    if WasSent(s, w) {
      var i :| 0 <= i < |s.sent| && s.sent[i].0 == w;
      assert t.sent[i] == s.sent[i];
    }
    if w in waiters {
      var i :| 0 <= i < |waiters| && waiters[i] == w;
      assert t.sent[|s.sent| + i].0 == w;
    }
    if WasSent(t, w) {
      var i :| 0 <= i < |t.sent| && t.sent[i].0 == w;
      assert i < |s.sent| ==> s.sent[i].0 == w;
      assert i >= |s.sent| ==> waiters[i - |s.sent|] == w;
    }
  }

  lemma AnswerSendsOnce(s: State, response: Response)
    requires Inv(s)
    ensures var t := Apply(s, Answer(response));
            forall i, j | 0 <= i < j < |t.sent| :: t.sent[i].0 != t.sent[j].0
  {
    var (t, waiters) := (Apply(s, Answer(response)), WaitersFor(s, KeyOf(response.username)));
    forall i, j | 0 <= i < j < |t.sent|
      ensures t.sent[i].0 != t.sent[j].0
    {
      var n := |s.sent|;
      if j >= n {
        assert t.sent[j].0 == waiters[j - n] && IsWaiting(s, waiters[j - n]);
        if i >= n {
          assert t.sent[i].0 == waiters[i - n];
        } else {
          assert t.sent[i] == s.sent[i];
        }
      } else {
        assert t.sent[i] == s.sent[i] && t.sent[j] == s.sent[j];
      }
    }
  }

  lemma AnswerInv(s: State, response: Response)
    requires Inv(s)
    ensures Inv(Apply(s, Answer(response)))
  {
    var t := Apply(s, Answer(response));
    AnswerSendsOnce(s, response);
    forall w
      ensures IsWaiting(t, w) <==> IsWaiting(s, w) && s.keys[w] != KeyOf(response.username)
      ensures WasSent(t, w) <==> WasSent(s, w) || (IsWaiting(s, w) && s.keys[w] == KeyOf(response.username))
    {
      AnswerWaiting(s, response, w);
    }
    forall i | 0 <= i < |t.sent|
      ensures t.sent[i].0 in s.keys && !IsWaiting(t, t.sent[i].0)
    {
      assert WasSent(t, t.sent[i].0);
      if WasSent(s, t.sent[i].0) {
        var k :| 0 <= k < |s.sent| && s.sent[k].0 == t.sent[i].0;
      }
    }
    hide WaitersFor, IsWaiting, WasSent;
  }

  lemma StepInv(s: State, event: Event)
    requires Inv(s) && Enabled(s, event)
    ensures Inv(Apply(s, event))
  {
    match event
    case Subscribe(w, username) => SubscribeInv(s, w, username);
    case Answer(response) => AnswerInv(s, response);
  }

  // ---------------------------------------------------------------- one response

  /** A response is sent to exactly the requests then waiting under its lower-cased name, to each
      once, in the order they were made; all other requests keep waiting. */
  lemma AnswerResolvesExactly(s: State, response: Response)
    requires Inv(s)
    ensures var (t, key) := (Apply(s, Answer(response)), KeyOf(response.username));
            var sends := t.sent[|s.sent|..];
            && t.sent[..|s.sent|] == s.sent
            && (forall i | 0 <= i < |sends| :: sends[i].1 == response)
            && (forall w :: IsWaiting(s, w) && s.keys[w] == key <==> exists i :: 0 <= i < |sends| && sends[i].0 == w)
            && (forall i, j | 0 <= i < j < |sends| :: sends[i].0 != sends[j].0)
            && (forall w :: IsWaiting(t, w) <==> IsWaiting(s, w) && s.keys[w] != key)
  {
    hide KeyOf;
    var (t, key) := (Apply(s, Answer(response)), KeyOf(response.username));
    var (waiters, sends) := (WaitersFor(s, key), t.sent[|s.sent|..]);
    assert sends == SendsOf(waiters, response);
    forall w | IsWaiting(s, w) && s.keys[w] == key
      ensures exists i :: 0 <= i < |sends| && sends[i].0 == w
    {
      var i :| 0 <= i < |waiters| && waiters[i] == w;
      assert sends[i].0 == w;
    }
  }

  // ---------------------------------------------------------------- whole runs

  ghost predicate SentExactly(s: State, w: nat, response: Response) {
    (w, response) in s.sent && forall i | 0 <= i < |s.sent| && s.sent[i].0 == w :: s.sent[i].1 == response
  }

  lemma SentOnce(s: State, w: nat, response: Response)
    requires Inv(s) && (w, response) in s.sent
    ensures SentExactly(s, w, response)
  {
    var i :| 0 <= i < |s.sent| && s.sent[i] == (w, response);
  }

  lemma {:induction false} SendsStay(s: State, events: seq<Event>, send: (nat, Response))
    requires Inv(s) && Legal(s, events) && send in s.sent
    ensures Inv(After(s, events)) && send in After(s, events).sent
    decreases |events|
  {
    hide Inv, Enabled;
    if events != [] {
      StepInv(s, events[0]);
      SendsStay(Apply(s, events[0]), events[1..], send);
    }
  }

  lemma {:induction false} WaitsForFirstAnswer(s: State, events: seq<Event>, w: nat)
    requires Inv(s) && Legal(s, events) && IsWaiting(s, w)
    ensures var (t, answer) := (After(s, events), FirstAnswer(events, s.keys[w]));
            Inv(t) && (if answer.None? then IsWaiting(t, w) else SentExactly(t, w, answer.value))
    decreases |events|
  {
    if events != [] {
      var (event, t) := (events[0], Apply(s, events[0]));
      StepInv(s, event);
      if event.Answer? && KeyOf(event.response.username) == s.keys[w] {
        var waiters := WaitersFor(s, s.keys[w]);
        var i :| 0 <= i < |waiters| && waiters[i] == w;
        assert t.sent[|s.sent| + i] == (w, event.response);
        SendsStay(t, events[1..], (w, event.response));
        SentOnce(After(s, events), w, event.response);
      } else {
        if event.Subscribe? {
          WaitersGrow(s, event.w, event.username, s.keys[w], w);
        }
        WaitsForFirstAnswer(t, events[1..], w);
      }
    }
  }

  lemma {:induction false} RunInv(s: State, events: seq<Event>)
    requires Inv(s) && Legal(s, events)
    ensures Inv(After(s, events))
    decreases |events|
  {
    hide Inv, Enabled;
    if events != [] {
      StepInv(s, events[0]);
      RunInv(Apply(s, events[0]), events[1..]);
    }
  }

  /** Over any run: a request is sent one response, the first one after it for its lower-cased
      name, and nothing else; while there is none, it keeps waiting. */
  lemma RequestGetsFirstAnswer(before: seq<Event>, w: nat, username: Bytes, later: seq<Event>)
    requires Legal(INITIAL, before) && Enabled(After(INITIAL, before), Subscribe(w, username))
    requires Legal(Apply(After(INITIAL, before), Subscribe(w, username)), later)
    ensures var t := After(Apply(After(INITIAL, before), Subscribe(w, username)), later);
            var answer := FirstAnswer(later, KeyOf(username));
            if answer.None? then !WasSent(t, w) && IsWaiting(t, w) else SentExactly(t, w, answer.value)
  {
    RunInv(INITIAL, before);
    var s := After(INITIAL, before);
    SubscribeInv(s, w, username);
    WaitsForFirstAnswer(Apply(s, Subscribe(w, username)), later, w);
  }

  // ---------------------------------------------------------------- the object

  class ServerRouter {
    var peerAddressSubs: map<Bytes, seq<nat>>
    ghost var state: State

    ghost predicate Valid()
      reads this
    {
      peerAddressSubs == state.subs && Inv(state)
    }

    constructor ()
      ensures Valid() && state == INITIAL
    {
      peerAddressSubs, state := map[], INITIAL;
    }

    method GetPeerAddress(w: nat, username: Bytes)
      requires Valid() && w !in state.keys
      modifies this
      ensures Valid() && state == Apply(old(state), Subscribe(w, username))
    {
      hide Inv;
      StepInv(state, Subscribe(w, username));
      var key := Lowercase(username);
      if key !in peerAddressSubs {
        peerAddressSubs := peerAddressSubs[key := []];
      }
      peerAddressSubs := peerAddressSubs[key := peerAddressSubs[key] + [w]];
      state := Apply(state, Subscribe(w, username));
    }

    /** The code-3 arm of the reader; the sends it makes, in order. */
    method HandlePeerAddress(response: Response) returns (sends: seq<(nat, Response)>)
      requires Valid()
      modifies this
      ensures Valid() && state == Apply(old(state), Answer(response))
      ensures state.sent == old(state).sent + sends
    {
      hide Inv;
      StepInv(state, Answer(response));
      sends := [];
      var key := Lowercase(response.username);
      ghost var next := Apply(state, Answer(response));
      if key in peerAddressSubs {
        var waiters := peerAddressSubs[key];
        peerAddressSubs := peerAddressSubs - {key};
        for i := 0 to |waiters|
          invariant sends == SendsOf(waiters[..i], response)
        {
          sends := sends + [(waiters[i], response)];
        }
        assert waiters[..|waiters|] == waiters;
      }
      assert peerAddressSubs == next.subs;
      state := next;
    }
  }
}
