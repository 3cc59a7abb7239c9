/** The upload throttle: a token bucket holding at most one second of its rate. Times are in
    seconds and, like the token count, real numbers. */
module TokenBucket {
  /** Bytes per second, as read from the atomic; a rate of 0 means unlimited. */
  type Rate = nat

  const TICK: real := 0.01
  const BUFFER: nat := 65536

  datatype Bucket = Bucket(tokens: real, lastRefill: real)

  function RateOf(kbps: nat): Rate {
    kbps * 1024
  }

  function Least(a: real, b: real): real {
    if a <= b then a else b
  }

  /** `duration_since` is zero when the clock reads earlier. */
  function Elapsed(b: Bucket, now: real): (t: real)
    ensures t >= 0.0
  {
    if now >= b.lastRefill then now - b.lastRefill else 0.0
  }

  /** What `seconds` at `rate` earn. */
  function Earned(rate: Rate, seconds: real): real {
    seconds * rate as real
  }

  lemma EarnedAdds(rate: Rate, s: real, t: real)
    ensures Earned(rate, s + t) == Earned(rate, s) + Earned(rate, t)
    ensures Earned(rate, 0.0) == 0.0 && Earned(rate, 1.0) == rate as real
  {
  }

  lemma EarnedGrows(rate: Rate, limit: Rate, s: real, t: real)
    requires rate <= limit && 0.0 <= s <= t
    ensures 0.0 <= Earned(rate, s) <= Earned(limit, t)
  {
    assert Earned(limit, t) - Earned(rate, s) == (limit - rate) as real * t + rate as real * (t - s);
  }

  function Refill(b: Bucket, rate: Rate, now: real): Bucket {
    Bucket(Least(b.tokens + Earned(rate, Elapsed(b, now)), rate as real), now)
  }

  predicate Affordable(b: Bucket, rate: Rate, bytes: nat, now: real) {
    Refill(b, rate, now).tokens >= bytes as real
  }

  /** One pass through the critical section of `consume`. */
  function Try(b: Bucket, rate: Rate, bytes: nat, now: real): Bucket {
    var full := Refill(b, rate, now);
    if Affordable(b, rate, bytes, now) then full.(tokens := full.tokens - bytes as real) else full
  }

  // ---------------------------------------------------------------- the rate bound

  /** A pass by any of the concurrent senders; the rate is the one its `consume` read when called. */
  datatype Attempt = Attempt(rate: Rate, bytes: nat, now: real)

  function After(b: Bucket, attempts: seq<Attempt>): Bucket
    decreases |attempts|
  {
    if attempts == [] then b
    else After(Try(b, attempts[0].rate, attempts[0].bytes, attempts[0].now), attempts[1..])
  }

  function Granted(b: Bucket, attempts: seq<Attempt>): nat
    decreases |attempts|
  {
    if attempts == [] then 0
    else
      var a := attempts[0];
      (if Affordable(b, a.rate, a.bytes, a.now) then a.bytes else 0)
      + Granted(Try(b, a.rate, a.bytes, a.now), attempts[1..])
  }

  ghost predicate Monotone(from: real, attempts: seq<Attempt>)
    decreases |attempts|
  {
    attempts == [] || (from <= attempts[0].now && Monotone(attempts[0].now, attempts[1..]))
  }

  /** A limit on every rate in use, and on the tokens at hand. */
  ghost predicate Limited(b: Bucket, attempts: seq<Attempt>, limit: Rate) {
    0.0 <= b.tokens <= limit as real && forall a | a in attempts :: a.rate <= limit
  }

  lemma TryConserves(b: Bucket, a: Attempt, limit: Rate)
    requires 0.0 <= b.tokens <= limit as real && a.rate <= limit && b.lastRefill <= a.now
    ensures var t := Try(b, a.rate, a.bytes, a.now);
            var taken := if Affordable(b, a.rate, a.bytes, a.now) then a.bytes as real else 0.0;
            && 0.0 <= t.tokens <= a.rate as real && t.lastRefill == a.now
            && t.tokens + taken <= b.tokens + Earned(limit, a.now - b.lastRefill)
  {
    var t := a.now - b.lastRefill;
    EarnedGrows(a.rate, limit, t, t);
    hide Earned;
  }

  /** Over any stretch of time, whoever takes the lock and however the rate is changed: the bytes
      granted never exceed one second's worth plus the elapsed time's worth of the highest rate,
      and the tokens never leave the range from 0 to that rate. */
  lemma {:induction false} RateBound(b: Bucket, attempts: seq<Attempt>, limit: Rate)
    requires Limited(b, attempts, limit) && Monotone(b.lastRefill, attempts)
    ensures var t := After(b, attempts);
            && t.lastRefill >= b.lastRefill
            && 0.0 <= t.tokens <= limit as real
            && Granted(b, attempts) as real + t.tokens <= b.tokens + Earned(limit, t.lastRefill - b.lastRefill)
            && Granted(b, attempts) as real <= Earned(limit, 1.0 + (t.lastRefill - b.lastRefill))
    decreases |attempts|
  {
    hide Earned, Try, Affordable;
    EarnedAdds(limit, 1.0, After(b, attempts).lastRefill - b.lastRefill);
    EarnedAdds(limit, 0.0, 0.0);
    if attempts != [] {
      var a := attempts[0];
      TryConserves(b, a, limit);
      var next := Try(b, a.rate, a.bytes, a.now);
      RateBound(next, attempts[1..], limit);
      var t := After(b, attempts);
      EarnedAdds(limit, t.lastRefill - a.now, a.now - b.lastRefill);
      assert (t.lastRefill - a.now) + (a.now - b.lastRefill) == t.lastRefill - b.lastRefill;
    }
  }

  // ---------------------------------------------------------------- a lone consumer

  /** The passes one `consume` makes, one per clock reading, until it is granted: how many, and the
      bucket it leaves. `None`: still waiting after the last reading. */
  datatype Wait = Wait(passes: nat, granted: bool, bucket: Bucket)

  function ConsumeLoop(b: Bucket, rate: Rate, bytes: nat, readings: seq<real>): (w: Wait)
    ensures w.passes <= |readings|
    decreases |readings|
  {
    if readings == [] then Wait(0, false, b)
    else
      var next := Try(b, rate, bytes, readings[0]);
      if Affordable(b, rate, bytes, readings[0]) then Wait(1, true, next)
      else
        var w := ConsumeLoop(next, rate, bytes, readings[1..]);
        w.(passes := w.passes + 1)
  }

  /** Clock readings at least one sleep apart. */
  ghost predicate Spaced(readings: seq<real>) {
    forall i | 0 <= i < |readings| - 1 :: readings[i] + TICK <= readings[i + 1]
  }

  /** How many sleeps earn `bytes` tokens. */
  ghost predicate Enough(rate: Rate, bytes: nat, sleeps: nat) {
    Earned(rate, sleeps as real * TICK) >= bytes as real
  }

  lemma {:induction false} WaitIsBounded(b: Bucket, rate: Rate, bytes: nat, readings: seq<real>, earned: nat,
                                         sleeps: nat)
    requires 0 < rate && bytes <= rate && Spaced(readings)
    requires earned <= sleeps && Enough(rate, bytes, sleeps) && |readings| > sleeps - earned
    requires readings[0] >= b.lastRefill + (if earned == 0 then 0.0 else TICK)
    requires b.tokens >= 0.0
    requires earned > 0 ==> b.tokens >= Least(Earned(rate, (earned - 1) as real * TICK), rate as real)
    ensures var w := ConsumeLoop(b, rate, bytes, readings);
            w.granted && w.passes <= sleeps - earned + 1
    decreases sleeps - earned
  {
    hide Earned;
    var full := Refill(b, rate, readings[0]);
    RefillEarns(b, rate, readings[0], earned);
    if !Affordable(b, rate, bytes, readings[0]) {
      assert full.tokens < bytes as real <= rate as real;
      assert earned < sleeps;
      assert readings[0] + TICK <= readings[1];
      WaitIsBounded(full, rate, bytes, readings[1..], earned + 1, sleeps);
    }
  }

  /** After the `earned`-th sleep the bucket holds that many sleeps' worth, or is full. */
  lemma RefillEarns(b: Bucket, rate: Rate, now: real, earned: nat)
    requires now >= b.lastRefill + (if earned == 0 then 0.0 else TICK)
    requires b.tokens >= 0.0
    requires earned > 0 ==> b.tokens >= Least(Earned(rate, (earned - 1) as real * TICK), rate as real)
    ensures Refill(b, rate, now).tokens >= Least(Earned(rate, earned as real * TICK), rate as real)
    ensures Refill(b, rate, now).tokens >= 0.0
  {
    if earned > 0 {
      EarnedAdds(rate, (earned - 1) as real * TICK, TICK);
      assert (earned - 1) as real * TICK + TICK == earned as real * TICK;
      EarnedGrows(rate, rate, TICK, Elapsed(b, now));
      EarnedGrows(rate, rate, 0.0, (earned - 1) as real * TICK);
    } else {
      EarnedAdds(rate, 0.0, 0.0);
      EarnedGrows(rate, rate, 0.0, Elapsed(b, now));
    }
    hide Earned;
  }

  lemma {:induction false} NeverAffordable(b: Bucket, rate: Rate, bytes: nat, readings: seq<real>)
    requires bytes > rate
    ensures !ConsumeLoop(b, rate, bytes, readings).granted
    decreases |readings|
  {
    if readings != [] {
      NeverAffordable(Try(b, rate, bytes, readings[0]), rate, bytes, readings[1..]);
    }
  }

  /** A lone `consume` of `bytes` is granted within about 100*bytes/rate sleeps of 10 ms exactly
      when `bytes` does not exceed the rate; otherwise no amount of waiting helps. */
  lemma ConsumeEnds(b: Bucket, rate: Rate, bytes: nat, readings: seq<real>, sleeps: nat)
    requires 0 < rate && b.tokens >= 0.0
    requires forall i | 0 <= i < |readings| - 1 :: readings[i] + 0.01 <= readings[i + 1]
    requires sleeps * rate >= 100 * bytes && |readings| > sleeps && readings[0] >= b.lastRefill
    ensures var w := ConsumeLoop(b, rate, bytes, readings);
            && (w.granted <==> bytes <= rate)
            && (w.granted ==> w.passes <= sleeps + 1)
  {
    if bytes <= rate {
      assert (sleeps * rate) as real == sleeps as real * rate as real;
      assert Earned(rate, sleeps as real * TICK) == (sleeps as real * rate as real) / 100.0;
      WaitIsBounded(b, rate, bytes, readings, 0, sleeps);
    } else {
      NeverAffordable(b, rate, bytes, readings);
    }
  }

  /** A limit lets a full 64 KB buffer through, from some bucket at some time, exactly when it is 64 KB/s
      or more. */
  lemma SlowLimitsStopFullBuffers(kbps: nat)
    requires 0 < kbps
    ensures (exists b, readings :: ConsumeLoop(b, RateOf(kbps), BUFFER, readings).granted) <==> kbps >= 64
    ensures RateOf(kbps) == 1024 * kbps && BUFFER == 64 * 1024
  {
    if kbps >= 64 {
      var full := Bucket(RateOf(kbps) as real, 0.0);
      EarnedAdds(RateOf(kbps), 0.0, 0.0);
      assert Affordable(full, RateOf(kbps), BUFFER, 0.0);
      assert ConsumeLoop(full, RateOf(kbps), BUFFER, [0.0]).granted;
    } else {
      forall b, readings
        ensures !ConsumeLoop(b, RateOf(kbps), BUFFER, readings).granted
      {
        NeverAffordable(b, RateOf(kbps), BUFFER, readings);
      }
    }
  }

  // ---------------------------------------------------------------- the object

  class TokenBucket {
    var rateBytesPerSec: Rate
    var tokens: real
    var lastRefill: real

    function Contents(): Bucket
      reads this
    {
      Bucket(tokens, lastRefill)
    }

    constructor (kbps: nat, now: real)
      ensures rateBytesPerSec == RateOf(kbps)
      ensures Contents() == Bucket(RateOf(kbps) as real, now)
    {
      rateBytesPerSec, tokens, lastRefill := RateOf(kbps), RateOf(kbps) as real, now;
    }

    method SetRate(kbps: nat)
      modifies `rateBytesPerSec
      ensures rateBytesPerSec == RateOf(kbps)
    {
      rateBytesPerSec := RateOf(kbps);
    }

    /** The loop, given what the clock will read at each pass. */
    method Consume(bytes: nat, readings: seq<real>) returns (granted: bool, passes: nat)
      modifies `tokens, `lastRefill
      ensures rateBytesPerSec == 0 ==> granted && passes == 0 && Contents() == old(Contents())
      ensures rateBytesPerSec > 0 ==>
                Wait(passes, granted, Contents()) == ConsumeLoop(old(Contents()), rateBytesPerSec, bytes, readings)
    {
      hide Earned;
      var rate := rateBytesPerSec;
      passes := 0;
      if rate == 0 {
        return true, 0;
      }
      while passes < |readings|
        invariant passes <= |readings| && rateBytesPerSec == rate
        invariant var w := ConsumeLoop(Contents(), rate, bytes, readings[passes..]);
                  w.(passes := w.passes + passes) == ConsumeLoop(old(Contents()), rate, bytes, readings)
      {
        var now := readings[passes];
        var elapsed := if now >= lastRefill then now - lastRefill else 0.0;
        assert readings[passes..][1..] == readings[passes + 1..];
        passes := passes + 1;
        tokens := tokens + Earned(rate, elapsed);
        if tokens > rate as real {
          tokens := rate as real;
        }
        lastRefill := now;
        if tokens >= bytes as real {
          tokens := tokens - bytes as real;
          return true, passes;
        }
      }
      granted := false;
    }
  }
}
