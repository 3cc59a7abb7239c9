/** The thirty-second window behind the average upload speed; times are in seconds. */
module SpeedTracker {
  import opened Seqs

  const WINDOW: real := 30.0

  datatype Sample = Sample(at: real, bytes: nat)

  predicate Recent(sample: Sample, now: real) {
    now - sample.at <= WINDOW
  }

  /** Pruning stops at the first sample that is recent enough. */
  function Pruned(samples: seq<Sample>, now: real): seq<Sample> {
    if samples == [] || Recent(samples[0], now) then samples else Pruned(samples[1..], now)
  }

  /** The deque after a whole history of records. */
  function Window(history: seq<Sample>): seq<Sample> {
    if history == [] then []
    else
      var last := |history| - 1;
      Pruned(Window(history[..last]) + [history[last]], history[last].at)
  }

  function RecentOf(history: seq<Sample>, now: real): seq<Sample> {
    Filter(history, sample => Recent(sample, now))
  }

  ghost predicate Monotone(samples: seq<Sample>) {
    forall i, j | 0 <= i < j < |samples| :: samples[i].at <= samples[j].at
  }

  /** On samples in time order, pruning from the front finds every old one. */
  lemma {:induction false} PruneIsFilter(samples: seq<Sample>, now: real)
    requires Monotone(samples)
    ensures Pruned(samples, now) == RecentOf(samples, now)
  {
    if samples != [] {
      if Recent(samples[0], now) {
        forall sample | sample in samples
          ensures Recent(sample, now)
        {
        }
        FilterAll(samples, sample => Recent(sample, now));
      } else {
        PruneIsFilter(samples[1..], now);
      }
    }
  }

  /** Samples dropped earlier would be dropped now: filtering first by an earlier time is harmless. */
  lemma {:induction false} FilterLater(history: seq<Sample>, earlier: real, now: real)
    requires earlier <= now
    ensures RecentOf(RecentOf(history, earlier), now) == RecentOf(history, now)
  {
    FilterTwice(history, sample => Recent(sample, earlier), sample => Recent(sample, now),
                sample => Recent(sample, now));
  }

  lemma {:induction false} RecentKeepsOrder(history: seq<Sample>, now: real)
    requires Monotone(history)
    ensures Monotone(RecentOf(history, now))
  {
    if history != [] {
      RecentKeepsOrder(history[1..], now);
      var rest := RecentOf(history[1..], now);
      forall j | 0 <= j < |rest|
        ensures history[0].at <= rest[j].at
      {
        assert rest[j] in history[1..];
      }
    }
  }

  /** With a monotone clock the deque is, in order, every sample ever recorded that is at most
      thirty seconds old. */
  lemma {:induction false} WindowIsRecentHistory(history: seq<Sample>)
    requires Monotone(history) && history != []
    ensures Window(history) == RecentOf(history, history[|history| - 1].at)
    ensures forall sample :: sample in Window(history) <==>
              sample in history && history[|history| - 1].at - sample.at <= 30.0
    decreases |history|
  {
    hide Pruned;
    var last := |history| - 1;
    var (before, now) := (history[..last], history[last].at);
    var p := sample => Recent(sample, now);
    var kept := Window(before);
    assert history == before + [history[last]];
    if before != [] {
      var earlier := before[last - 1].at;
      WindowIsRecentHistory(before);
      RecentKeepsOrder(before, earlier);
      FilterLater(before, earlier, now);
    }
    FilterSnoc(kept, history[last], p);
    FilterSnoc(before, history[last], p);
    SnocKeepsOrder(kept, history, last);
    PruneIsFilter(kept + [history[last]], now);
  }

  lemma SnocKeepsOrder(kept: seq<Sample>, history: seq<Sample>, last: nat)
    requires last < |history| && Monotone(history) && Monotone(kept)
    requires forall sample | sample in kept :: sample in history[..last]
    ensures Monotone(kept + [history[last]])
  {
    forall i | 0 <= i < |kept|
      ensures kept[i].at <= history[last].at
    {
      assert kept[i] in history[..last];
    }
  }

  lemma WindowSnoc(history: seq<Sample>, sample: Sample)
    ensures Window(history + [sample]) == Pruned(Window(history) + [sample], sample.at)
  {
    assert (history + [sample])[..|history|] == history;
  }

  class SpeedTracker {
    var samples: seq<Sample>
    ghost var history: seq<Sample>

    ghost predicate Valid()
      reads this
    {
      samples == Window(history)
    }

    constructor ()
      ensures Valid() && history == [] && samples == []
    {
      samples, history := [], [];
    }

    method Record(bytes: nat, now: real)
      requires Valid()
      modifies this
      ensures Valid() && history == old(history) + [Sample(now, bytes)]
      ensures samples == Pruned(old(samples) + [Sample(now, bytes)], now)
      ensures Monotone(history) ==> samples == RecentOf(history, now)
    {
      hide Filter, RecentOf, Window;
      ghost var pushed := samples + [Sample(now, bytes)];
      samples := samples + [Sample(now, bytes)];
      while samples != [] && now - samples[0].at > WINDOW
        invariant Pruned(samples, now) == Pruned(pushed, now) && history == old(history)
      {
        samples := samples[1..];
      }
      history := history + [Sample(now, bytes)];
      WindowSnoc(old(history), Sample(now, bytes));
      if Monotone(history) {
        WindowIsRecentHistory(history);
      }
    }
  }
}
