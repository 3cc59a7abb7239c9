/** Concurrent searches share one map of result buckets and one set of active tokens, each under
    its own lock. A peer's reply is checked and stored with the token lock held throughout; a
    search takes each lock only for a moment. A step is one lock-held region, except that a
    delivery is two: taking the token lock, then storing and releasing it. */
module SearchRouting {
  import opened Wrappers
  import opened Bytes

  type Token = U32

  /** A parsed reply from a peer, with the token it carries. */
  datatype Reply = Reply(token: Token, username: Bytes, files: seq<Bytes>)

  datatype Phase =
    | Registered                     // token active, bucket not yet made
    | Bucketed                       // bucket made, request not yet sent
    | Sent
    | Collected(results: seq<Reply>) // bucket taken; the grace period
    | Unregistered(results: seq<Reply>)
    | Done(results: seq<Reply>)
    | Failed                         // sending failed: the call returned early

  /** `base`: how many replies with this token had been stored when its bucket was made. */
  datatype Search = Search(token: Token, phase: Phase, base: nat)

  datatype State = State(
    tokens: set<Token>,
    buckets: map<Token, seq<Reply>>,
    holder: Option<Reply>,           // the delivery that holds the token lock, having found its token active
    searches: map<nat, Search>,
    stored: map<Token, seq<Reply>>)  // history: the replies ever pushed, per token

  datatype SearchStep =
    | MakeBucket
    | SendOk
    | SendFails
    | Collect
    | CollectMore
    | Unregister
    | CleanUp

  datatype Label =
    | Begin(q: nat, token: Token)
    | Advance(q: nat, search: SearchStep)
    | Arrive(reply: Reply)           // check under the token lock
    | Store                          // push, notify, release

  const INITIAL: State := State({}, map[], None, map[], map[])

  function StoredFor(s: State, token: Token): seq<Reply> {
    if token in s.stored then s.stored[token] else []
  }

  function BucketOf(s: State, token: Token): seq<Reply> {
    if token in s.buckets then s.buckets[token] else []
  }

  // ---------------------------------------------------------------- steps

  /** The search is still to take part in what happens to its token. */
  predicate Live(search: Search) {
    !search.phase.Done? && !search.phase.Failed?
  }

  /** Tokens are drawn at random from 2^32; a search is assumed to draw one that no search under way
      has. A token may come again once its search has returned. */
  ghost predicate FreshToken(s: State, token: Token) {
    forall q | q in s.searches && Live(s.searches[q]) :: s.searches[q].token != token
  }

  ghost predicate AdvanceEnabled(s: State, q: nat, step: SearchStep) {
    && q in s.searches
    && var phase := s.searches[q].phase;
       match step
       case MakeBucket => phase.Registered?
       case SendOk => phase.Bucketed?
       case SendFails => phase.Bucketed?
       case Collect => phase.Sent?
       case CollectMore => phase.Collected?
       case Unregister => phase.Collected? && s.holder.None?
       case CleanUp => phase.Unregistered?
  }

  ghost function WithPhase(s: State, q: nat, phase: Phase): State
    requires q in s.searches
  {
    s.(searches := s.searches[q := s.searches[q].(phase := phase)])
  }

  ghost function ApplyAdvance(s: State, q: nat, step: SearchStep): State
    requires AdvanceEnabled(s, q, step)
  {
    var Search(token, phase, base) := s.searches[q];
    match step
    case MakeBucket =>
      s.(buckets := s.buckets[token := []], searches := s.searches[q := Search(token, Bucketed, |StoredFor(s, token)|)])
    case SendOk => WithPhase(s, q, Sent)
    case SendFails => WithPhase(s, q, Failed)
    case Collect => WithPhase(s, q, Collected(BucketOf(s, token))).(buckets := s.buckets - {token})
    case CollectMore => WithPhase(s, q, Collected(phase.results + BucketOf(s, token))).(buckets := s.buckets - {token})
    case Unregister => WithPhase(s, q, Unregistered(phase.results)).(tokens := s.tokens - {token})
    case CleanUp => WithPhase(s, q, Done(phase.results)).(buckets := s.buckets - {token})
  }

  ghost predicate Enabled(s: State, step: Label) {
    match step
    case Begin(q, token) => s.holder.None? && q !in s.searches && FreshToken(s, token)
    case Advance(q, search) => AdvanceEnabled(s, q, search)
    case Arrive(_) => s.holder.None?
    case Store => s.holder.Some?
  }

  ghost function Apply(s: State, step: Label): State
    requires Enabled(s, step)
  {
    match step
    case Begin(q, token) => s.(tokens := s.tokens + {token}, searches := s.searches[q := Search(token, Registered, 0)])
    case Advance(q, search) => ApplyAdvance(s, q, search)
    case Arrive(reply) => if reply.token in s.tokens then s.(holder := Some(reply)) else s
    case Store =>
      var reply := s.holder.value;
      s.(holder := None,
         buckets := s.buckets[reply.token := BucketOf(s, reply.token) + [reply]],
         stored := s.stored[reply.token := StoredFor(s, reply.token) + [reply]])
  }

  ghost predicate Legal(s: State, run: seq<Label>)
    decreases |run|
  {
    run == [] || (Enabled(s, run[0]) && Legal(Apply(s, run[0]), run[1..]))
  }

  ghost function After(s: State, run: seq<Label>): State
    requires Legal(s, run)
    decreases |run|
  {
    if run == [] then s else After(Apply(s, run[0]), run[1..])
  }

  // ---------------------------------------------------------------- the invariant

  /** Results gathered so far are the stored replies from the base on, up to what the bucket still holds. */
  ghost predicate Gathered(s: State, search: Search, results: seq<Reply>) {
    var stored := StoredFor(s, search.token);
    search.base <= |stored| && results + BucketOf(s, search.token) == stored[search.base..]
  }

  ghost predicate Segment(s: State, search: Search, results: seq<Reply>) {
    var stored := StoredFor(s, search.token);
    search.base + |results| <= |stored| && results == stored[search.base..search.base + |results|]
  }

  ghost predicate SearchInv(s: State, search: Search) {
    var token := search.token;
    match search.phase
    case Registered => token in s.tokens
    case Bucketed => token in s.tokens && token in s.buckets && Gathered(s, search, [])
    case Sent => token in s.tokens && Gathered(s, search, [])
    case Collected(results) => token in s.tokens && Gathered(s, search, results)
    case Unregistered(results) => Quiet(s, token) && Segment(s, search, results)
    case Done(results) => Segment(s, search, results)
    case Failed => true
  }

  /** No delivery for this token is under way, and none can begin. */
  ghost predicate Quiet(s: State, token: Token) {
    token !in s.tokens && (s.holder.Some? ==> s.holder.value.token != token)
  }

  ghost predicate Inv(s: State) {
    && (s.holder.Some? ==> s.holder.value.token in s.tokens)
    && (forall q | q in s.searches :: SearchInv(s, s.searches[q]))
    && (forall p, q | p in s.searches && q in s.searches && p != q && Live(s.searches[p]) && Live(s.searches[q]) ::
          s.searches[p].token != s.searches[q].token)
    && (forall token | token in s.stored :: forall reply | reply in s.stored[token] :: reply.token == token)
  }

  /** Everything a search's invariant depends on. */
  ghost predicate SameFor(s: State, t: State, token: Token) {
    && (token in s.tokens <==> token in t.tokens)
    && (token in s.buckets <==> token in t.buckets)
    && BucketOf(s, token) == BucketOf(t, token)
    && StoredFor(s, token) == StoredFor(t, token)
    && (Quiet(s, token) ==> Quiet(t, token))
  }

  lemma OthersUndisturbed(s: State, t: State, search: Search)
    requires SearchInv(s, search) && SameFor(s, t, search.token)
    ensures SearchInv(t, search)
  {
  }

  /** What a search that has returned was given stays what was stored. */
  lemma ReturnedUndisturbed(s: State, t: State, search: Search)
    requires SearchInv(s, search) && !Live(search) && StoredFor(s, search.token) <= StoredFor(t, search.token)
    ensures SearchInv(t, search)
  {
  }

  lemma AdvanceOwn(s: State, q: nat, step: SearchStep)
    requires Inv(s) && AdvanceEnabled(s, q, step)
    ensures SearchInv(ApplyAdvance(s, q, step), ApplyAdvance(s, q, step).searches[q])
  {
    var (t, search) := (ApplyAdvance(s, q, step), s.searches[q]);
    assert SearchInv(s, search);
    var stored := StoredFor(s, search.token);
    assert StoredFor(t, search.token) == stored;
    match step
    case Collect => assert [] + BucketOf(s, search.token) == BucketOf(s, search.token) + [];
    case CollectMore =>
      assert search.phase.results + BucketOf(s, search.token) + [] == search.phase.results + BucketOf(s, search.token);
    case Unregister => GatheredIsSegment(search.phase.results, BucketOf(s, search.token), stored, search.base);
    case _ =>
  }

  lemma GatheredIsSegment(results: seq<Reply>, rest: seq<Reply>, stored: seq<Reply>, base: nat)
    requires base <= |stored| && results + rest == stored[base..]
    ensures base + |results| <= |stored| && results == stored[base..base + |results|]
  {
    assert results == (results + rest)[..|results|];
  }

  /** A search's own step touches nothing of another token. */
  lemma AdvanceTouchesOwn(s: State, q: nat, step: SearchStep)
    requires AdvanceEnabled(s, q, step)
    ensures var (t, token) := (ApplyAdvance(s, q, step), s.searches[q].token);
            && t.holder == s.holder && t.stored == s.stored
            && t.searches.Keys == s.searches.Keys && t.searches[q].token == token
            && (forall p | p in s.searches && p != q :: t.searches[p] == s.searches[p])
            && t.tokens <= s.tokens && (step.Unregister? || t.tokens == s.tokens)
            && (forall other | other != token :: SameFor(s, t, other))
  {
  }

  lemma AdvanceKeepsSearch(s: State, q: nat, step: SearchStep, p: nat)
    requires Inv(s) && AdvanceEnabled(s, q, step) && p in s.searches && p != q
    ensures var t := ApplyAdvance(s, q, step); p in t.searches && SearchInv(t, t.searches[p])
  {
    var t := ApplyAdvance(s, q, step);
    AdvanceTouchesOwn(s, q, step);
    assert Live(s.searches[q]) && SearchInv(s, s.searches[p]);
    if Live(s.searches[p]) {
      assert SameFor(s, t, s.searches[p].token);
      hide ApplyAdvance, SearchInv, SameFor;
      OthersUndisturbed(s, t, s.searches[p]);
    } else {
      assert StoredFor(s, s.searches[p].token) == StoredFor(t, s.searches[p].token);
      hide ApplyAdvance, SearchInv, SameFor;
      ReturnedUndisturbed(s, t, s.searches[p]);
    }
  }

  /** A search under way keeps its token or returns. */
  lemma AdvanceKeepsLive(s: State, q: nat, step: SearchStep)
    requires AdvanceEnabled(s, q, step)
    ensures Live(s.searches[q])
    ensures s.holder.Some? && s.holder.value.token in s.tokens ==>
              s.holder.value.token in ApplyAdvance(s, q, step).tokens
  {
  }

  lemma AdvanceInv(s: State, q: nat, step: SearchStep)
    requires Inv(s) && AdvanceEnabled(s, q, step)
    ensures Inv(ApplyAdvance(s, q, step))
  {
    var t := ApplyAdvance(s, q, step);
    AdvanceOwn(s, q, step);
    AdvanceTouchesOwn(s, q, step);
    AdvanceKeepsLive(s, q, step);
    forall p | p in s.searches && p != q
      ensures SearchInv(t, t.searches[p])
    {
      AdvanceKeepsSearch(s, q, step, p);
    }
    hide ApplyAdvance, AdvanceEnabled, SearchInv, SameFor, Live;
  }

  lemma StoreTouchesOne(s: State)
    requires s.holder.Some?
    ensures var (t, token) := (Apply(s, Store), s.holder.value.token);
            forall other | other != token :: SameFor(s, t, other)
  {
  }

  lemma StoredRepliesCarryToken(s: State, token: Token)
    requires s.holder.Some?
    requires forall reply | reply in StoredFor(s, token) :: reply.token == token
    ensures forall reply | reply in StoredFor(Apply(s, Store), token) :: reply.token == token
  {
  }

  lemma StoreInv(s: State)
    requires Inv(s) && s.holder.Some?
    ensures Inv(Apply(s, Store))
  {
    var (t, reply) := (Apply(s, Store), s.holder.value);
    StoreTouchesOne(s);
    hide SearchInv, SameFor, BucketOf;
    forall p | p in s.searches
      ensures SearchInv(t, s.searches[p])
    {
      var search := s.searches[p];
      if search.token == reply.token {
        StoreReaches(s, search);
      } else {
        OthersUndisturbed(s, t, search);
      }
    }
    forall token | token in t.stored
      ensures forall r | r in t.stored[token] :: r.token == token
    {
      StoredRepliesCarryToken(s, token);
    }
  }

  lemma StoreReaches(s: State, search: Search)
    requires s.holder.Some? && s.holder.value.token == search.token && SearchInv(s, search) && search.token in s.tokens
    ensures SearchInv(Apply(s, Store), search)
  {
    var (t, reply) := (Apply(s, Store), s.holder.value);
    var stored := StoredFor(s, search.token);
    if search.phase.Bucketed? || search.phase.Sent? || search.phase.Collected? {
      var results := if search.phase.Collected? then search.phase.results else [];
      assert (stored + [reply])[search.base..] == stored[search.base..] + [reply];
      assert results + (BucketOf(s, search.token) + [reply]) == (results + BucketOf(s, search.token)) + [reply];
    } else if !Live(search) {
      ReturnedUndisturbed(s, t, search);
    }
  }

  lemma BeginInv(s: State, q: nat, token: Token)
    requires Inv(s) && Enabled(s, Begin(q, token))
    ensures Inv(Apply(s, Begin(q, token)))
  {
    var t := Apply(s, Begin(q, token));
    assert t.searches[q].token == token;
    forall p | p in s.searches
      ensures SearchInv(t, s.searches[p])
    {
      if Live(s.searches[p]) {
        OthersUndisturbed(s, t, s.searches[p]);
      } else {
        ReturnedUndisturbed(s, t, s.searches[p]);
      }
    }
  }

  lemma StepInv(s: State, step: Label)
    requires Inv(s) && Enabled(s, step)
    ensures Inv(Apply(s, step))
  {
    match step
    case Begin(q, token) => BeginInv(s, q, token);
    case Advance(q, search) => AdvanceInv(s, q, search);
    case Store => StoreInv(s);
    case Arrive(reply) =>
      var t := Apply(s, step);
      forall p | p in s.searches
        ensures SearchInv(t, s.searches[p])
      {
        OthersUndisturbed(s, t, s.searches[p]);
      }
  }

  lemma {:induction false} RunInv(s: State, run: seq<Label>)
    requires Inv(s) && Legal(s, run)
    ensures Inv(After(s, run))
    decreases |run|
  {
    hide Inv, Apply, Enabled;
    if run != [] {
      StepInv(s, run[0]);
      RunInv(Apply(s, run[0]), run[1..]);
    }
  }

  // ---------------------------------------------------------------- what a search returns

  /** However the searches and the deliveries interleave, a finished search returns the replies
      stored for its token from the moment its bucket was made up to some moment, in order of
      arrival, each once, and none with another token. */
  lemma SearchReturnsItsOwn(run: seq<Label>, q: nat)
    requires Legal(INITIAL, run)
    requires var s := After(INITIAL, run); q in s.searches && s.searches[q].phase.Done?
    ensures var s := After(INITIAL, run);
            var (search, results) := (s.searches[q], s.searches[q].phase.results);
            var stored := StoredFor(s, search.token);
            && search.base + |results| <= |stored|
            && results == stored[search.base..search.base + |results|]
            && forall reply | reply in results :: reply.token == search.token
  {
    RunInv(INITIAL, run);
    var s := After(INITIAL, run);
    assert SearchInv(s, s.searches[q]);
  }

  /** Collecting misses nothing stored so far. */
  lemma CollectTakesAll(run: seq<Label>, q: nat, step: SearchStep)
    requires Legal(INITIAL, run) && (step.Collect? || step.CollectMore?)
    requires AdvanceEnabled(After(INITIAL, run), q, step)
    ensures var (s, t) := (After(INITIAL, run), ApplyAdvance(After(INITIAL, run), q, step));
            var search := s.searches[q];
            && search.base <= |StoredFor(s, search.token)|
            && t.searches[q].phase == Collected(StoredFor(s, search.token)[search.base..])
  {
    RunInv(INITIAL, run);
    var s := After(INITIAL, run);
    assert SearchInv(s, s.searches[q]);
    assert [] + BucketOf(s, s.searches[q].token) == BucketOf(s, s.searches[q].token);
  }

  // ---------------------------------------------------------------- what a search leaves behind

  /** No later search draws the token again. */
  predicate NotDrawn(run: seq<Label>, token: Token) {
    forall i | 0 <= i < |run| :: !(run[i].Begin? && run[i].token == token)
  }

  /** No search under way has the token, no bucket and no delivery either. */
  ghost predicate Gone(s: State, token: Token, stored: seq<Reply>) {
    FreshToken(s, token) && Quiet(s, token) && token !in s.buckets && StoredFor(s, token) == stored
  }

  /** No search under way has the token, which is active and has a bucket all the same. */
  ghost predicate Leaked(s: State, token: Token) {
    FreshToken(s, token) && token in s.tokens && token in s.buckets
  }

  /** The steps of other searches leave both kinds of token as they are. */
  lemma AdvanceLeavesOthers(s: State, q: nat, step: SearchStep, token: Token)
    requires AdvanceEnabled(s, q, step) && FreshToken(s, token)
    ensures var t := ApplyAdvance(s, q, step);
            FreshToken(t, token) && SameFor(s, t, token)
  {
    assert Live(s.searches[q]);
    AdvanceTouchesOwn(s, q, step);
    hide ApplyAdvance, SameFor;
    var t := ApplyAdvance(s, q, step);
    assert forall p | p in t.searches && p != q :: t.searches[p] == s.searches[p];
  }

  lemma StepLeavesGone(s: State, step: Label, token: Token, stored: seq<Reply>)
    requires Inv(s) && Enabled(s, step) && !(step.Begin? && step.token == token)
    ensures Gone(s, token, stored) ==> Gone(Apply(s, step), token, stored)
    ensures Leaked(s, token) ==> Leaked(Apply(s, step), token)
  {
    hide ApplyAdvance, SearchInv;
    if step.Advance? && FreshToken(s, token) {
      AdvanceLeavesOthers(s, step.q, step.search, token);
    }
  }

  lemma {:induction false} RunLeavesGone(s: State, run: seq<Label>, token: Token, stored: seq<Reply>)
    requires Inv(s) && Legal(s, run) && NotDrawn(run, token)
    ensures Gone(s, token, stored) ==> Gone(After(s, run), token, stored)
    ensures Leaked(s, token) ==> Leaked(After(s, run), token)
    decreases |run|
  {
    hide Inv, Apply, Enabled, Gone, Leaked;
    if run != [] {
      StepInv(s, run[0]);
      StepLeavesGone(s, run[0], token, stored);
      RunLeavesGone(Apply(s, run[0]), run[1..], token, stored);
    }
  }

  /** From the last step of a search on there is no bucket for its token, and until a later search
      draws the token again nothing makes one or stores another reply under it. */
  lemma FinishedSearchLeavesNothing(before: seq<Label>, q: nat, later: seq<Label>)
    requires Legal(INITIAL, before) && AdvanceEnabled(After(INITIAL, before), q, CleanUp)
    requires Legal(ApplyAdvance(After(INITIAL, before), q, CleanUp), later)
    requires NotDrawn(later, After(INITIAL, before).searches[q].token)
    ensures var s := After(INITIAL, before);
            var (t, token) := (After(ApplyAdvance(s, q, CleanUp), later), s.searches[q].token);
            token !in t.buckets && token !in t.tokens && StoredFor(t, token) == StoredFor(s, token)
  {
    RunInv(INITIAL, before);
    var s := After(INITIAL, before);
    var (t, token) := (ApplyAdvance(s, q, CleanUp), s.searches[q].token);
    assert SearchInv(s, s.searches[q]);
    StepInv(s, Advance(q, CleanUp));
    assert Gone(t, token, StoredFor(s, token));
    RunLeavesGone(t, later, token, StoredFor(s, token));
  }

  /** A search whose request could not be sent returns early without cleaning up: until a later
      search draws the token again, it stays active and its bucket stays in the map. */
  lemma FailedSearchStaysRegistered(before: seq<Label>, q: nat, later: seq<Label>)
    requires Legal(INITIAL, before) && AdvanceEnabled(After(INITIAL, before), q, SendFails)
    requires Legal(ApplyAdvance(After(INITIAL, before), q, SendFails), later)
    requires NotDrawn(later, After(INITIAL, before).searches[q].token)
    ensures var s := After(INITIAL, before);
            var (t, token) := (After(ApplyAdvance(s, q, SendFails), later), s.searches[q].token);
            token in t.tokens && token in t.buckets
  {
    RunInv(INITIAL, before);
    var s := After(INITIAL, before);
    var (t, token) := (ApplyAdvance(s, q, SendFails), s.searches[q].token);
    assert SearchInv(s, s.searches[q]);
    StepInv(s, Advance(q, SendFails));
    assert Leaked(t, token);
    RunLeavesGone(t, later, token, []);
  }

  // ---------------------------------------------------------------- the object

  /** The two shared maps. `state` is the machine's state that the maps are part of. */
  class SearchRegistry {
    var activeSearchTokens: set<Token>
    var searchResults: map<Token, seq<Reply>>
    ghost var state: State

    ghost predicate Valid()
      reads this
    {
      && activeSearchTokens == state.tokens
      && searchResults == state.buckets
      && Inv(state)
    }

    constructor ()
      ensures Valid() && state == INITIAL
    {
      activeSearchTokens, searchResults, state := {}, map[], INITIAL;
    }

    /** The two insertions at the start of `search`. */
    method Register(ghost q: nat, token: Token)
      requires Valid() && state.holder.None? && q !in state.searches && FreshToken(state, token)
      modifies this
      ensures Valid()
      ensures var s := Apply(old(state), Begin(q, token));
              AdvanceEnabled(s, q, MakeBucket) && state == ApplyAdvance(s, q, MakeBucket)
    {
      hide Inv;
      activeSearchTokens := activeSearchTokens + {token};
      StepInv(state, Begin(q, token));
      state := Apply(state, Begin(q, token));
      searchResults := searchResults[token := []];
      StepInv(state, Advance(q, MakeBucket));
      state := ApplyAdvance(state, q, MakeBucket);
    }

    /** The code-9 arm of the dispatcher; says whether the reply was kept. */
    method StoreResult(reply: Reply) returns (kept: bool)
      requires Valid() && state.holder.None?
      modifies this
      ensures Valid() && kept == (reply.token in old(activeSearchTokens))
      ensures var s := Apply(old(state), Arrive(reply));
              state == if kept then Apply(s, Store) else s
    {
      hide Inv, AdvanceEnabled, ApplyAdvance;
      kept := reply.token in activeSearchTokens;
      StepInv(state, Arrive(reply));
      state := Apply(state, Arrive(reply));
      if kept {
        if reply.token !in searchResults {
          searchResults := searchResults[reply.token := []];
        }
        searchResults := searchResults[reply.token := searchResults[reply.token] + [reply]];
        StepInv(state, Store);
        state := Apply(state, Store);
      }
    }

    /** Takes the bucket, if there is one, out of the map. */
    method TakeResults(ghost q: nat, ghost step: SearchStep, token: Token) returns (results: seq<Reply>)
      requires Valid() && (step.Collect? || step.CollectMore?) && AdvanceEnabled(state, q, step)
      requires state.searches[q].token == token
      modifies this
      ensures Valid() && state == ApplyAdvance(old(state), q, step)
      ensures results == BucketOf(old(state), token)
    {
      hide Inv;
      results := if token in searchResults then searchResults[token] else [];
      searchResults := searchResults - {token};
      StepInv(state, Advance(q, step));
      state := ApplyAdvance(state, q, step);
    }

    /** The two removals at the end of `search`. */
    method Unregister(ghost q: nat, token: Token)
      requires Valid() && AdvanceEnabled(state, q, SearchStep.Unregister) && state.searches[q].token == token
      modifies this
      ensures Valid() && token !in activeSearchTokens && token !in searchResults
      ensures var s := ApplyAdvance(old(state), q, SearchStep.Unregister);
              AdvanceEnabled(s, q, CleanUp) && state == ApplyAdvance(s, q, CleanUp)
    {
      hide Inv;
      activeSearchTokens := activeSearchTokens - {token};
      StepInv(state, Advance(q, SearchStep.Unregister));
      state := ApplyAdvance(state, q, SearchStep.Unregister);
      searchResults := searchResults - {token};
      StepInv(state, Advance(q, CleanUp));
      state := ApplyAdvance(state, q, CleanUp);
    }
  }
}
