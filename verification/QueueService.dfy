/** The queue service's own code for the steps of the search queue: choosing a candidate, recording
    an attempt, handling a finished transfer, recovering at startup. Each method is shown to make
    exactly the changes of the steps of module SearchQueue that it stands for. */
module QueueService {
  import opened Wrappers
  import opened Bytes
  import opened Seqs
  import opened Text
  import opened Messages
  import opened SearchTable
  import opened SearchQueue
  import opened SearchDenial
  import opened FileSelection
  import opened Framing
  import N = Negotiation

  // ---------------------------------------------------------------- the errors of an attempt

  /** Why `execute_search_and_download` fails: the client's search could not be sent or brought no
      replies, no file of the replies is eligible, or the download could not be started. */
  datatype AttemptError =
    | SearchNotSent(message: Bytes)
    | NobodyReplied
    | NoneEligible
    | NotStarted(reason: Bytes)

  /** The text of the error. The first two are the client's own, the others the service's. */
  function MessageOf(error: AttemptError, request: Request): Bytes {
    match error
    case SearchNotSent(message) => message
    case NobodyReplied =>
      Ascii("No results found for search '") + request.query + Ascii("' - no peers responded")
    case NoneEligible =>
      (match request.format
       case Some(format) => Ascii("No ") + (Uppercase(format) + Ascii(" files found matching query"))
       case None => Ascii("No suitable files found matching query"))
    case NotStarted(reason) => Ascii("Download failed: ") + reason
  }

  /** What `process_queued_search` looks for in an error message before it grants a retry. */
  function NoResultsMark(): Bytes {
    Ascii("No results found for search")
  }

  predicate IsNoResults(message: Bytes) {
    Contains(message, NoResultsMark())
  }

  /** How an attempt ended, as its caller sees it. */
  datatype Outcome = Downloaded | InProgressDownload | Error(message: Bytes)

  function AttemptOf(outcome: Outcome): Attempt {
    match outcome
    case Downloaded => ItemCompleted
    case InProgressDownload => ItemInProgress
    case Error(message) => SearchFailed(IsNoResults(message))
  }

  const FIRST: Byte := 0x4E

  lemma MarkStarts()
    ensures var mark := NoResultsMark();
            |mark| == 27 && mark[0] == FIRST && mark[1] == 0x6F && mark[2] == SPACE && mark[3] == 0x72
  {
  }

  /** Text in front that does not hold the mark's first byte cannot take part in an occurrence. */
  lemma ContainedBehind(front: Bytes, rest: Bytes)
    requires FIRST !in front
    ensures IsNoResults(front + rest) <==> IsNoResults(rest)
  {
    var (message, mark) := (front + rest, NoResultsMark());
    MarkStarts();
    hide Ascii, NoResultsMark;
    forall i | 0 <= i <= |message|
      ensures OccursAt(message, mark, i) <==> i >= |front| && OccursAt(rest, mark, i - |front|)
    {
      if i >= |front| {
        assert i + |mark| <= |message| ==> message[i..i + |mark|] == rest[i - |front|..i - |front| + |mark|];
      } else {
        assert message[i] == front[i];
        assert i + |mark| <= |message| ==> message[i..i + |mark|][0] == message[i];
      }
    }
    if j: nat :| j <= |rest| && OccursAt(rest, mark, j) {
      assert OccursAt(message, mark, j + |front|);
    }
  }

  lemma NobodyRepliedIsNoResults(request: Request)
    ensures IsNoResults(MessageOf(NobodyReplied, request))
  {
    var message := MessageOf(NobodyReplied, request);
    var front := Ascii("No results found for search '");
    assert front[..27] == NoResultsMark();
    assert message[..27] == front[..27];
    assert OccursAt(message, NoResultsMark(), 0);
  }

  /** Where the mark's first, second and fourth byte would have to stand. */
  lemma MarkNotInside(front: Bytes, word: Bytes, tail: Bytes)
    requires front == [FIRST, 0x6F, SPACE] && tail != [] && tail[0] == SPACE && FIRST !in tail
    requires word != [] ==> word[0] != 0x72
    requires forall k | 0 <= k < |word| - 1 :: !(word[k] == FIRST && word[k + 1] == 0x6F)
    ensures !IsNoResults(front + (word + tail))
  {
    var (message, mark) := (front + (word + tail), NoResultsMark());
    MarkStarts();
    hide NoResultsMark;
    forall i | 0 <= i <= |message|
      ensures !OccursAt(message, mark, i)
    {
      if i + 27 <= |message| {
        assert message[i..i + 27][0] == message[i] && message[i..i + 27][1] == message[i + 1];
        assert message[i..i + 27][3] == message[i + 3];
        if i >= 3 + |word| {
          assert message[i] == tail[i - 3 - |word|];
        } else if i >= 3 {
          assert message[i] == word[i - 3];
          assert message[i + 1] == if i + 1 < 3 + |word| then word[i - 2] else tail[0];
        } else {
          assert message[3] == if word != [] then word[0] else tail[0];
        }
      }
    }
  }

  lemma NoSuitableFilesIsNotNoResults()
    ensures !IsNoResults(Ascii("No suitable files found matching query"))
  {
    var message := Ascii("No suitable files found matching query");
    MarkStarts();
    assert message[3] == 0x73 && forall k | 0 < k < |message| :: message[k] != FIRST;
    hide NoResultsMark, Ascii;
    forall i | 0 <= i <= |message|
      ensures !OccursAt(message, NoResultsMark(), i)
    {
      if i + 27 <= |message| {
        assert message[i..i + 27][0] == message[i] && message[i..i + 27][3] == message[i + 3];
      }
    }
  }

  /** An upper-cased word holds no small letter, so the mark cannot begin in it. */
  lemma NoneEligibleIsNotNoResults(request: Request)
    ensures !IsNoResults(MessageOf(NoneEligible, request))
  {
    hide IsNoResults, Uppercase;
    match request.format
    case Some(format) =>
      TailHasNoFirst();
      UppercaseIsHarmless(format);
      MarkNotInside(Ascii("No "), Uppercase(format), Ascii(" files found matching query"));
    case None => NoSuitableFilesIsNotNoResults();
  }

  lemma TailHasNoFirst()
    ensures FIRST !in Ascii(" files found matching query")
    ensures Ascii("No ") == [FIRST, 0x6F, SPACE] && Ascii(" files found matching query")[0] == SPACE
  {
  }

  lemma UppercaseIsHarmless(format: Bytes)
    ensures var word := Uppercase(format);
            && (word != [] ==> word[0] != 0x72)
            && forall k | 0 <= k < |word| - 1 :: !(word[k] == FIRST && word[k + 1] == 0x6F)
  {
  }

  /** For every way an attempt fails: its error is taken for "no results" exactly when nobody
      replied to the search, or the client's or the peer's own words hold the mark. */
  lemma TakenForNoResultsExactly(error: AttemptError, request: Request)
    ensures IsNoResults(MessageOf(error, request)) <==>
              match error
              case SearchNotSent(message) => IsNoResults(message)
              case NobodyReplied => true
              case NoneEligible => false
              case NotStarted(reason) => IsNoResults(reason)
  {
    hide IsNoResults;
    match error
    case SearchNotSent(_) =>
    case NobodyReplied => NobodyRepliedIsNoResults(request);
    case NoneEligible => NoneEligibleIsNotNoResults(request);
    case NotStarted(reason) =>
      assert FIRST !in Ascii("Download failed: ");
      ContainedBehind(Ascii("Download failed: "), reason);
  }

  /** A search nobody replied to is never retried: whatever the retry count, its entry is deleted. */
  lemma EmptySearchIsNeverRetried(s: State, w: nat, request: Request)
    requires AtPhase(s, w, Decided(AttemptOf(Error(
      Ascii("No results found for search '") + request.query + Ascii("' - no peers responded")))))
    ensures !WillRetry(s.workers[w])
    ensures s.workers[w].queueId !in ApplyWork(s, w, Record).rows
  {
    NobodyRepliedIsNoResults(request);
    hide IsNoResults, Ascii;
  }

  /** What becomes of an entry whose first download the peer denies, once worker and monitor have dealt
      with it and nothing else has come between: it waits again exactly when the peer's reason does not
      hold the mark and either another candidate is cached or the monitor took the report before the
      worker recorded. Otherwise it is gone. */
  lemma DeniedFirstAttemptWaits(s: State, w: nat, request: Request, reason: Bytes, run: seq<Label>)
    requires FirstAttempt(s, w)
    requires Legal(Refused(s, w, IsNoResults(MessageOf(NotStarted(reason), request))), run) && OnlyTheTwo(run, w)
    requires BothDone(After(Refused(s, w, IsNoResults(MessageOf(NotStarted(reason), request))), run), w)
    ensures var t := After(Refused(s, w, IsNoResults(MessageOf(NotStarted(reason), request))), run);
            var id := s.workers[w].queueId;
            && (Waiting(t.rows, id) <==> !Contains(reason, Ascii("No results found for search"))
                                         && (Cached(s, id) != [] || TakenFirst(run, w)))
            && (!Waiting(t.rows, id) ==> id !in t.rows)
  {
    RefusedFirstAttempt(s, w, IsNoResults(MessageOf(NotStarted(reason), request)), run);
    TakenForNoResultsExactly(NotStarted(reason), request);
    hide MessageOf, Contains, FirstAttempt, OnlyTheTwo, BothDone;
  }

  // ---------------------------------------------------------------- the client's search

  /** What the client's `search` returns: replies, of which there is at least one, or an error. */
  datatype Searched = Found(results: seq<SearchResult>) | NotFound(error: AttemptError)

  /** The end of `search`, given what it has collected, or why its request could not be sent. */
  function SearchOutcome(collected: seq<SearchResult>, notSent: Option<Bytes>): (r: Searched)
    ensures r.Found? ==> r.results != []
  {
    match notSent
    case Some(message) => NotFound(SearchNotSent(message))
    case None => if collected == [] then NotFound(NobodyReplied) else Found(collected)
  }

  // ---------------------------------------------------------------- candidates

  /** The candidates kept for later attempts are the next best ones, still in ranking order. */
  lemma AlternativesAreNextBest(results: seq<SearchResult>, request: Request)
    requires BestFiles(results, request) != []
    ensures var (ranking, kept) := (BestFiles(results, request), Alternatives(BestFiles(results, request)));
            && 1 + |kept| <= |ranking| && ranking[..1 + |kept|] == [ranking[0]] + kept
            && (forall i, j | 0 <= i < j <= |kept| :: ranking[i].score >= ranking[j].score)
            && (forall i, j | 0 <= i <= |kept| < j < |ranking| :: ranking[i].score >= ranking[j].score)
            && (|kept| < 5 ==> |ranking| == 1 + |kept|) && |kept| <= 5
  {
    hide BestFiles, Candidates, ScoredAt, StableSort, Title, Alternatives;
    NonEmptyRankingHasTitle(results, request);
    RankingDescends(results, request);
    AlternativesAreHead(BestFiles(results, request));
  }

  lemma AlternativesAreHead(ranking: seq<ScoredFile>)
    requires ranking != []
    ensures var kept := Alternatives(ranking);
            && 1 + |kept| <= |ranking| && ranking[..1 + |kept|] == [ranking[0]] + kept
            && (|kept| < 5 ==> |ranking| == 1 + |kept|) && |kept| <= 5
  {
  }

  lemma RankingDescends(results: seq<SearchResult>, request: Request)
    requires Title(request) != []
    ensures var best := BestFiles(results, request);
            forall i, j | 0 <= i < j < |best| :: best[i].score >= best[j].score
  {
    hide BestFiles, Candidates, ScoredAt, AllOffers, Title;
    RankingIsSortedPermutation(results, request);
  }

  lemma NonEmptyRankingHasTitle(results: seq<SearchResult>, request: Request)
    ensures BestFiles(results, request) != [] ==> Title(request) != []
  {
  }

  // ---------------------------------------------------------------- the service

  ghost predicate Reports(s: State, queueId: nat, ok: bool) {
    s.monitor.Idle? && s.channel != [] && s.channel[0] == Completion(queueId, ok)
  }

  /** The monitor's steps for a transfer that succeeded. */
  lemma SuccessRun(s: State, id: nat) returns (run: seq<Label>)
    requires Reports(s, id, true)
    ensures Legal(s, run)
    ensures After(s, run) == s.(rows := s.rows - {id}, cache := s.cache - {id}, channel := s.channel[1..])
  {
    var s1 := Apply(s, Watch(Take));
    var s2 := Apply(s1, Watch(Succeed));
    RunFrom(s2, Watch(Forget), []);
    RunFrom(s1, Watch(Succeed), [Watch(Forget)]);
    run := [Watch(Succeed)] + [Watch(Forget)];
    RunFrom(s, Watch(Take), run);
    run := [Watch(Take)] + run;
  }

  /** For a failed one, when it was the first failure or candidates are left. */
  lemma RetryRun(s: State, id: nat) returns (run: seq<Label>)
    requires Reports(s, id, false)
    requires (id in s.rows && s.rows[id].retryCount == 0) || Cached(s, id) != []
    ensures Legal(s, run)
    ensures After(s, run) == s.(rows := Requeued(s.rows, id, s.clock), clock := s.clock + 1, channel := s.channel[1..])
  {
    var s1 := Apply(s, Watch(Take));
    var s2 := Apply(s1, Watch(Decide));
    RunFrom(s2, Watch(Requeue), []);
    RunFrom(s1, Watch(Decide), [Watch(Requeue)]);
    run := [Watch(Decide)] + [Watch(Requeue)];
    RunFrom(s, Watch(Take), run);
    run := [Watch(Take)] + run;
  }

  /** For a failed one with nothing left to try. */
  lemma GiveUpRun(s: State, id: nat) returns (run: seq<Label>)
    requires Reports(s, id, false)
    requires (id !in s.rows || s.rows[id].retryCount > 0) && Cached(s, id) == []
    ensures Legal(s, run)
    ensures After(s, run) == s.(rows := s.rows - {id}, cache := s.cache - {id}, channel := s.channel[1..])
  {
    var s1 := Apply(s, Watch(Take));
    var s2 := Apply(s1, Watch(Decide));
    var s3 := Apply(s2, Watch(Drop));
    RunFrom(s3, Watch(SearchQueue.Delete), []);
    RunFrom(s2, Watch(Drop), [Watch(SearchQueue.Delete)]);
    RunFrom(s1, Watch(Decide), [Watch(Drop)] + [Watch(SearchQueue.Delete)]);
    run := [Watch(Decide)] + ([Watch(Drop)] + [Watch(SearchQueue.Delete)]);
    RunFrom(s, Watch(Take), run);
    run := [Watch(Take)] + run;
  }

  /** The claim loop gives the permit back. */
  lemma NoClaimRun(s: State) returns (run: seq<Label>)
    requires s.permits > 0 && !s.loopHolds && forall id :: !Waiting(s.rows, id)
    ensures Legal(s, run) && After(s, run) == s
  {
    var s1 := Apply(s, Loop(Acquire));
    RunFrom(s1, Loop(ClaimNothing), []);
    RunFrom(s, Loop(Acquire), [Loop(ClaimNothing)]);
    run := [Loop(Acquire)] + [Loop(ClaimNothing)];
  }

  /** The monitor requeues the row: it was the first failure, or candidates are left. */
  predicate TriesAgain(s: State, id: nat) {
    (id in s.rows && s.rows[id].retryCount == 0) || Cached(s, id) != []
  }

  lemma CompletionRun(s: State, id: nat, ok: bool) returns (run: seq<Label>)
    requires Reports(s, id, ok)
    ensures Legal(s, run) && After(s, run).monitor.Idle?
    ensures After(s, run).rows == if !ok && TriesAgain(s, id) then Requeued(s.rows, id, s.clock) else s.rows - {id}
    ensures After(s, run).cache == if !ok && TriesAgain(s, id) then s.cache else s.cache - {id}
  {
    if ok {
      run := SuccessRun(s, id);
    } else if TriesAgain(s, id) {
      run := RetryRun(s, id);
    } else {
      run := GiveUpRun(s, id);
    }
  }

  /** The ways a worker comes by a candidate, or fails to, or does not need one. */
  lemma SelectionIs(s: State, w: nat, step: WorkerStep)
    requires WorkEnabled(s, w, step)
    requires step.FindDuplicate? || step.UseCached? || step.SearchFails? || step.SearchFinds?
    ensures var (t, id) := (ApplyWork(s, w, step), s.workers[w].queueId);
            && t.rows == s.rows
            && AtPhase(t, w, if step.FindDuplicate? then Decided(ItemCompleted)
                             else if step.SearchFails? then Decided(SearchFailed(step.noResults))
                             else Selected)
            && t.cache == match step
                          case UseCached => s.cache[id := s.cache[id][1..]]
                          case SearchFinds(found) =>
                            (if Alternatives(found) != [] then s.cache[id := Alternatives(found)] else s.cache)
                          case _ => s.cache
  {
  }

  lemma InitiationIs(s: State, w: nat, step: WorkerStep)
    requires AtPhase(s, w, Selected)
    requires step.PathExists? || step.StartTransfer? || step.RefuseOnce? || step.RefuseTwice?
    ensures WorkEnabled(s, w, step)
    ensures AtPhase(ApplyWork(s, w, step), w,
                    if step.PathExists? then Decided(ItemCompleted)
                    else if step.StartTransfer? then Decided(ItemInProgress)
                    else Decided(SearchFailed(step.noResults)))
  {
  }

  class QueueService {
    const db: Database
    var pendingCandidates: map<nat, seq<ScoredFile>>

    constructor (db: Database)
      ensures this.db == db && pendingCandidates == map[]
    {
      this.db, pendingCandidates := db, map[];
    }

    /** The table and the cache are those of the machine's state `s`. */
    ghost predicate Shows(s: State)
      reads this, db
    {
      db.rows == s.rows && pendingCandidates == s.cache
    }

    /** One turn of the claim loop that gets a permit: a row is claimed and handed, with the permit,
        to a new worker, or the permit is given back. */
    method ClaimOnce(ghost s: State) returns (claimed: Option<nat>, ghost steps: seq<Label>)
      requires Shows(s) && db.Valid() && s.permits > 0 && !s.loopHolds
      modifies db
      ensures db.Valid() && Legal(s, steps) && Shows(After(s, steps)) && !After(s, steps).loopHolds
      ensures claimed.None? <==> forall id :: !Waiting(s.rows, id)
      ensures claimed.None? ==> After(s, steps) == s
      ensures claimed.Some? ==>
                && IsNext(s.rows, claimed.value)
                && After(s, steps).permits == s.permits - 1
                && AtPhase(After(s, steps), s.nextWorker, Claimed)
                && After(s, steps).workers[s.nextWorker].queueId == claimed.value
    {
      claimed := db.ClaimNextPendingSearch();
      if claimed.Some? {
        steps := [Loop(Acquire)] + [Loop(Claim(claimed.value))];
        ClaimRun(s, claimed.value);
      } else {
        steps := NoClaimRun(s);
      }
      hide Legal, After;
    }

    /** The first thing a worker does: it goes on only if its row is still being processed. */
    method VerifyClaim(queueId: nat, ghost s: State, ghost w: nat) returns (proceeds: bool)
      requires Shows(s) && AtPhase(s, w, Claimed) && s.workers[w].queueId == queueId
      ensures Shows(ApplyWork(s, w, Verify))
      ensures AtPhase(ApplyWork(s, w, Verify), w, if proceeds then Checked else Finished)
    {
      proceeds := queueId in db.rows && db.rows[queueId].status == Processing;
    }

    /** `enqueue_search`. */
    method EnqueueSearch(listId: Option<nat>, ghost s: State) returns (id: nat)
      requires Shows(s) && db.Valid() && db.nextId == s.nextId && db.clock == s.clock
      modifies db
      ensures db.Valid() && Shows(ApplyClient(s, Enqueue(listId)))
      ensures db.nextId == ApplyClient(s, Enqueue(listId)).nextId && db.clock == ApplyClient(s, Enqueue(listId)).clock
      ensures id !in s.rows && Waiting(db.rows, id) && db.rows[id].retryCount == 0
    {
      id := db.EnqueueSearch(listId);
    }

    method CancelSearch(queueId: nat, ghost s: State) returns (cancelled: bool)
      requires Shows(s) && db.Valid()
      modifies db
      ensures db.Valid() && Shows(ApplyClient(s, Cancel(queueId)))
      ensures cancelled <==> queueId in s.rows && s.rows[queueId].status == Pending
    {
      cancelled := db.CancelPendingSearch(queueId);
    }

    method CancelList(list: nat, ghost s: State) returns (count: nat)
      requires Shows(s) && db.Valid()
      modifies db
      ensures db.Valid() && Shows(ApplyClient(s, SearchQueue.CancelList(list)))
      ensures forall id :: id in db.rows <==>
                id in s.rows && !(s.rows[id].status == Pending && s.rows[id].listId == Some(list))
    {
      count := db.CancelListPendingSearches(list);
    }

    /** The candidate part of `execute_search_and_download`: nothing if the library already holds a match
        (`duplicate`); else the first cached candidate, or else the best file of a fresh search, whose next
        best files are cached; or the error of the attempt. `collected` is what a search would bring in,
        `notSent` why its request could not be sent; `step` is what the worker did. */
    method SelectCandidate(queueId: nat, duplicate: bool, collected: seq<SearchResult>, notSent: Option<Bytes>,
                           request: Request, ghost s: State, ghost w: nat)
      returns (selected: Option<ScoredFile>, error: Option<AttemptError>, ghost step: WorkerStep)
      requires Shows(s) && AtPhase(s, w, Checked) && s.workers[w].queueId == queueId
      modifies `pendingCandidates
      ensures WorkEnabled(s, w, step) && Shows(ApplyWork(s, w, step))
      ensures duplicate ==> selected.None? && error.None?
                            && AtPhase(ApplyWork(s, w, step), w, Decided(AttemptOf(Downloaded)))
      ensures !duplicate ==> (selected.None? <==> error.Some?)
      ensures error.Some? <==>
                && !duplicate && Cached(s, queueId) == []
                && (notSent.Some? || collected == [] || BestFiles(collected, request) == [])
      ensures error.Some? ==>
                error.value == if notSent.Some? then SearchNotSent(notSent.value)
                               else if collected == [] then NobodyReplied
                               else NoneEligible
      ensures error.Some? ==>
                AtPhase(ApplyWork(s, w, step), w, Decided(AttemptOf(Error(MessageOf(error.value, request)))))
      ensures selected.Some? ==> AtPhase(ApplyWork(s, w, step), w, Selected)
      ensures selected.Some? ==>
                [selected.value] + Cached(ApplyWork(s, w, step), queueId)
                == if Cached(s, queueId) != [] then Cached(s, queueId)
                   else BestFiles(collected, request)[..1 + Min(5, |BestFiles(collected, request)| - 1)]
    {
      hide BestFiles, IsNoResults, MessageOf, ApplyWork;
      selected, error := None, None;
      if duplicate {
        step := FindDuplicate;
        SelectionIs(s, w, step);
        return;
      }
      if queueId in pendingCandidates && pendingCandidates[queueId] != [] {
        var cached := pendingCandidates[queueId];
        selected, step := Some(cached[0]), UseCached;
        pendingCandidates := pendingCandidates[queueId := cached[1..]];
        SelectionIs(s, w, step);
        assert [cached[0]] + cached[1..] == cached;
        return;
      }
      var searched := SearchOutcome(collected, notSent);
      if searched.NotFound? {
        error, step := Some(searched.error), SearchFails(IsNoResults(MessageOf(searched.error, request)));
        SelectionIs(s, w, step);
        return;
      }
      var all := FindBestFiles(searched.results, request);
      if all == [] {
        error, step := Some(NoneEligible), SearchFails(IsNoResults(MessageOf(NoneEligible, request)));
        SelectionIs(s, w, step);
        return;
      }
      selected, step := Some(all[0]), SearchFinds(all);
      SelectionIs(s, w, step);
      var toCache := Alternatives(all);
      if toCache != [] {
        pendingCandidates := pendingCandidates[queueId := toCache];
      }
    }

    /** The rest of the attempt: nothing if the file is already there (`existing`); else the negotiation,
        once the request is sent, and then the file connection, which is there (`connection` is none) or has
        failed with that error. `failure` is the error text of a failed negotiation. No outcome means that the
        task has unwound. `step` is what the worker did. */
    method InitiateDownload(stream: TcpStream, existing: bool, budget: nat, checked: bool, failure: Bytes,
                            connection: Option<Bytes>, request: Request, ghost s: State, ghost w: nat)
      returns (outcome: Option<Outcome>, ghost step: Label)
      requires AtPhase(s, w, Selected)
      modifies stream
      ensures Enabled(s, step)
      ensures existing ==> outcome == Some(Downloaded) && step == Work(w, PathExists)
                           && stream.inbound == old(stream.inbound) && stream.outbound == old(stream.outbound)
      ensures !existing ==>
              var reply := N.AwaitRequest(old(stream.inbound), budget, checked).result;
              && outcome != Some(Downloaded)
              && (outcome.None? <==> reply == N.Aborted)
              && (outcome == Some(InProgressDownload) <==> reply.Allowed? && connection.None?)
              && (reply.Denied? ==> outcome == Some(Error(Ascii("Download failed: ") + reply.reason)))
              && (outcome.None? ==> step == Unwind(w))
              && (outcome == Some(InProgressDownload) ==> step == Work(w, StartTransfer))
              && (outcome.Some? && outcome.value.Error? ==>
                    var noResults := IsNoResults(outcome.value.message);
                    step == Work(w, if reply.Failed? then RefuseOnce(noResults) else RefuseTwice(noResults)))
      ensures outcome.Some? ==> AtPhase(Apply(s, step), w, Decided(AttemptOf(outcome.value)))
    {
      hide N.AwaitRequest, IsNoResults, ApplyWork, Ascii;
      if existing {
        InitiationIs(s, w, PathExists);
        return Some(Downloaded), Work(w, PathExists);
      }
      var reply := N.WaitForTransferRequest(stream, budget, checked);
      match reply {
        case Aborted =>
          return None, Unwind(w);
        case Allowed(_, _) =>
          if connection.None? {
            outcome, step := Some(InProgressDownload), Work(w, StartTransfer);
          } else {
            var reason := Ascii("Failed to establish F connection: ") + connection.value;
            outcome := Some(Error(MessageOf(NotStarted(reason), request)));
            step := Work(w, RefuseTwice(IsNoResults(outcome.value.message)));
          }
        case Denied(reason) =>
          outcome := Some(Error(MessageOf(NotStarted(reason), request)));
          step := Work(w, RefuseTwice(IsNoResults(outcome.value.message)));
        case Failed =>
          outcome := Some(Error(MessageOf(NotStarted(Ascii("Negotiation failed: ") + failure), request)));
          step := Work(w, RefuseOnce(IsNoResults(outcome.value.message)));
      }
      InitiationIs(s, w, step.act);
    }

    /** The rest of `process_queued_search`, once the attempt has an outcome. */
    method RecordAttempt(queueId: nat, retryCount: nat, outcome: Outcome, ghost s: State, ghost w: nat)
      returns (ghost steps: seq<Label>)
      requires Shows(s) && db.Valid() && db.clock == s.clock
      requires w in s.workers && s.workers[w] == Worker(queueId, retryCount, Decided(AttemptOf(outcome)))
      modifies db
      ensures Legal(s, steps) && Shows(After(s, steps)) && AtPhase(After(s, steps), w, Finished)
    {
      hide IsNoResults;
      var worker := s.workers[w];
      RunFrom(s, Work(w, Record), []);
      steps := [Work(w, Record)];
      match outcome {
        case Downloaded =>
          db.MarkSearchCompleted(queueId);
          db.DeleteCompletedSearch(queueId);
          ghost var closing := Apply(s, Work(w, Record));
          RunFrom(closing, Work(w, DeleteFinished), []);
          RunFrom(s, Work(w, Record), [Work(w, DeleteFinished)]);
          steps := [Work(w, Record)] + [Work(w, DeleteFinished)];
        case InProgressDownload =>
          db.MarkSearchCompleted(queueId);
        case Error(message) =>
          if retryCount == 0 && !IsNoResults(message) {
            db.MarkSearchForRetry(queueId);
          } else {
            db.DeleteSearch(queueId);
          }
      }
    }

    /** `handle_transfer_completion`, undisturbed: the completion at the head of the channel. */
    method HandleTransferCompletion(queueId: nat, ok: bool, ghost s: State) returns (ghost steps: seq<Label>)
      requires Shows(s) && db.Valid() && db.clock == s.clock
      requires Reports(s, queueId, ok)
      modifies this`pendingCandidates, db
      ensures Legal(s, steps) && Shows(After(s, steps)) && After(s, steps).monitor.Idle?
      ensures db.rows == if !ok && TriesAgain(s, queueId) then Requeued(old(db.rows), queueId, old(db.clock))
                         else old(db.rows) - {queueId}
      ensures pendingCandidates == if !ok && TriesAgain(s, queueId) then old(pendingCandidates)
                                   else old(pendingCandidates) - {queueId}
    {
      hide Requeued, DistinctStamps;
      steps := CompletionRun(s, queueId, ok);
      hide Legal, After;
      var retryCount := if queueId in db.rows then db.rows[queueId].retryCount else 1;
      if ok {
        db.DeleteSearch(queueId);
        pendingCandidates := pendingCandidates - {queueId};
      } else if retryCount == 0 {
        db.MarkSearchForRetry(queueId);
      } else if queueId in pendingCandidates && pendingCandidates[queueId] != [] {
        db.MarkSearchForRetry(queueId);
      } else {
        pendingCandidates := pendingCandidates - {queueId};
        db.DeleteSearch(queueId);
      }
    }

    /** `recover_on_startup`: what was being processed waits again; nothing is cached yet. */
    method RecoverOnStartup(ghost s: State) returns (reset: nat)
      requires db.Valid() && db.rows == s.rows && pendingCandidates == map[]
      modifies db
      ensures db.Valid() && Shows(Apply(s, Restart))
      ensures reset == |InProgressRows(s.rows)| && InProgressRows(db.rows) == {}
    {
      reset := db.RecoverProcessingSearches();
    }
  }
}
