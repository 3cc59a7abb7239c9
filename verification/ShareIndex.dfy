/** The share index: what a full scan builds, what one more file changes, what a query answers,
    and the laws that tie the three to the plain list of files. */
module ShareIndex {
  import opened Wrappers
  import opened Bytes
  import opened Text
  import opened Seqs
  import opened InvertedIndex
  import opened SharedFiles

  datatype Index = Index(
    files: seq<SharedFile>,
    wordIndex: Postings<Bytes>,
    pathIndex: map<Bytes, nat>,
    fileList: Bytes,
    folderCount: U32,
    fileCount: U32)

  const EMPTY_INDEX := Index([], map[], map[], [], 0, 0)

  const U32_RANGE := 0x1_0000_0000

  function Documents(files: seq<SharedFile>): seq<seq<Bytes>> {
    Map(files, WordsOf)
  }

  function Paths(files: seq<SharedFile>): seq<Bytes> {
    Map(files, PathOf)
  }

  /** What a full scan that found `files` publishes. */
  function ScanIndex(files: seq<SharedFile>): Index {
    var count := |files| % U32_RANGE;
    Index(files, IndexOf(Documents(files)), LastPositions(Paths(files)), EncodeFileList(files),
          if count > 0 then 1 else 0, count)
  }

  /** What adding one file does: nothing when its path is already indexed. */
  function AddTo(index: Index, file: SharedFile): Index {
    if file.virtualPath in index.pathIndex then index
    else
      var files := index.files + [file];
      var count := |files| % U32_RANGE;
      Index(files,
            AddWords(index.wordIndex, WordsOf(file), |index.files|),
            index.pathIndex[file.virtualPath := |index.files|],
            EncodeFileList(files),
            if index.folderCount == 0 && count > 0 then 1 else index.folderCount,
            count)
  }

  function AddAll(index: Index, files: seq<SharedFile>): Index {
    if files == [] then index else AddTo(AddAll(index, files[..|files| - 1]), files[|files| - 1])
  }

  // ---------------------------------------------------------------- one by one, or all at once

  /** No file of `more` has the path of a file that precedes it in `first + more`. */
  predicate AllNew(first: seq<SharedFile>, more: seq<SharedFile>) {
    forall i | 0 <= i < |more| :: more[i].virtualPath !in Paths(first + more[..i])
  }

  /** The folder count once the files of `more` have been added. */
  function FolderAfter(first: seq<SharedFile>, more: seq<SharedFile>): U32 {
    if more == [] then ScanIndex(first).folderCount else 1
  }

  lemma DocumentsSnoc(files: seq<SharedFile>, file: SharedFile)
    ensures IndexOf(Documents(files + [file])) == AddWords(IndexOf(Documents(files)), WordsOf(file), |files|)
    ensures LastPositions(Paths(files + [file])) == LastPositions(Paths(files))[file.virtualPath := |files|]
  {
    IndexOfMapSnoc(files, file, WordsOf);
    PositionsOfMapSnoc(files, file, PathOf);
  }

  /** Adding a new file to an index with the maps of a scan leaves it with the maps of a scan. */
  lemma AddToScanned(files: seq<SharedFile>, folders: U32, file: SharedFile)
    requires file.virtualPath !in Paths(files)
    ensures AddTo(ScanIndex(files).(folderCount := folders), file)
      == ScanIndex(files + [file]).(
           folderCount := if folders == 0 && |files + [file]| % U32_RANGE > 0 then 1 else folders)
  {
    LastPositionsExact(Paths(files), file.virtualPath);
    DocumentsSnoc(files, file);
  }

  lemma AllNewInit(first: seq<SharedFile>, more: seq<SharedFile>)
    requires more != []
    ensures AllNew(first, more)
      <==> AllNew(first, more[..|more| - 1]) && more[|more| - 1].virtualPath !in Paths(first + more[..|more| - 1])
  {
    var init := more[..|more| - 1];
    assert forall i | 0 <= i < |init| :: init[..i] == more[..i] && init[i] == more[i];
  }

  lemma ModPlusOne(n: nat)
    requires n % U32_RANGE == 0
    ensures (n + 1) % U32_RANGE == 1
  {
  }

  lemma FolderCounts(first: seq<SharedFile>, init: seq<SharedFile>)
    ensures FolderAfter(first, init) == 0 ==> (|first| + |init| + 1) % U32_RANGE == 1
    ensures FolderAfter(first, init) <= 1
  {
    if FolderAfter(first, init) == 0 {
      ModPlusOne(|first|);
    }
  }

  lemma AddNewFile(first: seq<SharedFile>, init: seq<SharedFile>, last: SharedFile)
    requires last.virtualPath !in Paths(first + init)
    ensures AddTo(ScanIndex(first + init).(folderCount := FolderAfter(first, init)), last)
      == ScanIndex(first + init + [last]).(folderCount := 1)
  {
    AddToScanned(first + init, FolderAfter(first, init), last);
    FolderCounts(first, init);
  }

  lemma SplitLast(first: seq<SharedFile>, more: seq<SharedFile>)
    requires more != []
    ensures first + more == first + more[..|more| - 1] + [more[|more| - 1]]
  {
  }

  lemma AddAllSplit(index: Index, more: seq<SharedFile>, before: Index)
    requires more != [] && AddAll(index, more[..|more| - 1]) == before
    ensures AddAll(index, more) == AddTo(before, more[|more| - 1])
  {
  }

  lemma {:induction false} AddNewFiles(first: seq<SharedFile>, more: seq<SharedFile>)
    requires AllNew(first, more)
    ensures AddAll(ScanIndex(first), more) == ScanIndex(first + more).(folderCount := FolderAfter(first, more))
  {
    if more == [] {
      assert first + more == first;
    } else {
      var init, last := more[..|more| - 1], more[|more| - 1];
      AllNewInit(first, more);
      AddNewFiles(first, init);
      AddAllSplit(ScanIndex(first), more, ScanIndex(first + init).(folderCount := FolderAfter(first, init)));
      AddNewFile(first, init, last);
      SplitLast(first, more);
    }
  }

  lemma AddToLength(index: Index, file: SharedFile)
    ensures |AddTo(index, file).files| <= |index.files| + 1
  {
  }

  /** A file that is not new is skipped, so the result stays short. */
  lemma {:induction false} AddAllSkips(first: seq<SharedFile>, more: seq<SharedFile>)
    requires !AllNew(first, more)
    ensures |AddAll(ScanIndex(first), more).files| < |first| + |more|
  {
    var init, last := more[..|more| - 1], more[|more| - 1];
    AllNewInit(first, more);
    if AllNew(first, init) {
      AddNewFiles(first, init);
      LastPositionsExact(Paths(first + init), last.virtualPath);
      assert last.virtualPath in AddAll(ScanIndex(first), init).pathIndex;
    } else {
      AddAllSkips(first, init);
      AddToLength(AddAll(ScanIndex(first), init), last);
    }
  }

  /** Adding files one by one to a scanned index gives the index of one scan of all of them
      exactly when each is new and the scan's 32-bit file count does not wrap to zero. */
  lemma IncrementalIsBulk(first: seq<SharedFile>, more: seq<SharedFile>)
    ensures AddAll(ScanIndex(first), more) == ScanIndex(first + more)
      <==> AllNew(first, more) && (more == [] || |first + more| % 0x1_0000_0000 != 0)
  {
    if AllNew(first, more) {
      AddNewFiles(first, more);
      if more == [] {
        assert first + more == first;
      }
    } else {
      AddAllSkips(first, more);
      assert |ScanIndex(first + more).files| == |first| + |more|;
    }
  }

  lemma AddToEmpty(file: SharedFile)
    ensures AddTo(EMPTY_INDEX, file) == AddTo(ScanIndex([]), file)
  {
  }

  lemma {:induction false} AddAllFromEmpty(files: seq<SharedFile>)
    requires files != []
    ensures AddAll(EMPTY_INDEX, files) == AddAll(ScanIndex([]), files)
  {
    var init, last := files[..|files| - 1], files[|files| - 1];
    if init == [] {
      AddToEmpty(last);
      AddAllSplit(EMPTY_INDEX, files, EMPTY_INDEX);
      AddAllSplit(ScanIndex([]), files, ScanIndex([]));
    } else {
      AddAllFromEmpty(init);
      AddAllSplit(EMPTY_INDEX, files, AddAll(EMPTY_INDEX, init));
      AddAllSplit(ScanIndex([]), files, AddAll(ScanIndex([]), init));
    }
  }

  lemma DistinctIsAllNew(files: seq<SharedFile>)
    ensures AllNew([], files) <==> DistinctPaths(files)
  {
    assert forall i | 0 <= i <= |files| :: [] + files[..i] == files[..i];
    if AllNew([], files) {
      forall i, j | 0 <= i < j < |files| ensures files[i].virtualPath != files[j].virtualPath {
        assert Paths(files[..j])[i] == files[i].virtualPath;
      }
    }
  }

  /** From a fresh index: the incremental and the bulk build agree on the files, the postings,
      the paths, the counts and the encoded list exactly when the paths are distinct and the
      number of files is not a multiple of 2^32 (in particular, the list is not empty). */
  lemma IncrementalFromFresh(files: seq<SharedFile>)
    ensures AddAll(EMPTY_INDEX, files) == ScanIndex(files)
      <==> DistinctPaths(files) && |files| % 0x1_0000_0000 != 0
  {
    if files == [] {
      assert ScanIndex(files).fileList == PutU32(0) + PutU32(0);
    } else {
      AddAllFromEmpty(files);
      IncrementalIsBulk([], files);
      DistinctIsAllNew(files);
      assert [] + files == files;
    }
  }

  // ---------------------------------------------------------------- reachable indexes

  datatype IndexStep = Publish(entries: seq<DiskFile>) | Add(file: DiskFile)

  function Perform(index: Index, step: IndexStep): Index {
    match step
    case Publish(entries) => ScanIndex(ScanDirectory(entries))
    case Add(file) => match ScanSingleFile(file) case Some(shared) => AddTo(index, shared) case None => index
  }

  function PerformAll(index: Index, steps: seq<IndexStep>): Index
    decreases |steps|
  {
    if steps == [] then index else PerformAll(Perform(index, steps[0]), steps[1..])
  }

  /** The index agrees with its own list of files. */
  ghost predicate Sound(index: Index) {
    && index.wordIndex == IndexOf(Documents(index.files))
    && index.pathIndex == LastPositions(Paths(index.files))
    && index.fileCount == |index.files| % U32_RANGE
    && (index.files != [] ==> index.fileList == EncodeFileList(index.files))
  }

  lemma AddToKeepsSound(index: Index, file: SharedFile)
    requires Sound(index)
    ensures Sound(AddTo(index, file))
  {
    DocumentsSnoc(index.files, file);
  }

  lemma PerformKeepsSound(index: Index, step: IndexStep)
    requires Sound(index)
    ensures Sound(Perform(index, step))
  {
    match step
    case Publish(_) =>
    case Add(file) =>
      if ScanSingleFile(file).Some? {
        AddToKeepsSound(index, ScanSingleFile(file).value);
      }
  }

  lemma {:induction false} PerformAllKeepsSound(index: Index, steps: seq<IndexStep>)
    requires Sound(index)
    ensures Sound(PerformAll(index, steps))
    decreases |steps|
  {
    if steps != [] {
      PerformKeepsSound(index, steps[0]);
      PerformAllKeepsSound(Perform(index, steps[0]), steps[1..]);
    }
  }

  /** Some run of scans and additions leads from a fresh index to this one. */
  ghost predicate Reachable(index: Index) {
    exists steps :: index == PerformAll(EMPTY_INDEX, steps)
  }

  lemma ReachableIsSound(index: Index)
    requires Reachable(index)
    ensures Sound(index)
  {
    var steps :| index == PerformAll(EMPTY_INDEX, steps);
    PerformAllKeepsSound(EMPTY_INDEX, steps);
  }

  // ---------------------------------------------------------------- looking up a path

  /** `get_file`. */
  function GetFile(index: Index, path: Bytes): Option<SharedFile> {
    if path in index.pathIndex && index.pathIndex[path] < |index.files| then
      Some(index.files[index.pathIndex[path]])
    else
      None
  }

  lemma GetFileBySound(index: Index, path: Bytes)
    requires Sound(index)
    ensures GetFile(index, path).Some? <==> path in Paths(index.files)
    ensures GetFile(index, path).Some? ==>
      && IsLastPosition(Paths(index.files), path, index.pathIndex[path])
      && GetFile(index, path).value == index.files[index.pathIndex[path]]
  {
    LastPositionsExact(Paths(index.files), path);
  }

  /** In every reachable index a path is found exactly when some indexed file has it, and what
      is found is the last such file. */
  lemma GetFileFindsExactly(index: Index, path: Bytes)
    requires Reachable(index)
    ensures GetFile(index, path).Some? <==> path in Paths(index.files)
    ensures GetFile(index, path).Some? ==>
      exists i: nat :: IsLastPosition(Paths(index.files), path, i) && GetFile(index, path).value == index.files[i]
  {
    ReachableIsSound(index);
    GetFileBySound(index, path);
  }

  /** A file that has been added is found under "@@rinse\\" and its name exactly if it is audio, or if a file
      of that name was there before. */
  lemma AddedFileIsFound(index: Index, file: DiskFile)
    requires Reachable(index)
    ensures GetFile(Perform(index, Add(file)), Ascii("@@rinse\\") + file.name).Some?
            <==> IsAudio(file.name) || GetFile(index, Ascii("@@rinse\\") + file.name).Some?
  {
    ReachableIsSound(index);
    PerformKeepsSound(index, Add(file));
    var path := Ascii("@@rinse\\") + file.name;
    SharePath(file.name);
    hide Sound, IsAudio, Ascii, PutU32, EncodeFileList;
    GetFileBySound(index, path);
    GetFileBySound(Perform(index, Add(file)), path);
    if IsAudio(file.name) {
      AddedIsListed(index, ScanSingleFile(file).value);
    }
  }

  lemma SharePath(name: Str)
    ensures VirtualPath(name) == Ascii("@@rinse\\") + name
  {
    assert Ascii("@@rinse\\") == Ascii("@@rinse") + [BACKSLASH];
  }

  lemma AddedIsListed(index: Index, file: SharedFile)
    requires Sound(index)
    ensures file.virtualPath in Paths(AddTo(index, file).files)
  {
    if file.virtualPath in index.pathIndex {
      LastPositionsExact(Paths(index.files), file.virtualPath);
    } else {
      MapSnoc(index.files, file, PathOf);
      assert Paths(index.files + [file])[|index.files|] == file.virtualPath;
    }
  }

  // ---------------------------------------------------------------- searching

  predicate IsInclude(word: Bytes) {
    word != [] && word[0] != DASH
  }

  predicate IsExclude(word: Bytes) {
    |word| > 1 && word[0] == DASH
  }

  function WithoutDash(word: Bytes): Bytes {
    if word == [] then [] else word[1..]
  }

  function QueryWords(query: Bytes): seq<Bytes> {
    SplitWhitespace(Lowercase(query))
  }

  function Includes(query: Bytes): seq<Bytes> {
    Filter(QueryWords(query), IsInclude)
  }

  function Excludes(query: Bytes): seq<Bytes> {
    Map(Filter(QueryWords(query), IsExclude), WithoutDash)
  }

  /** The indices a query selects, before the result is cut to size. */
  function MatchIndices(index: Index, query: Bytes): seq<nat> {
    Select(index.wordIndex, Includes(query), Excludes(query))
  }

  function Truncate<T>(s: seq<T>, max: nat): seq<T> {
    if |s| <= max then s else s[..max]
  }

  /** The files at those of the indices that are in range. */
  function FilesAt(files: seq<SharedFile>, indices: seq<nat>): (r: seq<SharedFile>)
    ensures |r| <= |indices|
    ensures AllBelow(indices, |files|) ==> |r| == |indices| && forall k | 0 <= k < |r| :: r[k] == files[indices[k]]
  {
    if indices == [] then []
    else (if indices[0] < |files| then [files[indices[0]]] else []) + FilesAt(files, indices[1..])
  }

  function SearchIndex(index: Index, query: Bytes, maxResults: nat): (r: seq<SharedFile>)
    ensures |r| <= maxResults
  {
    FilesAt(index.files, Truncate(MatchIndices(index, query), maxResults))
  }

  /** File `i` is one a query asks for. */
  predicate Wanted(files: seq<SharedFile>, query: Bytes, i: nat) {
    i < |files| && Includes(query) != [] && Matches(WordsOf(files[i]), Includes(query), Excludes(query))
  }

  lemma SelectionExact(index: Index, query: Bytes)
    requires Sound(index)
    ensures var full := MatchIndices(index, query);
            && Ascending(full) && AllBelow(full, |index.files|)
            && (forall i: nat :: i in full <==> Wanted(index.files, query, i))
  {
    var docs := Documents(index.files);
    if Includes(query) != [] {
      SelectIsBruteForce(docs, Includes(query), Excludes(query));
      forall i: nat ensures i in MatchIndices(index, query) <==> Wanted(index.files, query, i) {
        assert i < |docs| ==> docs[i] == WordsOf(index.files[i]);
      }
    }
  }

  lemma AnswerIsPrefix(index: Index, query: Bytes, maxResults: nat)
    requires AllBelow(MatchIndices(index, query), |index.files|)
    ensures var full := MatchIndices(index, query);
            var answer := SearchIndex(index, query, maxResults);
            && |answer| == (if |full| <= maxResults then |full| else maxResults)
            && (forall k | 0 <= k < |answer| :: answer[k] == index.files[full[k]])
  {
  }

  /** In every reachable index, a query selects exactly the files that a filter of the whole
      list by words keeps, in ascending order, and the answer is a prefix of that selection. */
  lemma SearchIsBruteForce(index: Index, query: Bytes, maxResults: nat)
    requires Reachable(index)
    ensures forall i: nat :: i in MatchIndices(index, query) <==> Wanted(index.files, query, i)
    ensures Ascending(MatchIndices(index, query)) && AllBelow(MatchIndices(index, query), |index.files|)
    ensures var full := MatchIndices(index, query);
            var answer := SearchIndex(index, query, maxResults);
            && |answer| == (if |full| <= maxResults then |full| else maxResults)
            && (forall k | 0 <= k < |answer| :: answer[k] == index.files[full[k]])
  {
    ReachableIsSound(index);
    SelectionExact(index, query);
    AnswerIsPrefix(index, query, maxResults);
  }

  /** A matching file comes once for each time its name holds a rarest include word. */
  lemma SearchMultiplicity(index: Index, query: Bytes, i: nat) returns (rarest: Bytes)
    requires Reachable(index) && Includes(query) != [] && i < |index.files|
    ensures rarest in Includes(query)
    ensures forall w | w in Includes(query) :: |PostingsIn(index.wordIndex, rarest)| <= |PostingsIn(index.wordIndex, w)|
    ensures Count(MatchIndices(index, query), i)
         == if Wanted(index.files, query, i) then Count(WordsOf(index.files[i]), rarest) else 0
  {
    ReachableIsSound(index);
    rarest := SelectMultiplicity(Documents(index.files), Includes(query), Excludes(query), i);
  }

  // ---------------------------------------------------------------- what a user can count on

  /** The case of a query does not matter. */
  lemma CaseDoesNotMatter(index: Index, q1: Bytes, q2: Bytes)
    requires Lowercase(q1) == Lowercase(q2)
    ensures MatchIndices(index, q1) == MatchIndices(index, q2)
  {
  }

  /** A stretch of letters and digits only. */
  predicate IsRun(run: Bytes) {
    run != [] && forall k | 0 <= k < |run| :: IsAlphanumeric(run[k])
  }

  lemma RunIsInclude(run: Bytes)
    requires IsRun(run)
    ensures Includes(run) == [Lowercase(run)] && Excludes(run) == []
  {
    var w := Lowercase(run);
    OneWord(w);
    assert Filter([w], IsInclude) == [w] && Filter([w], IsExclude) == [];
  }

  lemma DashedRunIsExclude(run: Bytes)
    requires IsRun(run)
    ensures Includes([DASH] + run) == [] && Excludes([DASH] + run) == [Lowercase(run)]
  {
    var w := [DASH] + Lowercase(run);
    assert Lowercase([DASH] + run) == w;
    OneWord(w);
    assert Filter([w], IsInclude) == [] && Filter([w], IsExclude) == [w];
    assert Map([w], WithoutDash) == [WithoutDash(w)];
  }

  lemma PartsOfQuery(q1: Bytes, q2: Bytes)
    ensures Includes(q1 + [SPACE] + q2) == Includes(q1) + Includes(q2)
    ensures Excludes(q1 + [SPACE] + q2) == Excludes(q1) + Excludes(q2)
  {
    assert Lowercase(q1 + [SPACE] + q2) == Lowercase(q1) + [SPACE] + Lowercase(q2);
    SplitAtSpace(Lowercase(q1), SPACE, Lowercase(q2));
    var (w1, w2) := (QueryWords(q1), QueryWords(q2));
    FilterConcat(w1, w2, IsInclude);
    FilterConcat(w1, w2, IsExclude);
    MapConcat(Filter(w1, IsExclude), Filter(w2, IsExclude), WithoutDash);
  }

  /** The query begins with a word to look for. */
  predicate BeginsWithWord(query: Bytes) {
    query != [] && !IsSpace(query[0]) && query[0] != DASH
  }

  lemma WordIsInclude(query: Bytes)
    requires BeginsWithWord(query)
    ensures Includes(query) != []
  {
    var words := QueryWords(query);
    assert Lowercase(query)[0] == Lower(query[0]) && !IsSpace(Lower(query[0]));
    assert words[0][0] == Lower(query[0]) && words[0] in words;
    assert IsInclude(words[0]) && words[0] in Includes(query);
  }

  lemma MatchMeans(index: Index, query: Bytes, f: nat)
    requires Reachable(index)
    ensures f in MatchIndices(index, query) <==> Wanted(index.files, query, f)
  {
    SearchIsBruteForce(index, query, 0);
  }

  /** In every reachable index, a query that is one stretch of letters and digits finds exactly the files
      whose stem holds it, in whatever case, as a stretch that cannot be extended and has two characters
      or more. */
  lemma WordFindsExactly(index: Index, run: Bytes, f: nat)
    requires Reachable(index) && IsRun(run)
    ensures f in MatchIndices(index, run) <==>
              f < |index.files| && IsWordOf(Stem(index.files[f].disk.name), Lowercase(run))
  {
    MatchMeans(index, run, f);
    RunIsInclude(run);
    if f < |index.files| {
      ExtractWordsExact(index.files[f].disk.name, Lowercase(run));
    }
    hide Reachable, MatchIndices, Stem, IsWordOf, ExtractWords;
  }

  /** Each file is found by each of its own words. */
  lemma FoundByOwnWords(index: Index, f: nat, i: nat, j: nat)
    requires Reachable(index) && f < |index.files|
    requires var stem := Stem(index.files[f].disk.name); MaximalAlphanumericRun(stem, i, j) && j - i >= 2
    ensures f in MatchIndices(index, Stem(index.files[f].disk.name)[i..j])
  {
    var stem := Stem(index.files[f].disk.name);
    hide Reachable, MatchIndices;
    WordFindsExactly(index, stem[i..j], f);
    assert IsWordOf(stem, Lowercase(stem[i..j]));
  }

  /** Two parts of a query find together exactly what each of them finds. */
  lemma PartsConjoin(index: Index, q1: Bytes, q2: Bytes, f: nat)
    requires Reachable(index) && BeginsWithWord(q1) && BeginsWithWord(q2)
    ensures f in MatchIndices(index, q1 + [SPACE] + q2)
            <==> f in MatchIndices(index, q1) && f in MatchIndices(index, q2)
  {
    hide Reachable, MatchIndices, Includes, Excludes, WordsOf, BeginsWithWord;
    MatchMeans(index, q1, f);
    MatchMeans(index, q2, f);
    MatchMeans(index, q1 + [SPACE] + q2, f);
    PartsOfQuery(q1, q2);
    WordIsInclude(q1);
    WordIsInclude(q2);
  }

  lemma DashedPart(query: Bytes, run: Bytes)
    requires IsRun(run)
    ensures Includes(query + Ascii(" -") + run) == Includes(query)
    ensures Excludes(query + Ascii(" -") + run) == Excludes(query) + [Lowercase(run)]
  {
    assert Ascii(" -") == [SPACE, DASH];
    hide Includes, Excludes, IsRun, Ascii;
    assert query + Ascii(" -") + run == query + [SPACE] + ([DASH] + run);
    PartsOfQuery(query, [DASH] + run);
    DashedRunIsExclude(run);
  }

  /** A word behind a dash takes away exactly what it would find. */
  lemma DashExcludesExactly(index: Index, query: Bytes, run: Bytes, f: nat)
    requires Reachable(index) && IsRun(run)
    ensures f in MatchIndices(index, query + Ascii(" -") + run)
            <==> f in MatchIndices(index, query) && f !in MatchIndices(index, run)
  {
    hide Reachable, MatchIndices, Includes, Excludes, WordsOf, IsRun, Ascii;
    MatchMeans(index, query, f);
    MatchMeans(index, run, f);
    MatchMeans(index, query + Ascii(" -") + run, f);
    DashedPart(query, run);
    RunIsInclude(run);
    var (w, excludes) := (Lowercase(run), Excludes(query));
    assert w in [w] && w in excludes + [w];
    assert forall x | x in excludes :: x in excludes + [w];
  }

  /** So no query that adds one of a file's own words behind a dash finds the file. */
  lemma ExcludedByOwnWords(index: Index, f: nat, i: nat, j: nat, query: Bytes)
    requires Reachable(index) && f < |index.files|
    requires var stem := Stem(index.files[f].disk.name); MaximalAlphanumericRun(stem, i, j) && j - i >= 2
    ensures f !in MatchIndices(index, query + Ascii(" -") + Stem(index.files[f].disk.name)[i..j])
  {
    hide Reachable, MatchIndices, Ascii;
    FoundByOwnWords(index, f, i, j);
    DashExcludesExactly(index, query, Stem(index.files[f].disk.name)[i..j], f);
  }

  lemma IndexedIsAlphanumeric(name: Bytes, w: Bytes)
    requires w in ExtractWords(name)
    ensures |w| >= 2 && forall k | 0 <= k < |w| :: IsAlphanumeric(w[k])
  {
    ExtractWordsExact(name, w);
    hide ExtractWords;
  }

  lemma UnindexedHasNoPostings(files: seq<SharedFile>, w: Bytes)
    requires |w| < 2 || exists k :: 0 <= k < |w| && !IsAlphanumeric(w[k])
    ensures PostingsIn(IndexOf(Documents(files)), w) == []
  {
    hide ExtractWords, IndexOf, PostingsIn, IsAlphanumeric;
    forall i | i in PostingsIn(IndexOf(Documents(files)), w)
      ensures false
    {
      PostedIsInDocument(Documents(files), w, i);
      IndexedIsAlphanumeric(files[i].disk.name, w);
    }
    SomethingIn(PostingsIn(IndexOf(Documents(files)), w));
  }

  lemma SomethingIn(s: seq<nat>)
    ensures s != [] ==> exists i :: i in s
  {
    if s != [] {
      assert s[0] in s;
    }
  }

  /** Indexed words are lower-case letters and digits, so a query word with any other
      character, or of a single one, matches no file. */
  lemma UnindexedWordMatchesNothing(index: Index, query: Bytes, w: Bytes)
    requires Reachable(index) && w in Includes(query)
    requires |w| < 2 || exists k :: 0 <= k < |w| && !IsAlphanumeric(w[k])
    ensures MatchIndices(index, query) == []
  {
    ReachableIsSound(index);
    UnindexedHasNoPostings(index.files, w);
    MissingWordSelectsNothing(index.wordIndex, Includes(query), Excludes(query), w);
  }
}
