/** The sharing service: the index in mutable fields, built and searched by loops. */
module SharingService {
  import opened Wrappers
  import opened Bytes
  import opened Text
  import opened Seqs
  import opened InvertedIndex
  import opened SharedFiles
  import opened ShareIndex

  method CollectFiles(entries: seq<DiskFile>) returns (found: seq<SharedFile>)
    ensures found == ScanDirectory(entries)
  {
    found := [];
    for k := 0 to |entries|
      invariant found == ScanDirectory(entries[..k])
    {
      assert entries[..k + 1][..k] == entries[..k];
      var scanned := ScanSingleFile(entries[k]);
      if scanned.Some? {
        found := found + [scanned.value];
      }
    }
    assert entries[..|entries|] == entries;
  }

  /** The uncompressed shared file list. */
  method BuildFileList(files: seq<SharedFile>) returns (buf: Bytes)
    ensures buf == EncodeFileList(files)
  {
    if files == [] {
      buf := PutU32(0);
    } else {
      var header := PutU32(1) + EncodeString(SHARE_ROOT) + PutU32(|files|);
      var body := EncodeEntries(files);
      buf := header + body;
    }
    buf := buf + PutU32(0);
  }

  method EncodeEntries(files: seq<SharedFile>) returns (buf: Bytes)
    ensures buf == EncodeListedAll(files)
  {
    buf := [];
    for k := 0 to |files|
      invariant buf == EncodeListedAll(files[..k])
    {
      assert files[..k + 1][..k] == files[..k];
      buf := buf + EncodeListed(files[k]);
    }
    assert files[..|files|] == files;
  }

  lemma NothingPosted()
    ensures IndexOf(Documents([])) == map[] && LastPositions(Paths([])) == map[]
  {
  }

  method BuildMaps(files: seq<SharedFile>) returns (words: Postings<Bytes>, paths: map<Bytes, nat>)
    ensures words == IndexOf(Documents(files)) && paths == LastPositions(Paths(files))
  {
    hide AddWords, IndexOf, LastPositions, Documents, Paths, WordsOf, ExtractWords, Map;
    NothingPosted();
    words, paths := map[], map[];
    for idx := 0 to |files|
      invariant words == IndexOf(Documents(files[..idx]))
      invariant paths == LastPositions(Paths(files[..idx]))
    {
      var file := files[idx];
      assert files[..idx + 1] == files[..idx] + [file];
      DocumentsSnoc(files[..idx], file);
      paths := paths[file.virtualPath := idx];
      words := PostWords(words, WordsOf(file), idx);
    }
    assert files[..|files|] == files;
  }

  lemma ExcludeSnoc(words: seq<Bytes>, word: Bytes)
    ensures Map(Filter(words + [word], IsExclude), WithoutDash)
         == Map(Filter(words, IsExclude), WithoutDash) + (if IsExclude(word) then [word[1..]] else [])
  {
    FilterSnoc(words, word, IsExclude);
    MapConcat(Filter(words, IsExclude), if IsExclude(word) then [word] else [], WithoutDash);
  }

  method SplitQuery(words: seq<Bytes>) returns (wanted: seq<Bytes>, unwanted: seq<Bytes>)
    ensures wanted == Filter(words, IsInclude) && unwanted == Map(Filter(words, IsExclude), WithoutDash)
  {
    hide Filter, Map;
    FilterNone([], IsInclude);
    FilterNone([], IsExclude);
    assert Map([], WithoutDash) == [];
    wanted, unwanted := [], [];
    for k := 0 to |words|
      invariant wanted == Filter(words[..k], IsInclude)
      invariant unwanted == Map(Filter(words[..k], IsExclude), WithoutDash)
    {
      var word := words[k];
      FilterSnoc(words[..k], word, IsInclude);
      ExcludeSnoc(words[..k], word);
      assert words[..k + 1] == words[..k] + [word];
      if IsExclude(word) {
        unwanted := unwanted + [word[1..]];
      } else if IsInclude(word) {
        wanted := wanted + [word];
      }
    }
    assert words[..|words|] == words;
  }

  lemma FilesAtNothing(files: seq<SharedFile>)
    ensures FilesAt(files, []) == []
  {
  }

  lemma FilesAtStep(files: seq<SharedFile>, indices: seq<nat>, k: nat)
    requires k < |indices|
    ensures FilesAt(files, indices[k..])
         == (if indices[k] < |files| then [files[indices[k]]] else []) + FilesAt(files, indices[k + 1..])
  {
    assert indices[k..][1..] == indices[k + 1..];
  }

  method CollectResults(files: seq<SharedFile>, indices: seq<nat>) returns (r: seq<SharedFile>)
    ensures r == FilesAt(files, indices)
  {
    hide FilesAt, AllBelow;
    r := [];
    FilesAtNothing(files);
    for k := 0 to |indices|
      invariant r + FilesAt(files, indices[k..]) == FilesAt(files, indices)
    {
      FilesAtStep(files, indices, k);
      if indices[k] < |files| {
        r := r + [files[indices[k]]];
      }
    }
  }

  class SharingService {
    const enabled: bool
    var files: seq<SharedFile>
    var wordIndex: Postings<Bytes>
    var pathIndex: map<Bytes, nat>
    var fileList: Bytes
    var folderCount: U32
    var fileCount: U32

    function Snapshot(): Index
      reads this
    {
      Index(files, wordIndex, pathIndex, fileList, folderCount, fileCount)
    }

    ghost predicate Valid()
      reads this
    {
      Sound(Snapshot())
    }

    constructor (enabled: bool)
      ensures Valid() && this.enabled == enabled && Snapshot() == EMPTY_INDEX
    {
      this.enabled := enabled;
      files, wordIndex, pathIndex, fileList, folderCount, fileCount := [], map[], map[], [], 0, 0;
    }

    /** Build both indexes for the files found and publish them. */
    method Scan(entries: seq<DiskFile>) returns (folders: U32, count: U32)
      requires Valid()
      modifies this
      ensures Valid()
      ensures !enabled ==> Snapshot() == old(Snapshot()) && folders == count == 0
      ensures enabled ==> Snapshot() == Perform(old(Snapshot()), Publish(entries))
      ensures enabled ==> folders == folderCount && count == fileCount
    {
      if !enabled {
        return 0, 0;
      }
      var found := CollectFiles(entries);
      count := |found| % U32_RANGE;
      folders := if count > 0 then 1 else 0;
      var words, paths := BuildMaps(found);
      var list := BuildFileList(found);
      files, wordIndex, pathIndex, fileList := found, words, paths, list;
      folderCount, fileCount := folders, count;
    }

    /** Index one downloaded file unless its share path is indexed already. */
    method AddFile(disk: DiskFile) returns (ok: bool)
      requires Valid()
      modifies this
      ensures Valid()
      ensures !enabled ==> ok && Snapshot() == old(Snapshot())
      ensures enabled ==> Snapshot() == Perform(old(Snapshot()), Add(disk))
      ensures enabled ==> (ok <==> ScanSingleFile(disk).Some?)
    {
      if !enabled {
        return true;
      }
      PerformKeepsSound(Snapshot(), Add(disk));
      var scanned := ScanSingleFile(disk);
      if scanned.None? {
        return false;
      }
      InsertFile(scanned.value);
      return true;
    }

    method InsertFile(file: SharedFile)
      modifies this
      ensures Snapshot() == AddTo(old(Snapshot()), file)
    {
      if file.virtualPath in pathIndex {
        return;
      }
      var idx := |files|;
      var words := PostWords(wordIndex, WordsOf(file), idx);
      wordIndex := words;
      pathIndex := pathIndex[file.virtualPath := idx];
      files := files + [file];
      fileCount := |files| % U32_RANGE;
      if folderCount == 0 && fileCount > 0 {
        folderCount := 1;
      }
      var list := BuildFileList(files);
      fileList := list;
    }

    /** The rarest word's postings, narrowed word by word, then cut to size. */
    method Search(query: Bytes, maxResults: nat) returns (r: seq<SharedFile>)
      requires Valid()
      ensures r == SearchIndex(Snapshot(), query, maxResults)
    {
      if files == [] {
        NothingInEmptyIndex(query);
        return [];
      }
      var wanted, unwanted := SplitQuery(QueryWords(query));
      var matching := Intersect(wordIndex, wanted, unwanted);
      r := CollectResults(files, Truncate(matching, maxResults));
    }

    lemma NothingInEmptyIndex(query: Bytes)
      requires Valid() && files == []
      ensures MatchIndices(Snapshot(), query) == []
    {
      if Includes(query) != [] {
        MissingWordSelectsNothing(wordIndex, Includes(query), Excludes(query), Includes(query)[0]);
      }
    }

    method FindFile(virtualPath: Bytes) returns (r: Option<SharedFile>)
      requires Valid()
      ensures r == GetFile(Snapshot(), virtualPath)
      ensures r.Some? <==> virtualPath in Paths(files)
    {
      GetFileBySound(Snapshot(), virtualPath);
      if virtualPath in pathIndex && pathIndex[virtualPath] < |files| {
        return Some(files[pathIndex[virtualPath]]);
      }
      return None;
    }
  }
}
