/** Shared files: which files are shared, under which path, by which words they are found, and
    how they are listed to a peer. */
module SharedFiles {
  import opened Wrappers
  import opened Bytes
  import opened Text
  import opened Seqs

  // ---------------------------------------------------------------- files

  /** A file on disk, with the audio properties that could be read from it. */
  datatype DiskFile = DiskFile(
    name: Str,
    size: U64,
    bitrate: Option<U32>,
    duration: Option<U32>,
    sampleRate: Option<U32>,
    bitDepth: Option<U32>)

  datatype SharedFile = SharedFile(virtualPath: Str, disk: DiskFile)

  /** The file's share path is the share root and its name. */
  const SHARE_ROOT: Bytes := Ascii("@@rinse")

  const AUDIO_EXTENSIONS: seq<Bytes> := [
    Ascii("flac"), Ascii("mp3"), Ascii("ogg"), Ascii("opus"), Ascii("wav"),
    Ascii("aac"), Ascii("m4a"), Ascii("wma"), Ascii("aiff"), Ascii("alac")]

  function ExtensionOrEmpty(name: Bytes): Bytes {
    match Extension(name) case Some(e) => e case None => []
  }

  predicate IsAudio(name: Bytes) {
    Lowercase(ExtensionOrEmpty(name)) in AUDIO_EXTENSIONS
  }

  /** A file is shared exactly when something precedes its last dot and one of ten extensions, in
      letters of either case, follows it. */
  lemma SharedExactly(stem: Bytes, ext: Bytes)
    requires DOT !in ext
    ensures IsAudio(stem + [DOT] + ext) <==>
              stem != [] && var e := Lowercase(ext);
              (|| e == Ascii("flac") || e == Ascii("mp3") || e == Ascii("ogg") || e == Ascii("opus")
               || e == Ascii("wav") || e == Ascii("aac") || e == Ascii("m4a") || e == Ascii("wma")
               || e == Ascii("aiff") || e == Ascii("alac"))
    ensures !IsAudio(ext)
  {
    hide Extension, Lowercase, Ascii;
    ExtensionExactly(stem, ext);
    NothingIsNoExtension();
  }

  lemma NothingIsNoExtension()
    ensures Lowercase([]) !in AUDIO_EXTENSIONS
  {
    assert Lowercase([]) == [];
    assert forall ext | ext in AUDIO_EXTENSIONS :: |ext| > 0;
  }

  lemma {:induction false} AsciiPrefixUtf8(prefix: Bytes, s: Str)
    requires forall i | 0 <= i < |prefix| :: prefix[i] < 0x80
    ensures Utf8(prefix + s)
  {
    if prefix == [] {
      assert prefix + s == s;
    } else {
      assert (prefix + s)[1..] == prefix[1..] + s;
      AsciiPrefixUtf8(prefix[1..], s);
    }
  }

  function VirtualPath(name: Str): (path: Str)
    ensures path == SHARE_ROOT + [BACKSLASH] + name
  {
    AsciiPrefixUtf8(SHARE_ROOT + [BACKSLASH], name);
    SHARE_ROOT + [BACKSLASH] + name
  }

  /** `scan_single_file`: only audio files are shared. */
  function ScanSingleFile(file: DiskFile): Option<SharedFile> {
    if IsAudio(file.name) then Some(SharedFile(VirtualPath(file.name), file)) else None
  }

  /** `extract_words`: the stem's letter-and-digit runs in lower case, two bytes or longer. */
  function Stem(name: Bytes): Bytes {
    match LastIndexOf(name, DOT)
    case Some(dot) => name[..dot]
    case None => name
  }

  /** The stem is what precedes the last dot, or the whole name. */
  lemma StemExactly(stem: Bytes, ext: Bytes)
    requires DOT !in ext
    ensures Stem(stem + [DOT] + ext) == stem && Stem(ext) == ext
  {
    LastDot(stem, ext);
  }

  function Cleaned(b: Byte): Byte {
    if IsAlphanumeric(b) then Lower(b) else SPACE
  }

  function ExtractWords(name: Bytes): seq<Bytes> {
    Filter(SplitWhitespace(Map(Stem(name), Cleaned)), (w: Bytes) => |w| >= 2)
  }

  function WordsOf(file: SharedFile): seq<Bytes> {
    ExtractWords(file.disk.name)
  }

  /** `s[i..j]` is a stretch of letters and digits that cannot be extended. */
  predicate MaximalAlphanumericRun(s: Bytes, i: nat, j: nat) {
    && i < j <= |s|
    && (forall k | i <= k < j :: IsAlphanumeric(s[k]))
    && (i > 0 ==> !IsAlphanumeric(s[i - 1]))
    && (j < |s| ==> !IsAlphanumeric(s[j]))
  }

  ghost predicate IsWordOf(stem: Bytes, w: Bytes) {
    exists i: nat, j: nat :: MaximalAlphanumericRun(stem, i, j) && j - i >= 2 && w == Lowercase(stem[i..j])
  }

  lemma CleanedRuns(stem: Bytes, i: nat, j: nat)
    ensures MaximalRun(Map(stem, Cleaned), i, j) <==> MaximalAlphanumericRun(stem, i, j)
    ensures MaximalRun(Map(stem, Cleaned), i, j) ==> Map(stem, Cleaned)[i..j] == Lowercase(stem[i..j])
  {
    var cleaned := Map(stem, Cleaned);
    assert forall k | 0 <= k < |stem| :: IsSpace(cleaned[k]) <==> !IsAlphanumeric(stem[k]);
    if MaximalRun(cleaned, i, j) {
      assert forall k | i <= k < j :: IsAlphanumeric(stem[k]);
    }
  }

  /** The words of a name are exactly the maximal alphanumeric runs of its stem, in lower case,
      that have at least two characters. */
  lemma ExtractWordsExact(name: Bytes, w: Bytes)
    ensures w in ExtractWords(name) <==> IsWordOf(Stem(name), w)
  {
    var stem := Stem(name);
    var cleaned := Map(stem, Cleaned);
    if w in ExtractWords(name) {
      var i, j := WordIsRun(cleaned, w);
      CleanedRuns(stem, i, j);
    }
    if IsWordOf(stem, w) {
      var i: nat, j: nat :| MaximalAlphanumericRun(stem, i, j) && j - i >= 2 && w == Lowercase(stem[i..j]);
      CleanedRuns(stem, i, j);
      RunIsWord(cleaned, i, j);
    }
  }

  // ---------------------------------------------------------------- a directory scan

  function PathOf(file: SharedFile): Bytes {
    file.virtualPath
  }

  predicate DistinctPaths(files: seq<SharedFile>) {
    forall i, j | 0 <= i < j < |files| :: files[i].virtualPath != files[j].virtualPath
  }

  /** A directory scan shares the audio files among the entries. */
  function ScanDirectory(entries: seq<DiskFile>): seq<SharedFile> {
    if entries == [] then []
    else
      ScanDirectory(entries[..|entries| - 1]) +
      match ScanSingleFile(entries[|entries| - 1]) case Some(file) => [file] case None => []
  }

  lemma {:induction false} ScannedNames(entries: seq<DiskFile>, i: nat) returns (k: nat)
    requires i < |ScanDirectory(entries)|
    ensures k < |entries| && ScanSingleFile(entries[k]) == Some(ScanDirectory(entries)[i])
    ensures i < |ScanDirectory(entries)| - 1 ==> k < |entries| - 1 || ScanSingleFile(entries[|entries| - 1]).None?
  {
    var init := entries[..|entries| - 1];
    if i < |ScanDirectory(init)| {
      k := ScannedNames(init, i);
    } else {
      k := |entries| - 1;
    }
  }

  lemma SamePathSameName(a: Str, b: Str)
    ensures VirtualPath(a) == VirtualPath(b) <==> a == b
  {
    var prefix := SHARE_ROOT + [BACKSLASH];
    if VirtualPath(a) == VirtualPath(b) {
      assert VirtualPath(a)[|prefix|..] == a;
      assert VirtualPath(b)[|prefix|..] == b;
    }
  }

  predicate DistinctNames(entries: seq<DiskFile>) {
    forall i, j | 0 <= i < j < |entries| :: entries[i].name != entries[j].name
  }

  /** The entries of one directory have distinct names, so a scan has distinct share paths. */
  lemma {:induction false} ScanHasDistinctPaths(entries: seq<DiskFile>)
    requires DistinctNames(entries)
    ensures DistinctPaths(ScanDirectory(entries))
  {
    if entries != [] {
      var init, last := entries[..|entries| - 1], entries[|entries| - 1];
      ScanHasDistinctPaths(init);
      if ScanSingleFile(last).Some? {
        var files := ScanDirectory(init);
        forall i | 0 <= i < |files| ensures files[i].virtualPath != VirtualPath(last.name) {
          var k := ScannedNames(init, i);
          assert entries[k].name != last.name;
          SamePathSameName(entries[k].name, last.name);
        }
      }
    }
  }

  // ---------------------------------------------------------------- the shared file list

  function PutAttribute(kind: nat, value: Option<U32>): Bytes {
    match value case Some(v) => PutU32(kind) + PutU32(v) case None => []
  }

  function Present(value: Option<U32>): nat {
    if value.Some? then 1 else 0
  }

  function ListedCount(f: DiskFile): (n: nat)
    ensures n <= 3
  {
    if f.bitDepth.Some? then Present(f.duration) + Present(f.sampleRate) + Present(f.bitDepth)
    else Present(f.bitrate) + Present(f.duration) + Present(f.bitrate)
  }

  function ListedAttributes(f: DiskFile): Bytes {
    if f.bitDepth.Some? then
      PutAttribute(1, f.duration) + PutAttribute(4, f.sampleRate) + PutAttribute(5, f.bitDepth)
    else
      PutAttribute(0, f.bitrate) + PutAttribute(1, f.duration) +
      (if f.bitrate.Some? then PutU32(2) + PutU32(0) else [])
  }

  /** One file's entry in the shared file list. */
  function EncodeListed(file: SharedFile): Bytes {
    [1] + EncodeString(file.disk.name) + PutU64(file.disk.size) + PutU32(0) +
    PutU32(ListedCount(file.disk)) + ListedAttributes(file.disk)
  }

  function EncodeListedAll(files: seq<SharedFile>): Bytes {
    if files == [] then [] else EncodeListedAll(files[..|files| - 1]) + EncodeListed(files[|files| - 1])
  }

  /** The shared file list before compression. */
  function EncodeFileList(files: seq<SharedFile>): Bytes {
    (if files == [] then PutU32(0)
     else PutU32(1) + EncodeString(SHARE_ROOT) + PutU32(|files|) + EncodeListedAll(files)) + PutU32(0)
  }
}
