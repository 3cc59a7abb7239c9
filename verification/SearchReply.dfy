/** The search reply: the printer of the sharing side, the parser of the searching side, and
    what of a reply survives from one to the other. Compression is the identity. */
module SearchReply {
  import opened Wrappers
  import opened Bytes
  import opened Text
  import opened Seqs
  import opened Messages
  import opened InvertedIndex
  import opened SharedFiles
  import opened ShareIndex

  /** What the parser keeps of a file. */
  datatype Entry = Entry(filename: Str, size: U64, bitrate: Option<U32>)

  datatype Reply = Reply(
    username: Str,
    token: U32,
    files: seq<Entry>,
    slotFree: bool,
    avgSpeed: U32,
    queueLength: U32)

  const MAX_PARSED_FILES := 100
  const MAX_ANSWERS := 50

  // ---------------------------------------------------------------- the printer

  function AttributeBytes(f: DiskFile): Bytes {
    PutAttribute(0, f.bitrate) + PutAttribute(1, f.duration) +
    PutAttribute(4, f.sampleRate) + PutAttribute(5, f.bitDepth)
  }

  function AttributeCount(f: DiskFile): (n: nat)
    ensures n <= 4
  {
    Present(f.bitrate) + Present(f.duration) + Present(f.sampleRate) + Present(f.bitDepth)
  }

  function EncodeResult(file: SharedFile): Bytes {
    [1] + EncodeString(file.virtualPath) + PutU64(file.disk.size) +
    EncodeString(ExtensionOrEmpty(file.disk.name)) +
    PutU32(AttributeCount(file.disk)) + AttributeBytes(file.disk)
  }

  function EncodeResults(files: seq<SharedFile>): Bytes {
    if files == [] then [] else EncodeResult(files[0]) + EncodeResults(files[1..])
  }

  function EncodeStats(freeSlots: bool, avgSpeed: U32, queueLength: U32): Bytes {
    [if freeSlots then 1 else 0] + PutU32(avgSpeed) + PutU32(queueLength)
  }

  function EncodeReply(username: Bytes, token: U32, files: seq<SharedFile>,
                       freeSlots: bool, avgSpeed: U32, queueLength: U32): Bytes {
    EncodeString(username) + PutU32(token) + PutU32(|files|) + EncodeResults(files) +
    EncodeStats(freeSlots, avgSpeed, queueLength)
  }

  /** `encode_search_response`. */
  method EncodeSearchResponse(username: Bytes, token: U32, files: seq<SharedFile>,
                              freeSlots: bool, avgSpeed: U32, queueLength: U32) returns (buf: Bytes)
    ensures buf == EncodeReply(username, token, files, freeSlots, avgSpeed, queueLength)
  {
    hide EncodeResult, EncodeString, PutU32, EncodeStats;
    var results: Bytes := [];
    for k := 0 to |files|
      invariant results + EncodeResults(files[k..]) == EncodeResults(files)
    {
      assert files[k..][0] == files[k] && files[k..][1..] == files[k + 1..];
      results := results + EncodeResult(files[k]);
    }
    assert results == EncodeResults(files);
    buf := EncodeString(username) + PutU32(token) + PutU32(|files|) + results +
           EncodeStats(freeSlots, avgSpeed, queueLength);
  }

  // ---------------------------------------------------------------- the parser

  /** The last attribute of type 0 among the next `count`, as far as the bytes go. */
  function ParseAttributes(buf: Bytes, count: nat, bitrate: Option<U32>): (r: (Option<U32>, Bytes))
    ensures |r.1| <= |buf|
    decreases count
  {
    if count == 0 || |buf| < 8 then (bitrate, buf)
    else
      ParseAttributes(buf[8..], count - 1, if GetU32(buf) == 0 then Some(GetU32(buf[4..])) else bitrate)
  }

  datatype EntryResult = Parsed(entry: Entry, rest: Bytes) | Stop(rest: Bytes) | Malformed

  /** One file of the list; `Stop` is a break out of the list on missing bytes. */
  function ParseEntry(buf: Bytes): (r: EntryResult)
    ensures r.Parsed? ==> |r.rest| < |buf|
  {
    if buf == [] then Stop(buf)
    else match DecodeString(buf[1..])
      case None => Malformed
      case Some((filename, rest)) =>
        if |rest| < 8 then Stop(rest)
        else match DecodeString(rest[8..])
          case None => Malformed
          case Some((_, rest')) =>
            if |rest'| < 4 then Stop(rest')
            else
              var (bitrate, rest'') := ParseAttributes(rest'[4..], GetU32(rest'), None);
              Parsed(Entry(filename, GetU64(rest), bitrate), rest'')
  }

  /** At most `count` files, and the bytes left after them. */
  function ParseEntries(buf: Bytes, count: nat): Result<(seq<Entry>, Bytes)>
    decreases count
  {
    if count == 0 then Ok(([], buf))
    else match ParseEntry(buf)
      case Stop(rest) => Ok(([], rest))
      case Malformed => Err
      case Parsed(entry, rest) =>
        match ParseEntries(rest, count - 1)
        case Ok((entries, rest')) => Ok(([entry] + entries, rest'))
        case Err => Err
        case Abort => Abort
  }

  function Capped(count: nat): nat {
    if count < MAX_PARSED_FILES then count else MAX_PARSED_FILES
  }

  /** `parse_file_search_response`: missing statistics get defaults; a buffer that ends inside
      the token or the count aborts. */
  function ParseReply(data: Bytes): Result<Reply> {
    if |data| < 8 then Err
    else match DecodeString(data)
      case None => Err
      case Some((username, rest)) =>
        if |rest| < 8 then Abort
        else match ParseEntries(rest[8..], Capped(GetU32(rest[4..])))
          case Err => Err
          case Abort => Abort
          case Ok((files, stats)) =>
            var slotFree := if |stats| >= 1 then stats[0] != 0 else true;
            var stats1 := if |stats| >= 1 then stats[1..] else stats;
            var avgSpeed := if |stats1| >= 4 then GetU32(stats1) else 0;
            var stats2 := if |stats1| >= 4 then stats1[4..] else stats1;
            var queueLength := if |stats2| >= 4 then GetU32(stats2) else 0;
            Ok(Reply(username, GetU32(rest), files, slotFree, avgSpeed, queueLength))
  }

  function Prepend(first: seq<Entry>, r: Result<(seq<Entry>, Bytes)>): Result<(seq<Entry>, Bytes)> {
    match r case Ok((entries, rest)) => Ok((first + entries, rest)) case Err => Err case Abort => Abort
  }

  method ParseAttributeList(data: Bytes, count: nat) returns (bitrate: Option<U32>, buf: Bytes)
    ensures (bitrate, buf) == ParseAttributes(data, count, None)
  {
    bitrate, buf := None, data;
    for k := 0 to count
      invariant ParseAttributes(data, count, None) == ParseAttributes(buf, count - k, bitrate)
    {
      if |buf| < 8 {
        break;
      }
      var attrType, attrValue := GetU32(buf), GetU32(buf[4..]);
      buf := buf[8..];
      if attrType == 0 {
        bitrate := Some(attrValue);
      }
    }
  }

  method ParseOneFile(buf: Bytes) returns (r: EntryResult)
    ensures r == ParseEntry(buf)
  {
    hide GetU32, GetU64, DecodeString, ParseAttributes, Utf8;
    if |buf| < 1 {
      return Stop(buf);
    }
    var name := DecodeString(buf[1..]);
    if name.None? {
      return Malformed;
    }
    var rest := name.value.1;
    if |rest| < 8 {
      return Stop(rest);
    }
    var size := GetU64(rest);
    var ext := DecodeString(rest[8..]);
    if ext.None? {
      return Malformed;
    }
    rest := ext.value.1;
    if |rest| < 4 {
      return Stop(rest);
    }
    var bitrate, after := ParseAttributeList(rest[4..], GetU32(rest));
    return Parsed(Entry(name.value.0, size, bitrate), after);
  }

  /** The parser's loop over the file list. */
  method ParseFileList(data: Bytes, fileCount: nat) returns (r: Result<(seq<Entry>, Bytes)>)
    ensures r == ParseEntries(data, Capped(fileCount))
  {
    hide ParseEntry;
    var files: seq<Entry> := [];
    var buf := data;
    var limit := Capped(fileCount);
    PrependNothing(ParseEntries(data, limit));
    for k := 0 to limit
      invariant ParseEntries(data, limit) == Prepend(files, ParseEntries(buf, limit - k))
    {
      var one := ParseOneFile(buf);
      match one {
        case Stop(rest) =>
          assert files + [] == files;
          return Ok((files, rest));
        case Malformed =>
          return Err;
        case Parsed(entry, rest) =>
          PrependMore(files, entry, ParseEntries(rest, limit - k - 1));
          files := files + [entry];
          buf := rest;
      }
    }
    assert files + [] == files;
    return Ok((files, buf));
  }

  lemma PrependMore(files: seq<Entry>, entry: Entry, r: Result<(seq<Entry>, Bytes)>)
    ensures Prepend(files + [entry], r) == Prepend(files, Prepend([entry], r))
  {
    if r.Ok? {
      assert files + [entry] + r.value.0 == files + ([entry] + r.value.0);
    }
  }

  lemma PrependNothing(r: Result<(seq<Entry>, Bytes)>)
    ensures Prepend([], r) == r
  {
    if r.Ok? {
      assert [] + r.value.0 == r.value.0;
    }
  }

  /** `parse_file_search_response`. */
  method ParseFileSearchResponse(data: Bytes) returns (r: Result<Reply>)
    ensures r == ParseReply(data)
  {
    hide GetU32, DecodeString, ParseEntries, Utf8;
    if |data| < 8 {
      return Err;
    }
    var name := DecodeString(data);
    if name.None? {
      return Err;
    }
    var (username, rest) := name.value;
    if |rest| < 8 {
      return Abort;
    }
    var token, fileCount := GetU32(rest), GetU32(rest[4..]);
    var parsed := ParseFileList(rest[8..], fileCount);
    match parsed {
      case Err => return Err;
      case Abort => return Abort;
      case Ok((files, buf)) =>
        var slotFree, avgSpeed, queueLength := true, 0, 0;
        if |buf| >= 1 {
          slotFree, buf := buf[0] != 0, buf[1..];
        }
        if |buf| >= 4 {
          avgSpeed, buf := GetU32(buf), buf[4..];
        }
        if |buf| >= 4 {
          queueLength := GetU32(buf);
        }
        return Ok(Reply(username, token, files, slotFree, avgSpeed, queueLength));
    }
  }

  // ---------------------------------------------------------------- attributes

  /** The next `count` attributes, kind and value, as the protocol lists them. */
  function AttributesIn(buf: Bytes, count: nat): seq<(U32, U32)> {
    if count == 0 || |buf| < 8 then [] else [(GetU32(buf), GetU32(buf[4..]))] + AttributesIn(buf[8..], count - 1)
  }

  function Known(kind: U32, value: Option<U32>): seq<(U32, U32)> {
    match value case Some(v) => [(kind, v)] case None => []
  }

  lemma KnownIsListed(kind: U32, value: Option<U32>, rest: Bytes, count: nat)
    ensures AttributesIn(PutAttribute(kind, value) + rest, Present(value) + count)
         == Known(kind, value) + AttributesIn(rest, count)
  {
    hide PutU32, GetU32;
    if value.Some? {
      var buf := PutAttribute(kind, value) + rest;
      assert buf == PutU32(kind) + (PutU32(value.value) + rest);
      GetPutU32(kind, PutU32(value.value) + rest);
      GetPutU32(value.value, rest);
      assert buf[8..] == buf[4..][4..];
    } else {
      assert PutAttribute(kind, value) + rest == rest;
    }
  }

  /** A search reply lists what is known of bitrate (0), duration (1), sample rate (4) and bit depth (5). */
  lemma RepliesListKinds(f: DiskFile)
    ensures AttributesIn(AttributeBytes(f), AttributeCount(f))
         == Known(0, f.bitrate) + Known(1, f.duration) + Known(4, f.sampleRate) + Known(5, f.bitDepth)
  {
    hide PutAttribute, AttributesIn;
    var r3 := PutAttribute(5, f.bitDepth) + [];
    var r2 := PutAttribute(4, f.sampleRate) + r3;
    var r1 := PutAttribute(1, f.duration) + r2;
    assert AttributeBytes(f) == PutAttribute(0, f.bitrate) + r1;
    KnownIsListed(5, f.bitDepth, [], 0);
    KnownIsListed(4, f.sampleRate, r3, Present(f.bitDepth));
    KnownIsListed(1, f.duration, r2, Present(f.sampleRate) + Present(f.bitDepth));
    KnownIsListed(0, f.bitrate, r1, Present(f.duration) + Present(f.sampleRate) + Present(f.bitDepth));
    assert AttributesIn([], 0) == [] by { NoneListed(); }
  }

  lemma NoneListed()
    ensures AttributesIn([], 0) == []
  {
  }

  /** Of a file whose bit depth is known, the file list gives duration, sample rate and bit depth; of any
      other, the bitrate, the duration and, with the bitrate, a constant-rate mark (2). */
  lemma ListsShowKinds(f: DiskFile)
    ensures AttributesIn(ListedAttributes(f), ListedCount(f))
         == if f.bitDepth.Some? then Known(1, f.duration) + Known(4, f.sampleRate) + Known(5, f.bitDepth)
            else Known(0, f.bitrate) + Known(1, f.duration) + Known(2, if f.bitrate.Some? then Some(0) else None)
  {
    hide PutAttribute, AttributesIn;
    NoneListed();
    if f.bitDepth.Some? {
      var r2 := PutAttribute(5, f.bitDepth) + [];
      var r1 := PutAttribute(4, f.sampleRate) + r2;
      assert ListedAttributes(f) == PutAttribute(1, f.duration) + r1;
      KnownIsListed(5, f.bitDepth, [], 0);
      KnownIsListed(4, f.sampleRate, r2, Present(f.bitDepth));
      KnownIsListed(1, f.duration, r1, Present(f.sampleRate) + Present(f.bitDepth));
    } else {
      var mark := if f.bitrate.Some? then Some(0) else None;
      var r2 := PutAttribute(2, mark) + [];
      var r1 := PutAttribute(1, f.duration) + r2;
      assert ListedAttributes(f) == PutAttribute(0, f.bitrate) + r1 by { MarkIsAttribute(f); }
      KnownIsListed(2, mark, [], 0);
      KnownIsListed(1, f.duration, r2, Present(mark));
      KnownIsListed(0, f.bitrate, r1, Present(f.duration) + Present(mark));
    }
  }

  lemma MarkIsAttribute(f: DiskFile)
    requires f.bitDepth.None?
    ensures ListedAttributes(f) == PutAttribute(0, f.bitrate) + (PutAttribute(1, f.duration)
              + (PutAttribute(2, if f.bitrate.Some? then Some(0) else None) + []))
  {
  }

  // ---------------------------------------------------------------- the round trip

  function EntryOf(file: SharedFile): Entry {
    Entry(file.virtualPath, file.disk.size, file.disk.bitrate)
  }

  /** The file's path and name fit their length prefixes. */
  predicate ShortNames(file: SharedFile) {
    Short(file.virtualPath) && Short(file.disk.name)
  }

  lemma {:induction false} SuffixUtf8(s: Str, i: nat)
    requires i < |s| && s[i] < 0x80
    ensures Utf8(s[i + 1..])
  {
    if i > 0 {
      var width := if s[0] < 0x80 then 1 else if s[0] < 0xE0 then 2 else if s[0] < 0xF0 then 3 else 4;
      assert Utf8(s[width..]);
      SuffixUtf8(s[width..], i - width);
      assert s[width..][i - width + 1..] == s[i + 1..];
    }
  }

  lemma ExtensionIsText(name: Str)
    ensures Utf8(ExtensionOrEmpty(name)) && |ExtensionOrEmpty(name)| <= |name|
  {
    match LastIndexOf(name, DOT)
    case Some(dot) => SuffixUtf8(name, dot);
    case None =>
  }

  lemma SkipAttribute(kind: nat, value: U32, rest: Bytes, count: nat, bitrate: Option<U32>)
    requires kind < U32_RANGE
    ensures ParseAttributes(PutU32(kind) + PutU32(value) + rest, count + 1, bitrate)
         == ParseAttributes(rest, count, if kind == 0 then Some(value) else bitrate)
  {
    var buf := PutU32(kind) + PutU32(value) + rest;
    assert buf == PutU32(kind) + (PutU32(value) + rest);
    GetPutU32(kind, PutU32(value) + rest);
    GetPutU32(value, rest);
    assert buf[8..] == buf[4..][4..];
  }

  lemma PresentAttribute(kind: nat, value: Option<U32>, rest: Bytes, count: nat, bitrate: Option<U32>)
    requires kind < U32_RANGE
    ensures ParseAttributes(PutAttribute(kind, value) + rest, count + Present(value), bitrate)
         == ParseAttributes(rest, count, if kind == 0 && value.Some? then value else bitrate)
  {
    if value.Some? {
      SkipAttribute(kind, value.value, rest, count, bitrate);
    } else {
      assert PutAttribute(kind, value) + rest == rest;
    }
  }

  lemma NoMoreAttributes(rest: Bytes, bitrate: Option<U32>)
    ensures ParseAttributes(rest, 0, bitrate) == (bitrate, rest)
  {
  }

  /** The attributes give back the bitrate and are consumed whole. */
  lemma AttributesParse(f: DiskFile, rest: Bytes)
    ensures ParseAttributes(AttributeBytes(f) + rest, AttributeCount(f), None) == (f.bitrate, rest)
  {
    hide PutAttribute, ParseAttributes;
    var r3 := PutAttribute(5, f.bitDepth) + rest;
    var r2 := PutAttribute(4, f.sampleRate) + r3;
    var r1 := PutAttribute(1, f.duration) + r2;
    assert AttributeBytes(f) + rest == PutAttribute(0, f.bitrate) + r1;
    PresentAttribute(0, f.bitrate, r1, Present(f.duration) + Present(f.sampleRate) + Present(f.bitDepth), None);
    PresentAttribute(1, f.duration, r2, Present(f.sampleRate) + Present(f.bitDepth), f.bitrate);
    PresentAttribute(4, f.sampleRate, r3, Present(f.bitDepth), f.bitrate);
    PresentAttribute(5, f.bitDepth, rest, 0, f.bitrate);
    NoMoreAttributes(rest, f.bitrate);
  }

  lemma EntryParses(file: SharedFile, rest: Bytes)
    requires ShortNames(file)
    ensures ParseEntry(EncodeResult(file) + rest) == Parsed(EntryOf(file), rest)
  {
    hide PutU32, PutU64, GetU32, GetU64, EncodeString, DecodeString, ParseAttributes, AttributeBytes, AttributeCount;
    hide ExtensionOrEmpty, Utf8;
    var ext := ExtensionOrEmpty(file.disk.name);
    ExtensionIsText(file.disk.name);
    var r4 := AttributeBytes(file.disk) + rest;
    var r3 := PutU32(AttributeCount(file.disk)) + r4;
    var r2 := EncodeString(ext) + r3;
    var r1 := PutU64(file.disk.size) + r2;
    var buf := EncodeResult(file) + rest;
    assert buf == [1] + (EncodeString(file.virtualPath) + r1);
    assert buf[1..] == EncodeString(file.virtualPath) + r1;
    DecodeEncodeString(file.virtualPath, r1);
    GetPutU64(file.disk.size, r2);
    DecodeEncodeString(ext, r3);
    GetPutU32(AttributeCount(file.disk), r4);
    AttributesParse(file.disk, rest);
  }

  lemma {:induction false} EntriesParse(files: seq<SharedFile>, n: nat, rest: Bytes)
    requires n <= |files| && forall i | 0 <= i < |files| :: ShortNames(files[i])
    ensures ParseEntries(EncodeResults(files) + rest, n)
         == Ok((Map(files[..n], EntryOf), EncodeResults(files[n..]) + rest))
  {
    hide EncodeResult, ParseEntry, EntryOf, ShortNames;
    if n > 0 {
      var tail := EncodeResults(files[1..]) + rest;
      assert EncodeResults(files) + rest == EncodeResult(files[0]) + tail;
      EntryParses(files[0], tail);
      EntriesParse(files[1..], n - 1, rest);
      assert files[1..][n - 1..] == files[n..] && files[..n][1..] == files[1..][..n - 1];
    }
  }

  /** Parsing a printed reply gives the printed files, cut at the parser's cap. */
  lemma ReplyParses(username: Str, token: U32, files: seq<SharedFile>, freeSlots: bool, avgSpeed: U32, queueLength: U32)
    returns (n: nat)
    requires Short(username) && forall i | 0 <= i < |files| :: ShortNames(files[i])
    ensures n == Capped(|files| % U32_RANGE)
    ensures n <= |files|
    ensures var r := ParseReply(EncodeReply(username, token, files, freeSlots, avgSpeed, queueLength));
            && r.Ok? && r.value.username == username && r.value.token == token
            && r.value.files == Map(files[..n], EntryOf)
            && (n == |files| ==> r.value.slotFree == freeSlots && r.value.avgSpeed == avgSpeed
                                 && r.value.queueLength == queueLength)
  {
    hide PutU32, GetU32, EncodeString, DecodeString, EncodeResults, ParseEntries, EncodeStats, Utf8;
    n := Capped(|files| % U32_RANGE);
    var stats := EncodeStats(freeSlots, avgSpeed, queueLength);
    var r3 := EncodeResults(files) + stats;
    var r2 := PutU32(|files|) + r3;
    var r1 := PutU32(token) + r2;
    var data := EncodeReply(username, token, files, freeSlots, avgSpeed, queueLength);
    assert data == EncodeString(username) + r1;
    DecodeEncodeString(username, r1);
    GetPutU32(token, r2);
    GetPutU32(|files|, r3);
    assert r1[8..] == r1[4..][4..] == r3;
    EntriesParse(files, n, stats);
    if n == |files| {
      StatsParse(freeSlots, avgSpeed, queueLength);
      assert EncodeResults(files[n..]) + stats == stats by { NothingLeftToPrint(files[n..]); }
    }
  }

  lemma NothingLeftToPrint(files: seq<SharedFile>)
    requires files == []
    ensures EncodeResults(files) == []
  {
  }

  lemma StatsParse(freeSlots: bool, avgSpeed: U32, queueLength: U32)
    ensures var stats := EncodeStats(freeSlots, avgSpeed, queueLength);
            && |stats| == 9 && (stats[0] != 0 <==> freeSlots)
            && GetU32(stats[1..]) == avgSpeed && GetU32(stats[1..][4..]) == queueLength
  {
    var stats := EncodeStats(freeSlots, avgSpeed, queueLength);
    assert stats[1..] == PutU32(avgSpeed) + PutU32(queueLength);
    GetPutU32(avgSpeed, PutU32(queueLength));
    assert PutU32(queueLength) + [] == PutU32(queueLength);
    GetPutU32(queueLength, []);
  }

  lemma CountKept(count: nat)
    ensures Capped(count % U32_RANGE) == count <==> count <= 100
  {
  }

  /** A reply survives the wire, file by file and number by number, exactly when it lists at
      most 100 files. */
  lemma ReplyRoundTrip(username: Str, token: U32, files: seq<SharedFile>, freeSlots: bool, avgSpeed: U32,
                       queueLength: U32)
    requires Short(username) && forall i | 0 <= i < |files| :: ShortNames(files[i])
    ensures ParseReply(EncodeReply(username, token, files, freeSlots, avgSpeed, queueLength))
            == Ok(Reply(username, token, Map(files, EntryOf), freeSlots, avgSpeed, queueLength))
      <==> |files| <= 100
  {
    hide *;
    var n := ReplyParses(username, token, files, freeSlots, avgSpeed, queueLength);
    CountKept(|files|);
    if n == |files| {
      assert files[..n] == files;
    } else {
      assert |Map(files[..n], EntryOf)| != |Map(files, EntryOf)|;
    }
  }

  // ---------------------------------------------------------------- from query to results

  function AttributesFor(bitrate: Option<U32>): seq<FileAttribute> {
    match bitrate case Some(b) => [FileAttribute(0, b)] case None => []
  }

  function SearchFileOf(entry: Entry): SearchFile {
    SearchFile(entry.filename, entry.size, AttributesFor(entry.bitrate))
  }

  /** What the code-9 arm of the dispatcher makes of a parsed reply. */
  function SearchResultOf(reply: Reply, peerUsername: Str, peerIp: Str): SearchResult {
    SearchResult(peerUsername, Map(reply.files, SearchFileOf), reply.slotFree, reply.avgSpeed, reply.queueLength,
                 peerIp, 0)
  }

  /** What the code-8 arm answers: nothing when no file matches, else at most 50 files. */
  function AnswerSearch(index: Index, ourUsername: Str, token: U32, query: Bytes): Option<Bytes> {
    var matches := SearchIndex(index, query, MAX_ANSWERS);
    if matches == [] then None else Some(EncodeReply(ourUsername, token, matches, true, 0, 0))
  }

  /** Every printed reply of at most 100 files arrives: the result has the name and address of the
      connection it came over, exactly the slots, speed and queue length that were printed, and exactly the
      files, with their sizes and bitrates. */
  lemma ReplyArrives(username: Str, token: U32, files: seq<SharedFile>, freeSlots: bool, avgSpeed: U32,
                     queueLength: U32, peerUsername: Str, peerIp: Str)
    requires Short(username) && |files| <= 100 && forall i | 0 <= i < |files| :: ShortNames(files[i])
    ensures var parsed := ParseReply(EncodeReply(username, token, files, freeSlots, avgSpeed, queueLength));
            && parsed.Ok? && parsed.value.token == token
            && var result := SearchResultOf(parsed.value, peerUsername, peerIp);
               && result.username == peerUsername && result.peerIp == peerIp && result.peerPort == 0
               && result.hasSlots == freeSlots && result.avgSpeed == avgSpeed && result.queueLength == queueLength
               && |result.files| == |files|
               && forall k | 0 <= k < |files| ::
                    && result.files[k].filename == files[k].virtualPath
                    && result.files[k].size == files[k].disk.size
                    && Bitrate(result.files[k].attributes) == files[k].disk.bitrate
  {
    hide ParseReply, EncodeReply, ShortNames, Utf8, Bitrate;
    ReplyRoundTrip(username, token, files, freeSlots, avgSpeed, queueLength);
    forall k | 0 <= k < |files| ensures Bitrate(AttributesFor(files[k].disk.bitrate)) == files[k].disk.bitrate {
      BitrateSurvives(files[k].disk.bitrate);
    }
  }

  /** For every reachable index and query: whatever the dispatcher answers is parsed, on the
      other side, into a result with exactly the matched files, at most 50 of them, their sizes and
      bitrates, under the token of the request; its peer always has free slots, and no speed and no
      queue are announced. */
  lemma AnswersArrive(index: Index, ourUsername: Str, token: U32, query: Bytes, peerIp: Str)
    requires Reachable(index) && Short(ourUsername)
    requires forall i | 0 <= i < |index.files| :: ShortNames(index.files[i])
    requires AnswerSearch(index, ourUsername, token, query).Some?
    ensures var matches := SearchIndex(index, query, 50);
            var parsed := ParseReply(AnswerSearch(index, ourUsername, token, query).value);
            && parsed.Ok? && parsed.value.token == token
            && var result := SearchResultOf(parsed.value, ourUsername, peerIp);
               && result.username == ourUsername && result.peerIp == peerIp
               && result.hasSlots && result.avgSpeed == 0 && result.queueLength == 0
               && |result.files| == |matches| <= 50
               && forall k | 0 <= k < |matches| ::
                    && result.files[k].filename == matches[k].virtualPath
                    && result.files[k].size == matches[k].disk.size
                    && Bitrate(result.files[k].attributes) == matches[k].disk.bitrate
  {
    hide SearchIndex, ParseReply, EncodeReply, ShortNames, Utf8, Bitrate, SearchResultOf;
    AnswersAreShort(index, query);
    ReplyArrives(ourUsername, token, SearchIndex(index, query, 50), true, 0, 0, ourUsername, peerIp);
  }

  /** There is an answer exactly when some file matches. */
  lemma AnswersWhenMatched(index: Index, ourUsername: Str, token: U32, query: Bytes)
    requires Reachable(index)
    ensures AnswerSearch(index, ourUsername, token, query).Some? <==> MatchIndices(index, query) != []
  {
    SearchIsBruteForce(index, query, 50);
  }

  lemma BitrateSurvives(bitrate: Option<U32>)
    ensures Bitrate(AttributesFor(bitrate)) == bitrate
  {
  }

  lemma AnswersAreShort(index: Index, query: Bytes)
    requires Reachable(index) && forall i | 0 <= i < |index.files| :: ShortNames(index.files[i])
    ensures var matches := SearchIndex(index, query, MAX_ANSWERS);
            forall k | 0 <= k < |matches| :: ShortNames(matches[k])
  {
    SearchIsBruteForce(index, query, MAX_ANSWERS);
    var full := MatchIndices(index, query);
    var matches := SearchIndex(index, query, MAX_ANSWERS);
    forall k | 0 <= k < |matches| ensures ShortNames(matches[k]) {
      assert matches[k] == index.files[full[k]];
    }
  }

  /** A reply gives each file's extension behind its size. */
  lemma ResultNamesExtension(file: SharedFile, stem: Bytes, ext: Bytes) returns (tail: Bytes)
    requires file.disk.name == stem + [DOT] + ext && stem != [] && DOT !in ext
    ensures EncodeResult(file)
         == [1] + EncodeString(file.virtualPath) + PutU64(file.disk.size) + EncodeString(ext) + tail
  {
    hide EncodeString, PutU64, PutU32, Extension;
    ExtensionExactly(stem, ext);
    tail := PutU32(AttributeCount(file.disk)) + AttributeBytes(file.disk);
    assert ExtensionOrEmpty(file.disk.name) == ext;
  }

  // ---------------------------------------------------------------- the shared file list

  /** What an entry of the list says: the file's name without the share path, its size, and the bitrate of a
      file that is not lossless. */
  function ListedEntry(file: SharedFile): Entry {
    Entry(file.disk.name, file.disk.size, if file.disk.bitDepth.Some? then None else file.disk.bitrate)
  }

  lemma ListedAttributesParse(f: DiskFile, rest: Bytes)
    ensures ParseAttributes(ListedAttributes(f) + rest, ListedCount(f), None)
         == (if f.bitDepth.Some? then None else f.bitrate, rest)
  {
    hide PutAttribute, ParseAttributes;
    NoMoreAttributes(rest, None);
    NoMoreAttributes(rest, f.bitrate);
    if f.bitDepth.Some? {
      var r2 := PutAttribute(5, f.bitDepth) + rest;
      var r1 := PutAttribute(4, f.sampleRate) + r2;
      assert ListedAttributes(f) + rest == PutAttribute(1, f.duration) + r1;
      PresentAttribute(1, f.duration, r1, Present(f.sampleRate) + Present(f.bitDepth), None);
      PresentAttribute(4, f.sampleRate, r2, Present(f.bitDepth), None);
      PresentAttribute(5, f.bitDepth, rest, 0, None);
    } else {
      var mark := if f.bitrate.Some? then Some(0) else None;
      var r2 := PutAttribute(2, mark) + rest;
      var r1 := PutAttribute(1, f.duration) + r2;
      MarkIsAttribute(f);
      assert ListedAttributes(f) + rest == PutAttribute(0, f.bitrate) + r1;
      PresentAttribute(0, f.bitrate, r1, Present(f.duration) + Present(mark), None);
      PresentAttribute(1, f.duration, r2, Present(mark), f.bitrate);
      PresentAttribute(2, mark, rest, 0, f.bitrate);
    }
  }

  /** An entry of the shared file list reads like an entry of a search reply, and is consumed whole. */
  lemma ListedParses(file: SharedFile, rest: Bytes)
    requires Short(file.disk.name)
    ensures ParseEntry(EncodeListed(file) + rest)
         == Parsed(ListedEntry(file), rest)
  {
    hide PutU32, PutU64, GetU32, GetU64, EncodeString, DecodeString, ParseAttributes, ListedAttributes, ListedCount;
    hide Utf8;
    var f := file.disk;
    var r4 := ListedAttributes(f) + rest;
    var r3 := PutU32(ListedCount(f)) + r4;
    var r2 := EncodeString([]) + r3;
    var r1 := PutU64(f.size) + r2;
    NoExtension();
    var buf := EncodeListed(file) + rest;
    assert buf == [1] + (EncodeString(f.name) + r1);
    assert buf[1..] == EncodeString(f.name) + r1;
    DecodeEncodeString(f.name, r1);
    GetPutU64(f.size, r2);
    DecodeEncodeString([], r3);
    GetPutU32(ListedCount(f), r4);
    ListedAttributesParse(f, rest);
  }

  lemma NoExtension()
    ensures EncodeString([]) == PutU32(0) && Utf8([])
  {
  }

  lemma {:induction false} ListedEntriesParse(files: seq<SharedFile>, rest: Bytes)
    requires forall i | 0 <= i < |files| :: Short(files[i].disk.name)
    ensures ParseEntries(EncodeListedAll(files) + rest, |files|) == Ok((Map(files, ListedEntry), rest))
  {
    hide EncodeListed, ParseEntry, ListedEntry;
    if files == [] {
      assert EncodeListedAll(files) + rest == rest;
    } else {
      AllFromFront(files);
      var tail := EncodeListedAll(files[1..]) + rest;
      assert EncodeListedAll(files) + rest == EncodeListed(files[0]) + tail;
      ListedParses(files[0], tail);
      ListedEntriesParse(files[1..], rest);
    }
  }

  lemma {:induction false} AllFromFront(files: seq<SharedFile>)
    requires files != []
    ensures EncodeListedAll(files) == EncodeListed(files[0]) + EncodeListedAll(files[1..])
  {
    hide EncodeListed;
    if |files| > 1 {
      var init := files[..|files| - 1];
      AllFromFront(init);
      assert files[1..][..|files| - 2] == init[1..];
    } else {
      assert files[1..] == [] && files[..0] == [];
    }
  }

  /** The list of a share that holds files: one folder, "@@rinse", the number of files, the files by their
      names, and nothing after them but an empty list of private folders. */
  lemma FileListReads(files: seq<SharedFile>)
    requires 0 < |files| < 0x1_0000_0000 && forall i | 0 <= i < |files| :: Short(files[i].disk.name)
    ensures var list := EncodeFileList(files);
            && |list| >= 15 && GetU32(list) == 1
            && list[4..] == EncodeString(Ascii("@@rinse")) + list[15..]
            && GetU32(list[15..]) == |files|
            && ParseEntries(list[19..], |files|) == Ok((Map(files, ListedEntry), PutU32(0)))
  {
    hide GetU32, PutU32, EncodeListedAll, ParseEntries, EncodeString;
    var list := EncodeFileList(files);
    var entries := EncodeListedAll(files) + PutU32(0);
    var root := EncodeString(Ascii("@@rinse"));
    assert |Ascii("@@rinse")| == 7;
    assert list == PutU32(1) + (root + (PutU32(|files|) + entries));
    GetPutU32(1, root + (PutU32(|files|) + entries));
    assert list[15..] == PutU32(|files|) + entries;
    GetPutU32(|files|, entries);
    assert list[19..] == list[15..][4..] == entries;
    ListedEntriesParse(files, PutU32(0));
  }
}
