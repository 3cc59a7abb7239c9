/** Search results as the protocol layer hands them to the services. */
module Messages {
  import opened Wrappers
  import opened Bytes

  datatype FileAttribute = FileAttribute(attributeType: U32, value: U32)

  datatype SearchFile = SearchFile(filename: Str, size: U64, attributes: seq<FileAttribute>)

  datatype SearchResult = SearchResult(
    username: Str,
    files: seq<SearchFile>,
    hasSlots: bool,
    avgSpeed: U32,
    queueLength: U64,
    peerIp: Str,
    peerPort: U32)

  /** A candidate download: the file, its peer and its score. */
  datatype ScoredFile = ScoredFile(
    username: Str,
    filename: Str,
    size: U64,
    bitrate: Option<U32>,
    score: real,
    slotFree: bool,
    avgSpeed: U32,
    queueLength: U64,
    peerIp: Str,
    peerPort: U32)

  /** `SearchFile::bitrate`: the value of the first attribute of type 0. */
  function Bitrate(attributes: seq<FileAttribute>): Option<U32> {
    if attributes == [] then None
    else if attributes[0].attributeType == 0 then Some(attributes[0].value)
    else Bitrate(attributes[1..])
  }

  /** The first attribute of type 0, if there is one, whatever stands around it. */
  lemma {:induction false} BitrateIsFirst(before: seq<FileAttribute>, value: U32, after: seq<FileAttribute>)
    requires forall attribute | attribute in before :: attribute.attributeType != 0
    ensures Bitrate(before) == None && Bitrate(before + [FileAttribute(0, value)] + after) == Some(value)
  {
    var all := before + [FileAttribute(0, value)] + after;
    if before != [] {
      assert before[0] in before && all[1..] == before[1..] + [FileAttribute(0, value)] + after;
      BitrateIsFirst(before[1..], value, after);
    }
  }
}
