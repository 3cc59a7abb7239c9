/** Agreeing on a transfer: the downloader waits for the uploader's request and answers it; the
    uploader waits for the answer. Both skip, whole, the messages that do not concern them. */
module Negotiation {
  import opened Wrappers
  import opened Bytes
  import opened Text
  import opened Framing

  const TRANSFER_REQUEST: U32 := 40
  const TRANSFER_REPLY: U32 := 41
  const PLACE_IN_QUEUE: U32 := 44
  const UPLOAD_FAILED: U32 := 46
  const UPLOAD_DENIED: U32 := 50

  // ---------------------------------------------------------------- the downloader

  /** What one message means to the waiting downloader. */
  datatype Verdict = Ready(filesize: U64, token: U32) | Refused(reason: Bytes) | Ignored | Malformed | Crash

  function Judge(message: Message): Verdict {
    var data := message.data;
    if message.code == TRANSFER_REQUEST then
      if |data| < 8 then Crash
      else match DecodeString(data[8..])
        case None => Malformed
        case Some((_, rest)) =>
          if GetU32(data) != 1 then Ignored
          else if |rest| < 8 then Crash
          else Ready(GetU64(rest), GetU32(data[4..]))
    else if message.code == PLACE_IN_QUEUE then
      match DecodeString(data)
      case None => Malformed
      case Some((_, rest)) => if |rest| < 4 then Crash else Ignored
    else if message.code == UPLOAD_DENIED then
      match DecodeString(data)
      case None => Malformed
      case Some((_, rest)) =>
        (match DecodeString(rest)
         case None => Malformed
         case Some((reason, _)) => Refused(reason))
    else if message.code == UPLOAD_FAILED then
      match DecodeString(data)
      case None => Malformed
      case Some(_) => Refused(Ascii("Upload failed"))
    else Ignored
  }

  datatype Negotiation = Allowed(filesize: U64, token: U32) | Denied(reason: Bytes) | Failed | Aborted

  /** How the wait ends, what is left to read, and what was written. */
  datatype Wait = Wait(result: Negotiation, rest: Bytes, reply: Bytes)

  function AllowReply(token: U32): Bytes {
    Frame(TRANSFER_REPLY, PutU32(token) + [1])
  }

  /** How many bytes follow the code: the length less 4, on 32 bits. Below 4 that panics where overflow
      is checked, as in a debug build, and wraps around elsewhere. */
  function BodyLength(length: U32, checked: bool): Option<nat> {
    if length >= 4 then Some(length - 4) else if checked then None else Some(0x1_0000_0000 - 4 + length)
  }

  datatype Next = Whole(message: Message, rest: Bytes) | Cut | Overflow

  /** The next message as the waiting downloader reads it. */
  function ReadNext(s: Bytes, checked: bool): Next {
    if |s| < 8 then Cut
    else match BodyLength(GetU32(s), checked)
      case None => Overflow
      case Some(n) =>
        if |s| < 8 + n then Cut else Whole(Message(GetU32(s[4..]), s[8..8 + n]), s[8 + n..])
  }

  /** `wait_for_transfer_request`, with the deadline passing after `budget` messages. */
  function AwaitRequest(s: Bytes, budget: nat, checked: bool): Wait
    decreases budget
  {
    if budget == 0 then Wait(Failed, s, [])
    else match ReadNext(s, checked)
      case Cut => Wait(Failed, s, [])
      case Overflow => Wait(Aborted, s, [])
      case Whole(message, rest) =>
        match Judge(message)
        case Ready(filesize, token) => Wait(Allowed(filesize, token), rest, AllowReply(token))
        case Refused(reason) => Wait(Denied(reason), rest, [])
        case Ignored => AwaitRequest(rest, budget - 1, checked)
        case Malformed => Wait(Failed, rest, [])
        case Crash => Wait(Aborted, rest, [])
  }

  /** The loop over the stream; a failed or aborted wait says nothing about the stream. */
  method WaitForTransferRequest(stream: TcpStream, budget: nat, checked: bool) returns (result: Negotiation)
    modifies stream
    ensures result == AwaitRequest(old(stream.inbound), budget, checked).result
    ensures stream.outbound == old(stream.outbound) + AwaitRequest(old(stream.inbound), budget, checked).reply
    ensures result.Allowed? || result.Denied? ==>
              stream.inbound == AwaitRequest(old(stream.inbound), budget, checked).rest
  {
    hide Judge, ReadNext, Frame;
    for k := 0 to budget
      invariant stream.outbound == old(stream.outbound)
      invariant AwaitRequest(old(stream.inbound), budget, checked) == AwaitRequest(stream.inbound, budget - k, checked)
    {
      var next := ReceiveNext(stream, checked);
      match next {
        case Cut => return Failed;
        case Overflow => return Aborted;
        case Whole(message, _) =>
          match Judge(message) {
            case Ready(filesize, token) =>
              SendMessage(stream, TRANSFER_REPLY, PutU32(token) + [1]);
              return Allowed(filesize, token);
            case Refused(reason) => return Denied(reason);
            case Ignored =>
            case Malformed => return Failed;
            case Crash => return Aborted;
          }
      }
    }
    return Failed;
  }

  /** The three reads at the top of the loop. */
  method ReceiveNext(stream: TcpStream, checked: bool) returns (next: Next)
    modifies stream`inbound
    ensures next == ReadNext(old(stream.inbound), checked)
    ensures next.Whole? ==> stream.inbound == next.rest
  {
    hide GetU32;
    var whole := stream.inbound;
    var lengthBytes := stream.ReadExact(4);
    if lengthBytes.None? {
      return Cut;
    }
    SamePrefix(whole, lengthBytes.value);
    var codeBytes := stream.ReadExact(4);
    if codeBytes.None? {
      return Cut;
    }
    SamePrefix(whole[4..], codeBytes.value);
    var n := BodyLength(GetU32(lengthBytes.value), checked);
    if n.None? {
      return Overflow;
    }
    var data := stream.ReadExact(n.value);
    if data.None? {
      return Cut;
    }
    assert data.value == whole[8..8 + n.value];
    next := Whole(Message(GetU32(codeBytes.value), data.value), stream.inbound);
  }

  // ---------------------------------------------------------------- the uploader

  /** The body of the uploader's TransferRequest. */
  function Request(token: U32, filename: Bytes, filesize: U64): Bytes {
    PutU32(1) + PutU32(token) + EncodeString(filename) + PutU64(filesize)
  }

  datatype Answer = Proceed | Declined(reason: Bytes) | GaveUp

  /** What one message means to the waiting uploader. */
  datatype Reading = Final(answer: Answer) | Skip

  function ReadReply(token: U32, message: Message): Reading {
    var data := message.data;
    if message.code != TRANSFER_REPLY then Skip
    else if |data| < 5 then Final(GaveUp)
    else if GetU32(data) != token then Skip
    else if data[4] == 1 then Final(Proceed)
    else
      Final(Declined(
        if |data| - 5 < 4 then Ascii("Transfer denied")
        else match DecodeString(data[5..])
          case Some((reason, _)) => reason
          case None => Ascii("Unknown")))
  }

  /** The negotiation loop of `execute_upload`. */
  function AwaitReply(s: Bytes, token: U32, budget: nat): (Answer, Bytes)
    decreases budget
  {
    if budget == 0 then (GaveUp, s)
    else match ReadFrame(s)
      case None => (GaveUp, s)
      case Some((message, rest)) =>
        match ReadReply(token, message)
        case Final(answer) => (answer, rest)
        case Skip => AwaitReply(rest, token, budget - 1)
  }

  method WaitForTransferReply(stream: TcpStream, token: U32, budget: nat) returns (answer: Answer)
    modifies stream`inbound
    ensures answer == AwaitReply(old(stream.inbound), token, budget).0
    ensures !answer.GaveUp? ==> stream.inbound == AwaitReply(old(stream.inbound), token, budget).1
  {
    hide ReadReply, ReadFrame;
    for k := 0 to budget
      invariant AwaitReply(old(stream.inbound), token, budget) == AwaitReply(stream.inbound, token, budget - k)
    {
      var read := ReadMessage(stream);
      if read.None? {
        return GaveUp;
      }
      var reading := ReadReply(token, read.value);
      if reading.Final? {
        return reading.answer;
      }
    }
    return GaveUp;
  }

  // ---------------------------------------------------------------- the messages, byte by byte

  /** A request to upload: direction 1, the token, an encoded file name, and the size. */
  ghost predicate RequestFor(message: Message, filesize: U64, token: U32) {
    && message.code == 40
    && exists filename: Str, rest: Bytes ::
         && Short(filename)
         && message.data == PutU32(1) + PutU32(token) + EncodeString(filename) + (PutU64(filesize) + rest)
  }

  /** A denial: a file name and the reason. */
  ghost predicate DenialFor(message: Message, reason: Bytes) {
    && message.code == 50
    && exists filename: Str, why: Str, rest: Bytes ::
         && Short(filename) && Short(why) && why == reason
         && message.data == EncodeString(filename) + (EncodeString(why) + rest)
  }

  /** The news that an upload has failed: a file name. */
  ghost predicate FailureNews(message: Message) {
    && message.code == 46
    && exists filename: Str, rest: Bytes :: Short(filename) && message.data == EncodeString(filename) + rest
  }

  /** A message of no interest: of another kind, a request in the other direction, or a place in the
      queue. */
  ghost predicate OfNoInterest(message: Message) {
    || (message.code != 40 && message.code != 44 && message.code != 46 && message.code != 50)
    || (message.code == 40
        && exists direction: U32, token: U32, filename: Str, rest: Bytes ::
             && Short(filename) && direction != 1
             && message.data == PutU32(direction) + PutU32(token) + EncodeString(filename) + rest)
    || (message.code == 44
        && exists filename: Str, place: U32, rest: Bytes ::
             Short(filename) && message.data == EncodeString(filename) + (PutU32(place) + rest))
  }

  /** A message that ends inside a number. */
  ghost predicate CutInside(message: Message) {
    || (message.code == 40 && |message.data| < 8)
    || (message.code == 40
        && exists token: U32, filename: Str, rest: Bytes ::
             && Short(filename) && |rest| < 8
             && message.data == PutU32(1) + PutU32(token) + EncodeString(filename) + rest)
    || (message.code == 44
        && exists filename: Str, rest: Bytes ::
             Short(filename) && |rest| < 4 && message.data == EncodeString(filename) + rest)
  }

  lemma NumbersInFront(data: Bytes, direction: U32, token: U32)
    requires |data| >= 8
    ensures GetU32(data) == direction && GetU32(data[4..]) == token
            <==> data == PutU32(direction) + PutU32(token) + data[8..]
  {
    hide GetU32, PutU32;
    PutGetU32(data, direction);
    PutGetU32(data[4..], token);
    assert data[4..][4..] == data[8..];
    if data == PutU32(direction) + PutU32(token) + data[8..] {
      assert data[4..] == PutU32(token) + data[8..];
      assert data == PutU32(direction) + data[4..];
    }
  }

  lemma FrontSplits(data: Bytes, direction: U32, token: U32, filename: Str, rest: Bytes)
    requires data == PutU32(direction) + PutU32(token) + EncodeString(filename) + rest && Short(filename)
    ensures |data| >= 8 && GetU32(data) == direction && GetU32(data[4..]) == token
    ensures DecodeString(data[8..]) == Some((filename, rest))
  {
    hide GetU32, PutU32, EncodeString, DecodeString;
    assert data[8..] == EncodeString(filename) + rest;
    NumbersInFront(data, direction, token);
    DecodeStringExactly(data[8..], filename, rest);
  }

  lemma FrontJoins(data: Bytes)
    requires |data| >= 8 && DecodeString(data[8..]).Some?
    ensures var (filename, rest) := DecodeString(data[8..]).value;
            Short(filename) && data == PutU32(GetU32(data)) + PutU32(GetU32(data[4..])) + EncodeString(filename) + rest
  {
    hide GetU32, PutU32, EncodeString, DecodeString;
    var (filename, rest) := DecodeString(data[8..]).value;
    NumbersInFront(data, GetU32(data), GetU32(data[4..]));
    DecodeStringExactly(data[8..], filename, rest);
  }

  lemma ReadyExactly(message: Message, filesize: U64, token: U32)
    ensures Judge(message) == Ready(filesize, token) <==> RequestFor(message, filesize, token)
  {
    hide GetU32, GetU64, PutU32, PutU64, EncodeString, DecodeString, Utf8;
    var data := message.data;
    if Judge(message) == Ready(filesize, token) {
      FrontJoins(data);
      var (filename, rest) := DecodeString(data[8..]).value;
      PutGetU64(rest, filesize);
      assert data == PutU32(1) + PutU32(token) + EncodeString(filename) + (PutU64(filesize) + rest[8..]);
    }
    if RequestFor(message, filesize, token) {
      var filename: Str, rest: Bytes :| Short(filename)
        && data == PutU32(1) + PutU32(token) + EncodeString(filename) + (PutU64(filesize) + rest);
      FrontSplits(data, 1, token, filename, PutU64(filesize) + rest);
      GetPutU64(filesize, rest);
    }
  }

  lemma RefusedExactly(message: Message, reason: Bytes)
    ensures Judge(message) == Refused(reason)
            <==> DenialFor(message, reason) || (FailureNews(message) && reason == Ascii("Upload failed"))
  {
    hide GetU32, GetU64, EncodeString, DecodeString, Utf8;
    var data := message.data;
    if Judge(message) == Refused(reason) {
      var (filename, rest) := DecodeString(data).value;
      DecodeStringExactly(data, filename, rest);
      if message.code == 50 {
        var (why, rest') := DecodeString(rest).value;
        DecodeStringExactly(rest, why, rest');
        assert data == EncodeString(filename) + (EncodeString(why) + rest');
      }
    }
    if DenialFor(message, reason) {
      var filename: Str, why: Str, rest: Bytes :| Short(filename) && Short(why) && why == reason
        && data == EncodeString(filename) + (EncodeString(why) + rest);
      DecodeStringExactly(data, filename, EncodeString(why) + rest);
      DecodeStringExactly(EncodeString(why) + rest, why, rest);
    } else if FailureNews(message) {
      var filename: Str, rest: Bytes :| Short(filename) && data == EncodeString(filename) + rest;
      DecodeStringExactly(data, filename, rest);
    }
  }

  lemma IgnoredExactly(message: Message)
    ensures Judge(message) == Ignored <==> OfNoInterest(message)
  {
    hide GetU32, GetU64, PutU32, EncodeString, DecodeString, Utf8;
    var data := message.data;
    if Judge(message) == Ignored && message.code == 40 {
      FrontJoins(data);
    } else if Judge(message) == Ignored && message.code == 44 {
      var (filename, rest) := DecodeString(data).value;
      DecodeStringExactly(data, filename, rest);
      PutGetU32(rest, GetU32(rest));
      assert data == EncodeString(filename) + (PutU32(GetU32(rest)) + rest[4..]);
    }
    if OfNoInterest(message) && message.code == 40 {
      var direction: U32, token: U32, filename: Str, rest: Bytes :| Short(filename) && direction != 1
        && data == PutU32(direction) + PutU32(token) + EncodeString(filename) + rest;
      FrontSplits(data, direction, token, filename, rest);
    } else if OfNoInterest(message) && message.code == 44 {
      var filename: Str, place: U32, rest: Bytes :| Short(filename)
        && data == EncodeString(filename) + (PutU32(place) + rest);
      DecodeStringExactly(data, filename, PutU32(place) + rest);
    }
  }

  lemma CrashExactly(message: Message)
    ensures Judge(message) == Crash <==> CutInside(message)
  {
    hide GetU32, GetU64, PutU32, EncodeString, DecodeString, Utf8;
    var data := message.data;
    if Judge(message) == Crash && message.code == 40 && |data| >= 8 {
      FrontJoins(data);
    } else if Judge(message) == Crash && message.code == 44 {
      var (filename, rest) := DecodeString(data).value;
      DecodeStringExactly(data, filename, rest);
    }
    if CutInside(message) && message.code == 40 && |data| >= 8 {
      var token: U32, filename: Str, rest: Bytes :| Short(filename) && |rest| < 8
        && data == PutU32(1) + PutU32(token) + EncodeString(filename) + rest;
      FrontSplits(data, 1, token, filename, rest);
    } else if CutInside(message) && message.code == 44 {
      var filename: Str, rest: Bytes :| Short(filename) && |rest| < 4 && data == EncodeString(filename) + rest;
      DecodeStringExactly(data, filename, rest);
    }
  }

  /** A message that does not answer the uploader: of another kind, or with another token. */
  ghost predicate NotTheReply(message: Message, token: U32) {
    || message.code != 41
    || exists other: U32, flag: Byte, rest: Bytes :: other != token && message.data == PutU32(other) + [flag] + rest
  }

  /** The reason given behind a refusing reply, if it can be read. */
  function ReasonBehind(rest: Bytes): Bytes {
    if |rest| < 4 then Ascii("Transfer denied")
    else match DecodeString(rest)
      case Some((reason, _)) => reason
      case None => Ascii("Unknown")
  }

  /** What a reply with the uploader's token says: 1 allows, anything else refuses. */
  ghost predicate Answers(message: Message, token: U32, answer: Answer) {
    && message.code == 41
    && match answer
       case Proceed => (exists rest: Bytes :: message.data == PutU32(token) + [1] + rest)
       case Declined(reason) =>
         (exists flag: Byte, rest: Bytes ::
            flag != 1 && message.data == PutU32(token) + [flag] + rest && reason == ReasonBehind(rest))
       case GaveUp => |message.data| < 5
  }

  lemma ReplySplits(data: Bytes, token: U32, flag: Byte, rest: Bytes)
    ensures data == PutU32(token) + [flag] + rest
            <==> |data| >= 5 && GetU32(data) == token && data[4] == flag && data[5..] == rest
  {
    hide GetU32, PutU32;
    if data == PutU32(token) + [flag] + rest {
      assert data == PutU32(token) + ([flag] + rest);
      GetPutU32(token, [flag] + rest);
    }
    if |data| >= 5 && GetU32(data) == token && data[4] == flag && data[5..] == rest {
      PutGetU32(data, token);
      assert data[4..] == [flag] + rest;
    }
  }

  lemma SkippedExactly(message: Message, token: U32)
    ensures ReadReply(token, message) == Skip <==> NotTheReply(message, token)
  {
    hide GetU32, PutU32, DecodeString;
    var data := message.data;
    if message.code == 41 && |data| >= 5 {
      ReplySplits(data, GetU32(data), data[4], data[5..]);
    }
    forall other: U32, flag: Byte, rest: Bytes | data == PutU32(other) + [flag] + rest
      ensures |data| >= 5 && GetU32(data) == other
    {
      ReplySplits(data, other, flag, rest);
    }
  }

  lemma AnsweredExactly(message: Message, token: U32, answer: Answer)
    ensures ReadReply(token, message) == Final(answer) <==> Answers(message, token, answer)
  {
    hide GetU32, PutU32, DecodeString;
    var data := message.data;
    forall flag: Byte, rest: Bytes | data == PutU32(token) + [flag] + rest
      ensures |data| >= 5 && GetU32(data) == token && data[4] == flag && data[5..] == rest
    {
      ReplySplits(data, token, flag, rest);
    }
    if ReadReply(token, message) == Final(answer) && !answer.GaveUp? {
      ReplySplits(data, token, data[4], data[5..]);
      assert data == PutU32(token) + [data[4]] + data[5..];
      if answer == Proceed {
        assert data == PutU32(token) + [1] + data[5..];
      } else {
        assert data[4] != 1 && answer.reason == ReasonBehind(data[5..]);
      }
    }
  }

  // ---------------------------------------------------------------- skipping

  /** Data whose length the downloader reads back from the 32 bits of its frame. */
  predicate Carried(data: Bytes, checked: bool) {
    |data| < if checked then 0x1_0000_0000 - 4 else 0x1_0000_0000
  }

  ghost predicate NoiseForDownloader(messages: seq<Message>, checked: bool) {
    forall i | 0 <= i < |messages| :: Carried(messages[i].data, checked) && OfNoInterest(messages[i])
  }

  ghost predicate NoiseForUploader(messages: seq<Message>, token: U32) {
    forall i | 0 <= i < |messages| :: Framed(messages[i].data) && NotTheReply(messages[i], token)
  }

  lemma NextReads(code: U32, data: Bytes, rest: Bytes, checked: bool)
    requires Carried(data, checked)
    ensures ReadNext(Frame(code, data) + rest, checked) == Whole(Message(code, data), rest)
  {
    hide GetU32, PutU32;
    var s := Frame(code, data) + rest;
    assert s == PutU32(4 + |data|) + (PutU32(code) + (data + rest));
    GetPutU32(4 + |data|, PutU32(code) + (data + rest));
    GetPutU32(code, data + rest);
    assert s[4..] == PutU32(code) + (data + rest);
    assert s[8..8 + |data|] == data && s[8 + |data|..] == rest;
  }

  lemma WrappedLength(length: U32)
    ensures PutU32(length + 0x1_0000_0000) == PutU32(length)
  {
    hide LeBytes, LeValue;
    GetPutU32(length + 0x1_0000_0000, []);
    var bytes := PutU32(length + 0x1_0000_0000);
    assert bytes + [] == bytes && bytes[..4] == bytes;
    LeBytesOfLeValue(bytes);
  }

  lemma NextIsFrame(s: Bytes, checked: bool)
    requires ReadNext(s, checked).Whole?
    ensures var next := ReadNext(s, checked);
            Carried(next.message.data, checked) && s == Frame(next.message.code, next.message.data) + next.rest
  {
    var (length, n) := (GetU32(s), BodyLength(GetU32(s), checked).value);
    LeBytesOfLeValue(s[..4]);
    LeBytesOfLeValue(s[4..][..4]);
    if length < 4 {
      WrappedLength(length);
    }
    assert PutU32(4 + n) == s[..4];
    assert s == s[..4] + s[4..][..4] + s[8..8 + n] + s[8 + n..];
  }

  /** Each ignored message costs one turn and is consumed whole. */
  lemma {:induction false} DownloaderSkips(noise: seq<Message>, s: Bytes, budget: nat, checked: bool)
    requires NoiseForDownloader(noise, checked)
    ensures AwaitRequest(FrameAll(noise) + s, |noise| + budget, checked) == AwaitRequest(s, budget, checked)
  {
    hide Judge, ReadNext, Frame, OfNoInterest;
    if noise == [] {
      assert FrameAll(noise) + s == s;
    } else {
      var m, tail := noise[0], FrameAll(noise[1..]) + s;
      assert FrameAll(noise) + s == Frame(m.code, m.data) + tail;
      NextReads(m.code, m.data, tail, checked);
      IgnoredExactly(m);
      DownloaderSkips(noise[1..], s, budget, checked);
    }
  }

  lemma {:induction false} UploaderSkips(noise: seq<Message>, token: U32, s: Bytes, budget: nat)
    requires NoiseForUploader(noise, token)
    ensures AwaitReply(FrameAll(noise) + s, token, |noise| + budget) == AwaitReply(s, token, budget)
  {
    hide ReadReply, ReadFrame, Frame;
    if noise == [] {
      assert FrameAll(noise) + s == s;
    } else {
      var m, tail := noise[0], FrameAll(noise[1..]) + s;
      assert FrameAll(noise) + s == Frame(m.code, m.data) + tail;
      FrameReads(m.code, m.data, tail);
      SkippedExactly(m, token);
      UploaderSkips(noise[1..], token, s, budget);
    }
  }

  // ---------------------------------------------------------------- agreement

  lemma RequestIsReady(token: U32, filename: Str, filesize: U64)
    requires Short(filename)
    ensures Judge(Message(TRANSFER_REQUEST, Request(token, filename, filesize))) == Ready(filesize, token)
  {
    hide GetU32, GetU64, DecodeString, EncodeString, Utf8;
    var r2 := EncodeString(filename) + PutU64(filesize);
    var data := Request(token, filename, filesize);
    assert data == PutU32(1) + (PutU32(token) + r2);
    GetPutU32(1, PutU32(token) + r2);
    GetPutU32(token, r2);
    assert data[8..] == data[4..][4..] == r2;
    DecodeEncodeString(filename, PutU64(filesize));
    GetPutU64(filesize, []);
    assert PutU64(filesize) + [] == PutU64(filesize);
  }

  lemma ReplyProceeds(token: U32)
    ensures ReadReply(token, Message(TRANSFER_REPLY, PutU32(token) + [1])) == Final(Proceed)
  {
    GetPutU32(token, [1]);
  }

  /** Whatever ignorable messages come first on either side: the downloader is allowed the
      token and size the uploader sent, and its reply makes the uploader proceed; each side has
      then read exactly up to the message that decided. */
  lemma BothAgree(token: U32, filename: Str, filesize: U64, checked: bool,
                  before: seq<Message>, after: Bytes, noise: seq<Message>, later: Bytes, turns: nat)
    requires Short(filename) && Framed(Request(token, filename, filesize))
    requires NoiseForDownloader(before, checked) && NoiseForUploader(noise, token) && turns > 0
    ensures var request := Frame(TRANSFER_REQUEST, Request(token, filename, filesize));
            var wait := AwaitRequest(FrameAll(before) + (request + after), |before| + turns, checked);
            && wait.result == Allowed(filesize, token) && wait.rest == after
            && AwaitReply(FrameAll(noise) + (wait.reply + later), token, |noise| + turns) == (Proceed, later)
  {
    hide Judge, ReadReply, ReadFrame, ReadNext, Frame, Request, FrameAll;
    var data := Request(token, filename, filesize);
    DownloaderSkips(before, Frame(TRANSFER_REQUEST, data) + after, turns, checked);
    NextReads(TRANSFER_REQUEST, data, after, checked);
    RequestIsReady(token, filename, filesize);
    UploaderSkips(noise, token, AllowReply(token) + later, turns);
    FrameReads(TRANSFER_REPLY, PutU32(token) + [1], later);
    ReplyProceeds(token);
  }

  // ---------------------------------------------------------------- how a wait ends, exactly

  /** The stream begins with messages of no interest, fewer than the turns there are, then a frame of
      `message`, then `rest`. */
  ghost predicate Brings(s: Bytes, budget: nat, checked: bool, before: seq<Message>, message: Message, rest: Bytes) {
    && |before| < budget && NoiseForDownloader(before, checked) && Carried(message.data, checked)
    && s == FrameAll(before) + (Frame(message.code, message.data) + rest)
  }

  /** A length below 4 is next, behind messages of no interest, and overflow is checked. */
  ghost predicate Overflows(s: Bytes, budget: nat, checked: bool, before: seq<Message>, rest: Bytes) {
    && checked && |before| < budget && NoiseForDownloader(before, checked)
    && s == FrameAll(before) + rest && |rest| >= 8 && GetU32(rest) < 4
  }

  lemma BroughtDecides(s: Bytes, budget: nat, checked: bool, before: seq<Message>, message: Message, rest: Bytes)
    requires Brings(s, budget, checked, before, message, rest) && Judge(message) != Ignored
    ensures AwaitRequest(s, budget, checked) == match Judge(message)
            case Ready(filesize, token) => Wait(Allowed(filesize, token), rest, AllowReply(token))
            case Refused(reason) => Wait(Denied(reason), rest, [])
            case Malformed => Wait(Failed, rest, [])
            case _ => Wait(Aborted, rest, [])
  {
    hide Judge, ReadNext, Frame, FrameAll;
    DownloaderSkips(before, Frame(message.code, message.data) + rest, budget - |before|, checked);
    NextReads(message.code, message.data, rest, checked);
  }

  lemma OverflowDecides(s: Bytes, budget: nat, checked: bool, before: seq<Message>, rest: Bytes)
    requires Overflows(s, budget, checked, before, rest)
    ensures AwaitRequest(s, budget, checked).result == Aborted
  {
    hide FrameAll, Judge, GetU32;
    DownloaderSkips(before, rest, budget - |before|, checked);
  }

  lemma PrependFrame(message: Message, before: seq<Message>, tail: Bytes)
    ensures FrameAll([message] + before) + tail == Frame(message.code, message.data) + (FrameAll(before) + tail)
  {
    assert ([message] + before)[1..] == before;
  }

  /** What decided a wait that did not end for want of a message: a message, or, if there is none in the
      answer, a length. */
  lemma {:induction false} Decider(s: Bytes, budget: nat, checked: bool)
    returns (before: seq<Message>, message: Option<Message>, rest: Bytes)
    requires !AwaitRequest(s, budget, checked).result.Failed?
    ensures message.Some? ==> Brings(s, budget, checked, before, message.value, rest) && Judge(message.value) != Ignored
    ensures message.None? ==> Overflows(s, budget, checked, before, rest)
    decreases budget
  {
    hide Judge, Frame, OfNoInterest, GetU32;
    var next := ReadNext(s, checked);
    if next.Overflow? {
      before, message, rest := [], None, s;
      assert s == FrameAll(before) + rest;
      return;
    }
    NextIsFrame(s, checked);
    IgnoredExactly(next.message);
    if Judge(next.message) == Ignored {
      before, message, rest := Decider(next.rest, budget - 1, checked);
      PrependFrame(next.message, before,
                   if message.Some? then Frame(message.value.code, message.value.data) + rest else rest);
      before := [next.message] + before;
    } else {
      before, message, rest := [], Some(next.message), next.rest;
      assert s == FrameAll(before) + (Frame(next.message.code, next.message.data) + rest);
    }
  }

  /** The wait ends with Allowed exactly when, within its turns and behind messages of no interest, a
      request comes with that size and token; the reply names the token, and the rest is left unread. */
  lemma AllowedExactly(s: Bytes, budget: nat, checked: bool, filesize: U64, token: U32, rest: Bytes)
    ensures AwaitRequest(s, budget, checked) == Wait(Allowed(filesize, token), rest, AllowReply(token))
            <==> exists before, message ::
                   Brings(s, budget, checked, before, message, rest) && RequestFor(message, filesize, token)
  {
    hide Judge, ReadNext, Frame, Brings, Overflows, RequestFor, AllowReply;
    if AwaitRequest(s, budget, checked) == Wait(Allowed(filesize, token), rest, AllowReply(token)) {
      var before, message, rest' := Decider(s, budget, checked);
      if message.None? {
        OverflowDecides(s, budget, checked, before, rest');
      } else {
        BroughtDecides(s, budget, checked, before, message.value, rest');
        ReadyExactly(message.value, filesize, token);
      }
    }
    forall before, message | Brings(s, budget, checked, before, message, rest) && RequestFor(message, filesize, token)
      ensures AwaitRequest(s, budget, checked) == Wait(Allowed(filesize, token), rest, AllowReply(token))
    {
      ReadyExactly(message, filesize, token);
      BroughtDecides(s, budget, checked, before, message, rest);
    }
  }

  /** The message refuses the download for this reason. */
  ghost predicate Refuses(message: Message, reason: Bytes) {
    DenialFor(message, reason) || (FailureNews(message) && reason == Ascii("Upload failed"))
  }

  /** It ends with Denied exactly when, in the same way, a denial with that reason comes, or the news that
      an upload has failed, and then "Upload failed" is the reason. */
  lemma DeniedExactly(s: Bytes, budget: nat, checked: bool, reason: Bytes)
    ensures AwaitRequest(s, budget, checked).result == Denied(reason)
            <==> exists before, message, rest ::
                   Brings(s, budget, checked, before, message, rest) && Refuses(message, reason)
  {
    hide Judge, ReadNext, Frame, Brings, Overflows, DenialFor, FailureNews, Ascii;
    if AwaitRequest(s, budget, checked).result == Denied(reason) {
      var before, message, rest := Decider(s, budget, checked);
      if message.None? {
        OverflowDecides(s, budget, checked, before, rest);
      } else {
        BroughtDecides(s, budget, checked, before, message.value, rest);
        RefusedExactly(message.value, reason);
        assert Refuses(message.value, reason);
      }
    }
    forall before, message, rest | Brings(s, budget, checked, before, message, rest) && Refuses(message, reason)
      ensures AwaitRequest(s, budget, checked).result == Denied(reason)
    {
      RefusedExactly(message, reason);
      BroughtDecides(s, budget, checked, before, message, rest);
    }
  }

  /** It is aborted exactly when, in the same way, there comes a message that ends inside a number, or,
      where overflow is checked, a length below 4. */
  lemma AbortedExactly(s: Bytes, budget: nat, checked: bool)
    ensures AwaitRequest(s, budget, checked).result == Aborted
            <==> || (exists before, message, rest ::
                       Brings(s, budget, checked, before, message, rest) && CutInside(message))
                 || (exists before, rest :: Overflows(s, budget, checked, before, rest))
  {
    hide Judge, ReadNext, Frame, Brings, Overflows, CutInside;
    if AwaitRequest(s, budget, checked).result == Aborted {
      var before, message, rest := Decider(s, budget, checked);
      if message.Some? {
        BroughtDecides(s, budget, checked, before, message.value, rest);
        CrashExactly(message.value);
      }
    }
    forall before, message, rest | Brings(s, budget, checked, before, message, rest) && CutInside(message)
      ensures AwaitRequest(s, budget, checked).result == Aborted
    {
      CrashExactly(message);
      BroughtDecides(s, budget, checked, before, message, rest);
    }
    forall before, rest | Overflows(s, budget, checked, before, rest)
      ensures AwaitRequest(s, budget, checked).result == Aborted
    {
      OverflowDecides(s, budget, checked, before, rest);
    }
  }

  // ---------------------------------------------------------------- the uploader's side

  /** What the uploader passes over: a frame that is not its reply, or a length below 4 on its own. */
  ghost predicate PassedOver(piece: Bytes, token: U32) {
    || (exists message: Message ::
          Framed(message.data) && NotTheReply(message, token) && piece == Frame(message.code, message.data))
    || (exists length: U32 :: length < 4 && piece == PutU32(length))
  }

  function Concat(pieces: seq<Bytes>): Bytes {
    if pieces == [] then [] else pieces[0] + Concat(pieces[1..])
  }

  /** The stream begins with pieces to pass over, fewer than the turns there are, then a frame of `message`,
      then `rest`. */
  ghost predicate BringsReply(s: Bytes, token: U32, budget: nat, before: seq<Bytes>, message: Message, rest: Bytes) {
    && |before| < budget && (forall piece | piece in before :: PassedOver(piece, token)) && Framed(message.data)
    && s == Concat(before) + (Frame(message.code, message.data) + rest)
  }

  lemma PieceIsSkipped(piece: Bytes, token: U32, s: Bytes, budget: nat)
    requires PassedOver(piece, token) && budget > 0
    ensures AwaitReply(piece + s, token, budget) == AwaitReply(s, token, budget - 1)
  {
    hide ReadReply, Frame, GetU32, PutU32;
    if message: Message :| Framed(message.data) && NotTheReply(message, token)
                          && piece == Frame(message.code, message.data) {
      FrameReads(message.code, message.data, s);
      SkippedExactly(message, token);
    } else {
      var length: U32 :| length < 4 && piece == PutU32(length);
      GetPutU32(length, s);
      SkippedExactly(Message(0, []), token);
    }
  }

  lemma {:induction false} PiecesAreSkipped(before: seq<Bytes>, token: U32, s: Bytes, budget: nat)
    requires |before| <= budget && forall piece | piece in before :: PassedOver(piece, token)
    ensures AwaitReply(Concat(before) + s, token, budget) == AwaitReply(s, token, budget - |before|)
  {
    hide ReadReply, ReadFrame, PassedOver;
    if before == [] {
      assert Concat(before) + s == s;
    } else {
      assert Concat(before) + s == before[0] + (Concat(before[1..]) + s);
      PieceIsSkipped(before[0], token, Concat(before[1..]) + s, budget);
      PiecesAreSkipped(before[1..], token, s, budget - 1);
    }
  }

  lemma PrependPiece(piece: Bytes, before: seq<Bytes>, tail: Bytes)
    ensures Concat([piece] + before) + tail == piece + (Concat(before) + tail)
  {
    assert ([piece] + before)[1..] == before;
  }

  lemma FirstPiece(s: Bytes, token: U32) returns (piece: Bytes)
    requires ReadFrame(s).Some? && ReadReply(token, ReadFrame(s).value.0) == Skip
    ensures PassedOver(piece, token) && s == piece + ReadFrame(s).value.1
  {
    hide ReadReply, Frame;
    var (message, rest) := ReadFrame(s).value;
    SkippedExactly(message, token);
    if GetU32(s) < 4 {
      piece := s[..4];
      PutGetU32(s, GetU32(s));
      assert piece == PutU32(GetU32(s));
    } else {
      ReadIsFrame(s);
      piece := Frame(message.code, message.data);
    }
  }

  lemma {:induction false} ReplyDecider(s: Bytes, token: U32, budget: nat)
    returns (before: seq<Bytes>, message: Message, rest: Bytes)
    requires AwaitReply(s, token, budget).0 != GaveUp
    ensures BringsReply(s, token, budget, before, message, rest) && ReadReply(token, message).Final?
    decreases budget
  {
    hide ReadReply, Frame, GetU32, PassedOver;
    var (next, left) := ReadFrame(s).value;
    if ReadReply(token, next) == Skip {
      var piece := FirstPiece(s, token);
      before, message, rest := ReplyDecider(left, token, budget - 1);
      PrependPiece(piece, before, Frame(message.code, message.data) + rest);
      before := [piece] + before;
    } else {
      CodeDecides(next, token);
      CodeMeansLength(s);
      ReadIsFrame(s);
      before, message, rest := [], next, left;
      assert s == Concat(before) + (Frame(message.code, message.data) + rest);
    }
  }

  lemma CodeDecides(message: Message, token: U32)
    requires ReadReply(token, message).Final?
    ensures message.code == 41
  {
  }

  /** The uploader ends with this answer, and reads no further, exactly when, within its turns and behind
      what it passes over, a reply with its own token comes that says so. */
  lemma AnswerExactly(s: Bytes, token: U32, budget: nat, answer: Answer, rest: Bytes)
    requires answer != GaveUp
    ensures AwaitReply(s, token, budget) == (answer, rest)
            <==> exists before, message ::
                   BringsReply(s, token, budget, before, message, rest) && Answers(message, token, answer)
  {
    hide ReadReply, Frame, BringsReply, Answers;
    if AwaitReply(s, token, budget) == (answer, rest) {
      var before, message, rest' := ReplyDecider(s, token, budget);
      ReplyDecides(s, token, budget, before, message, rest');
      AnsweredExactly(message, token, answer);
    }
    forall before, message | BringsReply(s, token, budget, before, message, rest) && Answers(message, token, answer)
      ensures AwaitReply(s, token, budget) == (answer, rest)
    {
      AnsweredExactly(message, token, answer);
      ReplyDecides(s, token, budget, before, message, rest);
    }
  }

  lemma ReplyDecides(s: Bytes, token: U32, budget: nat, before: seq<Bytes>, message: Message, rest: Bytes)
    requires BringsReply(s, token, budget, before, message, rest) && ReadReply(token, message).Final?
    ensures AwaitReply(s, token, budget) == (ReadReply(token, message).answer, rest)
  {
    hide ReadReply, Frame, Concat, PassedOver;
    PiecesAreSkipped(before, token, Frame(message.code, message.data) + rest, budget);
    FrameReads(message.code, message.data, rest);
  }

  /** A reply that is too short ends the wait at once. */
  lemma ShortReplyGivesUp(s: Bytes, token: U32, budget: nat, before: seq<Bytes>, message: Message, rest: Bytes)
    requires BringsReply(s, token, budget, before, message, rest) && message.code == 41 && |message.data| < 5
    ensures AwaitReply(s, token, budget) == (GaveUp, rest)
  {
    AnsweredExactly(message, token, GaveUp);
    ReplyDecides(s, token, budget, before, message, rest);
  }

  lemma CodeMeansLength(s: Bytes)
    requires ReadFrame(s).Some? && ReadFrame(s).value.0.code != 0
    ensures GetU32(s) >= 4
  {
  }
}
