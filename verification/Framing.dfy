/** Messages on a byte stream: frames, the optional handshake messages in front of them, and the
    handshake of an incoming connection. */
module Framing {
  import opened Wrappers
  import opened Bytes
  import opened Text

  /** A connection as one side sees it: the bytes that will arrive and those it has written. */
  class TcpStream {
    var inbound: Bytes
    var outbound: Bytes

    constructor (inbound: Bytes)
      ensures this.inbound == inbound && outbound == []
    {
      this.inbound, outbound := inbound, [];
    }

    /** `read_exact`: `n` bytes, or an error when the stream ends first. */
    method ReadExact(n: nat) returns (r: Option<Bytes>)
      modifies `inbound
      ensures r.Some? <==> n <= |old(inbound)|
      ensures r.Some? ==> |r.value| == n && r.value == old(inbound)[..n] && inbound == old(inbound)[n..]
      ensures r.None? ==> inbound == []
    {
      if n <= |inbound| {
        r := Some(inbound[..n]);
        inbound := inbound[n..];
      } else {
        r := None;
        inbound := [];
      }
    }

    method Write(bytes: Bytes)
      modifies `outbound
      ensures outbound == old(outbound) + bytes
    {
      outbound := outbound + bytes;
    }
  }

  // ---------------------------------------------------------------- frames

  datatype Message = Message(code: U32, data: Bytes)

  /** The bytes of one framed message; the length is cast to 32 bits. */
  function Frame(code: U32, data: Bytes): Bytes {
    PutU32(4 + |data|) + PutU32(code) + data
  }

  predicate Framed(data: Bytes) {
    4 + |data| < 0x1_0000_0000
  }

  /** `read_message`: a frame shorter than a code reads as code 0 without data. */
  function ReadFrame(s: Bytes): (r: Option<(Message, Bytes)>)
    ensures r.Some? ==> |r.value.1| + 4 <= |s|
  {
    if |s| < 4 then None
    else if GetU32(s) < 4 then Some((Message(0, []), s[4..]))
    else if |s| < 4 + GetU32(s) then None
    else Some((Message(GetU32(s[4..]), s[8..4 + GetU32(s)]), s[4 + GetU32(s)..]))
  }

  method SendMessage(stream: TcpStream, code: U32, data: Bytes)
    modifies stream`outbound
    ensures stream.outbound == old(stream.outbound) + Frame(code, data)
  {
    stream.Write(PutU32(4 + |data|));
    stream.Write(PutU32(code));
    stream.Write(data);
    assert old(stream.outbound) + Frame(code, data) == old(stream.outbound) + PutU32(4 + |data|) + PutU32(code) + data;
  }

  method ReadMessage(stream: TcpStream) returns (r: Option<Message>)
    modifies stream`inbound
    ensures r.Some? <==> ReadFrame(old(stream.inbound)).Some?
    ensures r.Some? ==> (r.value, stream.inbound) == ReadFrame(old(stream.inbound)).value
  {
    hide GetU32;
    var whole := stream.inbound;
    var lengthBytes := stream.ReadExact(4);
    if lengthBytes.None? {
      return None;
    }
    SamePrefix(whole, lengthBytes.value);
    var length := GetU32(lengthBytes.value);
    if length < 4 {
      return Some(Message(0, []));
    }
    var codeBytes := stream.ReadExact(4);
    if codeBytes.None? {
      return None;
    }
    SamePrefix(whole[4..], codeBytes.value);
    var data := stream.ReadExact(length - 4);
    if data.None? {
      return None;
    }
    assert data.value == whole[8..4 + length];
    return Some(Message(GetU32(codeBytes.value), data.value));
  }

  lemma SamePrefix(s: Bytes, prefix: Bytes)
    requires |s| >= 4 && prefix == s[..4]
    ensures GetU32(prefix) == GetU32(s)
  {
    assert prefix[..4] == s[..4];
  }

  /** A frame reads back as the message it was made of, and nothing more is consumed. */
  lemma FrameReads(code: U32, data: Bytes, rest: Bytes)
    requires Framed(data)
    ensures ReadFrame(Frame(code, data) + rest) == Some((Message(code, data), rest))
  {
    var s := Frame(code, data) + rest;
    assert s == PutU32(4 + |data|) + (PutU32(code) + (data + rest));
    GetPutU32(4 + |data|, PutU32(code) + (data + rest));
    GetPutU32(code, data + rest);
    assert s[4..] == PutU32(code) + (data + rest);
    assert s[8..8 + |data|] == data && s[8 + |data|..] == rest;
  }

  /** What reads as a message was framed as that message, unless its length is below 4. */
  lemma ReadIsFrame(s: Bytes)
    requires ReadFrame(s).Some? && GetU32(s) >= 4
    ensures var (message, rest) := ReadFrame(s).value;
            Framed(message.data) && s == Frame(message.code, message.data) + rest
  {
    var length := GetU32(s);
    LeBytesOfLeValue(s[..4]);
    LeBytesOfLeValue(s[4..][..4]);
    assert s == s[..4] + s[4..][..4] + s[8..4 + length] + s[4 + length..];
  }

  function FrameAll(messages: seq<Message>): Bytes {
    if messages == [] then [] else Frame(messages[0].code, messages[0].data) + FrameAll(messages[1..])
  }

  /** Repeated `read_message`, until the stream ends or holds only part of a frame. */
  function ReadAll(s: Bytes): seq<Message>
    decreases |s|
  {
    match ReadFrame(s)
    case None => []
    case Some((message, rest)) => [message] + ReadAll(rest)
  }

  /** Reading recovers any sequence of messages that was sent. */
  lemma {:induction false} ReadsWhatWasSent(messages: seq<Message>)
    requires forall i | 0 <= i < |messages| :: Framed(messages[i].data)
    ensures ReadAll(FrameAll(messages)) == messages
  {
    if messages == [] {
      assert ReadFrame([]).None?;
    } else {
      FrameReads(messages[0].code, messages[0].data, FrameAll(messages[1..]));
      ReadsWhatWasSent(messages[1..]);
      assert FrameAll(messages) != [];
    }
  }

  // ---------------------------------------------------------------- handshake prefixes

  /** `send_peer_init`: the token on the wire is always zero. */
  function PeerInit(username: Bytes, connType: Bytes): Bytes {
    PutU32(1 + 4 + |username| + 4 + |connType| + 4) + [1] + EncodeString(username) + EncodeString(connType) + PutU32(0)
  }

  /** `send_pierce_firewall`. */
  function PierceFirewall(token: U32): Bytes {
    PutU32(5) + [0] + PutU32(token)
  }

  const HANDSHAKE_LIMIT := 200

  /** The first five bytes look like a handshake message. */
  predicate LooksLikeHandshake(length: U32, first: Byte) {
    (first == 0 || first == 1) && 4 < length < HANDSHAKE_LIMIT
  }

  /** `read_peer_message_with_init_handling`: skip one handshake message, then read a frame. */
  function ReadPeerMessage(s: Bytes): (r: Option<(Message, Bytes)>) {
    if |s| < 5 then None
    else
      var length := GetU32(s);
      if LooksLikeHandshake(length, s[4]) then
        if |s| < 4 + length then None else ReadFrame(s[4 + length..])
      else if |s| < 8 then None
      else
        var size := if length >= 4 then length - 4 else 0;
        if |s| < 8 + size then None
        else Some((Message(GetU32(s[4..]), s[8..8 + size]), s[8 + size..]))
  }

  method ReadPeerMessageWithInitHandling(stream: TcpStream) returns (r: Option<Message>)
    modifies stream`inbound
    ensures r.Some? <==> ReadPeerMessage(old(stream.inbound)).Some?
    ensures r.Some? ==> (r.value, stream.inbound) == ReadPeerMessage(old(stream.inbound)).value
  {
    hide GetU32, ReadFrame;
    var whole := stream.inbound;
    var peek := stream.ReadExact(5);
    if peek.None? {
      return None;
    }
    assert peek.value[..4] == whole[..4];
    SamePrefix(whole, peek.value[..4]);
    var length, first := GetU32(peek.value[..4]), peek.value[4];
    if LooksLikeHandshake(length, first) {
      var discard := stream.ReadExact(length + 4 - 5);
      if discard.None? {
        return None;
      }
      assert stream.inbound == whole[4 + length..];
      r := ReadMessage(stream);
      return r;
    }
    var codeRest := stream.ReadExact(3);
    if codeRest.None? {
      return None;
    }
    assert [first] + codeRest.value == whole[4..][..4];
    SamePrefix(whole[4..], [first] + codeRest.value);
    var code := GetU32([first] + codeRest.value);
    var size := if length >= 4 then length - 4 else 0;
    var data := stream.ReadExact(size);
    if data.None? {
      return None;
    }
    assert data.value == whole[8..8 + size];
    return Some(Message(code, data.value));
  }

  /** Without a handshake message in front, a framed message is read as it is exactly when its
      own first bytes do not look like a handshake: its code's low byte is neither 0 nor 1, or
      its data is empty or has 196 bytes or more. */
  lemma PlainMessageReads(code: U32, data: Bytes, rest: Bytes)
    requires Framed(data)
    ensures ReadPeerMessage(Frame(code, data) + rest) == Some((Message(code, data), rest))
      <==> !(code % 0x100 <= 1 && 0 < |data| < 196)
  {
    var s := Frame(code, data) + rest;
    FrameReads(code, data, rest);
    assert s == PutU32(4 + |data|) + (PutU32(code) + data + rest);
    GetPutU32(4 + |data|, PutU32(code) + data + rest);
    assert s[4] == code % 0x100;
    assert GetU32(s) == 4 + |data|;
  }

  lemma PeerInitLength(username: Bytes, connType: Bytes, rest: Bytes)
    requires Short(PeerInit(username, connType))
    ensures var s := PeerInit(username, connType) + rest;
            && |PeerInit(username, connType)| == 4 + (13 + |username| + |connType|)
            && GetU32(s) == 13 + |username| + |connType| && s[4] == 1
            && s[|PeerInit(username, connType)|..] == rest
  {
    hide EncodeString;
    var length := 13 + |username| + |connType|;
    var body := [1] + EncodeString(username) + EncodeString(connType) + PutU32(0);
    assert PeerInit(username, connType) + rest == PutU32(length) + (body + rest);
    GetPutU32(length, body + rest);
    assert (PutU32(length) + (body + rest))[4] == (body + rest)[0];
  }

  /** Behind a PeerInit message, every framed message is read as it is, whatever its code,
      exactly when the PeerInit frame is shorter than 200 bytes. */
  lemma MessageReadsBehindPeerInit(username: Bytes, connType: Bytes, code: U32, data: Bytes, rest: Bytes)
    requires Short(PeerInit(username, connType)) && Framed(data)
    ensures ReadPeerMessage(PeerInit(username, connType) + (Frame(code, data) + rest))
         == Some((Message(code, data), rest))
      <==> 13 + |username| + |connType| < 200
  {
    hide GetU32, ReadFrame, Frame;
    var tail := Frame(code, data) + rest;
    PeerInitLength(username, connType, tail);
    FrameReads(code, data, rest);
    FrameIsLong(code, data);
  }

  lemma FrameIsLong(code: U32, data: Bytes)
    ensures |Frame(code, data)| == 8 + |data|
  {
  }

  /** Behind a PierceFirewall message, every framed message is read as it is. */
  lemma MessageReadsBehindPierceFirewall(token: U32, code: U32, data: Bytes, rest: Bytes)
    requires Framed(data)
    ensures ReadPeerMessage(PierceFirewall(token) + (Frame(code, data) + rest)) == Some((Message(code, data), rest))
  {
    hide ReadFrame, Frame;
    var tail := Frame(code, data) + rest;
    var s := PierceFirewall(token) + tail;
    assert s == PutU32(5) + ([0] + PutU32(token) + tail);
    GetPutU32(5, [0] + PutU32(token) + tail);
    assert s[4] == 0 && s[9..] == tail;
    FrameReads(code, data, rest);
  }

  /** The codes the dispatcher handles are read alike with either handshake message or none. */
  lemma DispatchedCodesRead(code: U32, data: Bytes, rest: Bytes, username: Bytes, token: U32)
    requires code in {4, 8, 9, 15, 40, 43, 51} && Framed(data)
    requires 13 + |username| + 1 < 200
    ensures var read := Some((Message(code, data), rest));
            && ReadPeerMessage(Frame(code, data) + rest) == read
            && ReadPeerMessage(PeerInit(username, Ascii("P")) + (Frame(code, data) + rest)) == read
            && ReadPeerMessage(PierceFirewall(token) + (Frame(code, data) + rest)) == read
  {
    hide ReadPeerMessage, Frame;
    PlainMessageReads(code, data, rest);
    MessageReadsBehindPeerInit(username, Ascii("P"), code, data, rest);
    MessageReadsBehindPierceFirewall(token, code, data, rest);
  }

  // ---------------------------------------------------------------- incoming connections

  datatype Incoming = FileConnection(token: U32) | PeerConnection(username: Str, token: U32)

  /** `handle_incoming_connection`: the kind of connection, and the bytes left to read. */
  function Accept(s: Bytes): Result<(Incoming, Bytes)> {
    if |s| < 4 then Err
    else
      var first := GetU32(s);
      if first == 5 then
        if |s| < 13 then Err else Ok((FileConnection(GetU32(s[9..])), s[13..]))
      else if 5 < first < HANDSHAKE_LIMIT then
        if |s| < 5 || s[4] != 1 || |s| < 4 + first then Err
        else match DecodeString(s[5..4 + first])
          case None => Err
          case Some((username, buf)) =>
            match DecodeString(buf)
            case None => Err
            case Some((connType, tokenBytes)) =>
              if |tokenBytes| < 4 then Abort
              else if connType == Ascii("F") then
                if |s| < 8 + first then Err
                else Ok((FileConnection(GetU32(s[4 + first..])), s[8 + first..]))
              else if connType == Ascii("P") then
                Ok((PeerConnection(username, GetU32(tokenBytes)), s[4 + first..]))
              else Err
      else Ok((FileConnection(first), s[4..]))
  }

  lemma PeerInitBody(username: Str, connType: Str, rest: Bytes)
    requires Short(PeerInit(username, connType))
    ensures var s := PeerInit(username, connType) + rest;
            var length := 13 + |username| + |connType|;
            s[5..4 + length] == EncodeString(username) + (EncodeString(connType) + PutU32(0))
  {
    var length := 13 + |username| + |connType|;
    var body := EncodeString(username) + (EncodeString(connType) + PutU32(0));
    var s := PeerInit(username, connType) + rest;
    assert s == PutU32(length) + [1] + body + rest;
    assert s[5..4 + length] == body;
  }

  lemma PeerInitDecodes(username: Str, connType: Str)
    requires Short(username) && Short(connType)
    ensures var body := EncodeString(username) + (EncodeString(connType) + PutU32(0));
            && DecodeString(body) == Some((username, EncodeString(connType) + PutU32(0)))
            && DecodeString(EncodeString(connType) + PutU32(0)) == Some((connType, PutU32(0)))
            && GetU32(PutU32(0)) == 0
  {
    DecodeEncodeString(username, EncodeString(connType) + PutU32(0));
    DecodeEncodeString(connType, PutU32(0));
    GetPutU32(0, []);
    assert PutU32(0) + [] == PutU32(0);
  }

  /** A peer that announces itself with PeerInit "P" is accepted under its name. */
  lemma AcceptsPeer(username: Str, rest: Bytes)
    requires 13 + |username| + 1 < 200
    ensures Accept(PeerInit(username, Ascii("P")) + rest) == Ok((PeerConnection(username, 0), rest))
  {
    hide GetU32, DecodeString, EncodeString, Utf8;
    LiteralsDiffer();
    PeerInitLength(username, Ascii("P"), rest);
    PeerInitBody(username, Ascii("P"), rest);
    PeerInitDecodes(username, Ascii("P"));
  }

  lemma LiteralsDiffer()
    ensures Ascii("F") != Ascii("P") && |Ascii("F")| == |Ascii("P")| == 1 && Utf8(Ascii("F")) && Utf8(Ascii("P"))
  {
    assert Ascii("F")[0] == 'F' as int && Ascii("P")[0] == 'P' as int;
  }

  /** An uploader's PeerInit "F" and transfer token arrive as a file connection with that token
      exactly when the PeerInit frame is shorter than 200 bytes. */
  lemma AcceptsFileConnection(username: Str, token: U32, rest: Bytes)
    requires Short(PeerInit(username, Ascii("F")))
    ensures Accept(PeerInit(username, Ascii("F")) + (PutU32(token) + rest)) == Ok((FileConnection(token), rest))
      <==> 13 + |username| + 1 < 200
  {
    hide GetU32, DecodeString, EncodeString, PutU32, Utf8;
    LiteralsDiffer();
    var tail := PutU32(token) + rest;
    PeerInitLength(username, Ascii("F"), tail);
    if 13 + |username| + 1 < 200 {
      PeerInitBody(username, Ascii("F"), tail);
      PeerInitDecodes(username, Ascii("F"));
      GetPutU32(token, rest);
      var s := PeerInit(username, Ascii("F")) + tail;
      assert s[8 + (13 + |username| + 1)..] == tail[4..];
    }
  }

  /** Behind a PierceFirewall message, whatever its own token, the transfer token follows bare. */
  lemma AcceptsPiercedConnection(indirect: U32, token: U32, rest: Bytes)
    ensures Accept(PierceFirewall(indirect) + (PutU32(token) + rest)) == Ok((FileConnection(token), rest))
  {
    hide GetU32, DecodeString, PutU32;
    var tail := PutU32(token) + rest;
    var s := PierceFirewall(indirect) + tail;
    assert s == PutU32(5) + ([0] + PutU32(indirect) + tail);
    GetPutU32(5, [0] + PutU32(indirect) + tail);
    assert s[9..] == tail;
    GetPutU32(token, rest);
    assert s[13..] == tail[4..];
  }

  /** A bare transfer token is taken for one exactly when it cannot be mistaken for a
      handshake length. */
  lemma AcceptsBareToken(token: U32, rest: Bytes)
    ensures Accept(PutU32(token) + rest) == Ok((FileConnection(token), rest))
      <==> !(5 <= token < 200)
  {
    hide GetU32, DecodeString;
    GetPutU32(token, rest);
    var s := PutU32(token) + rest;
    assert |s[4..]| == |rest|;
  }
}
