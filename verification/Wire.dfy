/** Peer messages and their length-prefixed frames: `src/peer/message.rs`. */
module Wire {
  import opened Common

  const CHOKE: Byte := 0
  const UNCHOKE: Byte := 1
  const INTERESTED: Byte := 2
  const NOT_INTERESTED: Byte := 3
  const HAVE: Byte := 4
  const BITFIELD: Byte := 5
  const REQUEST: Byte := 6
  const PIECE: Byte := 7
  const CANCEL: Byte := 8
  const PORT: Byte := 9

  /** Upper bound on the declared length of one frame. */
  const MAX_MESSAGE_LEN: nat := 0x10_0000

  /** A contiguous range of one piece. */
  datatype BlockInfo = BlockInfo(index: u32, begin: u32, length: u32)

  datatype Block = Block(index: u32, begin: u32, data: seq<Byte>)

  datatype Message =
    | KeepAlive
    | Choke
    | Unchoke
    | Interested
    | NotInterested
    | Have(index: u32)
    | Bitfield(bits: seq<Byte>)
    | Request(wanted: BlockInfo)
    | Piece(block: Block)
    | Cancel(unwanted: BlockInfo)
    | Port(port: u16)

  // ----- big-endian integers

  function PutU16(n: u16): seq<Byte> {
    [n / 256, n % 256]
  }

  function GetU16(s: seq<Byte>): u16
    requires |s| >= 2
  {
    var hi: int, lo: int := s[0], s[1];
    hi * 256 + lo
  }

  function PutU32(n: u32): seq<Byte> {
    PutU16(n / U16_LIMIT) + PutU16(n % U16_LIMIT)
  }

  function GetU32(s: seq<Byte>): u32
    requires |s| >= 4
  {
    var hi: int, lo: int := GetU16(s), GetU16(s[2..]);
    hi * U16_LIMIT + lo
  }

  lemma GetPutU16(n: u16, rest: seq<Byte>)
    ensures |PutU16(n)| == 2
    ensures GetU16(PutU16(n) + rest) == n
  {
  }

  lemma PutGetU16(s: seq<Byte>)
    requires |s| >= 2
    ensures PutU16(GetU16(s)) == s[..2]
  {
  }

  lemma GetPutU32(n: u32, rest: seq<Byte>)
    ensures |PutU32(n)| == 4
    ensures GetU32(PutU32(n) + rest) == n
  {
    var hi, lo := n / U16_LIMIT, n % U16_LIMIT;
    assert PutU32(n) + rest == PutU16(hi) + (PutU16(lo) + rest);
    GetPutU16(hi, PutU16(lo) + rest);
    GetPutU16(lo, rest);
  }

  lemma PutGetU32(s: seq<Byte>)
    requires |s| >= 4
    ensures PutU32(GetU32(s)) == s[..4]
  {
    PutGetU16(s);
    PutGetU16(s[2..]);
    assert s[..4] == s[..2] + s[2..][..2];
  }

  // ----- frames

  function PutBlockInfo(b: BlockInfo): seq<Byte> {
    PutU32(b.index) + PutU32(b.begin) + PutU32(b.length)
  }

  function GetBlockInfo(s: seq<Byte>): BlockInfo
    requires |s| == 12
  {
    BlockInfo(GetU32(s), GetU32(s[4..]), GetU32(s[8..]))
  }

  /** The id byte and the payload of a message that has one. */
  function Body(m: Message): seq<Byte> {
    match m
    case KeepAlive => []
    case Choke => [CHOKE]
    case Unchoke => [UNCHOKE]
    case Interested => [INTERESTED]
    case NotInterested => [NOT_INTERESTED]
    case Have(index) => [HAVE] + PutU32(index)
    case Bitfield(bits) => [BITFIELD] + bits
    case Request(b) => [REQUEST] + PutBlockInfo(b)
    case Piece(b) => [PIECE] + (PutU32(b.index) + PutU32(b.begin) + b.data)
    case Cancel(b) => [CANCEL] + PutBlockInfo(b)
    case Port(port) => [PORT] + PutU16(port)
  }

  /** The declared length is computed in 32 bits and wraps. */
  function Encode(m: Message): seq<Byte> {
    PutU32(|Body(m)| % U32_LIMIT) + Body(m)
  }

  /** Messages whose frame every decoder of this codec accepts. */
  predicate WithinLimit(m: Message) {
    |Body(m)| <= MAX_MESSAGE_LEN
  }

  /** Reads a frame body: the id, then a payload of the length the id demands. */
  function ParseBody(id: Byte, payload: seq<Byte>): Result<Message> {
    if id == CHOKE then ExpectEmpty(payload, Choke)
    else if id == UNCHOKE then ExpectEmpty(payload, Unchoke)
    else if id == INTERESTED then ExpectEmpty(payload, Interested)
    else if id == NOT_INTERESTED then ExpectEmpty(payload, NotInterested)
    else if id == HAVE then
      if |payload| != 4 then Err(PeerProtocol("have")) else Ok(Have(GetU32(payload)))
    else if id == BITFIELD then Ok(Bitfield(payload))
    else if id == REQUEST then
      if |payload| != 12 then Err(PeerProtocol("request")) else Ok(Request(GetBlockInfo(payload)))
    else if id == PIECE then
      if |payload| < 8 then Err(PeerProtocol("piece"))
      else Ok(Piece(Block(GetU32(payload), GetU32(payload[4..]), payload[8..])))
    else if id == CANCEL then
      if |payload| != 12 then Err(PeerProtocol("cancel")) else Ok(Cancel(GetBlockInfo(payload)))
    else if id == PORT then
      if |payload| != 2 then Err(PeerProtocol("port")) else Ok(Port(GetU16(payload)))
    else Err(PeerProtocol("unknown message id"))
  }

  function ExpectEmpty(payload: seq<Byte>, m: Message): Result<Message> {
    if payload == [] then Ok(m) else Err(PeerProtocol("payload must be empty"))
  }

  /** One decoding step over a buffer: the outcome and what stays buffered. */
  function Decode(src: seq<Byte>): (r: (Result<Option<Message>>, seq<Byte>))
    ensures r.0.Ok? && r.0.value.Some? ==> |r.1| < |src|
    ensures r.0 == Ok(None) ==> r.1 == src
  {
    if |src| < 4 then (Ok(None), src)
    else
      var length := GetU32(src);
      if length == 0 then (Ok(Some(KeepAlive)), src[4..])
      else if length > MAX_MESSAGE_LEN then (Err(PeerProtocol("declared message length exceeds maximum")), src)
      else if |src| < 4 + length then (Ok(None), src)
      else
        var rest := src[4 + length..];
        match ParseBody(src[4], src[5..4 + length])
        case Ok(m) => (Ok(Some(m)), rest)
        case Err(e) => (Err(e), rest)
  }

  // ----- the bytes themselves

  /** Four bytes, most significant first. */
  function Four(n: u32): (s: seq<Byte>)
    ensures |s| == 4
  {
    [n / 16777216, n / 65536 % 256, n / 256 % 256, n % 256]
  }

  lemma NumberBytes(n: u32)
    ensures PutU32(n) == Four(n)
  {
    var hi, lo := n / U16_LIMIT, n % U16_LIMIT;
    DigitsOfNumber(n, hi / 256, hi % 256, lo / 256, lo % 256);
  }

  lemma DigitsOfNumber(n: int, a: Byte, b: Byte, c: Byte, d: Byte)
    requires n == a * 16777216 + b * 65536 + c * 256 + d
    ensures n / 16777216 == a && n / 65536 % 256 == b && n / 256 % 256 == c && n % 256 == d
  {
    assert n / 65536 == a * 256 + b;
    assert n / 256 == (a * 256 + b) * 256 + c;
  }

  /** The frames of the messages without payload, byte by byte. */
  lemma SimpleFrames()
    ensures Encode(KeepAlive) == [0, 0, 0, 0]
    ensures Encode(Choke) == [0, 0, 0, 1, 0]
    ensures Encode(Unchoke) == [0, 0, 0, 1, 1]
    ensures Encode(Interested) == [0, 0, 0, 1, 2]
    ensures Encode(NotInterested) == [0, 0, 0, 1, 3]
  {
    NumberBytes(0);
    NumberBytes(1);
    hide PutU32;
  }

  /** And of the others: length, id, and numbers with the most significant byte
      first, in the order index, begin, length. */
  lemma HaveFrame(index: u32)
    ensures Encode(Have(index)) == [0, 0, 0, 5, 4] + Four(index)
  {
    NumberBytes(index);
    NumberBytes(5);
    hide PutU32;
    assert Four(5) == [0, 0, 0, 5];
    hide Four;
    assert [4 as Byte] + Four(index) == Body(Have(index));
    assert [0, 0, 0, 5] + ([4] + Four(index)) == [0, 0, 0, 5, 4] + Four(index);
  }

  lemma BitfieldFrame(bits: seq<Byte>)
    ensures Encode(Bitfield(bits)) == Four((1 + |bits|) % 0x1_0000_0000) + [5] + bits
  {
    NumberBytes((1 + |bits|) % 0x1_0000_0000);
    hide PutU32, Four;
    assert |Body(Bitfield(bits))| == 1 + |bits|;
  }

  lemma TripleFrames(b: BlockInfo)
    ensures Encode(Request(b)) == [0, 0, 0, 13, 6] + (Four(b.index) + Four(b.begin) + Four(b.length))
    ensures Encode(Cancel(b)) == [0, 0, 0, 13, 8] + (Four(b.index) + Four(b.begin) + Four(b.length))
  {
    NumberBytes(b.index);
    NumberBytes(b.begin);
    NumberBytes(b.length);
    NumberBytes(13);
    hide PutU32;
    assert Four(13) == [0, 0, 0, 13];
    hide Four;
    var payload := Four(b.index) + Four(b.begin) + Four(b.length);
    assert |payload| == 12 && Body(Request(b)) == [6] + payload && Body(Cancel(b)) == [8] + payload;
    assert [0, 0, 0, 13] + ([6] + payload) == [0, 0, 0, 13, 6] + payload;
    assert [0, 0, 0, 13] + ([8] + payload) == [0, 0, 0, 13, 8] + payload;
  }

  lemma PieceFrame(b: Block)
    ensures Encode(Piece(b)) ==
            Four((9 + |b.data|) % 0x1_0000_0000) + [7] + Four(b.index) + Four(b.begin) + b.data
  {
    NumberBytes(b.index);
    NumberBytes(b.begin);
    NumberBytes((9 + |b.data|) % 0x1_0000_0000);
    hide PutU32, Four;
    assert |Body(Piece(b))| == 9 + |b.data|;
  }

  lemma PortFrame(port: u16)
    ensures Encode(Port(port)) == [0, 0, 0, 3, 9, port / 256, port % 256]
  {
    NumberBytes(3);
    hide PutU32;
    assert Body(Port(port)) == [9, port / 256, port % 256];
    assert Four(3) == [0, 0, 0, 3];
  }

  // ----- the codec inverts itself

  lemma BlockInfoRoundTrip(b: BlockInfo)
    ensures |PutBlockInfo(b)| == 12 && GetBlockInfo(PutBlockInfo(b)) == b
  {
    var s := PutBlockInfo(b);
    assert s == PutU32(b.index) + (PutU32(b.begin) + PutU32(b.length));
    assert s[4..] == PutU32(b.begin) + PutU32(b.length);
    assert s[8..] == PutU32(b.length) + [];
    GetPutU32(b.index, PutU32(b.begin) + PutU32(b.length));
    GetPutU32(b.begin, PutU32(b.length));
    GetPutU32(b.length, []);
  }

  lemma KeepAliveIsEmpty()
    ensures Body(KeepAlive) == []
  {
  }

  lemma BlockInfoCanonical(s: seq<Byte>)
    requires |s| == 12
    ensures PutBlockInfo(GetBlockInfo(s)) == s
  {
    PutGetU32(s);
    PutGetU32(s[4..]);
    PutGetU32(s[8..]);
    assert s == s[..4] + s[4..][..4] + s[8..][..4];
  }

  lemma BlockRoundTrip(b: Block)
    ensures ParseBody(PIECE, PutU32(b.index) + PutU32(b.begin) + b.data) == Ok(Piece(b))
  {
    GetPutU32(b.index, PutU32(b.begin) + b.data);
    GetPutU32(b.begin, b.data);
    hide PutU32, GetU32;
    var payload := PutU32(b.index) + PutU32(b.begin) + b.data;
    assert payload == PutU32(b.index) + (PutU32(b.begin) + b.data);
    assert payload[4..] == PutU32(b.begin) + b.data;
    assert payload[8..] == b.data;
  }

  lemma ParseInvertsBody(m: Message)
    requires !m.KeepAlive?
    ensures |Body(m)| > 0 && ParseBody(Body(m)[0], Body(m)[1..]) == Ok(m)
  {
    hide PutU32, GetU32, PutU16, GetU16, PutBlockInfo, GetBlockInfo;
    var payload := Body(m)[1..];
    match m
    case Have(index) =>
      assert payload == PutU32(index) + [];
      GetPutU32(index, []);
    case Request(b) =>
      assert payload == PutBlockInfo(b);
      BlockInfoRoundTrip(b);
    case Cancel(b) =>
      assert payload == PutBlockInfo(b);
      BlockInfoRoundTrip(b);
    case Piece(b) =>
      assert payload == PutU32(b.index) + PutU32(b.begin) + b.data;
      BlockRoundTrip(b);
    case Port(port) =>
      assert payload == PutU16(port) + [];
      GetPutU16(port, []);
    case _ =>
  }

  lemma BodyInvertsParse(id: Byte, payload: seq<Byte>)
    requires ParseBody(id, payload).Ok?
    ensures !ParseBody(id, payload).value.KeepAlive?
    ensures Body(ParseBody(id, payload).value) == [id] + payload
  {
    if id == HAVE {
      PutGetU32(payload);
      assert payload == payload[..4];
    } else if id == REQUEST || id == CANCEL {
      BlockInfoCanonical(payload);
    } else if id == PIECE {
      PutGetU32(payload);
      PutGetU32(payload[4..]);
      assert payload == payload[..4] + payload[4..][..4] + payload[8..];
    } else if id == PORT {
      PutGetU16(payload);
      assert payload == payload[..2];
    }
  }

  /** Decoding a frame with anything behind it gives the message back and leaves
      exactly what was behind it. */
  lemma DecodeInvertsEncode(m: Message, rest: seq<Byte>)
    requires WithinLimit(m)
    ensures Decode(Encode(m) + rest) == (Ok(Some(m)), rest)
  {
    hide PutU32, GetU32, Body, ParseBody;
    var body := Body(m);
    var src := Encode(m) + rest;
    assert src == PutU32(|body|) + (body + rest);
    GetPutU32(|body|, body + rest);
    if m.KeepAlive? {
      assert body == [] by { KeepAliveIsEmpty(); }
    } else {
      ParseInvertsBody(m);
      assert src[5..4 + |body|] == body[1..];
      assert src[4 + |body|..] == rest;
    }
  }

  lemma FrameRebuilt(src: seq<Byte>, m: Message, length: nat)
    requires 0 < length < U32_LIMIT && |src| >= 4 + length
    requires PutU32(length) == src[..4] && Body(m) == [src[4]] + src[5..4 + length]
    ensures src == Encode(m) + src[4 + length..]
  {
    hide PutU32, Body;
    assert [src[4]] + src[5..4 + length] == src[4..4 + length];
    assert src == src[..4] + src[4..4 + length] + src[4 + length..];
  }

  /** A decoded message was buffered in its one and only encoding. */
  lemma EncodeInvertsDecode(src: seq<Byte>)
    requires Decode(src).0.Ok? && Decode(src).0.value.Some?
    ensures WithinLimit(Decode(src).0.value.value)
    ensures src == Encode(Decode(src).0.value.value) + Decode(src).1
  {
    hide PutU32, GetU32, Body, ParseBody;
    var length := GetU32(src);
    PutGetU32(src);
    if length == 0 {
      KeepAliveIsEmpty();
    } else {
      var m := Decode(src).0.value.value;
      BodyInvertsParse(src[4], src[5..4 + length]);
      FrameRebuilt(src, m, length);
      hide Encode;
    }
  }

  /** The limit is exactly what the round trip needs. */
  lemma RoundTripIff(m: Message)
    ensures Decode(Encode(m)) == (Ok(Some(m)), []) <==> WithinLimit(m)
  {
    if WithinLimit(m) {
      assert Encode(m) + [] == Encode(m);
      DecodeInvertsEncode(m, []);
    } else if Decode(Encode(m)) == (Ok(Some(m)), []) {
      EncodeInvertsDecode(Encode(m));
    }
  }

  /** The number that the first four bytes of a buffer stand for. */
  function Declared(src: seq<Byte>): u32
    requires |src| >= 4
  {
    var a: int, b: int, c: int, d: int := src[0], src[1], src[2], src[3];
    a * 16777216 + b * 65536 + c * 256 + d
  }

  lemma DeclaredIsRead(src: seq<Byte>)
    requires |src| >= 4
    ensures GetU32(src) == Declared(src)
  {
  }

  /** The frame at the front of a buffer is there in full. */
  predicate FrameIsThere(src: seq<Byte>) {
    |src| >= 4 && Declared(src) <= 1048576 && |src| >= 4 + Declared(src)
  }

  /** What decoding any buffer comes to: it waits exactly while the length, or a
      frame of at most 2^20 bytes, is incomplete; it fails exactly on a longer
      length, or on a frame that is no message's; and else it gives the message. */
  lemma DecodeOutcome(src: seq<Byte>)
    ensures Decode(src).0 == Ok(None) <==>
      |src| < 4 || (Declared(src) <= 1048576 && |src| < 4 + Declared(src))
    ensures Decode(src).0.Err? <==>
      && |src| >= 4
      && (Declared(src) > 1048576 || (FrameIsThere(src) && forall m :: Encode(m) != src[..4 + Declared(src)]))
    ensures forall m :: FrameIsThere(src) && Encode(m) == src[..4 + Declared(src)] ==>
      Decode(src) == (Ok(Some(m)), src[4 + Declared(src)..])
  {
    if |src| >= 4 {
      DeclaredIsRead(src);
      hide GetU32, Encode, ParseBody, Declared;
      if FrameIsThere(src) {
        var n := 4 + Declared(src);
        assert src == src[..n] + src[n..];
        forall m | Encode(m) == src[..n] ensures Decode(src) == (Ok(Some(m)), src[n..]) {
          FrameIsWithin(m);
          DecodeInvertsEncode(m, src[n..]);
        }
        if Decode(src).0.Ok? && Decode(src).0.value.Some? {
          EncodeInvertsDecode(src);
          var m := Decode(src).0.value.value;
          assert Decode(src).1 == src[n..];
          assert Encode(m) == src[..n] by { SameFront(Encode(m), src[..n], src[n..], src); }
        }
      }
    }
  }

  lemma SameFront(a: seq<Byte>, b: seq<Byte>, rest: seq<Byte>, src: seq<Byte>)
    requires src == a + rest && src == b + rest
    ensures a == b
  {
    assert |a| == |b|;
    assert a == src[..|a|] == b;
  }

  lemma FrameIsWithin(m: Message)
    requires |Encode(m)| <= 4 + 1048576
    ensures WithinLimit(m)
  {
    hide Body;
  }

  lemma PrefixSameNumber(p: seq<Byte>, s: seq<Byte>)
    requires 4 <= |p| && p <= s
    ensures GetU32(p) == GetU32(s)
  {
    assert p[2..][..2] == s[2..][..2];
  }

  /** A frame that is cut short yields nothing and stays buffered. */
  lemma CutFrameWaits(m: Message, p: seq<Byte>)
    requires WithinLimit(m) && p < Encode(m)
    ensures Decode(p) == (Ok(None), p)
  {
    hide PutU32, GetU32, Body;
    GetPutU32(|Body(m)|, Body(m));
    if |p| >= 4 {
      PrefixSameNumber(p, Encode(m));
    }
  }

  /** More bytes never change what was already decided. */
  lemma MoreBytesAgree(src: seq<Byte>, more: seq<Byte>)
    requires Decode(src).0 != Ok(None)
    ensures Decode(src + more).0 == Decode(src).0
    ensures Decode(src).0.Ok? ==> Decode(src + more).1 == Decode(src).1 + more
  {
    hide ParseBody, GetU32;
    var longer := src + more;
    PrefixSameNumber(src, longer);
    var length := GetU32(src);
    if length == 0 {
      assert longer[4..] == src[4..] + more;
    } else if length <= MAX_MESSAGE_LEN {
      assert longer[5..4 + length] == src[5..4 + length];
      assert longer[4 + length..] == src[4 + length..] + more;
    }
  }
}
