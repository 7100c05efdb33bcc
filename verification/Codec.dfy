/** The codec over growable buffers: `PeerCodec` in `src/peer/message.rs`. */
module Codec {
  import opened Common
  import opened Wire

  /** A growable byte buffer, consumed from the front and extended at the back. */
  class BytesMut {
    var bytes: seq<Byte>

    constructor (initial: seq<Byte>)
      ensures bytes == initial
    {
      bytes := initial;
    }

    method Advance(count: nat)
      requires count <= |bytes|
      modifies this
      ensures bytes == old(bytes)[count..]
    {
      bytes := bytes[count..];
    }

    method SplitTo(at: nat) returns (front: BytesMut)
      requires at <= |bytes|
      modifies this
      ensures fresh(front) && front.bytes == old(bytes)[..at] && bytes == old(bytes)[at..]
    {
      front := new BytesMut(bytes[..at]);
      bytes := bytes[at..];
    }

    method TakeU32() returns (n: u32)
      requires |bytes| >= 4
      modifies this
      ensures n == GetU32(old(bytes)) && bytes == old(bytes)[4..]
    {
      n := GetU32(bytes);
      Advance(4);
    }

    method Put(more: seq<Byte>)
      modifies this
      ensures bytes == old(bytes) + more
    {
      bytes := bytes + more;
    }
  }

  class PeerCodec {
    constructor () {}

    /** Takes one frame off the front of `src`, if a whole one is there. */
    method Decode(src: BytesMut) returns (r: Result<Option<Message>>)
      modifies src
      ensures (r, src.bytes) == Wire.Decode(old(src.bytes))
    {
      if |src.bytes| < 4 {
        return Ok(None);
      }
      var length := GetU32(src.bytes);
      if length == 0 {
        src.Advance(4);
        return Ok(Some(KeepAlive));
      }
      if length > MAX_MESSAGE_LEN {
        return Err(PeerProtocol("declared message length exceeds maximum"));
      }
      if |src.bytes| < 4 + length {
        return Ok(None);
      }
      src.Advance(4);
      var body := src.SplitTo(length);
      var id := body.bytes[0];
      body.Advance(1);
      ghost var payload := old(src.bytes)[5..4 + length];
      assert body.bytes == payload;
      var message := ReadBody(id, body);
      if message.Err? {
        return Err(message.error);
      }
      return Ok(Some(message.value));
    }

    /** Reads the payload that the id announces. */
    method ReadBody(id: Byte, body: BytesMut) returns (r: Result<Message>)
      modifies body
      ensures r == ParseBody(id, old(body.bytes))
    {
      hide GetU32;
      var size := |body.bytes|;
      if id == CHOKE {
        return ExpectEmpty(body.bytes, Choke);
      } else if id == UNCHOKE {
        return ExpectEmpty(body.bytes, Unchoke);
      } else if id == INTERESTED {
        return ExpectEmpty(body.bytes, Interested);
      } else if id == NOT_INTERESTED {
        return ExpectEmpty(body.bytes, NotInterested);
      } else if id == HAVE {
        if size != 4 { return Err(PeerProtocol("have")); }
        var index := body.TakeU32();
        return Ok(Have(index));
      } else if id == BITFIELD {
        return Ok(Bitfield(body.bytes));
      } else if id == REQUEST {
        if size != 12 { return Err(PeerProtocol("request")); }
        var b := ReadBlockInfo(body);
        return Ok(Request(b));
      } else if id == PIECE {
        if size < 8 { return Err(PeerProtocol("piece")); }
        var index := body.TakeU32();
        var begin := body.TakeU32();
        assert body.bytes == old(body.bytes)[8..];
        return Ok(Piece(Block(index, begin, body.bytes)));
      } else if id == CANCEL {
        if size != 12 { return Err(PeerProtocol("cancel")); }
        var b := ReadBlockInfo(body);
        return Ok(Cancel(b));
      } else if id == PORT {
        if size != 2 { return Err(PeerProtocol("port")); }
        return Ok(Port(GetU16(body.bytes)));
      }
      return Err(PeerProtocol("unknown message id"));
    }

    method ReadBlockInfo(body: BytesMut) returns (b: BlockInfo)
      requires |body.bytes| == 12
      modifies body
      ensures b == GetBlockInfo(old(body.bytes))
    {
      hide GetU32;
      var index := body.TakeU32();
      var begin := body.TakeU32();
      assert body.bytes == old(body.bytes)[8..];
      var length := body.TakeU32();
      b := BlockInfo(index, begin, length);
    }

    /** Appends the frame of `item` to `dst`. */
    method Encode(item: Message, dst: BytesMut)
      modifies dst
      ensures dst.bytes == old(dst.bytes) + Wire.Encode(item)
    {
      hide PutU32;
      match item
      case KeepAlive => dst.Put(PutU32(0));
      case Choke => PutSimple(dst, CHOKE);
      case Unchoke => PutSimple(dst, UNCHOKE);
      case Interested => PutSimple(dst, INTERESTED);
      case NotInterested => PutSimple(dst, NOT_INTERESTED);
      case Have(index) =>
        PutU32Length(index);
        PutTagged(dst, 5, HAVE, PutU32(index));
      case Bitfield(bits) =>
        WrapOnce(1, |bits|);
        PutTagged(dst, (1 + |bits| % U32_LIMIT) % U32_LIMIT, BITFIELD, bits);
      case Request(b) => PutTriple(dst, REQUEST, b);
      case Cancel(b) => PutTriple(dst, CANCEL, b);
      case Piece(block) => PutPiece(dst, block);
      case Port(port) => PutTagged(dst, 3, PORT, PutU16(port));
    }

    /** A declared length, an id byte and a payload. */
    method PutTagged(dst: BytesMut, length: u32, id: Byte, payload: seq<Byte>)
      modifies dst
      ensures dst.bytes == old(dst.bytes) + (PutU32(length) + ([id] + payload))
    {
      hide PutU32;
      dst.Put(PutU32(length));
      dst.Put([id]);
      dst.Put(payload);
    }

    method PutPiece(dst: BytesMut, block: Block)
      modifies dst
      ensures dst.bytes == old(dst.bytes) + Wire.Encode(Piece(block))
    {
      PieceInParts(block);
      hide PutU32, Wire.Encode, Body;
      PutTagged(dst, (9 + |block.data| % U32_LIMIT) % U32_LIMIT, PIECE, PutU32(block.index) + PutU32(block.begin));
      dst.Put(block.data);
    }

    method PutSimple(dst: BytesMut, id: Byte)
      modifies dst
      ensures dst.bytes == old(dst.bytes) + (PutU32(1) + [id])
    {
      dst.Put(PutU32(1));
      dst.Put([id]);
    }

    method PutTriple(dst: BytesMut, id: Byte, b: BlockInfo)
      modifies dst
      ensures dst.bytes == old(dst.bytes) + (PutU32(13) + ([id] + PutBlockInfo(b)))
      ensures |PutBlockInfo(b)| == 12
    {
      hide PutU32;
      PutU32Length(b.index);
      PutU32Length(b.begin);
      PutU32Length(b.length);
      dst.Put(PutU32(13));
      dst.Put([id]);
      dst.Put(PutU32(b.index));
      dst.Put(PutU32(b.begin));
      dst.Put(PutU32(b.length));
    }
  }

  lemma PutU32Length(n: u32)
    ensures |PutU32(n)| == 4
  {
  }

  lemma PieceInParts(block: Block)
    ensures Wire.Encode(Piece(block)) ==
      PutU32((9 + |block.data| % U32_LIMIT) % U32_LIMIT)
      + ([PIECE] + (PutU32(block.index) + PutU32(block.begin))) + block.data
  {
    PutU32Length(block.index);
    PutU32Length(block.begin);
    WrapOnce(9, |block.data|);
    hide PutU32;
    var header := PutU32(block.index) + PutU32(block.begin);
    assert Body(Piece(block)) == ([PIECE] + header) + block.data;
  }

  lemma WrapOnce(a: nat, b: nat)
    ensures (a + b % U32_LIMIT) % U32_LIMIT == (a + b) % U32_LIMIT
  {
  }
}
