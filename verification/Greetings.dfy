/** How a peer makes known what it has, and what of it the wire lets through. */
module Greetings {
  import opened Common
  import opened Wire
  import Framing
  import Bitfields

  /** The message may come before the peer unchokes: it advertises pieces, with a
      bitfield of the right length if with one, or it is one that is ignored. */
  predicate Introduces(m: Message, n: nat) {
    && !m.Choke? && !m.Unchoke? && !m.Piece?
    && (m.Bitfield? ==> Bitfields.FromWire(m.bits, n).Ok?)
  }

  /** What the peer is known to have after one more message. */
  function Learn(has: set<nat>, m: Message, n: nat): set<nat> {
    match m
    case Have(index) => if index < n then has + {index} else has
    case Bitfield(bits) => if Bitfields.FromWire(bits, n).Ok? then Bitfields.FromWire(bits, n).value else has
    case _ => has
  }

  function LearnAll(ms: seq<Message>, n: nat): set<nat> {
    if ms == [] then {} else Learn(LearnAll(ms[..|ms| - 1], n), ms[|ms| - 1], n)
  }

  /** A greeting is a list of introductions that together advertise every piece. */
  predicate IsGreeting(ms: seq<Message>, n: nat) {
    (forall i :: 0 <= i < |ms| ==> Introduces(ms[i], n)) && LearnAll(ms, n) == Below(n)
  }

  // ----- one bitfield

  /** The largest number of pieces whose bitfield fits into a frame. */
  const BITFIELD_LIMIT: nat := 8 * (MAX_MESSAGE_LEN - 1)

  lemma BitfieldFitsIff(bits: seq<Byte>, n: nat)
    requires Bitfields.FromWire(bits, n).Ok?
    ensures WithinLimit(Bitfield(bits)) <==> n <= BITFIELD_LIMIT
  {
    hide Bitfields.Indices, Bitfields.Pack;
    assert |Body(Bitfield(bits))| == 1 + |bits|;
  }

  lemma BitfieldGreets(n: nat) returns (bits: seq<Byte>)
    ensures Bitfields.FromWire(bits, n) == Ok(Below(n)) && IsGreeting([Bitfield(bits)], n)
  {
    var bytes := Bitfields.WireFormExists(Below(n), n);
    Bitfields.PackUnpack(bytes);
    bits := Bitfields.Unpack(bytes);
    OneBitfieldGreets(bits, n);
  }

  lemma OneBitfieldGreets(bits: seq<Byte>, n: nat)
    requires Bitfields.FromWire(bits, n) == Ok(Below(n))
    ensures IsGreeting([Bitfield(bits)], n)
  {
    hide Bitfields.FromWire, Below;
    var ms := [Bitfield(bits)];
    assert ms[..0] == [] && ms[|ms| - 1] == ms[0];
  }

  // ----- one `have` after another

  function Haves(n: nat): (ms: seq<Message>)
    requires n <= U32_LIMIT
    ensures |ms| == n
  {
    seq(n, i requires 0 <= i < n => Have(i))
  }

  lemma {:induction false} HavesTeach(k: nat, n: nat)
    requires k <= n <= U32_LIMIT
    ensures LearnAll(Haves(n)[..k], n) == Below(k)
  {
    hide Bitfields.FromWire;
    if k > 0 {
      HavesTeach(k - 1, n);
      assert Haves(n)[..k][..k - 1] == Haves(n)[..k - 1];
      assert Below(k - 1) + {k - 1} == Below(k);
    }
  }

  /** Any number of pieces can be advertised within the limit. */
  lemma HavesGreet(n: nat)
    requires n <= U32_LIMIT
    ensures IsGreeting(Haves(n), n) && Framing.AllWithinLimit(Haves(n))
  {
    HavesTeach(n, n);
    assert Haves(n)[..n] == Haves(n);
    forall i | 0 <= i < n ensures WithinLimit(Haves(n)[i]) {
      GetPutU32(i, []);
    }
  }

  // ----- what arrives

  /** What a message comes out as at the other end of the wire. */
  function Heard(m: Message): Result<Message> {
    match Decode(Encode(m)).0
    case Ok(Some(got)) => Ok(got)
    case Ok(None) => Err(PeerProtocol("incomplete"))
    case Err(e) => Err(e)
  }

  /** A message is heard as what it is, or it ends the stream; and it is the limit
      that decides. */
  lemma HeardIff(m: Message)
    requires |Body(m)| < U32_LIMIT
    ensures WithinLimit(m) ==> Heard(m) == Ok(m)
    ensures !WithinLimit(m) ==> Heard(m).Err? && Decode(Encode(m)).0.Err?
  {
    hide Encode, Decode, Body;
    if WithinLimit(m) {
      RoundTripIff(m);
    } else {
      assert Encode(m) + [] == Encode(m);
      TooLongFails(m, []);
    }
  }

  /** A frame beyond the limit ends the stream as soon as its length is there. */
  lemma TooLongBreaks(m: Message, rest: seq<Byte>)
    requires MAX_MESSAGE_LEN < |Body(m)| < U32_LIMIT
    ensures Framing.Drain(Encode(m) + rest).0 == [] && Framing.Drain(Encode(m) + rest).1.Broken?
  {
    TooLongFails(m, rest);
    hide Decode, Encode, Body;
  }

  lemma TooLongFails(m: Message, rest: seq<Byte>)
    requires MAX_MESSAGE_LEN < |Body(m)| < U32_LIMIT
    ensures Decode(Encode(m) + rest).0.Err?
  {
    hide GetU32, PutU32, Body, ParseBody;
    assert Encode(m) + rest == PutU32(|Body(m)|) + (Body(m) + rest);
    GetPutU32(|Body(m)|, Body(m) + rest);
  }

  lemma {:induction false} DrainsPrefix(ms: seq<Message>, tail: seq<Byte>)
    requires Framing.AllWithinLimit(ms)
    ensures Framing.Drain(Framing.EncodeAll(ms) + tail) == (ms + Framing.Drain(tail).0, Framing.Drain(tail).1)
  {
    hide Framing.Drain, Encode, WithinLimit;
    if ms == [] {
      assert [] + tail == tail && [] + Framing.Drain(tail).0 == Framing.Drain(tail).0;
    } else {
      var rest := Framing.EncodeAll(ms[1..]) + tail;
      assert Framing.EncodeAll(ms) + tail == Encode(ms[0]) + rest;
      Framing.DrainOne(ms[0], rest);
      DrainsPrefix(ms[1..], tail);
      assert [ms[0]] + (ms[1..] + Framing.Drain(tail).0) == ms + Framing.Drain(tail).0;
    }
  }

  /** However the bytes are cut: messages within the limit are all read, and the
      first one beyond it ends the stream, whatever follows. */
  lemma ReadUpToTooLong(ms: seq<Message>, m: Message, more: seq<Byte>, chunks: seq<seq<Byte>>)
    requires Framing.AllWithinLimit(ms) && MAX_MESSAGE_LEN < |Body(m)| < U32_LIMIT
    requires Concat(chunks) == Framing.EncodeAll(ms) + (Encode(m) + more)
    ensures Framing.FeedAll(Framing.Open([]), chunks).0 == ms
    ensures Framing.FeedAll(Framing.Open([]), chunks).1.Broken?
  {
    Framing.ChunkingIsInvisible(chunks);
    DrainsPrefix(ms, Encode(m) + more);
    TooLongBreaks(m, more);
    hide Framing.Drain, Framing.FeedAll;
    assert ms + [] == ms;
  }
}
