/** A byte stream cut into chunks at arbitrary places, and the messages read from it. */
module Framing {
  import opened Common
  import opened Wire
  import Codec

  /** Either bytes wait for the rest of a frame, or the stream has failed. */
  datatype Stream = Open(buffered: seq<Byte>) | Broken(error: Error)

  /** Decodes until nothing more can be decoded. */
  function Drain(buf: seq<Byte>): (seq<Message>, Stream)
    decreases |buf|
  {
    match Decode(buf)
    case (Ok(None), rest) => ([], Open(rest))
    case (Err(e), _) => ([], Broken(e))
    case (Ok(Some(m)), rest) =>
      var (ms, end) := Drain(rest);
      ([m] + ms, end)
  }

  /** Appends each chunk in turn and decodes what it can after each. */
  function FeedAll(st: Stream, chunks: seq<seq<Byte>>): (seq<Message>, Stream)
    decreases |chunks|
  {
    if chunks == [] || st.Broken? then ([], st)
    else
      var (ms, next) := Drain(st.buffered + chunks[0]);
      var (more, end) := FeedAll(next, chunks[1..]);
      (ms + more, end)
  }

  function EncodeAll(ms: seq<Message>): seq<Byte> {
    if ms == [] then [] else Encode(ms[0]) + EncodeAll(ms[1..])
  }

  predicate AllWithinLimit(ms: seq<Message>) {
    forall i :: 0 <= i < |ms| ==> WithinLimit(ms[i])
  }

  /** What drains from a buffer drains from any extension of it, and the rest
      resumes from what stayed buffered. */
  lemma {:induction false} DrainResumes(a: seq<Byte>, b: seq<Byte>)
    ensures match Drain(a)
      case (ms, Broken(e)) => Drain(a + b) == (ms, Broken(e))
      case (ms, Open(r)) => Drain(a + b) == (ms + Drain(r + b).0, Drain(r + b).1)
    decreases |a|
  {
    hide Decode;
    match Decode(a)
    case (Ok(None), rest) =>
      assert rest == a;
      assert [] + Drain(a + b).0 == Drain(a + b).0;
    case (Err(e), _) =>
      MoreBytesAgree(a, b);
    case (Ok(Some(m)), rest) =>
      MoreBytesAgree(a, b);
      DrainResumes(rest, b);
      var (ms, end) := Drain(rest);
      if end.Open? {
        assert [m] + (ms + Drain(end.buffered + b).0) == ([m] + ms) + Drain(end.buffered + b).0;
      }
  }

  /** What stays buffered has nothing left to decode. */
  lemma {:induction false} ResidueIsQuiet(a: seq<Byte>)
    ensures Drain(a).1.Open? ==> Drain(Drain(a).1.buffered) == ([], Drain(a).1)
    decreases |a|
  {
    hide Decode;
    match Decode(a)
    case (Ok(Some(_)), rest) => ResidueIsQuiet(rest);
    case _ =>
  }

  lemma {:induction false} FeedAllIsDrain(buffered: seq<Byte>, chunks: seq<seq<Byte>>)
    requires Drain(buffered) == ([], Open(buffered))
    ensures FeedAll(Open(buffered), chunks) == Drain(buffered + Concat(chunks))
    decreases |chunks|
  {
    hide Decode, Drain;
    if chunks == [] {
      assert buffered + [] == buffered;
    } else {
      var a, rest := buffered + chunks[0], Concat(chunks[1..]);
      assert buffered + Concat(chunks) == a + rest;
      DrainResumes(a, rest);
      ResidueIsQuiet(a);
      var (ms, next) := Drain(a);
      if next.Open? {
        FeedAllIsDrain(next.buffered, chunks[1..]);
      } else {
        assert ms + [] == ms;
      }
    }
  }

  /** However a stream is cut into chunks, well-formed or not, the messages read
      and the state reached are those of the uncut stream. */
  lemma ChunkingIsInvisible(chunks: seq<seq<Byte>>)
    ensures FeedAll(Open([]), chunks) == Drain(Concat(chunks))
  {
    FeedAllIsDrain([], chunks);
    assert [] + Concat(chunks) == Concat(chunks);
  }

  lemma DrainEmpty()
    ensures Drain([]) == ([], Open([]))
  {
  }

  /** One whole frame is read off the front. */
  lemma DrainOne(m: Message, tail: seq<Byte>)
    requires WithinLimit(m)
    ensures Drain(Encode(m) + tail) == ([m] + Drain(tail).0, Drain(tail).1)
  {
    DecodeInvertsEncode(m, tail);
    hide Decode, Encode;
  }

  lemma DrainCut(m: Message, p: seq<Byte>)
    requires WithinLimit(m) && p < Encode(m)
    ensures Drain(p) == ([], Open(p))
  {
    CutFrameWaits(m, p);
    hide Decode, Encode;
  }

  /** `k` whole frames have arrived and the next one is incomplete. */
  ghost predicate Arrived(ms: seq<Message>, s: seq<Byte>, k: nat) {
    && k <= |ms| && EncodeAll(ms[..k]) <= s
    && Drain(s) == (ms[..k], Open(s[|EncodeAll(ms[..k])|..]))
    && (k < |ms| ==> |s| < |EncodeAll(ms[..k + 1])|)
    && (s == EncodeAll(ms) ==> k == |ms|)
  }

  lemma EncodeAllStep(ms: seq<Message>, k: nat)
    requires k < |ms|
    ensures ms[..k + 1] == [ms[0]] + ms[1..][..k]
    ensures EncodeAll(ms[..k + 1]) == Encode(ms[0]) + EncodeAll(ms[1..][..k])
  {
    assert ms[..k + 1][1..] == ms[1..][..k];
  }

  /** From any part of an encoded sequence exactly the whole frames are read. */
  lemma {:induction false} NoMessageEarly(ms: seq<Message>, s: seq<Byte>) returns (k: nat)
    requires AllWithinLimit(ms) && s <= EncodeAll(ms)
    ensures Arrived(ms, s, k)
    decreases |ms|
  {
    hide Drain, Encode, WithinLimit;
    if ms == [] {
      k := 0;
      DrainEmpty();
    } else {
      var first, rest := Encode(ms[0]), EncodeAll(ms[1..]);
      EncodeAllStep(ms, 0);
      if |s| < |first| {
        k := 0;
        assert s == (first + rest)[..|s|] == first[..|s|];
        DrainCut(ms[0], s);
      } else {
        var tail := s[|first|..];
        assert s == first + tail && tail <= rest;
        DrainOne(ms[0], tail);
        var j := NoMessageEarly(ms[1..], tail);
        EncodeAllStep(ms, j);
        if j + 1 < |ms| {
          EncodeAllStep(ms, j + 1);
        }
        k := j + 1;
      }
    }
  }

  /** A sequence of messages cut into chunks anywhere is read back whole, with
      nothing left over. */
  lemma FragmentationIndependence(ms: seq<Message>, chunks: seq<seq<Byte>>)
    requires AllWithinLimit(ms) && Concat(chunks) == EncodeAll(ms)
    ensures FeedAll(Open([]), chunks) == (ms, Open([]))
  {
    hide Drain, FeedAll, EncodeAll;
    ChunkingIsInvisible(chunks);
    var k := NoMessageEarly(ms, EncodeAll(ms));
    assert ms[..k] == ms;
    assert EncodeAll(ms)[|EncodeAll(ms)|..] == [];
  }

  /** While only part of the encoding has arrived, what has been read is the
      whole frames among the bytes so far. */
  lemma PartialArrival(ms: seq<Message>, chunks: seq<seq<Byte>>) returns (k: nat)
    requires AllWithinLimit(ms) && Concat(chunks) <= EncodeAll(ms)
    ensures k <= |ms| && FeedAll(Open([]), chunks).0 == ms[..k]
    ensures |EncodeAll(ms[..k])| <= |Concat(chunks)|
    ensures k < |ms| ==> |Concat(chunks)| < |EncodeAll(ms[..k + 1])|
  {
    hide Drain, FeedAll, EncodeAll;
    ChunkingIsInvisible(chunks);
    k := NoMessageEarly(ms, Concat(chunks));
  }

  /** The encodings of two message sequences are equal only if the sequences are. */
  lemma EncodingIsInjective(a: seq<Message>, b: seq<Message>)
    requires AllWithinLimit(a) && AllWithinLimit(b) && EncodeAll(a) == EncodeAll(b)
    ensures a == b
  {
    assert Concat([EncodeAll(a)]) == EncodeAll(a) + Concat([EncodeAll(a)][1..]) == EncodeAll(a);
    FragmentationIndependence(a, [EncodeAll(a)]);
    FragmentationIndependence(b, [EncodeAll(a)]);
  }

  // ----- the same with the codec and its buffer

  /** Decodes from the buffer until it wants more bytes or fails. */
  method DrainBuffer(codec: Codec.PeerCodec, src: Codec.BytesMut) returns (ms: seq<Message>, failure: Option<Error>)
    modifies src
    ensures Drain(old(src.bytes)) ==
      (ms, match failure case None => Open(src.bytes) case Some(e) => Broken(e))
  {
    hide Decode;
    ms, failure := [], None;
    assert [] + Drain(src.bytes).0 == Drain(src.bytes).0;
    while true
      invariant Drain(old(src.bytes)) == (ms + Drain(src.bytes).0, Drain(src.bytes).1)
      decreases |src.bytes|
    {
      ghost var before := src.bytes;
      var r := codec.Decode(src);
      match r
      case Err(e) =>
        assert ms + [] == ms;
        return ms, Some(e);
      case Ok(None) =>
        assert ms + [] == ms;
        return ms, None;
      case Ok(Some(m)) =>
        assert ms + ([m] + Drain(src.bytes).0) == (ms + [m]) + Drain(src.bytes).0;
        ms := ms + [m];
    }
  }

  /** Reads a stream that comes in chunks, as the connection does: append, decode
      what there is, stop at the first failure. */
  method ReadChunks(chunks: seq<seq<Byte>>) returns (ms: seq<Message>, end: Stream)
    ensures (ms, end) == FeedAll(Open([]), chunks)
    ensures (ms, end) == Drain(Concat(chunks))
  {
    hide Drain;
    ChunkingIsInvisible(chunks);
    var codec := new Codec.PeerCodec();
    var src := new Codec.BytesMut([]);
    ms := [];
    assert chunks[0..] == chunks && [] + FeedAll(Open([]), chunks).0 == FeedAll(Open([]), chunks).0;
    for k := 0 to |chunks|
      invariant FeedAll(Open([]), chunks) ==
        (ms + FeedAll(Open(src.bytes), chunks[k..]).0, FeedAll(Open(src.bytes), chunks[k..]).1)
      invariant fresh(src)
    {
      assert chunks[k..][1..] == chunks[k + 1..];
      src.Put(chunks[k]);
      var more, failure := DrainBuffer(codec, src);
      if failure.Some? {
        assert FeedAll(Broken(failure.value), chunks[k + 1..]) == ([], Broken(failure.value));
        assert more + [] == more;
        return ms + more, Broken(failure.value);
      }
      ghost var rest := FeedAll(Open(src.bytes), chunks[k + 1..]).0;
      assert ms + (more + rest) == (ms + more) + rest;
      ms := ms + more;
    }
    assert ms + [] == ms;
    end := Open(src.bytes);
  }
}
