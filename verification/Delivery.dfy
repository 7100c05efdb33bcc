/** From a run of the swarm to the content of the files. */
module Delivery {
  import opened Common
  import opened Piece
  import opened Swarm
  import opened Invariants
  import opened Runs
  import opened Theorems
  import opened Disk
  import Tracking

  // ----- pieces written in any order

  function PieceOf(g: Geometry, flat: seq<Byte>, index: nat): seq<Byte>
    requires g.Consistent() && |flat| == g.totalLength && index < g.numPieces
  {
    PiecesTile(g, index);
    flat[g.PieceOffset(index)..g.PieceOffset(index) + g.PieceLength(index)]
  }

  /** Writing a piece sets its own range and no other piece's. */
  lemma OverwritePiece(g: Geometry, flat: seq<Byte>, p: VerifiedPiece, index: nat)
    requires g.Consistent() && |flat| == g.totalLength && WellSized(g, p) && index < g.numPieces
    ensures g.PieceOffset(p.index) + |p.data| <= |flat|
    ensures PieceOf(g, Overwrite(flat, g.PieceOffset(p.index), p.data), index) ==
            if index == p.index then p.data else PieceOf(g, flat, index)
  {
    hide Overwrite, Geometry.PieceOffset, Geometry.PieceLength;
    PiecesTile(g, p.index);
    PiecesTile(g, index);
    if index < p.index {
      PieceEndsBefore(g, index, p.index);
    } else if p.index < index {
      PieceEndsBefore(g, p.index, index);
    }
    var at := g.PieceOffset(index);
    OverwriteRange(flat, g.PieceOffset(p.index), p.data, at, at + g.PieceLength(index));
  }

  /** The last data written for a piece, if it was written at all. */
  function LastFor(pieces: seq<VerifiedPiece>, index: nat): Option<seq<Byte>> {
    if pieces == [] then None
    else if pieces[|pieces| - 1].index == index then Some(pieces[|pieces| - 1].data)
    else LastFor(pieces[..|pieces| - 1], index)
  }

  /** After any sequence of writes each piece range holds what was last written
      for that piece, and is untouched if nothing was. */
  lemma {:induction false} WrittenHolds(g: Geometry, flat: seq<Byte>, pieces: seq<VerifiedPiece>, index: nat)
    requires g.Consistent() && |flat| == g.totalLength && AllWellSized(g, pieces) && index < g.numPieces
    ensures PieceOf(g, Written(g, flat, pieces), index) ==
            match LastFor(pieces, index) case Some(data) => data case None => PieceOf(g, flat, index)
    decreases |pieces|
  {
    if pieces != [] {
      var front, last := pieces[..|pieces| - 1], pieces[|pieces| - 1];
      WrittenHolds(g, flat, front, index);
      OverwritePiece(g, Written(g, flat, front), last, index);
    }
  }

  lemma {:induction false} LastForIsMember(pieces: seq<VerifiedPiece>, index: nat)
    ensures match LastFor(pieces, index)
      case Some(data) => VerifiedPiece(index, data) in pieces
      case None => forall p :: p in pieces ==> p.index != index
  {
    if pieces != [] {
      var front, last := pieces[..|pieces| - 1], pieces[|pieces| - 1];
      LastForIsMember(front, index);
      assert pieces == front + [last];
    }
  }

  /** Where byte `pos` of the stream is in its piece. */
  lemma PieceByte(g: Geometry, flat: seq<Byte>, pos: nat)
    requires g.Consistent() && |flat| == g.totalLength && pos < g.totalLength
    ensures var i := PieceAt(g, pos);
      i < g.numPieces && g.PieceOffset(i) <= pos
      && pos - g.PieceOffset(i) < |PieceOf(g, flat, i)|
      && PieceOf(g, flat, i)[pos - g.PieceOffset(i)] == flat[pos]
  {
    var i := PieceAt(g, pos);
    PiecesPartition(g, pos, i);
    PiecesTile(g, i);
    hide Geometry.PieceOffset, Geometry.PieceLength, PieceAt;
    var a, b := g.PieceOffset(i), g.PieceOffset(i) + g.PieceLength(i);
    assert flat[a..b][pos - a] == flat[pos];
  }

  /** A stream is determined by its pieces. */
  lemma SameByPieces(g: Geometry, a: seq<Byte>, b: seq<Byte>)
    requires g.Consistent() && |a| == |b| == g.totalLength
    requires forall i: nat :: i < g.numPieces ==> PieceOf(g, a, i) == PieceOf(g, b, i)
    ensures a == b
  {
    forall p: nat | p < |a| ensures a[p] == b[p] {
      PieceByte(g, a, p);
      PieceByte(g, b, p);
    }
  }

  /** All data given for one index is the same. */
  ghost predicate Agree(pieces: seq<VerifiedPiece>) {
    forall p, q :: p in pieces && q in pieces && p.index == q.index ==> p == q
  }

  /** Neither the order of the writes nor repeated writes matter: the same pieces
      give the same stream. */
  lemma OrderDoesNotMatter(g: Geometry, flat: seq<Byte>, ps: seq<VerifiedPiece>, qs: seq<VerifiedPiece>)
    requires g.Consistent() && |flat| == g.totalLength && AllWellSized(g, ps) && AllWellSized(g, qs)
    requires Agree(ps) && forall p :: p in ps <==> p in qs
    ensures Written(g, flat, ps) == Written(g, flat, qs)
  {
    forall i: nat | i < g.numPieces
      ensures PieceOf(g, Written(g, flat, ps), i) == PieceOf(g, Written(g, flat, qs), i)
    {
      WrittenHolds(g, flat, ps, i);
      WrittenHolds(g, flat, qs, i);
      LastForIsMember(ps, i);
      LastForIsMember(qs, i);
    }
    SameByPieces(g, Written(g, flat, ps), Written(g, flat, qs));
  }

  /** Pieces of `content`, written in any order, with repeats: every byte whose
      piece was written is the content's byte, every other byte is unchanged. */
  lemma WritesRebuildContent(g: Geometry, flat: seq<Byte>, content: seq<Byte>, pieces: seq<VerifiedPiece>, pos: nat)
    requires g.Consistent() && |flat| == |content| == g.totalLength && pos < g.totalLength
    requires AllWellSized(g, pieces)
    requires forall p :: p in pieces && p.index < g.numPieces ==> p.data == PieceOf(g, content, p.index)
    ensures Written(g, flat, pieces)[pos] ==
      if exists p :: p in pieces && p.index == PieceAt(g, pos) then content[pos] else flat[pos]
  {
    hide PieceOf, PieceAt, Written, Geometry.PieceOffset, Geometry.PieceLength, LastFor;
    var i := PieceAt(g, pos);
    PieceByte(g, flat, pos);
    PieceByte(g, content, pos);
    PieceByte(g, Written(g, flat, pieces), pos);
    WrittenHolds(g, flat, pieces, i);
    LastForIsMember(pieces, i);
  }

  // ----- the whole way

  /** `content` is what the torrent's hashes were made from. */
  ghost predicate Describes(c: Config, content: seq<Byte>)
    requires c.WellFormed()
  {
    && |content| == c.geometry.totalLength
    && forall i: nat :: i < c.Count() ==> c.Verifies(i, PieceOf(c.geometry, content, i))
  }

  /** No piece that this run emitted has the hash of the content's piece without
      having its bytes. */
  ghost predicate NoCollision(c: Config, content: seq<Byte>, pieces: seq<VerifiedPiece>)
    requires c.WellFormed() && |content| == c.geometry.totalLength
  {
    forall p ::
      p in pieces && p.index < c.Count() && c.sha1(p.data) == c.sha1(PieceOf(c.geometry, content, p.index)) ==>
        p.data == PieceOf(c.geometry, content, p.index)
  }

  lemma SentIsWellSized(c: Config, pieces: seq<VerifiedPiece>)
    requires c.WellFormed() && forall p :: p in pieces ==> Sound(c, p)
    ensures AllWellSized(c.geometry, pieces)
  {
    forall k | 0 <= k < |pieces| ensures WellSized(c.geometry, pieces[k]) {
      assert pieces[k] in pieces;
    }
  }

  /** For every interleaving of sessions and every stream of messages: once the
      run has returned with the torrent complete and nothing was lost on the way
      to the disk, writing what was sent makes every piece range of the files
      hash to its expected digest, whatever the files held before. */
  lemma DownloadVerifies(
    c: Config, peers: nat, states: seq<State>, actions: seq<Action>, n: nat, flat: seq<Byte>, i: nat)
    requires c.WellFormed() && IsRun(c, peers, states, actions) && n < |states|
    requires HasReturned(states[n]) && states[n].shared.tracker.IsComplete() && states[n].shared.lost == []
    requires |flat| == c.geometry.totalLength && i < c.Count()
    ensures AllWellSized(c.geometry, states[n].shared.sent)
    ensures c.Verifies(i, PieceOf(c.geometry, Written(c.geometry, flat, states[n].shared.sent), i))
  {
    hide CanAct, Act, Init, AvailabilityExact, ClaimsExact, ExactlyOnce, SessionInv, Written;
    var s := states[n];
    RunHolds(c, peers, states, actions, n);
    SentIsWellSized(c, s.shared.sent);
    assert i in s.shared.tracker.have by { assert i in Below(c.Count()); }
    ReturnedRunSentEverything(c, s, i);
    WrittenHolds(c.geometry, flat, s.shared.sent, i);
    LastForIsMember(s.shared.sent, i);
  }

  /** What was sent for a piece is what its range of the files holds. */
  lemma SentIsWritten(
    c: Config, peers: nat, states: seq<State>, actions: seq<Action>, n: nat, flat: seq<Byte>, p: VerifiedPiece)
    requires c.WellFormed() && IsRun(c, peers, states, actions) && n < |states|
    requires |flat| == c.geometry.totalLength && p in states[n].shared.sent
    ensures p.index < c.Count() && c.Verifies(p.index, p.data)
    ensures AllWellSized(c.geometry, states[n].shared.sent)
    ensures PieceOf(c.geometry, Written(c.geometry, flat, states[n].shared.sent), p.index) == p.data
  {
    hide CanAct, Act, Init, AvailabilityExact, ClaimsExact, SessionInv, Written;
    var s := states[n];
    RunHolds(c, peers, states, actions, n);
    EmittedExactlyOnce(c, peers, states, actions, n);
    SentIsWellSized(c, s.shared.sent);
    WrittenHolds(c.geometry, flat, s.shared.sent, p.index);
    LastForIsMember(s.shared.sent, p.index);
    SameIndexSamePiece(s.shared.sent, p, VerifiedPiece(p.index, LastFor(s.shared.sent, p.index).value));
  }

  lemma SameIndexSamePiece(ps: seq<VerifiedPiece>, p: VerifiedPiece, q: VerifiedPiece)
    requires AllDifferent(ps) && p in ps && q in ps && p.index == q.index
    ensures p == q
  {
  }

  /** The files hold the content that the torrent describes exactly when no piece
      of this run collided with it. */
  lemma DownloadIsContent(
    c: Config, peers: nat, states: seq<State>, actions: seq<Action>, n: nat, flat: seq<Byte>, content: seq<Byte>)
    requires c.WellFormed() && IsRun(c, peers, states, actions) && n < |states|
    requires HasReturned(states[n]) && states[n].shared.tracker.IsComplete() && states[n].shared.lost == []
    requires |flat| == c.geometry.totalLength && Describes(c, content)
    ensures AllWellSized(c.geometry, states[n].shared.sent)
    ensures Written(c.geometry, flat, states[n].shared.sent) == content <==>
      NoCollision(c, content, states[n].shared.sent)
  {
    hide IsRun, HasReturned, Written, Tracking.Tracker.IsComplete;
    var sent := states[n].shared.sent;
    DownloadVerifies(c, peers, states, actions, n, flat, 0);
    var final := Written(c.geometry, flat, sent);
    forall p | p in sent
      ensures p.index < c.Count() && c.Verifies(p.index, p.data)
      ensures PieceOf(c.geometry, final, p.index) == p.data
    {
      SentIsWritten(c, peers, states, actions, n, flat, p);
    }
    if NoCollision(c, content, sent) {
      forall i: nat | i < c.Count() ensures PieceOf(c.geometry, final, i) == PieceOf(c.geometry, content, i) {
        SomethingSent(c, peers, states, actions, n, i);
      }
      SameByPieces(c.geometry, final, content);
    }
  }

  lemma SomethingSent(c: Config, peers: nat, states: seq<State>, actions: seq<Action>, n: nat, i: nat)
    requires c.WellFormed() && IsRun(c, peers, states, actions) && n < |states|
    requires HasReturned(states[n]) && states[n].shared.tracker.IsComplete() && states[n].shared.lost == []
    requires i < c.Count()
    ensures exists p :: p in states[n].shared.sent && p.index == i
  {
    hide CanAct, Act, Init, AvailabilityExact, ClaimsExact, ExactlyOnce, SessionInv;
    RunHolds(c, peers, states, actions, n);
    assert i in states[n].shared.tracker.have by { assert i in Below(c.Count()); }
    ReturnedRunSentEverything(c, states[n], i);
  }

  /** The same with the storage object: after draining the channel of a finished
      run into freshly created files, every piece range of the files joined
      together has its expected hash; and the files are the content exactly when
      no piece collided with it. */
  method AssembleDownload(
    c: Config, lengths: seq<u64>,
    ghost peers: nat, ghost states: seq<State>, ghost actions: seq<Action>, ghost content: seq<Byte>,
    sent: seq<VerifiedPiece>) returns (r: Result<Storage>)
    requires c.WellFormed() && IsRun(c, peers, states, actions)
    requires var s := states[|actions|];
      HasReturned(s) && s.shared.tracker.IsComplete() && s.shared.lost == [] && sent == s.shared.sent
    requires c.geometry.totalLength == Sum(lengths) % U64_LIMIT
    ensures r.Ok? <==> Sum(lengths) < U64_LIMIT
    ensures r.Ok? ==> fresh(r.value) && r.value.Valid() && |r.value.Stream()| == c.geometry.totalLength
    ensures r.Ok? ==> forall i: nat :: i < c.Count() ==> c.Verifies(i, PieceOf(c.geometry, r.value.Stream(), i))
    ensures r.Ok? && Describes(c, content) ==> (r.value.Stream() == content <==> NoCollision(c, content, sent))
    ensures r.Ok? ==> |r.value.contents| == |lengths|
                      && forall i :: 0 <= i < |lengths| ==> |r.value.contents[i]| == lengths[i]
  {
    assert |states| == |actions| + 1;
    hide IsRun, HasReturned, Tracking.Tracker.IsComplete, Concat, Written, Disk.EndToEnd, TotalOf, Storage.Stream,
      Describes, NoCollision, PieceOf;
    var files := BuildFileMap(lengths);
    if files.Err? {
      return Err(files.error);
    }
    var storage := new Storage(c.geometry, files.value);
    ghost var flat := storage.Stream();
    DownloadVerifies(c, peers, states, actions, |actions|, flat, 0);
    SizedPiecesFit(c.geometry, flat, sent);
    var w := storage.Assemble(sent);
    forall i: nat | i < c.Count() ensures c.Verifies(i, PieceOf(c.geometry, storage.Stream(), i)) {
      DownloadVerifies(c, peers, states, actions, |actions|, flat, i);
    }
    if Describes(c, content) {
      DownloadIsContent(c, peers, states, actions, |actions|, flat, content);
    }
    return Ok(storage);
  }

  /** Each file is its slice of the stream. */
  lemma FileIsSlice(files: seq<MappedFile>, contents: seq<seq<Byte>>, i: nat)
    requires Disk.EndToEnd(files) && Fits(files, contents) && i < |files|
    ensures files[i].offset + files[i].length <= |Concat(contents)|
    ensures contents[i] == Concat(contents)[files[i].offset..files[i].offset + files[i].length]
  {
    ConcatSplit(contents, i);
    ConcatLength(files, contents, i);
  }

  lemma {:induction false} ConcatSplit(contents: seq<seq<Byte>>, i: nat)
    requires i < |contents|
    ensures Concat(contents) == Concat(contents[..i]) + contents[i] + Concat(contents[i + 1..])
  {
    if i == 0 {
      assert contents[..0] == [];
    } else {
      ConcatSplit(contents[1..], i - 1);
      assert contents[..i][1..] == contents[1..][..i - 1];
      assert contents[1..][i..] == contents[i + 1..];
    }
  }
}
