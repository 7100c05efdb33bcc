/** Piece and block arithmetic, and the assembly of one piece: `src/download/piece.rs`. */
module Piece {
  import opened Common
  import Metainfo
  import opened Wire

  const BLOCK_SIZE: int := 16384

  datatype Geometry = Geometry(
    totalLength: u64,
    pieceLength: u32,
    numPieces: u32,
    lastPieceLength: u32)
  {
    /** What `FromInfo` guarantees of the geometry it returns. */
    predicate Consistent() {
      && 0 < pieceLength && 0 < numPieces
      && 0 < lastPieceLength <= pieceLength
      && totalLength == (numPieces - 1) * pieceLength + lastPieceLength
    }

    function PieceOffset(index: nat): nat {
      index * pieceLength
    }

    function PieceLength(index: nat): u32 {
      if index + 1 == numPieces then lastPieceLength else pieceLength
    }

    function NumBlocks(index: nat): nat {
      DivCeil(PieceLength(index), BLOCK_SIZE)
    }

    /** The length of block `k`: full, except for a shorter final block. */
    function BlockLength(index: nat, k: nat): nat
      requires k * BLOCK_SIZE < PieceLength(index)
    {
      Min(BLOCK_SIZE, PieceLength(index) - k * BLOCK_SIZE)
    }

    /** The request for block `k`, in 32-bit arithmetic. */
    function BlockInfoAt(index: nat, k: nat): BlockInfo {
      var begin := k * BLOCK_SIZE % U32_LIMIT;
      BlockInfo(index % U32_LIMIT, begin, Min(BLOCK_SIZE, (PieceLength(index) - begin) % U32_LIMIT))
    }
  }

  function FromInfo(info: Metainfo.Info): Result<Geometry> {
    var totalLength :- Metainfo.TotalLength(info);
    if info.pieceLength >= U32_LIMIT then
      Err(PeerProtocol("piece length exceeds u32"))
    else if info.pieceLength == 0 then
      Err(PeerProtocol("piece length is zero"))
    else
      var numPieces := PieceCount(info);
      if numPieces == 0 then
        Err(PeerProtocol("torrent has zero pieces"))
      else
        var full := (numPieces - 1) * info.pieceLength;
        if totalLength < full then
          Err(PeerProtocol("piece count exceeds total length"))
        else
          var last := totalLength - full;
          if last == 0 || last > info.pieceLength then
            Err(PeerProtocol("inconsistent total length, piece length, and piece count"))
          else
            Ok(Geometry(totalLength, info.pieceLength, numPieces, last))
  }

  /** `count` pieces of the given length reach the total, and none is idle. */
  predicate CountFits(total: nat, length: nat, count: nat) {
    count > 0 && (count - 1) * length < total <= (count - 1) * length + length
  }

  /** The number of pieces as the geometry keeps it, in 32 bits. */
  function PieceCount(info: Metainfo.Info): u32 {
    Metainfo.NumPieces(info) % U32_LIMIT
  }

  lemma FromInfoShape(info: Metainfo.Info)
    ensures FromInfo(info).Ok? <==>
      && Metainfo.TotalLength(info).Ok?
      && 0 < info.pieceLength < U32_LIMIT
      && CountFits(Metainfo.TotalLength(info).value, info.pieceLength, PieceCount(info))
    ensures FromInfo(info).Ok? ==>
      && FromInfo(info).value.Consistent()
      && FromInfo(info).value.numPieces == PieceCount(info)
      && FromInfo(info).value.totalLength == Metainfo.TotalLength(info).value
      && FromInfo(info).value.pieceLength == info.pieceLength
  {
  }

  /** A torrent is accepted exactly when it is not empty, its piece length is a
      positive 32-bit number, and its hashes, counted in 32 bits, are as many as
      the pieces needed. */
  lemma FromInfoAcceptsIff(info: Metainfo.Info)
    ensures FromInfo(info).Ok? <==>
      && Metainfo.TotalLength(info).Ok?
      && 0 < info.pieceLength < U32_LIMIT
      && 0 < Metainfo.TotalLength(info).value
      && PieceCount(info) == DivCeil(Metainfo.TotalLength(info).value, info.pieceLength)
    ensures FromInfo(info).Ok? ==>
      && FromInfo(info).value.Consistent()
      && FromInfo(info).value.numPieces == PieceCount(info)
      && FromInfo(info).value.totalLength == Metainfo.TotalLength(info).value
      && FromInfo(info).value.pieceLength == info.pieceLength
  {
    FromInfoShape(info);
    if Metainfo.TotalLength(info).Ok? && 0 < info.pieceLength < U32_LIMIT {
      CeilingIsUnique(Metainfo.TotalLength(info).value, info.pieceLength, PieceCount(info));
    }
  }

  lemma CeilingIsUnique(total: nat, length: nat, count: nat)
    requires length > 0
    ensures CountFits(total, length, count) <==> total > 0 && count == DivCeil(total, length)
  {
    var q := DivCeil(total, length);
    DivCeilBounds(total, length);
    if 0 < count < q {
      Scale(count, q - 1, length);
    } else if count > q {
      Scale(q, count - 1, length);
    }
  }

  lemma Scale(a: nat, b: nat, m: nat)
    requires a <= b
    ensures a * m <= b * m
  {
    assert b * m == a * m + (b - a) * m;
  }

  /** Pieces follow one another without gap or overlap and end at the total. */
  lemma PiecesTile(g: Geometry, index: nat)
    requires g.Consistent() && index < g.numPieces
    ensures g.PieceLength(index) > 0
    ensures g.PieceOffset(index) + g.PieceLength(index) ==
            if index + 1 == g.numPieces then g.totalLength else g.PieceOffset(index + 1)
    ensures g.PieceOffset(index) + g.PieceLength(index) <= g.totalLength
  {
    if index + 1 < g.numPieces {
      Scale(index + 1, g.numPieces - 1, g.pieceLength);
    }
  }

  /** The piece that holds stream position `p`. */
  function PieceAt(g: Geometry, p: nat): nat
    requires g.Consistent() && p < g.totalLength
  {
    p / g.pieceLength
  }

  /** Every stream position lies in one piece and in no other. */
  lemma PiecesPartition(g: Geometry, p: nat, index: nat)
    requires g.Consistent() && p < g.totalLength
    ensures PieceAt(g, p) < g.numPieces
    ensures index < g.numPieces ==>
      (index == PieceAt(g, p) <==> g.PieceOffset(index) <= p < g.PieceOffset(index) + g.PieceLength(index))
  {
    SlotHoldsOnly(g, p, PieceAt(g, p), index);
  }

  lemma SlotHoldsOnly(g: Geometry, p: nat, q: nat, index: nat)
    requires g.Consistent() && p < g.totalLength
    requires q * g.pieceLength <= p < q * g.pieceLength + g.pieceLength
    ensures q < g.numPieces
    ensures index < g.numPieces ==>
      (index == q <==> g.PieceOffset(index) <= p < g.PieceOffset(index) + g.PieceLength(index))
  {
    hide Geometry.PieceLength;
    SlotExists(g, p, q);
    if index < q {
      PieceEndsBefore(g, index, q);
    } else if q < index < g.numPieces {
      PieceEndsBefore(g, q, index);
      SlotIsPiece(g, p, q);
    } else if index == q {
      SlotIsPiece(g, p, q);
    }
  }

  lemma SlotExists(g: Geometry, p: nat, q: nat)
    requires g.Consistent() && p < g.totalLength && q * g.pieceLength <= p
    ensures q < g.numPieces
  {
    assert g.numPieces * g.pieceLength == (g.numPieces - 1) * g.pieceLength + g.pieceLength;
    if q >= g.numPieces {
      Scale(g.numPieces, q, g.pieceLength);
      assert false;
    }
  }

  /** A position in the slot of a piece lies in the piece, even in the last one. */
  lemma SlotIsPiece(g: Geometry, p: nat, q: nat)
    requires g.Consistent() && p < g.totalLength && q < g.numPieces
    requires q * g.pieceLength <= p < q * g.pieceLength + g.pieceLength
    ensures p < g.PieceOffset(q) + g.PieceLength(q)
  {
    PiecesTile(g, q);
  }

  lemma PieceEndsBefore(g: Geometry, i: nat, j: nat)
    requires g.Consistent() && i < j < g.numPieces
    ensures g.PieceOffset(i) + g.PieceLength(i) <= g.PieceOffset(j)
  {
    PiecesTile(g, i);
    Scale(i + 1, j, g.pieceLength);
  }

  /** Block `k` exists exactly when it starts inside its piece. */
  lemma BlockExists(g: Geometry, index: nat, k: nat)
    requires g.Consistent()
    ensures k < g.NumBlocks(index) <==> k * BLOCK_SIZE < g.PieceLength(index)
    ensures g.NumBlocks(index) > 0
  {
    DivCeilBounds(g.PieceLength(index), BLOCK_SIZE);
  }

  /** Blocks follow one another without gap or overlap and end at the piece end. */
  lemma BlocksTile(g: Geometry, index: nat, k: nat)
    requires g.Consistent() && k < g.NumBlocks(index)
    ensures k * BLOCK_SIZE < g.PieceLength(index) && g.BlockLength(index, k) > 0
    ensures k * BLOCK_SIZE + g.BlockLength(index, k) ==
            if k + 1 == g.NumBlocks(index) then g.PieceLength(index) else (k + 1) * BLOCK_SIZE
  {
    BlockExists(g, index, k);
    BlockExists(g, index, k + 1);
  }

  /** No step of a request's 32-bit arithmetic wraps, and the request lies inside
      its piece. */
  lemma RequestIsExact(g: Geometry, index: nat, k: nat)
    requires g.Consistent() && index < g.numPieces && k < g.NumBlocks(index)
    ensures k * BLOCK_SIZE < g.PieceLength(index)
    ensures g.BlockInfoAt(index, k) == BlockInfo(index, k * BLOCK_SIZE, g.BlockLength(index, k))
    ensures g.BlockInfoAt(index, k) == BlockInfo(index, k * 16384, Min(16384, g.PieceLength(index) - k * 16384))
    ensures 0 < g.BlockInfoAt(index, k).length
    ensures g.BlockInfoAt(index, k).begin + g.BlockInfoAt(index, k).length <= g.PieceLength(index)
  {
    hide Geometry.PieceLength, Geometry.NumBlocks;
    BlocksTile(g, index, k);
  }

  /** The nominal lengths of the first `k` blocks of a piece. */
  function BlockLengths(g: Geometry, index: nat, k: nat): seq<nat>
    requires g.Consistent() && k <= g.NumBlocks(index)
  {
    seq(k, j requires 0 <= j < k => (BlocksTile(g, index, j); g.BlockLength(index, j)))
  }

  /** The blocks of a piece add up to the piece. */
  lemma {:induction false} BlockLengthsSum(g: Geometry, index: nat, k: nat)
    requires g.Consistent() && k <= g.NumBlocks(index)
    ensures Sum(BlockLengths(g, index, k)) ==
            if k == g.NumBlocks(index) then g.PieceLength(index) else k * BLOCK_SIZE
  {
    BlockExists(g, index, 0);
    if k > 0 {
      BlockLengthsSum(g, index, k - 1);
      BlocksTile(g, index, k - 1);
      assert BlockLengths(g, index, k) == BlockLengths(g, index, k - 1) + [g.BlockLength(index, k - 1)];
      SumSnoc(BlockLengths(g, index, k - 1), g.BlockLength(index, k - 1));
    }
  }
}
