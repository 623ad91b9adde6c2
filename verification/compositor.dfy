/**
 Compositing: for every source rank, the chosen map pixel's four bytes are
 copied verbatim into the result at the source pixel's `originalIndex`.
 */
module Compositor {
  import opened Pixels
  import opened StableSort
  import opened Ranking
  import opened Matcher

  /**
   The colour rank matched to the source pixel at rank `rank`: a rank of the
   search window when the radius is positive, `rank` itself when it is 0.
   */
  function ChosenRank(src: seq<Byte>, mapPx: seq<Byte>, n: nat, w: nat, rank: nat): (b: nat)
    requires |src| == 4 * n && |mapPx| == 4 * n && rank < n
    ensures b < n
    ensures w > 0 ==> SearchWindow(rank, n, w).Contains(b)
    ensures w == 0 ==> b == rank
  {
    var sm := StructureMap(src, n);
    assert sm[rank].payload + 4 <= |src|;
    BestMatchIndex(ColorMap(mapPx, n), Quad(src, sm[rank].payload), rank, w)
  }

  /**
   The map offset whose bytes are copied for the source pixel at rank `rank`:
   a pixel offset whose bytes are the colour stored in the matched entry.
   */
  function ChosenColorIndex(src: seq<Byte>, mapPx: seq<Byte>, n: nat, w: nat, rank: nat): (off: nat)
    requires |src| == 4 * n && |mapPx| == 4 * n && rank < n
    ensures IsOffset(off, n)
    ensures Quad(mapPx, off) == ColorMap(mapPx, n)[ChosenRank(src, mapPx, n, w, rank)].payload.color
  {
    ColorMapMatchesBuffer(mapPx, n);
    ColorMap(mapPx, n)[ChosenRank(src, mapPx, n, w, rank)].payload.colorIndex
  }

  /**
   `result` is the transform of `src` by `mapPx`: for every rank, the pixel at
   that rank's `originalIndex` holds the map pixel chosen for that rank.
   */
  predicate IsRearrangement(result: seq<Byte>, src: seq<Byte>, mapPx: seq<Byte>, n: nat, w: nat)
    requires |src| == 4 * n && |mapPx| == 4 * n
  {
    && |result| == 4 * n
    && forall rank :: 0 <= rank < n ==>
         Quad(result, StructureMap(src, n)[rank].payload)
           == Quad(mapPx, ChosenColorIndex(src, mapPx, n, w, rank))
  }

  /** The first rank whose offset is `off`, or `|offs|` if there is none. */
  function RankOfOffset(offs: seq<nat>, off: nat): (k: nat)
    ensures k <= |offs|
    ensures k < |offs| ==> offs[k] == off
    ensures forall j :: 0 <= j < k ==> offs[j] != off
  {
    if |offs| == 0 then 0
    else if offs[0] == off then 0
    else 1 + RankOfOffset(offs[1..], off)
  }

  /** A rank's own offset leads back to that rank when no two ranks share an offset. */
  lemma RankOfOwnOffset(offs: seq<nat>, n: nat, k: nat)
    requires IsOffsetPermutation(offs, n) && k < n
    ensures RankOfOffset(offs, offs[k]) == k
  {
  }

  /**
   `writes[p]` is 1 for the pixels whose rank is among the first `done`, and
   0 for the others.
   */
  ghost predicate CountsWrites(writes: seq<nat>, offs: seq<nat>, done: nat, n: nat) {
    && |writes| == n
    && forall p :: 0 <= p < n ==> writes[p] == if RankOfOffset(offs, 4 * p) < done then 1 else 0
  }

  /** Writing the pixel of the next rank bumps a count that was still 0. */
  lemma CountNextWrite(writes: seq<nat>, offs: seq<nat>, rank: nat, n: nat)
    requires IsOffsetPermutation(offs, n) && rank < n
    requires CountsWrites(writes, offs, rank, n)
    ensures offs[rank] / 4 < n && writes[offs[rank] / 4] == 0
    ensures CountsWrites(writes[offs[rank] / 4 := writes[offs[rank] / 4] + 1], offs, rank + 1, n)
  {
    var p0 := offs[rank] / 4;
    assert offs[rank] == 4 * p0;
    RankOfOwnOffset(offs, n, rank);
    forall p | 0 <= p < n && p != p0 ensures RankOfOffset(offs, 4 * p) != rank {
    }
  }

  /** Once every rank is done, every pixel has been written exactly once. */
  lemma AllWrittenOnce(writes: seq<nat>, offs: seq<nat>, n: nat)
    requires IsOffsetPermutation(offs, n)
    requires CountsWrites(writes, offs, n, n)
    ensures forall p :: 0 <= p < n ==> writes[p] == 1
  {
    forall p | 0 <= p < n ensures writes[p] == 1 {
      var k :| 0 <= k < n && offs[k] == 4 * p;
      RankOfOwnOffset(offs, n, k);
    }
  }

  /** `buf` with the pixel at offset `off` replaced by `c`. */
  function WithPixel(buf: seq<Byte>, off: nat, c: Rgba): (r: seq<Byte>)
    requires off + 4 <= |buf|
    ensures |r| == |buf| && Quad(r, off) == c
    ensures forall i :: 0 <= i < |buf| && !(off <= i < off + 4) ==> r[i] == buf[i]
  {
    buf[off := c.r][off + 1 := c.g][off + 2 := c.b][off + 3 := c.a]
  }

  /** Copies the four bytes at `from` in `mapPx` to offset `off` of `dst`. */
  method CopyPixel(dst: array<Byte>, off: nat, mapPx: seq<Byte>, from: nat)
    requires off + 4 <= dst.Length && from + 4 <= |mapPx|
    modifies dst
    ensures dst[..] == WithPixel(old(dst[..]), off, Quad(mapPx, from))
  {
    dst[off] := mapPx[from];
    dst[off + 1] := mapPx[from + 1];
    dst[off + 2] := mapPx[from + 2];
    dst[off + 3] := mapPx[from + 3];
  }

  /** The map offset chosen for every rank, in rank order. */
  function Picks(src: seq<Byte>, mapPx: seq<Byte>, n: nat, w: nat): (picks: seq<nat>)
    requires |src| == 4 * n && |mapPx| == 4 * n
  {
    seq(n, k requires 0 <= k < n => ChosenColorIndex(src, mapPx, n, w, k))
  }

  /** The first `done` ranks have their chosen map pixel at their offset in `buf`. */
  ghost predicate Painted(buf: seq<Byte>, mapPx: seq<Byte>, offs: seq<nat>, picks: seq<nat>, done: nat, n: nat)
    requires |buf| == |mapPx| == 4 * n && |offs| == |picks| == n && done <= n
    requires forall k :: 0 <= k < n ==> IsOffset(offs[k], n)
    requires forall k :: 0 <= k < n ==> IsOffset(picks[k], n)
  {
    forall k :: 0 <= k < done ==>
      assert IsOffset(offs[k], n) && IsOffset(picks[k], n);
      Quad(buf, offs[k]) == Quad(mapPx, picks[k])
  }

  /** Writing the next rank's pixel extends the painted prefix by one rank. */
  lemma PaintNext(before: seq<Byte>, after: seq<Byte>, mapPx: seq<Byte>, offs: seq<nat>, picks: seq<nat>, rank: nat, n: nat)
    requires |before| == |mapPx| == 4 * n && rank < n && |picks| == n
    requires IsOffsetPermutation(offs, n)
    requires forall k :: 0 <= k < n ==> IsOffset(picks[k], n)
    requires Painted(before, mapPx, offs, picks, rank, n)
    requires after == WithPixel(before, offs[rank], Quad(mapPx, picks[rank]))
    ensures Painted(after, mapPx, offs, picks, rank + 1, n)
  {
    WriteKeepsOtherQuads(before, after, offs, rank, n);
  }

  /** Every chosen map offset is a pixel offset. */
  lemma PicksAreOffsets(src: seq<Byte>, mapPx: seq<Byte>, n: nat, w: nat)
    requires |src| == 4 * n && |mapPx| == 4 * n
    ensures |Picks(src, mapPx, n, w)| == n
    ensures forall k :: 0 <= k < n ==> IsOffset(Picks(src, mapPx, n, w)[k], n)
  {
  }

  /**
   The state of the rank loop after the first `done` ranks: those ranks'
   pixels hold their chosen map pixels, and exactly their pixels have been
   written, once each.
   */
  ghost predicate Progress(src: seq<Byte>, mapPx: seq<Byte>, n: nat, w: nat,
                           buf: seq<Byte>, writes: seq<nat>, done: nat)
    requires |src| == 4 * n && |mapPx| == 4 * n && |buf| == 4 * n && done <= n
  {
    PaintedSoFar(src, mapPx, n, w, buf, done) && CountsWrites(writes, OriginalIndices(StructureMap(src, n)), done, n)
  }

  /** The first `done` ranks' pixels hold their chosen map pixels. */
  ghost predicate PaintedSoFar(src: seq<Byte>, mapPx: seq<Byte>, n: nat, w: nat, buf: seq<Byte>, done: nat)
    requires |src| == 4 * n && |mapPx| == 4 * n && |buf| == 4 * n && done <= n
  {
    PicksAreOffsets(src, mapPx, n, w);
    Painted(buf, mapPx, OriginalIndices(StructureMap(src, n)), Picks(src, mapPx, n, w), done, n)
  }

  /** Writing rank `rank`'s chosen map pixel paints one more rank. */
  lemma PaintStep(src: seq<Byte>, mapPx: seq<Byte>, n: nat, w: nat,
                  before: seq<Byte>, after: seq<Byte>, writes: seq<nat>, rank: nat)
    requires |src| == 4 * n && |mapPx| == 4 * n && |before| == 4 * n && rank < n
    requires Progress(src, mapPx, n, w, before, writes, rank)
    requires after == WithPixel(before, StructureMap(src, n)[rank].payload, Quad(mapPx, ChosenColorIndex(src, mapPx, n, w, rank)))
    ensures PaintedSoFar(src, mapPx, n, w, after, rank + 1)
  {
    var offs := OriginalIndices(StructureMap(src, n));
    var picks := Picks(src, mapPx, n, w);
    PicksAreOffsets(src, mapPx, n, w);
    StructureMapIsPermutation(src, n);
    assert picks[rank] == ChosenColorIndex(src, mapPx, n, w, rank);
    PaintNext(before, after, mapPx, offs, picks, rank, n);
  }

  /** The pixel of rank `rank` is written for the first time. */
  lemma CountStep(src: seq<Byte>, n: nat, writes: seq<nat>, rank: nat)
    requires |src| == 4 * n && rank < n
    requires CountsWrites(writes, OriginalIndices(StructureMap(src, n)), rank, n)
    ensures var off := StructureMap(src, n)[rank].payload;
      off / 4 < n && writes[off / 4] == 0
      && CountsWrites(writes[off / 4 := writes[off / 4] + 1], OriginalIndices(StructureMap(src, n)), rank + 1, n)
  {
    StructureMapIsPermutation(src, n);
    CountNextWrite(writes, OriginalIndices(StructureMap(src, n)), rank, n);
  }

  /**
   One iteration of the rank loop: writing rank `rank`'s chosen map pixel at
   its `originalIndex` keeps `Progress`, and that pixel's write count goes
   from 0 to 1.
   */
  lemma SourceStep(src: seq<Byte>, mapPx: seq<Byte>, n: nat, w: nat,
                   before: seq<Byte>, after: seq<Byte>, writes: seq<nat>, rank: nat)
    requires |src| == 4 * n && |mapPx| == 4 * n && |before| == 4 * n && rank < n
    requires Progress(src, mapPx, n, w, before, writes, rank)
    requires after == WithPixel(before, StructureMap(src, n)[rank].payload, Quad(mapPx, ChosenColorIndex(src, mapPx, n, w, rank)))
    ensures var off := StructureMap(src, n)[rank].payload;
      off / 4 < n && writes[off / 4] == 0
      && Progress(src, mapPx, n, w, after, writes[off / 4 := writes[off / 4] + 1], rank + 1)
  {
    PaintStep(src, mapPx, n, w, before, after, writes, rank);
    CountStep(src, n, writes, rank);
  }

  /** After every rank, the buffer is the rearrangement and every pixel was written once. */
  lemma ProgressComplete(src: seq<Byte>, mapPx: seq<Byte>, n: nat, w: nat, buf: seq<Byte>, writes: seq<nat>)
    requires |src| == 4 * n && |mapPx| == 4 * n && |buf| == 4 * n
    requires Progress(src, mapPx, n, w, buf, writes, n)
    ensures IsRearrangement(buf, src, mapPx, n, w)
    ensures |writes| == n && forall p :: 0 <= p < n ==> writes[p] == 1
  {
    PicksAreOffsets(src, mapPx, n, w);
    StructureMapIsPermutation(src, n);
    AllWrittenOnce(writes, OriginalIndices(StructureMap(src, n)), n);
    PaintedIsRearrangement(buf, src, mapPx, n, w);
  }

  /** A buffer painted for every rank is the rearrangement. */
  lemma PaintedIsRearrangement(result: seq<Byte>, src: seq<Byte>, mapPx: seq<Byte>, n: nat, w: nat)
    requires |src| == 4 * n && |mapPx| == 4 * n && |result| == 4 * n
    requires forall k :: 0 <= k < n ==> IsOffset(Picks(src, mapPx, n, w)[k], n)
    requires Painted(result, mapPx, OriginalIndices(StructureMap(src, n)), Picks(src, mapPx, n, w), n, n)
    ensures IsRearrangement(result, src, mapPx, n, w)
  {
    var offs := OriginalIndices(StructureMap(src, n));
    var picks := Picks(src, mapPx, n, w);
    forall rank | 0 <= rank < n
      ensures Quad(result, StructureMap(src, n)[rank].payload) == Quad(mapPx, ChosenColorIndex(src, mapPx, n, w, rank))
    {
      assert offs[rank] == StructureMap(src, n)[rank].payload;
      assert picks[rank] == ChosenColorIndex(src, mapPx, n, w, rank);
    }
  }

  /**
   One rank of the loop up to the write: the source pixel's offset, the map
   rank chosen for it (the first nearest map entry of the rank window, or the
   rank itself when the window is empty), and that entry's `colorIndex`.
   */
  method MatchRank(src: seq<Byte>, mapPx: seq<Byte>, n: nat, w: nat,
                   structureMap: seq<StructEntry>, colorMap: seq<ColorEntry>, rank: nat)
    returns (resultIndex: nat, bestMatchIndex: nat, colorSourceIndex: nat)
    requires |src| == 4 * n && |mapPx| == 4 * n && rank < n
    requires structureMap == StructureMap(src, n) && colorMap == ColorMap(mapPx, n)
    ensures IsOffset(resultIndex, n) && resultIndex == structureMap[rank].payload
    ensures bestMatchIndex < n && colorSourceIndex == colorMap[bestMatchIndex].payload.colorIndex
    ensures w == 0 ==> bestMatchIndex == rank
    ensures w > 0 ==> var win := SearchWindow(rank, n, w);
      IsFirstNearest(colorMap, Quad(src, resultIndex), win.start, win.end, bestMatchIndex)
    ensures IsOffset(colorSourceIndex, n) && Quad(mapPx, colorSourceIndex) == colorMap[bestMatchIndex].payload.color
    ensures colorSourceIndex == ChosenColorIndex(src, mapPx, n, w, rank)
  {
    ColorMapMatchesBuffer(mapPx, n);
    resultIndex := structureMap[rank].payload;
    var target := Quad(src, resultIndex);
    bestMatchIndex := BestMatchIndex(colorMap, target, rank, w);
    colorSourceIndex := colorMap[bestMatchIndex].payload.colorIndex;
  }

  /**
   The rank loop of the transform, writing into a fresh buffer. The ghost
   `writes` counts, per pixel, how many times its four bytes were written.
   */
  method Rearrange(src: seq<Byte>, mapPx: seq<Byte>, n: nat, w: nat)
    returns (result: seq<Byte>, ghost writes: seq<nat>)
    requires |src| == 4 * n && |mapPx| == 4 * n
    ensures IsRearrangement(result, src, mapPx, n, w)
    ensures |writes| == n && forall p :: 0 <= p < n ==> writes[p] == 1
  {
    var structureMap := StructureMap(src, n);
    var colorMap := ColorMap(mapPx, n);
    var resultPixels := new Byte[4 * n](_ => 0);
    writes := seq(n, _ => 0);
    for rank := 0 to n
      invariant resultPixels.Length == 4 * n
      invariant Progress(src, mapPx, n, w, resultPixels[..], writes, rank)
    {
      var resultIndex, bestMatchIndex, colorSourceIndex := MatchRank(src, mapPx, n, w, structureMap, colorMap, rank);
      ghost var before := resultPixels[..];
      CopyPixel(resultPixels, resultIndex, mapPx, colorSourceIndex);
      SourceStep(src, mapPx, n, w, before, resultPixels[..], writes, rank);
      writes := writes[resultIndex / 4 := writes[resultIndex / 4] + 1];
    }
    result := resultPixels[..];
    ProgressComplete(src, mapPx, n, w, result, writes);
  }

  /**
   Writing the quadruple at the offset of rank `rank` leaves the quadruples of
   every earlier rank as they were.
   */
  lemma WriteKeepsOtherQuads(before: seq<Byte>, after: seq<Byte>, offs: seq<nat>, rank: nat, n: nat)
    requires |before| == |after| == 4 * n && rank < n
    requires IsOffsetPermutation(offs, n)
    requires forall i :: 0 <= i < |before| && !(offs[rank] <= i < offs[rank] + 4) ==> after[i] == before[i]
    ensures forall k :: 0 <= k < rank ==> Quad(after, offs[k]) == Quad(before, offs[k])
  {
    forall k | 0 <= k < rank ensures Quad(after, offs[k]) == Quad(before, offs[k]) {
      OffsetsDisjoint(offs[k], offs[rank], n);
    }
  }

  /** The pixel index `i / 4` of a byte index is a pixel of the buffer. */
  lemma ByteInPixel(i: nat, n: nat)
    requires i < 4 * n
    ensures i / 4 < n && 4 * (i / 4) <= i < 4 * (i / 4) + 4
  {
  }

  /**
   The characterisation pins the result down completely: two buffers that
   are both rearrangements of the same inputs are equal, byte for byte.
   */
  lemma RearrangementIsUnique(r1: seq<Byte>, r2: seq<Byte>, src: seq<Byte>, mapPx: seq<Byte>, n: nat, w: nat)
    requires |src| == 4 * n && |mapPx| == 4 * n
    requires IsRearrangement(r1, src, mapPx, n, w) && IsRearrangement(r2, src, mapPx, n, w)
    ensures r1 == r2
  {
    var sm := StructureMap(src, n);
    StructureMapIsPermutation(src, n);
    var offs := OriginalIndices(sm);
    forall i | 0 <= i < 4 * n ensures r1[i] == r2[i] {
      ByteInPixel(i, n);
      var p := i / 4;
      var k :| 0 <= k < n && offs[k] == 4 * p;
      assert Quad(r1, sm[k].payload) == Quad(r2, sm[k].payload);
      SameQuadSameBytes(r1, r2, 4 * p, i);
    }
  }

  /** Equal quadruples at `off` agree on each of their four bytes. */
  lemma SameQuadSameBytes(r1: seq<Byte>, r2: seq<Byte>, off: nat, i: nat)
    requires off + 4 <= |r1| && off + 4 <= |r2| && Quad(r1, off) == Quad(r2, off)
    requires off <= i < off + 4
    ensures r1[i] == r2[i]
  {
  }

  /** Every pixel of a rearrangement is a pixel of the map, alpha included. */
  lemma OutputDrawnFromMap(result: seq<Byte>, src: seq<Byte>, mapPx: seq<Byte>, n: nat, w: nat)
    requires |src| == 4 * n && |mapPx| == 4 * n
    requires IsRearrangement(result, src, mapPx, n, w)
    ensures forall p :: 0 <= p < n ==> exists q :: 0 <= q < n && Quad(result, 4 * p) == Quad(mapPx, 4 * q)
  {
    var sm := StructureMap(src, n);
    StructureMapIsPermutation(src, n);
    var offs := OriginalIndices(sm);
    forall p | 0 <= p < n ensures exists q :: 0 <= q < n && Quad(result, 4 * p) == Quad(mapPx, 4 * q) {
      var k :| 0 <= k < n && offs[k] == 4 * p;
      var c := ChosenColorIndex(src, mapPx, n, w, k);
      var q := c / 4;
      assert c == 4 * q;
      assert Quad(result, 4 * p) == Quad(mapPx, 4 * q);
    }
  }

  /** A map of one colour paints the whole result in that colour. */
  lemma MonochromeMap(result: seq<Byte>, src: seq<Byte>, mapPx: seq<Byte>, n: nat, w: nat, c: Rgba)
    requires |src| == 4 * n && |mapPx| == 4 * n
    requires forall q :: 0 <= q < n ==> Quad(mapPx, 4 * q) == c
    requires IsRearrangement(result, src, mapPx, n, w)
    ensures forall p :: 0 <= p < n ==> Quad(result, 4 * p) == c
  {
    OutputDrawnFromMap(result, src, mapPx, n, w);
  }

  /**
   With radius 0 no search happens: the source pixel of rank `rank` receives
   the map pixel of the same rank.
   */
  lemma ZeroWindowSwapsRanks(result: seq<Byte>, src: seq<Byte>, mapPx: seq<Byte>, n: nat)
    requires |src| == 4 * n && |mapPx| == 4 * n
    requires IsRearrangement(result, src, mapPx, n, 0)
    ensures forall rank :: 0 <= rank < n ==>
      Quad(result, StructureMap(src, n)[rank].payload) == Quad(mapPx, ColorMap(mapPx, n)[rank].payload.colorIndex)
  {
    forall rank | 0 <= rank < n
      ensures Quad(result, StructureMap(src, n)[rank].payload) == Quad(mapPx, ColorMap(mapPx, n)[rank].payload.colorIndex)
    {
      assert ChosenRank(src, mapPx, n, 0, rank) == rank;
    }
  }

  /**
   With a positive radius, the colour written for the source pixel of rank
   `rank` is at least as close (in RGB) to that pixel's own colour as the
   colour of every map entry in the rank window, and strictly closer than
   every window entry ranked before the chosen one.
   */
  lemma ChosenColorIsNearest(result: seq<Byte>, src: seq<Byte>, mapPx: seq<Byte>, n: nat, w: nat, rank: nat)
    requires |src| == 4 * n && |mapPx| == 4 * n && rank < n && w > 0
    requires IsRearrangement(result, src, mapPx, n, w)
    ensures
      var off := StructureMap(src, n)[rank].payload;
      var cm := ColorMap(mapPx, n);
      var win := SearchWindow(rank, n, w);
      var chosen := ChosenRank(src, mapPx, n, w, rank);
      && win.Contains(chosen)
      && Quad(result, off) == cm[chosen].payload.color
      && (forall c :: win.Contains(c) ==>
            Distance(Quad(src, off), Quad(result, off)) <= Distance(Quad(src, off), cm[c].payload.color))
      && (forall c :: win.start <= c < chosen ==>
            Distance(Quad(src, off), Quad(result, off)) < Distance(Quad(src, off), cm[c].payload.color))
  {
    var off := StructureMap(src, n)[rank].payload;
    var cm := ColorMap(mapPx, n);
    var target := Quad(src, off);
    var win := SearchWindow(rank, n, w);
    var chosen := ChosenRank(src, mapPx, n, w, rank);
    assert IsFirstNearest(cm, target, win.start, win.end, chosen);
    ColorMapMatchesBuffer(mapPx, n);
    assert Quad(result, off) == Quad(mapPx, cm[chosen].payload.colorIndex) == cm[chosen].payload.color;
    assert Distance(target, Quad(result, off)) == CandidateDistance(cm, target, chosen);
    forall c | win.Contains(c)
      ensures Distance(target, Quad(result, off)) <= Distance(target, cm[c].payload.color)
    {
      assert CandidateDistance(cm, target, c) == Distance(target, cm[c].payload.color);
    }
    forall c | win.start <= c < chosen
      ensures Distance(target, Quad(result, off)) < Distance(target, cm[c].payload.color)
    {
      assert CandidateDistance(cm, target, c) == Distance(target, cm[c].payload.color);
    }
  }
}
