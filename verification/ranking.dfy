/**
 Luminance ranking: one entry per pixel of the source buffer (carrying the
 pixel's byte offset, `originalIndex`) and one per pixel of the map buffer
 (carrying its offset, `colorIndex`, and a copy of its four channels), each
 list built in buffer scan order and then stably sorted by ascending luma.
 */
module Ranking {
  import opened Pixels
  import opened StableSort

  /** The payload of a map entry: where the pixel sits and its channels. */
  datatype Swatch = Swatch(colorIndex: nat, color: Rgba)

  /** A source entry; its payload is the pixel's `originalIndex`. */
  type StructEntry = Entry<nat>

  /** A map entry. */
  type ColorEntry = Entry<Swatch>

  /** Source entries for the first `n` pixels of `src`, in scan order. */
  function StructureEntries(src: seq<Byte>, n: nat): (es: seq<StructEntry>)
    requires 4 * n <= |src|
    ensures |es| == n
    ensures forall p :: 0 <= p < n ==>
      es[p].payload == 4 * p && es[p].brightness == Luma(Quad(src, 4 * p))
  {
    if n == 0 then []
    else StructureEntries(src, n - 1) + [Entry(Luma(Quad(src, 4 * (n - 1))), 4 * (n - 1))]
  }

  /** Map entries for the first `n` pixels of `mapPx`, in scan order. */
  function ColorEntries(mapPx: seq<Byte>, n: nat): (es: seq<ColorEntry>)
    requires 4 * n <= |mapPx|
    ensures |es| == n
    ensures forall p :: 0 <= p < n ==>
      es[p].payload == Swatch(4 * p, Quad(mapPx, 4 * p))
      && es[p].brightness == Luma(Quad(mapPx, 4 * p))
  {
    if n == 0 then []
    else
      var off := 4 * (n - 1);
      var c := Quad(mapPx, off);
      ColorEntries(mapPx, n - 1) + [Entry(Luma(c), Swatch(off, c))]
  }

  /** The scan-order tag of a source entry: its offset, as an integer. */
  function OffsetTag(i: nat): int { i }

  /** The scan-order tag of a map entry. */
  function ColorIndex(sw: Swatch): int { sw.colorIndex }

  /** The source entries ranked by ascending luma (`structureMap`). */
  function StructureMap(src: seq<Byte>, n: nat): (sm: seq<StructEntry>)
    requires |src| == 4 * n
    ensures |sm| == n
    ensures forall rank :: 0 <= rank < n ==> IsOffset(sm[rank].payload, n)
  {
    SortedStructureOffsets(src, n);
    Sort(StructureEntries(src, n))
  }

  /** The map entries ranked by ascending luma (`colorMap`). */
  function ColorMap(mapPx: seq<Byte>, n: nat): (cm: seq<ColorEntry>)
    requires |mapPx| == 4 * n
    ensures |cm| == n
    ensures forall rank :: 0 <= rank < n ==> IsOffset(cm[rank].payload.colorIndex, n)
  {
    SortedColorOffsets(mapPx, n);
    Sort(ColorEntries(mapPx, n))
  }

  /** Sorting moves source entries around but keeps their offsets valid. */
  lemma SortedStructureOffsets(src: seq<Byte>, n: nat)
    requires |src| == 4 * n
    ensures forall rank :: 0 <= rank < n ==> IsOffset(Sort(StructureEntries(src, n))[rank].payload, n)
  {
    var es := StructureEntries(src, n);
    forall rank | 0 <= rank < n ensures IsOffset(Sort(es)[rank].payload, n) {
      var e := Sort(es)[rank];
      assert e in multiset(es);
      assert e in es;
      var p :| 0 <= p < n && es[p] == e;
      PixelOffset(p, n);
    }
  }

  /** Sorting moves map entries around but keeps their offsets valid. */
  lemma SortedColorOffsets(mapPx: seq<Byte>, n: nat)
    requires |mapPx| == 4 * n
    ensures forall rank :: 0 <= rank < n ==> IsOffset(Sort(ColorEntries(mapPx, n))[rank].payload.colorIndex, n)
  {
    var es := ColorEntries(mapPx, n);
    forall rank | 0 <= rank < n ensures IsOffset(Sort(es)[rank].payload.colorIndex, n) {
      var e := Sort(es)[rank];
      assert e in multiset(es);
      assert e in es;
      var p :| 0 <= p < n && es[p] == e;
      PixelOffset(p, n);
    }
  }

  /**
   `offs` lists every pixel offset of an `n`-pixel buffer exactly once: the
   position-to-offset map is a bijection onto `{0, 4, ..., 4(n-1)}`.
   */
  predicate IsOffsetPermutation(offs: seq<nat>, n: nat) {
    && |offs| == n
    && (forall i :: 0 <= i < n ==> IsOffset(offs[i], n))
    && (forall i, j :: 0 <= i < n && 0 <= j < n && i != j ==> offs[i] != offs[j])
    && (forall p :: 0 <= p < n ==> exists i :: 0 <= i < n && offs[i] == 4 * p)
  }

  /** The `originalIndex` column of a ranked source list. */
  function OriginalIndices(sm: seq<StructEntry>): (offs: seq<nat>)
    ensures |offs| == |sm|
    ensures forall i :: 0 <= i < |sm| ==> offs[i] == sm[i].payload
  {
    seq(|sm|, i requires 0 <= i < |sm| => sm[i].payload)
  }

  /** The `colorIndex` column of a ranked map list. */
  function ColorIndices(cm: seq<ColorEntry>): (offs: seq<nat>)
    ensures |offs| == |cm|
    ensures forall i :: 0 <= i < |cm| ==> offs[i] == cm[i].payload.colorIndex
  {
    seq(|cm|, i requires 0 <= i < |cm| => cm[i].payload.colorIndex)
  }

  /** Rank to `originalIndex` is a bijection onto the pixel offsets. */
  lemma StructureMapIsPermutation(src: seq<Byte>, n: nat)
    requires |src| == 4 * n
    ensures IsOffsetPermutation(OriginalIndices(StructureMap(src, n)), n)
  {
    var es := StructureEntries(src, n);
    var sm := StructureMap(src, n);
    var offs := OriginalIndices(sm);
    SortKeepsScanOrder(es, OffsetTag);
    forall i, j | 0 <= i < n && 0 <= j < n && i != j ensures offs[i] != offs[j] {
      assert OffsetTag(sm[i].payload) != OffsetTag(sm[j].payload);
    }
    forall p | 0 <= p < n ensures exists i :: 0 <= i < n && offs[i] == 4 * p {
      assert es[p] in multiset(sm);
      var i :| 0 <= i < n && sm[i] == es[p];
      assert offs[i] == 4 * p;
    }
  }

  /** Every ranked map entry carries the colour stored at its `colorIndex`. */
  lemma ColorMapMatchesBuffer(mapPx: seq<Byte>, n: nat)
    requires |mapPx| == 4 * n
    ensures forall rank :: 0 <= rank < n ==>
      var e := ColorMap(mapPx, n)[rank];
      e.payload.color == Quad(mapPx, e.payload.colorIndex)
      && e.brightness == Luma(e.payload.color)
  {
    var es := ColorEntries(mapPx, n);
    var cm := ColorMap(mapPx, n);
    forall rank | 0 <= rank < n
      ensures cm[rank].payload.color == Quad(mapPx, cm[rank].payload.colorIndex)
      ensures cm[rank].brightness == Luma(cm[rank].payload.color)
    {
      assert cm[rank] in multiset(es);
      var p :| 0 <= p < n && es[p] == cm[rank];
    }
  }

  /** Rank to `colorIndex` is a bijection onto the pixel offsets. */
  lemma ColorMapIsPermutation(mapPx: seq<Byte>, n: nat)
    requires |mapPx| == 4 * n
    ensures IsOffsetPermutation(ColorIndices(ColorMap(mapPx, n)), n)
  {
    var es := ColorEntries(mapPx, n);
    var cm := ColorMap(mapPx, n);
    var offs := ColorIndices(cm);
    SortKeepsScanOrder(es, ColorIndex);
    forall i, j | 0 <= i < n && 0 <= j < n && i != j ensures offs[i] != offs[j] {
      assert ColorIndex(cm[i].payload) != ColorIndex(cm[j].payload);
    }
    forall p | 0 <= p < n ensures exists i :: 0 <= i < n && offs[i] == 4 * p {
      assert es[p] in multiset(cm);
      var i :| 0 <= i < n && cm[i] == es[p];
      assert offs[i] == 4 * p;
    }
  }

  /**
   The ranked source list is ascending in luma, each entry's brightness is the
   luma of the pixel at its `originalIndex`, and entries of equal luma keep
   their scan order.
   */
  lemma StructureMapRanked(src: seq<Byte>, n: nat)
    requires |src| == 4 * n
    ensures forall rank :: 0 <= rank < n ==>
      var e := StructureMap(src, n)[rank];
      e.brightness == Luma(Quad(src, e.payload))
    ensures forall i, j :: 0 <= i < j < n ==>
      var sm := StructureMap(src, n);
      sm[i].brightness < sm[j].brightness
      || (sm[i].brightness == sm[j].brightness && sm[i].payload < sm[j].payload)
  {
    var es := StructureEntries(src, n);
    var sm := StructureMap(src, n);
    SortKeepsScanOrder(es, OffsetTag);
    forall rank | 0 <= rank < n ensures sm[rank].brightness == Luma(Quad(src, sm[rank].payload)) {
      assert sm[rank] in multiset(es);
      var p :| 0 <= p < n && es[p] == sm[rank];
    }
  }

  /**
   The ranked map list is ascending in luma and entries of equal luma keep
   their scan order.
   */
  lemma ColorMapRanked(mapPx: seq<Byte>, n: nat)
    requires |mapPx| == 4 * n
    ensures forall i, j :: 0 <= i < j < n ==>
      var cm := ColorMap(mapPx, n);
      cm[i].brightness < cm[j].brightness
      || (cm[i].brightness == cm[j].brightness && cm[i].payload.colorIndex < cm[j].payload.colorIndex)
  {
    SortKeepsScanOrder(ColorEntries(mapPx, n), ColorIndex);
  }

  /** The two ranked lists are the stable ascending orders of the scan-order entries. */
  lemma RankingsAreStableSorts(src: seq<Byte>, mapPx: seq<Byte>, n: nat)
    requires |src| == 4 * n && |mapPx| == 4 * n
    ensures IsStableSortOf(StructureMap(src, n), StructureEntries(src, n))
    ensures IsStableSortOf(ColorMap(mapPx, n), ColorEntries(mapPx, n))
  {
    SortIsStable(StructureEntries(src, n));
    SortIsStable(ColorEntries(mapPx, n));
  }
}
