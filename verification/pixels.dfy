/**
 Flat RGBA pixel buffers as produced by a 2-D canvas: four channel bytes per
 pixel, row-major, so pixel `p` lives at byte offset `4 * p`. This module holds
 the vocabulary shared by the three stages of the colour-similarity transfer:
 channel bytes, offsets, the luma score used for ranking and the squared RGB
 distance used for matching.
 */
module Pixels {

  /** One channel value of a canvas pixel buffer. */
  type Byte = x: int | 0 <= x < 256

  /** The four channels of one pixel. */
  datatype Rgba = Rgba(r: Byte, g: Byte, b: Byte, a: Byte)

  /** `off` is the byte offset of one of the `n` pixels of a buffer. */
  predicate IsOffset(off: int, n: nat) {
    0 <= off && off + 4 <= 4 * n && off % 4 == 0
  }

  /** The pixel stored at byte offset `off`. */
  function Quad(buf: seq<Byte>, off: nat): (c: Rgba)
    requires off + 4 <= |buf|
  {
    Rgba(buf[off], buf[off + 1], buf[off + 2], buf[off + 3])
  }

  /**
   Pixel `p` of an `n`-pixel buffer starts at offset `4 * p`. A lemma of its
   own so that callers deep in a sorting argument get the fact without the
   solver having to redo the arithmetic among many other terms.
   */
  lemma PixelOffset(p: nat, n: nat)
    requires p < n
    ensures IsOffset(4 * p, n)
  {
  }

  /** Two distinct pixel offsets address disjoint quadruples. */
  lemma OffsetsDisjoint(o1: int, o2: int, n: nat)
    requires IsOffset(o1, n) && IsOffset(o2, n) && o1 != o2
    ensures o1 + 4 <= o2 || o2 + 4 <= o1
  {
  }

  /** The page's brightness score `0.2126 R + 0.7152 G + 0.0722 B`, as a real number. */
  ghost function Score(c: Rgba): real {
    0.2126 * c.r as real + 0.7152 * c.g as real + 0.0722 * c.b as real
  }

  /** The least of the three colour channels. */
  function MinChannel(c: Rgba): Byte {
    if c.r <= c.g && c.r <= c.b then c.r else if c.g <= c.b then c.g else c.b
  }

  /** The greatest of the three colour channels. */
  function MaxChannel(c: Rgba): Byte {
    if c.r >= c.g && c.r >= c.b then c.r else if c.g >= c.b then c.g else c.b
  }

  /**
   BT.709 luma scaled by 10^4 so that it is an exact natural number: it is
   exactly 10^4 times the page's score, a weighted average of the colour
   channels (so between the least and the greatest of them); alpha plays no part.
   */
  function Luma(c: Rgba): (y: nat)
    ensures y as real == 10000.0 * Score(c)
    ensures 10000 * MinChannel(c) <= y <= 10000 * MaxChannel(c)
  {
    2126 * c.r + 7152 * c.g + 722 * c.b
  }

  /**
   Comparing lumas is comparing the page's scores, so ranking by `Luma`
   is ranking by the score.
   */
  lemma LumaOrdersLikeScore(x: Rgba, y: Rgba)
    ensures Luma(x) <= Luma(y) <==> Score(x) <= Score(y)
    ensures Luma(x) == Luma(y) <==> Score(x) == Score(y)
  {
  }

  /** The square of a channel difference. */
  function Square(x: int): (s: nat)
    ensures s == 0 <==> x == 0
  {
    if x < 0 then (-x) * (-x) else x * x
  }

  /** Squared Euclidean distance between the RGB parts of two pixels. */
  function Distance(x: Rgba, y: Rgba): (d: nat)
    ensures d == 0 <==> (x.r == y.r && x.g == y.g && x.b == y.b)
  {
    Square(x.r - y.r) + Square(x.g - y.g) + Square(x.b - y.b)
  }

  /** The distance is symmetric and blind to alpha. */
  lemma DistanceIgnoresAlpha(x: Rgba, y: Rgba, a1: Byte, a2: Byte)
    ensures Distance(x, y) == Distance(y, x)
    ensures Distance(x.(a := a1), y.(a := a2)) == Distance(x, y)
  {
  }
}
