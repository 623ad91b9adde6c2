/**
 Windowed nearest-colour match: for the source pixel at rank `rank`, look at
 the map entries whose ranks lie in `[max(0, rank - W), min(N, rank + W))` and
 pick the one whose RGB colour is closest to the source pixel's own colour,
 the first one scanned winning ties; with no candidate at all, `rank` itself.
 */
module Matcher {
  import opened Pixels
  import opened Ranking

  /** The half-open range of map ranks searched: `start` inclusive, `end` exclusive. */
  datatype Window = Window(start: nat, end: nat) {
    /** Rank `c` is searched. */
    predicate Contains(c: int) {
      start <= c < end
    }
  }

  /** The search window around `rank` for radius `w` among `n` ranks. */
  function SearchWindow(rank: nat, n: nat, w: nat): (win: Window)
    requires rank < n
    ensures win.start <= win.end <= n
    ensures forall c: int :: win.Contains(c) <==> 0 <= c < n && rank - w <= c < rank + w
    ensures win.start == win.end <==> w == 0
  {
    Window(if rank < w then 0 else rank - w, if n < rank + w then n else rank + w)
  }

  /** The running minimum of the scan: nothing seen yet, or the least distance so far. */
  datatype Bound = Infinity | Finite(value: nat) {
    /** `d < this`, where every distance is below `Infinity`. */
    predicate Above(d: nat) {
      match this
      case Infinity => true
      case Finite(v) => d < v
    }
  }

  /** The RGB distance from `target` to the map entry at rank `c`. */
  function CandidateDistance(cm: seq<ColorEntry>, target: Rgba, c: nat): nat
    requires c < |cm|
  {
    Distance(target, cm[c].payload.color)
  }

  /**
   `b` is the first rank in `[start, end)` at minimum distance from `target`:
   no candidate is closer, and every earlier candidate is strictly farther.
   */
  predicate IsFirstNearest(cm: seq<ColorEntry>, target: Rgba, start: nat, end: nat, b: nat)
    requires end <= |cm|
  {
    && start <= b < end
    && (forall c :: start <= c < end ==> CandidateDistance(cm, target, b) <= CandidateDistance(cm, target, c))
    && (forall c :: start <= c < b ==> CandidateDistance(cm, target, b) < CandidateDistance(cm, target, c))
  }

  /**
   The scan loop from rank `i` on, with `best` and `minDistance` the loop's
   state after `[start, i)`: a candidate replaces the best one only when it is
   strictly closer.
   */
  function ScanFrom(cm: seq<ColorEntry>, target: Rgba, start: nat, end: nat,
                    i: nat, best: nat, minDistance: Bound): (b: nat)
    requires start <= i <= end <= |cm|
    requires minDistance.Infinity? <==> i == start
    requires minDistance.Finite? ==>
      IsFirstNearest(cm, target, start, i, best)
      && minDistance.value == CandidateDistance(cm, target, best)
    ensures start < end ==> IsFirstNearest(cm, target, start, end, b)
    ensures start == end ==> b == best
    decreases end - i
  {
    if i == end then best
    else
      var d := CandidateDistance(cm, target, i);
      if minDistance.Above(d) then ScanFrom(cm, target, start, end, i + 1, i, Finite(d))
      else ScanFrom(cm, target, start, end, i + 1, best, minDistance)
  }

  /** `bestMatchIndex` for the source pixel of colour `target` at rank `rank`. */
  function BestMatchIndex(cm: seq<ColorEntry>, target: Rgba, rank: nat, w: nat): (b: nat)
    requires rank < |cm|
    ensures b < |cm|
    ensures w > 0 ==> var win := SearchWindow(rank, |cm|, w); IsFirstNearest(cm, target, win.start, win.end, b)
    ensures w == 0 ==> b == rank
  {
    var win := SearchWindow(rank, |cm|, w);
    ScanFrom(cm, target, win.start, win.end, win.start, rank, Infinity)
  }

  /** At most one rank is the first nearest one in a window. */
  lemma FirstNearestIsUnique(cm: seq<ColorEntry>, target: Rgba, start: nat, end: nat, b1: nat, b2: nat)
    requires end <= |cm|
    requires IsFirstNearest(cm, target, start, end, b1)
    requires IsFirstNearest(cm, target, start, end, b2)
    ensures b1 == b2
  {
    var d1, d2 := CandidateDistance(cm, target, b1), CandidateDistance(cm, target, b2);
    assert d1 <= d2 && d2 <= d1;
  }

  /**
   With a positive radius the chosen rank is exactly the first nearest
   candidate of the window; with radius zero it is the rank itself.
   */
  lemma BestMatchCharacterized(cm: seq<ColorEntry>, target: Rgba, rank: nat, w: nat, b: nat)
    requires rank < |cm|
    ensures b == BestMatchIndex(cm, target, rank, w)
        <==> (if w == 0 then b == rank
              else var win := SearchWindow(rank, |cm|, w); IsFirstNearest(cm, target, win.start, win.end, b))
  {
    var win := SearchWindow(rank, |cm|, w);
    var m := BestMatchIndex(cm, target, rank, w);
    if w > 0 && IsFirstNearest(cm, target, win.start, win.end, b) {
      FirstNearestIsUnique(cm, target, win.start, win.end, b, m);
    }
  }
}
