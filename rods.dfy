/**
  The three rods: which rod a pointer position selects, when a rod accepts a
  disk, and when the puzzle is solved (towerofhanoi.py lines 50-54, 120, 124).
  A rod is a sequence of disk sizes listed bottom to top, so its top disk is
  its last element.
 */
module Rods {
  import opened Wrappers

  /** Number of rods. */
  const RodCount := 3

  /** The full stack, bottom to top, that wins when it stands on the last rod. */
  const FullStack: seq<int> := [3, 2, 1]

  /** The width of one rod's band: Python's `width // 3` (positive for width >= 3). */
  function BandWidth(width: int): (d: int)
    requires width >= 3
    ensures d >= 1 && 3 * d <= width < 3 * d + 3
  {
    width / 3
  }

  /**
    `rod_index_from_x` exactly as written: `min(x // (width // 3), 2)`.
    Python's `//` floors; Dafny's `/` also floors when the divisor is
    positive, which the band width is. Nothing clamps from below, so a
    negative `x` yields a negative index.
   */
  function RodIndexFromX(x: int, width: int): (r: int)
    requires width >= 3
    ensures r <= 2
    ensures 0 <= x ==> 0 <= r
    ensures r < 2 ==> r * BandWidth(width) <= x < (r + 1) * BandWidth(width)
    ensures r == 2 ==> 2 * BandWidth(width) <= x
  {
    var q := x / BandWidth(width);
    if q < 2 then q else 2
  }

  /** Python's subscript of a three-element list: negative indices count from the end,
      anything outside [-3, 3) raises IndexError (None here). */
  function PyRod(i: int): (r: Option<nat>)
    ensures r.Some? <==> -RodCount <= i < RodCount
    ensures r.Some? ==> r.value < RodCount && r.value == i % RodCount
  {
    if 0 <= i < RodCount then Some(i)
    else if -RodCount <= i < 0 then Some(i + RodCount)
    else None
  }

  /**
    The rod index with the clamp applied on both sides, as the upper clamp
    `min(..., 2)` shows was meant: a pointer left of the frame selects rod 0.
    It agrees with `RodIndexFromX` whenever `x >= 0`.
   */
  function RodIndex(x: int, width: int): (r: nat)
    requires width >= 3
    ensures r < RodCount
    ensures 0 <= x ==> r == RodIndexFromX(x, width)
    ensures x < 0 ==> r == 0
  {
    var q := RodIndexFromX(x, width);
    if q < 0 then 0 else q
  }

  /** Floor division is monotone in the dividend. */
  lemma DivMonotone(a: int, b: int, d: int)
    requires d >= 1 && a <= b
    ensures a / d <= b / d
  {
    var k := b / d - a / d;
    assert k * d == (b - b % d) - (a - a % d);
    NonNegativeFactor(k, d);
  }

  /** A multiple of a positive number that is above its negation is non-negative. */
  lemma NonNegativeFactor(k: int, d: int)
    requires d >= 1 && k * d > -d
    ensures k >= 0
  {
  }

  /** Moving the pointer right never selects a lower rod (for non-negative x). */
  lemma RodIndexFromXMonotone(x1: int, x2: int, width: int)
    requires width >= 3 && 0 <= x1 <= x2
    ensures 0 <= RodIndexFromX(x1, width) <= RodIndexFromX(x2, width) <= 2
  {
    DivMonotone(x1, x2, BandWidth(width));
  }

  /** The clamped index is monotone over all x. */
  lemma RodIndexMonotone(x1: int, x2: int, width: int)
    requires width >= 3 && x1 <= x2
    ensures RodIndex(x1, width) <= RodIndex(x2, width)
  {
    if 0 <= x1 {
      RodIndexFromXMonotone(x1, x2, width);
    }
  }

  /**
    As written, a pointer just left of the frame (within one band) gives index -1,
    which Python resolves to the LAST rod, not the first.
   */
  lemma NegativeXSelectsLastRod(x: int, width: int)
    requires width >= 3 && -BandWidth(width) <= x < 0
    ensures RodIndexFromX(x, width) == -1
    ensures PyRod(RodIndexFromX(x, width)) == Some(2)
    ensures RodIndex(x, width) == 0
  {
    var d := BandWidth(width);
    var q := x / d;
    assert x == q * d + x % d && 0 <= x % d < d;
    if q >= 0 {
      assert false;
    }
    if q <= -2 {
      assert false;
    }
  }

  /** A concrete witness: x = -1 on a 640-pixel frame lands on rod 2. */
  lemma NegativeXExample()
    ensures RodIndexFromX(-1, 640) == -1 && PyRod(RodIndexFromX(-1, 640)) == Some(2)
  {
    NegativeXSelectsLastRod(-1, 640);
  }

  /** Bottom to top, every disk is strictly smaller than every disk below it. */
  ghost predicate Decreasing(rod: seq<int>)
  {
    forall i, j :: 0 <= i < j < |rod| ==> rod[i] > rod[j]
  }

  /** The legality test of lines 120 and 124: the rod is empty or its top is larger. */
  predicate Accepts(rod: seq<int>, d: int)
  {
    rod == [] || d < rod[|rod| - 1]
  }

  /** `is_game_won`: the last rod holds exactly the full stack, which is a legal
      stack with the smallest disk on top. */
  predicate IsGameWon(towers: seq<seq<int>>): (won: bool)
    requires |towers| == RodCount
    ensures won ==> Decreasing(towers[2]) && |towers[2]| == 3 && towers[2][2] == 1
  {
    towers[2] == FullStack
  }

  /** The lowest-indexed rod that accepts `d` (the fallback scan of lines 123-126). */
  function FirstLegal(towers: seq<seq<int>>, d: int): (r: Option<nat>)
    requires |towers| == RodCount
    ensures r.Some? ==> r.value < RodCount && Accepts(towers[r.value], d)
    ensures r.Some? ==> forall j :: 0 <= j < r.value ==> !Accepts(towers[j], d)
    ensures r.None? <==> forall j :: 0 <= j < RodCount ==> !Accepts(towers[j], d)
  {
    if Accepts(towers[0], d) then Some(0)
    else if Accepts(towers[1], d) then Some(1)
    else if Accepts(towers[2], d) then Some(2)
    else None
  }

  /** Pushing an accepted disk keeps a rod in order. */
  lemma PushKeepsDecreasing(rod: seq<int>, d: int)
    requires Decreasing(rod) && Accepts(rod, d)
    ensures Decreasing(rod + [d])
  {
    var r := rod + [d];
    forall i, j | 0 <= i < j < |r| ensures r[i] > r[j] {
      if j == |rod| {
        assert r[i] == rod[i];
        assert rod[i] >= rod[|rod| - 1] by {
          if i < |rod| - 1 { assert rod[i] > rod[|rod| - 1]; }
        }
      }
    }
  }
}
