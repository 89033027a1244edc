/**
  The puzzle state the main loop mutates: the three rods and the held disk
  (towerofhanoi.py lines 8-9 and 114-128), as values. The class in game.dfy
  performs these same transitions in place and is proved against them.
 */
module Puzzle {
  import opened Wrappers
  import opened Rods

  datatype Puzzle = Puzzle(towers: seq<seq<int>>, held: Option<int>)

  /** The starting position: all disks on rod 0, nothing held (line 8-9). */
  function Initial(): Puzzle
  {
    Puzzle([[3, 2, 1], [], []], None)
  }

  /** The held disk as a multiset (empty when nothing is held). */
  function HeldDisks(held: Option<int>): multiset<int>
  {
    if held.Some? then multiset{held.value} else multiset{}
  }

  /** Every disk of the game, whether on a rod or in hand. */
  function Disks(p: Puzzle): multiset<int>
    requires |p.towers| == RodCount
  {
    multiset(p.towers[0]) + multiset(p.towers[1]) + multiset(p.towers[2]) + HeldDisks(p.held)
  }

  /** Three rods, each in order, and exactly the disks 1, 2 and 3 in play. */
  ghost predicate Valid(p: Puzzle)
  {
    |p.towers| == RodCount
    && (forall i :: 0 <= i < RodCount ==> Decreasing(p.towers[i]))
    && Disks(p) == multiset{1, 2, 3}
  }

  /** `towers` with `d` appended to rod `i`. */
  function Push(towers: seq<seq<int>>, i: nat, d: int): seq<seq<int>>
    requires i < |towers|
  {
    towers[i := towers[i] + [d]]
  }

  /** A pinch over rod `r` (lines 115-116). */
  function PickUp(p: Puzzle, r: nat): (q: Puzzle)
    requires |p.towers| == RodCount && r < RodCount
    ensures |q.towers| == RodCount
  {
    if p.held.None? && p.towers[r] != [] then
      var rod := p.towers[r];
      Puzzle(p.towers[r := rod[..|rod| - 1]], Some(rod[|rod| - 1]))
    else
      p
  }

  /**
    With nothing held and a non-empty rod under the pointer, the pinch moves that
    rod's top disk into the hand and leaves the other rods alone; otherwise
    nothing changes.
   */
  lemma PickUpSpec(p: Puzzle, r: nat)
    requires |p.towers| == RodCount && r < RodCount
    ensures var q := PickUp(p, r);
            (p.held.None? && p.towers[r] != [] ==>
               q.held.Some? && q.towers[r] + [q.held.value] == p.towers[r]
               && forall j :: 0 <= j < RodCount && j != r ==> q.towers[j] == p.towers[j])
            && (p.held.Some? || p.towers[r] == [] ==> q == p)
  {
    if p.held.None? && p.towers[r] != [] {
      var rod := p.towers[r];
      assert rod[..|rod| - 1] + [rod[|rod| - 1]] == rod;
    }
  }

  /** Where a released disk `d` lands (lines 120-126). */
  function Place(towers: seq<seq<int>>, d: int, r: nat): (t: seq<seq<int>>)
    requires |towers| == RodCount && r < RodCount
    ensures |t| == RodCount
  {
    if Accepts(towers[r], d) then Push(towers, r, d)
    else match FirstLegal(towers, d)
      case Some(i) => Push(towers, i, d)
      case None => towers
  }

  /**
    The disk goes onto rod `r` when that rod accepts it; otherwise onto the
    lowest-indexed rod that accepts it, and onto no other rod; it is lost
    only if no rod accepts it.
   */
  lemma PlaceSpec(towers: seq<seq<int>>, d: int, r: nat)
    requires |towers| == RodCount && r < RodCount
    ensures Accepts(towers[r], d) ==> Place(towers, d, r) == Push(towers, r, d)
    ensures !Accepts(towers[r], d) ==>
              forall i :: 0 <= i < RodCount && Accepts(towers[i], d)
                          && (forall j :: 0 <= j < i ==> !Accepts(towers[j], d))
                          ==> Place(towers, d, r) == Push(towers, i, d)
    ensures (forall i :: 0 <= i < RodCount ==> !Accepts(towers[i], d)) ==> Place(towers, d, r) == towers
  {
  }

  /** A release over rod `r` (lines 119-127): any held disk is placed and the hand emptied. */
  function Drop(p: Puzzle, r: nat): (q: Puzzle)
    requires |p.towers| == RodCount && r < RodCount
    ensures |q.towers| == RodCount && q.held.None?
    ensures p.held.None? ==> q == p
  {
    if p.held.Some? then Puzzle(Place(p.towers, p.held.value, r), None) else p
  }

  /**
    With a disk in hand, the release lands it on the rod under the pointer when
    that rod accepts it, else on the lowest-indexed rod that does, and empties
    the hand; with nothing in hand it changes nothing.
   */
  lemma DropSpec(p: Puzzle, r: nat)
    requires |p.towers| == RodCount && r < RodCount
    ensures var q := Drop(p, r);
            (p.held.Some? && Accepts(p.towers[r], p.held.value) ==>
               q == Puzzle(Push(p.towers, r, p.held.value), None))
            && (p.held.Some? && !Accepts(p.towers[r], p.held.value) ==>
                  q.held.None?
                  && forall i :: 0 <= i < RodCount && Accepts(p.towers[i], p.held.value)
                                 && (forall j :: 0 <= j < i ==> !Accepts(p.towers[j], p.held.value))
                                 ==> q.towers == Push(p.towers, i, p.held.value))
            && (p.held.None? ==> q == p)
  {
    if p.held.Some? {
      PlaceSpec(p.towers, p.held.value, r);
    }
  }

  /** A release fires once: a second release, over any rod, changes nothing. */
  lemma DropOnce(p: Puzzle, r: nat, r2: nat)
    requires |p.towers| == RodCount && r < RodCount && r2 < RodCount
    ensures Drop(Drop(p, r), r2) == Drop(p, r)
  {
  }

  /** One frame's puzzle move with a hand detected over rod `r`. */
  function Interact(p: Puzzle, r: nat, pinched: bool): (q: Puzzle)
    requires |p.towers| == RodCount && r < RodCount
    ensures |q.towers| == RodCount
  {
    if pinched then PickUp(p, r) else Drop(p, r)
  }

  /**
    While a disk is in hand the other two disks sit on three rods, so some rod
    is empty: the fallback scan of lines 123-126 always finds a place.
   */
  lemma SomeRodEmpty(p: Puzzle)
    requires Valid(p) && p.held.Some?
    ensures exists i :: 0 <= i < RodCount && p.towers[i] == []
  {
    assert |Disks(p)| == 3;
    assert |Disks(p)| == |p.towers[0]| + |p.towers[1]| + |p.towers[2]| + 1;
    if p.towers[0] != [] && p.towers[1] != [] {
      assert |p.towers[2]| == 0;
    }
  }

  /** In a valid state, a released disk always lands on some rod, never lost. */
  lemma DropKeepsDisks(p: Puzzle, r: nat)
    requires Valid(p) && p.held.Some? && r < RodCount
    ensures exists i :: 0 <= i < RodCount && Accepts(p.towers[i], p.held.value)
                        && Drop(p, r).towers == Push(p.towers, i, p.held.value)
    ensures Disks(Drop(p, r)) == Disks(p)
  {
    var d := p.held.value;
    var t := Drop(p, r).towers;
    SomeRodEmpty(p);
    PlaceSpec(p.towers, d, r);
    var i: nat :| i < RodCount && Accepts(p.towers[i], d)
                 && t == Push(p.towers, i, d);
    PushDisks(p.towers, i, d);
  }

  /** Appending a disk to one rod adds exactly that disk to the rods' contents. */
  lemma PushDisks(towers: seq<seq<int>>, i: nat, d: int)
    requires |towers| == RodCount && i < RodCount
    ensures Disks(Puzzle(Push(towers, i, d), None)) == Disks(Puzzle(towers, Some(d)))
  {
    assert multiset(towers[i] + [d]) == multiset(towers[i]) + multiset{d};
  }

  /** Taking the top disk off a rod moves exactly that disk into the hand. */
  lemma PopDisks(towers: seq<seq<int>>, r: nat)
    requires |towers| == RodCount && r < RodCount && towers[r] != []
    ensures var rod := towers[r];
            Disks(Puzzle(towers[r := rod[..|rod| - 1]], Some(rod[|rod| - 1])))
            == Disks(Puzzle(towers, None))
  {
    var rod := towers[r];
    assert rod == rod[..|rod| - 1] + [rod[|rod| - 1]];
    assert multiset(rod) == multiset(rod[..|rod| - 1]) + multiset{rod[|rod| - 1]};
  }

  /** A prefix of an ordered rod is ordered. */
  lemma PrefixDecreasing(rod: seq<int>, n: nat)
    requires Decreasing(rod) && n <= |rod|
    ensures Decreasing(rod[..n])
  {
    var rest := rod[..n];
    forall i, j | 0 <= i < j < |rest| ensures rest[i] > rest[j] {
      assert rest[i] == rod[i] && rest[j] == rod[j];
    }
  }

  /** Replacing one ordered rod by another ordered rod keeps every rod ordered. */
  lemma ReplaceKeepsDecreasing(towers: seq<seq<int>>, r: nat, rest: seq<int>, t: seq<seq<int>>)
    requires |towers| == RodCount && r < RodCount && t == towers[r := rest]
    requires (forall i :: 0 <= i < RodCount ==> Decreasing(towers[i])) && Decreasing(rest)
    ensures forall i :: 0 <= i < RodCount ==> Decreasing(t[i])
  {
    forall i | 0 <= i < RodCount ensures Decreasing(t[i]) {
      if i != r { assert t[i] == towers[i]; }
    }
  }

  /** Picking up preserves the disks in play and the order of every rod. */
  lemma PickUpPreservesValid(p: Puzzle, r: nat)
    requires Valid(p) && r < RodCount
    ensures Valid(PickUp(p, r))
  {
    if p.held.None? && p.towers[r] != [] {
      var rod := p.towers[r];
      var rest := rod[..|rod| - 1];
      var q := PickUp(p, r);
      assert q.towers == p.towers[r := rest] && q.held == Some(rod[|rod| - 1]);
      PopDisks(p.towers, r);
      PrefixDecreasing(rod, |rod| - 1);
      ReplaceKeepsDecreasing(p.towers, r, rest, q.towers);
    }
  }

  /** Dropping preserves the disks in play and the order of every rod. */
  lemma DropPreservesValid(p: Puzzle, r: nat)
    requires Valid(p) && r < RodCount
    ensures Valid(Drop(p, r))
  {
    if p.held.Some? {
      var d := p.held.value;
      DropKeepsDisks(p, r);
      var i: nat :| i < RodCount && Accepts(p.towers[i], d)
                   && Drop(p, r).towers == Push(p.towers, i, d);
      PushKeepsDecreasing(p.towers[i], d);
    }
  }

  /** Every pickup and drop keeps the puzzle valid. */
  lemma InteractPreservesValid(p: Puzzle, r: nat, pinched: bool)
    requires Valid(p) && r < RodCount
    ensures Valid(Interact(p, r, pinched))
  {
    if pinched { PickUpPreservesValid(p, r); } else { DropPreservesValid(p, r); }
  }

  /** The starting position is valid. */
  lemma InitialValid()
    ensures Valid(Initial())
  {
    var p := Initial();
    assert Decreasing(p.towers[0]) by {
      forall i, j | 0 <= i < j < 3 ensures p.towers[0][i] > p.towers[0][j] { }
    }
  }

  /** A solved position uses all three disks on the last rod, so nothing is in hand. */
  lemma WonHoldsNothing(p: Puzzle)
    requires Valid(p) && IsGameWon(p.towers)
    ensures p.held.None? && p.towers[0] == [] && p.towers[1] == []
  {
    assert multiset(p.towers[2]) == multiset{1, 2, 3};
    assert |Disks(p)| == 3 + |p.towers[0]| + |p.towers[1]| + |HeldDisks(p.held)|;
  }
}
