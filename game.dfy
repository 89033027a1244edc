/**
  The main loop's mutable game state (towerofhanoi.py lines 8-14) as an
  object, and the body of the loop (lines 105-139) as methods that update it
  in place. Each method is proved against the value-level specification in
  frame.dfy and puzzle.dfy, so every property proved there holds of the object.
 */
module Game {
  import opened Wrappers
  import opened Rods
  import opened Puzzle
  import opened Celebration
  import opened Frame

  /** The remaining lives of a particle list, in order. */
  ghost function LivesOf(sky: seq<Confetti>): (lives: seq<int>)
    reads set c | c in sky
    ensures |lives| == |sky| && forall k :: 0 <= k < |sky| ==> lives[k] == sky[k].life
  {
    seq(|sky|, k reads set c | c in sky requires 0 <= k < |sky| => sky[k].life)
  }

  /** No particle object appears twice in the list. */
  ghost predicate Distinct(sky: seq<Confetti>)
  {
    forall i, j :: 0 <= i < j < |sky| ==> sky[i] != sky[j]
  }

  lemma LivesOfSnoc(sky: seq<Confetti>, c: Confetti)
    ensures LivesOf(sky + [c]) == LivesOf(sky) + [c.life]
  {
    assert forall k :: 0 <= k < |sky| ==> (sky + [c])[k] == sky[k];
  }

  /** Appending the next particle of a distinct list to a list drawn from its prefix keeps it distinct. */
  lemma DistinctSnoc(kept: seq<Confetti>, sky: seq<Confetti>, i: nat)
    requires i < |sky| && Distinct(sky) && Distinct(kept)
    requires forall c :: c in kept ==> c in sky[..i]
    ensures Distinct(kept + [sky[i]])
  {
    assert sky[i] !in sky[..i] by {
      assert forall j :: 0 <= j < i ==> sky[..i][j] == sky[j] && sky[j] != sky[i];
    }
    forall a, b | 0 <= a < b < |kept| + 1
      ensures (kept + [sky[i]])[a] != (kept + [sky[i]])[b]
    {
      if b == |kept| {
        assert kept[a] in sky[..i];
      }
    }
  }

  /** After `i` steps of the filter, `kept` holds exactly the live particles of `sky[..i]`. */
  ghost predicate Filtered(sky: seq<Confetti>, lives: seq<int>, kept: seq<Confetti>, i: nat)
    reads set c | c in kept
  {
    && i <= |sky| == |lives|
    && LivesOf(kept) == KeepAlive(lives[..i])
    && Distinct(kept)
    && (forall c :: c in kept ==> c in sky[..i])
  }

  /** One step of the filter keeps the particle `sky[i]` exactly when it is alive. */
  lemma FilterStep(sky: seq<Confetti>, lives: seq<int>, kept: seq<Confetti>, i: nat)
    requires Distinct(sky) && lives == LivesOf(sky)
    requires i < |sky| && Filtered(sky, lives, kept, i)
    ensures Filtered(sky, lives, if sky[i].life > 0 then kept + [sky[i]] else kept, i + 1)
  {
    assert lives[..i + 1] == lives[..i] + [sky[i].life];
    KeepAliveSnoc(lives[..i], sky[i].life);
    assert sky[..i + 1] == sky[..i] + [sky[i]];
    if sky[i].life > 0 {
      DistinctSnoc(kept, sky, i);
      LivesOfSnoc(kept, sky[i]);
    }
  }

  /** The list comprehension of line 139: the particles of `sky` that are still alive. */
  method AliveParticles(sky: seq<Confetti>) returns (kept: seq<Confetti>)
    requires Distinct(sky)
    ensures LivesOf(kept) == KeepAlive(LivesOf(sky))
    ensures Distinct(kept)
    ensures forall c :: c in kept ==> c in sky
  {
    ghost var lives := LivesOf(sky);
    kept := [];
    for i := 0 to |sky|
      invariant Filtered(sky, lives, kept, i)
    {
      FilterStep(sky, lives, kept, i);
      if sky[i].IsAlive() {
        kept := kept + [sky[i]];
      }
    }
    assert lives[..|sky|] == lives && sky[..|sky|] == sky;
  }

  /** The loop of lines 137-138: every particle of `sky` is updated once. */
  method UpdateAll(sky: seq<Confetti>)
    requires Distinct(sky)
    modifies set c | c in sky
    ensures LivesOf(sky) == Decremented(old(LivesOf(sky)))
  {
    ghost var before := LivesOf(sky);
    for i := 0 to |sky|
      invariant forall j :: 0 <= j < i ==> sky[j].life == before[j] - 1
      invariant forall j :: i <= j < |sky| ==> sky[j].life == before[j]
    {
      sky[i].Update();
    }
    ghost var after := LivesOf(sky);
    assert |after| == |Decremented(before)|;
    assert forall k :: 0 <= k < |sky| ==> after[k] == Decremented(before)[k];
  }

  class HanoiGame {
    /** The three rods; the list of lists is never rebound, its rods are mutated. */
    const towers: array<seq<int>>
    var held: Option<int>
    var cursor: Option<(int, int)>
    var hasWon: bool
    var confetti: seq<Confetti>

    /** The state as a value. */
    ghost function Model(): State
      reads this, towers, set c | c in confetti
    {
      State(Puzzle(towers[..], held), cursor, hasWon, LivesOf(confetti))
    }

    ghost predicate Valid()
      reads this, towers, set c | c in confetti
    {
      towers.Length == RodCount && Distinct(confetti) && Inv(Model())
    }

    /** The game setup of lines 8-14. */
    constructor ()
      ensures Valid() && fresh(towers)
      ensures Model() == InitialState()
    {
      towers := new seq<int>[RodCount](i => if i == 0 then [3, 2, 1] else []);
      held, cursor, hasWon, confetti := None, None, false, [];
      new;
      assert towers[..] == [[3, 2, 1], [], []];
      InitialStateInv();
    }

    /** A pinched frame over rod `r` (lines 114-117). */
    method OnPinch(r: nat, x: int, y: int)
      requires towers.Length == RodCount && r < RodCount
      modifies this, towers
      ensures Puzzle(towers[..], held) == PickUp(old(Puzzle(towers[..], held)), r)
      ensures cursor == Some((x, y))
      ensures hasWon == old(hasWon) && confetti == old(confetti)
    {
      if held.None? && towers[r] != [] {
        var rod := towers[r];
        held := Some(rod[|rod| - 1]);
        towers[r] := rod[..|rod| - 1];
      }
      cursor := Some((x, y));
    }

    /** An un-pinched frame over rod `r` (lines 118-128), with the fallback scan. */
    method OnRelease(r: nat)
      requires towers.Length == RodCount && r < RodCount
      modifies this, towers
      ensures Puzzle(towers[..], held) == Drop(old(Puzzle(towers[..], held)), r)
      ensures cursor == if old(held).Some? then None else old(cursor)
      ensures hasWon == old(hasWon) && confetti == old(confetti)
    {
      if held.Some? {
        var d := held.value;
        if Accepts(towers[r], d) {
          towers[r] := towers[r] + [d];
        } else {
          for idx := 0 to RodCount
            invariant towers[..] == old(towers[..])
            invariant forall j :: 0 <= j < idx ==> !Accepts(towers[j], d)
          {
            if Accepts(towers[idx], d) {
              towers[idx] := towers[idx] + [d];
              break;
            }
          }
        }
        held := None;
        cursor := None;
      }
    }

    /** The spawn loop of lines 133-134, with the 200 random lives passed in. */
    method SpawnConfetti(spawn: seq<int>)
      requires |spawn| == SpawnCount && Distinct(confetti)
      modifies this
      ensures LivesOf(confetti) == old(LivesOf(confetti)) + spawn
      ensures Distinct(confetti)
      ensures forall c :: c in confetti ==> c in old(confetti) || fresh(c)
      ensures held == old(held) && cursor == old(cursor) && hasWon == old(hasWon)
    {
      for k := 0 to SpawnCount
        invariant LivesOf(confetti) == old(LivesOf(confetti)) + spawn[..k]
        invariant Distinct(confetti)
        invariant forall c :: c in confetti ==> c in old(confetti) || fresh(c)
        invariant held == old(held) && cursor == old(cursor) && hasWon == old(hasWon)
      {
        var c := new Confetti(spawn[k]);
        confetti := confetti + [c];
        assert spawn[..k + 1] == spawn[..k] + [spawn[k]];
      }
      assert spawn[..SpawnCount] == spawn;
    }

    /** The celebration frame of lines 136-139: update every particle, keep the live ones. */
    method AdvanceConfetti()
      requires Distinct(confetti)
      modifies this, set c | c in confetti
      ensures LivesOf(confetti) == Tick(old(LivesOf(confetti)))
      ensures Distinct(confetti)
      ensures forall c :: c in confetti ==> c in old(confetti)
      ensures held == old(held) && cursor == old(cursor) && hasWon == old(hasWon)
    {
      ghost var before := LivesOf(confetti);
      var sky := confetti;
      UpdateAll(sky);
      var kept := AliveParticles(sky);
      assert LivesOf(kept) == Tick(before);
      confetti := kept;
    }

    /** Lines 106-134: a detected hand before the win moves a disk, and the win is
        latched with its confetti batch. */
    method HandleHand(h: Hand, width: int, spawn: seq<int>)
      requires Valid() && !hasWon && width >= 3 && SpawnLivesOk(spawn)
      modifies this, towers
      ensures towers.Length == RodCount && Distinct(confetti)
      ensures forall c :: c in confetti ==> c in old(confetti) || fresh(c)
      ensures Model() == Handle(old(Model()), h, width, spawn)
    {
      ghost var s0 := Model();
      var r := RodIndex(h.x, width);
      if h.pinched {
        OnPinch(r, h.x, h.y);
      } else {
        OnRelease(r);
      }
      assert Puzzle(towers[..], held) == Interact(s0.puzzle, r, h.pinched);
      assert LivesOf(confetti) == s0.lives;
      if IsGameWon(towers[..]) {
        hasWon := true;
        SpawnConfetti(spawn);
      }
    }

    /** One iteration of the main loop, lines 105-139. */
    method Frame(hand: Option<Hand>, width: int, spawn: seq<int>)
      requires Valid() && width >= 3 && SpawnLivesOk(spawn)
      modifies this, towers, set c | c in confetti
      ensures Valid()
      ensures Model() == Step(old(Model()), Input(hand, width, spawn))
    {
      ghost var s0 := Model();
      if hand.Some? && !hasWon {
        HandleHand(hand.value, width, spawn);
      }
      ghost var s1 := Model();
      if hasWon {
        AdvanceConfetti();
        assert Model() == s1.(lives := Tick(s1.lives));
      }
      StepPreservesInv(s0, Input(hand, width, spawn));
    }
  }
}
