/**
  The win confetti, reduced to its integer side: each particle's remaining
  `life` (towerofhanoi.py lines 22-42) and the per-frame tick that decrements
  and filters the particle list (lines 136-139). Positions, velocities,
  gravity and colours are floating-point rendering state and are not modelled.
 */
module Celebration {

  /** Particles spawned at the win (line 133). */
  const SpawnCount := 200

  /** Bounds of `random.randint(60, 100)` for a new particle's life (line 33). */
  const MinLife := 60
  const MaxLife := 100

  /** The lives drawn for one spawn batch: 200 values, each in [60, 100]. */
  predicate SpawnLivesOk(spawn: seq<int>)
  {
    |spawn| == SpawnCount && forall k :: 0 <= k < |spawn| ==> MinLife <= spawn[k] <= MaxLife
  }

  /** Every particle's life after one `update` (line 39). */
  function Decremented(lives: seq<int>): (r: seq<int>)
    ensures |r| == |lives|
    ensures forall k :: 0 <= k < |r| ==> r[k] + 1 == lives[k]
  {
    seq(|lives|, k requires 0 <= k < |lives| => lives[k] - 1)
  }

  /** The list comprehension of line 139: the particles still alive, in order. */
  function KeepAlive(lives: seq<int>): (r: seq<int>)
    ensures |r| <= |lives|
  {
    if lives == [] then []
    else
      var init := lives[..|lives| - 1];
      var last := lives[|lives| - 1];
      KeepAlive(init) + (if last > 0 then [last] else [])
  }

  /** Everything the filter returns is alive and came from the input. */
  lemma {:induction false} KeepAliveSound(lives: seq<int>)
    ensures forall k :: 0 <= k < |KeepAlive(lives)| ==> KeepAlive(lives)[k] > 0 && KeepAlive(lives)[k] in lives
    decreases |lives|
  {
    if lives != [] {
      var init := lives[..|lives| - 1];
      assert lives == init + [lives[|lives| - 1]];
      KeepAliveSound(init);
      assert forall l :: l in init ==> l in lives;
    }
  }

  /** The filter keeps every live entry as often as it occurs and drops every dead one. */
  lemma {:induction false} KeepAliveCounts(lives: seq<int>)
    ensures forall l :: multiset(KeepAlive(lives))[l] == if l > 0 then multiset(lives)[l] else 0
    decreases |lives|
  {
    if lives != [] {
      var init := lives[..|lives| - 1];
      var last := lives[|lives| - 1];
      assert lives == init + [last];
      KeepAliveCounts(init);
      assert multiset(lives) == multiset(init) + multiset{last};
    }
  }

  /** A list that is all alive is kept whole. */
  lemma {:induction false} KeepAliveAllAlive(lives: seq<int>)
    requires forall k :: 0 <= k < |lives| ==> lives[k] > 0
    ensures KeepAlive(lives) == lives
    decreases |lives|
  {
    if lives != [] {
      var init := lives[..|lives| - 1];
      KeepAliveAllAlive(init);
      assert lives == init + [lives[|lives| - 1]];
    }
  }

  /** A list that is all dead is emptied. */
  lemma {:induction false} KeepAliveAllDead(lives: seq<int>)
    requires forall k :: 0 <= k < |lives| ==> lives[k] <= 0
    ensures KeepAlive(lives) == []
    decreases |lives|
  {
    if lives != [] {
      KeepAliveAllDead(lives[..|lives| - 1]);
    }
  }

  /** Filtering one more entry extends the result by that entry exactly when it is alive. */
  lemma KeepAliveSnoc(lives: seq<int>, l: int)
    ensures KeepAlive(lives + [l]) == KeepAlive(lives) + (if l > 0 then [l] else [])
  {
    assert (lives + [l])[..|lives|] == lives;
  }

  /** One celebration frame: update every particle, then drop the dead ones. */
  function Tick(lives: seq<int>): (r: seq<int>)
    ensures |r| <= |lives|
  {
    KeepAlive(Decremented(lives))
  }

  /** `n` celebration frames. */
  function Ticks(lives: seq<int>, n: nat): (r: seq<int>)
    ensures |r| <= |lives|
    decreases n
  {
    if n == 0 then lives else Ticks(Tick(lives), n - 1)
  }

  /** Every particle is alive with at most `n` ticks of life left. */
  ghost predicate LivesWithin(lives: seq<int>, n: int)
  {
    forall k :: 0 <= k < |lives| ==> 0 < lives[k] <= n
  }

  /** The particle count never grows, and every survivor has one tick less to live. */
  lemma TickShrinks(lives: seq<int>, n: int)
    requires LivesWithin(lives, n)
    ensures |Tick(lives)| <= |lives|
    ensures LivesWithin(Tick(lives), n - 1)
  {
    var dec := Decremented(lives);
    var t := Tick(lives);
    KeepAliveSound(dec);
    forall k | 0 <= k < |t| ensures 0 < t[k] <= n - 1 {
      assert t[k] in dec;
      var m :| 0 <= m < |dec| && dec[m] == t[k];
      assert lives[m] <= n;
    }
  }

  /** If every particle is alive and none has more than `n` ticks left, the list is
      empty after `n` ticks. */
  lemma {:induction false} ExpiredAfter(lives: seq<int>, n: nat)
    requires LivesWithin(lives, n)
    ensures Ticks(lives, n) == []
    decreases n
  {
    if n == 0 {
      NoneWithinZero(lives);
    } else {
      TickShrinks(lives, n);
      ExpiredAfter(Tick(lives), n - 1);
    }
  }

  /** No live particle has zero ticks left. */
  lemma NoneWithinZero(lives: seq<int>)
    ensures LivesWithin(lives, 0) ==> lives == []
  {
    if lives != [] {
      assert !(0 < lives[0] <= 0);
    }
  }

  /** A freshly spawned batch has disappeared after 100 ticks. */
  lemma SpawnExpiresAfterMaxLife(spawn: seq<int>)
    requires SpawnLivesOk(spawn)
    ensures Ticks(spawn, MaxLife) == []
  {
    ExpiredAfter(spawn, MaxLife);
  }

  /** A fresh batch lies within the lifetime bound. */
  lemma SpawnWithin(spawn: seq<int>)
    requires SpawnLivesOk(spawn)
    ensures LivesWithin(spawn, MaxLife)
  {
  }

  /** The first tick after the spawn removes nobody: all 200 particles live on. */
  lemma SpawnSurvivesFirstTick(spawn: seq<int>)
    requires SpawnLivesOk(spawn)
    ensures Tick(spawn) == Decremented(spawn)
    ensures |Tick(spawn)| == SpawnCount
  {
    var dec := Decremented(spawn);
    assert forall k :: 0 <= k < |dec| ==> dec[k] > 0;
    KeepAliveAllAlive(dec);
  }

  /** A confetti particle; only its integer lifetime is modelled. */
  class Confetti {
    var life: int

    /** `Confetti(x, y)` with its random life passed in (line 33). */
    constructor (life: int)
      ensures this.life == life
    {
      this.life := life;
    }

    /** `update` (lines 35-39): the particle loses one tick of life. */
    method Update()
      modifies this
      ensures life == old(life) - 1
    {
      life := life - 1;
    }

    /** `is_alive` (lines 41-42). */
    predicate IsAlive()
      reads this
    {
      life > 0
    }
  }
}
