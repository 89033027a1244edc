/**
  One iteration of the main loop (towerofhanoi.py lines 105-139) as a function
  of the previous state and the frame's input, and what it guarantees over
  any run of frames. Camera, hand tracking and drawing are outside the model:
  a frame's input is the detected hand (if any) reduced to the index
  fingertip's pixel position and the pinch flag, the frame width, and the
  200 random lives the win would draw.
 */
module Frame {
  import opened Wrappers
  import opened Rods
  import opened Puzzle
  import opened Celebration

  /** The detected hand: fingertip pixel position (lines 109-110) and pinch (line 112). */
  datatype Hand = Hand(x: int, y: int, pinched: bool)

  /** One frame's input. */
  datatype Input = Input(hand: Option<Hand>, width: int, spawn: seq<int>)

  /** The game globals of lines 8-14 that the loop changes; `lives` are the confetti lifetimes. */
  datatype State = State(puzzle: Puzzle, cursor: Option<(int, int)>, hasWon: bool, lives: seq<int>)

  /** What the camera and the random generator can deliver. */
  predicate InputOk(i: Input)
  {
    i.width >= 3 && SpawnLivesOk(i.spawn)
  }

  /** Every input of a run is one the camera and the generator can deliver. */
  predicate InputsOk(inputs: seq<Input>)
  {
    forall k :: 0 <= k < |inputs| ==> InputOk(inputs[k])
  }

  /** Every frame of a run has a width the rod bands can divide. */
  predicate WidthsOk(inputs: seq<Input>)
  {
    forall k :: 0 <= k < |inputs| ==> inputs[k].width >= 3
  }

  /** The state before the first frame (lines 8-14). */
  function InitialState(): State
  {
    State(Initial(), None, false, [])
  }

  /** Lines 106-134: the hand's effect on the puzzle, the win latch and the spawn. */
  function Handle(s: State, h: Hand, width: int, spawn: seq<int>): (t: State)
    requires |s.puzzle.towers| == RodCount && width >= 3
    ensures |t.puzzle.towers| == RodCount
  {
    var r := RodIndex(h.x, width);
    var p := Interact(s.puzzle, r, h.pinched);
    var cursor :=
      if h.pinched then Some((h.x, h.y))
      else if s.puzzle.held.Some? then None
      else s.cursor;
    if IsGameWon(p.towers) then State(p, cursor, true, s.lives + spawn)
    else State(p, cursor, s.hasWon, s.lives)
  }

  /** One whole frame: input is handled only with a hand and before the win (line 105);
      once won, the confetti advances every frame (lines 136-139). */
  function Step(s: State, i: Input): (t: State)
    requires |s.puzzle.towers| == RodCount && i.width >= 3
    ensures |t.puzzle.towers| == RodCount
  {
    var s1 := if i.hand.Some? && !s.hasWon then Handle(s, i.hand.value, i.width, i.spawn) else s;
    if s1.hasWon then s1.(lives := Tick(s1.lives)) else s1
  }

  /** What holds of every state the loop reaches. */
  ghost predicate Inv(s: State)
  {
    Valid(s.puzzle)
    && (s.hasWon <==> IsGameWon(s.puzzle.towers))
    && (!s.hasWon ==> s.lives == [])
    && LivesWithin(s.lives, MaxLife)
    && (s.puzzle.held.Some? ==> s.cursor.Some?)
  }

  lemma InitialStateInv()
    ensures Inv(InitialState())
  {
    InitialValid();
  }

  /** Handling a hand before the win keeps the invariant: the puzzle stays valid, the
      latch tracks the solved position, and the fresh batch is the only confetti. */
  lemma HandleInv(s: State, h: Hand, width: int, spawn: seq<int>)
    requires Inv(s) && !s.hasWon && width >= 3 && SpawnLivesOk(spawn)
    ensures var t := Handle(s, h, width, spawn);
            Inv(t) && (t.hasWon ==> t.lives == spawn)
  {
    var r := RodIndex(h.x, width);
    var p := Interact(s.puzzle, r, h.pinched);
    InteractPreservesValid(s.puzzle, r, h.pinched);
    assert s.lives == [];
    assert !h.pinched ==> p.held.None?;
    var cursor :=
      if h.pinched then Some((h.x, h.y))
      else if s.puzzle.held.Some? then None
      else s.cursor;
    assert p.held.Some? ==> cursor.Some?;
    var t := Handle(s, h, width, spawn);
    assert t.puzzle == p && t.cursor == cursor;
    assert t.hasWon == IsGameWon(p.towers);
    assert t.lives == if t.hasWon then s.lives + spawn else s.lives;
    assert s.lives + spawn == spawn;
    SpawnWithin(spawn);
    assert LivesWithin(t.lives, MaxLife) by {
      if t.hasWon {
        assert t.lives == spawn;
      } else {
        assert t.lives == [];
      }
    }
  }

  /** A celebration tick keeps the invariant. */
  lemma TickKeepsInv(s: State)
    requires Inv(s) && s.hasWon
    ensures Inv(s.(lives := Tick(s.lives)))
  {
    TickShrinks(s.lives, MaxLife);
  }

  /** A frame keeps the invariant: rods ordered, disks {1, 2, 3} conserved, the latch
      tracking the solved position, the confetti within its lifetime bound. */
  lemma StepPreservesInv(s: State, i: Input)
    requires Inv(s) && InputOk(i)
    ensures Inv(Step(s, i))
  {
    var s1 := if i.hand.Some? && !s.hasWon then Handle(s, i.hand.value, i.width, i.spawn) else s;
    if i.hand.Some? && !s.hasWon {
      HandleInv(s, i.hand.value, i.width, i.spawn);
    }
    assert Inv(s1);
    if s1.hasWon {
      TickKeepsInv(s1);
    }
  }

  /**
    The win latch: `hasWon` turns on exactly on a frame with a hand whose move
    leaves the full stack on the last rod, never turns off, and while it is on,
    or on a frame without a hand, the rods, the hand and the cursor stay put.
   */
  lemma WinLatch(s: State, i: Input)
    requires Inv(s) && InputOk(i)
    ensures Step(s, i).hasWon <==> s.hasWon || (i.hand.Some? && IsGameWon(Step(s, i).puzzle.towers))
    ensures s.hasWon || i.hand.None? ==>
              Step(s, i).puzzle == s.puzzle && Step(s, i).cursor == s.cursor
  {
  }

  /** The win frame spawns exactly 200 confetti, all of which survive its own tick;
      after the win nothing is spawned and the count only shrinks. */
  lemma ConfettiLifecycle(s: State, i: Input)
    requires Inv(s) && InputOk(i)
    ensures !s.hasWon && Step(s, i).hasWon ==>
              Step(s, i).lives == Decremented(i.spawn) && |Step(s, i).lives| == SpawnCount
    ensures !Step(s, i).hasWon ==> Step(s, i).lives == []
    ensures s.hasWon ==> Step(s, i).lives == Tick(s.lives) && |Step(s, i).lives| <= |s.lives|
  {
    if !s.hasWon && Step(s, i).hasWon {
      var s1 := Handle(s, i.hand.value, i.width, i.spawn);
      assert s.lives + i.spawn == i.spawn;
      assert Step(s, i).lives == Tick(s1.lives);
      SpawnSurvivesFirstTick(i.spawn);
    }
    if s.hasWon {
      TickShrinks(s.lives, MaxLife);
    }
  }

  /** A run of frames, the last input processed last. */
  function Run(s: State, inputs: seq<Input>): (t: State)
    requires |s.puzzle.towers| == RodCount
    requires WidthsOk(inputs)
    ensures |t.puzzle.towers| == RodCount
    decreases |inputs|
  {
    if inputs == [] then s
    else Step(Run(s, inputs[..|inputs| - 1]), inputs[|inputs| - 1])
  }

  /** Every state the loop reaches satisfies the invariant. */
  lemma {:induction false} RunPreservesInv(s: State, inputs: seq<Input>)
    requires Inv(s)
    requires InputsOk(inputs)
    ensures Inv(Run(s, inputs))
    decreases |inputs|
  {
    if inputs != [] {
      RunPreservesInv(s, inputs[..|inputs| - 1]);
      StepPreservesInv(Run(s, inputs[..|inputs| - 1]), inputs[|inputs| - 1]);
    }
  }

  /** In every reachable state the rods are ordered and the disks {1, 2, 3} are all in play. */
  lemma ReachableValid(inputs: seq<Input>)
    requires InputsOk(inputs)
    ensures Valid(Run(InitialState(), inputs).puzzle)
  {
    InitialStateInv();
    RunPreservesInv(InitialState(), inputs);
  }

  /** Once won, no later frame moves a disk, the hand or the cursor, and the
      confetti just ticks down once per frame. */
  lemma {:induction false} FrozenAfterWin(s: State, inputs: seq<Input>)
    requires Inv(s) && s.hasWon
    requires InputsOk(inputs)
    ensures Run(s, inputs) == s.(lives := Ticks(s.lives, |inputs|))
    decreases |inputs|
  {
    if inputs != [] {
      var init := inputs[..|inputs| - 1];
      FrozenAfterWin(s, init);
      TicksLast(s.lives, |init|);
    }
  }

  /** The last of `n + 1` ticks can be taken last. */
  lemma {:induction false} TicksLast(lives: seq<int>, n: nat)
    ensures Ticks(lives, n + 1) == Tick(Ticks(lives, n))
    decreases n
  {
    if n > 0 {
      TicksLast(Tick(lives), n - 1);
    }
  }

  /** 100 frames after the win, every confetti particle has expired. */
  lemma ConfettiGoneAfterWin(s: State, inputs: seq<Input>)
    requires Inv(s) && s.hasWon && |inputs| >= MaxLife
    requires InputsOk(inputs)
    ensures Run(s, inputs).lives == []
  {
    FrozenAfterWin(s, inputs);
    ExpiredAfter(s.lives, |inputs|);
  }

  /** A hand pinching (or not) over the middle of rod `r` on a 300-pixel frame. */
  function Over(r: nat, pinched: bool, spawn: seq<int>): (i: Input)
    ensures i.width >= 3 && i.spawn == spawn
  {
    Input(Some(Hand(100 * r + 50, 240, pinched)), 300, spawn)
  }

  /** The optimal seven-move solution, one pinch frame and one release frame per move. */
  function Solution(spawn: seq<int>): (inputs: seq<Input>)
    ensures |inputs| == 14 && WidthsOk(inputs)
  {
    [ Over(0, true, spawn), Over(2, false, spawn), Over(0, true, spawn), Over(1, false, spawn),
      Over(2, true, spawn), Over(1, false, spawn), Over(0, true, spawn), Over(2, false, spawn),
      Over(1, true, spawn), Over(0, false, spawn), Over(1, true, spawn), Over(2, false, spawn),
      Over(0, true, spawn), Over(2, false, spawn) ]
  }

  /** Extending a run by one input takes one more step. */
  lemma RunExtend(s: State, inputs: seq<Input>, k: nat)
    requires |s.puzzle.towers| == RodCount && k < |inputs|
    requires WidthsOk(inputs)
    ensures Run(s, inputs[..k + 1]) == Step(Run(s, inputs[..k]), inputs[k])
  {
    assert inputs[..k + 1][..k] == inputs[..k];
  }

  /** A run that has reached `a` after `k` inputs reaches `Step(a, ins[k])` after `n == k + 1`. */
  lemma RunFrame(s0: State, ins: seq<Input>, k: nat, n: nat, a: State, i: Input)
    requires |s0.puzzle.towers| == RodCount && n == k + 1 && n <= |ins| && WidthsOk(ins)
    requires Run(s0, ins[..k]) == a && ins[k] == i
    ensures |a.puzzle.towers| == RodCount && i.width >= 3 && Run(s0, ins[..n]) == Step(a, i)
  {
    RunExtend(s0, ins, k);
  }

  /** Before the win, a frame with a hand makes the move of the rod under the fingertip
      and latches exactly on a solved position. */
  lemma HandFrame(s: State, h: Hand, width: int, spawn: seq<int>)
    requires |s.puzzle.towers| == RodCount && width >= 3 && !s.hasWon
    ensures var t := Step(s, Input(Some(h), width, spawn));
            t.puzzle == Interact(s.puzzle, RodIndex(h.x, width), h.pinched)
            && t.hasWon == IsGameWon(t.puzzle.towers)
  {
  }

  /** Before the win, opening the fingers with nothing in hand changes neither the
      puzzle nor the cursor (the guard of line 119). */
  lemma ReleaseEmptyHandFrame(s: State, h: Hand, width: int, spawn: seq<int>)
    requires |s.puzzle.towers| == RodCount && width >= 3 && !s.hasWon
    requires !h.pinched && s.puzzle.held.None?
    ensures var t := Step(s, Input(Some(h), width, spawn));
            t.puzzle == s.puzzle && t.cursor == s.cursor
  {
  }

  /** Before the win, a frame over the middle of rod `r` makes that rod's move and
      latches on a solved position. */
  lemma MoveFrame(s: State, r: nat, pinched: bool, spawn: seq<int>)
    requires |s.puzzle.towers| == RodCount && r < RodCount && !s.hasWon
    ensures Step(s, Over(r, pinched, spawn)).puzzle == Interact(s.puzzle, r, pinched)
    ensures Step(s, Over(r, pinched, spawn)).hasWon == IsGameWon(Interact(s.puzzle, r, pinched).towers)
  {
    assert RodIndex(100 * r + 50, 300) == r;
    HandFrame(s, Hand(100 * r + 50, 240, pinched), 300, spawn);
  }

  /** Before the win, a pinch over a non-empty rod with nothing held lifts its top disk. */
  lemma PinchFrame(s: State, r: nat, spawn: seq<int>)
    requires |s.puzzle.towers| == RodCount && r < RodCount && !s.hasWon
    requires s.puzzle.held.None? && s.puzzle.towers[r] != []
    ensures var t := Step(s, Over(r, true, spawn)); var rod := s.puzzle.towers[r];
            t.puzzle.towers == s.puzzle.towers[r := rod[..|rod| - 1]] && t.puzzle.held == Some(rod[|rod| - 1])
            && t.hasWon == IsGameWon(t.puzzle.towers)
  {
    MoveFrame(s, r, true, spawn);
  }

  /** Before the win, a release over a rod that accepts the held disk puts it there. */
  lemma DropFrame(s: State, r: nat, spawn: seq<int>)
    requires |s.puzzle.towers| == RodCount && r < RodCount && !s.hasWon
    requires s.puzzle.held.Some? && Accepts(s.puzzle.towers[r], s.puzzle.held.value)
    ensures var t := Step(s, Over(r, false, spawn));
            t.puzzle.towers == Push(s.puzzle.towers, r, s.puzzle.held.value) && t.puzzle.held == None
            && t.hasWon == IsGameWon(t.puzzle.towers)
  {
    MoveFrame(s, r, false, spawn);
    PlaceSpec(s.puzzle.towers, s.puzzle.held.value, r);
  }

  /** `after` is `before` with the top disk of rod `from` moved legally onto rod `to`,
      and lifting it does not leave the puzzle solved. */
  ghost predicate IsMove(before: seq<seq<int>>, after: seq<seq<int>>, from: nat, to: nat)
  {
    && from < RodCount && to < RodCount && from != to
    && |before| == RodCount && |after| == RodCount
    && before[from] != [] && after[from] == before[from][..|before[from]| - 1]
    && Accepts(before[to], before[from][|before[from]| - 1])
    && after[to] == before[to] + [before[from][|before[from]| - 1]]
    && (forall j :: 0 <= j < RodCount && j != from && j != to ==> after[j] == before[j])
    && !IsGameWon(before[from := after[from]])
  }

  /** The rods after lifting the top of `from` and pushing it onto `to`. */
  lemma MovedTowers(before: seq<seq<int>>, after: seq<seq<int>>, from: nat, to: nat)
    requires IsMove(before, after, from, to)
    ensures Push(before[from := after[from]], to, before[from][|before[from]| - 1]) == after
  {
    var moved := Push(before[from := after[from]], to, before[from][|before[from]| - 1]);
    assert forall j :: 0 <= j < RodCount ==> moved[j] == after[j];
  }

  /**
    Two frames that move the top disk of rod `from` onto rod `to` before the
    win: a pinch over `from`, then a release over `to`, which accepts the disk.
    The rods go from `before` to `after`, and the latch and the confetti react
    to `after` alone.
   */
  lemma StepMove(from: nat, to: nat, spawn: seq<int>, before: seq<seq<int>>, after: seq<seq<int>>)
    requires IsMove(before, after, from, to)
    ensures var b := Step(State(Puzzle(before, None), None, false, []), Over(from, true, spawn));
            !b.hasWon
            && Step(b, Over(to, false, spawn))
               == State(Puzzle(after, None), None, IsGameWon(after), if IsGameWon(after) then Tick(spawn) else [])
  {
    var a := State(Puzzle(before, None), None, false, []);
    PinchFrame(a, from, spawn);
    var b := Step(a, Over(from, true, spawn));
    assert b.puzzle.towers == before[from := after[from]];
    DropFrame(b, to, spawn);
    MovedTowers(before, after, from, to);
    var c := Step(b, Over(to, false, spawn));
    assert c.puzzle == Puzzle(after, None);
    assert c.cursor == None;
    assert [] + spawn == spawn;
    assert c.lives == if IsGameWon(after) then Tick(spawn) else [];
  }

  /** Move 1 of the solution is a legal move. */
  lemma MoveLegalOne()
    ensures IsMove([[3, 2, 1], [], []], [[3, 2], [], [1]], 0, 2)
  {
    assert [3, 2, 1][..2] == [3, 2];
    assert [] + [1] == [1];
  }

  /** Frame 0 of the solution: the pinch that starts move 1. */
  lemma SolutionPinchOne(spawn: seq<int>)
    ensures Run(InitialState(), Solution(spawn)[..1]) == Step(State(Puzzle([[3, 2, 1], [], []], None), None, false, []), Over(0, true, spawn))
  {
    assert Run(InitialState(), Solution(spawn)[..0]) == InitialState();
    RunFrame(InitialState(), Solution(spawn), 0, 1, State(Puzzle([[3, 2, 1], [], []], None), None, false, []), Over(0, true, spawn));
  }

  /** Frames 0 and 1 of the solution: the top disk of rod 0 goes to rod 2. */
  lemma SolutionMoveOne(spawn: seq<int>)
    ensures !Run(InitialState(), Solution(spawn)[..1]).hasWon
    ensures Run(InitialState(), Solution(spawn)[..2]) == State(Puzzle([[3, 2], [], [1]], None), None, false, [])
  {
    SolutionPinchOne(spawn);
    MoveLegalOne();
    var a := State(Puzzle([[3, 2, 1], [], []], None), None, false, []);
    StepMove(0, 2, spawn, [[3, 2, 1], [], []], [[3, 2], [], [1]]);
    RunFrame(InitialState(), Solution(spawn), 1, 2, Step(a, Over(0, true, spawn)), Over(2, false, spawn));
  }

  /** Move 2 of the solution is a legal move. */
  lemma MoveLegalTwo()
    ensures IsMove([[3, 2], [], [1]], [[3], [2], [1]], 0, 1)
  {
    assert [3, 2][..1] == [3];
    assert [] + [2] == [2];
  }

  /** Frame 2 of the solution: the pinch that starts move 2. */
  lemma SolutionPinchTwo(spawn: seq<int>)
    ensures Run(InitialState(), Solution(spawn)[..3]) == Step(State(Puzzle([[3, 2], [], [1]], None), None, false, []), Over(0, true, spawn))
  {
    SolutionMoveOne(spawn);
    RunFrame(InitialState(), Solution(spawn), 2, 3, State(Puzzle([[3, 2], [], [1]], None), None, false, []), Over(0, true, spawn));
  }

  /** Frames 2 and 3 of the solution: the top disk of rod 0 goes to rod 1. */
  lemma SolutionMoveTwo(spawn: seq<int>)
    ensures !Run(InitialState(), Solution(spawn)[..3]).hasWon
    ensures Run(InitialState(), Solution(spawn)[..4]) == State(Puzzle([[3], [2], [1]], None), None, false, [])
  {
    SolutionPinchTwo(spawn);
    MoveLegalTwo();
    var a := State(Puzzle([[3, 2], [], [1]], None), None, false, []);
    StepMove(0, 1, spawn, [[3, 2], [], [1]], [[3], [2], [1]]);
    RunFrame(InitialState(), Solution(spawn), 3, 4, Step(a, Over(0, true, spawn)), Over(1, false, spawn));
  }

  /** Move 3 of the solution is a legal move. */
  lemma MoveLegalThree()
    ensures IsMove([[3], [2], [1]], [[3], [2, 1], []], 2, 1)
  {
    assert [1][..0] == [];
    assert [2] + [1] == [2, 1];
  }

  /** Frame 4 of the solution: the pinch that starts move 3. */
  lemma SolutionPinchThree(spawn: seq<int>)
    ensures Run(InitialState(), Solution(spawn)[..5]) == Step(State(Puzzle([[3], [2], [1]], None), None, false, []), Over(2, true, spawn))
  {
    SolutionMoveTwo(spawn);
    RunFrame(InitialState(), Solution(spawn), 4, 5, State(Puzzle([[3], [2], [1]], None), None, false, []), Over(2, true, spawn));
  }

  /** Frames 4 and 5 of the solution: the top disk of rod 2 goes to rod 1. */
  lemma SolutionMoveThree(spawn: seq<int>)
    ensures !Run(InitialState(), Solution(spawn)[..5]).hasWon
    ensures Run(InitialState(), Solution(spawn)[..6]) == State(Puzzle([[3], [2, 1], []], None), None, false, [])
  {
    SolutionPinchThree(spawn);
    MoveLegalThree();
    var a := State(Puzzle([[3], [2], [1]], None), None, false, []);
    StepMove(2, 1, spawn, [[3], [2], [1]], [[3], [2, 1], []]);
    RunFrame(InitialState(), Solution(spawn), 5, 6, Step(a, Over(2, true, spawn)), Over(1, false, spawn));
  }

  /** Move 4 of the solution is a legal move. */
  lemma MoveLegalFour()
    ensures IsMove([[3], [2, 1], []], [[], [2, 1], [3]], 0, 2)
  {
    assert [3][..0] == [];
    assert [] + [3] == [3];
  }

  /** Frame 6 of the solution: the pinch that starts move 4. */
  lemma SolutionPinchFour(spawn: seq<int>)
    ensures Run(InitialState(), Solution(spawn)[..7]) == Step(State(Puzzle([[3], [2, 1], []], None), None, false, []), Over(0, true, spawn))
  {
    SolutionMoveThree(spawn);
    RunFrame(InitialState(), Solution(spawn), 6, 7, State(Puzzle([[3], [2, 1], []], None), None, false, []), Over(0, true, spawn));
  }

  /** Frames 6 and 7 of the solution: the largest disk goes to rod 2. */
  lemma SolutionMoveFour(spawn: seq<int>)
    ensures !Run(InitialState(), Solution(spawn)[..7]).hasWon
    ensures Run(InitialState(), Solution(spawn)[..8]) == State(Puzzle([[], [2, 1], [3]], None), None, false, [])
  {
    SolutionPinchFour(spawn);
    MoveLegalFour();
    var a := State(Puzzle([[3], [2, 1], []], None), None, false, []);
    StepMove(0, 2, spawn, [[3], [2, 1], []], [[], [2, 1], [3]]);
    RunFrame(InitialState(), Solution(spawn), 7, 8, Step(a, Over(0, true, spawn)), Over(2, false, spawn));
  }

  /** Move 5 of the solution is a legal move. */
  lemma MoveLegalFive()
    ensures IsMove([[], [2, 1], [3]], [[1], [2], [3]], 1, 0)
  {
    assert [2, 1][..1] == [2];
    assert [] + [1] == [1];
  }

  /** Frame 8 of the solution: the pinch that starts move 5. */
  lemma SolutionPinchFive(spawn: seq<int>)
    ensures Run(InitialState(), Solution(spawn)[..9]) == Step(State(Puzzle([[], [2, 1], [3]], None), None, false, []), Over(1, true, spawn))
  {
    SolutionMoveFour(spawn);
    RunFrame(InitialState(), Solution(spawn), 8, 9, State(Puzzle([[], [2, 1], [3]], None), None, false, []), Over(1, true, spawn));
  }

  /** Frames 8 and 9 of the solution: the top disk of rod 1 goes to rod 0. */
  lemma SolutionMoveFive(spawn: seq<int>)
    ensures !Run(InitialState(), Solution(spawn)[..9]).hasWon
    ensures Run(InitialState(), Solution(spawn)[..10]) == State(Puzzle([[1], [2], [3]], None), None, false, [])
  {
    SolutionPinchFive(spawn);
    MoveLegalFive();
    var a := State(Puzzle([[], [2, 1], [3]], None), None, false, []);
    StepMove(1, 0, spawn, [[], [2, 1], [3]], [[1], [2], [3]]);
    RunFrame(InitialState(), Solution(spawn), 9, 10, Step(a, Over(1, true, spawn)), Over(0, false, spawn));
  }

  /** Move 6 of the solution is a legal move. */
  lemma MoveLegalSix()
    ensures IsMove([[1], [2], [3]], [[1], [], [3, 2]], 1, 2)
  {
    assert [2][..0] == [];
    assert [3] + [2] == [3, 2];
  }

  /** Frame 10 of the solution: the pinch that starts move 6. */
  lemma SolutionPinchSix(spawn: seq<int>)
    ensures Run(InitialState(), Solution(spawn)[..11]) == Step(State(Puzzle([[1], [2], [3]], None), None, false, []), Over(1, true, spawn))
  {
    SolutionMoveFive(spawn);
    RunFrame(InitialState(), Solution(spawn), 10, 11, State(Puzzle([[1], [2], [3]], None), None, false, []), Over(1, true, spawn));
  }

  /** Frames 10 and 11 of the solution: the top disk of rod 1 goes to rod 2. */
  lemma SolutionMoveSix(spawn: seq<int>)
    ensures !Run(InitialState(), Solution(spawn)[..11]).hasWon
    ensures Run(InitialState(), Solution(spawn)[..12]) == State(Puzzle([[1], [], [3, 2]], None), None, false, [])
  {
    SolutionPinchSix(spawn);
    MoveLegalSix();
    var a := State(Puzzle([[1], [2], [3]], None), None, false, []);
    StepMove(1, 2, spawn, [[1], [2], [3]], [[1], [], [3, 2]]);
    RunFrame(InitialState(), Solution(spawn), 11, 12, Step(a, Over(1, true, spawn)), Over(2, false, spawn));
  }

  /** Move 7 of the solution is a legal move. */
  lemma MoveLegalSeven()
    ensures IsMove([[1], [], [3, 2]], [[], [], [3, 2, 1]], 0, 2)
  {
    assert [1][..0] == [];
    assert [3, 2] + [1] == [3, 2, 1];
  }

  /** Frame 12 of the solution: the pinch that starts move 7. */
  lemma SolutionPinchSeven(spawn: seq<int>)
    ensures Run(InitialState(), Solution(spawn)[..13]) == Step(State(Puzzle([[1], [], [3, 2]], None), None, false, []), Over(0, true, spawn))
  {
    SolutionMoveSix(spawn);
    RunFrame(InitialState(), Solution(spawn), 12, 13, State(Puzzle([[1], [], [3, 2]], None), None, false, []), Over(0, true, spawn));
  }

  /** Frames 12 and 13 of the solution: the smallest disk completes rod 2. */
  lemma SolutionMoveSeven(spawn: seq<int>)
    ensures !Run(InitialState(), Solution(spawn)[..13]).hasWon
    ensures Run(InitialState(), Solution(spawn)[..14]) == State(Puzzle([[], [], [3, 2, 1]], None), None, true, Tick(spawn))
  {
    SolutionPinchSeven(spawn);
    MoveLegalSeven();
    var a := State(Puzzle([[1], [], [3, 2]], None), None, false, []);
    StepMove(0, 2, spawn, [[1], [], [3, 2]], [[], [], [3, 2, 1]]);
    RunFrame(InitialState(), Solution(spawn), 13, 14, Step(a, Over(0, true, spawn)), Over(2, false, spawn));
  }

  /** Playing the optimal solution wins on its very last frame and not before. */
  lemma CanonicalSolution(spawn: seq<int>)
    ensures !Run(InitialState(), Solution(spawn)[..13]).hasWon
    ensures Run(InitialState(), Solution(spawn)).hasWon
    ensures Run(InitialState(), Solution(spawn)).puzzle == Puzzle([[], [], [3, 2, 1]], None)
  {
    SolutionMoveSeven(spawn);
    assert Solution(spawn)[..14] == Solution(spawn);
  }
}
