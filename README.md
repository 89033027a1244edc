# Tower of Hanoi, played by hand gestures — a Dafny model

`towerofhanoi.py` is a webcam game. MediaPipe tracks one hand. The x
position of the index fingertip picks one of three vertical bands of the
frame, and each band is a rod. Pinching thumb and index over a rod lifts
that rod's top disk. Opening the fingers drops the held disk: onto the rod
under the finger when that rod accepts it, otherwise onto the first rod,
scanning left to right, that accepts it. When the full stack `[3, 2, 1]`
stands on the last rod, the game latches a win and stops reading the hand.
It also releases 200 confetti particles with random lifetimes of 60 to 100
frames. On the winning frame and on every frame after it, the game ages them
and discards the dead ones.

The project models that game logic. It has two layers.

- A value layer gives the meaning of everything.
  - `rods.dfy` (module `Rods`): the rod index, the stacking rule and the
    win test.
  - `puzzle.dfy` (module `Puzzle`): picking up and dropping, over an
    immutable `Puzzle`.
  - `celebration.dfy` (module `Celebration`): confetti lifetimes.
  - `frame.dfy` (module `Frame`): one main-loop iteration as
    `Step(state, input)`, and runs of frames as `Run`.
- An imperative layer follows the source's own form.
  - `celebration.dfy` holds the `Confetti` class, with its mutable `life`.
  - `game.dfy` (module `Game`) holds the class `HanoiGame`. Its fields are
    the game globals: the rods are an `array` of sequences that is mutated
    in place, and the confetti list is a sequence of objects. Its methods
    run the main-loop body with the source's loops: the fallback scan with
    its `break`, the 200-particle spawn, the update loop and the filter.
  - Each method is proved to produce exactly the new state that the value
    layer prescribes.

The properties proved about the value layer are:
- the rod index always names a rod and never decreases as x grows;
- a dropped disk always finds a rod;
- the disks `{1, 2, 3}` are conserved and every rod stays strictly decreasing;
- the win latch works, and nothing moves once the game is won;
- exactly 200 confetti are spawned and their number never grows;
- 100 frames after the win none are left;
- the seven-move optimal solution, played as 14 frames, wins exactly on its
  last frame.

`wrappers.dfy` holds the `Option` type.

## Model

| member | source | states |
|---|---|---|
| Rods.BandWidth | towerofhanoi.py:51 | `width // 3` is a positive band width, with three bands covering the frame up to a remainder of at most 2 pixels |
| Rods.RodIndexFromX | towerofhanoi.py:50-51 | the index as written is at most 2 and non-negative for x >= 0; below 2 it is the band containing x, and 2 covers everything from the third band on |
| Rods.PyRod | towerofhanoi.py:115 | Python list subscripting of the three rods: an index in [-3, 3) selects rod `i mod 3`; anything else is an error |
| Rods.RodIndex | towerofhanoi.py:50-51 | the corrected index is always a rod (0..2); it agrees with the as-written index for x >= 0 and is 0 for x < 0 |
| Rods.RodIndexFromXMonotone | towerofhanoi.py:50-51 | for non-negative x, moving right never selects a lower rod, and the index stays in [0, 2] |
| Rods.RodIndexMonotone | towerofhanoi.py:50-51 | the corrected index is monotone over all x |
| Rods.NegativeXSelectsLastRod | towerofhanoi.py:50-51 | as written, any x within one band left of the frame gives index -1, which Python resolves to rod 2; the corrected index gives rod 0 |
| Rods.NegativeXExample | towerofhanoi.py:50-51 | concrete witness: x = -1 on a 640-pixel frame selects rod 2 |
| Rods.FirstLegal | towerofhanoi.py:123-126 | the fallback scan's result accepts the disk and no lower rod does; it finds nothing exactly when no rod accepts the disk |
| Rods.Accepts | towerofhanoi.py:120 | the legality test of lines 120 and 124, true for an empty rod or a top larger than the disk (no contract of its own; PushKeepsDecreasing states its meaning) |
| Rods.IsGameWon | towerofhanoi.py:53-54 | `is_game_won`: a solved position has a legal three-disk stack on the last rod with disk 1 on top |
| Rods.PushKeepsDecreasing | towerofhanoi.py:120-121 | appending a disk that the rod accepts keeps the rod strictly decreasing |
| Puzzle.Initial | towerofhanoi.py:8-9 | the starting rods and empty hand (no contract of its own; InitialValid states that it is valid) |
| Puzzle.PickUp | towerofhanoi.py:114-116 | the pinch keeps three rods; PickUpSpec states its meaning |
| Puzzle.PickUpSpec | towerofhanoi.py:114-116 | with an empty hand over a non-empty rod, the pinch moves that rod's top disk into the hand and leaves the other rods alone; otherwise the puzzle is unchanged |
| Puzzle.Place | towerofhanoi.py:120-126 | placing a released disk keeps three rods; PlaceSpec states where it lands |
| Puzzle.PlaceSpec | towerofhanoi.py:120-126 | the disk goes onto the rod under the finger when it accepts the disk, else onto the lowest-indexed rod that accepts it, and is lost only when no rod accepts it |
| Puzzle.Drop | towerofhanoi.py:119-127 | after a release nothing is held, and a release with nothing held changes nothing |
| Puzzle.DropSpec | towerofhanoi.py:119-127 | with a disk in hand, the release puts it on the rod under the pointer when that rod accepts it, else on the lowest-indexed accepting rod, and empties the hand; with nothing in hand the puzzle is unchanged |
| Puzzle.DropOnce | towerofhanoi.py:127 | a release fires once: a second release over any rod changes nothing |
| Puzzle.Interact | towerofhanoi.py:114-128 | any hand frame's puzzle move keeps three rods; InteractPreservesValid states that it keeps the puzzle valid |
| Puzzle.SomeRodEmpty | towerofhanoi.py:123-126 | in a valid position with a disk in hand, some rod is empty, so the fallback scan always finds a rod |
| Puzzle.DropKeepsDisks | towerofhanoi.py:119-127 | in a valid position a released disk lands on some rod that accepts it, and the multiset of disks is unchanged |
| Puzzle.PushDisks | towerofhanoi.py:121 | appending the held disk to a rod moves exactly that disk from the hand to the rods |
| Puzzle.PopDisks | towerofhanoi.py:116 | popping a rod's top into the hand moves exactly that disk from the rods to the hand |
| Puzzle.PickUpPreservesValid | towerofhanoi.py:114-116 | a pinch conserves the disks {1, 2, 3} and keeps every rod strictly decreasing |
| Puzzle.DropPreservesValid | towerofhanoi.py:119-127 | a release conserves the disks {1, 2, 3} and keeps every rod strictly decreasing |
| Puzzle.InteractPreservesValid | towerofhanoi.py:114-128 | any hand frame's puzzle move keeps the puzzle valid |
| Puzzle.InitialValid | towerofhanoi.py:8-9 | the starting position is valid |
| Puzzle.WonHoldsNothing | towerofhanoi.py:53-54 | in a valid solved position nothing is in hand and rods 0 and 1 are empty |
| Celebration.Decremented | towerofhanoi.py:39 | every particle's life drops by exactly one, and the list keeps its length |
| Celebration.KeepAlive | towerofhanoi.py:139 | the filter never lengthens the list |
| Celebration.KeepAliveSound | towerofhanoi.py:139 | every entry the filter keeps is alive and came from its input |
| Celebration.KeepAliveCounts | towerofhanoi.py:139 | the filter keeps each live value exactly as often as it occurs and drops every dead one |
| Celebration.KeepAliveAllAlive | towerofhanoi.py:139 | a list whose entries are all alive passes the filter whole |
| Celebration.KeepAliveAllDead | towerofhanoi.py:139 | a list whose entries are all dead is emptied |
| Celebration.KeepAliveSnoc | towerofhanoi.py:139 | filtering one more entry appends it exactly when it is alive (order is kept) |
| Celebration.Tick | towerofhanoi.py:136-139 | a celebration frame never lengthens the particle list |
| Celebration.Ticks | towerofhanoi.py:136-139 | n celebration frames never lengthen the particle list |
| Celebration.TickShrinks | towerofhanoi.py:136-139 | a celebration frame never increases the particle count, and if every particle had at most n frames left, every survivor has at most n - 1 |
| Celebration.ExpiredAfter | towerofhanoi.py:136-139 | particles that all have at most n frames of life are all gone after n frames |
| Celebration.SpawnExpiresAfterMaxLife | towerofhanoi.py:33 | a batch with lives drawn from [60, 100] is empty after 100 frames |
| Celebration.SpawnWithin | towerofhanoi.py:33 | a fresh batch is all alive, with at most 100 frames each |
| Celebration.SpawnSurvivesFirstTick | towerofhanoi.py:33 | the first frame after the spawn removes nobody: all 200 particles live on with one frame less |
| Celebration.Confetti.constructor | towerofhanoi.py:23-33 | a new particle starts with the life it was given |
| Celebration.Confetti.IsAlive | towerofhanoi.py:41-42 | `is_alive`: the particle has life left (no contract of its own; AliveParticles and KeepAliveSound state what the filter built on it keeps) |
| Celebration.Confetti.Update | towerofhanoi.py:35-39 | `update` lowers the particle's life by exactly one |
| Frame.Handle | towerofhanoi.py:106-134 | handling a hand keeps three rods; what it does to the puzzle, latch and confetti is stated by HandleInv, WinLatch and ConfettiLifecycle |
| Frame.Step | towerofhanoi.py:105-139 | a frame keeps three rods; its meaning is stated by StepPreservesInv, WinLatch and ConfettiLifecycle |
| Frame.InitialState | towerofhanoi.py:8-14 | the setup state (no contract of its own; InitialStateInv states that it meets the invariant) |
| Frame.InitialStateInv | towerofhanoi.py:8-14 | the starting state satisfies the loop invariant |
| Frame.HandleInv | towerofhanoi.py:105-134 | handling a hand before the win keeps the invariant, and on the winning frame the confetti list is exactly the fresh batch |
| Frame.TickKeepsInv | towerofhanoi.py:136-139 | a celebration frame keeps the invariant |
| Frame.StepPreservesInv | towerofhanoi.py:105-139 | every frame keeps rods ordered, disks {1, 2, 3} in play, `has_won` equal to the solved test, no confetti before the win, lifetimes within 100, and a cursor whenever a disk is held |
| Frame.WinLatch | towerofhanoi.py:53-54 | `has_won` becomes true exactly on a frame with a hand whose move solves the puzzle, and never becomes false; after the win, or on a frame with no hand, the rods, the hand and the cursor do not change |
| Frame.ConfettiLifecycle | towerofhanoi.py:130-139 | the winning frame leaves exactly 200 particles, each one frame older; before the win there are none; after it each frame ticks them down and their number never grows |
| Frame.Run | towerofhanoi.py:94-139 | a run of frames keeps three rods; RunPreservesInv and FrozenAfterWin state its meaning |
| Frame.RunPreservesInv | towerofhanoi.py:94-139 | every state reached by any run satisfies the invariant |
| Frame.ReachableValid | towerofhanoi.py:94-139 | from the setup, every reachable position has ordered rods and exactly the disks {1, 2, 3} |
| Frame.FrozenAfterWin | towerofhanoi.py:105 | once won, any later run leaves rods, hand and cursor alone and only ticks the confetti, once per frame |
| Frame.ConfettiGoneAfterWin | towerofhanoi.py:136-139 | 100 or more frames after the win, no confetti remain |
| Frame.HandFrame | towerofhanoi.py:105-131 | before the win, a frame with any hand makes the move of the rod under the fingertip and latches exactly on a solved position |
| Frame.ReleaseEmptyHandFrame | towerofhanoi.py:118-119 | before the win, opening the fingers with nothing in hand leaves the puzzle and the cursor unchanged |
| Frame.MoveFrame | towerofhanoi.py:105-131 | before the win, a frame over the middle of rod r makes that rod's move and latches exactly on a solved position |
| Frame.PinchFrame | towerofhanoi.py:114-116 | before the win, a pinch over a non-empty rod with nothing held lifts that rod's top disk |
| Frame.DropFrame | towerofhanoi.py:119-121 | before the win, a release over a rod that accepts the held disk puts the disk there |
| Frame.StepMove | towerofhanoi.py:105-139 | a pinch frame over `from` followed by a release over `to` performs a legal move; it latches the win, with its confetti, exactly when the rods after the move are solved |
| Frame.MoveLegalOne | towerofhanoi.py:120 | move 1 of the optimal solution (rod 0 to rod 2) is legal |
| Frame.MoveLegalTwo | towerofhanoi.py:120 | move 2 (rod 0 to rod 1) is legal |
| Frame.MoveLegalThree | towerofhanoi.py:120 | move 3 (rod 2 to rod 1) is legal |
| Frame.MoveLegalFour | towerofhanoi.py:120 | move 4 (rod 0 to rod 2) is legal |
| Frame.MoveLegalFive | towerofhanoi.py:120 | move 5 (rod 1 to rod 0) is legal |
| Frame.MoveLegalSix | towerofhanoi.py:120 | move 6 (rod 1 to rod 2) is legal |
| Frame.MoveLegalSeven | towerofhanoi.py:120 | move 7 (rod 0 to rod 2) is legal and solves the puzzle |
| Frame.SolutionMoveOne | towerofhanoi.py:105-139 | after frames 0-1 the rods are [[3,2],[],[1]], nothing is held and there is no win |
| Frame.SolutionMoveTwo | towerofhanoi.py:105-139 | after frames 2-3 the rods are [[3],[2],[1]] |
| Frame.SolutionMoveThree | towerofhanoi.py:105-139 | after frames 4-5 the rods are [[3],[2,1],[]] |
| Frame.SolutionMoveFour | towerofhanoi.py:105-139 | after frames 6-7 the rods are [[],[2,1],[3]] |
| Frame.SolutionMoveFive | towerofhanoi.py:105-139 | after frames 8-9 the rods are [[1],[2],[3]] |
| Frame.SolutionMoveSix | towerofhanoi.py:105-139 | after frames 10-11 the rods are [[1],[],[3,2]] |
| Frame.SolutionMoveSeven | towerofhanoi.py:105-139 | after frames 12-13 the rods are [[],[],[3,2,1]], the win is latched and the confetti has had its first tick |
| Frame.CanonicalSolution | towerofhanoi.py:53-54 | the optimal seven-move solution, played as 14 frames, is not won after 13 frames and is won after 14, with all disks on the last rod |
| Game.LivesOf | towerofhanoi.py:14 | the confetti list read as its particles' lives, in order |
| Game.AliveParticles | towerofhanoi.py:139 | the comprehension returns distinct particles from the input whose lives are exactly KeepAlive of the input's lives |
| Game.UpdateAll | towerofhanoi.py:137-138 | the update loop lowers every particle's life by exactly one |
| Game.HanoiGame.constructor | towerofhanoi.py:8-14 | the game starts in the setup state, with the invariant holding |
| Game.HanoiGame.OnPinch | towerofhanoi.py:114-117 | the in-place pinch leaves rods and hand as PickUp says, sets the cursor to the fingertip, and changes nothing else |
| Game.HanoiGame.OnRelease | towerofhanoi.py:118-128 | the in-place release, with its scan loop and `break`, leaves rods and hand as Drop says, clears the cursor exactly when a disk was held, and changes nothing else |
| Game.HanoiGame.SpawnConfetti | towerofhanoi.py:133-134 | the spawn loop appends 200 fresh particles with the given lives, in order |
| Game.HanoiGame.AdvanceConfetti | towerofhanoi.py:136-139 | the celebration loops leave a confetti list whose lives are Tick of the old ones and whose particles are old ones |
| Game.HanoiGame.HandleHand | towerofhanoi.py:106-134 | the in-place hand handling produces exactly the state Handle prescribes |
| Game.HanoiGame.Frame | towerofhanoi.py:105-139 | one in-place loop iteration produces exactly the state Step prescribes and keeps the invariant |

## Left out

- Camera capture, the window, key handling and `cv2` drawing (lines 56-90, 92-103, 107, 141-148) are I/O. A frame's input is the detected hand, the frame width and the random lives.
- MediaPipe hand tracking is a foreign call. A hand is reduced to the integer fingertip position after the `int(... * w)` conversion of lines 109-110.
- `dist_between` and `fingers_pinch` (lines 44-48) are floating-point code. The pinch is a boolean input.
- Confetti positions, velocities, gravity and colours (lines 24-32, 36-38) are floating-point rendering state. Only `life` is modelled.
- `random.randint` (lines 33, 134) is a source of randomness. Each frame carries the 200 lives a win would draw, and `SpawnLivesOk` requires each to be in [60, 100]. Spawn positions are not modelled.
- `time.time()` and the won-time display (lines 11-12, 80-81, 132) read the clock and are left out.
- Frame.Step: requires a width of at least 3. Below that, `width // 3` is 0 and the source raises ZeroDivisionError.
- The module globals of lines 8-14 are the fields of one `HanoiGame` object. `end` and `start` are not modelled because they only feed the clock display.
- Frame.Handle: uses the corrected rod index (negative x selects rod 0). The as-written behaviour is kept in Rods.RodIndexFromX and Rods.PyRod; see Findings.
- A release with a disk in hand happens on every un-pinched frame with a hand, whatever rod the finger is over. This follows lines 118-128.

## Findings

| source | as written | input that shows it | evidently intended | confidence | as-written member | corrected member |
|---|---|---|---|---|---|---|
| towerofhanoi.py:50-51 | `min(x // (width // 3), 2)` clamps only from above; a negative x gives a negative index, which Python's list indexing resolves to the last rod | x = -1, width = 640: index -1, so `towers[-1]` is rod 2 | a fingertip left of the frame selects rod 0, just as one right of it selects rod 2 | not executed | Rods.NegativeXSelectsLastRod | Rods.RodIndex |
