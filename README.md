# Flappy-Bird-AI: the world and the evaluation loop, in Dafny

This project models the core of Flappy-Bird-AI, a Flappy Bird clone whose
birds are flown by NEAT-evolved neural networks. It covers two parts:

- **The game world** (`FlappyBird/Game.py`, class `Game`). The world has an
  ordered queue of pipes; the front pipe is the nearest one. It also has a
  spawn timer that adds a pipe every 70 ticks, a score, and a scrolling base.
- **One generation's evaluation** (`main` in `Main.py`). The loop builds the
  parallel lists `birds`, `nets` and `ge`, then ticks. On each tick:
  - every bird moves, gains 0.1 fitness, and jumps when its network's output
    exceeds 0.5;
  - each colliding bird that the removal cursor reaches loses 1 fitness and
    is popped from all three lists; the bird that slides into its slot is
    not checked on that tick;
  - every remaining genome gains 5 when the lead bird passes a pipe;
  - the world advances.

  The lists only shrink in the collision pass, and that pass is followed by
  `birds[0]` at Main.py:79, which fails when the pass removed every bird.
  So the loop's normal exit at Main.py:57-59 is reached only when the
  population starts empty (`Evaluate` proves this). Otherwise the loop
  never ends normally. Setting drawing aside, it ends with that index
  error, or with the one at Main.py:55 if the pipe queue empties, or not at
  all while a bird survives.

Files:

- `sprites.dfy` (module `Sprites`): pipes, birds and the base as records.
  The behaviour of `Pipe`, `Bird` and `Base` is supplied as a `Physics`
  record of functions: moving, the right edge, going off screen, falling,
  jumping, pixel collision and scrolling. The properties hold for any such
  functions, within the shape the record fixes (listed under "Left out").
- `world.dfy` (module `FlappyWorld`): the world as a value `World`, with one
  pure function per operation (`Initial`, `Spawned`, `Scored`, `Advanced`,
  `Collides`). The class `Game` holds the same state in mutable fields. Each
  of its methods is proved to change those fields exactly as the matching
  function says. The lemmas about the functions state the world's promises.
- `culling.dfy` (module `Culling`): which birds the collision pass removes.
  - `Sweep` is the loop exactly as written: an `enumerate` cursor over a
    list that shrinks under it.
  - `Removed` and `Alive` are an independent definition of its outcome.
  - `Compacted` is a pass that removes every colliding bird.
- `evaluation.dfy` (module `Evaluation`): genomes as mutable fitness cells
  (class `Genome`), networks as functions from the observation triple to a
  number, and the passes of the tick as methods with loops:
  - `Populate`, `MovePass`, `CollisionPass` and `BonusPass`;
  - `Cull` (the move and collision passes) and `Reward` (scoring and the
    bonus);
  - `Tick` (one loop iteration) and `Evaluate` (the episode);
  - `Mark`, `Compact` and `CompactingPass` (the corrected collision pass).

  Each is proved against the functions and lemmas above.

Random pipe gaps are parameters (`Gap`). The window, the clock, event
polling and drawing are not modelled. Fitness is a `real`, so the 0.1, 1 and
5 steps are exact.

## Model

| member | source | states |
|---|---|---|
| FlappyWorld.Initial | FlappyBird/Game.py:22-31 | reset leaves exactly one pipe, unscored, with timer 0 and score 0 |
| FlappyWorld.Game.constructor | FlappyBird/Game.py:12-20 | a new game is in the reset state and satisfies the timer and score invariant |
| FlappyWorld.Game.Reset | FlappyBird/Game.py:22-31 | the new state is the reset state, whatever the old one was; the invariant holds |
| FlappyWorld.Game.AddPipes | FlappyBird/Game.py:33-41 | the new state is the spawn step of the old one; the timer stays in [0, 69] |
| FlappyWorld.Game.PipePassed | FlappyBird/Game.py:43-52 | the new state and the returned flag are the scoring step of the old state; needs a non-empty queue |
| FlappyWorld.Game.Update | FlappyBird/Game.py:55-66 | after the in-place move loop, the state is the advance step of the old state; needs a non-empty queue |
| FlappyWorld.Game.CheckCollisions | FlappyBird/Game.py:68-72 | the result is the ceiling test or the bird's collide test against the front pipe and base; it changes nothing |
| FlappyWorld.Spawned | FlappyBird/Game.py:37-41 | add_pipes as a step on world values: count a tick, and on reaching 70 append a new pipe and restart the count; no contract of its own; `SpawnTimer` characterises it |
| FlappyWorld.Scored | FlappyBird/Game.py:47-52 | pipe_passed as a step on world values, with the returned flag; no contract of its own; `ScoredIff` and `ScoredOnce` characterise it |
| FlappyWorld.Advanced | FlappyBird/Game.py:59-66 | update as a step on world values: drop an off-screen front pipe, scroll the base, add_pipes, move every pipe; no contract of its own; `UpdateShape`, `UpdateKeepsFlags` and `UpdateEmptiesQueue` characterise it |
| FlappyWorld.Collides | FlappyBird/Game.py:68-72 | check_collisions as a predicate on world values; no contract of its own; `Game.CheckCollisions` and `Evaluation.Mark` are stated through it |
| FlappyWorld.SpawnTimer | FlappyBird/Game.py:37-41 | from a timer in [0, 69] the timer stays in [0, 69]; a pipe is appended and the timer reset to 0 exactly when it reaches 70; otherwise the queue is unchanged |
| FlappyWorld.ScoredIff | FlappyBird/Game.py:47-52 | pipe_passed is true iff the front pipe is unscored and the bird is past its right edge; then the score rises by exactly 1 and only the front flag changes; otherwise nothing changes |
| FlappyWorld.ScoredOnce | FlappyBird/Game.py:47-52 | after a scoring call, a second call on the same front pipe, by any bird, returns false and changes nothing |
| FlappyWorld.UpdateShape | FlappyBird/Game.py:59-66 | update removes at most one pipe, only the front one, only when it is off screen; the others keep their order and each moves exactly once; a pipe spawned on this call is appended at the back and moved too |
| FlappyWorld.UpdateKeepsFlags | FlappyBird/Game.py:59-66 | every pipe kept by update keeps its scored flag |
| FlappyWorld.UpdateEmptiesQueue | FlappyBird/Game.py:59-64 | update empties the queue iff its only pipe is off screen on a call that does not spawn |
| FlappyWorld.InitialOrdered | FlappyBird/Game.py:28-29 | the reset queue is ordered from front to back and lies left of the spawn point |
| FlappyWorld.UpdateKeepsQueueOrdered | FlappyBird/Game.py:59-66 | when pipes move left monotonically, update keeps the queue ordered front to back, with the leftmost pipe at the front |
| FlappyWorld.SpawnedKeepsQueueOrdered | FlappyBird/Game.py:37-41 | add_pipes keeps the queue ordered: the new pipe goes to the back, at the spawn point |
| FlappyWorld.ScoredKeepsQueueOrdered | FlappyBird/Game.py:47-52 | pipe_passed keeps the queue ordered, since it changes only the front pipe's flag and the score |
| FlappyWorld.SpawnSchedule | FlappyBird/Game.py:37-41 | while the front pipe stays on screen, k updates from timer t (t + k <= 70) add a pipe exactly when t + k reaches 70, and set the timer accordingly |
| FlappyWorld.SpawnAfterReset | FlappyBird/Game.py:59-66 | with the front pipe on screen throughout, 69 updates from reset leave one pipe and the 70th leaves two |
| FlappyWorld.ScoreCountsPasses | FlappyBird/Game.py:48 | over any run of world calls after a reset (the calls contain no reset, which sets the score to 0), the score grows by exactly the number of pipe_passed calls that returned true, so it never decreases |
| FlappyWorld.InitialLive | FlappyBird/Game.py:22-31 | reset starts the queue invariant: timer in [0, 69], a non-empty queue, and the back pipe at the spawn point |
| FlappyWorld.ScoredKeepsQueueLive | FlappyBird/Game.py:47-52 | pipe_passed keeps the queue invariant, since it changes only the front pipe's flag and the score |
| FlappyWorld.UpdateKeepsQueueLive | FlappyBird/Game.py:55-66 | when no pipe leaves the screen within 70 moves of its spawn, update keeps the queue non-empty, the timer in [0, 69], and the back pipe at the position of the pipe spawned when the timer last restarted |
| FlappyWorld.ScoreThenUpdateKeepsQueue | Main.py:79-82 | a tick's world step, pipe_passed then update, keeps the queue invariant when no pipe leaves the screen within 70 moves of its spawn, and keeps the queue's order when pipes move left monotonically |
| Culling.Sweep | Main.py:72-77 | the enumerate-and-pop loop as written: a cursor over the shrinking list of remaining positions, popping on a hit and always advancing; no contract of its own; `SweepIsSurvivors` equates it with `Survivors` |
| Culling.Alive | Main.py:72-77 | the positions a pass keeps lie in range, are strictly ascending and are never more than the birds |
| Culling.AliveMembers | Main.py:72-77 | a position is kept iff it is in range and its bird is not removed |
| Culling.SweepIsSurvivors | Main.py:72-77 | the enumerate-and-pop loop as written keeps exactly the reference survivors, in their original order |
| Culling.SurvivorsCharacterised | Main.py:72-77 | every removed bird collided; a colliding bird whose predecessor stayed is removed; a bird that does not collide stays; the bird after a removed one always stays; the list never grows |
| Culling.NextIsUnchecked | Main.py:72-77 | the bird that slides into a removed bird's slot is not checked: whether it collides does not change the outcome |
| Culling.EmptiedIff | Main.py:72-79 | the pass leaves no bird iff it started with none, or with one bird that collides |
| Culling.Compacted | Main.py:72-77 | the positions that mark-and-compact keeps among the first n lie below n and ascend |
| Culling.CompactedIff | Main.py:72-77 | mark-and-compact keeps a position iff its bird does not collide |
| Culling.SkipKeepsSecondCollider | Main.py:72-77 | with two colliding birds, the pass as written keeps the second, while mark-and-compact removes both |
| Evaluation.PipeIndex | Main.py:53-56 | the observed pipe is always pipe 0: both branches choose it |
| Evaluation.Observe | Main.py:65-67 | the observation is the bird's y and the absolute distances from y to the gap's top and bottom edges |
| Evaluation.Steer | Main.py:61-70 | a bird keeps its x; its flight is the fall step, followed by the jump step exactly when the network's output after falling exceeds 0.5 |
| Evaluation.Steered | Main.py:61-70 | the move pass on values: every bird steered by its own network against the given pipe; no contract of its own; `Evaluation.MovePass` is stated through it |
| Evaluation.Hits | Main.py:72-73 | each bird's collision test against the current world, in list order; no contract of its own; `Evaluation.Mark`, `CollisionPass` and `Cull` are stated through it |
| Evaluation.Populate | Main.py:29-38 | three lists as long as the population; each entry pairs a start bird with a network built from that genome; every fitness is 0 |
| Evaluation.MovePass | Main.py:61-70 | every bird is steered by its own network against the front pipe, and every listed genome gains exactly 0.1 |
| Evaluation.CollisionPass | Main.py:72-77 | the in-place loop keeps exactly the positions of the enumerate-and-pop cursor (`Sweep`); the three lists shrink in lock-step to those positions; each removed genome loses exactly 1, once; kept genomes are untouched |
| Evaluation.Cull | Main.py:53-77 | after moving and culling, the kept positions are exactly the reference survivors of the moved birds; each listed genome gains 0.1 and loses 1 iff it was removed |
| Evaluation.Reward | Main.py:79-81 | the world takes the scoring step for the lead bird; on a pass exactly the genomes still listed gain 5, once each; no other genome changes |
| Evaluation.BonusPass | Main.py:79-81 | every listed genome gains exactly 5 |
| Evaluation.Tick | Main.py:53-83 | one tick's outcome: stop when no bird is left; an index error at line 55 when the queue is empty, or at line 79 when the cull empties the birds; otherwise the lists are culled in lock-step and stay non-empty, each genome's fitness changes by +0.1, -1 if removed, and +5 if kept on a scoring tick, and the world advances after scoring; a tick keeps the queue invariant and, when pipes move left monotonically, the front-to-back order of the queue |
| Evaluation.Evaluate | Main.py:22-83 | the listed genomes are always an ordered sub-list of the population; the loop stops at the top-of-loop check (`Extinct`) exactly when the population is empty and the budget is positive; otherwise it stops on an index error or when the tick budget is spent; when no pipe leaves the screen within 70 moves of its spawn, the error at line 55 never happens |
| Evaluation.Mark | Main.py:72-73 | the flags are every bird's collision test against the current world, in order; nothing changes |
| Evaluation.Compact | Main.py:75-77 | the three lists keep, in step and in order, exactly the entries whose collision flag is down |
| Evaluation.CompactingPass | Main.py:72-77 | the corrected pass checks every bird first, penalises each colliding genome exactly once, then keeps exactly the non-colliding birds, in lock-step across the lists; no other genome changes |

## Left out

- `Game.draw` and the call `game.draw(birds)` at Main.py:84: rendering. That
  call passes one argument where `draw` takes three (FlappyBird/Game.py:75),
  so as written it would raise a `TypeError` after the first tick's update;
  the model's tick ends before it.
- Event polling, `pygame.quit`, `quit()` and `clock.tick(FPS)`: I/O and wall-clock pacing.
- NEAT: network creation and activation (a network is a parameter, reduced
  to its first output), the population and its reporters in `run`, and the
  pairs that NEAT hands to `main`. `genomes` is taken to be the genomes themselves.
- FlappyBird/Pipe.py, FlappyBird/Bird.py and FlappyBird/Base.py are not part of this model. Their behaviour is a parameter (`Sprites.Physics`), and random gap heights are `Gap`
  parameters (`Evaluate` takes them from a `draws` function, indexed by tick).
  The pipe created by `reset` is placed at the same spawn position as any other.
- Floating point: positions, velocities and fitness are exact reals.
- Object identity of pipes and birds: they are values held in sequences,
  because neither is shared between lists. Genomes, which the learning
  library keeps after the episode, are objects.
- Evaluation.Evaluate: the `while run:` loop has no bound in the source; the
  model stops after a given number of completed ticks. It states the list
  invariants and how the loop ends, not the final fitness.
- The invariant that the pipe queue is never empty is proved only under the
  hypothesis `SpawnsOnScreen`: no pipe leaves the screen within 70 moves of
  its spawn. Without that hypothesis, abstract pipes can empty the queue
  (`UpdateEmptiesQueue` says exactly when), and `Tick` then reports the
  index error at Main.py:55.
- The shape of the sprite behaviour is fixed by `Sprites.Physics`, and the
  properties hold only within that shape:
  - `Pipe.move` changes only the pipe's `x` (`Sprites.Move`);
  - `Pipe.right` and `Pipe.off_screen` depend on `x` alone;
  - `Bird.move` and `Bird.jump` leave the bird's `x` unchanged
    (`Sprites.Fall`, `Sprites.Jump`). `Evaluation.Steer`'s `x` clause rests
    on this.
- FlappyWorld.UpdateKeepsQueueOrdered: holds only under the `Leftward`
  hypothesis, that moving a pipe never moves it right and keeps any two
  pipes in order.
  `Evaluation.Tick` and `Evaluation.Evaluate` carry the queue's order under
  the same hypothesis.
- The `add_pipes` docstring (FlappyBird/Game.py:34-36) says a pipe is added
  every 80 frames; the code spawns every 70, and the model follows the code.
  The removal loop's skip is modelled as written; see "## Findings".

## Findings

| source | as written | input that shows it | evidently intended | confidence | as-written member | corrected member |
|---|---|---|---|---|---|---|
| Main.py:72-77 | `pop(x)` inside `for x, bird in enumerate(birds)`: after a removal, the next bird slides into slot x and the cursor moves past it | two birds that both collide in one tick: only the first is penalised and removed; the second stays alive and is not penalised | every colliding bird is penalised and removed on that tick | not executed | Culling.SkipKeepsSecondCollider | Evaluation.CompactingPass |

`Tick` keeps the pass as written, because that is what the program does.
`Culling.Compacted` and `Culling.CompactedIff` define the corrected outcome.
`Evaluation.CompactingPass` implements it on the three lists.
