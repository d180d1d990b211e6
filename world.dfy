/**
 * The game world of FlappyBird/Game.py: an ordered queue of pipes (front =
 * nearest, leftmost), a spawn timer, a score and the scrolling base.
 *
 * The state is given twice, as is usual for an imperative model: `World` is
 * its value, and the functions `Initial`, `Spawned`, `Scored`, `Advanced` and
 * `Collides` say what `reset`, `add_pipes`, `pipe_passed`, `update` and
 * `check_collisions` do to it; the class `Game` keeps the same state in
 * mutable fields, and each of its methods is proved to change them exactly as
 * the matching function says. The lemmas state what these operations promise.
 */
module FlappyWorld {
  import opened Sprites

  /** `add_pipes` spawns a pipe on every SPAWN_INTERVAL-th call. */
  const SPAWN_INTERVAL: int := 70

  datatype Option<T> = None | Some(value: T)

  /** What Game keeps between ticks (window and background image aside). */
  datatype World = World(base: Base, pipes: seq<Pipe>, tickCount: int, score: int)

  /** reset(): a fresh base, exactly one new pipe, timer and score at zero. */
  function Initial(ph: Physics, gap: Gap): (w: World)
    ensures |w.pipes| == 1 && !w.pipes[0].passed
    ensures w.tickCount == 0 && w.score == 0
  {
    World(ph.baseStart, [NewPipe(ph, gap)], 0, 0)
  }

  /** add_pipes(): count a tick; on reaching the interval append a pipe and
      restart the count. The test is an equality, as in `add_pipes`. */
  function Spawned(ph: Physics, w: World, gap: Gap): World {
    var t := w.tickCount + 1;
    if t == SPAWN_INTERVAL then w.(pipes := w.pipes + [NewPipe(ph, gap)], tickCount := 0)
    else w.(tickCount := t)
  }

  /** pipe_passed(bird): the new world, and whether the front pipe was scored. */
  function Scored(ph: Physics, w: World, bird: Bird): (World, bool)
    requires |w.pipes| > 0
  {
    var front := w.pipes[0];
    if !front.passed && bird.x > Right(ph, front) then
      (w.(score := w.score + 1, pipes := w.pipes[0 := front.(passed := true)]), true)
    else
      (w, false)
  }

  /** Every pipe of `ps`, moved once, in the same order. */
  function MoveAll(ph: Physics, ps: seq<Pipe>): seq<Pipe> {
    seq(|ps|, i requires 0 <= i < |ps| => Move(ph, ps[i]))
  }

  /** update(): drop the front pipe if it is off screen, scroll the base,
      run add_pipes, then move every pipe. */
  function Advanced(ph: Physics, w: World, gap: Gap): World
    requires |w.pipes| > 0
  {
    var kept := if OffScreen(ph, w.pipes[0]) then w.pipes[1..] else w.pipes;
    var spawned := Spawned(ph, w.(pipes := kept, base := ph.scroll(w.base)), gap);
    spawned.(pipes := MoveAll(ph, spawned.pipes))
  }

  /** check_collisions(bird): above the ceiling, or the bird's own test
      against the front pipe and the base. */
  predicate Collides(ph: Physics, w: World, bird: Bird)
    requires |w.pipes| > 0
  {
    bird.flight.y < 0.0 || ph.collide(bird, w.pipes[0], w.base)
  }

  class Game {
    const ph: Physics
    var base: Base
    var pipes: seq<Pipe>
    var tickCount: int
    var score: int

    function State(): World
      reads this
    {
      World(base, pipes, tickCount, score)
    }

    /** The spawn timer stays below the interval and the score is never negative. */
    ghost predicate Valid()
      reads this
    {
      0 <= tickCount < SPAWN_INTERVAL && 0 <= score
    }

    /** Game(win) calls reset(). */
    constructor (ph: Physics, gap: Gap)
      ensures this.ph == ph
      ensures Valid() && State() == Initial(ph, gap)
    {
      this.ph := ph;
      base := ph.baseStart;
      pipes := [NewPipe(ph, gap)];
      tickCount := 0;
      score := 0;
    }

    method Reset(gap: Gap)
      modifies this
      ensures Valid() && State() == Initial(ph, gap)
    {
      base := ph.baseStart;
      pipes := [];
      pipes := pipes + [NewPipe(ph, gap)];
      tickCount := 0;
      score := 0;
    }

    method AddPipes(gap: Gap)
      requires Valid()
      modifies this
      ensures Valid() && State() == Spawned(ph, old(State()), gap)
    {
      tickCount := tickCount + 1;
      if tickCount == SPAWN_INTERVAL {
        pipes := pipes + [NewPipe(ph, gap)];
        tickCount := 0;
      }
    }

    method PipePassed(bird: Bird) returns (passed: bool)
      requires Valid() && |pipes| > 0
      modifies this
      ensures Valid() && (State(), passed) == Scored(ph, old(State()), bird)
    {
      if !pipes[0].passed && bird.x > Right(ph, pipes[0]) {
        score := score + 1;
        pipes := pipes[0 := pipes[0].(passed := true)];
        return true;
      }
      return false;
    }

    method Update(gap: Gap)
      requires Valid() && |pipes| > 0
      modifies this
      ensures Valid() && State() == Advanced(ph, old(State()), gap)
    {
      if OffScreen(ph, pipes[0]) {
        pipes := pipes[1..];
      }
      base := ph.scroll(base);
      AddPipes(gap);
      ghost var unmoved := pipes;
      var i := 0;
      while i < |pipes|
        invariant 0 <= i <= |pipes| == |unmoved|
        invariant forall k :: 0 <= k < i ==> pipes[k] == Move(ph, unmoved[k])
        invariant forall k :: i <= k < |pipes| ==> pipes[k] == unmoved[k]
        invariant Valid() && State() == old(Advanced(ph, State(), gap)).(pipes := pipes)
      {
        pipes := pipes[i := Move(ph, pipes[i])];
        i := i + 1;
      }
    }

    /** A query: changes nothing. */
    method CheckCollisions(bird: Bird) returns (hit: bool)
      requires |pipes| > 0
      ensures hit == Collides(ph, State(), bird)
    {
      return bird.flight.y < 0.0 || ph.collide(bird, pipes[0], base);
    }
  }

  // ---------------------------------------------------------------------
  // What the operations promise

  /** The spawn timer stays in [0, 69]; exactly on the call that brings it
      to 70 one new pipe is appended and the timer restarts; otherwise the
      queue is unchanged. */
  lemma SpawnTimer(ph: Physics, w: World, gap: Gap)
    requires 0 <= w.tickCount < SPAWN_INTERVAL
    ensures var w' := Spawned(ph, w, gap);
      && 0 <= w'.tickCount < SPAWN_INTERVAL
      && (|w'.pipes| == |w.pipes| + 1 <==> w.tickCount == SPAWN_INTERVAL - 1)
      && (w.tickCount == SPAWN_INTERVAL - 1 ==> w'.pipes == w.pipes + [NewPipe(ph, gap)] && w'.tickCount == 0)
      && (w.tickCount < SPAWN_INTERVAL - 1 ==> w'.pipes == w.pipes && w'.tickCount == w.tickCount + 1)
      && w'.base == w.base && w'.score == w.score
  {
  }

  /** pipe_passed is true iff the front pipe is unscored and the bird is past
      its right edge; then the score rises by exactly one and only the front
      pipe's flag changes; otherwise nothing changes. */
  lemma ScoredIff(ph: Physics, w: World, bird: Bird)
    requires |w.pipes| > 0
    ensures var (w', passed) := Scored(ph, w, bird);
      && (passed <==> !w.pipes[0].passed && bird.x > Right(ph, w.pipes[0]))
      && (passed ==> && w'.score == w.score + 1
                     && w'.pipes == w.pipes[0 := w.pipes[0].(passed := true)]
                     && w'.base == w.base && w'.tickCount == w.tickCount)
      && (!passed ==> w' == w)
  {
  }

  /** A scored front pipe cannot be scored again, by any bird. */
  lemma ScoredOnce(ph: Physics, w: World, bird: Bird, other: Bird)
    requires |w.pipes| > 0 && Scored(ph, w, bird).1
    ensures |Scored(ph, w, bird).0.pipes| > 0
    ensures Scored(ph, Scored(ph, w, bird).0, other) == (Scored(ph, w, bird).0, false)
  {
  }

  /** update removes at most one pipe, only the front one and only when it is
      off screen; the rest keep their order and each is moved exactly once;
      a pipe spawned on this call is appended at the back and moved too. */
  lemma UpdateShape(ph: Physics, w: World, gap: Gap)
    requires |w.pipes| > 0
    ensures var w' := Advanced(ph, w, gap);
      var d := if OffScreen(ph, w.pipes[0]) then 1 else 0;
      var born := w.tickCount + 1 == SPAWN_INTERVAL;
      && |w'.pipes| == |w.pipes| - d + (if born then 1 else 0)
      && (forall i :: 0 <= i < |w.pipes| - d ==> w'.pipes[i] == Move(ph, w.pipes[i + d]))
      && (born ==> w'.pipes[|w'.pipes| - 1] == Move(ph, NewPipe(ph, gap)))
      && w'.tickCount == Spawned(ph, w, gap).tickCount
      && w'.base == ph.scroll(w.base) && w'.score == w.score
  {
  }

  /** Moving keeps every pipe's scored flag, so a scored pipe stays scored
      for as long as it is in the queue. */
  lemma UpdateKeepsFlags(ph: Physics, w: World, gap: Gap, i: nat)
    requires |w.pipes| > 0
    requires OffScreen(ph, w.pipes[0]) ==> 0 < i
    requires i < |w.pipes|
    ensures var w' := Advanced(ph, w, gap);
      var d := if OffScreen(ph, w.pipes[0]) then 1 else 0;
      w'.pipes[i - d].passed == w.pipes[i].passed
  {
    UpdateShape(ph, w, gap);
  }

  /** The queue empties exactly when its only pipe leaves the screen on a
      call that does not spawn; the next update would then index an empty
      list. */
  lemma UpdateEmptiesQueue(ph: Physics, w: World, gap: Gap)
    requires |w.pipes| > 0
    ensures |Advanced(ph, w, gap).pipes| == 0
        <==> |w.pipes| == 1 && OffScreen(ph, w.pipes[0]) && w.tickCount + 1 != SPAWN_INTERVAL
  {
    UpdateShape(ph, w, gap);
  }

  /** Pipes move left and keep their relative order. */
  ghost predicate Leftward(ph: Physics) {
    && (forall x: real, y: real :: x <= y ==> ph.advance(x) <= ph.advance(y))
    && (forall x: real :: ph.advance(x) <= x)
  }

  /** The front pipe is the leftmost, and no pipe is right of the spawn point. */
  ghost predicate QueueOrdered(ph: Physics, ps: seq<Pipe>) {
    && (forall i, j :: 0 <= i < j < |ps| ==> ps[i].x <= ps[j].x)
    && (forall i :: 0 <= i < |ps| ==> ps[i].x <= ph.spawnX)
  }

  lemma InitialOrdered(ph: Physics, gap: Gap)
    ensures QueueOrdered(ph, Initial(ph, gap).pipes)
  {
  }

  /** When pipes move left monotonically, update keeps the queue ordered
      from front to back. */
  lemma UpdateKeepsQueueOrdered(ph: Physics, w: World, gap: Gap)
    requires |w.pipes| > 0 && Leftward(ph) && QueueOrdered(ph, w.pipes)
    ensures QueueOrdered(ph, Advanced(ph, w, gap).pipes)
  {
    var kept := if OffScreen(ph, w.pipes[0]) then w.pipes[1..] else w.pipes;
    var spawned := Spawned(ph, w.(pipes := kept, base := ph.scroll(w.base)), gap).pipes;
    assert QueueOrdered(ph, kept);
    assert QueueOrdered(ph, spawned);
    var moved := MoveAll(ph, spawned);
    forall i, j | 0 <= i < j < |moved|
      ensures moved[i].x <= moved[j].x
    {
      assert ph.advance(spawned[i].x) <= ph.advance(spawned[j].x);
    }
    forall i | 0 <= i < |moved|
      ensures moved[i].x <= ph.spawnX
    {
      assert ph.advance(spawned[i].x) <= spawned[i].x;
    }
  }

  /** add_pipes appends at the spawn point, which no pipe is right of, so it
      keeps the queue ordered. */
  lemma SpawnedKeepsQueueOrdered(ph: Physics, w: World, gap: Gap)
    requires QueueOrdered(ph, w.pipes)
    ensures QueueOrdered(ph, Spawned(ph, w, gap).pipes)
  {
  }

  /** pipe_passed changes only the front pipe's flag, so it keeps the queue
      ordered. */
  lemma ScoredKeepsQueueOrdered(ph: Physics, w: World, bird: Bird)
    requires |w.pipes| > 0 && QueueOrdered(ph, w.pipes)
    ensures QueueOrdered(ph, Scored(ph, w, bird).0.pipes)
  {
  }

  /** The left edge of a pipe spawned k moves ago. */
  function Iter(ph: Physics, k: nat): real
    decreases k
  {
    if k == 0 then ph.spawnX else ph.advance(Iter(ph, k - 1))
  }

  /** No pipe leaves the screen within a spawn interval of being created. */
  ghost predicate SpawnsOnScreen(ph: Physics) {
    forall k: nat :: k <= SPAWN_INTERVAL ==> !ph.offScreen(Iter(ph, k))
  }

  /** The timer is in range, the queue is non-empty, and its back pipe is the
      one spawned when the timer last restarted: moved `tickCount` times (the
      pipe created by reset) or once more (a pipe created by add_pipes, which
      update moves on the call that creates it). */
  ghost predicate QueueLive(ph: Physics, w: World) {
    && 0 <= w.tickCount < SPAWN_INTERVAL && |w.pipes| > 0
    && var back := w.pipes[|w.pipes| - 1].x;
       back == Iter(ph, w.tickCount) || back == Iter(ph, w.tickCount + 1)
  }

  lemma InitialLive(ph: Physics, gap: Gap)
    ensures QueueLive(ph, Initial(ph, gap))
  {
  }

  /** pipe_passed changes only the front pipe's flag, so it keeps the queue live. */
  lemma ScoredKeepsQueueLive(ph: Physics, w: World, bird: Bird)
    requires QueueLive(ph, w)
    ensures QueueLive(ph, Scored(ph, w, bird).0)
  {
    ScoredIff(ph, w, bird);
  }

  /** While no pipe leaves the screen within a spawn interval, update never
      empties the queue: the back pipe is too young to be dropped. */
  lemma {:induction false} UpdateKeepsQueueLive(ph: Physics, w: World, gap: Gap)
    requires SpawnsOnScreen(ph) && QueueLive(ph, w)
    ensures QueueLive(ph, Advanced(ph, w, gap))
  {
    UpdateShape(ph, w, gap);
    var n, t := |w.pipes|, w.tickCount;
    var w' := Advanced(ph, w, gap);
    var back := w.pipes[n - 1].x;
    var k: nat := if back == Iter(ph, t) then t else t + 1;
    assert back == Iter(ph, k) && k <= SPAWN_INTERVAL;
    assert !OffScreen(ph, w.pipes[n - 1]);
    var d := if OffScreen(ph, w.pipes[0]) then 1 else 0;
    assert n - d >= 1;
    if t + 1 == SPAWN_INTERVAL {
      assert w'.pipes[|w'.pipes| - 1].x == Iter(ph, 1);
    } else {
      assert w'.pipes[n - 1 - d] == Move(ph, w.pipes[n - 1]);
      assert w'.pipes[|w'.pipes| - 1].x == Iter(ph, k + 1);
    }
  }

  /** One tick's world step, pipe_passed then update, keeps both queue
      invariants under their hypotheses. */
  lemma ScoreThenUpdateKeepsQueue(ph: Physics, w: World, bird: Bird, gap: Gap)
    requires |w.pipes| > 0
    ensures var w' := Advanced(ph, Scored(ph, w, bird).0, gap);
      && (SpawnsOnScreen(ph) && QueueLive(ph, w) ==> QueueLive(ph, w'))
      && (Leftward(ph) && QueueOrdered(ph, w.pipes) ==> QueueOrdered(ph, w'.pipes))
  {
    ScoredIff(ph, w, bird);
    if SpawnsOnScreen(ph) && QueueLive(ph, w) {
      ScoredKeepsQueueLive(ph, w, bird);
      UpdateKeepsQueueLive(ph, Scored(ph, w, bird).0, gap);
    }
    if Leftward(ph) && QueueOrdered(ph, w.pipes) {
      ScoredKeepsQueueOrdered(ph, w, bird);
      UpdateKeepsQueueOrdered(ph, Scored(ph, w, bird).0, gap);
    }
  }

  // ---------------------------------------------------------------------
  // Several calls

  /** Calls update once per gap drawn; None if some call indexes an empty queue. */
  function Updates(ph: Physics, w: World, gaps: seq<Gap>): Option<World>
    decreases |gaps|
  {
    if gaps == [] then Some(w)
    else if |w.pipes| == 0 then None
    else Updates(ph, Advanced(ph, w, gaps[0]), gaps[1..])
  }

  /** The front pipe is on screen before every one of these updates. */
  ghost predicate FrontStays(ph: Physics, w: World, gaps: seq<Gap>)
    decreases |gaps|
  {
    gaps == [] || (|w.pipes| > 0 && !OffScreen(ph, w.pipes[0]) && FrontStays(ph, Advanced(ph, w, gaps[0]), gaps[1..]))
  }

  lemma {:induction false} FrontStaysPrefix(ph: Physics, w: World, gaps: seq<Gap>, n: nat)
    requires n <= |gaps| && FrontStays(ph, w, gaps)
    ensures FrontStays(ph, w, gaps[..n])
    decreases n
  {
    if n > 0 {
      assert gaps[..n][1..] == gaps[1..][..n - 1];
      FrontStaysPrefix(ph, Advanced(ph, w, gaps[0]), gaps[1..], n - 1);
    }
  }

  lemma {:induction false} UpdatesPrefix(ph: Physics, w: World, gaps: seq<Gap>, n: nat)
    requires n < |gaps| && Updates(ph, w, gaps[..n]).Some? && |Updates(ph, w, gaps[..n]).value.pipes| > 0
    ensures Updates(ph, w, gaps[..n + 1]) == Some(Advanced(ph, Updates(ph, w, gaps[..n]).value, gaps[n]))
    decreases n
  {
    if n > 0 {
      assert gaps[..n][1..] == gaps[1..][..n - 1];
      assert gaps[..n + 1][1..] == gaps[1..][..n];
      UpdatesPrefix(ph, Advanced(ph, w, gaps[0]), gaps[1..], n - 1);
    }
  }

  /** While the front pipe stays on screen, k updates from a timer at t
      (t < 70, t + k <= 70) leave the queue one longer exactly when t + k == 70, and
      otherwise as long as it was. */
  lemma {:induction false} SpawnSchedule(ph: Physics, w: World, gaps: seq<Gap>)
    requires 0 <= w.tickCount < SPAWN_INTERVAL && w.tickCount + |gaps| <= SPAWN_INTERVAL
    requires |w.pipes| > 0 && FrontStays(ph, w, gaps)
    ensures Updates(ph, w, gaps).Some?
    ensures var w' := Updates(ph, w, gaps).value;
      var due := w.tickCount + |gaps| == SPAWN_INTERVAL;
      && |w'.pipes| == |w.pipes| + (if due then 1 else 0)
      && w'.tickCount == (if due then 0 else w.tickCount + |gaps|)
      && w'.score == w.score
    decreases |gaps|
  {
    if gaps != [] {
      var w1 := Advanced(ph, w, gaps[0]);
      UpdateShape(ph, w, gaps[0]);
      assert !OffScreen(ph, w.pipes[0]);
      if w.tickCount + 1 == SPAWN_INTERVAL {
        assert |w1.pipes| == |w.pipes| + 1 && w1.tickCount == 0;
      } else {
        assert |w1.pipes| == |w.pipes| && w1.tickCount == w.tickCount + 1;
      }
      SpawnSchedule(ph, w1, gaps[1..]);
      assert Updates(ph, w, gaps) == Updates(ph, w1, gaps[1..]);
    }
  }

  /** From reset, with the front pipe never off screen: 69 updates leave one
      pipe, the 70th leaves two. */
  lemma SpawnAfterReset(ph: Physics, gap: Gap, gaps: seq<Gap>)
    requires |gaps| == SPAWN_INTERVAL && FrontStays(ph, Initial(ph, gap), gaps)
    ensures Updates(ph, Initial(ph, gap), gaps[..SPAWN_INTERVAL - 1]).Some?
    ensures |Updates(ph, Initial(ph, gap), gaps[..SPAWN_INTERVAL - 1]).value.pipes| == 1
    ensures Updates(ph, Initial(ph, gap), gaps).Some?
    ensures |Updates(ph, Initial(ph, gap), gaps).value.pipes| == 2
  {
    FrontStaysPrefix(ph, Initial(ph, gap), gaps, SPAWN_INTERVAL - 1);
    SpawnSchedule(ph, Initial(ph, gap), gaps[..SPAWN_INTERVAL - 1]);
    SpawnSchedule(ph, Initial(ph, gap), gaps);
  }

  /** One call on the world, with its input. */
  datatype WorldOp = AddPipesOp(gap: Gap) | UpdateOp(gap: Gap) | PassOp(bird: Bird) | CollisionOp(bird: Bird)

  /** The world after one call and whether that call scored a pipe; None
      when the call indexes an empty queue. */
  function Step(ph: Physics, w: World, op: WorldOp): Option<(World, bool)> {
    match op
    case AddPipesOp(g) => Some((Spawned(ph, w, g), false))
    case UpdateOp(g) => if |w.pipes| == 0 then None else Some((Advanced(ph, w, g), false))
    case PassOp(b) => if |w.pipes| == 0 then None else Some(Scored(ph, w, b))
    case CollisionOp(b) => if |w.pipes| == 0 then None else Some((w, false))
  }

  /** The world after a run of calls, with the number of calls that scored. */
  function Replay(ph: Physics, w: World, ops: seq<WorldOp>): Option<(World, nat)>
    decreases |ops|
  {
    if ops == [] then Some((w, 0))
    else match Step(ph, w, ops[0])
      case None => None
      case Some((w1, scored)) =>
        match Replay(ph, w1, ops[1..])
        case None => None
        case Some((w2, n)) => Some((w2, n + if scored then 1 else 0))
  }

  /** Over any run of calls without a reset (which sets the score back to 0),
      the score grows by exactly the number of pipe_passed calls that returned
      true: among those calls only pipe_passed changes it, and it never
      decreases. */
  lemma {:induction false} ScoreCountsPasses(ph: Physics, w: World, ops: seq<WorldOp>)
    requires Replay(ph, w, ops).Some?
    ensures Replay(ph, w, ops).value.0.score == w.score + Replay(ph, w, ops).value.1
    ensures Replay(ph, w, ops).value.0.score >= w.score
    decreases |ops|
  {
    if ops != [] {
      var (w1, scored) := Step(ph, w, ops[0]).value;
      assert w1.score == w.score + (if scored then 1 else 0) by {
        match ops[0]
        case AddPipesOp(g) =>
        case UpdateOp(g) => UpdateShape(ph, w, g);
        case PassOp(b) => ScoredIff(ph, w, b);
        case CollisionOp(b) =>
      }
      ScoreCountsPasses(ph, w1, ops[1..]);
    }
  }
}
