/**
 * One generation's evaluation in Main.py: building the three parallel lists
 * `birds`, `nets` and `ge` (lines 29-38) and the body of the `while run:`
 * loop (lines 53-83): move every bird and reward it for surviving, let its
 * network decide whether it jumps, penalise and remove the birds that
 * collide, reward every remaining genome when the lead bird passes a pipe,
 * and advance the world.
 *
 * A genome is a mutable fitness cell (an object: a removed genome keeps its
 * fitness, it just leaves `ge`); a network is a function from the three
 * observed numbers to its first output. Fitness is a `real`, so the 0.1, 1
 * and 5 steps are exact.
 */
module Evaluation {
  import opened Sprites
  import opened FlappyWorld
  import opened Culling

  const SURVIVAL_REWARD: real := 0.1
  const CRASH_PENALTY: real := 1.0
  const PASS_BONUS: real := 5.0
  const JUMP_THRESHOLD: real := 0.5

  /** A genome, as far as the loop is concerned: its fitness. */
  class Genome {
    var fitness: real
  }

  /** (bird.y, distance to the gap's top edge, distance to its bottom edge) */
  type Observation = (real, real, real)

  /** nets[x].activate(...)[0]: the network's first output. */
  type Net = Observation -> real

  /** How a tick ends: normally, because no bird is left at its top (the
      loop stops), or with an out-of-range list access at the given line. */
  datatype Outcome = Running | Extinct | IndexError(line: nat)

  /** Positions i and j of `ge` hold different genomes. Named so that
      `Distinct` has a trigger of its own rather than every `ge[i]` term. */
  predicate Apart(ge: seq<Genome>, i: nat, j: nat)
    requires i < |ge| && j < |ge|
  {
    ge[i] != ge[j]
  }

  /** No genome is listed twice. */
  predicate Distinct(ge: seq<Genome>) {
    forall i: nat, j: nat {:trigger Apart(ge, i, j)} :: i < j < |ge| ==> Apart(ge, i, j)
  }

  /** The elements of `s` at the positions `idx`, in that order. */
  function Pick<T>(s: seq<T>, idx: seq<nat>): (r: seq<T>)
    requires Below(idx, |s|)
    ensures |r| == |idx|
  {
    seq(|idx|, k requires 0 <= k < |idx| => s[idx[k]])
  }

  function Abs(r: real): real {
    if r < 0.0 then -r else r
  }

  /** pipe_ind (lines 53-56): the look-ahead test chooses 0 on both branches. */
  function PipeIndex(ph: Physics, w: World, birds: seq<Bird>): (ind: nat)
    requires |birds| > 0 && |w.pipes| > 0
    ensures ind == 0
  {
    if birds[0].x > Right(ph, w.pipes[0]) then 0 else 0
  }

  /** What a bird's network is shown about pipe p. */
  function Observe(b: Bird, p: Pipe): (o: Observation)
    ensures o.0 == b.flight.y && o.1 >= 0.0 && o.2 >= 0.0
    ensures o.1 == b.flight.y - p.height || o.1 == p.height - b.flight.y
    ensures o.2 == b.flight.y - p.bottom || o.2 == p.bottom - b.flight.y
  {
    (b.flight.y, Abs(b.flight.y - p.height), Abs(b.flight.y - p.bottom))
  }

  /** One bird's turn in the move pass: it falls, is observed, and jumps iff
      its network's output exceeds the threshold. */
  function Steer(ph: Physics, net: Net, p: Pipe, b: Bird): (r: Bird)
    ensures r.x == b.x
    ensures r.flight == if net(Observe(Fall(ph, b), p)) > JUMP_THRESHOLD
      then ph.jump(ph.fall(b.flight)) else ph.fall(b.flight)
  {
    var moved := Fall(ph, b);
    if net(Observe(moved, p)) > JUMP_THRESHOLD then Jump(ph, moved) else moved
  }

  function Steered(ph: Physics, p: Pipe, birds: seq<Bird>, nets: seq<Net>): seq<Bird>
    requires |nets| == |birds|
  {
    seq(|birds|, j requires 0 <= j < |birds| => Steer(ph, nets[j], p, birds[j]))
  }

  /** Whether each bird collides with world w. */
  function Hits(ph: Physics, w: World, birds: seq<Bird>): seq<bool>
    requires |w.pipes| > 0
  {
    seq(|birds|, j requires 0 <= j < |birds| => Collides(ph, w, birds[j]))
  }

  // ---------------------------------------------------------------------
  // Facts about positions

  /** In a list without repeats, position x holds a genome found nowhere else. */
  lemma DistinctAt(ge: seq<Genome>, x: nat)
    requires Distinct(ge) && x < |ge|
    ensures forall j :: 0 <= j < |ge| ==> (ge[j] == ge[x] <==> j == x)
  {
    forall j | 0 <= j < |ge| && j != x
      ensures ge[j] != ge[x]
    {
      if j < x { assert Apart(ge, j, x); } else { assert Apart(ge, x, j); }
    }
  }

  lemma PickDistinct(ge: seq<Genome>, idx: seq<nat>)
    requires Distinct(ge) && Below(idx, |ge|) && Ascending(idx)
    ensures Distinct(Pick(ge, idx))
  {
    var p := Pick(ge, idx);
    forall i: nat, j: nat | i < j < |p|
      ensures Apart(p, i, j)
    {
      assert Apart(ge, idx[i], idx[j]);
    }
  }

  /** In a list without repeats, the genome at position j is picked iff j is. */
  lemma PickMember(ge: seq<Genome>, idx: seq<nat>, j: nat)
    requires Distinct(ge) && Below(idx, |ge|) && j < |ge|
    ensures ge[j] in Pick(ge, idx) <==> j in idx
  {
    if ge[j] in Pick(ge, idx) {
      var k :| 0 <= k < |idx| && Pick(ge, idx)[k] == ge[j];
      DistinctAt(ge, j);
      assert ge[idx[k]] == ge[j];
    }
    if j in idx {
      var k :| 0 <= k < |idx| && idx[k] == j;
      assert Pick(ge, idx)[k] == ge[j];
    }
  }

  lemma PickPick<T>(s: seq<T>, a: seq<nat>, b: seq<nat>)
    requires Below(a, |s|) && Below(b, |a|)
    ensures Below(Pick(a, b), |s|)
    ensures Pick(Pick(s, a), b) == Pick(s, Pick(a, b))
    ensures Ascending(a) && Ascending(b) ==> Ascending(Pick(a, b))
  {
  }

  lemma PickSnoc<T>(s: seq<T>, idx: seq<nat>, x: nat)
    requires Below(idx, |s|) && x < |s|
    ensures Below(idx + [x], |s|)
    ensures Pick(s, idx + [x]) == Pick(s, idx) + [s[x]]
  {
  }

  /** Popping position x from the kept positions pops it from every picked list. */
  lemma PickRemove<T>(s: seq<T>, cur: seq<nat>, x: nat)
    requires Below(cur, |s|) && x < |cur|
    ensures Below(cur[..x] + cur[x + 1..], |s|)
    ensures Pick(s, cur[..x] + cur[x + 1..]) == Pick(s, cur)[..x] + Pick(s, cur)[x + 1..]
  {
  }

  lemma RemoveAscending(cur: seq<nat>, x: nat)
    requires Ascending(cur) && x < |cur|
    ensures Ascending(cur[..x] + cur[x + 1..])
  {
    var c := cur[..x] + cur[x + 1..];
    forall a, b | 0 <= a < b < |c|
      ensures c[a] < c[b]
    {
      var a' := if a < x then a else a + 1;
      var b' := if b < x then b else b + 1;
      assert c[a] == cur[a'] && c[b] == cur[b'];
    }
  }

  lemma RemoveMember(cur: seq<nat>, x: nat, j: nat)
    requires Ascending(cur) && x < |cur|
    ensures j in cur[..x] + cur[x + 1..] <==> j in cur && j != cur[x]
  {
    var c := cur[..x] + cur[x + 1..];
    if j in c {
      var k :| 0 <= k < |c| && c[k] == j;
      if k < x { assert cur[k] == j; } else { assert cur[k + 1] == j; }
    }
    if j in cur && j != cur[x] {
      var k :| 0 <= k < |cur| && cur[k] == j;
      if k < x { assert c[k] == j; } else { assert c[k - 1] == j; }
    }
  }

  /** The lists `birds'`, `nets'` and `ge'` hold, in step, the entries of
      `birds`, `nets` and `ge` at the ascending positions `cur`. */
  ghost predicate Lockstep(birds: seq<Bird>, nets: seq<Net>, ge: seq<Genome>, cur: seq<nat>,
                           birds': seq<Bird>, nets': seq<Net>, ge': seq<Genome>)
  {
    && |birds| == |nets| == |ge| && Below(cur, |ge|) && Ascending(cur)
    && birds' == Pick(birds, cur) && nets' == Pick(nets, cur) && ge' == Pick(ge, cur)
  }

  /** Popping list position x keeps the lists in step with the positions
      left, and removes exactly position cur[x]. */
  lemma PopStep(birds: seq<Bird>, nets: seq<Net>, ge: seq<Genome>, cur: seq<nat>,
                birds': seq<Bird>, nets': seq<Net>, ge': seq<Genome>, x: nat)
    requires Lockstep(birds, nets, ge, cur, birds', nets', ge') && Distinct(ge) && x < |cur|
    ensures Lockstep(birds, nets, ge, cur[..x] + cur[x + 1..],
                     birds'[..x] + birds'[x + 1..], nets'[..x] + nets'[x + 1..], ge'[..x] + ge'[x + 1..])
    ensures forall j :: 0 <= j < |ge| ==> (j in cur[..x] + cur[x + 1..] <==> j in cur && j != cur[x])
    ensures forall j :: 0 <= j < |ge| ==> (ge[j] == ge'[x] <==> j == cur[x])
  {
    PickRemove(birds, cur, x);
    PickRemove(nets, cur, x);
    PickRemove(ge, cur, x);
    RemoveAscending(cur, x);
    forall j | 0 <= j < |ge|
      ensures j in cur[..x] + cur[x + 1..] <==> j in cur && j != cur[x]
    {
      RemoveMember(cur, x, j);
    }
    DistinctAt(ge, cur[x]);
  }

  /** The fitness of the genome at list position j. Named so that the
      loop invariants below trigger on it rather than on every heap read of
      `ge[j].fitness`. */
  function FitnessAt(ge: seq<Genome>, j: nat): real
    requires j < |ge|
    reads ge
  {
    ge[j].fitness
  }

  // ---------------------------------------------------------------------
  // The lists and the passes of one tick

  /** Lines 29-38: one bird at the start position, one network and one genome
      per population member, every fitness set to 0. */
  method Populate(ph: Physics, genomes: seq<Genome>, create: Genome -> Net)
    returns (birds: seq<Bird>, nets: seq<Net>, ge: seq<Genome>)
    modifies genomes
    ensures |birds| == |nets| == |ge| == |genomes| && ge == genomes
    ensures forall j :: 0 <= j < |genomes| ==>
      birds[j] == ph.birdStart && nets[j] == create(genomes[j]) && genomes[j].fitness == 0.0
  {
    birds, nets, ge := [], [], [];
    for i := 0 to |genomes|
      invariant |birds| == |nets| == |ge| == i && ge == genomes[..i]
      invariant forall j :: 0 <= j < i ==>
        birds[j] == ph.birdStart && nets[j] == create(genomes[j]) && genomes[j].fitness == 0.0
    {
      var g := genomes[i];
      nets := nets + [create(g)];
      birds := birds + [ph.birdStart];
      g.fitness := 0.0;
      ge := ge + [g];
    }
  }

  /** Lines 61-70: every bird present moves, gains exactly the survival
      reward, and jumps iff its network says so. */
  method MovePass(ph: Physics, p: Pipe, birds: seq<Bird>, nets: seq<Net>, ge: seq<Genome>)
    returns (moved: seq<Bird>)
    requires |birds| == |nets| == |ge| && Distinct(ge)
    modifies ge
    ensures moved == Steered(ph, p, birds, nets)
    ensures forall j :: 0 <= j < |ge| ==> ge[j].fitness == old(ge[j].fitness) + SURVIVAL_REWARD
  {
    moved := birds;
    for x := 0 to |birds|
      invariant |moved| == |birds|
      invariant forall j :: 0 <= j < x ==> moved[j] == Steer(ph, nets[j], p, birds[j])
      invariant forall j :: x <= j < |birds| ==> moved[j] == birds[j]
      invariant forall j :: 0 <= j < |ge| ==>
        ge[j].fitness == old(ge[j].fitness) + (if j < x then SURVIVAL_REWARD else 0.0)
    {
      DistinctAt(ge, x);
      var bird := Fall(ph, moved[x]);
      ge[x].fitness := ge[x].fitness + SURVIVAL_REWARD;
      var output := nets[x](Observe(bird, p));
      if output > JUMP_THRESHOLD {
        bird := Jump(ph, bird);
      }
      moved := moved[x := bird];
    }
  }

  /** Lines 72-77, as written: a colliding bird at cursor x is penalised and
      popped from all three lists, and the cursor moves on to x + 1. The
      positions kept are exactly Survivors of the collision flags; each
      removed genome loses exactly the penalty, once. */
  method CollisionPass(game: Game, birds: seq<Bird>, nets: seq<Net>, ge: seq<Genome>)
    returns (birds': seq<Bird>, nets': seq<Net>, ge': seq<Genome>, ghost keep: seq<nat>)
    requires |game.pipes| > 0
    requires |birds| == |nets| == |ge| && Distinct(ge)
    modifies ge
    ensures keep == Sweep(Hits(game.ph, game.State(), birds), Range(0, |birds|), 0)
    ensures Below(keep, |birds|) && Ascending(keep)
    ensures birds' == Pick(birds, keep) && nets' == Pick(nets, keep) && ge' == Pick(ge, keep)
    ensures forall j :: 0 <= j < |ge| ==>
      ge[j].fitness == old(ge[j].fitness) - (if j in keep then 0.0 else CRASH_PENALTY)
  {
    ghost var hits := Hits(game.ph, game.State(), birds);
    ghost var cur := Range(0, |birds|);
    forall j | 0 <= j < |birds|
      ensures j in cur
    {
      assert cur[j] == j;
    }
    birds', nets', ge' := birds, nets, ge;
    var x := 0;
    while x < |birds'|
      invariant Lockstep(birds, nets, ge, cur, birds', nets', ge')
      invariant Sweep(hits, cur, x) == Sweep(hits, Range(0, |birds|), 0)
      invariant forall j: nat :: j < |ge| ==>
        FitnessAt(ge, j) == old(FitnessAt(ge, j)) - (if j in cur then 0.0 else CRASH_PENALTY)
      decreases |cur| + 1 - x
    {
      var hit := game.CheckCollisions(birds'[x]);
      assert hit == HitAt(hits, cur[x]);
      if hit {
        PopStep(birds, nets, ge, cur, birds', nets', ge', x);
        ge'[x].fitness := ge'[x].fitness - CRASH_PENALTY;
        birds' := birds'[..x] + birds'[x + 1..];
        nets' := nets'[..x] + nets'[x + 1..];
        ge' := ge'[..x] + ge'[x + 1..];
        cur := cur[..x] + cur[x + 1..];
      }
      x := x + 1;
    }
    keep := cur;
    forall j | 0 <= j < |ge|
      ensures ge[j].fitness == old(ge[j].fitness) - (if j in keep then 0.0 else CRASH_PENALTY)
    {
      assert FitnessAt(ge, j) == old(FitnessAt(ge, j)) - (if j in keep then 0.0 else CRASH_PENALTY);
    }
  }

  /** Lines 80-81: every genome still listed gains exactly the bonus. */
  method BonusPass(ge: seq<Genome>)
    requires Distinct(ge)
    modifies ge
    ensures forall j :: 0 <= j < |ge| ==> ge[j].fitness == old(ge[j].fitness) + PASS_BONUS
  {
    for k := 0 to |ge|
      invariant forall j :: 0 <= j < |ge| ==>
        ge[j].fitness == old(ge[j].fitness) + (if j < k then PASS_BONUS else 0.0)
    {
      DistinctAt(ge, k);
      ge[k].fitness := ge[k].fitness + PASS_BONUS;
    }
  }

  /** Lines 53-77: look at pipe 0, run the move pass, then the collision pass.
      Kept genomes gain 0.1; removed ones gain 0.1 and lose 1. */
  method Cull(game: Game, birds: seq<Bird>, nets: seq<Net>, ge: seq<Genome>)
    returns (birds': seq<Bird>, nets': seq<Net>, ge': seq<Genome>, ghost keep: seq<nat>)
    requires |birds| > 0 && |game.pipes| > 0
    requires |birds| == |nets| == |ge| && Distinct(ge)
    modifies ge
    ensures var moved := Steered(game.ph, game.pipes[0], birds, nets);
      && keep == Survivors(Hits(game.ph, game.State(), moved))
      && Below(keep, |ge|) && Ascending(keep)
      && birds' == Pick(moved, keep) && nets' == Pick(nets, keep) && ge' == Pick(ge, keep)
      && forall j :: 0 <= j < |ge| ==>
           ge[j].fitness == old(ge[j].fitness) + SURVIVAL_REWARD - (if j in keep then 0.0 else CRASH_PENALTY)
  {
    var pipeInd := PipeIndex(game.ph, game.State(), birds);
    var moved := MovePass(game.ph, game.pipes[pipeInd], birds, nets, ge);
    birds', nets', ge', keep := CollisionPass(game, moved, nets, ge);
    SweepIsSurvivors(Hits(game.ph, game.State(), moved));
  }

  /** Lines 79-81: score the front pipe for the lead bird; on a pass every
      genome still listed (`ge`, the positions `keep` of the population
      `all`) gains the bonus, and no other. */
  method Reward(game: Game, ge: seq<Genome>, lead: Bird, ghost all: seq<Genome>, ghost keep: seq<nat>)
    returns (passed: bool)
    requires game.Valid() && |game.pipes| > 0
    requires Distinct(all) && Below(keep, |all|) && Ascending(keep) && ge == Pick(all, keep)
    modifies game, ge
    ensures game.Valid() && (game.State(), passed) == Scored(game.ph, old(game.State()), lead)
    ensures forall j :: 0 <= j < |all| ==>
      all[j].fitness == old(all[j].fitness) + (if j in keep && passed then PASS_BONUS else 0.0)
  {
    passed := game.PipePassed(lead);
    if passed {
      PickDistinct(all, keep);
      BonusPass(ge);
    }
    forall j | 0 <= j < |all|
      ensures all[j] in ge <==> j in keep
    {
      PickMember(all, keep, j);
    }
  }

  /** One pass of the `while run:` loop (lines 53-83, drawing aside). */
  method Tick(game: Game, birds: seq<Bird>, nets: seq<Net>, ge: seq<Genome>, gap: Gap)
    returns (outcome: Outcome, birds': seq<Bird>, nets': seq<Net>, ge': seq<Genome>, ghost keep: seq<nat>)
    requires game.Valid() && |birds| == |nets| == |ge| && Distinct(ge)
    modifies game, ge
    ensures game.Valid()
    ensures Below(keep, |ge|) && Ascending(keep)
    ensures |birds'| == |nets'| == |ge'| && ge' == Pick(ge, keep) && nets' == Pick(nets, keep)
    ensures outcome == Extinct <==> |birds| == 0
    ensures outcome == IndexError(55) <==> |birds| > 0 && |old(game.pipes)| == 0
    ensures outcome == Running ==> |birds'| > 0
    ensures SpawnsOnScreen(game.ph) && QueueLive(game.ph, old(game.State())) ==> QueueLive(game.ph, game.State())
    ensures Leftward(game.ph) && QueueOrdered(game.ph, old(game.pipes)) ==> QueueOrdered(game.ph, game.pipes)
    ensures |birds| == 0 || |old(game.pipes)| == 0 ==>
      && birds' == birds && keep == Range(0, |ge|) && game.State() == old(game.State())
      && forall j :: 0 <= j < |ge| ==> ge[j].fitness == old(ge[j].fitness)
    ensures |birds| > 0 && |old(game.pipes)| > 0 ==>
      var moved := Steered(game.ph, old(game.pipes[0]), birds, nets);
      && keep == Survivors(Hits(game.ph, old(game.State()), moved))
      && birds' == Pick(moved, keep)
      && (keep == [] ==>
            && outcome == IndexError(79) && game.State() == old(game.State())
            && forall j :: 0 <= j < |ge| ==>
                 ge[j].fitness == old(ge[j].fitness) + SURVIVAL_REWARD - CRASH_PENALTY)
      && (keep != [] ==>
            var (w, passed) := Scored(game.ph, old(game.State()), moved[keep[0]]);
            && outcome == Running && |w.pipes| > 0
            && game.State() == Advanced(game.ph, w, gap)
            && forall j :: 0 <= j < |ge| ==>
                 ge[j].fitness == old(ge[j].fitness) + SURVIVAL_REWARD
                   - (if j in keep then 0.0 else CRASH_PENALTY)
                   + (if j in keep && passed then PASS_BONUS else 0.0))
  {
    if |birds| == 0 {
      return Extinct, birds, nets, ge, Range(0, |ge|);
    }
    if |game.pipes| == 0 {
      return IndexError(55), birds, nets, ge, Range(0, |ge|);
    }
    birds', nets', ge', keep := Cull(game, birds, nets, ge);
    if |birds'| == 0 {
      return IndexError(79), birds', nets', ge', keep;
    }
    ghost var w0 := game.State();
    var passed := Reward(game, ge', birds'[0], ge, keep);
    game.Update(gap);
    outcome := Running;
    ScoreThenUpdateKeepsQueue(game.ph, w0, birds'[0], gap);
  }

  /** The whole of `main` for one generation, stopped after at most `budget`
      completed ticks; `draws(t)` is the random gap a pipe created on tick t
      gets (tick 0 is the reset). */
  method Evaluate(ph: Physics, genomes: seq<Genome>, create: Genome -> Net, draws: nat -> Gap, budget: nat)
    returns (outcome: Outcome, ticks: nat, alive: seq<Genome>, ghost ids: seq<nat>)
    requires Distinct(genomes)
    modifies genomes
    ensures ticks <= budget && (outcome == Running ==> ticks == budget)
    ensures Below(ids, |genomes|) && Ascending(ids) && alive == Pick(genomes, ids)
    ensures outcome == Extinct <==> |genomes| == 0 && budget > 0
    ensures outcome == Extinct ==> alive == []
    ensures SpawnsOnScreen(ph) ==> outcome != IndexError(55)
  {
    var game := new Game(ph, draws(0));
    InitialLive(ph, draws(0));
    InitialOrdered(ph, draws(0));
    var birds, nets, ge := Populate(ph, genomes, create);
    ghost var nets0 := nets;
    ids := Range(0, |genomes|);
    assert ge == Pick(genomes, ids) && nets == Pick(nets0, ids);
    outcome, ticks := Running, 0;
    while outcome == Running && ticks < budget
      invariant game.Valid()
      invariant |birds| == |nets| == |ge|
      invariant Below(ids, |genomes|) && Ascending(ids) && ge == Pick(genomes, ids)
      invariant nets == Pick(nets0, ids)
      invariant ticks <= budget
      invariant outcome == Extinct ==> ge == [] && |genomes| == 0 && budget > 0
      invariant outcome == Running && ge == [] ==> |genomes| == 0
      invariant |genomes| == 0 ==> ge == []
      invariant |genomes| == 0 ==> ticks == 0 && (outcome == Running || outcome == Extinct)
      invariant SpawnsOnScreen(ph) ==> QueueLive(ph, game.State()) && outcome != IndexError(55)
      invariant Leftward(ph) ==> QueueOrdered(ph, game.pipes)
      decreases budget - ticks, if outcome == Running then 1 else 0
    {
      PickDistinct(genomes, ids);
      ghost var before := ge;
      var o, b, n, g, keep := Tick(game, birds, nets, ge, draws(ticks + 1));
      PickPick(genomes, ids, keep);
      PickPick(nets0, ids, keep);
      outcome, birds, nets, ge, ids := o, b, n, g, Pick(ids, keep);
      if outcome == Running {
        ticks := ticks + 1;
      }
    }
    alive := ge;
  }

  // ---------------------------------------------------------------------
  // The pass without the skip

  /** Every bird's collision flag, in order; changes nothing. */
  method Mark(game: Game, birds: seq<Bird>) returns (marked: seq<bool>)
    requires |game.pipes| > 0
    ensures marked == Hits(game.ph, game.State(), birds)
  {
    marked := [];
    for x := 0 to |birds|
      invariant |marked| == x
      invariant forall j :: 0 <= j < x ==> marked[j] == Collides(game.ph, game.State(), birds[j])
    {
      var hit := game.CheckCollisions(birds[x]);
      marked := marked + [hit];
    }
  }

  /** Keep, in step across the three lists, the entries whose flag is down. */
  method Compact(birds: seq<Bird>, nets: seq<Net>, ge: seq<Genome>, marked: seq<bool>)
    returns (birds': seq<Bird>, nets': seq<Net>, ge': seq<Genome>)
    requires |birds| == |nets| == |ge| == |marked|
    ensures var keep := Compacted(marked, |marked|);
      birds' == Pick(birds, keep) && nets' == Pick(nets, keep) && ge' == Pick(ge, keep)
  {
    birds', nets', ge' := [], [], [];
    ghost var keep: seq<nat> := [];
    for x := 0 to |birds|
      invariant Below(keep, |birds|) && keep == Compacted(marked, x)
      invariant birds' == Pick(birds, keep) && nets' == Pick(nets, keep) && ge' == Pick(ge, keep)
    {
      if !marked[x] {
        PickSnoc(birds, keep, x);
        PickSnoc(nets, keep, x);
        PickSnoc(ge, keep, x);
        birds', nets', ge' := birds' + [birds[x]], nets' + [nets[x]], ge' + [ge[x]];
        keep := keep + [x];
      }
    }
  }

  /** Mark and compact: look at every bird first, penalise every colliding
      genome once, then drop every colliding bird; no other genome changes. */
  method CompactingPass(game: Game, birds: seq<Bird>, nets: seq<Net>, ge: seq<Genome>)
    returns (birds': seq<Bird>, nets': seq<Net>, ge': seq<Genome>)
    requires |game.pipes| > 0
    requires |birds| == |nets| == |ge| && Distinct(ge)
    modifies ge
    ensures var hits := Hits(game.ph, game.State(), birds);
      var keep := Compacted(hits, |hits|);
      && birds' == Pick(birds, keep) && nets' == Pick(nets, keep) && ge' == Pick(ge, keep)
      && forall j :: 0 <= j < |ge| ==>
           ge[j].fitness == old(ge[j].fitness) - (if hits[j] then CRASH_PENALTY else 0.0)
  {
    var marked := Mark(game, birds);
    for x := 0 to |ge|
      invariant forall j :: 0 <= j < |ge| ==>
        ge[j].fitness == old(ge[j].fitness) - (if j < x && marked[j] then CRASH_PENALTY else 0.0)
    {
      if marked[x] {
        DistinctAt(ge, x);
        ge[x].fitness := ge[x].fitness - CRASH_PENALTY;
      }
    }
    birds', nets', ge' := Compact(birds, nets, ge, marked);
  }
}
