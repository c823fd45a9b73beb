/** What a step of the arena does to a worm and to a patch, in numbers
    (packages/atanor_ecosystem/evolution_world.py). */
module WorldLaws {
  import opened EvolutionWorld

  /** Of `substeps` spikes each motor may fire, speed grows evenly from 0.25 without any to 2.45 with
      all of them. */
  lemma SpeedMeans(d: Drive, substeps: nat)
    requires substeps > 0
    ensures d.left + d.right == 0 ==> Speed(d, substeps) == 0.25
    ensures d.left + d.right == 2 * substeps ==> Speed(d, substeps) == 2.45
    ensures (Speed(d, substeps) - 0.25) * (2 * substeps) as real == 2.2 * (d.left + d.right) as real
  {
    Quotient((d.left + d.right) as real, (2 * substeps) as real);
  }

  lemma Quotient(a: real, b: real)
    requires b > 0.0
    ensures (a / b) * b == a && (a == 0.0 ==> a / b == 0.0) && (a == b ==> a / b == 1.0)
    ensures 2.2 * (a / b) * b == 2.2 * a
  {
  }

  /** A move costs 0.008 and 0.005 times the speed in energy and nothing else; a living worm dies of it
      exactly when no energy is left, and a dead one stays dead. */
  lemma MovesCostEnergy(world: World, w: Worm, d: Drive, substeps: nat)
    requires substeps > 0
    ensures var p := world.Paid(w, d, substeps);
      && w.energy - p.energy == 0.008 + 0.005 * Speed(d, substeps)
      && (p.alive <==> w.alive && p.energy > 0.0)
      && p.x == w.x && p.y == w.y && p.fitness == w.fitness
  {
  }

  /** With motors that fire at most once a substep a move costs between 0.00925 and 0.02025. */
  lemma MoveCostBounds(world: World, w: Worm, d: Drive, substeps: nat)
    requires substeps > 0 && d.left <= substeps && d.right <= substeps
    ensures 0.00925 <= w.energy - world.Paid(w, d, substeps).energy <= 0.02025
  {
    SpeedBounded(d, substeps);
  }

  /** A worm moves by its speed in its direction, and where that stays inside, to just there. */
  lemma MovesBySpeed(world: World, w: Worm, d: Drive, substeps: nat)
    requires substeps > 0
    ensures var m, v := world.Moved(w, d, substeps), Speed(d, substeps);
      && (0.0 <= w.x + d.dirX * v <= world.width ==> m.x == w.x + d.dirX * v)
      && (0.0 <= w.y + d.dirY * v <= world.height ==> m.y == w.y + d.dirY * v)
      && m.energy == w.energy && m.fitness == w.fitness && m.alive == w.alive
  {
    var v := Speed(d, substeps);
    var x, y := w.x + d.dirX * v, w.y + d.dirY * v;
    assert world.Moved(w, d, substeps).x == Reflect(x, world.width);
    assert world.Moved(w, d, substeps).y == Reflect(y, world.height);
  }

  /** Reflection is at the wall passed: as far inside as the worm would have been outside. */
  lemma ReflectionMeans(x: real, size: real)
    requires size >= 0.0
    ensures 0.0 <= x <= size ==> Reflect(x, size) == x
    ensures -size <= x < 0.0 ==> Reflect(x, size) == -x
    ensures x > size ==> Reflect(x, size) == size - (x - size)
  {
  }

  /** A worm within four units of a patch takes a quarter of a unit from it, or what there is. */
  lemma BitesMean(w: Worm, f: Food)
    ensures var g := Bitten(w, f);
      var near := (w.x - f.x) * (w.x - f.x) + (w.y - f.y) * (w.y - f.y) <= 16.0;
      && g.x == f.x && g.y == f.y
      && (near && f.amount >= 0.25 ==> g.amount == f.amount - 0.25)
      && (near && 0.0 < f.amount < 0.25 ==> g.amount == 0.0)
      && (!near || f.amount <= 0.0 ==> g == f)
  {
  }

  /** Eating adds what was eaten to fitness and 2.8 times that to energy, which stops at three. */
  lemma EatingMeans(w: Worm, eaten: real)
    requires eaten >= 0.0 && w.energy <= 3.0
    ensures var f := Fed(w, eaten);
      && f.fitness == w.fitness + eaten && f.x == w.x && f.y == w.y && f.alive == w.alive
      && (w.energy + 2.8 * eaten <= 3.0 ==> f.energy == w.energy + 2.8 * eaten)
      && (w.energy + 2.8 * eaten > 3.0 ==> f.energy == 3.0)
  {
  }

  /** Upkeep keeps a patch exactly when it holds more than 0.05. */
  lemma {:induction false} KeptMeans(food: seq<Food>, f: Food)
    ensures f in Kept(food) <==> f in food && f.amount > 0.05
    ensures f in Dropped(food) <==> f in food && f.amount <= 0.05
  {
    if food != [] {
      KeptMeans(food[..|food| - 1], f);
      assert food == food[..|food| - 1] + [food[|food| - 1]];
    }
  }

  /** A new patch holds 2.4 over the difficulty, but 0.4 at least. */
  lemma PatchSizeMeans(difficulty: real)
    requires difficulty > 0.0
    ensures PatchSize(difficulty) >= 0.4
    ensures difficulty <= 6.0 ==> PatchSize(difficulty) * difficulty == 2.4
    ensures difficulty >= 6.0 ==> PatchSize(difficulty) == 0.4
  {
    Share(difficulty);
  }

  lemma Share(x: real)
    requires x > 0.0
    ensures (2.4 / x) * x == 2.4
    ensures x <= 6.0 ==> 2.4 / x >= 0.4
    ensures x >= 6.0 ==> 2.4 / x <= 0.4
  {
  }

  /** Difficulty rises by 0.15 for each unit of the top fitness, from one up to four. */
  lemma HarderMeans(world: World, survivors: seq<Worm>)
    requires survivors != []
    ensures var top := world.TopFitness(survivors);
      && (top <= 20.0 ==> world.Harder(survivors) == 1.0 + 0.15 * top)
      && (top >= 20.0 ==> world.Harder(survivors) == 4.0)
  {
  }

  /** A newborn starts with one unit of energy, unfed, in the middle four fifths of the arena. */
  lemma NewbornMeans(world: World, at: (real, real))
    requires 0.0 <= at.0 <= 1.0 && 0.0 <= at.1 <= 1.0 && world.width >= 0.0 && world.height >= 0.0
    ensures var w := world.Newborn(at);
      && w.alive && w.energy == 1.0 && w.fitness == 0.0
      && 0.1 * world.width <= w.x <= 0.9 * world.width && 0.1 * world.height <= w.y <= 0.9 * world.height
  {
    MiddleMeans(world.width, at.0, world.Newborn(at).x);
    MiddleMeans(world.height, at.1, world.Newborn(at).y);
  }

  lemma MiddleMeans(size: real, u: real, x: real)
    requires size >= 0.0 && 0.0 <= u <= 1.0 && x == 0.1 * size + 0.8 * size * u
    ensures 0.1 * size <= x <= 0.9 * size
  {
    Product(size, u);
    Product(size, 1.0 - u);
    assert size * (1.0 - u) == size - size * u;
    assert 0.8 * size * u == 0.8 * (size * u);
  }

  /** With survivors a generation has twice as many worms as these, but not fewer than `start`, not
      more than `cap`. */
  lemma NextSizeMeans(world: World, survivors: nat)
    requires 0 < survivors <= world.cap && world.start <= world.cap
    ensures var n := world.NextSize(survivors);
      && (world.start <= 2 * survivors <= world.cap ==> n == 2 * survivors)
      && (2 * survivors < world.start ==> n == world.start)
      && (2 * survivors > world.cap ==> n == world.cap)
  {
  }

  /** Survivors are the worms alive, each as often as it was there. */
  lemma {:induction false} SurvivorsMean(world: World, ws: seq<Worm>, w: Worm)
    ensures multiset(world.Survivors(ws))[w] == if w.alive then multiset(ws)[w] else 0
  {
    if ws != [] {
      SurvivorsMean(world, ws[..|ws| - 1], w);
      assert ws == ws[..|ws| - 1] + [ws[|ws| - 1]];
    }
  }

  /** Restocking leaves what is there and puts the missing patches where they are meant to be. */
  lemma {:induction false} RestockingMeans(world: World, fs: seq<Food>, amount: real, place: nat -> (real, real))
    ensures var full := world.Restocked(fs, amount, place);
      && fs <= full
      && forall i | |fs| <= i < |full| :: full[i] == Food(place(i).0, place(i).1, amount)
    decreases world.foodDensity - |fs|
  {
    if |fs| < world.foodDensity {
      RestockingMeans(world, fs + [Food(place(|fs|).0, place(|fs|).1, amount)], amount, place);
    }
  }

  /** One worm's turn changes no other worm. */
  lemma TurnsAreOnesOwn(world: World, a: Arena, k: nat, d: Drive, substeps: nat, i: nat)
    requires k < |a.worms| && i < |a.worms| && i != k && substeps > 0
    ensures world.Acted(a, k, d, substeps).worms[i] == a.worms[i]
  {
  }

  /** In a step a dead worm is passed over; a living one moves from where it stands, with the next
      drive asked for, on the food its predecessors left, and no later turn touches it. */
  lemma {:induction false} TurnsMean(world: World, a: Arena, n: nat, substeps: nat, brain: nat -> Drive, i: nat)
    requires n <= |a.worms| && i < |a.worms| && substeps > 0
    ensures var after := world.Turns(a, n, substeps, brain).worms[i];
      if n <= i || !a.worms[i].alive then after == a.worms[i]
      else
        var b := world.Turns(a, i, substeps, brain);
        var moved := world.Moved(a.worms[i], brain(b.draws), substeps);
        var eaten := Amount(b.food) - Amount(Grazed(moved, b.food));
        after == world.Paid(Fed(moved, eaten), brain(b.draws), substeps)
  {
    if n > 0 {
      TurnsMean(world, a, n - 1, substeps, brain, i);
      if i == n - 1 {
        assert world.Turns(a, i, substeps, brain).worms[i] == a.worms[i];
      }
    }
  }

  /** How many of the first `n` worms are alive. */
  function Living(ws: seq<Worm>, n: nat): nat
    requires n <= |ws|
  {
    if n == 0 then 0 else Living(ws, n - 1) + if ws[n - 1].alive then 1 else 0
  }

  /** One drive is asked for each living worm. */
  lemma {:induction false} DrawsMean(world: World, a: Arena, n: nat, substeps: nat, brain: nat -> Drive)
    requires n <= |a.worms| && substeps > 0
    ensures world.Turns(a, n, substeps, brain).draws == a.draws + Living(a.worms, n)
  {
    if n > 0 {
      DrawsMean(world, a, n - 1, substeps, brain);
      TurnsMean(world, a, n - 1, substeps, brain, n - 1);
    }
  }
}
