/** The chemotaxis arena (packages/atanor_ecosystem/evolution_world.py): food is conserved, worms
    stay inside, and the population is capped. */
module EvolutionWorld {
  datatype Food = Food(x: real, y: real, amount: real)

  datatype Worm = Worm(x: real, y: real, energy: real, fitness: real, alive: bool)

  /** What a worm's net and the trigonometry deliver for one step: motor spikes, of which each
      motor has at most one a substep, and the direction of the new heading. */
  datatype Drive = Drive(left: nat, right: nat, dirX: real, dirY: real)

  ghost predicate Drives(brain: nat -> Drive, substeps: nat) {
    forall k: nat :: brain(k).left <= substeps && brain(k).right <= substeps
      && -1.0 <= brain(k).dirX <= 1.0 && -1.0 <= brain(k).dirY <= 1.0
  }

  const TOP_SPEED := 2.45
  const MAX_BITE := 0.25
  const CRUMB := 0.05
  const MAX_ENERGY := 3.0

  function Min(a: real, b: real): real { if a < b then a else b }
  function Max(a: real, b: real): real { if a < b then b else a }

  function Speed(d: Drive, substeps: nat): real
    requires substeps > 0
  {
    0.25 + 2.2 * ((d.left + d.right) as real / (2 * substeps) as real)
  }

  lemma SpeedBounded(d: Drive, substeps: nat)
    requires substeps > 0 && d.left <= substeps && d.right <= substeps
    ensures 0.25 <= Speed(d, substeps) <= TOP_SPEED
  {
    assert (d.left + d.right) as real <= (2 * substeps) as real;
    Share((d.left + d.right) as real, (2 * substeps) as real);
  }

  lemma Share(a: real, b: real)
    requires 0.0 <= a <= b && b > 0.0
    ensures 0.0 <= a / b <= 1.0
  {
    var share := a / b;
    assert share * b == a;
  }

  /** Reflection at both walls, in the order of the source. */
  function Reflect(x: real, size: real): real {
    var y := if x < 0.0 then -x else x;
    if y > size then 2.0 * size - y else y
  }

  predicate Within(x: real, size: real) { 0.0 <= x <= size }

  predicate StaysInside(x: real, dx: real, size: real) {
    Within(x, size) && -TOP_SPEED <= dx <= TOP_SPEED ==> Within(Reflect(x + dx, size), size)
  }

  /** One reflection brings every step back inside exactly when the arena is as wide as the
      longest step. */
  lemma ReflectionContainsExactly(size: real)
    requires size >= 0.0
    ensures (forall x: real, dx: real :: StaysInside(x, dx, size)) <==> size >= TOP_SPEED
  {
    if size < TOP_SPEED {
      assert !StaysInside(size, TOP_SPEED, size);
    }
  }

  lemma Product(a: real, b: real)
    requires a >= 0.0 && b >= 0.0
    ensures a * b >= 0.0
  {
  }

  lemma StepLength(dir: real, speed: real)
    requires -1.0 <= dir <= 1.0 && 0.0 <= speed <= TOP_SPEED
    ensures -TOP_SPEED <= dir * speed <= TOP_SPEED
  {
    Product(1.0 - dir, speed);
    Product(1.0 + dir, speed);
    assert (1.0 - dir) * speed == speed - dir * speed && (1.0 + dir) * speed == speed + dir * speed;
  }

  lemma MoveStaysInside(x: real, dir: real, speed: real, size: real)
    requires -1.0 <= dir <= 1.0 && 0.0 <= speed <= TOP_SPEED && size >= TOP_SPEED
    ensures Within(x, size) ==> Within(Reflect(x + dir * speed, size), size)
  {
    StepLength(dir, speed);
    ReflectionContainsExactly(size);
    assert StaysInside(x, dir * speed, size);
  }

  /** Four units away at most. */
  predicate InReach(w: Worm, f: Food) {
    (w.x - f.x) * (w.x - f.x) + (w.y - f.y) * (w.y - f.y) <= 16.0
  }

  /** A patch after a worm at this place has passed over it. */
  function Bitten(w: Worm, f: Food): Food {
    if f.amount > 0.0 && InReach(w, f) then f.(amount := f.amount - Min(f.amount, MAX_BITE)) else f
  }

  ghost predicate NoneNegative(food: seq<Food>) {
    forall i | 0 <= i < |food| :: food[i].amount >= 0.0
  }

  function Grazed(w: Worm, food: seq<Food>): seq<Food> {
    seq(|food|, i requires 0 <= i < |food| => Bitten(w, food[i]))
  }

  lemma GrazedAll(w: Worm, food: seq<Food>, left: seq<Food>)
    requires |left| == |food| && forall i | 0 <= i < |food| :: left[i] == Bitten(w, food[i])
    ensures left == Grazed(w, food)
  {
  }

  /** Worms and food; how often a brain has been asked for a move; and since the generation began,
      the food put down, the food thrown away as crumbs, and the patches that held these. */
  datatype Arena = Arena(worms: seq<Worm>, food: seq<Food>, draws: nat, spawned: real, crumbs: real, discarded: nat)

  /** A worm after eating that much, in however many bites. */
  function Fed(w: Worm, eaten: real): Worm {
    w.(energy := if eaten == 0.0 then w.energy else Min(MAX_ENERGY, w.energy + eaten * 2.8),
       fitness := w.fitness + eaten)
  }

  lemma ReachUnfed(w: Worm, eaten: real, f: Food)
    ensures InReach(Fed(w, eaten), f) == InReach(w, f)
  {
  }

  lemma FedTwice(w: Worm, a: real, b: real)
    requires a >= 0.0 && b >= 0.0
    ensures Fed(Fed(w, a), b) == Fed(w, a + b)
  {
  }

  // ------------------------------------------------------------------- totals

  function Fitness(worms: seq<Worm>): real {
    if worms == [] then 0.0 else Fitness(worms[..|worms| - 1]) + worms[|worms| - 1].fitness
  }

  function Amount(food: seq<Food>): real {
    if food == [] then 0.0 else Amount(food[..|food| - 1]) + food[|food| - 1].amount
  }

  lemma {:induction false} FitnessUpdate(worms: seq<Worm>, k: nat, w: Worm)
    requires k < |worms|
    ensures Fitness(worms[k := w]) == Fitness(worms) - worms[k].fitness + w.fitness
  {
    var n := |worms| - 1;
    if k == n {
      assert worms[k := w][..n] == worms[..n];
    } else {
      assert worms[k := w][..n] == worms[..n][k := w];
      FitnessUpdate(worms[..n], k, w);
    }
  }

  lemma {:induction false} AmountUpdate(food: seq<Food>, k: nat, f: Food)
    requires k < |food|
    ensures Amount(food[k := f]) == Amount(food) - food[k].amount + f.amount
  {
    var n := |food| - 1;
    if k == n {
      assert food[k := f][..n] == food[..n];
    } else {
      assert food[k := f][..n] == food[..n][k := f];
      AmountUpdate(food[..n], k, f);
    }
  }

  lemma AmountAppend(food: seq<Food>, f: Food)
    ensures Amount(food + [f]) == Amount(food) + f.amount
  {
    assert (food + [f])[..|food|] == food;
  }

  /** What upkeep keeps: everything above a crumb. */
  function Kept(food: seq<Food>): seq<Food> {
    if food == [] then []
    else Kept(food[..|food| - 1]) + if food[|food| - 1].amount > CRUMB then [food[|food| - 1]] else []
  }

  /** What upkeep throws away. */
  function Dropped(food: seq<Food>): seq<Food> {
    if food == [] then []
    else Dropped(food[..|food| - 1]) + if food[|food| - 1].amount > CRUMB then [] else [food[|food| - 1]]
  }

  /** `n` patches of the same amount. */
  function Worth(n: nat, amount: real): real {
    if n == 0 then 0.0 else Worth(n - 1, amount) + amount
  }

  lemma {:induction false} WorthIs(n: nat, amount: real)
    ensures Worth(n, amount) == n as real * amount
  {
    if n > 0 {
      WorthIs(n - 1, amount);
      assert n as real * amount == (n - 1) as real * amount + amount;
    }
  }

  lemma {:induction false} WorthAdds(a: nat, b: nat, amount: real)
    ensures Worth(a + b, amount) == Worth(a, amount) + Worth(b, amount)
  {
    if b > 0 { WorthAdds(a, b - 1, amount); }
  }

  /** Each patch that upkeep throws away holds a crumb at most. */
  lemma {:induction false} DroppedAreCrumbs(food: seq<Food>)
    requires NoneNegative(food)
    ensures NoneNegative(Kept(food)) && 0.0 <= Amount(Dropped(food)) <= Worth(|Dropped(food)|, CRUMB)
  {
    if food != [] {
      var before, f := food[..|food| - 1], food[|food| - 1];
      DroppedAreCrumbs(before);
      if f.amount <= CRUMB {
        AmountAppend(Dropped(before), f);
        assert Kept(food) == Kept(before) && Dropped(food) == Dropped(before) + [f];
      } else {
        assert Kept(food) == Kept(before) + [f] && Dropped(food) == Dropped(before);
      }
    }
  }

  /** Upkeep splits the food. */
  lemma {:induction false} KeptAndDropped(food: seq<Food>)
    ensures |food| == |Kept(food)| + |Dropped(food)|
    ensures Amount(food) == Amount(Kept(food)) + Amount(Dropped(food))
  {
    if food != [] {
      var before, f := food[..|food| - 1], food[|food| - 1];
      KeptAndDropped(before);
      if f.amount > CRUMB {
        AmountAppend(Kept(before), f);
        assert Kept(food) == Kept(before) + [f] && Dropped(food) == Dropped(before);
      } else {
        AmountAppend(Dropped(before), f);
        assert Kept(food) == Kept(before) && Dropped(food) == Dropped(before) + [f];
      }
    }
  }

  lemma {:induction false} GrazedAmount(w: Worm, food: seq<Food>)
    requires NoneNegative(food)
    ensures Amount(Grazed(w, food)) <= Amount(food) && NoneNegative(Grazed(w, food))
  {
    if food != [] {
      GrazedAmount(w, food[..|food| - 1]);
      assert Grazed(w, food)[..|food| - 1] == Grazed(w, food[..|food| - 1]);
    }
  }

  /** Food is conserved: what was put down was eaten, is still there, or was thrown away as crumbs. */
  ghost predicate Conserved(a: Arena) {
    && a.spawned == Fitness(a.worms) + Amount(a.food) + a.crumbs
    && 0.0 <= a.crumbs <= Worth(a.discarded, CRUMB)
  }

  const EMPTY := Arena([], [], 0, 0.0, 0.0, 0)

  /** What a new patch holds. */
  function PatchSize(difficulty: real): real
    requires difficulty > 0.0
  {
    Max(0.4, 2.4 / difficulty)
  }

  class World {
    const width: real
    const height: real
    const start: nat
    const cap: nat
    const foodDensity: nat
    var worms: seq<Worm>
    var food: seq<Food>
    var difficulty: real
    var generation: nat
    ghost var spawned: real     // food put down since the generation began
    ghost var crumbs: real      // food thrown away by upkeep since then
    ghost var discarded: nat    // patches thrown away since then

    constructor (width: real, height: real, start: nat, cap: nat, foodDensity: nat)
      ensures Valid() && worms == [] && food == []
    {
      this.width, this.height, this.start, this.cap, this.foodDensity := width, height, start, cap, foodDensity;
      worms, food, difficulty, generation, spawned, crumbs, discarded := [], [], 1.0, 0, 0.0, 0.0, 0;
      new;
      EmptyIsValid();
    }

    lemma EmptyIsValid()
      requires Now(0) == EMPTY && difficulty == 1.0
      ensures Valid()
    {
    }

    /** Within the arena, where it is wide enough for one reflection to bring a worm back. */
    predicate Fits(w: Worm) {
      && (width >= TOP_SPEED ==> Within(w.x, width)) && (height >= TOP_SPEED ==> Within(w.y, height))
      && w.energy <= MAX_ENERGY && w.fitness >= 0.0
    }

    ghost predicate AllFit(ws: seq<Worm>) {
      forall i | 0 <= i < |ws| :: Fits(ws[i])
    }

    ghost function Now(draws: nat): Arena
      reads this
    {
      Arena(worms, food, draws, spawned, crumbs, discarded)
    }

    ghost predicate Sane()
      reads this
    {
      1.0 <= difficulty <= 4.0 && AllFit(worms) && NoneNegative(food)
    }

    ghost predicate Valid()
      reads this
    {
      Sane() && Conserved(Now(0))
    }

    // What each part of a step makes of an arena.

    function Restocked(fs: seq<Food>, amount: real, place: nat -> (real, real)): (r: seq<Food>)
      ensures |r| == if |fs| < foodDensity then foodDensity else |fs|
      decreases foodDensity - |fs|
    {
      if |fs| >= foodDensity then fs
      else Restocked(fs + [Food(place(|fs|).0, place(|fs|).1, amount)], amount, place)
    }

    function Acted(a: Arena, k: nat, d: Drive, substeps: nat): (r: Arena)
      requires k < |a.worms| && substeps > 0
      ensures |r.worms| == |a.worms|
    {
      var moved := Moved(a.worms[k], d, substeps);
      var left := Grazed(moved, a.food);
      a.(worms := a.worms[k := Paid(Fed(moved, Amount(a.food) - Amount(left)), d, substeps)],
         food := left, draws := a.draws + 1)
    }

    /** The first `n` worms have had their turn, the dead ones being passed over. */
    function Turns(a: Arena, n: nat, substeps: nat, brain: nat -> Drive): (r: Arena)
      requires n <= |a.worms| && substeps > 0
      ensures |r.worms| == |a.worms|
    {
      if n == 0 then a
      else
        var b := Turns(a, n - 1, substeps, brain);
        if b.worms[n - 1].alive then Acted(b, n - 1, brain(b.draws), substeps) else b
    }

    function Upkept(a: Arena, amount: real, place: nat -> (real, real)): Arena {
      var kept, dropped := Kept(a.food), Dropped(a.food);
      var full := Restocked(kept, amount, place);
      Arena(a.worms, full, a.draws, a.spawned + Worth(|full| - |kept|, amount),
            a.crumbs + Amount(dropped), a.discarded + |dropped|)
    }

    function Steps(a: Arena, n: nat, substeps: nat, brain: nat -> Drive, place: nat -> nat -> (real, real),
                   amount: real): (r: Arena)
      requires substeps > 0
      ensures |r.worms| == |a.worms|
    {
      if n == 0 then a
      else
        var b := Steps(a, n - 1, substeps, brain, place, amount);
        Upkept(Turns(b, |b.worms|, substeps, brain), amount, place(n - 1))
    }

    // Conservation, part by part.

    lemma {:induction false} RestockedAmount(fs: seq<Food>, amount: real, place: nat -> (real, real))
      requires amount >= 0.0
      ensures var full := Restocked(fs, amount, place);
        Amount(full) == Amount(fs) + Worth(|full| - |fs|, amount) && (NoneNegative(fs) ==> NoneNegative(full))
      decreases foodDensity - |fs|
    {
      if |fs| < foodDensity {
        var f := Food(place(|fs|).0, place(|fs|).1, amount);
        AmountAppend(fs, f);
        RestockedAmount(fs + [f], amount, place);
        assert Worth(foodDensity - |fs|, amount) == Worth(foodDensity - |fs| - 1, amount) + amount;
      }
    }

    lemma ActedConserves(a: Arena, k: nat, d: Drive, substeps: nat)
      requires k < |a.worms| && substeps > 0 && Conserved(a) && NoneNegative(a.food)
      ensures Conserved(Acted(a, k, d, substeps)) && NoneNegative(Acted(a, k, d, substeps).food)
    {
      var moved := Moved(a.worms[k], d, substeps);
      GrazedAmount(moved, a.food);
      FitnessUpdate(a.worms, k, Acted(a, k, d, substeps).worms[k]);
    }

    lemma {:induction false} TurnsConserve(a: Arena, n: nat, substeps: nat, brain: nat -> Drive)
      requires n <= |a.worms| && substeps > 0 && Conserved(a) && NoneNegative(a.food)
      ensures Conserved(Turns(a, n, substeps, brain)) && NoneNegative(Turns(a, n, substeps, brain).food)
    {
      if n > 0 {
        TurnsConserve(a, n - 1, substeps, brain);
        var b := Turns(a, n - 1, substeps, brain);
        if b.worms[n - 1].alive { ActedConserves(b, n - 1, brain(b.draws), substeps); }
      }
    }

    lemma UpkeptStaysSane(a: Arena, amount: real, place: nat -> (real, real))
      requires amount >= 0.0 && NoneNegative(a.food)
      ensures NoneNegative(Upkept(a, amount, place).food)
      ensures |Kept(a.food)| + |Dropped(a.food)| == |a.food|
    {
      KeptAndDropped(a.food);
      DroppedAreCrumbs(a.food);
      RestockedAmount(Kept(a.food), amount, place);
    }

    lemma UpkeptConserves(a: Arena, amount: real, place: nat -> (real, real))
      requires amount >= 0.0 && Conserved(a) && NoneNegative(a.food)
      ensures Conserved(Upkept(a, amount, place)) && NoneNegative(Upkept(a, amount, place).food)
    {
      KeptAndDropped(a.food);
      DroppedAreCrumbs(a.food);
      RestockedAmount(Kept(a.food), amount, place);
      WorthAdds(a.discarded, |Dropped(a.food)|, CRUMB);
    }

    /** Over any number of steps, what the patches put down are worth was eaten, is left, or went
        with the patches thrown away, a crumb each at most. */
    lemma {:induction false} StepsConserve(a: Arena, n: nat, substeps: nat, brain: nat -> Drive,
                                           place: nat -> nat -> (real, real), amount: real)
      requires substeps > 0 && amount >= 0.0 && Conserved(a) && NoneNegative(a.food)
      ensures Conserved(Steps(a, n, substeps, brain, place, amount))
      ensures NoneNegative(Steps(a, n, substeps, brain, place, amount).food)
    {
      if n > 0 {
        StepsConserve(a, n - 1, substeps, brain, place, amount);
        var b := Steps(a, n - 1, substeps, brain, place, amount);
        TurnsConserve(b, |b.worms|, substeps, brain);
        UpkeptConserves(Turns(b, |b.worms|, substeps, brain), amount, place(n - 1));
      }
    }

    /** Put down food until the density is reached. */
    method Restock(place: nat -> (real, real))
      requires difficulty > 0.0
      modifies this`food, this`spawned
      ensures food == Restocked(old(food), PatchSize(difficulty), place)
      ensures spawned == old(spawned) + Worth(|food| - |old(food)|, PatchSize(difficulty))
    {
      ghost var amount, before := PatchSize(difficulty), food;
      while |food| < foodDensity
        invariant |before| <= |food| && (|food| > |before| ==> |food| <= foodDensity)
        invariant spawned == old(spawned) + Worth(|food| - |before|, amount)
        invariant Restocked(food, amount, place) == Restocked(before, amount, place)
      {
        var at := place(|food|);
        food := food + [Food(at.0, at.1, PatchSize(difficulty))];
        spawned := spawned + PatchSize(difficulty);
      }
    }

    /** The inner loop over the food: a bite from every patch in reach. */
    method Eat(k: nat)
      requires Sane() && k < |worms|
      modifies this`worms, this`food
      ensures Sane() && Amount(food) <= Amount(old(food))
      ensures worms == old(worms)[k := Fed(old(worms)[k], Amount(old(food)) - Amount(food))]
      ensures food == Grazed(old(worms)[k], old(food))
    {
      ghost var worms0, food0, eaten := worms, food, 0.0;
      for i := 0 to |food|
        invariant |food| == |food0| && 0.0 <= eaten == Amount(food0) - Amount(food)
        invariant worms == worms0[k := Fed(worms0[k], eaten)]
        invariant forall j | 0 <= j < |food| :: food[j] == if j < i then Bitten(worms0[k], food0[j]) else food0[j]
      {
        ReachUnfed(worms0[k], eaten, food[i]);
        ghost var before := Amount(food);
        Bite(k, i);
        FedTwice(worms0[k], eaten, before - Amount(food));
        eaten := eaten + (before - Amount(food));
      }
      GrazedAll(worms0[k], food0, food);
    }

    /** What the patch loses the worm gains in fitness, and more than twice that in energy. */
    method Bite(k: nat, i: nat)
      requires k < |worms| && i < |food| && food[i].amount >= 0.0
      modifies this`worms, this`food
      ensures food == old(food)[i := Bitten(old(worms)[k], old(food)[i])]
      ensures Amount(food) <= Amount(old(food))
      ensures worms == old(worms)[k := Fed(old(worms)[k], Amount(old(food)) - Amount(food))]
    {
      if food[i].amount > 0.0 && InReach(worms[k], food[i]) {
        var bite := Min(food[i].amount, MAX_BITE);
        var left := food[i].(amount := food[i].amount - bite);
        AmountUpdate(food, i, left);
        food, worms := food[i := left], worms[k := Fed(worms[k], bite)];
      }
    }

    /** Move one worm, reflect it off the walls, let it eat and pay for the move. */
    method Act(k: nat, d: Drive, substeps: nat, ghost draws: nat)
      requires Sane() && k < |worms| && substeps > 0
      requires d.left <= substeps && d.right <= substeps && -1.0 <= d.dirX <= 1.0 && -1.0 <= d.dirY <= 1.0
      modifies this`worms, this`food
      ensures Sane() && Now(draws + 1) == Acted(old(Now(draws)), k, d, substeps)
      ensures old(worms)[k].alive ==> forall i | 0 <= i < |worms| :: Progressed(old(worms)[i], worms[i])
    {
      Move(k, d, substeps);
      Eat(k);
      Pay(k, d, substeps);
    }

    method Move(k: nat, d: Drive, substeps: nat)
      requires Sane() && k < |worms| && substeps > 0
      requires d.left <= substeps && d.right <= substeps && -1.0 <= d.dirX <= 1.0 && -1.0 <= d.dirY <= 1.0
      modifies this`worms
      ensures Sane() && worms == old(worms)[k := Moved(old(worms)[k], d, substeps)]
    {
      MovedFits(worms[k], d, substeps);
      worms := worms[k := Moved(worms[k], d, substeps)];
    }

    method Pay(k: nat, d: Drive, substeps: nat)
      requires Sane() && k < |worms| && substeps > 0 && d.left <= substeps && d.right <= substeps
      modifies this`worms
      ensures Sane() && worms == old(worms)[k := Paid(old(worms)[k], d, substeps)]
    {
      SpeedBounded(d, substeps);
      worms := worms[k := Paid(worms[k], d, substeps)];
    }

    /** Moving costs energy, and a worm without energy dies. */
    function Paid(w: Worm, d: Drive, substeps: nat): Worm
      requires substeps > 0
    {
      var left := w.energy - (0.008 + 0.005 * Speed(d, substeps));
      w.(energy := left, alive := w.alive && left > 0.0)
    }

    function Moved(w: Worm, d: Drive, substeps: nat): Worm
      requires substeps > 0
    {
      w.(x := Reflect(w.x + d.dirX * Speed(d, substeps), width),
         y := Reflect(w.y + d.dirY * Speed(d, substeps), height))
    }

    lemma MovedFits(w: Worm, d: Drive, substeps: nat)
      requires substeps > 0
      requires d.left <= substeps && d.right <= substeps && -1.0 <= d.dirX <= 1.0 && -1.0 <= d.dirY <= 1.0
      ensures Fits(w) ==> Fits(Moved(w, d, substeps))
    {
      SpeedBounded(d, substeps);
      if width >= TOP_SPEED { MoveStaysInside(w.x, d.dirX, Speed(d, substeps), width); }
      if height >= TOP_SPEED { MoveStaysInside(w.y, d.dirY, Speed(d, substeps), height); }
    }

    /** Food upkeep at the end of a step. */
    method Upkeep(place: nat -> (real, real), ghost draws: nat)
      requires Sane()
      modifies this`food, this`spawned, this`crumbs, this`discarded
      ensures Sane() && Now(draws) == Upkept(old(Now(draws)), PatchSize(difficulty), place)
    {
      UpkeptStaysSane(Now(draws), PatchSize(difficulty), place);
      crumbs := crumbs + Amount(Dropped(food));
      discarded := discarded + |Dropped(food)|;
      food := Kept(food);
      Restock(place);
    }

    method Tick(steps: nat, substeps: nat, brain: nat -> Drive, place: nat -> nat -> (real, real)) returns (draws: nat)
      requires Valid() && substeps > 0 && Drives(brain, substeps)
      modifies this`worms, this`food, this`spawned, this`crumbs, this`discarded
      ensures Valid() && (steps > 0 ==> |food| >= foodDensity)
      ensures Now(draws) == Steps(old(Now(0)), steps, substeps, brain, place, PatchSize(difficulty))
      ensures |worms| == |old(worms)| && forall i | 0 <= i < |worms| :: Progressed(old(worms)[i], worms[i])
    {
      ghost var worms0, a0 := worms, Now(0);
      draws := 0;
      for step := 0 to steps
        invariant Sane() && |worms| == |worms0| && (step > 0 ==> |food| >= foodDensity)
        invariant Now(draws) == Steps(a0, step, substeps, brain, place, PatchSize(difficulty))
        invariant forall i | 0 <= i < |worms| :: Progressed(worms0[i], worms[i])
      {
        draws := TakeTurns(substeps, brain, draws);
        Upkeep(place(step), draws);
      }
      StepsConserve(a0, steps, substeps, brain, place, PatchSize(difficulty));
    }

    /** The loop over the worms within one step. */
    method TakeTurns(substeps: nat, brain: nat -> Drive, draws0: nat) returns (draws: nat)
      requires Sane() && substeps > 0 && Drives(brain, substeps)
      modifies this`worms, this`food
      ensures Sane() && |worms| == |old(worms)|
      ensures Now(draws) == Turns(old(Now(draws0)), |worms|, substeps, brain)
      ensures forall i | 0 <= i < |worms| :: Progressed(old(worms)[i], worms[i])
    {
      ghost var worms0, a0 := worms, Now(draws0);
      draws := draws0;
      for k := 0 to |worms|
        invariant Sane() && |worms| == |worms0|
        invariant Now(draws) == Turns(a0, k, substeps, brain)
        invariant forall i | 0 <= i < |worms| :: Progressed(worms0[i], worms[i])
      {
        if worms[k].alive {
          Act(k, brain(draws), substeps, draws);
          draws := draws + 1;
        }
      }
    }

    /** The dead stay dead and untouched, and no fitness is lost. */
    ghost predicate Progressed(a: Worm, b: Worm) {
      (b.alive ==> a.alive) && b.fitness >= a.fitness && (!a.alive ==> b == a)
    }

    function Survivors(ws: seq<Worm>): seq<Worm> {
      if ws == [] then []
      else Survivors(ws[..|ws| - 1]) + if ws[|ws| - 1].alive then [ws[|ws| - 1]] else []
    }

    lemma {:induction false} SurvivorsAreAlive(ws: seq<Worm>)
      ensures |Survivors(ws)| <= |ws| && forall w | w in Survivors(ws) :: w in ws && w.alive
    {
      if ws != [] {
        SurvivorsAreAlive(ws[..|ws| - 1]);
        assert ws == ws[..|ws| - 1] + [ws[|ws| - 1]];
      }
    }

    /** Fitness of the first of the survivors once sorted by falling fitness. */
    function TopFitness(ws: seq<Worm>): real
      requires ws != []
    {
      if |ws| == 1 then ws[0].fitness else Max(TopFitness(ws[..|ws| - 1]), ws[|ws| - 1].fitness)
    }

    /** It is the fitness of one of them, and none is fitter. */
    lemma {:induction false} TopFitnessIsTop(ws: seq<Worm>) returns (best: nat)
      requires ws != []
      ensures best < |ws| && ws[best].fitness == TopFitness(ws)
      ensures forall i | 0 <= i < |ws| :: ws[i].fitness <= TopFitness(ws)
    {
      best := 0;
      if |ws| > 1 {
        best := TopFitnessIsTop(ws[..|ws| - 1]);
        if ws[best].fitness < ws[|ws| - 1].fitness { best := |ws| - 1; }
      }
    }

    /** A newborn: rested, unfed, somewhere in the middle four fifths of the arena. */
    function Newborn(at: (real, real)): Worm {
      Worm(0.1 * width + 0.8 * width * at.0, 0.1 * height + 0.8 * height * at.1, 1.0, 0.0, true)
    }

    ghost predicate Newborns(ws: seq<Worm>) {
      forall i | 0 <= i < |ws| :: Fits(ws[i]) && ws[i].alive && ws[i].energy == 1.0 && ws[i].fitness == 0.0
    }

    /** Every draw of the random source lies in the unit interval. */
    ghost predicate Draws(birth: nat -> (real, real)) {
      forall k: nat :: 0.0 <= birth(k).0 <= 1.0 && 0.0 <= birth(k).1 <= 1.0
    }

    /** `seed_world`: founders and a full field of food. */
    method Seed(birth: nat -> (real, real), place: nat -> (real, real))
      requires Valid() && Draws(birth)
      modifies this
      ensures Valid() && |worms| == start && Newborns(worms) && |food| == foodDensity && generation == 0
      ensures difficulty == 1.0 && food == Restocked([], PatchSize(difficulty), place)
      ensures spawned == Worth(foodDensity, PatchSize(difficulty)) && crumbs == 0.0 && discarded == 0
    {
      var founders := Litter(birth, start);
      difficulty, generation := 1.0, 0;
      Begin(founders, place);
    }

    /** A new generation on a fresh field. */
    method Begin(ws: seq<Worm>, place: nat -> (real, real))
      requires 1.0 <= difficulty <= 4.0 && Newborns(ws)
      modifies this`worms, this`food, this`spawned, this`crumbs, this`discarded
      ensures Valid() && worms == ws && food == Restocked([], PatchSize(difficulty), place)
      ensures spawned == Worth(foodDensity, PatchSize(difficulty)) && crumbs == 0.0 && discarded == 0
    {
      NewbornsAreUnfed(ws);
      RestockedAmount([], PatchSize(difficulty), place);
      worms, food := ws, [];
      spawned, crumbs, discarded := 0.0, 0.0, 0;
      Restock(place);
    }

    /** The moving finish line. */
    function Harder(survivors: seq<Worm>): real
      requires survivors != []
    {
      Min(4.0, 1.0 + 0.15 * TopFitness(survivors))
    }

    lemma SurvivorsRaiseDifficulty(ws: seq<Worm>)
      requires AllFit(ws) && Survivors(ws) != []
      ensures 1.0 <= Harder(Survivors(ws)) <= 4.0
    {
      SurvivorsAreAlive(ws);
      var best := TopFitnessIsTop(Survivors(ws));
      assert Survivors(ws)[best] in ws;
    }

    /** Nobody survived: founders on the field as it is. */
    method Reseed(birth: nat -> (real, real))
      requires Sane() && Draws(birth)
      modifies this`worms, this`generation, this`spawned, this`crumbs, this`discarded
      ensures Valid() && Newborns(worms) && |worms| == start && generation == 0
      ensures spawned == Amount(food) && crumbs == 0.0 && discarded == 0
    {
      worms := Litter(birth, start);
      NewbornsAreUnfed(worms);
      generation := 0;
      spawned, crumbs, discarded := Amount(food), 0.0, 0;
    }

    /** The children of the survivors on a fresh and harder field. */
    method Succeed(survivors: seq<Worm>, birth: nat -> (real, real), place: nat -> (real, real))
      requires Draws(birth) && survivors != [] && 1.0 <= Harder(survivors) <= 4.0
      modifies this
      ensures Valid() && Newborns(worms) && |worms| == NextSize(|survivors|)
      ensures generation == old(generation) + 1 && difficulty == Harder(survivors)
      ensures food == Restocked([], PatchSize(difficulty), place)
      ensures spawned == Worth(foodDensity, PatchSize(difficulty)) && crumbs == 0.0 && discarded == 0
    {
      generation := generation + 1;
      difficulty := Harder(survivors);
      var children := Litter(birth, PopulationGoal(|survivors|));
      var cut := if cap < |children| then children[..cap] else children;
      Begin(cut, place);
    }

    method Breed(birth: nat -> (real, real), place: nat -> (real, real))
      requires Valid() && Draws(birth)
      modifies this
      ensures Valid() && Newborns(worms) && |worms| == NextSize(|Survivors(old(worms))|)
      ensures |worms| <= cap || (Survivors(old(worms)) == [] && |worms| == start)
      ensures crumbs == 0.0 && discarded == 0
      ensures var survivors := Survivors(old(worms));
        if survivors == [] then
          generation == 0 && difficulty == old(difficulty) && food == old(food) && spawned == Amount(food)
        else
          && generation == old(generation) + 1 && difficulty == Harder(survivors)
          && food == Restocked([], PatchSize(difficulty), place) && spawned == Worth(foodDensity, PatchSize(difficulty))
    {
      var survivors := Survivors(worms);
      if survivors == [] {
        Reseed(birth);
      } else {
        SurvivorsRaiseDifficulty(worms);
        Succeed(survivors, birth, place);
      }
    }

    /** One child for each survivor, then more until twice as many, between `start` and `cap`. */
    function PopulationGoal(survivors: nat): nat {
      var doubled := if 2 * survivors < start then start else 2 * survivors;
      var target := if cap < doubled then cap else doubled;
      if target < survivors then survivors else target
    }

    /** How many worms the next generation has: founders, or the children up to the cap. */
    function NextSize(survivors: nat): nat {
      if survivors == 0 then start
      else if cap < PopulationGoal(survivors) then cap
      else PopulationGoal(survivors)
    }

    /** The cap is passed exactly when nobody survives and there are more founders than it allows;
        within it every survivor has a place. */
    lemma PopulationWithinCap(survivors: nat)
      ensures NextSize(survivors) > cap <==> survivors == 0 && start > cap
      ensures survivors <= cap ==> survivors <= NextSize(survivors)
    {
    }

    method Litter(birth: nat -> (real, real), n: nat) returns (ws: seq<Worm>)
      requires Draws(birth)
      ensures |ws| == n && Newborns(ws)
    {
      ws := [];
      while |ws| < n
        invariant |ws| <= n
        invariant Newborns(ws)
      {
        NewbornFits(birth(|ws|));
        ws := ws + [Newborn(birth(|ws|))];
      }
    }

    lemma NewbornFits(at: (real, real))
      requires 0.0 <= at.0 <= 1.0 && 0.0 <= at.1 <= 1.0
      ensures Fits(Newborn(at))
    {
      if width >= TOP_SPEED { Middle(width, at.0); }
      if height >= TOP_SPEED { Middle(height, at.1); }
    }

    lemma Middle(size: real, u: real)
      requires 0.0 <= u <= 1.0 && size >= 0.0
      ensures Within(0.1 * size + 0.8 * size * u, size)
    {
      Product(size, u);
      Product(size, 1.0 - u);
      assert size * (1.0 - u) == size - size * u;
      assert 0.8 * size * u == 0.8 * (size * u);
    }

    lemma {:induction false} NewbornsAreUnfed(ws: seq<Worm>)
      requires Newborns(ws)
      ensures AllFit(ws) && Fitness(ws) == 0.0
    {
      if ws != [] { NewbornsAreUnfed(ws[..|ws| - 1]); }
    }
  }
}
