/** Choosing between draining, sacrificing and healing against one monster: a
    search for the least costly way to its end, allowance by allowance, that may
    give up, and the single best step to fall back on. */
module DrainPlan {

  datatype Option<+T> = None | Some(value: T)

  const CAST_OVERHEAD_MILLISECONDS := 800
  const HEAL_CAST_MILLISECONDS := 2450
  const HEAL_POINTS := 115
  const RING_MARTYR_SPELL_ID := 3818
  const DRAIN_FLOOR_POINTS := 25
  const BUDGET_STEP_MILLISECONDS := 600
  const NODE_BUDGET := 2000
  const SEARCH_TARGET_HEALTH_CEILING := 300
  const MARTYR_BIAS: real := 180.0
  const MARTYR_BIAS_COST: real := 3200.0
  const I32_MAX := 0x7fff_ffff
  const I32_MIN := -0x8000_0000

  // ----- arithmetic -----

  /** The whole number nearest `x`, the even one of two as near. */
  function RoundEven(x: real): int {
    var below := x.Floor;
    var past := x - below as real;
    if past < 0.5 || (past == 0.5 && below % 2 == 0) then below else below + 1
  }

  /** A whole number cut to 32 bits, as a cast from a float cuts it. */
  function ToI32(n: int): int { if n > I32_MAX then I32_MAX else if n < I32_MIN then I32_MIN else n }

  function Rounded(x: real): int { ToI32(RoundEven(x)) }

  function Product(x: real, y: real): real { x * y }

  function Times(n: int, factor: real): int { Rounded(Product(n as real, factor)) }

  /** A division by zero answers infinity, which the cast cuts to the greatest number. */
  function Over(n: int, divisor: real): int { if divisor == 0.0 then I32_MAX else Rounded(n as real / divisor) }

  /** Division that cuts toward zero. */
  function DivideInt(a: int, b: int): int
    requires b > 0
  {
    if a >= 0 then a / b else -((-a) / b)
  }

  function Min(a: int, b: int): int { if a < b then a else b }

  /** Rounding keeps to the side of a whole number its argument is on. */
  lemma RoundingStays(x: real, low: int, high: int)
    requires low as real <= x <= high as real && I32_MIN <= low && high <= I32_MAX
    ensures low <= Rounded(x) <= high
  {}

  // ----- steps -----

  datatype Kind =
    | Drain(enemyFactor: real, resultMultiplier: real, maximumPoints: int)
    | Martyr(selfFactor: real, multiplier: real)
    | Heal

  datatype Step = Step(spellId: nat, costMilliseconds: int, kind: Kind)

  datatype State = State(targetHealth: int, health: int, maximumHealth: int, costMilliseconds: int)

  datatype Node = Node(steps: seq<Step>, state: State)

  function HealStep(): Step { Step(0, HEAL_CAST_MILLISECONDS + CAST_OVERHEAD_MILLISECONDS, Heal) }

  function Deficit(state: State): int { state.maximumHealth - state.health }

  predicate Finished(state: State) { state.targetHealth <= 0 }

  /** The points taken from the monster and those given to the caster: what the
      caster has no room for is not given, and its share is not taken. */
  function Drained(kind: Kind, state: State): (int, int)
    requires kind.Drain?
  {
    var full := Min(Min(Times(state.targetHealth, kind.enemyFactor), state.targetHealth), kind.maximumPoints);
    var gained := Times(full, kind.resultMultiplier);
    if gained > Deficit(state) then
      var trimmed := full - Over(gained - Deficit(state), kind.resultMultiplier);
      (if trimmed < 0 then 0 else trimmed, Deficit(state))
    else (full, gained)
  }

  function Apply(step: Step, state: State): State {
    var next :=
      match step.kind
      case Drain(_, _, _) =>
        var (taken, given) := Drained(step.kind, state);
        state.(health := state.health + given, targetHealth := state.targetHealth - taken)
      case Martyr(selfFactor, multiplier) =>
        var spent := Times(state.health, selfFactor);
        var left := state.targetHealth - Times(spent, multiplier);
        state.(health := state.health - spent, targetHealth := if left < 0 then 0 else left)
      case Heal => state.(health := Min(state.health + HEAL_POINTS, state.maximumHealth));
    next.(costMilliseconds := state.costMilliseconds + step.costMilliseconds)
  }

  function Extend(node: Node, step: Step): Node { Node(node.steps + [step], Apply(step, node.state)) }

  function Cost(node: Node): int { |node.steps| + node.state.costMilliseconds }

  function Score(state: State): int { state.costMilliseconds + DivideInt(1000 * state.targetHealth, 106) }

  predicate Skip(state: State, step: Step) {
    || (state.health == state.maximumHealth && !step.kind.Martyr?)
    || (step.kind.Drain? && state.targetHealth < DRAIN_FLOOR_POINTS)
  }

  // ----- what every state keeps -----

  predicate Sound(step: Step) {
    match step.kind
    case Drain(enemyFactor, resultMultiplier, maximumPoints) => 0.0 <= enemyFactor <= 1.0 && 0.0 <= resultMultiplier && 0 <= maximumPoints
    case Martyr(selfFactor, multiplier) => 0.0 <= selfFactor <= 1.0 && 0.0 <= multiplier
    case Heal => true
  }

  predicate InBounds(state: State, target: int, maximum: int) {
    && 0 <= state.targetHealth <= target <= I32_MAX
    && 0 <= state.health <= state.maximumHealth == maximum <= I32_MAX
  }

  lemma NotNegative(x: real, y: real)
    requires 0.0 <= x && 0.0 <= y
    ensures 0.0 <= x * y
  {}

  lemma Remainder(x: real, y: real)
    ensures x * (1.0 - y) == x - x * y
  {}

  lemma FractionOf(whole: real, factor: real)
    requires 0.0 <= whole && 0.0 <= factor <= 1.0
    ensures 0.0 <= Product(whole, factor) <= whole
  {
    NotNegative(whole, factor);
    NotNegative(whole, 1.0 - factor);
    Remainder(whole, factor);
  }

  lemma PartOf(n: int, factor: real)
    requires 0 <= n <= I32_MAX && 0.0 <= factor <= 1.0
    ensures 0 <= Times(n, factor) <= n
  {
    hide Rounded, Product;
    FractionOf(n as real, factor);
    RoundingStays(Product(n as real, factor), 0, n);
  }

  /** A share of something not negative is not negative. */
  lemma ShareOf(n: int, factor: real)
    requires 0 <= n && 0.0 <= factor
    ensures 0 <= Times(n, factor)
  {
    NotNegative(n as real, factor);
  }

  lemma QuotientOf(n: int, divisor: real)
    requires 0 <= n && 0.0 <= divisor
    ensures 0 <= Over(n, divisor)
  {
    if divisor > 0.0 {
      var q := n as real / divisor;
      assert q * divisor == n as real;
      if q < 0.0 { StrictProducts(q, divisor); }
    }
  }

  lemma StrictProducts(q: real, divisor: real)
    requires q < 0.0 < divisor
    ensures q * divisor < 0.0
  {}

  /** Sound steps keep both healths between nothing and where they may be. */
  lemma StepKeepsBounds(step: Step, state: State, target: int, maximum: int)
    requires Sound(step) && InBounds(state, target, maximum)
    ensures InBounds(Apply(step, state), target, maximum)
  {
    hide Times, Over, Drained;
    match step.kind
    case Drain(enemyFactor, resultMultiplier, maximumPoints) => DrainKeepsBounds(step.kind, state);
    case Martyr(selfFactor, multiplier) =>
      PartOf(state.health, selfFactor);
      ShareOf(Times(state.health, selfFactor), multiplier);
    case Heal =>
  }

  lemma DrainKeepsBounds(kind: Kind, state: State)
    requires kind.Drain? && Sound(Step(0, 0, kind)) && InBounds(state, state.targetHealth, state.maximumHealth)
    ensures var drained := Drained(kind, state); 0 <= drained.0 <= state.targetHealth && 0 <= drained.1 <= Deficit(state)
  {
    hide Times, Over;
    PartOf(state.targetHealth, kind.enemyFactor);
    var full := Min(Min(Times(state.targetHealth, kind.enemyFactor), state.targetHealth), kind.maximumPoints);
    ShareOf(full, kind.resultMultiplier);
    var gained := Times(full, kind.resultMultiplier);
    if gained > Deficit(state) {
      QuotientOf(gained - Deficit(state), kind.resultMultiplier);
    }
  }

  // ----- what a step does to the two healths -----

  /** `n` is the whole number nearest `x`, even if `x` is just between two. */
  predicate Nearest(n: int, x: real) {
    n as real - 0.5 <= x <= n as real + 0.5 && (x != n as real && (x == n as real - 0.5 || x == n as real + 0.5) ==> n % 2 == 0)
  }

  /** The same within 32 bits, past which the last number stands for all. */
  predicate NearestHeld(n: int, x: real) {
    if x > I32_MAX as real then n == I32_MAX else if x < I32_MIN as real then n == I32_MIN else Nearest(n, x)
  }

  lemma RoundedIsNearest(n: int, x: real)
    ensures NearestHeld(n, x) <==> n == Rounded(x)
  {}

  function Least(a: int, b: int, c: int): int { if a <= b && a <= c then a else if b <= c then b else c }

  /** What a step takes from the monster, and what it gives the caster. */
  function TakenBy(step: Step, state: State): int { state.targetHealth - Apply(step, state).targetHealth }

  function GivenBy(step: Step, state: State): int { Apply(step, state).health - state.health }

  /** A drain's share is the least of the part of the monster's health that is
      nearest its factor of it, all of that health, and the spell's most.  It
      gives what the share is worth, or the room there is for it if that is
      less; with room for all it takes its share, and else so much less as the
      part not given is worth. */
  lemma DrainTakesAndGives(step: Step, state: State, part: int, worth: int, lost: int)
    requires step.kind.Drain? && NearestHeld(part, Product(state.targetHealth as real, step.kind.enemyFactor))
    requires NearestHeld(worth, Product(Least(part, state.targetHealth, step.kind.maximumPoints) as real, step.kind.resultMultiplier))
    requires worth > Deficit(state) ==>
               step.kind.resultMultiplier != 0.0 && NearestHeld(lost, (worth - Deficit(state)) as real / step.kind.resultMultiplier)
    ensures GivenBy(step, state) == if worth <= Deficit(state) then worth else Deficit(state)
    ensures var share := Least(part, state.targetHealth, step.kind.maximumPoints);
            TakenBy(step, state) == if worth <= Deficit(state) then share else if lost <= share then share - lost else 0
  {
    hide NearestHeld, Rounded, Product;
    var share := Least(part, state.targetHealth, step.kind.maximumPoints);
    RoundedIsNearest(part, Product(state.targetHealth as real, step.kind.enemyFactor));
    RoundedIsNearest(worth, Product(share as real, step.kind.resultMultiplier));
    if worth > Deficit(state) {
      RoundedIsNearest(lost, (worth - Deficit(state)) as real / step.kind.resultMultiplier);
    }
  }

  predicate Within(x: real, y: real, slack: real) { y - slack <= x <= y + slack }

  /** So no overhealing is ever taken: what the drain takes is worth what it
      gives, but for rounding. */
  lemma DrainIsWorthWhatItGives(step: Step, state: State)
    requires step.kind.Drain? && Sound(step) && InBounds(state, state.targetHealth, state.maximumHealth)
    requires Product(step.kind.maximumPoints as real, step.kind.resultMultiplier) <= I32_MAX as real
    ensures Within(Product(TakenBy(step, state) as real, step.kind.resultMultiplier), GivenBy(step, state) as real, 0.5 + step.kind.resultMultiplier / 2.0)
  {
    hide NearestHeld, Rounded, Times, Product, Apply, Within, Over;
    var m := step.kind.resultMultiplier;
    var part := Times(state.targetHealth, step.kind.enemyFactor);
    PartOf(state.targetHealth, step.kind.enemyFactor);
    var share := Least(part, state.targetHealth, step.kind.maximumPoints);
    MoreIsWorthMore(share, step.kind.maximumPoints, m);
    var worth := Times(share, m);
    TimesIsNear(share, m);
    PartIsNearest(state.targetHealth, step.kind.enemyFactor);
    PartIsNearest(share, m);
    var room, lost := Deficit(state), 0;
    if worth > room {
      WorthlessGivesNothing(share, m);
      lost := Over(worth - room, m);
      OverIsNearest(worth - room, m);
      LostIsWorthTheRest(share, worth, room, lost, m);
    }
    DrainTakesAndGives(step, state, part, worth, lost);
    if worth <= room { Looser(Product(share as real, m), worth as real, m); }
  }

  lemma Looser(x: real, y: real, m: real)
    requires Within(y, x, 0.5) && 0.0 <= m
    ensures Within(x, y, 0.5 + m / 2.0)
  {}

  lemma PartIsNearest(n: int, factor: real)
    ensures NearestHeld(Times(n, factor), Product(n as real, factor))
  {
    hide NearestHeld, Rounded, Product;
    RoundedIsNearest(Times(n, factor), Product(n as real, factor));
  }

  lemma OverIsNearest(n: int, divisor: real)
    requires divisor != 0.0
    ensures NearestHeld(Over(n, divisor), n as real / divisor)
  {
    hide NearestHeld, Rounded;
    RoundedIsNearest(Over(n, divisor), n as real / divisor);
  }

  lemma MoreIsWorthMore(less: int, more: int, m: real)
    requires less <= more && 0.0 <= m
    ensures Product(less as real, m) <= Product(more as real, m)
  {
    NotNegative((more - less) as real, m);
    Distributes(more as real, less as real, m);
  }

  lemma Distributes(x: real, y: real, m: real)
    ensures Product(x - y, m) == Product(x, m) - Product(y, m) && Product(x + y, m) == Product(x, m) + Product(y, m)
  {}

  /** In 32 bits the worth of a share is within a half of the real one. */
  lemma TimesIsNear(share: int, m: real)
    requires 0 <= share && 0.0 <= m && Product(share as real, m) <= I32_MAX as real
    ensures Within(Times(share, m) as real, Product(share as real, m), 0.5) && 0 <= Times(share, m) <= I32_MAX
  {
    NotNegative(share as real, m);
  }

  lemma WorthlessGivesNothing(share: int, m: real)
    requires 0 <= share && 0.0 <= m && Times(share, m) > 0
    ensures m > 0.0
  {
    assert m == 0.0 ==> Product(share as real, m) == 0.0;
  }

  lemma ProductNotNegative(x: real, m: real)
    requires 0.0 <= x && 0.0 <= m
    ensures 0.0 <= Product(x, m)
  {
    NotNegative(x, m);
  }

  lemma Quotient(rest: real, m: real)
    requires m > 0.0
    ensures Product(rest / m, m) == rest && (rest >= 0.0 ==> rest / m >= 0.0) && Product(0.5, m) == m / 2.0
  {
    assert rest / m * m == rest;
    if rest / m < 0.0 { StrictProducts(rest / m, m); }
  }

  lemma LostIsWorthTheRest(share: int, worth: int, room: int, lost: int, m: real)
    requires 0 <= room < worth <= I32_MAX && 0 <= share <= I32_MAX && m > 0.0 && Within(worth as real, Product(share as real, m), 0.5)
    requires NearestHeld(lost, (worth - room) as real / m)
    ensures Within(Product((if lost <= share then share - lost else 0) as real, m), room as real, 0.5 + m / 2.0)
  {
    hide Product;
    var rest := (worth - room) as real;
    var q := rest / m;
    Quotient(rest, m);
    Distributes(share as real, lost as real, m);
    Distributes(lost as real, 0.5, m);
    Nought(m);
    if q > I32_MAX as real {
      ProductNotNegative(q - share as real, m);
      Distributes(q, share as real, m);
    } else {
      ProductNotNegative(lost as real + 0.5 - q, m);
      Distributes(lost as real + 0.5, q, m);
      ProductNotNegative(q - (lost as real - 0.5), m);
      Distributes(q, lost as real - 0.5, m);
      if lost > share {
        ProductNotNegative(lost as real - share as real, m);
        Distributes(lost as real, share as real, m);
      }
    }
  }

  lemma Nought(m: real)
    ensures Product(0.0, m) == 0.0
  {}

  /** A martyr pays the part of the caster's health its factor says, and takes
      that times its multiplier, down to nothing. */
  lemma MartyrPaysAndTakes(step: Step, state: State, paid: int, dealt: int)
    requires step.kind.Martyr? && NearestHeld(paid, Product(state.health as real, step.kind.selfFactor))
    requires NearestHeld(dealt, Product(paid as real, step.kind.multiplier))
    ensures GivenBy(step, state) == -paid
    ensures TakenBy(step, state) == if dealt <= state.targetHealth then dealt else state.targetHealth
  {
    hide NearestHeld, Rounded, Product;
    RoundedIsNearest(paid, Product(state.health as real, step.kind.selfFactor));
    RoundedIsNearest(dealt, Product(paid as real, step.kind.multiplier));
  }

  /** A heal gives its points or what there is room for, and takes nothing. */
  lemma HealGives(step: Step, state: State)
    requires step.kind.Heal?
    ensures TakenBy(step, state) == 0 && GivenBy(step, state) == if 115 <= Deficit(state) then 115 else Deficit(state)
  {}

  /** Every 106 points of the monster's health left count as a second more. */
  lemma ScoreCountsTheRest(state: State)
    requires state.targetHealth >= 0
    ensures 106 * (Score(state) - state.costMilliseconds) <= 1000 * state.targetHealth < 106 * (Score(state) - state.costMilliseconds + 1)
  {}

  // ----- plans -----

  /** Where a sequence of steps leads. */
  function Replay(start: State, path: seq<Step>): State {
    if path == [] then start else Apply(path[|path| - 1], Replay(start, path[..|path| - 1]))
  }

  lemma {:induction false} ReplayKeepsBounds(start: State, path: seq<Step>, target: int, maximum: int)
    requires InBounds(start, target, maximum) && forall i :: 0 <= i < |path| ==> Sound(path[i])
    ensures InBounds(Replay(start, path), target, maximum)
  {
    if path != [] {
      ReplayKeepsBounds(start, path[..|path| - 1], target, maximum);
      StepKeepsBounds(path[|path| - 1], Replay(start, path[..|path| - 1]), target, maximum);
    }
  }

  function PlanCost(start: State, path: seq<Step>): int { |path| + Replay(start, path).costMilliseconds }

  function CastTimes(path: seq<Step>): int { if path == [] then 0 else CastTimes(path[..|path| - 1]) + path[|path| - 1].costMilliseconds }

  /** A plan costs the time of its casts and one for each, and leaves room for
      as much health as there was. */
  lemma {:induction false} PlanCostAddsUp(start: State, path: seq<Step>)
    ensures PlanCost(start, path) == start.costMilliseconds + CastTimes(path) + |path|
    ensures Replay(start, path).maximumHealth == start.maximumHealth
  {
    hide Times, Drained;
    if path != [] { PlanCostAddsUp(start, path[..|path| - 1]); }
  }

  /** The step is open to the caster and its outcome within the allowance; with
      `keepFloor`, it also keeps the caster above the health floor. */
  predicate Passes(state: State, step: Step, budget: int, floor: int, keepFloor: bool) {
    !Skip(state, step) && Score(Apply(step, state)) <= budget && (keepFloor ==> Apply(step, state).health >= floor)
  }

  predicate FloorKept(state: State, steps: seq<Step>, budget: int, floor: int) {
    exists i :: 0 <= i < |steps| && Passes(state, steps[i], budget, floor, true)
  }

  /** The steps the search may take: those that keep the floor, or any when
      none does. */
  predicate Allowed(state: State, step: Step, steps: seq<Step>, budget: int, floor: int) {
    step in steps && Passes(state, step, budget, floor, FloorKept(state, steps, budget, floor))
  }

  /** Every step of `path` is allowed where it is taken, and none follows the
      monster's end. */
  ghost predicate InTree(start: State, path: seq<Step>, steps: seq<Step>, budget: int, floor: int) {
    forall i :: 0 <= i < |path| ==>
      && Allowed(Replay(start, path[..i]), path[i], steps, budget, floor)
      && (i > 0 ==> !Finished(Replay(start, path[..i])))
  }

  /** A search wastes nothing: what it heals or drains for has room, what it
      drains has the points for it, and what follows keeps to the allowance, and
      to the floor too if any step does. */
  lemma SearchWastesNothing(start: State, path: seq<Step>, steps: seq<Step>, budget: int, floor: int, i: nat)
    requires InTree(start, path, steps, budget, floor) && i < |path|
    ensures var before, after, step := Replay(start, path[..i]), Replay(start, path[..i + 1]), path[i];
            && step in steps && after == Apply(step, before)
            && (step.kind.Martyr? || Deficit(before) != 0) && (step.kind.Drain? ==> before.targetHealth >= 25)
            && Score(after) <= budget
            && (after.health < floor ==> forall s :: s in steps && Apply(s, before).health >= floor ==>
                  || Score(Apply(s, before)) > budget
                  || (!s.kind.Martyr? && Deficit(before) == 0) || (s.kind.Drain? && before.targetHealth < 25))
  {
    hide Apply, Score;
    var before := Replay(start, path[..i]);
    assert path[..i + 1][..i] == path[..i];
    assert Allowed(before, path[i], steps, budget, floor);
    forall s | s in steps && Passes(before, s, budget, floor, true) ensures FloorKept(before, steps, budget, floor) {
      var k :| 0 <= k < |steps| && steps[k] == s;
      assert Passes(before, steps[k], budget, floor, true);
    }
  }

  /** And leaves nothing out: a path of the tree not yet at the monster's end
      goes on by every step that would waste nothing and keeps the floor. */
  lemma SearchLeavesNothingOut(start: State, path: seq<Step>, step: Step, steps: seq<Step>, budget: int, floor: int)
    requires InTree(start, path, steps, budget, floor) && step in steps && (path != [] ==> Replay(start, path).targetHealth > 0)
    requires var before := Replay(start, path);
             && (step.kind.Martyr? || Deficit(before) != 0) && (step.kind.Drain? ==> before.targetHealth >= 25)
             && Score(Apply(step, before)) <= budget && Apply(step, before).health >= floor
    ensures InTree(start, path + [step], steps, budget, floor)
  {
    hide Apply, Score, Replay;
    var before, more := Replay(start, path), path + [step];
    var k :| 0 <= k < |steps| && steps[k] == step;
    assert Passes(before, steps[k], budget, floor, true);
    assert path[..|path|] == path;
    forall i | 0 <= i < |more|
      ensures Allowed(Replay(start, more[..i]), more[i], steps, budget, floor) && (i > 0 ==> !Finished(Replay(start, more[..i])))
    {
      assert more[..i] == path[..i];
      if i < |path| { assert more[i] == path[i]; }
    }
  }

  /** So every state a search over sound steps can visit keeps both healths
      within bounds. */
  lemma VisitedStatesKeepBounds(start: State, path: seq<Step>, steps: seq<Step>, budget: int, floor: int, target: int, maximum: int)
    requires InTree(start, path, steps, budget, floor) && InBounds(start, target, maximum)
    requires forall i :: 0 <= i < |steps| ==> Sound(steps[i])
    ensures InBounds(Replay(start, path), target, maximum)
  {
    hide Sound, InBounds, Replay, Passes, FloorKept;
    forall i | 0 <= i < |path| ensures Sound(path[i]) {
      assert Allowed(Replay(start, path[..i]), path[i], steps, budget, floor);
      var k :| 0 <= k < |steps| && steps[k] == path[i];
    }
    ReplayKeepsBounds(start, path, target, maximum);
  }

  /** A plan of the tree that finishes the monster. */
  ghost predicate Complete(start: State, path: seq<Step>, steps: seq<Step>, budget: int, floor: int) {
    path != [] && InTree(start, path, steps, budget, floor) && Finished(Replay(start, path))
  }

  /** A node of the search stands for a path of the tree not yet finished. */
  ghost predicate Open(start: State, node: Node, steps: seq<Step>, budget: int, floor: int) {
    && node.state == Replay(start, node.steps) && InTree(start, node.steps, steps, budget, floor)
    && (node.steps != [] ==> !Finished(node.state))
  }

  ghost predicate Found(start: State, best: Option<Node>, steps: seq<Step>, budget: int, floor: int) {
    best.Some? ==> best.value.state == Replay(start, best.value.steps) && Complete(start, best.value.steps, steps, budget, floor)
  }

  /** `path` goes on from `node`. */
  predicate GoesOn(node: Node, path: seq<Step>) {
    |node.steps| < |path| && path[..|node.steps|] == node.steps
  }

  /** A complete plan is accounted for: no cheaper than the best one found, or
      still ahead of a node on the stack. */
  ghost predicate Covered(start: State, path: seq<Step>, best: Option<Node>, stack: seq<Node>) {
    || (best.Some? && Cost(best.value) <= PlanCost(start, path))
    || exists i :: 0 <= i < |stack| && GoesOn(stack[i], path)
  }

  ghost predicate AllCovered(start: State, steps: seq<Step>, budget: int, floor: int, best: Option<Node>, stack: seq<Node>) {
    forall path :: Complete(start, path, steps, budget, floor) ==> Covered(start, path, best, stack)
  }

  ghost predicate Searching(start: State, steps: seq<Step>, budget: int, floor: int, best: Option<Node>, stack: seq<Node>) {
    && Found(start, best, steps, budget, floor)
    && (forall i :: 0 <= i < |stack| ==> Open(start, stack[i], steps, budget, floor))
  }

  lemma ReplayExtends(start: State, path: seq<Step>, step: Step)
    ensures Replay(start, path + [step]) == Apply(step, Replay(start, path))
  {
    assert (path + [step])[..|path|] == path;
  }

  /** One allowed step leads from an open node to an open or a complete one. */
  lemma ExtendStaysInTree(start: State, node: Node, step: Step, steps: seq<Step>, budget: int, floor: int)
    requires Open(start, node, steps, budget, floor) && Allowed(node.state, step, steps, budget, floor)
    ensures var next := Extend(node, step);
            && next.state == Replay(start, next.steps)
            && (if Finished(next.state) then Complete(start, next.steps, steps, budget, floor) else Open(start, next, steps, budget, floor))
  {
    hide Apply, Allowed, Finished, Replay;
    var path := node.steps + [step];
    ReplayExtends(start, node.steps, step);
    assert path[..|node.steps|] == node.steps;
    forall i | 0 <= i < |path|
      ensures Allowed(Replay(start, path[..i]), path[i], steps, budget, floor) && (i > 0 ==> !Finished(Replay(start, path[..i])))
    {
      if i < |node.steps| { assert path[..i] == node.steps[..i] && path[i] == node.steps[i]; }
    }
  }

  // ----- the search, run -----

  /** What the search holds: the best plan so far, and the nodes to go on from. */
  datatype Held = Held(best: Option<Node>, stack: seq<Node>)

  function Considered(next: Node, held: Held): Held {
    if !Finished(next.state) then held.(stack := held.stack + [next])
    else if held.best.None? || Cost(next) < Cost(held.best.value) then held.(best := Some(next))
    else held
  }

  /** What is held once the first `k` steps have been tried from `node`. */
  function Expanded(node: Node, steps: seq<Step>, k: nat, budget: int, floor: int, keepFloor: bool, held: Held): Held
    requires k <= |steps|
  {
    if k == 0 then held
    else
      var before := Expanded(node, steps, k - 1, budget, floor, keepFloor, held);
      if Passes(node.state, steps[k - 1], budget, floor, keepFloor) then Considered(Extend(node, steps[k - 1]), before) else before
  }

  /** Where one allowance's search stops: with nothing left to go on from, or
      at the node that used up the budget. */
  function Pass(steps: seq<Step>, budget: int, floor: int, held: Held, visited: int): (stop: (Held, int))
    requires visited < NODE_BUDGET
    ensures visited + (if held.stack == [] then 0 else 1) <= stop.1 <= NODE_BUDGET
    ensures stop.1 < NODE_BUDGET <==> stop.0.stack == []
    decreases NODE_BUDGET - visited
  {
    if held.stack == [] then (held, visited)
    else if visited + 1 >= NODE_BUDGET then (held, NODE_BUDGET)
    else
      var n := |held.stack| - 1;
      var node := held.stack[n];
      Pass(steps, budget, floor, Expanded(node, steps, |steps|, budget, floor, FloorKept(node.state, steps, budget, floor), held.(stack := held.stack[..n])), visited + 1)
  }

  function Fresh(root: State): Held { Held(None, [Node([], root)]) }

  /** Where the widening search stops, and at which allowance. */
  function Widened(root: State, floor: int, steps: seq<Step>, rounds: nat, visited: int): (Held, nat)
    requires visited < NODE_BUDGET
    decreases NODE_BUDGET - visited
  {
    var (held, visited') := Pass(steps, (rounds + 1) * BUDGET_STEP_MILLISECONDS, floor, Fresh(root), visited);
    if held.best.Some? || visited' >= NODE_BUDGET then (held, rounds + 1) else Widened(root, floor, steps, rounds + 1, visited')
  }

  lemma OneMoreNode(steps: seq<Step>, budget: int, floor: int, node: Node, best: Option<Node>, stack: seq<Node>, visited: int)
    requires visited < NODE_BUDGET - 1
    ensures Pass(steps, budget, floor, Held(best, stack + [node]), visited)
         == Pass(steps, budget, floor, Expanded(node, steps, |steps|, budget, floor, FloorKept(node.state, steps, budget, floor), Held(best, stack)), visited + 1)
  {
    assert (stack + [node])[..|stack|] == stack;
  }

  lemma PassEnds(steps: seq<Step>, budget: int, floor: int, held: Held, visited: int)
    requires visited < NODE_BUDGET && (held.stack == [] || visited + 1 >= NODE_BUDGET)
    ensures Pass(steps, budget, floor, held, visited) == (held, if held.stack == [] then visited else NODE_BUDGET)
  {}

  /** The better of two complete plans is kept, an unfinished one is stacked. */
  method Consider(next: Node, best: Option<Node>, stack: seq<Node>) returns (best': Option<Node>, stack': seq<Node>)
    ensures Held(best', stack') == Considered(next, Held(best, stack))
    ensures if Finished(next.state) then stack' == stack && best' == (if best.None? || Cost(next) < Cost(best.value) then Some(next) else best)
            else stack' == stack + [next] && best' == best
  {
    best', stack' := best, stack;
    if !Finished(next.state) {
      stack' := stack + [next];
    } else if best.None? || Cost(next) < Cost(best.value) {
      best' := Some(next);
    }
  }

  /** Whether a plan goes on from the node by one of the first `k` steps that pass. */
  ghost predicate Taken(node: Node, path: seq<Step>, steps: seq<Step>, k: nat, budget: int, floor: int, keepFloor: bool) {
    && GoesOn(node, path)
    && exists i :: 0 <= i < k <= |steps| && path[|node.steps|] == steps[i] && Passes(node.state, steps[i], budget, floor, keepFloor)
  }

  /** What one pass over the steps accounts for. */
  ghost predicate Accounts(start: State, node: Node, steps: seq<Step>, k: nat, budget: int, floor: int, keepFloor: bool,
                           best: Option<Node>, stack: seq<Node>, best': Option<Node>, stack': seq<Node>) {
    forall path ::
      (Complete(start, path, steps, budget, floor)
       && (Covered(start, path, best, stack) || Taken(node, path, steps, k, budget, floor, keepFloor)))
      ==> Covered(start, path, best', stack')
  }

  /** Considering a step that passes keeps the search's nodes in the tree. */
  lemma ConsiderStays(start: State, node: Node, steps: seq<Step>, k: nat, budget: int, floor: int, keepFloor: bool,
                      best: Option<Node>, stack: seq<Node>, best': Option<Node>, stack': seq<Node>)
    requires k < |steps| && Open(start, node, steps, budget, floor) && Searching(start, steps, budget, floor, best, stack)
    requires Passes(node.state, steps[k], budget, floor, keepFloor) && (!keepFloor ==> !FloorKept(node.state, steps, budget, floor))
    requires var next := Extend(node, steps[k]);
             if Finished(next.state) then stack' == stack && best' == (if best.None? || Cost(next) < Cost(best.value) then Some(next) else best)
             else stack' == stack + [next] && best' == best
    ensures Searching(start, steps, budget, floor, best', stack')
  {
    hide Complete, InTree, Apply, Skip, Score, Cost;
    assert keepFloor == FloorKept(node.state, steps, budget, floor);
    ExtendStaysInTree(start, node, steps[k], steps, budget, floor);
  }

  lemma ConsiderCovers(start: State, node: Node, steps: seq<Step>, k: nat, budget: int, floor: int, keepFloor: bool,
                       best: Option<Node>, stack: seq<Node>, mid: Option<Node>, pile: seq<Node>, best': Option<Node>, stack': seq<Node>)
    requires k < |steps| && node.state == Replay(start, node.steps)
    requires Accounts(start, node, steps, k, budget, floor, keepFloor, best, stack, mid, pile)
    requires var next := Extend(node, steps[k]);
             if !Passes(node.state, steps[k], budget, floor, keepFloor) then best' == mid && stack' == pile
             else if Finished(next.state) then stack' == pile && best' == (if mid.None? || Cost(next) < Cost(mid.value) then Some(next) else mid)
             else stack' == pile + [next] && best' == mid
    ensures Accounts(start, node, steps, k + 1, budget, floor, keepFloor, best, stack, best', stack')
  {
    hide Apply, Complete, Covered, Passes, InTree, Finished, Cost;
    forall path | Complete(start, path, steps, budget, floor) &&
                  (Covered(start, path, best, stack) || Taken(node, path, steps, k + 1, budget, floor, keepFloor))
      ensures Covered(start, path, best', stack')
    {
      if Covered(start, path, best, stack) || Taken(node, path, steps, k, budget, floor, keepFloor) {
        StaysCovered(start, path, mid, pile, best', stack');
      } else {
        NewlyCovered(start, path, node, steps[k], steps, budget, floor, best', stack');
      }
    }
  }

  lemma StaysCovered(start: State, path: seq<Step>, best: Option<Node>, stack: seq<Node>, best': Option<Node>, stack': seq<Node>)
    requires Covered(start, path, best, stack) && stack <= stack'
    requires best.Some? ==> best'.Some? && Cost(best'.value) <= Cost(best.value)
    ensures Covered(start, path, best', stack')
  {
    if exists i :: 0 <= i < |stack| && GoesOn(stack[i], path) {
      var i :| 0 <= i < |stack| && GoesOn(stack[i], path);
      assert stack'[i] == stack[i];
    }
  }

  lemma NewlyCovered(start: State, path: seq<Step>, node: Node, step: Step, steps: seq<Step>, budget: int, floor: int, best: Option<Node>, stack: seq<Node>)
    requires Complete(start, path, steps, budget, floor) && node.state == Replay(start, node.steps)
    requires GoesOn(node, path) && path[|node.steps|] == step
    requires var next := Extend(node, step);
             if Finished(next.state) then best.Some? && Cost(best.value) <= Cost(next) else stack != [] && stack[|stack| - 1] == next
    ensures Covered(start, path, best, stack)
  {
    hide Apply, Allowed;
    var next := Extend(node, step);
    var at := |node.steps| + 1;
    assert path[..at] == next.steps && next.steps[..|node.steps|] == node.steps;
    assert next.state == Replay(start, path[..at]);
    if Finished(next.state) {
      assert at == |path| && path[..at] == path;
    } else {
      assert path[..|path|] == path;
      assert GoesOn(stack[|stack| - 1], path);
    }
  }

  // ----- how many nodes a search visits -----

  /** The unfinished nodes of the tree from `state` on, `depth` levels deep. */
  ghost function Size(state: State, steps: seq<Step>, budget: int, floor: int, depth: nat): nat
    decreases depth, |steps| + 1
  {
    if depth == 0 then 0 else 1 + Branches(state, steps, |steps|, budget, floor, FloorKept(state, steps, budget, floor), depth)
  }

  /** The same below the first `k` steps from `state`. */
  ghost function Branches(state: State, steps: seq<Step>, k: nat, budget: int, floor: int, keepFloor: bool, depth: nat): nat
    requires k <= |steps| && depth > 0
    decreases depth, k
  {
    if k == 0 then 0
    else
      Branches(state, steps, k - 1, budget, floor, keepFloor, depth)
      + if Passes(state, steps[k - 1], budget, floor, keepFloor) && !Finished(Apply(steps[k - 1], state))
        then Size(Apply(steps[k - 1], state), steps, budget, floor, depth - 1) else 0
  }

  /** A count below its depth is the whole tree's: looking deeper finds no more. */
  lemma {:induction false} DeeperIsTheSame(state: State, steps: seq<Step>, budget: int, floor: int, depth: nat, more: nat)
    requires Size(state, steps, budget, floor, depth) < depth <= more
    ensures Size(state, steps, budget, floor, more) == Size(state, steps, budget, floor, depth)
    decreases depth, |steps| + 1
  {
    DeeperBranches(state, steps, |steps|, budget, floor, FloorKept(state, steps, budget, floor), depth, more);
  }

  lemma {:induction false} DeeperBranches(state: State, steps: seq<Step>, k: nat, budget: int, floor: int, keepFloor: bool, depth: nat, more: nat)
    requires k <= |steps| && 0 < depth <= more && Branches(state, steps, k, budget, floor, keepFloor, depth) < depth - 1
    ensures Branches(state, steps, k, budget, floor, keepFloor, more) == Branches(state, steps, k, budget, floor, keepFloor, depth)
    decreases depth, k
  {
    hide Apply, Passes, FloorKept;
    if k > 0 {
      DeeperBranches(state, steps, k - 1, budget, floor, keepFloor, depth, more);
      var next := Apply(steps[k - 1], state);
      if Passes(state, steps[k - 1], budget, floor, keepFloor) && !Finished(next) {
        DeeperIsTheSame(next, steps, budget, floor, depth - 1, more - 1);
      }
    }
  }

  /** No path deeper than the node budget is ever followed. */
  function Left(node: Node): nat { if |node.steps| < NODE_BUDGET then NODE_BUDGET - |node.steps| else 0 }

  /** The nodes still to be visited from a stack. */
  ghost function Ahead(stack: seq<Node>, steps: seq<Step>, budget: int, floor: int): nat {
    if stack == [] then 0
    else
      var last := stack[|stack| - 1];
      Ahead(stack[..|stack| - 1], steps, budget, floor) + Size(last.state, steps, budget, floor, Left(last))
  }

  lemma NothingAhead(steps: seq<Step>, budget: int, floor: int)
    ensures Ahead([], steps, budget, floor) == 0
  {}

  lemma SizeUnfolds(state: State, steps: seq<Step>, budget: int, floor: int, depth: nat)
    requires depth > 0
    ensures Size(state, steps, budget, floor, depth) == 1 + Branches(state, steps, |steps|, budget, floor, FloorKept(state, steps, budget, floor), depth)
  {}

  predicate Shallow(stack: seq<Node>, limit: int) { forall i :: 0 <= i < |stack| ==> |stack[i].steps| <= limit }

  lemma AheadOnTop(stack: seq<Node>, node: Node, steps: seq<Step>, budget: int, floor: int)
    ensures Ahead(stack + [node], steps, budget, floor) == Ahead(stack, steps, budget, floor) + Size(node.state, steps, budget, floor, Left(node))
  {
    assert (stack + [node])[..|stack|] == stack;
  }

  /** The nodes of the first `rounds` allowances, all told. */
  ghost function Spent(root: State, steps: seq<Step>, rounds: nat, floor: int): nat {
    if rounds == 0 then 0
    else Spent(root, steps, rounds - 1, floor) + Size(root, steps, rounds * BUDGET_STEP_MILLISECONDS, floor, NODE_BUDGET)
  }

  lemma {:induction false} SpentGrows(root: State, steps: seq<Step>, less: nat, more: nat, floor: int)
    requires less <= more
    ensures Spent(root, steps, less, floor) <= Spent(root, steps, more, floor)
    decreases more
  {
    if less < more { SpentGrows(root, steps, less, more - 1, floor); }
  }

  /** Tries every step from one node; with `keepFloor`, only those that keep
      the caster above the floor. */
  method Expand(ghost start: State, node: Node, steps: seq<Step>, budget: int, floor: int, keepFloor: bool, best: Option<Node>, stack: seq<Node>,
                ghost limit: int)
    returns (any: bool, best': Option<Node>, stack': seq<Node>)
    requires Shallow(stack, limit) && |node.steps| < limit && Left(node) > 0
    requires Open(start, node, steps, budget, floor) && Searching(start, steps, budget, floor, best, stack)
    requires !keepFloor ==> !FloorKept(node.state, steps, budget, floor)
    ensures any <==> exists i :: 0 <= i < |steps| && Passes(node.state, steps[i], budget, floor, keepFloor)
    ensures Held(best', stack') == Expanded(node, steps, |steps|, budget, floor, keepFloor, Held(best, stack))
    ensures !any ==> best' == best && stack' == stack
    ensures Searching(start, steps, budget, floor, best', stack')
    ensures Accounts(start, node, steps, |steps|, budget, floor, keepFloor, best, stack, best', stack')
    ensures Ahead(stack', steps, budget, floor) == Ahead(stack, steps, budget, floor) + Branches(node.state, steps, |steps|, budget, floor, keepFloor, Left(node))
    ensures Shallow(stack', limit)
  {
    hide Complete, InTree, Accounts, Covered, Passes, Searching, Apply, FloorKept, Cost, Ahead, Size, Considered;
    any, best', stack' := false, best, stack;
    NothingTaken(start, node, steps, budget, floor, keepFloor, best, stack);
    for k := 0 to |steps|
      invariant any <==> exists i :: 0 <= i < k && Passes(node.state, steps[i], budget, floor, keepFloor)
      invariant Held(best', stack') == Expanded(node, steps, k, budget, floor, keepFloor, Held(best, stack))
      invariant !any ==> best' == best && stack' == stack
      invariant Searching(start, steps, budget, floor, best', stack')
      invariant Accounts(start, node, steps, k, budget, floor, keepFloor, best, stack, best', stack')
      invariant Ahead(stack', steps, budget, floor) == Ahead(stack, steps, budget, floor) + Branches(node.state, steps, k, budget, floor, keepFloor, Left(node))
      invariant Shallow(stack', limit)
    {
      ghost var best0, stack0 := best', stack';
      if Passes(node.state, steps[k], budget, floor, keepFloor) {
        any := true;
        var next := Extend(node, steps[k]);
        best', stack' := Consider(next, best', stack');
        AheadOnTop(stack0, next, steps, budget, floor);
        ConsiderStays(start, node, steps, k, budget, floor, keepFloor, best0, stack0, best', stack');
      }
      ConsiderCovers(start, node, steps, k, budget, floor, keepFloor, best, stack, best0, stack0, best', stack');
    }
  }

  lemma NothingTaken(start: State, node: Node, steps: seq<Step>, budget: int, floor: int, keepFloor: bool, best: Option<Node>, stack: seq<Node>)
    ensures Accounts(start, node, steps, 0, budget, floor, keepFloor, best, stack, best, stack)
  {}

  /** Every complete plan through a node takes one of its allowed steps. */
  lemma PlansTakeAStep(start: State, node: Node, path: seq<Step>, steps: seq<Step>, budget: int, floor: int)
    requires node.state == Replay(start, node.steps)
    requires Complete(start, path, steps, budget, floor) && GoesOn(node, path)
    ensures Taken(node, path, steps, |steps|, budget, floor, FloorKept(node.state, steps, budget, floor))
  {
    var n := |node.steps|;
    assert path[..n] == node.steps;
    assert Allowed(Replay(start, path[..n]), path[n], steps, budget, floor);
    var i :| 0 <= i < |steps| && steps[i] == path[n];
  }

  lemma AllStillCovered(start: State, node: Node, steps: seq<Step>, budget: int, floor: int,
                        best: Option<Node>, stack: seq<Node>, best': Option<Node>, stack': seq<Node>)
    requires node.state == Replay(start, node.steps)
    requires AllCovered(start, steps, budget, floor, best, stack + [node])
    requires Accounts(start, node, steps, |steps|, budget, floor, FloorKept(node.state, steps, budget, floor), best, stack, best', stack')
    ensures AllCovered(start, steps, budget, floor, best', stack')
  {
    hide Apply, Complete, Passes, FloorKept;
    forall path | Complete(start, path, steps, budget, floor) ensures Covered(start, path, best', stack') {
      assert Covered(start, path, best, stack + [node]);
      if GoesOn(node, path) {
        PlansTakeAStep(start, node, path, steps, budget, floor);
      } else if best.None? || Cost(best.value) > PlanCost(start, path) {
        var i :| 0 <= i < |stack + [node]| && GoesOn((stack + [node])[i], path);
        assert GoesOn(stack[i], path);
      }
    }
  }

  /** How the search came to its answer, and after how many allowances. */
  datatype Ending = Exhausted(rounds: nat) | OutOfNodes(rounds: nat) | TooFar

  /** No plan of the tree at `budget` finishes the monster. */
  ghost predicate NoPlan(start: State, steps: seq<Step>, budget: int, floor: int) {
    forall path :: !Complete(start, path, steps, budget, floor)
  }

  /** The least costly of all the complete plans of the tree at `budget`. */
  ghost predicate Cheapest(start: State, node: Node, steps: seq<Step>, budget: int, floor: int) {
    && node.state == Replay(start, node.steps) && Complete(start, node.steps, steps, budget, floor)
    && forall path :: Complete(start, path, steps, budget, floor) ==> Cost(node) <= PlanCost(start, path)
  }

  lemma EmptyStack(start: State, steps: seq<Step>, budget: int, floor: int, best: Option<Node>)
    requires Searching(start, steps, budget, floor, best, []) && AllCovered(start, steps, budget, floor, best, [])
    ensures if best.Some? then Cheapest(start, best.value, steps, budget, floor) else NoPlan(start, steps, budget, floor)
  {
    forall path | Complete(start, path, steps, budget, floor) ensures best.Some? && Cost(best.value) <= PlanCost(start, path) {
      assert Covered(start, path, best, []);
    }
  }

  lemma FreshStack(start: State, steps: seq<Step>, budget: int, floor: int)
    ensures Searching(start, steps, budget, floor, None, [Node([], start)]) && AllCovered(start, steps, budget, floor, None, [Node([], start)])
  {
    forall path | Complete(start, path, steps, budget, floor) ensures Covered(start, path, None, [Node([], start)]) {
      assert path[..0] == [];
      assert GoesOn([Node([], start)][0], path);
    }
  }

  /** One pass of the search at one allowance. */
  method SearchAt(root: State, floor: int, steps: seq<Step>, budget: int, visited: int) returns (best: Option<Node>, visited': int, done: bool)
    requires 0 <= visited < NODE_BUDGET
    ensures var size := Size(root, steps, budget, floor, NODE_BUDGET);
            && (done <==> visited + size < NODE_BUDGET)
            && visited < visited' == (if done then visited + size else NODE_BUDGET)
    ensures (best, visited') == (Pass(steps, budget, floor, Fresh(root), visited).0.best, Pass(steps, budget, floor, Fresh(root), visited).1)
    ensures AllCovered(root, steps, budget, floor, best, Pass(steps, budget, floor, Fresh(root), visited).0.stack)
    ensures Found(root, best, steps, budget, floor)
    ensures done ==> if best.Some? then Cheapest(root, best.value, steps, budget, floor) else NoPlan(root, steps, budget, floor)
  {
    hide Complete, InTree, Accounts, Covered, AllCovered, Cheapest, NoPlan, FloorKept, Ahead, Branches, Size, Expanded, Pass;
    ghost var run := Pass(steps, budget, floor, Fresh(root), visited);
    best, visited', done := None, visited, true;
    var stack := [Node([], root)];
    FreshStack(root, steps, budget, floor);
    NothingAhead(steps, budget, floor);
    SizeUnfolds(root, steps, budget, floor, NODE_BUDGET);
    AheadOnTop([], Node([], root), steps, budget, floor);
    assert stack == [] + [Node([], root)];
    ghost var size := Size(root, steps, budget, floor, NODE_BUDGET);
    while stack != []
      invariant visited <= visited' < NODE_BUDGET && done
      invariant Pass(steps, budget, floor, Held(best, stack), visited') == run
      invariant visited' + Ahead(stack, steps, budget, floor) == visited + size && Shallow(stack, visited' - visited)
      invariant Searching(root, steps, budget, floor, best, stack) && AllCovered(root, steps, budget, floor, best, stack)
      decreases NODE_BUDGET - visited'
    {
      var node := stack[|stack| - 1];
      ghost var whole, best0 := stack, best;
      stack := stack[..|stack| - 1];
      assert whole == stack + [node];
      ghost var rest := stack;
      AheadOnTop(stack, node, steps, budget, floor);
      SizeUnfolds(node.state, steps, budget, floor, Left(node));
      if visited' < NODE_BUDGET - 1 { OneMoreNode(steps, budget, floor, node, best, stack, visited'); }
      visited' := visited' + 1;
      if visited' >= NODE_BUDGET {
        PassEnds(steps, budget, floor, Held(best, whole), visited' - 1);
        return best, visited', false;
      }
      var any;
      any, best, stack := Expand(root, node, steps, budget, floor, true, best, stack, visited' - visited);
      assert any <==> FloorKept(node.state, steps, budget, floor) by { FloorKeptMeans(node.state, steps, budget, floor); }
      if !any {
        any, best, stack := Expand(root, node, steps, budget, floor, false, best, stack, visited' - visited);
      }
      AllStillCovered(root, node, steps, budget, floor, best0, rest, best, stack);
    }
    PassEnds(steps, budget, floor, Held(best, []), visited');
    EmptyStack(root, steps, budget, floor, best);
    NothingAhead(steps, budget, floor);
  }

  lemma FloorKeptMeans(state: State, steps: seq<Step>, budget: int, floor: int)
    ensures FloorKept(state, steps, budget, floor) <==> exists i :: 0 <= i < |steps| && Passes(state, steps[i], budget, floor, true)
  {}

  // ----- the greedy pick -----

  /** What the pick gains a millisecond. Of two rates neither of which is a
      number or below every number, none is the greater. */
  datatype Rate = Finite(value: real) | PlusInfinity | Unranked

  predicate Exceeds(a: Rate, b: Rate) {
    match (a, b)
    case (Finite(x), Finite(y)) => x > y
    case (PlusInfinity, Finite(_)) => true
    case _ => false
  }

  function RateOf(start: State, step: Step): Rate {
    var next := Apply(step, start);
    var gain := (if step.kind.Martyr? then MARTYR_BIAS else 0.0) + start.targetHealth as real - next.targetHealth as real;
    var time := (if step.kind.Martyr? then MARTYR_BIAS_COST else 0.0) + next.costMilliseconds as real - start.costMilliseconds as real;
    if time != 0.0 then Finite(gain / time) else if gain > 0.0 then PlusInfinity else Unranked
  }

  /** Its rate is what a step takes a millisecond, a martyr with 180 more points
      over 3200 more. */
  lemma RateIsPointsOverTime(start: State, step: Step)
    requires step.costMilliseconds > 0
    ensures var points := TakenBy(step, start) + if step.kind.Martyr? then 180 else 0;
            var time := step.costMilliseconds + if step.kind.Martyr? then 3200 else 0;
            RateOf(start, step).Finite? && RateOf(start, step).value * time as real == points as real
  {
    hide Times, Drained;
  }

  predicate Finishes(start: State, step: Step) { Finished(Apply(step, start)) }

  predicate Fit(start: State, step: Step, floor: int, keepFloor: bool) {
    !Skip(start, step) && (keepFloor ==> Apply(step, start).health >= floor)
  }

  function Usable(start: State, steps: seq<Step>, floor: int, keepFloor: bool): seq<Step> {
    if steps == [] then []
    else
      var before := Usable(start, steps[..|steps| - 1], floor, keepFloor);
      if Fit(start, steps[|steps| - 1], floor, keepFloor) then before + [steps[|steps| - 1]] else before
  }

  /** The steps the pick is made from: those that keep the floor, or any when
      none does. */
  function Pool(start: State, steps: seq<Step>, floor: int): seq<Step> {
    if Usable(start, steps, floor, true) != [] then Usable(start, steps, floor, true) else Usable(start, steps, floor, false)
  }

  lemma {:induction false} UsableHolds(start: State, steps: seq<Step>, floor: int, keepFloor: bool, step: Step)
    ensures step in Usable(start, steps, floor, keepFloor) <==> step in steps && Fit(start, step, floor, keepFloor)
  {
    hide Fit;
    if steps != [] {
      var n := |steps| - 1;
      UsableHolds(start, steps[..n], floor, keepFloor, step);
      assert step in steps <==> step in steps[..n] || step == steps[n] by { assert steps == steps[..n] + [steps[n]]; }
    }
  }

  /** The pick is made from every step that is worth its while, but where one
      leaves the caster at the floor or above it, only from those that do. */
  lemma PoolHolds(start: State, steps: seq<Step>, floor: int, step: Step)
    ensures step in Pool(start, steps, floor) <==>
            && step in steps && !Skip(start, step)
            && ((exists s :: s in steps && !Skip(start, s) && Apply(s, start).health >= floor) ==> Apply(step, start).health >= floor)
  {
    hide Usable, Apply, Skip;
    forall s ensures s in Usable(start, steps, floor, true) <==> s in steps && Fit(start, s, floor, true) {
      UsableHolds(start, steps, floor, true, s);
    }
    UsableHolds(start, steps, floor, false, step);
    if Usable(start, steps, floor, true) != [] { assert Usable(start, steps, floor, true)[0] in Usable(start, steps, floor, true); }
  }

  predicate AnyFinishes(start: State, pool: seq<Step>) { exists j :: 0 <= j < |pool| && Finishes(start, pool[j]) }

  /** The cheapest finishing step, the earlier of two. */
  predicate CheapestFinisher(start: State, pool: seq<Step>, k: int) {
    && 0 <= k < |pool| && Finishes(start, pool[k])
    && (forall j :: 0 <= j < |pool| && Finishes(start, pool[j]) ==> pool[k].costMilliseconds <= pool[j].costMilliseconds)
    && (forall j :: 0 <= j < k && Finishes(start, pool[j]) ==> pool[k].costMilliseconds < pool[j].costMilliseconds)
  }

  /** The rate a step has to beat: the first one is only ever held to have none. */
  function Mark(start: State, pool: seq<Step>, k: nat): Rate
    requires k < |pool|
  {
    if k == 0 then Finite(0.0) else RateOf(start, pool[k])
  }

  /** The step of greatest rate, the earlier of two; the first step counts as
      having no rate at all, whatever it would gain. */
  predicate BestRate(start: State, pool: seq<Step>, k: int) {
    && 0 <= k < |pool|
    && (forall j {:trigger Mark(start, pool, j)} :: 0 <= j < |pool| ==> !Exceeds(Mark(start, pool, j), Mark(start, pool, k)))
    && (forall j {:trigger Mark(start, pool, j)} :: 0 <= j < k ==> Exceeds(Mark(start, pool, k), Mark(start, pool, j)) || Mark(start, pool, j).Unranked?)
  }

  predicate Best(start: State, pool: seq<Step>, k: int) {
    if AnyFinishes(start, pool) then CheapestFinisher(start, pool, k) else BestRate(start, pool, k)
  }

  /** The single step the pick settles on; a heal when nothing can be cast. */
  ghost predicate GreedyPick(start: State, floor: int, steps: seq<Step>, result: Node) {
    var pool := Pool(start, steps, floor);
    if pool == [] then result == Extend(Node([], start), HealStep())
    else exists k :: Best(start, pool, k) && 0 <= k < |pool| && result == Extend(Node([], start), pool[k])
  }

  /** What the pick holds after the steps of `pool`. */
  ghost predicate Ranked(start: State, pool: seq<Step>, chosen: Option<Node>, bestRate: Rate) {
    if pool == [] then chosen.None?
    else exists k :: Best(start, pool, k) && 0 <= k < |pool| && chosen == Some(Extend(Node([], start), pool[k]))
                     && (!AnyFinishes(start, pool) ==> bestRate == Mark(start, pool, k))
  }

  lemma {:induction false} BestAmongMore(start: State, pool: seq<Step>, step: Step, k: nat)
    requires Best(start, pool, k) && k < |pool|
    ensures var more := pool + [step];
            var n := |pool|;
            if AnyFinishes(start, pool) then AnyFinishes(start, more) &&
              Best(start, more, if Finishes(start, step) && step.costMilliseconds < pool[k].costMilliseconds then n else k)
            else if Finishes(start, step) then AnyFinishes(start, more) && Best(start, more, n)
            else !AnyFinishes(start, more) && Best(start, more, if Exceeds(RateOf(start, step), Mark(start, pool, k)) then n else k)
  {
    hide Apply, RateOf;
    var more := pool + [step];
    assert more[|pool|] == step;
    assert forall j :: 0 <= j < |pool| ==> more[j] == pool[j];
    if AnyFinishes(start, pool) { assert Finishes(start, more[k]); }
    assert forall j: nat | j < |pool| :: Mark(start, more, j) == Mark(start, pool, j);
  }

  /** Ranks one more step against the one held. */
  method Rank(start: State, ghost pool: seq<Step>, step: Step, chosen: Option<Node>, bestRate: Rate) returns (chosen': Option<Node>, bestRate': Rate)
    requires Ranked(start, pool, chosen, bestRate)
    ensures Ranked(start, pool + [step], chosen', bestRate')
  {
    hide Apply, RateOf, Best, Exceeds;
    chosen', bestRate' := chosen, bestRate;
    var next := Extend(Node([], start), step);
    ghost var more := pool + [step];
    assert more[|pool|] == step;
    if chosen.None? {
      chosen', bestRate' := Some(next), Finite(0.0);
      FirstIsBest(start, step);
      assert pool == [] && more == [step];
      return;
    }
    ghost var k :| Best(start, pool, k) && 0 <= k < |pool| && chosen == Some(Extend(Node([], start), pool[k]))
                   && (!AnyFinishes(start, pool) ==> bestRate == Mark(start, pool, k));
    BestAmongMore(start, pool, step, k);
    BestFinishesFirst(start, pool, k);
    CostsAddUp(start, pool[k], step);
    if !Finished(chosen.value.state) {
      if Finished(next.state) {
        chosen' := Some(next);
        assert Best(start, more, |pool|);
        return;
      }
      var rate := RateOf(start, step);
      if Exceeds(rate, bestRate) {
        bestRate', chosen' := rate, Some(next);
        assert Best(start, more, |pool|);
      } else {
        assert Best(start, more, k) && more[k] == pool[k] && Mark(start, more, k) == Mark(start, pool, k);
      }
      return;
    }
    if Finished(next.state) && next.state.costMilliseconds < chosen.value.state.costMilliseconds {
      chosen' := Some(next);
      assert Best(start, more, |pool|);
    } else {
      assert Best(start, more, k) && more[k] == pool[k];
    }
  }

  lemma FirstIsBest(start: State, step: Step)
    ensures Best(start, [step], 0)
  {
    if AnyFinishes(start, [step]) { assert Finishes(start, [step][0]); }
    assert Mark(start, [step], 0) == Finite(0.0);
  }

  lemma BestFinishesFirst(start: State, pool: seq<Step>, k: nat)
    requires Best(start, pool, k) && k < |pool|
    ensures Finished(Apply(pool[k], start)) <==> AnyFinishes(start, pool)
  {
    if Finishes(start, pool[k]) { assert AnyFinishes(start, pool); }
  }

  lemma CostsAddUp(start: State, a: Step, b: Step)
    ensures Apply(a, start).costMilliseconds < Apply(b, start).costMilliseconds <==> a.costMilliseconds < b.costMilliseconds
    ensures Apply(b, start).costMilliseconds < Apply(a, start).costMilliseconds <==> b.costMilliseconds < a.costMilliseconds
  {}

  /** The pick when the search is out of the question or comes to nothing. */
  method Greedy(start: State, floor: int, steps: seq<Step>) returns (result: Node)
    ensures GreedyPick(start, floor, steps, result)
  {
    hide Apply, Ranked, Fit, Skip;
    var chosen: Option<Node>, bestRate := None, Finite(0.0);
    NothingRanked(start, bestRate);
    var anyWithinFloor := false;
    for i := 0 to |steps|
      invariant Ranked(start, Usable(start, steps[..i], floor, true), chosen, bestRate)
      invariant anyWithinFloor <==> Usable(start, steps[..i], floor, true) != []
    {
      assert steps[..i + 1][..i] == steps[..i];
      if Fit(start, steps[i], floor, true) {
        anyWithinFloor := true;
        chosen, bestRate := Rank(start, Usable(start, steps[..i], floor, true), steps[i], chosen, bestRate);
      }
    }
    assert steps[..|steps|] == steps;
    if !anyWithinFloor {
      RankedNothing(start, chosen, bestRate);
      NothingRanked(start, bestRate);
      for i := 0 to |steps|
        invariant Ranked(start, Usable(start, steps[..i], floor, false), chosen, bestRate)
      {
        assert steps[..i + 1][..i] == steps[..i];
        if Fit(start, steps[i], floor, false) {
          chosen, bestRate := Rank(start, Usable(start, steps[..i], floor, false), steps[i], chosen, bestRate);
        }
      }
      assert steps[..|steps|] == steps;
    }
    result := if chosen.Some? then chosen.value else Extend(Node([], start), HealStep());
    RankedIsPicked(start, Pool(start, steps, floor), chosen, bestRate);
  }

  lemma NothingRanked(start: State, bestRate: Rate)
    ensures Ranked(start, [], None, bestRate)
  {}

  lemma RankedNothing(start: State, chosen: Option<Node>, bestRate: Rate)
    requires Ranked(start, [], chosen, bestRate)
    ensures chosen.None?
  {}

  lemma RankedIsPicked(start: State, pool: seq<Step>, chosen: Option<Node>, bestRate: Rate)
    requires Ranked(start, pool, chosen, bestRate)
    ensures pool == [] ==> chosen.None?
    ensures pool != [] ==> chosen.Some? && exists k :: Best(start, pool, k) && 0 <= k < |pool| && chosen.value == Extend(Node([], start), pool[k])
  {
    hide Best, Apply;
  }

  /** No plan within any of the first `rounds` allowances. */
  ghost predicate NoneWithin(root: State, steps: seq<Step>, rounds: nat, floor: int) {
    forall round: nat {:trigger NoPlan(root, steps, round * BUDGET_STEP_MILLISECONDS, floor)} :: 0 < round <= rounds ==>
      NoPlan(root, steps, round * BUDGET_STEP_MILLISECONDS, floor)
  }

  /** What the search promises of its plan: the cheapest one within the first
      allowance that has any, if the nodes last that long; short of that a plan
      found before they ran out, or the greedy pick. */
  ghost predicate Planned(start: State, floor: int, steps: seq<Step>, plan: Node, ending: Ending) {
    var root := start.(costMilliseconds := 0);
    && (ending.TooFar? <==> start.targetHealth >= SEARCH_TARGET_HEALTH_CEILING)
    && (if ending.TooFar? then GreedyPick(start, floor, steps, plan) else SearchedTo(root, start, floor, steps, plan, ending))
  }

  /** Only a monster below 300 points is searched for. */
  lemma OnlyTheWeakAreSearchedFor(start: State, floor: int, steps: seq<Step>, plan: Node, ending: Ending)
    requires Planned(start, floor, steps, plan, ending)
    ensures start.targetHealth >= 300 ==> GreedyPick(start, floor, steps, plan)
    ensures start.targetHealth < 300 ==> !ending.TooFar? && Spent(start.(costMilliseconds := 0), steps, ending.rounds - 1, floor) < 2000
  {}

  /** The same for a search that was tried. */
  ghost predicate SearchedTo(root: State, start: State, floor: int, steps: seq<Step>, plan: Node, ending: Ending)
    requires !ending.TooFar?
  {
    var budget := ending.rounds * BUDGET_STEP_MILLISECONDS;
    && ending.rounds > 0 && Spent(root, steps, ending.rounds - 1, floor) < NODE_BUDGET
    && (ending.Exhausted? <==> Spent(root, steps, ending.rounds, floor) < NODE_BUDGET)
    && NoneWithin(root, steps, ending.rounds - 1, floor)
    && (if ending.Exhausted? then Cheapest(root, plan, steps, budget, floor)
        else GreedyPick(start, floor, steps, plan)
             || (Complete(root, plan.steps, steps, budget, floor) && plan.state == Replay(root, plan.steps)))
  }

  /** The plan is what the run of the search holds, or else the greedy pick. */
  ghost predicate Decided(start: State, floor: int, steps: seq<Step>, plan: Node) {
    var best := if start.targetHealth < SEARCH_TARGET_HEALTH_CEILING then Widened(start.(costMilliseconds := 0), floor, steps, 0, 0).0.best else None;
    if best.Some? then plan == best.value else GreedyPick(start, floor, steps, plan)
  }

  /** A complete plan no complete one through the nodes left is cheaper than. */
  ghost predicate StillCheapest(root: State, plan: Node, steps: seq<Step>, budget: int, floor: int, left: seq<Node>) {
    && plan.state == Replay(root, plan.steps) && Complete(root, plan.steps, steps, budget, floor)
    && forall path, i :: Complete(root, path, steps, budget, floor) && 0 <= i < |left| && GoesOn(left[i], path) ==> Cost(plan) <= PlanCost(root, path)
  }

  /** An answer out of nodes is the cheapest exactly when no complete plan
      through a node not gone on from is cheaper. */
  lemma OutOfNodesCheapestExactly(root: State, plan: Node, steps: seq<Step>, budget: int, floor: int, best: Option<Node>, left: seq<Node>)
    requires AllCovered(root, steps, budget, floor, best, left) && (best.Some? ==> plan == best.value)
    ensures Cheapest(root, plan, steps, budget, floor) <==> StillCheapest(root, plan, steps, budget, floor, left)
  {
    hide Complete, Replay, Cost, PlanCost, GoesOn;
    if StillCheapest(root, plan, steps, budget, floor, left) {
      forall path | Complete(root, path, steps, budget, floor) ensures Cost(plan) <= PlanCost(root, path) {
        assert Covered(root, path, best, left);
      }
    }
  }

  /** How many nodes a search that ends so has visited. */
  ghost function Visits(root: State, floor: int, steps: seq<Step>, ending: Ending): nat {
    if ending.TooFar? then 0 else if ending.OutOfNodes? then NODE_BUDGET else Spent(root, steps, ending.rounds, floor)
  }

  /** Widens the allowance until a complete plan turns up or the nodes run out. */
  method Search(start: State, floor: int, steps: seq<Step>) returns (result: Node, visited: int, ending: Ending)
    ensures Planned(start, floor, steps, result, ending)
    ensures visited == Visits(start.(costMilliseconds := 0), floor, steps, ending)
    ensures Decided(start, floor, steps, result)
    ensures var root := start.(costMilliseconds := 0);
            var (held, rounds) := Widened(root, floor, steps, 0, 0);
            && (!ending.TooFar? ==> ending.rounds == rounds)
            && (ending.OutOfNodes? ==>
                  (Cheapest(root, result, steps, rounds * BUDGET_STEP_MILLISECONDS, floor)
                   <==> StillCheapest(root, result, steps, rounds * BUDGET_STEP_MILLISECONDS, floor, held.stack)))
  {
    hide Complete, InTree, Cheapest, NoPlan, GreedyPick, Size, Replay, AllCovered, StillCheapest, Pass;
    visited := 0;
    var budget := 0;
    if start.targetHealth < SEARCH_TARGET_HEALTH_CEILING {
      var root := start.(costMilliseconds := 0);
      var rounds: nat := 0;
      while true
        invariant budget == rounds * BUDGET_STEP_MILLISECONDS
        invariant visited == Spent(root, steps, rounds, floor) < NODE_BUDGET && NoneWithin(root, steps, rounds, floor)
        invariant Widened(root, floor, steps, rounds, visited) == Widened(root, floor, steps, 0, 0)
        decreases NODE_BUDGET - visited
      {
        budget, rounds := budget + BUDGET_STEP_MILLISECONDS, rounds + 1;
        ghost var held := Pass(steps, budget, floor, Fresh(root), visited).0;
        var best, done;
        best, visited, done := SearchAt(root, floor, steps, budget, visited);
        ending := if done then Exhausted(rounds) else OutOfNodes(rounds);
        if best.Some? {
          OutOfNodesCheapestExactly(root, best.value, steps, budget, floor, best, held.stack);
          return best.value, visited, ending;
        }
        if !done {
          result := Greedy(start, floor, steps);
          OutOfNodesCheapestExactly(root, result, steps, budget, floor, best, held.stack);
          return;
        }
      }
    }
    ending := TooFar;
    result := Greedy(start, floor, steps);
  }

  lemma TooEarly(root: State, path: seq<Step>, steps: seq<Step>, round: nat, rounds: nat, floor: int)
    requires 0 < round && Complete(root, path, steps, round * BUDGET_STEP_MILLISECONDS, floor) && NoneWithin(root, steps, rounds, floor)
    ensures rounds < round
  {
    hide Complete;
    var none := NoPlan(root, steps, round * BUDGET_STEP_MILLISECONDS, floor);
  }

  /** How a search ends depends on nothing but what it was asked. */
  lemma OneEnding(start: State, floor: int, steps: seq<Step>, plan: Node, ending: Ending, plan': Node, ending': Ending)
    requires Planned(start, floor, steps, plan, ending) && Planned(start, floor, steps, plan', ending')
    ensures ending == ending'
    ensures ending.Exhausted? ==> Cost(plan) == Cost(plan')
  {
    hide Complete, NoneWithin, NoPlan, GreedyPick, Spent, Replay, Cost;
    if !ending.TooFar? {
      var root := start.(costMilliseconds := 0);
      var a, b := ending.rounds, ending'.rounds;
      if a < b { SpentGrows(root, steps, a, b - 1, floor); }
      if b < a { SpentGrows(root, steps, b, a - 1, floor); }
      SpentGrows(root, steps, a - 1, a, floor);
      SpentGrows(root, steps, b - 1, b, floor);
      if ending.Exhausted? { TooEarly(root, plan.steps, steps, a, b - 1, floor); }
      if ending'.Exhausted? { TooEarly(root, plan'.steps, steps, b, a - 1, floor); }
      if ending.Exhausted? && ending'.Exhausted? { OneCost(root, plan, plan', steps, a * BUDGET_STEP_MILLISECONDS, floor); }
    }
  }

  lemma OneCost(root: State, plan: Node, plan': Node, steps: seq<Step>, budget: int, floor: int)
    requires Cheapest(root, plan, steps, budget, floor) && Cheapest(root, plan', steps, budget, floor)
    ensures Cost(plan) == Cost(plan')
  {
    hide Complete, Replay;
    assert Complete(root, plan.steps, steps, budget, floor) && Complete(root, plan'.steps, steps, budget, floor);
    assert Cost(plan) == PlanCost(root, plan.steps) && Cost(plan') == PlanCost(root, plan'.steps);
  }

  /** The search ends by emptying its stack, at the first allowance that has a
      plan, exactly when the trees up to that allowance hold fewer nodes than it
      may visit.  It answers the cheapest plan then; out of nodes it may too. */
  lemma StackEmptiesExactlyWhenNodesLast(start: State, floor: int, steps: seq<Step>, plan: Node, ending: Ending, rounds: nat, path: seq<Step>)
    requires Planned(start, floor, steps, plan, ending) && start.targetHealth < SEARCH_TARGET_HEALTH_CEILING && rounds > 0
    requires Complete(start.(costMilliseconds := 0), path, steps, rounds * BUDGET_STEP_MILLISECONDS, floor)
    requires NoneWithin(start.(costMilliseconds := 0), steps, rounds - 1, floor)
    ensures ending == Exhausted(rounds) <==> Spent(start.(costMilliseconds := 0), steps, rounds, floor) < NODE_BUDGET
  {
    hide Complete, NoneWithin, NoPlan, GreedyPick, Spent, Replay;
    var root := start.(costMilliseconds := 0);
    var k := ending.rounds;
    TooEarly(root, path, steps, rounds, k - 1, floor);
    if ending.Exhausted? {
      TooEarly(root, plan.steps, steps, k, rounds - 1, floor);
    } else {
      SpentGrows(root, steps, k, rounds, floor);
    }
  }

  // ----- what the caster is offered -----

  datatype DrainOption = DrainOption(spellId: nat, castTime: int, enemyFactor: real, maximumPoints: int, resultMultiplier: real)

  datatype MartyrOption = MartyrOption(spellId: nat, castTime: int, selfFactor: real, resultMultiplier: real)

  function DrainStep(option: DrainOption): Step {
    Step(option.spellId, option.castTime + CAST_OVERHEAD_MILLISECONDS, Drain(option.enemyFactor, option.resultMultiplier, option.maximumPoints))
  }

  function MartyrStep(option: MartyrOption): Step {
    Step(option.spellId, option.castTime + CAST_OVERHEAD_MILLISECONDS, Martyr(option.selfFactor, option.resultMultiplier))
  }

  predicate MartyrOffered(option: MartyrOption, ring: bool, castable: nat -> bool) {
    ring == (option.spellId == RING_MARTYR_SPELL_ID) && castable(option.spellId)
  }

  /** The drains on offer, in the list's order. */
  function OfferedDrains(drains: seq<DrainOption>, castable: nat -> bool): seq<Step> {
    if drains == [] then []
    else
      var last := drains[|drains| - 1];
      OfferedDrains(drains[..|drains| - 1], castable) + if castable(last.spellId) then [DrainStep(last)] else []
  }

  function OfferedMartyrs(martyrs: seq<MartyrOption>, ring: bool, castable: nat -> bool): seq<Step> {
    if martyrs == [] then []
    else
      var last := martyrs[|martyrs| - 1];
      OfferedMartyrs(martyrs[..|martyrs| - 1], ring, castable) + if MartyrOffered(last, ring, castable) then [MartyrStep(last)] else []
  }

  /** Drains only when they may be cast at all, then martyrs, then the heal,
      which is always there. */
  function Offered(canDrain: bool, ring: bool, drains: seq<DrainOption>, martyrs: seq<MartyrOption>, castable: nat -> bool): seq<Step> {
    (if canDrain then OfferedDrains(drains, castable) else []) + OfferedMartyrs(martyrs, ring, castable) + [HealStep()]
  }

  /** The rows of a table are offered each for itself, in the table's order. */
  lemma {:induction false} DrainsOfferedInOrder(more: seq<DrainOption>, rest: seq<DrainOption>, castable: nat -> bool)
    ensures OfferedDrains(more + rest, castable) == OfferedDrains(more, castable) + OfferedDrains(rest, castable)
  {
    if rest == [] {
      assert more + rest == more;
    } else {
      var init := rest[..|rest| - 1];
      DrainsOfferedInOrder(more, init, castable);
      assert (more + rest)[..|more + rest| - 1] == more + init;
    }
  }

  lemma {:induction false} MartyrsOfferedInOrder(more: seq<MartyrOption>, rest: seq<MartyrOption>, ring: bool, castable: nat -> bool)
    ensures OfferedMartyrs(more + rest, ring, castable) == OfferedMartyrs(more, ring, castable) + OfferedMartyrs(rest, ring, castable)
  {
    if rest == [] {
      assert more + rest == more;
    } else {
      var init := rest[..|rest| - 1];
      MartyrsOfferedInOrder(more, init, ring, castable);
      assert (more + rest)[..|more + rest| - 1] == more + init;
    }
  }

  /** A row that can be cast is offered at its time and 800 more, with its own
      factors; of the martyrs the one ring spell exactly when a ring is asked
      for. */
  lemma OfferedAsTheRowSays(drain: DrainOption, martyr: MartyrOption, ring: bool, castable: nat -> bool)
    ensures OfferedDrains([drain], castable) ==
            if castable(drain.spellId)
            then [Step(drain.spellId, drain.castTime + 800, Drain(drain.enemyFactor, drain.resultMultiplier, drain.maximumPoints))] else []
    ensures OfferedMartyrs([martyr], ring, castable) ==
            if castable(martyr.spellId) && ring == (martyr.spellId == 3818)
            then [Step(martyr.spellId, martyr.castTime + 800, Martyr(martyr.selfFactor, martyr.resultMultiplier))] else []
  {
    assert [drain][..0] == [] && [martyr][..0] == [];
  }

  /** `spell` opens a plan `Search` may promise, 0 standing for the heal. */
  ghost predicate Advised(start: State, floor: int, steps: seq<Step>, spell: nat) {
    exists plan, ending :: Planned(start, floor, steps, plan, ending) && Decided(start, floor, steps, plan) && plan.steps != [] &&
      spell == (if plan.steps[0].kind.Heal? then 0 else plan.steps[0].spellId)
  }

  lemma PlanHasAFirstStep(start: State, floor: int, steps: seq<Step>, plan: Node, ending: Ending)
    requires Planned(start, floor, steps, plan, ending)
    ensures plan.steps != []
  {}

  /** The spell to cast now, 0 to heal instead: the first step of the plan over
      exactly the steps on offer. */
  method SelectSpell(health: int, maximumHealth: int, floor: int, targetHealth: int, canDrain: bool, ring: bool,
                     drains: seq<DrainOption>, martyrs: seq<MartyrOption>, castable: nat -> bool)
    returns (spell: nat)
    ensures Advised(State(targetHealth, health, maximumHealth, 0), floor, Offered(canDrain, ring, drains, martyrs, castable), spell)
  {
    hide Planned, Decided;
    var offered: seq<Step> := [];
    if canDrain {
      for i := 0 to |drains|
        invariant offered == OfferedDrains(drains[..i], castable)
      {
        assert drains[..i + 1][..i] == drains[..i];
        if castable(drains[i].spellId) { offered := offered + [DrainStep(drains[i])]; }
      }
      assert drains[..|drains|] == drains;
    }
    ghost var before := offered;
    for i := 0 to |martyrs|
      invariant offered == before + OfferedMartyrs(martyrs[..i], ring, castable)
    {
      assert martyrs[..i + 1][..i] == martyrs[..i];
      if MartyrOffered(martyrs[i], ring, castable) { offered := offered + [MartyrStep(martyrs[i])]; }
    }
    assert martyrs[..|martyrs|] == martyrs;
    offered := offered + [HealStep()];
    var start := State(targetHealth, health, maximumHealth, 0);
    var best, visited, ending := Search(start, floor, offered);
    PlanHasAFirstStep(start, floor, offered, best, ending);
    spell := if best.steps[0].kind.Heal? then 0 else best.steps[0].spellId;
  }

  // ----- a dearer plan answered -----

  /** A caster of 100 health against 90: two martyrs of either kind finish it,
      the low one quicker to cast than the high. */
  const START := State(90, 100, 100, 0)

  const LOW := Step(1, 850, Martyr(0.1, 5.0))
  const HIGH := Step(2, 890, Martyr(0.1, 5.0))

  const MARTYRS := NODE_BUDGET + 1

  /** A table of the low martyr, and of as many high ones as the search may
      visit nodes. */
  function Table(): seq<MartyrOption> {
    seq(MARTYRS, i => if i == 0 then MartyrOption(1, 50, 0.1, 5.0) else MartyrOption(2, 90, 0.1, 5.0))
  }

  /** The steps it comes to, with the heal. */
  function Many(): seq<Step> { seq(MARTYRS, i => if i == 0 then LOW else HIGH) + [HealStep()] }

  lemma {:induction false} TableIsOffered(k: nat, castable: nat -> bool)
    requires k <= MARTYRS && castable(1) && castable(2)
    ensures OfferedMartyrs(Table()[..k], false, castable) == Many()[..k]
  {
    if k > 0 {
      TableIsOffered(k - 1, castable);
      assert Table()[..k][..k - 1] == Table()[..k - 1];
      assert Table()[..k][k - 1] == Table()[k - 1] && MartyrStep(Table()[k - 1]) == Many()[k - 1];
      assert Many()[..k] == Many()[..k - 1] + [Many()[k - 1]];
    }
  }

  /** With no drain to be had these are the very steps on offer. */
  lemma ManyIsOffered(castable: nat -> bool)
    requires castable(1) && castable(2)
    ensures Offered(false, false, [], Table(), castable) == Many()
  {
    TableIsOffered(MARTYRS, castable);
    assert Table()[..MARTYRS] == Table();
    assert Many()[..MARTYRS] + [HealStep()] == Many();
  }

  function AfterOne(step: Step): Node { Node([step], State(40, 90, 100, step.costMilliseconds)) }

  function AfterTwo(first: Step, second: Step): Node {
    Node([first, second], State(0, 81, 100, first.costMilliseconds + second.costMilliseconds))
  }

  lemma OneMartyr(step: Step)
    requires step == LOW || step == HIGH
    ensures Extend(Node([], START), step) == AfterOne(step)
    ensures !Skip(START, step) && Score(AfterOne(step).state) == step.costMilliseconds + 377
  {
    assert Product(100.0, 0.1) == 10.0 && Product(10.0, 5.0) == 50.0;
    assert Times(100, 0.1) == 10 && Times(10, 5.0) == 50;
  }

  lemma TwoMartyrs(first: Step, second: Step)
    requires (first == LOW || first == HIGH) && (second == LOW || second == HIGH)
    ensures Extend(AfterOne(first), second) == AfterTwo(first, second)
    ensures !Skip(AfterOne(first).state, second) && Score(AfterTwo(first, second).state) == first.costMilliseconds + second.costMilliseconds
  {
    assert Product(90.0, 0.1) == 9.0 && Product(9.0, 5.0) == 45.0;
    assert Times(90, 0.1) == 9 && Times(9, 5.0) == 45;
  }

  /** At full health there is no healing, and after one martyr none within these
      allowances. */
  lemma HealNeverPasses(node: Node, budget: int, keepFloor: bool)
    requires (node == Node([], START) || node == AfterOne(LOW) || node == AfterOne(HIGH)) && budget <= 1800
    ensures !Passes(node.state, HealStep(), budget, 0, keepFloor)
  {}

  /** Within the first two allowances nothing passes. */
  lemma {:induction false} NothingPassesEarly(k: nat, budget: int, keepFloor: bool, held: Held)
    requires k <= |Many()| && budget <= 1200
    ensures Expanded(Node([], START), Many(), k, budget, 0, keepFloor, held) == held
  {
    hide Apply, Score, Skip, Considered;
    if k > 0 {
      NothingPassesEarly(k - 1, budget, keepFloor, held);
      if k - 1 < MARTYRS { OneMartyr(Many()[k - 1]); } else { HealNeverPasses(Node([], START), budget, keepFloor); }
    }
  }

  /** Within the third the first step may be any of them. */
  lemma {:induction false} AllPassOnce(k: nat)
    requires 0 < k <= MARTYRS
    ensures Expanded(Node([], START), Many(), k, 1800, 0, true, Held(None, [])) == Held(None, [AfterOne(LOW)] + seq(k - 1, _ => AfterOne(HIGH)))
  {
    hide Apply, Score, Skip;
    OneMartyr(Many()[k - 1]);
    if k > 1 {
      AllPassOnce(k - 1);
      assert seq(k - 1, _ => AfterOne(HIGH)) == seq(k - 2, _ => AfterOne(HIGH)) + [AfterOne(HIGH)];
    } else {
      assert Expanded(Node([], START), Many(), 0, 1800, 0, true, Held(None, [])) == Held(None, []);
    }
  }

  /** After a high step a low one finishes, and no other way is as cheap. */
  lemma {:induction false} LowFinishesHigh(k: nat, held: Held)
    requires 0 < k <= MARTYRS && (held.best.None? || held.best == Some(AfterTwo(HIGH, LOW)))
    ensures Expanded(AfterOne(HIGH), Many(), k, 1800, 0, true, held) == held.(best := Some(AfterTwo(HIGH, LOW)))
  {
    hide Apply, Score, Skip;
    TwoMartyrs(HIGH, Many()[k - 1]);
    if k > 1 {
      LowFinishesHigh(k - 1, held);
    } else {
      assert Expanded(AfterOne(HIGH), Many(), 0, 1800, 0, true, held) == held;
    }
  }

  /** The heal, tried last, adds nothing. */
  lemma HealAddsNothing(node: Node, held: Held)
    requires node == Node([], START) || node == AfterOne(HIGH)
    ensures Expanded(node, Many(), |Many()|, 1800, 0, true, held) == Expanded(node, Many(), MARTYRS, 1800, 0, true, held)
  {
    HealNeverPasses(node, 1800, true);
    hide Apply, Score, Skip, Passes, Considered;
    assert Many()[MARTYRS] == HealStep();
  }

  /** The high nodes, stacked last, are gone on from first; the nodes run out
      among them. */
  lemma {:induction false} NodesRunOutAmongHigh(m: nat, visited: int, best: Option<Node>)
    requires visited + m >= NODE_BUDGET && 0 <= visited < NODE_BUDGET
    requires best == Some(AfterTwo(HIGH, LOW)) || (best.None? && visited < NODE_BUDGET - 1)
    ensures var stop := Pass(Many(), 1800, 0, Held(best, [AfterOne(LOW)] + seq(m, _ => AfterOne(HIGH))), visited);
            stop.0.best == Some(AfterTwo(HIGH, LOW)) && stop.1 == NODE_BUDGET
    decreases m
  {
    hide Pass, Expanded, FloorKept;
    var stack := [AfterOne(LOW)] + seq(m, _ => AfterOne(HIGH));
    if visited == NODE_BUDGET - 1 {
      PassEnds(Many(), 1800, 0, Held(best, stack), visited);
    } else {
      var rest := [AfterOne(LOW)] + seq(m - 1, _ => AfterOne(HIGH));
      assert stack == rest + [AfterOne(HIGH)];
      FloorIsKept(AfterOne(HIGH));
      OneMoreNode(Many(), 1800, 0, AfterOne(HIGH), best, rest, visited);
      LowFinishesHigh(MARTYRS, Held(best, rest));
      HealAddsNothing(AfterOne(HIGH), Held(best, rest));
      NodesRunOutAmongHigh(m - 1, visited + 1, Some(AfterTwo(HIGH, LOW)));
    }
  }

  lemma FloorIsKept(node: Node)
    requires node == Node([], START) || node == AfterOne(LOW) || node == AfterOne(HIGH)
    ensures FloorKept(node.state, Many(), 1800, 0)
  {
    hide Apply, Score, Skip, Times;
    OneMartyr(LOW);
    TwoMartyrs(LOW, LOW);
    TwoMartyrs(HIGH, LOW);
    assert Many()[0] == LOW && Extend(node, LOW).state == Apply(LOW, node.state);
    assert Passes(node.state, Many()[0], 1800, 0, true);
  }

  lemma EarlyRoundsFindNothing(rounds: nat)
    requires rounds < 2
    ensures Widened(START, 0, Many(), rounds, rounds) == Widened(START, 0, Many(), rounds + 1, rounds + 1)
  {
    var budget := (rounds + 1) * BUDGET_STEP_MILLISECONDS;
    var kept := FloorKept(START, Many(), budget, 0);
    hide Expanded, FloorKept;
    NothingPassesEarly(|Many()|, budget, kept, Held(None, []));
    assert [] + [Node([], START)] == Fresh(START).stack;
    OneMoreNode(Many(), budget, 0, Node([], START), None, [], rounds);
    PassEnds(Many(), budget, 0, Held(None, []), rounds + 1);
  }

  lemma ThirdRoundRunsOut()
    ensures var stop := Pass(Many(), 1800, 0, Fresh(START), 2);
            stop.0.best == Some(AfterTwo(HIGH, LOW)) && stop.1 == NODE_BUDGET
  {
    hide Pass, Expanded, FloorKept, Apply;
    var root := Node([], START);
    FloorIsKept(root);
    AllPassOnce(MARTYRS);
    HealAddsNothing(root, Held(None, []));
    assert [] + [root] == Fresh(START).stack;
    OneMoreNode(Many(), 1800, 0, root, None, [], 2);
    NodesRunOutAmongHigh(NODE_BUDGET, 3, None);
  }

  lemma SearchRunsOut()
    ensures Widened(START, 0, Many(), 0, 0).0.best == Some(AfterTwo(HIGH, LOW))
  {
    hide Pass, Many, Fresh;
    EarlyRoundsFindNothing(0);
    EarlyRoundsFindNothing(1);
    ThirdRoundRunsOut();
  }

  /** Two low martyrs would do; the search answers a high one and a low one. */
  lemma NodesRunOutOnADearerPlan(plan: Node)
    requires Decided(START, 0, Many(), plan)
    ensures plan == AfterTwo(HIGH, LOW) && Complete(START, [LOW, LOW], Many(), 1800, 0)
    ensures PlanCost(START, [LOW, LOW]) < Cost(plan) && !Cheapest(START, plan, Many(), 1800, 0)
  {
    hide Widened, Many, Complete, PlanCost;
    SearchRunsOut();
    TwoLowComplete();
  }

  /** The spell answered for the table is the high martyr's, where a cheaper plan
      opens with the low one. */
  lemma DearerSpellAnswered(spell: nat, castable: nat -> bool)
    requires castable(1) && castable(2)
    requires Advised(START, 0, Offered(false, false, [], Table(), castable), spell)
    ensures spell == 2
    ensures forall plan :: Decided(START, 0, Many(), plan) ==> PlanCost(START, [LOW, LOW]) < Cost(plan)
    ensures Complete(START, [LOW, LOW], Offered(false, false, [], Table(), castable), 1800, 0) && LOW.spellId == 1
  {
    hide Decided, Planned, Complete, PlanCost, Cost;
    ManyIsOffered(castable);
    forall plan | Decided(START, 0, Many(), plan)
      ensures plan == AfterTwo(HIGH, LOW) && PlanCost(START, [LOW, LOW]) < Cost(plan)
    {
      NodesRunOutOnADearerPlan(plan);
    }
    TwoLowComplete();
  }

  lemma TwoLowComplete()
    ensures Complete(START, [LOW, LOW], Many(), 1800, 0) && PlanCost(START, [LOW, LOW]) == 1702
  {
    hide Apply, Score, Skip, FloorKept;
    OneMartyr(LOW);
    TwoMartyrs(LOW, LOW);
    FloorIsKept(Node([], START));
    FloorIsKept(AfterOne(LOW));
    var path := [LOW, LOW];
    assert path[..0] == [] && path[..1] == [LOW] && path[..2] == path;
    assert Extend(Node([], START), LOW).state == Apply(LOW, START);
    assert Extend(AfterOne(LOW), LOW).state == Apply(LOW, AfterOne(LOW).state);
    assert [LOW][..0] == [];
    assert Replay(START, []) == START && Replay(START, [LOW]) == AfterOne(LOW).state && Replay(START, path) == AfterTwo(LOW, LOW).state;
    assert Many()[0] == LOW && LOW in Many();
  }
}
