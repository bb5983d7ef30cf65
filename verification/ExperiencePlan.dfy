/** How unassigned experience is spent: the cheapest next rank by weight, over
    and over, and the spends it comes to. */
module ExperiencePlan {

  datatype Option<+T> = None | Some(value: T)

  datatype Kind = Attribute | Vital | Skill

  datatype Training = Unusable | Untrained | Trained | Specialized

  datatype TargetState = TargetState(name: string, kind: Kind, ranks: int, training: Training)

  /** One row for each rank bought already. */
  datatype Tables = Tables(attribute: seq<int>, vital: seq<int>, trained: seq<int>, specialized: seq<int>)

  function TableOf(tables: Tables, state: TargetState): Option<seq<int>> {
    match state.kind
    case Attribute => Some(tables.attribute)
    case Vital => Some(tables.vital)
    case Skill => if state.training.Specialized? then Some(tables.specialized) else if state.training.Trained? then Some(tables.trained) else None
  }

  /** The price `offset` ranks on, as long as that leaves `stop` rows of the
      table and the skill is one that can be raised. */
  function CostToLevel(tables: Tables, state: TargetState, stop: int, offset: nat): Option<int> {
    var halt := if stop > 1 then stop else 1;
    var level := state.ranks + offset;
    match TableOf(tables, state)
    case None => None
    case Some(table) => if level >= 0 && |table| > level + halt then Some(table[level]) else None
  }

  /** A rank is priced by its row in the table of what it raises; none of the
      last rows is for sale, nor a skill not trained. */
  lemma PriceIsTheRow(tables: Tables, state: TargetState, stop: int, offset: nat, price: int)
    ensures CostToLevel(tables, state, stop, offset) == Some(price) <==>
            var row := state.ranks + offset;
            && (state.kind == Skill ==> state.training == Trained || state.training == Specialized)
            && var table := if state.kind == Attribute then tables.attribute else if state.kind == Vital then tables.vital
                            else if state.training == Trained then tables.trained else tables.specialized;
               0 <= row < |table| - 1 && row < |table| - stop && table[row] == price
  {}

  datatype Candidate = Candidate(state: TargetState, weight: real)

  /** The tables and how much of their end is kept back. */
  datatype Costs = Costs(tables: Tables, stop: int)

  function Price(costs: Costs, c: Candidate, rank: nat): Option<int> { CostToLevel(costs.tables, c.state, costs.stop, rank) }

  /** What a rank is chosen by. */
  datatype Key = Finite(value: real) | Infinite

  predicate Below(a: Key, b: Key) { a.Finite? && (b.Infinite? || a.value < b.value) }

  function KeyOf(costs: Costs, c: Candidate, rank: nat): Key
    requires c.weight > 0.0
  {
    match Price(costs, c, rank)
    case None => Infinite
    case Some(price) => Finite(price as real / c.weight)
  }

  // ----- the merge -----

  /** The n-th rank of a candidate. */
  datatype Rank = Rank(candidate: nat, rank: nat)

  predicate Weighed(cands: seq<Candidate>) { forall i :: 0 <= i < |cands| ==> cands[i].weight > 0.0 }

  function RankKey(costs: Costs, cands: seq<Candidate>, r: Rank): Key
    requires Weighed(cands)
  {
    if r.candidate < |cands| then KeyOf(costs, cands[r.candidate], r.rank) else Infinite
  }

  /** There is such a rank to buy. */
  predicate Available(costs: Costs, cands: seq<Candidate>, r: Rank) {
    r.candidate < |cands| && Price(costs, cands[r.candidate], r.rank).Some?
  }

  /** The order of the merge: by cost over weight, ties to the earlier entry of
      the policy, its ranks in turn. */
  predicate Before(costs: Costs, cands: seq<Candidate>, a: Rank, b: Rank)
    requires Weighed(cands)
  {
    var x, y := RankKey(costs, cands, a), RankKey(costs, cands, b);
    Below(x, y) || (x == y && (a.candidate < b.candidate || (a.candidate == b.candidate && a.rank < b.rank)))
  }

  /** Ranks only get dearer. */
  ghost predicate Dearer(costs: Costs, cands: seq<Candidate>) {
    forall i, r: nat :: 0 <= i < |cands| && Price(costs, cands[i], r + 1).Some? ==>
      Price(costs, cands[i], r).Some? && Price(costs, cands[i], r).value <= Price(costs, cands[i], r + 1).value
  }

  lemma BeforeIsTransitive(costs: Costs, cands: seq<Candidate>, a: Rank, b: Rank, c: Rank)
    requires Weighed(cands) && Before(costs, cands, a, b) && Before(costs, cands, b, c)
    ensures Before(costs, cands, a, c)
  {}

  /** Of two ranks the one chosen first costs no more for its weight. */
  lemma FirstChosenIsCheaperByWeight(costs: Costs, cands: seq<Candidate>, a: Rank, b: Rank)
    requires Weighed(cands) && Available(costs, cands, a) && Available(costs, cands, b) && Before(costs, cands, a, b)
    ensures Price(costs, cands[a.candidate], a.rank).value as real * cands[b.candidate].weight
         <= Price(costs, cands[b.candidate], b.rank).value as real * cands[a.candidate].weight
  {
    CrossMultiplied(Price(costs, cands[a.candidate], a.rank).value as real, cands[a.candidate].weight,
                    Price(costs, cands[b.candidate], b.rank).value as real, cands[b.candidate].weight);
    hide Price;
  }

  lemma CrossMultiplied(p: real, v: real, q: real, w: real)
    requires v > 0.0 && w > 0.0 && p / v <= q / w
    ensures p * w <= q * v
  {
    var x, y := p / v, q / w;
    assert x * v == p && y * w == q;
    Ordered(x, y, v * w);
    assert x * (v * w) == x * v * w && y * (v * w) == y * w * v;
  }

  lemma Ordered(x: real, y: real, z: real)
    requires x <= y && z > 0.0
    ensures x * z <= y * z
  {}

  lemma QuotientsKeepOrder(a: int, b: int, weight: real)
    requires a <= b && weight > 0.0
    ensures a as real / weight <= b as real / weight
  {}

  lemma NextIsAfter(costs: Costs, cands: seq<Candidate>, i: nat, r: nat)
    requires Weighed(cands) && Dearer(costs, cands) && i < |cands| && Price(costs, cands[i], r).Some?
    ensures Before(costs, cands, Rank(i, r), Rank(i, r + 1))
  {
    if Price(costs, cands[i], r + 1).Some? {
      assert Price(costs, cands[i], r).value <= Price(costs, cands[i], r + 1).value;
      QuotientsKeepOrder(Price(costs, cands[i], r).value, Price(costs, cands[i], r + 1).value, cands[i].weight);
    }
  }

  lemma {:induction false} LaterIsAfter(costs: Costs, cands: seq<Candidate>, i: nat, r: nat, s: nat)
    requires Weighed(cands) && Dearer(costs, cands) && i < |cands| && Price(costs, cands[i], s).Some? && r < s
    ensures Price(costs, cands[i], r).Some? && Before(costs, cands, Rank(i, r), Rank(i, s))
    decreases s - r
  {
    hide Price;
    if r + 1 < s {
      LaterIsAfter(costs, cands, i, r + 1, s);
      assert Price(costs, cands[i], r + 1).Some?;
      NextIsAfter(costs, cands, i, r);
      BeforeIsTransitive(costs, cands, Rank(i, r), Rank(i, r + 1), Rank(i, s));
    } else {
      assert s == r + 1;
      NextIsAfter(costs, cands, i, r);
    }
  }

  /** The ranks taken are a prefix of the merge: in its order, and with every
      rank not taken after all of them. */
  ghost predicate MergePrefix(costs: Costs, cands: seq<Candidate>, picks: seq<Rank>) {
    && Weighed(cands)
    && (forall a :: 0 <= a < |picks| ==> Available(costs, cands, picks[a]))
    && (forall a, b :: 0 <= a < b < |picks| ==> Before(costs, cands, picks[a], picks[b]))
    && (forall r :: Available(costs, cands, r) && r !in picks ==> forall a :: 0 <= a < |picks| ==> Before(costs, cands, picks[a], r))
  }

  // ----- the spending -----

  /** Each candidate takes its ranks from its first on, at their prices. */
  ghost predicate Consecutive(costs: Costs, cands: seq<Candidate>, taken: seq<seq<int>>) {
    && |taken| == |cands|
    && forall i, r :: 0 <= i < |cands| && 0 <= r < |taken[i]| ==> Price(costs, cands[i], r) == Some(taken[i][r])
  }

  ghost predicate Picked(taken: seq<seq<int>>, picks: seq<Rank>) {
    forall r :: r in picks <==> r.candidate < |taken| && r.rank < |taken[r.candidate]|
  }

  function Sum(costs: seq<int>): int { if costs == [] then 0 else Sum(costs[..|costs| - 1]) + costs[|costs| - 1] }

  function SumAll(taken: seq<seq<int>>): int { if taken == [] then 0 else SumAll(taken[..|taken| - 1]) + Sum(taken[|taken| - 1]) }

  ghost predicate Priced(costs: Costs, cands: seq<Candidate>, taken: seq<seq<int>>, weighted: seq<Key>) {
    && Weighed(cands) && |taken| == |cands| == |weighted|
    && forall i :: 0 <= i < |cands| ==> weighted[i] == KeyOf(costs, cands[i], |taken[i]|)
  }

  /** The picks so far, in order and before every next rank. */
  ghost predicate Merging(costs: Costs, cands: seq<Candidate>, taken: seq<seq<int>>, picks: seq<Rank>) {
    && Weighed(cands) && |taken| == |cands|
    && (forall a, b :: 0 <= a < b < |picks| ==> Before(costs, cands, picks[a], picks[b]))
    && (forall a, i: nat :: 0 <= a < |picks| && i < |cands| ==> Before(costs, cands, picks[a], Rank(i, |taken[i]|)))
  }

  predicate Least(weighted: seq<Key>, next: nat) {
    && next < |weighted|
    && (forall i :: 0 <= i < |weighted| ==> !Below(weighted[i], weighted[next]))
    && (forall i :: 0 <= i < next ==> Below(weighted[next], weighted[i]))
  }

  /** The lowest key, of two the earlier. */
  method Cheapest(weighted: seq<Key>) returns (next: nat)
    requires weighted != []
    ensures Least(weighted, next)
  {
    next := 0;
    for index := 1 to |weighted|
      invariant next < index
      invariant forall i :: 0 <= i < index ==> !Below(weighted[i], weighted[next])
      invariant forall i :: 0 <= i < next ==> Below(weighted[next], weighted[i])
    {
      if Below(weighted[index], weighted[next]) { next := index; }
    }
  }

  lemma PickKeepsMerging(costs: Costs, cands: seq<Candidate>, taken: seq<seq<int>>, weighted: seq<Key>, picks: seq<Rank>, next: nat, price: int)
    requires Merging(costs, cands, taken, picks) && Priced(costs, cands, taken, weighted) && Least(weighted, next)
    requires Dearer(costs, cands) && Price(costs, cands[next], |taken[next]|) == Some(price)
    ensures Merging(costs, cands, taken[next := taken[next] + [price]], picks + [Rank(next, |taken[next]|)])
  {
    hide Price, Dearer, KeyOf;
    var n := |taken[next]|;
    var q := Rank(next, n);
    var more := picks + [q];
    var taken' := taken[next := taken[next] + [price]];
    NextIsAfter(costs, cands, next, n);
    forall a, i: nat | 0 <= a < |more| && i < |cands| ensures Before(costs, cands, more[a], Rank(i, |taken'[i]|)) {
      if a < |picks| {
        assert Before(costs, cands, picks[a], Rank(i, |taken[i]|));
        if i == next { BeforeIsTransitive(costs, cands, picks[a], q, Rank(next, n + 1)); }
      } else if i != next {
        assert RankKey(costs, cands, Rank(i, |taken[i]|)) == weighted[i] && RankKey(costs, cands, q) == weighted[next];
        LeastIsBefore(weighted, next, i);
      }
    }
    forall a, b | 0 <= a < b < |more| ensures Before(costs, cands, more[a], more[b]) {
      if b == |picks| { assert Before(costs, cands, picks[a], Rank(next, |taken[next]|)); }
    }
  }

  lemma LeastIsBefore(weighted: seq<Key>, next: nat, i: nat)
    requires Least(weighted, next) && i < |weighted| && i != next
    ensures Below(weighted[next], weighted[i]) || (weighted[next] == weighted[i] && next < i)
  {}

  lemma MergingIsPrefix(costs: Costs, cands: seq<Candidate>, taken: seq<seq<int>>, picks: seq<Rank>)
    requires Merging(costs, cands, taken, picks) && Picked(taken, picks) && Consecutive(costs, cands, taken) && Dearer(costs, cands)
    ensures MergePrefix(costs, cands, picks)
  {
    hide Price, Before, Dearer;
    forall a | 0 <= a < |picks| ensures Available(costs, cands, picks[a]) { assert picks[a] in picks; }
    forall r, a | Available(costs, cands, r) && r !in picks && 0 <= a < |picks| ensures Before(costs, cands, picks[a], r) {
      var i, n := r.candidate, |taken[r.candidate]|;
      assert Before(costs, cands, picks[a], Rank(i, n));
      if r.rank > n {
        LaterIsAfter(costs, cands, i, n, r.rank);
        BeforeIsTransitive(costs, cands, picks[a], Rank(i, n), r);
      }
    }
  }

  /** Why the spending stops: the steps are used up, nothing is left to buy, or
      the next rank of the merge costs more than is left. */
  ghost predicate Stopped(costs: Costs, cands: seq<Candidate>, taken: seq<seq<int>>, picks: seq<Rank>, remaining: int, maxSteps: int) {
    || |picks| >= maxSteps
    || (forall r :: Available(costs, cands, r) ==> r in picks)
    || (exists r :: Available(costs, cands, r) && r !in picks
                    && Price(costs, cands[r.candidate], r.rank).value > remaining
                    && forall s :: Available(costs, cands, s) && s !in picks && s != r ==> Weighed(cands) && Before(costs, cands, r, s))
  }

  lemma NothingLeft(costs: Costs, cands: seq<Candidate>, taken: seq<seq<int>>, weighted: seq<Key>, picks: seq<Rank>, next: nat)
    requires Picked(taken, picks) && Priced(costs, cands, taken, weighted) && Least(weighted, next) && Dearer(costs, cands)
    requires Price(costs, cands[next], |taken[next]|).None?
    ensures forall r :: Available(costs, cands, r) ==> r in picks
  {
    hide Price, Dearer;
    NothingIsLess(weighted, next);
    forall r | Available(costs, cands, r) ensures r in picks {
      var i, n := r.candidate, |taken[r.candidate]|;
      if r.rank > n { LaterIsAfter(costs, cands, i, n, r.rank); }
    }
  }

  lemma NothingIsLess(weighted: seq<Key>, next: nat)
    requires Least(weighted, next) && weighted[next].Infinite?
    ensures forall i :: 0 <= i < |weighted| ==> weighted[i].Infinite?
  {
    assert forall i :: 0 <= i < |weighted| ==> !Below(weighted[i], weighted[next]);
  }

  lemma NextIsLeast(costs: Costs, cands: seq<Candidate>, taken: seq<seq<int>>, weighted: seq<Key>, picks: seq<Rank>, next: nat)
    requires Picked(taken, picks) && Priced(costs, cands, taken, weighted) && Least(weighted, next) && Dearer(costs, cands)
    requires Price(costs, cands[next], |taken[next]|).Some?
    ensures var r := Rank(next, |taken[next]|);
            && Available(costs, cands, r) && r !in picks
            && forall s :: Available(costs, cands, s) && s !in picks && s != r ==> Before(costs, cands, r, s)
  {
    hide Price, Dearer, KeyOf;
    var r := Rank(next, |taken[next]|);
    forall s | Available(costs, cands, s) && s !in picks && s != r ensures Before(costs, cands, r, s) {
      var i, n := s.candidate, |taken[s.candidate]|;
      if s.rank > n { LaterIsAfter(costs, cands, i, n, s.rank); }
      if i != next {
        assert RankKey(costs, cands, Rank(i, n)) == weighted[i] && RankKey(costs, cands, r) == weighted[next];
        LeastIsBefore(weighted, next, i);
        assert Before(costs, cands, r, Rank(i, n));
        if s.rank > n { BeforeIsTransitive(costs, cands, r, Rank(i, n), s); }
      }
    }
  }

  lemma {:induction false} SumAllGrows(taken: seq<seq<int>>, i: nat, price: int)
    requires i < |taken|
    ensures SumAll(taken[i := taken[i] + [price]]) == SumAll(taken) + price
  {
    var last := |taken| - 1;
    var grown := taken[i := taken[i] + [price]];
    if i == last {
      assert grown[..last] == taken[..last];
      assert (taken[i] + [price])[..|taken[i]|] == taken[i];
    } else {
      assert grown[..last] == taken[..last][i := taken[..last][i] + [price]];
      SumAllGrows(taken[..last], i, price);
    }
  }

  /** Takes the cheapest next rank until it is unaffordable or there is none. */
  method Spend(costs: Costs, cands: seq<Candidate>, unassigned: int, maxSteps: int) returns (taken: seq<seq<int>>, ghost picks: seq<Rank>)
    requires Weighed(cands) && cands != []
    ensures Consecutive(costs, cands, taken) && Picked(taken, picks)
    ensures SumAll(taken) <= (if unassigned >= 0 || picks != [] then unassigned else 0)
    ensures |picks| <= (if maxSteps > 0 then maxSteps else 0)
    ensures Dearer(costs, cands) ==> MergePrefix(costs, cands, picks)
    ensures Dearer(costs, cands) ==> Stopped(costs, cands, taken, picks, unassigned - SumAll(taken), maxSteps)
  {
    hide Price, Dearer, Merging, MergePrefix, Stopped, Least, KeyOf, Consecutive, Picked, Priced, SumAll;
    taken := seq(|cands|, _ => []);
    var weighted := seq(|cands|, i requires 0 <= i < |cands| => KeyOf(costs, cands[i], 0));
    var remaining := unassigned;
    picks := [];
    NothingTaken(costs, cands, taken);
    FirstPrices(costs, cands, taken, weighted);
    var step := 0;
    while step < maxSteps
      invariant 0 <= step && |picks| == step && (maxSteps >= 0 ==> step <= maxSteps) && (maxSteps < 0 ==> step == 0)
      invariant Consecutive(costs, cands, taken) && Picked(taken, picks) && Priced(costs, cands, taken, weighted)
      invariant |taken| == |weighted| == |cands|
      invariant remaining == unassigned - SumAll(taken) && (picks != [] ==> remaining >= 0) && (picks == [] ==> remaining == unassigned)
      invariant Dearer(costs, cands) ==> Merging(costs, cands, taken, picks)
    {
      var next := Cheapest(weighted);
      NextInRange(weighted, next);
      var price := Price(costs, cands[next], |taken[next]|);
      if price.None? {
        if Dearer(costs, cands) {
          NothingLeft(costs, cands, taken, weighted, picks, next);
          NothingLeftStops(costs, cands, taken, picks, remaining, maxSteps);
          MergingIsPrefix(costs, cands, taken, picks);
        }
        return;
      }
      if remaining < price.value {
        if Dearer(costs, cands) {
          NextIsLeast(costs, cands, taken, weighted, picks, next);
          UnaffordableStops(costs, cands, taken, picks, Rank(next, |taken[next]|), remaining, maxSteps);
          MergingIsPrefix(costs, cands, taken, picks);
        }
        return;
      }
      if Dearer(costs, cands) { PickKeepsMerging(costs, cands, taken, weighted, picks, next, price.value); }
      SumAllGrows(taken, next, price.value);
      ghost var before, priced := taken, weighted;
      picks := picks + [Rank(next, |taken[next]|)];
      taken := taken[next := taken[next] + [price.value]];
      remaining := remaining - price.value;
      weighted := weighted[next := KeyOf(costs, cands[next], |taken[next]|)];
      assert picks[..|picks| - 1] + [picks[|picks| - 1]] == picks;
      PickedGrows(before, taken, picks, next);
      TakenGrows(costs, cands, before, taken, next, price.value);
      PricesFollow(costs, cands, before, taken, next, priced, weighted);
      step := step + 1;
    }
    if Dearer(costs, cands) {
      MergingIsPrefix(costs, cands, taken, picks);
      StepsUsedUp(costs, cands, taken, picks, remaining, maxSteps);
    }
  }

  lemma FirstPrices(costs: Costs, cands: seq<Candidate>, taken: seq<seq<int>>, weighted: seq<Key>)
    requires Weighed(cands) && |taken| == |cands| == |weighted| && forall i :: 0 <= i < |taken| ==> taken[i] == []
    requires forall i :: 0 <= i < |cands| ==> weighted[i] == KeyOf(costs, cands[i], 0)
    ensures Consecutive(costs, cands, taken) && Picked(taken, []) && Priced(costs, cands, taken, weighted)
  {
    hide KeyOf;
  }

  lemma TakenGrows(costs: Costs, cands: seq<Candidate>, before: seq<seq<int>>, taken: seq<seq<int>>, next: nat, price: int)
    requires Consecutive(costs, cands, before) && next < |before| && taken == before[next := before[next] + [price]]
    requires Price(costs, cands[next], |before[next]|) == Some(price)
    ensures Consecutive(costs, cands, taken)
  {
    hide Price;
  }

  lemma PricesFollow(costs: Costs, cands: seq<Candidate>, before: seq<seq<int>>, taken: seq<seq<int>>, next: nat, was: seq<Key>, weighted: seq<Key>)
    requires Priced(costs, cands, before, was) && next < |cands| && |taken| == |before|
    requires forall i :: 0 <= i < |taken| && i != next ==> taken[i] == before[i]
    requires weighted == was[next := KeyOf(costs, cands[next], |taken[next]|)]
    ensures Priced(costs, cands, taken, weighted)
  {
    hide KeyOf;
  }

  lemma NextInRange(weighted: seq<Key>, next: nat)
    requires Least(weighted, next)
    ensures next < |weighted|
  {}

  lemma {:induction false} NothingTaken(costs: Costs, cands: seq<Candidate>, taken: seq<seq<int>>)
    requires Weighed(cands) && |taken| == |cands| && forall i :: 0 <= i < |taken| ==> taken[i] == []
    ensures SumAll(taken) == 0 && Merging(costs, cands, taken, [])
  {
    NoSum(taken);
  }

  lemma {:induction false} NoSum(taken: seq<seq<int>>)
    requires forall i :: 0 <= i < |taken| ==> taken[i] == []
    ensures SumAll(taken) == 0
  {
    if taken != [] { NoSum(taken[..|taken| - 1]); }
  }

  lemma PickedGrows(before: seq<seq<int>>, taken: seq<seq<int>>, picks: seq<Rank>, next: nat)
    requires picks != [] && next < |before| && Picked(before, picks[..|picks| - 1])
    requires picks[|picks| - 1] == Rank(next, |before[next]|) && |taken| == |before| && |taken[next]| == |before[next]| + 1
    requires forall i :: 0 <= i < |taken| && i != next ==> taken[i] == before[i]
    ensures Picked(taken, picks)
  {
    var earlier := picks[..|picks| - 1];
    assert picks == earlier + [picks[|picks| - 1]];
    forall r ensures r in picks <==> r.candidate < |taken| && r.rank < |taken[r.candidate]| {
      assert r in picks <==> r in earlier || r == picks[|picks| - 1];
    }
  }

  lemma NothingLeftStops(costs: Costs, cands: seq<Candidate>, taken: seq<seq<int>>, picks: seq<Rank>, remaining: int, maxSteps: int)
    requires forall r :: Available(costs, cands, r) ==> r in picks
    ensures Stopped(costs, cands, taken, picks, remaining, maxSteps)
  {}

  lemma UnaffordableStops(costs: Costs, cands: seq<Candidate>, taken: seq<seq<int>>, picks: seq<Rank>, r: Rank, remaining: int, maxSteps: int)
    requires Weighed(cands) && Available(costs, cands, r) && r !in picks && Price(costs, cands[r.candidate], r.rank).value > remaining
    requires forall s :: Available(costs, cands, s) && s !in picks && s != r ==> Before(costs, cands, r, s)
    ensures Stopped(costs, cands, taken, picks, remaining, maxSteps)
  {}

  lemma StepsUsedUp(costs: Costs, cands: seq<Candidate>, taken: seq<seq<int>>, picks: seq<Rank>, remaining: int, maxSteps: int)
    requires |picks| >= maxSteps
    ensures Stopped(costs, cands, taken, picks, remaining, maxSteps)
  {}

  // ----- who takes part -----

  /** The first state of that name. */
  function StateOf(states: seq<TargetState>, name: string, same: (string, string) -> bool): Option<TargetState> {
    if states == [] then None
    else if same(states[0].name, name) then Some(states[0])
    else StateOf(states[1..], name, same)
  }

  /** A policy entry takes part when it weighs something, its target is known
      and there is a rank with a price to buy. */
  function Chosen(costs: Costs, policy: seq<(string, real)>, states: seq<TargetState>, same: (string, string) -> bool): (cands: seq<Candidate>)
    ensures Weighed(cands)
  {
    if policy == [] then []
    else
      var before := Chosen(costs, policy[..|policy| - 1], states, same);
      var (name, weight) := policy[|policy| - 1];
      if weight <= 0.0 then before
      else match StateOf(states, name, same)
        case None => before
        case Some(state) =>
          match CostToLevel(costs.tables, state, costs.stop, 0)
          case None => before
          case Some(first) => if first > 0 then before + [Candidate(state, weight)] else before
  }

  /** The entries take part in the policy's order, each for itself. */
  lemma {:induction false} ChosenInOrder(costs: Costs, more: seq<(string, real)>, rest: seq<(string, real)>, states: seq<TargetState>, same: (string, string) -> bool)
    ensures Chosen(costs, more + rest, states, same) == Chosen(costs, more, states, same) + Chosen(costs, rest, states, same)
  {
    hide CostToLevel, StateOf;
    if rest == [] {
      assert more + rest == more;
    } else {
      var init := rest[..|rest| - 1];
      ChosenInOrder(costs, more, init, states, same);
      assert (more + rest)[..|more + rest| - 1] == more + init;
    }
  }

  /** An entry that weighs something takes part as the first target of its name,
      if that has a next rank, and the rank costs something. */
  lemma ChosenForItself(costs: Costs, name: string, weight: real, states: seq<TargetState>, same: (string, string) -> bool, k: nat)
    requires k < |states| && same(states[k].name, name) && forall j :: 0 <= j < k ==> !same(states[j].name, name)
    ensures Chosen(costs, [(name, weight)], states, same) ==
            var first := CostToLevel(costs.tables, states[k], costs.stop, 0);
            if weight > 0.0 && first.Some? && first.value > 0 then [Candidate(states[k], weight)] else []
  {
    StateIsTheFirst(states, name, same, k);
    hide CostToLevel, StateOf;
    assert [(name, weight)][..0] == [];
  }

  lemma {:induction false} StateIsTheFirst(states: seq<TargetState>, name: string, same: (string, string) -> bool, k: nat)
    requires k < |states| && same(states[k].name, name) && forall j :: 0 <= j < k ==> !same(states[j].name, name)
    ensures StateOf(states, name, same) == Some(states[k])
  {
    if k > 0 { StateIsTheFirst(states[1..], name, same, k - 1); }
  }

  method Candidates(costs: Costs, policy: seq<(string, real)>, states: seq<TargetState>, same: (string, string) -> bool) returns (cands: seq<Candidate>)
    ensures cands == Chosen(costs, policy, states, same)
  {
    hide CostToLevel;
    cands := [];
    for i := 0 to |policy|
      invariant cands == Chosen(costs, policy[..i], states, same)
    {
      assert policy[..i + 1][..i] == policy[..i];
      var (name, weight) := policy[i];
      if weight <= 0.0 { continue; }
      var state := StateOf(states, name, same);
      if state.None? { continue; }
      var first := CostToLevel(costs.tables, state.value, costs.stop, 0);
      if first.Some? && first.value > 0 { cands := cands + [Candidate(state.value, weight)]; }
    }
    assert policy[..|policy|] == policy;
  }

  // ----- the spends -----

  datatype Step = Step(target: string, cost: int)

  function StepSum(steps: seq<Step>): int { if steps == [] then 0 else StepSum(steps[..|steps| - 1]) + steps[|steps| - 1].cost }

  /** What the steps spend on one target. */
  function SpentOn(steps: seq<Step>, target: string): int {
    if steps == [] then 0
    else SpentOn(steps[..|steps| - 1], target) + if steps[|steps| - 1].target == target then steps[|steps| - 1].cost else 0
  }

  /** What the plan gives one target, over every entry that names it. */
  function PlannedFor(cands: seq<Candidate>, taken: seq<seq<int>>, target: string): int
    requires |cands| == |taken|
  {
    if cands == [] then 0
    else
      var n := |cands| - 1;
      PlannedFor(cands[..n], taken[..n], target) + if cands[n].state.name == target then Sum(taken[n]) else 0
  }

  lemma {:induction false} SpentOnJoin(a: seq<Step>, b: seq<Step>, target: string)
    ensures SpentOn(a + b, target) == SpentOn(a, target) + SpentOn(b, target)
  {
    if b == [] {
      assert a + b == a;
    } else {
      assert (a + b)[..|a + b| - 1] == a + b[..|b| - 1];
      SpentOnJoin(a, b[..|b| - 1], target);
    }
  }

  predicate AllFor(steps: seq<Step>, target: string) { forall i :: 0 <= i < |steps| ==> steps[i].target == target }

  lemma {:induction false} SpentOnOne(steps: seq<Step>, target: string, other: string)
    requires AllFor(steps, target)
    ensures SpentOn(steps, other) == if other == target then StepSum(steps) else 0
  {
    if steps != [] { SpentOnOne(steps[..|steps| - 1], target, other); }
  }

  /** A total cut into chunks, the rest last. */
  method Chunks(target: string, total: int, chunk: int) returns (steps: seq<Step>)
    requires chunk >= 1
    ensures AllFor(steps, target) && StepSum(steps) == (if total > 0 then total else 0)
    ensures forall i :: 0 <= i < |steps| ==> 0 < steps[i].cost <= chunk
    ensures forall i :: 0 <= i < |steps| - 1 ==> steps[i].cost == chunk
  {
    steps := [];
    var left := total;
    while left > chunk
      invariant AllFor(steps, target) && (forall i :: 0 <= i < |steps| ==> steps[i].cost == chunk)
      invariant StepSum(steps) + left == total && (steps != [] ==> left > 0)
      decreases left
    {
      var more := steps + [Step(target, chunk)];
      assert more[..|steps|] == steps;
      steps := more;
      left := left - chunk;
    }
    if left > 0 {
      var more := steps + [Step(target, left)];
      assert more[..|steps|] == steps;
      steps := more;
    }
  }

  /** Every rank of every entry as a spend of its own, in policy order. */
  function AllSingles(cands: seq<Candidate>, taken: seq<seq<int>>): seq<Step>
    requires |cands| == |taken|
  {
    if cands == [] then []
    else
      var n := |cands| - 1;
      AllSingles(cands[..n], taken[..n]) + seq(|taken[n]|, i requires 0 <= i < |taken[n]| => Step(cands[n].state.name, taken[n][i]))
  }

  /** Each rank a spend of its own. */
  method Singles(target: string, costs: seq<int>) returns (steps: seq<Step>)
    ensures AllFor(steps, target) && StepSum(steps) == Sum(costs)
    ensures |steps| == |costs| && forall i :: 0 <= i < |steps| ==> steps[i].cost == costs[i]
  {
    steps := [];
    for i := 0 to |costs|
      invariant AllFor(steps, target) && |steps| == i && (forall k :: 0 <= k < i ==> steps[k].cost == costs[k])
      invariant StepSum(steps) == Sum(costs[..i])
    {
      var more := steps + [Step(target, costs[i])];
      assert more[..i] == steps && costs[..i + 1][..i] == costs[..i];
      steps := more;
    }
    assert costs[..|costs|] == costs;
  }

  // ----- cheapest first -----

  predicate Sorted(steps: seq<Step>) { forall i, j :: 0 <= i < j < |steps| ==> steps[i].cost <= steps[j].cost }

  /** The steps of one cost, in order. */
  function OfCost(steps: seq<Step>, cost: int): seq<Step> {
    if steps == [] then []
    else OfCost(steps[..|steps| - 1], cost) + if steps[|steps| - 1].cost == cost then [steps[|steps| - 1]] else []
  }

  function Insert(sorted: seq<Step>, step: Step): seq<Step> {
    if sorted == [] || sorted[|sorted| - 1].cost <= step.cost then sorted + [step]
    else Insert(sorted[..|sorted| - 1], step) + [sorted[|sorted| - 1]]
  }

  function ByCost(steps: seq<Step>): seq<Step> {
    if steps == [] then [] else Insert(ByCost(steps[..|steps| - 1]), steps[|steps| - 1])
  }

  lemma LastOf<T>(before: seq<T>, last: T)
    ensures (before + [last])[..|before|] == before && (before + [last])[|before|] == last
  {}

  lemma {:induction false} InsertSorts(sorted: seq<Step>, step: Step)
    requires Sorted(sorted)
    ensures Sorted(Insert(sorted, step)) && multiset(Insert(sorted, step)) == multiset(sorted) + multiset{step}
  {
    if sorted != [] && sorted[|sorted| - 1].cost > step.cost {
      var n := |sorted| - 1;
      var inserted := Insert(sorted[..n], step);
      InsertSorts(sorted[..n], step);
      assert sorted == sorted[..n] + [sorted[n]];
      InsertedBelow(sorted[..n], step, inserted, sorted[n]);
    }
  }

  lemma {:induction false} InsertKeepsOrder(sorted: seq<Step>, step: Step, cost: int)
    requires Sorted(sorted)
    ensures OfCost(Insert(sorted, step), cost) == OfCost(sorted, cost) + if step.cost == cost then [step] else []
  {
    if sorted == [] || sorted[|sorted| - 1].cost <= step.cost {
      LastOf(sorted, step);
    } else {
      var n := |sorted| - 1;
      var inserted := Insert(sorted[..n], step);
      InsertKeepsOrder(sorted[..n], step, cost);
      LastOf(inserted, sorted[n]);
      assert Insert(sorted, step) == inserted + [sorted[n]];
      hide Insert;
      var last := if sorted[n].cost == cost then [sorted[n]] else [];
      assert OfCost(inserted + [sorted[n]], cost) == OfCost(inserted, cost) + last;
      assert OfCost(sorted, cost) == OfCost(sorted[..n], cost) + last;
    }
  }

  lemma {:induction false} InsertSpends(sorted: seq<Step>, step: Step, target: string)
    ensures SpentOn(Insert(sorted, step), target) == SpentOn(sorted, target) + if step.target == target then step.cost else 0
  {
    if sorted == [] || sorted[|sorted| - 1].cost <= step.cost {
      LastOf(sorted, step);
    } else {
      var n := |sorted| - 1;
      var inserted := Insert(sorted[..n], step);
      InsertSpends(sorted[..n], step, target);
      LastOf(inserted, sorted[n]);
    }
  }

  lemma InsertedBelow(sorted: seq<Step>, step: Step, inserted: seq<Step>, last: Step)
    requires Sorted(sorted + [last]) && step.cost < last.cost && Sorted(inserted) && multiset(inserted) == multiset(sorted) + multiset{step}
    ensures Sorted(inserted + [last])
  {
    forall i | 0 <= i < |inserted| ensures inserted[i].cost <= last.cost {
      assert inserted[i] in multiset(inserted);
      if inserted[i] != step {
        var k :| 0 <= k < |sorted| && sorted[k] == inserted[i];
        assert (sorted + [last])[k].cost <= (sorted + [last])[|sorted|].cost;
      }
    }
  }

  lemma {:induction false} ByCostSorts(steps: seq<Step>)
    ensures Sorted(ByCost(steps)) && multiset(ByCost(steps)) == multiset(steps)
  {
    if steps != [] {
      var n := |steps| - 1;
      ByCostSorts(steps[..n]);
      InsertSorts(ByCost(steps[..n]), steps[n]);
      assert steps == steps[..n] + [steps[n]];
    }
  }

  lemma {:induction false} ByCostKeepsOrder(steps: seq<Step>, cost: int)
    ensures OfCost(ByCost(steps), cost) == OfCost(steps, cost)
  {
    hide Insert;
    if steps != [] {
      var n := |steps| - 1;
      ByCostSorts(steps[..n]);
      ByCostKeepsOrder(steps[..n], cost);
      InsertKeepsOrder(ByCost(steps[..n]), steps[n], cost);
    }
  }

  lemma {:induction false} ByCostSpends(steps: seq<Step>, target: string)
    ensures SpentOn(ByCost(steps), target) == SpentOn(steps, target)
  {
    hide Insert;
    if steps != [] {
      var n := |steps| - 1;
      ByCostSpends(steps[..n], target);
      InsertSpends(ByCost(steps[..n]), steps[n], target);
    }
  }

  /** Sorting by cost keeps the steps, the order of those that cost the same
      and what is spent on each target. */
  lemma ByCostIsStable(steps: seq<Step>)
    ensures Sorted(ByCost(steps)) && multiset(ByCost(steps)) == multiset(steps)
    ensures forall cost :: OfCost(ByCost(steps), cost) == OfCost(steps, cost)
    ensures forall target :: SpentOn(ByCost(steps), target) == SpentOn(steps, target)
  {
    hide ByCost, OfCost, SpentOn;
    ByCostSorts(steps);
    forall cost ensures OfCost(ByCost(steps), cost) == OfCost(steps, cost) { ByCostKeepsOrder(steps, cost); }
    forall target ensures SpentOn(ByCost(steps), target) == SpentOn(steps, target) { ByCostSpends(steps, target); }
  }

  lemma {:induction false} StepsInMultiset(a: seq<Step>, b: seq<Step>, limit: int)
    requires multiset(a) == multiset(b) && forall i :: 0 <= i < |b| ==> b[i].cost <= limit
    ensures forall i :: 0 <= i < |a| ==> a[i].cost <= limit
  {
    forall i | 0 <= i < |a| ensures a[i].cost <= limit {
      assert a[i] in multiset(b);
      var k :| 0 <= k < |b| && b[k] == a[i];
    }
  }

  // ----- the plan -----

  ghost predicate NoLosses(taken: seq<seq<int>>) { forall i :: 0 <= i < |taken| ==> Sum(taken[i]) >= 0 }

  /** The spends of every target, in policy order. */
  method Spends(cands: seq<Candidate>, taken: seq<seq<int>>, batch: bool, maxChunk: int) returns (flat: seq<Step>)
    requires |cands| == |taken|
    ensures !batch || NoLosses(taken) ==> forall target :: SpentOn(flat, target) == PlannedFor(cands, taken, target)
    ensures batch ==> forall i :: 0 <= i < |flat| ==> flat[i].cost <= (if maxChunk > 1 then maxChunk else 1)
    ensures !batch ==> flat == AllSingles(cands, taken)
  {
    hide SpentOn, Sum, StepSum;
    flat := [];
    NothingSpent(cands, taken);
    var chunk := if maxChunk > 1 then maxChunk else 1;
    for n := 0 to |cands|
      invariant !batch || NoLosses(taken) ==> forall target :: SpentOn(flat, target) == PlannedFor(cands[..n], taken[..n], target)
      invariant batch ==> forall i :: 0 <= i < |flat| ==> flat[i].cost <= chunk
      invariant !batch ==> flat == AllSingles(cands[..n], taken[..n])
    {
      assert cands[..n + 1][..n] == cands[..n] && taken[..n + 1][..n] == taken[..n];
      var steps;
      if batch {
        steps := Chunks(cands[n].state.name, Sum(taken[n]), chunk);
      } else {
        steps := Singles(cands[n].state.name, taken[n]);
        assert steps == seq(|taken[n]|, i requires 0 <= i < |taken[n]| => Step(cands[n].state.name, taken[n][i]));
      }
      if !batch || NoLosses(taken) {
        forall target ensures SpentOn(flat + steps, target) == PlannedFor(cands[..n + 1], taken[..n + 1], target) {
          SpentOnJoin(flat, steps, target);
          SpentOnOne(steps, cands[n].state.name, target);
        }
      }
      flat := flat + steps;
    }
    assert cands[..|cands|] == cands && taken[..|taken|] == taken;
  }

  lemma NothingSpent(cands: seq<Candidate>, taken: seq<seq<int>>)
    requires |cands| == |taken|
    ensures forall target :: SpentOn([], target) == PlannedFor(cands[..0], taken[..0], target)
  {}

  /** Every rank has a price above nothing. */
  ghost predicate Positive(costs: Costs, cands: seq<Candidate>) {
    forall i, r: nat :: 0 <= i < |cands| && Price(costs, cands[i], r).Some? ==> Price(costs, cands[i], r).value > 0
  }

  lemma {:induction false} SumIsPositive(costs: seq<int>)
    requires forall i :: 0 <= i < |costs| ==> costs[i] > 0
    ensures Sum(costs) >= 0
  {
    if costs != [] { SumIsPositive(costs[..|costs| - 1]); }
  }

  lemma PositiveLosesNothing(costs: Costs, cands: seq<Candidate>, taken: seq<seq<int>>)
    requires Positive(costs, cands) && Consecutive(costs, cands, taken)
    ensures NoLosses(taken)
  {
    hide Price;
    forall i | 0 <= i < |taken| ensures Sum(taken[i]) >= 0 {
      forall r | 0 <= r < |taken[i]| ensures taken[i][r] > 0 { assert Price(costs, cands[i], r) == Some(taken[i][r]); }
      SumIsPositive(taken[i]);
    }
  }

  /** The whole plan: what each target takes, a prefix of the merge within the
      balance, and the same spends cheapest first. */
  method Plan(costs: Costs, policy: seq<(string, real)>, states: seq<TargetState>, same: (string, string) -> bool,
              unassigned: int, batch: bool, maxChunk: int, maxSteps: int)
    returns (cands: seq<Candidate>, taken: seq<seq<int>>, steps: seq<Step>, ghost picks: seq<Rank>)
    ensures |cands| == |taken| && (!batch ==> steps == ByCost(AllSingles(cands, taken)))
    ensures cands == Chosen(costs, policy, states, same)
    ensures Consecutive(costs, cands, taken) && Picked(taken, picks)
    ensures unassigned >= 0 ==> SumAll(taken) <= unassigned
    ensures Dearer(costs, cands) ==> MergePrefix(costs, cands, picks)
    ensures Dearer(costs, cands) ==> Stopped(costs, cands, taken, picks, unassigned - SumAll(taken), maxSteps)
    ensures Sorted(steps)
    ensures !batch || Positive(costs, cands) ==> forall target :: SpentOn(steps, target) == PlannedFor(cands, taken, target)
    ensures batch ==> forall i :: 0 <= i < |steps| ==> steps[i].cost <= (if maxChunk > 1 then maxChunk else 1)
  {
    hide Chosen, Consecutive, Picked, SumAll, MergePrefix, Stopped, SpentOn, PlannedFor, Price, Dearer, ByCost, Positive, NoLosses, AllSingles;
    cands := Candidates(costs, policy, states, same);
    if cands == [] {
      EmptyPlan(costs, cands, unassigned, maxSteps);
      return cands, [], [], [];
    }
    taken, picks := Spend(costs, cands, unassigned, maxSteps);
    ConsecutiveLength(costs, cands, taken);
    var flat := Spends(cands, taken, batch, maxChunk);
    steps := ByCost(flat);
    ByCostIsStable(flat);
    if Positive(costs, cands) { PositiveLosesNothing(costs, cands, taken); }
    if batch { StepsInMultiset(steps, flat, if maxChunk > 1 then maxChunk else 1); }
  }

  lemma ConsecutiveLength(costs: Costs, cands: seq<Candidate>, taken: seq<seq<int>>)
    requires Consecutive(costs, cands, taken)
    ensures |taken| == |cands|
  {}

  lemma EmptyPlan(costs: Costs, cands: seq<Candidate>, unassigned: int, maxSteps: int)
    requires cands == []
    ensures Consecutive(costs, cands, []) && Picked([], []) && SumAll([]) == 0 && MergePrefix(costs, cands, [])
    ensures Stopped(costs, cands, [], [], unassigned, maxSteps)
    ensures forall target :: SpentOn([], target) == PlannedFor(cands, [], target)
    ensures ByCost(AllSingles(cands, [])) == []
  {}
}
