/** Which monster to fight: one comparison of two candidates, and the candidate
    no other is preferred to. */
module TargetSelection {

  datatype Candidate = Candidate(
    id: nat, priority: int, distance: real, angleDelta: real, urgency: int,
    needsDebuff: bool, isLock: bool, isLast: bool, weapon: nat, offhand: nat)

  datatype DebuffFirst = Never | Priority | All

  datatype Method = Range | Angle | Both | UnknownMethod

  datatype Option<+T> = None | Some(value: T)

  /** How targets are compared: `reach` is the angle range in the method that
      uses one, 0 in the others. */
  datatype Mode = Mode(asked: bool, outranks: bool, method_: Method, reach: real, weapon: nat, offhand: nat)

  function ModeOf(debuff: DebuffFirst, method_: Method, angleRange: real, weapon: nat, offhand: nat): Mode {
    Mode(debuff != Never, debuff.All?, method_, if method_.Both? then angleRange else 0.0, weapon, offhand)
  }

  const FAR := 999_999.0
  const NO_ANGLE := 1.7976931348623157e308

  /** What a candidate must be preferred to when none has been taken yet. */
  function Empty(): Candidate { Candidate(0, -1, FAR, NO_ANGLE, 0, false, false, false, 0, 0) }

  function Rewields(mode: Mode, c: Candidate): int {
    (if c.weapon != mode.weapon then 1 else 0) + (if c.offhand != mode.offhand then 1 else 0)
  }

  /** The selection method's own comparison. */
  predicate Nearer(mode: Mode, a: Candidate, best: Candidate) {
    match mode.method_
    case Both =>
      if a.distance < mode.reach && best.distance > mode.reach then true
      else if a.distance > mode.reach && best.distance < mode.reach then false
      else if a.distance < mode.reach then
        a.angleDelta < best.angleDelta || (a.angleDelta == best.angleDelta && a.distance < best.distance)
      else a.distance < best.distance || (a.distance == best.distance && a.angleDelta < best.angleDelta)
    case Range => a.distance < best.distance || (a.distance == best.distance && a.angleDelta < best.angleDelta)
    case Angle => a.angleDelta < best.angleDelta || (a.angleDelta == best.angleDelta && a.distance < best.distance)
    case UnknownMethod => false
  }

  predicate TieBreak(mode: Mode, a: Candidate, best: Candidate) {
    if mode.asked && a.needsDebuff != best.needsDebuff then a.needsDebuff
    else if a.urgency != best.urgency then a.urgency > best.urgency
    else if a.isLock != best.isLock then a.isLock
    else if a.distance < mode.reach && best.distance < mode.reach && Rewields(mode, a) != Rewields(mode, best)
    then Rewields(mode, a) < Rewields(mode, best)
    else if a.isLast != best.isLast then a.isLast
    else Nearer(mode, a, best)
  }

  /** Whether a candidate takes the incumbent's place. */
  predicate Accepts(mode: Mode, a: Candidate, best: Candidate) {
    if mode.outranks && a.needsDebuff != best.needsDebuff then a.needsDebuff
    else if a.priority != best.priority then a.priority > best.priority
    else TieBreak(mode, a, best)
  }

  // ----- when the comparison is an order -----

  /** Nothing before the re-wields tells the two apart. */
  predicate SameRank(mode: Mode, a: Candidate, b: Candidate) {
    && a.priority == b.priority && a.urgency == b.urgency && a.isLock == b.isLock
    && (mode.asked || mode.outranks ==> a.needsDebuff == b.needsDebuff)
  }

  /** Both are nearer than the reach, so the re-wields decide for `a`, where
      what decides against candidates beyond it is for `b`, or for neither. */
  predicate Clash(mode: Mode, a: Candidate, b: Candidate) {
    && SameRank(mode, a, b) && a.distance < mode.reach && b.distance < mode.reach && Rewields(mode, a) < Rewields(mode, b)
    && (if mode.method_.Angle? then (if a.isLast == b.isLast then b.angleDelta < a.angleDelta else b.isLast)
        else mode.method_.UnknownMethod? && (a.isLast ==> b.isLast))
  }

  /** `d` is exactly at the range, where nothing puts `a` inside it first. */
  predicate Tied(mode: Mode, d: Candidate, a: Candidate) {
    && mode.method_.Both? && SameRank(mode, d, a) && d.isLast == a.isLast
    && d.distance == mode.reach && a.distance < mode.reach && d.angleDelta < a.angleDelta
  }

  /** Two last targets, one within the reach that would be re-wielded for and
      one not within it. */
  predicate Astride(mode: Mode, x: Candidate, y: Candidate) {
    && (mode.method_.Both? || mode.method_.Range?) && SameRank(mode, x, y) && x.isLast && y.isLast
    && x.distance < mode.reach <= y.distance && Rewields(mode, x) > 0
  }

  /** The two can stand in one order with any others. */
  predicate Agree(mode: Mode, a: Candidate, b: Candidate) {
    && !Clash(mode, a, b) && !Clash(mode, b, a) && !Tied(mode, a, b) && !Tied(mode, b, a)
    && !Astride(mode, a, b) && !Astride(mode, b, a)
  }

  lemma NothingBeatsItself(mode: Mode, a: Candidate)
    ensures !Accepts(mode, a, a)
  {}

  /** Among candidates that agree in pairs preference carries over, and so does
      the lack of it: it is a strict weak order. */
  lemma PreferenceIsTransitive(mode: Mode, a: Candidate, b: Candidate, c: Candidate)
    requires Agree(mode, a, b) && Agree(mode, b, c) && Agree(mode, a, c)
    requires Accepts(mode, a, b) && Accepts(mode, b, c)
    ensures Accepts(mode, a, c)
  {}

  lemma NoPreferenceIsTransitive(mode: Mode, a: Candidate, b: Candidate, c: Candidate)
    requires Agree(mode, a, b) && Agree(mode, b, c) && Agree(mode, a, c)
    requires !Accepts(mode, a, b) && !Accepts(mode, b, c)
    ensures !Accepts(mode, a, c)
  {}

  /** One of the two laws fails for the three in this order. */
  predicate Breaks(mode: Mode, a: Candidate, b: Candidate, c: Candidate) {
    if Accepts(mode, a, b) then Accepts(mode, b, c) && !Accepts(mode, a, c) else !Accepts(mode, b, c) && Accepts(mode, a, c)
  }

  function Midway(x: real, y: real): real { (x + y) / 2.0 }

  /** Every clash breaks the order, with one more candidate that agrees with both. */
  lemma ClashBreaks(mode: Mode, a: Candidate, b: Candidate) returns (c: Candidate)
    requires Clash(mode, a, b)
    ensures Agree(mode, a, c) && Agree(mode, b, c) && c.distance == mode.reach
    ensures if a.isLast != b.isLast || mode.method_.Angle? then Breaks(mode, a, b, c) else Breaks(mode, a, c, b)
  {
    c := a.(distance := mode.reach, angleDelta := if a.isLast != b.isLast then a.angleDelta - 1.0 else Midway(a.angleDelta, b.angleDelta));
  }

  /** So does every candidate tied at exactly the range. */
  lemma TiedBreaks(mode: Mode, d: Candidate, a: Candidate) returns (c: Candidate)
    requires Tied(mode, d, a)
    ensures Agree(mode, c, a) && c.distance == a.distance && Breaks(mode, c, d, a)
  {
    c := a.(angleDelta := Midway(d.angleDelta, a.angleDelta));
  }

  /** And so do every two last targets astride the reach, with one that agrees
      with both. */
  lemma AstrideBreaks(mode: Mode, x: Candidate, y: Candidate) returns (c: Candidate)
    requires Astride(mode, x, y)
    ensures Agree(mode, c, x) && Agree(mode, c, y) && !c.isLast && Breaks(mode, y, c, x)
    ensures mode.reach < y.distance ==> Accepts(mode, c, x) && Accepts(mode, x, y) && Accepts(mode, y, c)
  {
    c := x.(isLast := false, weapon := mode.weapon, offhand := mode.offhand);
  }

  /** One of the laws fails for the three, in one order or another. */
  predicate Disorder(mode: Mode, a: Candidate, b: Candidate, c: Candidate) {
    || Breaks(mode, a, b, c) || Breaks(mode, a, c, b) || Breaks(mode, b, a, c)
    || Breaks(mode, b, c, a) || Breaks(mode, c, a, b) || Breaks(mode, c, b, a)
  }

  lemma AgreementOrders(mode: Mode, a: Candidate, b: Candidate, c: Candidate)
    requires Agree(mode, a, b) && Agree(mode, b, c) && Agree(mode, a, c)
    ensures !Disorder(mode, a, b, c)
  {
    hide Agree, Breaks;
    Agreeing(mode, a, b);
    Agreeing(mode, b, c);
    Agreeing(mode, a, c);
    Unbroken(mode, a, b, c);
    Unbroken(mode, a, c, b);
    Unbroken(mode, b, a, c);
    Unbroken(mode, b, c, a);
    Unbroken(mode, c, a, b);
    Unbroken(mode, c, b, a);
  }

  lemma Agreeing(mode: Mode, a: Candidate, b: Candidate)
    ensures Agree(mode, a, b) == Agree(mode, b, a)
  {
    hide Clash, Tied, Astride;
  }

  lemma Unbroken(mode: Mode, a: Candidate, b: Candidate, c: Candidate)
    requires Agree(mode, a, b) && Agree(mode, b, c) && Agree(mode, a, c)
    ensures !Breaks(mode, a, b, c)
  {
    hide Accepts, Agree;
    if Accepts(mode, a, b) && Accepts(mode, b, c) { PreferenceIsTransitive(mode, a, b, c); }
    if !Accepts(mode, a, b) && !Accepts(mode, b, c) { NoPreferenceIsTransitive(mode, a, b, c); }
  }

  /** Whatever two do not agree, some third that agrees with one of them is out
      of order with them. */
  lemma DisagreementDisorders(mode: Mode, a: Candidate, b: Candidate)
    requires !Agree(mode, a, b)
    ensures exists c :: (Agree(mode, a, c) || Agree(mode, b, c)) && Disorder(mode, a, b, c)
  {
    var c: Candidate;
    if Clash(mode, a, b) { c := ClashBreaks(mode, a, b); }
    else if Clash(mode, b, a) { c := ClashBreaks(mode, b, a); }
    else if Tied(mode, a, b) { c := TiedBreaks(mode, a, b); }
    else if Tied(mode, b, a) { c := TiedBreaks(mode, b, a); }
    else if Astride(mode, a, b) { c := AstrideBreaks(mode, a, b); }
    else { c := AstrideBreaks(mode, b, a); }
    hide Accepts, Clash, Tied, Astride;
    assert (Agree(mode, a, c) || Agree(mode, b, c)) && Disorder(mode, a, b, c);
  }

  /** Distances that are lengths disagree in the method with a range alone, and
      with no two last targets only by a tie at the range. */
  lemma LengthsAgree(debuff: DebuffFirst, method_: Method, angleRange: real, weapon: nat, offhand: nat, a: Candidate, b: Candidate)
    requires a.distance >= 0.0 && b.distance >= 0.0
    ensures !method_.Both? ==> Agree(ModeOf(debuff, method_, angleRange, weapon, offhand), a, b)
    ensures (a.isLast && b.isLast ==> a == b) ==>
              var mode := ModeOf(debuff, method_, angleRange, weapon, offhand);
              (Agree(mode, a, b) <==> !Tied(mode, a, b) && !Tied(mode, b, a))
  {}

  // An instance of each: two last targets, distances below zero in the angle
  // method, and a distance exactly at the range.

  lemma TwoLastTargetsGoRound()
    ensures var mode := ModeOf(Never, Both, 10.0, 1, 2);
            var a := Candidate(1, 0, 5.0, 0.0, 0, false, false, false, 1, 2);
            var b := Candidate(2, 0, 5.0, 0.0, 0, false, false, true, 9, 2);
            var c := Candidate(3, 0, 20.0, 0.0, 0, false, false, true, 1, 2);
            Accepts(mode, a, b) && Accepts(mode, b, c) && Accepts(mode, c, a)
  {}

  lemma NegativeDistancesGoRound()
    ensures var mode := ModeOf(Never, Angle, 0.0, 1, 2);
            var a := Candidate(1, 0, -1.0, 90.0, 0, false, false, false, 1, 2);
            var b := Candidate(2, 0, -2.0, 10.0, 0, false, false, false, 9, 2);
            var c := Candidate(3, 0, 5.0, 50.0, 0, false, false, false, 1, 2);
            Accepts(mode, a, b) && Accepts(mode, b, c) && Accepts(mode, c, a)
  {}

  lemma AtTheRangeTiesFail()
    ensures var mode := ModeOf(Never, Both, 10.0, 1, 2);
            var a := Candidate(1, 0, 5.0, 90.0, 0, false, false, false, 1, 2);
            var f := Candidate(2, 0, 6.0, 60.0, 0, false, false, false, 1, 2);
            var d := Candidate(3, 0, 10.0, 50.0, 0, false, false, false, 1, 2);
            && !Accepts(mode, a, d) && !Accepts(mode, d, a) && !Accepts(mode, f, d) && !Accepts(mode, d, f)
            && Accepts(mode, f, a)
  {}

  // ----- the selection -----

  /** The candidate at `k` (the empty best for -1). */
  function At(candidates: seq<Candidate>, k: int): Candidate
    requires -1 <= k < |candidates|
  {
    if k < 0 then Empty() else candidates[k]
  }

  /** The candidates, and the empty best they start from, agree in pairs. */
  ghost predicate Orderly(mode: Mode, candidates: seq<Candidate>) {
    forall i, j :: -1 <= i < |candidates| && -1 <= j < |candidates| ==> Agree(mode, At(candidates, i), At(candidates, j))
  }

  /** The earliest candidate nothing is preferred to: it is preferred to all
      before it, the empty best among them. */
  ghost predicate Top(mode: Mode, candidates: seq<Candidate>, k: int) {
    && -1 <= k < |candidates|
    && (forall j :: -1 <= j < |candidates| ==> !Accepts(mode, At(candidates, j), At(candidates, k)))
    && (forall j :: -1 <= j < k ==> Accepts(mode, At(candidates, k), At(candidates, j)))
  }

  /** One more candidate: the top of the longer list is it, or still the old. */
  lemma TopMoves(mode: Mode, candidates: seq<Candidate>, n: nat, k: int)
    requires Orderly(mode, candidates) && n < |candidates| && Top(mode, candidates[..n], k)
    ensures Top(mode, candidates[..n + 1], if Accepts(mode, candidates[n], At(candidates, k)) then n else k)
  {
    hide Accepts, Agree, Orderly;
    var before, after := candidates[..n], candidates[..n + 1];
    var next := if Accepts(mode, candidates[n], At(candidates, k)) then n else k;
    assert forall j :: -1 <= j < n ==> At(before, j) == At(after, j) == At(candidates, j);
    NothingBeatsItself(mode, candidates[n]);
    if next == n {
      forall j | -1 <= j < n
        ensures !Accepts(mode, At(candidates, j), candidates[n]) && Accepts(mode, candidates[n], At(candidates, j))
      {
        assert !Accepts(mode, At(before, j), At(before, k));
        TopBeats(mode, candidates, n, k, j);
      }
    }
  }

  lemma TopBeats(mode: Mode, candidates: seq<Candidate>, n: nat, k: int, j: int)
    requires Orderly(mode, candidates) && n < |candidates| && -1 <= k < n && -1 <= j < n
    requires Accepts(mode, candidates[n], At(candidates, k)) && !Accepts(mode, At(candidates, j), At(candidates, k))
    ensures !Accepts(mode, At(candidates, j), candidates[n]) && Accepts(mode, candidates[n], At(candidates, j))
  {
    hide Accepts, Agree;
    var a, b, c := candidates[n], At(candidates, k), At(candidates, j);
    assert At(candidates, n) == a;
    if Accepts(mode, c, a) { PreferenceIsTransitive(mode, c, a, b); }
    if !Accepts(mode, a, c) { NoPreferenceIsTransitive(mode, a, c, b); }
  }

  /** Who holds the place after every candidate has had its turn (-1 for the
      empty best). */
  function Chosen(mode: Mode, candidates: seq<Candidate>): (k: int)
    ensures -1 <= k < |candidates|
  {
    if candidates == [] then -1
    else
      var n := |candidates| - 1;
      var k := Chosen(mode, candidates[..n]);
      if Accepts(mode, candidates[n], At(candidates, k)) then n else k
  }

  /** The one pass finds the top. */
  lemma {:induction false} ChosenIsTop(mode: Mode, candidates: seq<Candidate>)
    requires Orderly(mode, candidates)
    ensures Top(mode, candidates, Chosen(mode, candidates))
  {
    hide Accepts, Top, Agree;
    if candidates == [] {
      TopOfNothing(mode, candidates);
    } else {
      var n := |candidates| - 1;
      assert forall i :: -1 <= i < n ==> At(candidates[..n], i) == At(candidates, i);
      ChosenIsTop(mode, candidates[..n]);
      TopMoves(mode, candidates, n, Chosen(mode, candidates[..n]));
      assert candidates[..n + 1] == candidates;
    }
  }

  // ----- what the pick is -----

  /** Where any candidate is to be attacked at all, one is picked. */
  lemma {:induction false} SomethingIsPicked(mode: Mode, candidates: seq<Candidate>, k: nat)
    requires k < |candidates| && candidates[k].priority >= 0
    ensures Chosen(mode, candidates) >= 0
  {
    var n := |candidates| - 1;
    if k < n {
      SomethingIsPicked(mode, candidates[..n], k);
    } else {
      assert At(candidates, Chosen(mode, candidates[..n])) == Empty() || Chosen(mode, candidates[..n]) >= 0;
    }
  }

  /** One not to be attacked is picked for its nearness alone. */
  lemma NoneIsPickedFromAfar(mode: Mode, a: Candidate)
    requires mode.method_.Range? && a.priority == -1 && a.urgency == 0 && !a.needsDebuff && !a.isLock && !a.isLast
    requires mode.reach <= 0.0 <= a.distance
    ensures Accepts(mode, a, Empty()) <==> a.distance < 999_999.0 || (a.distance == 999_999.0 && a.angleDelta < 1.7976931348623157e308)
  {}

  /** By rank alone `c` has nothing on `p`: of all, those owed a debuff come
      first when that outranks the rest; then the higher priority; then those
      owed a debuff, when that is asked; then the greater urgency; and then the
      locked one. */
  predicate NotOutranked(debuff: DebuffFirst, p: Candidate, c: Candidate) {
    var asked := debuff == Priority || debuff == All;
    && (debuff == All && c.needsDebuff ==> p.needsDebuff)
    && (debuff != All || c.needsDebuff == p.needsDebuff ==>
          && p.priority >= c.priority
          && (p.priority == c.priority && asked && c.needsDebuff ==> p.needsDebuff)
          && (p.priority == c.priority && (!asked || c.needsDebuff == p.needsDebuff) ==>
                p.urgency >= c.urgency && (p.urgency == c.urgency && c.isLock ==> p.isLock)))
  }

  lemma RankIsKept(debuff: DebuffFirst, a: Candidate, b: Candidate, c: Candidate)
    requires NotOutranked(debuff, a, b) && NotOutranked(debuff, b, c)
    ensures NotOutranked(debuff, a, c)
  {}

  lemma PreferenceGoesByRank(debuff: DebuffFirst, method_: Method, angleRange: real, weapon: nat, offhand: nat, a: Candidate, b: Candidate)
    ensures NotOutranked(debuff, a, a)
    ensures var mode := ModeOf(debuff, method_, angleRange, weapon, offhand);
            if Accepts(mode, a, b) then NotOutranked(debuff, a, b) else NotOutranked(debuff, b, a)
  {}

  /** Whatever the candidates are, ties at the range and all, none outranks the
      pick. */
  lemma {:induction false} NoneOutranksThePick(candidates: seq<Candidate>, debuff: DebuffFirst, method_: Method, angleRange: real, weapon: nat, offhand: nat, j: int)
    requires -1 <= j < |candidates|
    ensures var mode := ModeOf(debuff, method_, angleRange, weapon, offhand);
            NotOutranked(debuff, At(candidates, Chosen(mode, candidates)), At(candidates, j))
  {
    hide Accepts, NotOutranked;
    var mode := ModeOf(debuff, method_, angleRange, weapon, offhand);
    if candidates == [] {
      PreferenceGoesByRank(debuff, method_, angleRange, weapon, offhand, Empty(), Empty());
    } else {
      var n := |candidates| - 1;
      var best, last := At(candidates, Chosen(mode, candidates[..n])), candidates[n];
      PreferenceGoesByRank(debuff, method_, angleRange, weapon, offhand, last, best);
      if j < n {
        NoneOutranksThePick(candidates[..n], debuff, method_, angleRange, weapon, offhand, j);
        if Accepts(mode, last, best) { RankIsKept(debuff, last, best, At(candidates, j)); }
      }
    }
  }

  /** Neither outranks the other. */
  predicate OfOneRank(debuff: DebuffFirst, a: Candidate, b: Candidate) {
    && a.priority == b.priority && a.urgency == b.urgency && a.isLock == b.isLock
    && (debuff == Never || a.needsDebuff == b.needsDebuff)
  }

  /** The hands that would have to change what they hold. */
  function Changes(c: Candidate, weapon: nat, offhand: nat): set<bool> {
    (if c.weapon == weapon then {} else {true}) + if c.offhand == offhand then {} else {false}
  }

  /** Both are nearer than the angle range, in the method that has one. */
  predicate BothInRange(method_: Method, angleRange: real, a: Candidate, b: Candidate) {
    if method_ == Both then a.distance < angleRange && b.distance < angleRange else a.distance < 0.0 && b.distance < 0.0
  }

  predicate NoFurther(a: Candidate, b: Candidate) { a.distance <= b.distance && (a.distance == b.distance ==> a.angleDelta <= b.angleDelta) }

  predicate NoWorseFaced(a: Candidate, b: Candidate) { a.angleDelta <= b.angleDelta && (a.angleDelta == b.angleDelta ==> a.distance <= b.distance) }

  /** Of two of one rank `p` is no worse by its method: nearest, or best faced;
      or, with a range, one inside it before one beyond, best faced inside it
      and nearest from there on. */
  predicate NoWorsePlaced(method_: Method, angleRange: real, p: Candidate, c: Candidate) {
    match method_
    case Range => NoFurther(p, c)
    case Angle => NoWorseFaced(p, c)
    case Both =>
      && (c.distance < angleRange ==> p.distance <= angleRange && p.angleDelta <= c.angleDelta)
      && (c.distance < angleRange && p.distance < angleRange ==> NoWorseFaced(p, c))
      && (c.distance >= angleRange && p.distance >= angleRange ==> NoFurther(p, c))
    case UnknownMethod => true
  }

  /** Of two of one rank: where both are in range `p` changes no more hands; if
      it changes as many, or they are not, it is the last target if `c` is; and
      if they are alike in that too it is no worse placed. */
  predicate NoWorseOfRank(method_: Method, angleRange: real, weapon: nat, offhand: nat, p: Candidate, c: Candidate) {
    var mine, theirs := |Changes(p, weapon, offhand)|, |Changes(c, weapon, offhand)|;
    && (BothInRange(method_, angleRange, p, c) ==> mine <= theirs)
    && (!BothInRange(method_, angleRange, p, c) || mine == theirs ==>
          (c.isLast ==> p.isLast) && (c.isLast == p.isLast ==> NoWorsePlaced(method_, angleRange, p, c)))
  }

  lemma NotPreferredIsNoBetter(debuff: DebuffFirst, method_: Method, angleRange: real, weapon: nat, offhand: nat, p: Candidate, c: Candidate)
    requires !Accepts(ModeOf(debuff, method_, angleRange, weapon, offhand), c, p) && OfOneRank(debuff, p, c)
    ensures NoWorseOfRank(method_, angleRange, weapon, offhand, p, c)
  {
    HandsAreRewields(debuff, method_, angleRange, weapon, offhand, p);
    HandsAreRewields(debuff, method_, angleRange, weapon, offhand, c);
    hide Changes, Rewields;
  }

  lemma HandsAreRewields(debuff: DebuffFirst, method_: Method, angleRange: real, weapon: nat, offhand: nat, c: Candidate)
    ensures |Changes(c, weapon, offhand)| == Rewields(ModeOf(debuff, method_, angleRange, weapon, offhand), c)
  {}

  /** Of orderly candidates none of the pick's rank is better than it, and none
      before it is quite like it. */
  lemma PickIsForemost(candidates: seq<Candidate>, debuff: DebuffFirst, method_: Method, angleRange: real, weapon: nat, offhand: nat, j: int)
    requires -1 <= j < |candidates| && Orderly(ModeOf(debuff, method_, angleRange, weapon, offhand), candidates)
    ensures var k := Chosen(ModeOf(debuff, method_, angleRange, weapon, offhand), candidates);
            && (OfOneRank(debuff, At(candidates, k), At(candidates, j)) ==>
                  NoWorseOfRank(method_, angleRange, weapon, offhand, At(candidates, k), At(candidates, j)))
            && (j < k ==> At(candidates, j).(id := 0) != At(candidates, k).(id := 0))
  {
    hide Orderly, Chosen, OfOneRank, NoWorseOfRank;
    var mode := ModeOf(debuff, method_, angleRange, weapon, offhand);
    var k := Chosen(mode, candidates);
    ChosenIsTop(mode, candidates);
    if OfOneRank(debuff, At(candidates, k), At(candidates, j)) {
      NotPreferredIsNoBetter(debuff, method_, angleRange, weapon, offhand, At(candidates, k), At(candidates, j));
    }
    if j < k { assert Accepts(mode, At(candidates, k), At(candidates, j)); }
  }

  /** One pass over the candidates, each against the one that holds the place. */
  method Select(candidates: seq<Candidate>, debuff: DebuffFirst, method_: Method, angleRange: real, weapon: nat, offhand: nat)
    returns (pick: Candidate)
    ensures var mode := ModeOf(debuff, method_, angleRange, weapon, offhand);
            && pick == At(candidates, Chosen(mode, candidates))
            && (Orderly(mode, candidates) ==> Top(mode, candidates, Chosen(mode, candidates)))
    ensures forall j :: -1 <= j < |candidates| ==> NotOutranked(debuff, pick, At(candidates, j))
    ensures Orderly(ModeOf(debuff, method_, angleRange, weapon, offhand), candidates) ==>
              forall j :: -1 <= j < |candidates| && OfOneRank(debuff, pick, At(candidates, j)) ==>
                NoWorseOfRank(method_, angleRange, weapon, offhand, pick, At(candidates, j))
  {
    hide Accepts, Orderly, Top, NotOutranked, OfOneRank, NoWorseOfRank;
    var mode := ModeOf(debuff, method_, angleRange, weapon, offhand);
    var best: Option<Candidate> := None;
    for n := 0 to |candidates|
      invariant best == if Chosen(mode, candidates[..n]) < 0 then None else Some(candidates[Chosen(mode, candidates[..n])])
    {
      assert candidates[..n + 1][..n] == candidates[..n];
      if Accepts(mode, candidates[n], if best.Some? then best.value else Empty()) {
        best := Some(candidates[n]);
      }
    }
    assert candidates[..|candidates|] == candidates;
    pick := if best.Some? then best.value else Empty();
    forall j | -1 <= j < |candidates| ensures NotOutranked(debuff, pick, At(candidates, j)) {
      NoneOutranksThePick(candidates, debuff, method_, angleRange, weapon, offhand, j);
    }
    if Orderly(mode, candidates) {
      ChosenIsTop(mode, candidates);
      forall j | -1 <= j < |candidates| && OfOneRank(debuff, pick, At(candidates, j))
        ensures NoWorseOfRank(method_, angleRange, weapon, offhand, pick, At(candidates, j))
      {
        PickIsForemost(candidates, debuff, method_, angleRange, weapon, offhand, j);
      }
    }
  }

  lemma TopOfNothing(mode: Mode, candidates: seq<Candidate>)
    ensures Top(mode, candidates[..0], -1)
  {
    NothingBeatsItself(mode, Empty());
  }

  /** No two candidates tie, nor one with the empty best. */
  ghost predicate NoTies(mode: Mode, candidates: seq<Candidate>) {
    forall i, j :: -1 <= i < |candidates| && -1 <= j < |candidates| && At(candidates, i) != At(candidates, j) ==>
      Accepts(mode, At(candidates, i), At(candidates, j)) || Accepts(mode, At(candidates, j), At(candidates, i))
  }

  /** Without ties the order the candidates come in makes no difference. */
  lemma OrderMakesNoDifference(mode: Mode, a: seq<Candidate>, b: seq<Candidate>, i: int, j: int)
    requires multiset(a) == multiset(b) && NoTies(mode, a) && Top(mode, a, i) && Top(mode, b, j)
    ensures At(a, i) == At(b, j)
  {
    hide Accepts;
    var x, y := At(a, i), At(b, j);
    var k := SamePlace(b, a, j);
    var l := SamePlace(a, b, i);
    assert At(a, k) == y && At(b, l) == x;
    assert !Accepts(mode, At(a, k), At(a, i)) && !Accepts(mode, At(b, l), At(b, j));
  }

  lemma SamePlace(a: seq<Candidate>, b: seq<Candidate>, i: int) returns (k: int)
    requires multiset(a) == multiset(b) && -1 <= i < |a|
    ensures -1 <= k < |b| && At(b, k) == At(a, i)
  {
    if i < 0 {
      k := -1;
    } else {
      assert a[i] in multiset(b);
      k :| 0 <= k < |b| && b[k] == a[i];
    }
  }
}
