/** The order in which the sort behind `listsort` asks about pairs of items and
    moves them, written as functions of lists.  The user sees both: items that
    compare equal end up where these moves take them, and the comparison is an
    expression that can tell when, and about which pair, it is asked. */
module SortReference {

  datatype Fault =
    | Cancelled
    | Expression(reason: string)
    | Runtime(message: string, argument: bool)

  datatype Answer = Value(sign: int) | Raised(fault: Fault)

  /** How a pass over the list ends. */
  datatype Outcome = Done | OutOfRange | Faulted(fault: Fault)

  /** A list being sorted, the pairs asked about so far, and how it goes. */
  datatype Run<T> = Run(keys: seq<T>, asked: seq<(T, T)>, outcome: Outcome)

  const DEPTH_LIMIT: nat := 32

  // ----- orders -----

  ghost predicate TotalPreorder<T(!new)>(le: (T, T) -> bool) {
    && (forall a, b :: le(a, b) || le(b, a))
    && (forall a, b, c :: le(a, b) && le(b, c) ==> le(a, c))
  }

  /** Whenever the comparison answers, its sign is the one `le` dictates. */
  ghost predicate Agrees<T(!new)>(comparison: (nat, T, T) -> Answer, le: (T, T) -> bool) {
    forall n, a, b :: comparison(n, a, b).Value? ==>
      && (comparison(n, a, b).sign < 0 <==> !le(b, a))
      && (comparison(n, a, b).sign > 0 <==> !le(a, b))
  }

  ghost predicate NeverFaults<T(!new)>(comparison: (nat, T, T) -> Answer) {
    forall n, a, b :: comparison(n, a, b).Value?
  }

  // ----- the steps -----

  ghost function Swapped<T>(s: seq<T>, a: int, b: int): seq<T>
    requires 0 <= a < |s| && 0 <= b < |s|
  {
    s[a := s[b]][b := s[a]]
  }

  /** The run with one more pair asked about; a fault ends it. */
  ghost function Asking<T>(comparison: (nat, T, T) -> Answer, r: Run<T>, a: T, b: T): Run<T> {
    var answer := comparison(|r.asked|, a, b);
    Run(r.keys, r.asked + [(a, b)], if answer.Raised? then Faulted(answer.fault) else Done)
  }

  /** What the next question is answered, 0 for a fault. */
  ghost function Sign<T>(comparison: (nat, T, T) -> Answer, r: Run<T>, a: T, b: T): int {
    var answer := comparison(|r.asked|, a, b);
    if answer.Value? then answer.sign else 0
  }

  ghost function PutInOrder<T>(comparison: (nat, T, T) -> Answer, r: Run<T>, a: int, b: int): (r': Run<T>)
    requires 0 <= a < |r.keys| && 0 <= b < |r.keys|
    ensures |r'.keys| == |r.keys| && r.asked <= r'.asked
  {
    if a == b then r
    else
      var r' := Asking(comparison, r, r.keys[a], r.keys[b]);
      if r'.outcome.Done? && Sign(comparison, r, r.keys[a], r.keys[b]) > 0 then r'.(keys := Swapped(r.keys, a, b)) else r'
  }

  ghost function ThreeInOrder<T>(comparison: (nat, T, T) -> Answer, r: Run<T>, low: int, middle: int, high: int): (r': Run<T>)
    requires 0 <= low < |r.keys| && 0 <= middle < |r.keys| && 0 <= high < |r.keys|
    ensures |r'.keys| == |r.keys| && r.asked <= r'.asked
  {
    var first := PutInOrder(comparison, r, low, middle);
    if !first.outcome.Done? then first
    else
      var second := PutInOrder(comparison, first, low, high);
      if !second.outcome.Done? then second else PutInOrder(comparison, second, middle, high)
  }

  /** Where the sweep from the left stops. */
  ghost function SweptRight<T>(comparison: (nat, T, T) -> Answer, r: Run<T>, i: int, pivot: T): (swept: (int, Run<T>))
    requires 0 <= i
    ensures swept.1.keys == r.keys && r.asked <= swept.1.asked && i <= swept.0
    ensures swept.1.outcome.Done? ==> swept.0 < |r.keys|
    decreases |r.keys| - i
  {
    if i >= |r.keys| then (i, r.(outcome := OutOfRange))
    else
      var r' := Asking(comparison, r, r.keys[i], pivot);
      if r'.outcome.Done? && Sign(comparison, r, r.keys[i], pivot) < 0 then SweptRight(comparison, r', i + 1, pivot) else (i, r')
  }

  ghost function SweptLeft<T>(comparison: (nat, T, T) -> Answer, r: Run<T>, j: int, pivot: T): (swept: (int, Run<T>))
    requires j < |r.keys|
    ensures swept.1.keys == r.keys && r.asked <= swept.1.asked && swept.0 <= j
    ensures swept.1.outcome.Done? ==> 0 <= swept.0
    decreases j + 1
  {
    if j < 0 then (j, r.(outcome := OutOfRange))
    else
      var r' := Asking(comparison, r, pivot, r.keys[j]);
      if r'.outcome.Done? && Sign(comparison, r, pivot, r.keys[j]) < 0 then SweptLeft(comparison, r', j - 1, pivot) else (j, r')
  }

  /** Both sweeps, again and again until they cross; the items they stop at
      change places. */
  ghost function Crossed<T>(comparison: (nat, T, T) -> Answer, r: Run<T>, i: int, j: int, pivot: T): (crossed: (int, int, Run<T>))
    requires 0 <= i && j < |r.keys|
    ensures |crossed.2.keys| == |r.keys| && r.asked <= crossed.2.asked
    ensures crossed.2.outcome.Done? && r.outcome.Done? ==> i <= crossed.0 && crossed.1 <= j && crossed.1 < crossed.0
    decreases if i <= j then j - i + 1 else 0
  {
    if i > j then (i, j, r)
    else
      var right := SweptRight(comparison, r, i, pivot);
      if !right.1.outcome.Done? then (right.0, j, right.1)
      else
        var left := SweptLeft(comparison, right.1, j, pivot);
        if !left.1.outcome.Done? || right.0 > left.0 then (right.0, left.0, left.1)
        else Crossed(comparison, left.1.(keys := Swapped(r.keys, right.0, left.0)), right.0 + 1, left.0 - 1, pivot)
  }

  ghost function Partitioned<T>(comparison: (nat, T, T) -> Answer, r: Run<T>, left: int, right: int): (parted: (int, int, Run<T>))
    requires 0 <= left <= right < |r.keys|
    ensures |parted.2.keys| == |r.keys| && r.asked <= parted.2.asked
    ensures parted.2.outcome.Done? && r.outcome.Done? ==> left <= parted.0 && parted.1 <= right && parted.1 < parted.0
  {
    var middle := left + (right - left) / 2;
    var three := ThreeInOrder(comparison, r, left, middle, right);
    if !three.outcome.Done? then (left, right, three)
    else Crossed(comparison, three, left, right, three.keys[middle])
  }

  /** The greater of a heap position's children. */
  ghost function Greater<T>(comparison: (nat, T, T) -> Answer, r: Run<T>, i: int, n: int, lo: int): (child: (int, Run<T>))
    requires 0 <= lo && 1 <= i <= n / 2 && lo + n <= |r.keys|
    ensures child.1.keys == r.keys && r.asked <= child.1.asked && i < child.0 <= n && child.0 / 2 == i
  {
    if 2 * i == n then (n, r)
    else
      var a, b := r.keys[lo + 2 * i - 1], r.keys[lo + 2 * i];
      var r' := Asking(comparison, r, a, b);
      (if r'.outcome.Done? && Sign(comparison, r, a, b) < 0 then 2 * i + 1 else 2 * i, r')
  }

  /** `d` sinks from the hole at heap position `i`. */
  ghost function Sunk<T>(comparison: (nat, T, T) -> Answer, r: Run<T>, i: int, n: int, lo: int, d: T): (r': Run<T>)
    requires 0 <= lo && 1 <= i <= n && lo + n <= |r.keys|
    ensures |r'.keys| == |r.keys| && r.asked <= r'.asked
    decreases n - i
  {
    if i > n / 2 then r.(keys := r.keys[lo + i - 1 := d])
    else
      var child := Greater(comparison, r, i, n, lo);
      if !child.1.outcome.Done? then child.1
      else
        var c := r.keys[lo + child.0 - 1];
        var r' := Asking(comparison, child.1, d, c);
        if !r'.outcome.Done? then r'
        else if Sign(comparison, child.1, d, c) >= 0 then r'.(keys := r.keys[lo + i - 1 := d])
        else Sunk(comparison, r'.(keys := r.keys[lo + i - 1 := c]), child.0, n, lo, d)
  }

  ghost function Heaped<T>(comparison: (nat, T, T) -> Answer, r: Run<T>, i: int, n: int, lo: int): (r': Run<T>)
    requires 0 <= lo && 0 <= i <= n && lo + n <= |r.keys|
    ensures |r'.keys| == |r.keys| && r.asked <= r'.asked
    decreases i
  {
    if i == 0 then r
    else
      var r' := Sunk(comparison, r, i, n, lo, r.keys[lo + i - 1]);
      if !r'.outcome.Done? then r' else Heaped(comparison, r', i - 1, n, lo)
  }

  /** The roots of ever smaller heaps go behind them. */
  ghost function Emptied<T>(comparison: (nat, T, T) -> Answer, r: Run<T>, i: int, lo: int): (r': Run<T>)
    requires 0 <= lo && 1 <= i && lo + i <= |r.keys|
    ensures |r'.keys| == |r.keys| && r.asked <= r'.asked
    decreases i
  {
    if i == 1 then r
    else
      var keys := Swapped(r.keys, lo, lo + i - 1);
      var r' := Sunk(comparison, r.(keys := keys), 1, i - 1, lo, keys[lo]);
      if !r'.outcome.Done? then r' else Emptied(comparison, r', i - 1, lo)
  }

  ghost function HeapSorted<T>(comparison: (nat, T, T) -> Answer, r: Run<T>, lo: int, hi: int): (r': Run<T>)
    requires 0 <= lo <= hi < |r.keys|
    ensures |r'.keys| == |r.keys| && r.asked <= r'.asked
  {
    var n := hi - lo + 1;
    var heap := Heaped(comparison, r, n / 2, n, lo);
    if !heap.outcome.Done? then heap else Emptied(comparison, heap, n, lo)
  }

  /** The smaller side of a partition first. */
  ghost function QuickSorted<T>(comparison: (nat, T, T) -> Answer, r: Run<T>, left: int, right: int, depth: nat): (r': Run<T>)
    requires r.outcome.Done? && 0 <= left && right < |r.keys|
    ensures |r'.keys| == |r.keys| && r.asked <= r'.asked
    decreases depth
  {
    if left >= right then r
    else if depth == 0 then HeapSorted(comparison, r, left, right)
    else
      var parted := Partitioned(comparison, r, left, right);
      var i, j, r1 := parted.0, parted.1, parted.2;
      if !r1.outcome.Done? then r1
      else if j - left <= right - i then
        var r2 := QuickSorted(comparison, r1, left, j, depth - 1);
        if !r2.outcome.Done? then r2 else QuickSorted(comparison, r2, i, right, depth - 1)
      else
        var r2 := QuickSorted(comparison, r1, i, right, depth - 1);
        if !r2.outcome.Done? then r2 else QuickSorted(comparison, r2, left, j, depth - 1)
  }

  /** The whole sort. */
  ghost function Ran<T>(comparison: (nat, T, T) -> Answer, keys: seq<T>): (r: Run<T>) {
    QuickSorted(comparison, Run(keys, [], Done), 0, |keys| - 1, DEPTH_LIMIT)
  }

  // ----- one step at a time -----

  lemma RightStep<T>(comparison: (nat, T, T) -> Answer, r: Run<T>, i: int, pivot: T)
    requires 0 <= i < |r.keys|
    ensures var r' := Asking(comparison, r, r.keys[i], pivot);
            SweptRight(comparison, r, i, pivot) ==
              if r'.outcome.Done? && Sign(comparison, r, r.keys[i], pivot) < 0 then SweptRight(comparison, r', i + 1, pivot) else (i, r')
  {}

  lemma RightEnd<T>(comparison: (nat, T, T) -> Answer, r: Run<T>, i: int, pivot: T)
    requires |r.keys| <= i
    ensures SweptRight(comparison, r, i, pivot) == (i, r.(outcome := OutOfRange))
  {}

  lemma LeftStep<T>(comparison: (nat, T, T) -> Answer, r: Run<T>, j: int, pivot: T)
    requires 0 <= j < |r.keys|
    ensures var r' := Asking(comparison, r, pivot, r.keys[j]);
            SweptLeft(comparison, r, j, pivot) ==
              if r'.outcome.Done? && Sign(comparison, r, pivot, r.keys[j]) < 0 then SweptLeft(comparison, r', j - 1, pivot) else (j, r')
  {}

  lemma LeftEnd<T>(comparison: (nat, T, T) -> Answer, r: Run<T>, j: int, pivot: T)
    requires j < 0
    ensures SweptLeft(comparison, r, j, pivot) == (j, r.(outcome := OutOfRange))
  {}

  lemma SinkStep<T>(comparison: (nat, T, T) -> Answer, r: Run<T>, i: int, n: int, lo: int, d: T)
    requires 0 <= lo && 1 <= i <= n / 2 && lo + n <= |r.keys|
    ensures var child := Greater(comparison, r, i, n, lo);
            var r' := Asking(comparison, child.1, d, r.keys[lo + child.0 - 1]);
            Sunk(comparison, r, i, n, lo, d) ==
              if !child.1.outcome.Done? then child.1
              else if !r'.outcome.Done? then r'
              else if Sign(comparison, child.1, d, r.keys[lo + child.0 - 1]) >= 0 then r'.(keys := r.keys[lo + i - 1 := d])
              else Sunk(comparison, r'.(keys := r.keys[lo + i - 1 := r.keys[lo + child.0 - 1]]), child.0, n, lo, d)
  {
    hide Greater, Asking, Sign;
  }

  lemma SinkEnd<T>(comparison: (nat, T, T) -> Answer, r: Run<T>, i: int, n: int, lo: int, d: T)
    requires 0 <= lo && 1 <= i <= n && lo + n <= |r.keys| && n / 2 < i
    ensures Sunk(comparison, r, i, n, lo, d) == r.(keys := r.keys[lo + i - 1 := d])
  {}

  lemma CrossStep<T>(comparison: (nat, T, T) -> Answer, r: Run<T>, i: int, j: int, pivot: T)
    requires 0 <= i <= j < |r.keys|
    ensures var right := SweptRight(comparison, r, i, pivot);
            var left := SweptLeft(comparison, right.1, j, pivot);
            Crossed(comparison, r, i, j, pivot) ==
              if !right.1.outcome.Done? then (right.0, j, right.1)
              else if !left.1.outcome.Done? || right.0 > left.0 then (right.0, left.0, left.1)
              else Crossed(comparison, left.1.(keys := Swapped(r.keys, right.0, left.0)), right.0 + 1, left.0 - 1, pivot)
  {
    hide SweptRight, SweptLeft, Swapped;
  }

  lemma CrossEnd<T>(comparison: (nat, T, T) -> Answer, r: Run<T>, i: int, j: int, pivot: T)
    requires 0 <= i && j < |r.keys| && i > j
    ensures Crossed(comparison, r, i, j, pivot) == (i, j, r)
  {}

  lemma PartitionStep<T>(comparison: (nat, T, T) -> Answer, r: Run<T>, left: int, right: int)
    requires 0 <= left <= right < |r.keys|
    ensures var middle := left + (right - left) / 2;
            var three := ThreeInOrder(comparison, r, left, middle, right);
            Partitioned(comparison, r, left, right) ==
              if !three.outcome.Done? then (left, right, three) else Crossed(comparison, three, left, right, three.keys[middle])
  {
    hide ThreeInOrder, Crossed;
  }

  lemma HeapStep<T>(comparison: (nat, T, T) -> Answer, r: Run<T>, i: int, n: int, lo: int)
    requires 0 <= lo && 1 <= i <= n && lo + n <= |r.keys|
    ensures var r' := Sunk(comparison, r, i, n, lo, r.keys[lo + i - 1]);
            Heaped(comparison, r, i, n, lo) == if !r'.outcome.Done? then r' else Heaped(comparison, r', i - 1, n, lo)
  {
    hide Sunk;
  }

  lemma HeapEnd<T>(comparison: (nat, T, T) -> Answer, r: Run<T>, n: int, lo: int)
    requires 0 <= lo && 0 <= n && lo + n <= |r.keys|
    ensures Heaped(comparison, r, 0, n, lo) == r
  {}

  lemma EmptyStep<T>(comparison: (nat, T, T) -> Answer, r: Run<T>, i: int, lo: int)
    requires 0 <= lo && 1 < i && lo + i <= |r.keys|
    ensures var keys := Swapped(r.keys, lo, lo + i - 1);
            var r' := Sunk(comparison, r.(keys := keys), 1, i - 1, lo, keys[lo]);
            Emptied(comparison, r, i, lo) == if !r'.outcome.Done? then r' else Emptied(comparison, r', i - 1, lo)
  {
    hide Sunk, Swapped;
  }

  lemma EmptyEnd<T>(comparison: (nat, T, T) -> Answer, r: Run<T>, lo: int)
    requires 0 <= lo < |r.keys|
    ensures Emptied(comparison, r, 1, lo) == r
  {}

  // ----- what the user sees of it -----

  /** Whatever the comparison answers, the first pair asked about is the first
      item and the middle one, the lower of two middles. */
  lemma FirstAskedIsTheMiddle<T(!new)>(comparison: (nat, T, T) -> Answer, keys: seq<T>)
    requires |keys| >= 3
    ensures Ran(comparison, keys).asked != [] && Ran(comparison, keys).asked[0] == (keys[0], keys[(|keys| - 1) / 2])
  {
    hide Crossed;
    var start := Run(keys, [], Done);
    var first := PutInOrder(comparison, start, 0, (|keys| - 1) / 2);
    assert first.asked[0] == (keys[0], keys[(|keys| - 1) / 2]);
    assert first.asked <= Partitioned(comparison, start, 0, |keys| - 1).2.asked <= Ran(comparison, keys).asked;
  }

  /** The pivot is the median of the first, middle and last item, which are left
      in order; no other moves. */
  lemma PivotIsTheMedian<T(!new)>(comparison: (nat, T, T) -> Answer, le: (T, T) -> bool, r: Run<T>, low: int, middle: int, high: int)
    requires TotalPreorder(le) && Agrees(comparison, le) && NeverFaults(comparison) && r.outcome.Done?
    requires 0 <= low <= middle < high < |r.keys|
    ensures var three := ThreeInOrder(comparison, r, low, middle, high);
            && three.outcome.Done?
            && le(three.keys[low], three.keys[middle]) && le(three.keys[middle], three.keys[high])
            && (forall k :: 0 <= k < |r.keys| && k != low && k != middle && k != high ==> three.keys[k] == r.keys[k])
            && multiset(three.keys) == multiset(r.keys)
  {
    PutInOrderOrders(comparison, le, r, low, middle);
    var first := PutInOrder(comparison, r, low, middle);
    PutInOrderOrders(comparison, le, first, low, high);
    var second := PutInOrder(comparison, first, low, high);
    PutInOrderOrders(comparison, le, second, middle, high);
    hide *;
    MedianOfThree(le, r.keys, low, middle, high);
  }

  ghost function InOrder<T>(le: (T, T) -> bool, s: seq<T>, a: int, b: int): (t: seq<T>)
    requires 0 <= a < |s| && 0 <= b < |s|
    ensures |t| == |s|
  {
    if le(s[a], s[b]) then s else Swapped(s, a, b)
  }

  lemma PutInOrderOrders<T(!new)>(comparison: (nat, T, T) -> Answer, le: (T, T) -> bool, r: Run<T>, a: int, b: int)
    requires TotalPreorder(le) && Agrees(comparison, le) && NeverFaults(comparison) && r.outcome.Done?
    requires 0 <= a < |r.keys| && 0 <= b < |r.keys|
    ensures PutInOrder(comparison, r, a, b).outcome.Done? && PutInOrder(comparison, r, a, b).keys == InOrder(le, r.keys, a, b)
  {}

  lemma MedianOfThree<T(!new)>(le: (T, T) -> bool, s: seq<T>, low: int, middle: int, high: int)
    requires TotalPreorder(le) && 0 <= low <= middle < high < |s|
    ensures var t := InOrder(le, InOrder(le, InOrder(le, s, low, middle), low, high), middle, high);
            && le(t[low], t[middle]) && le(t[middle], t[high])
            && (forall k :: 0 <= k < |s| && k != low && k != middle && k != high ==> t[k] == s[k])
            && multiset(t) == multiset(s)
  {
    InOrderRearranges(le, s, low, middle);
    var first := InOrder(le, s, low, middle);
    InOrderRearranges(le, first, low, high);
    var second := InOrder(le, first, low, high);
    InOrderRearranges(le, second, middle, high);
    hide InOrder;
  }

  lemma InOrderRearranges<T(!new)>(le: (T, T) -> bool, s: seq<T>, a: int, b: int)
    requires TotalPreorder(le) && 0 <= a < |s| && 0 <= b < |s|
    ensures var t := InOrder(le, s, a, b);
            && le(t[a], t[b]) && multiset(t) == multiset(s)
            && (forall k :: 0 <= k < |s| && k != a && k != b ==> t[k] == s[k])
            && (if le(s[a], s[b]) then t[a] == s[a] && t[b] == s[b] else t[a] == s[b] && t[b] == s[a])
  {}

  ghost predicate AllAlike<T(!new)>(comparison: (nat, T, T) -> Answer) {
    forall n, a, b :: comparison(n, a, b) == Value(0)
  }

  /** Where the item that ends at `k` stood, in a list turned about and then
      each of its halves likewise, down to single items. */
  ghost function CameFrom(n: nat, k: nat): (origin: nat)
    requires k < n
    ensures origin < n
    decreases n
  {
    var half := n / 2;
    if k < half then n - 1 - CameFrom(half, k)
    else if k >= n - half then half - 1 - CameFrom(half, k - (n - half))
    else k
  }

  /** `t` is `s` with the items from `left` to `right` so moved. */
  ghost predicate TurnedAbout<T>(s: seq<T>, t: seq<T>, left: int, right: int) {
    && 0 <= left && right < |s| == |t|
    && (forall k {:trigger t[k]} :: left <= k <= right ==> t[k] == s[left + CameFrom(right - left + 1, k - left)])
    && (forall k {:trigger t[k]} :: 0 <= k < |s| && !(left <= k <= right) ==> t[k] == s[k])
  }

  ghost function Power(n: nat): (p: nat)
    ensures p >= 1
  {
    if n == 0 then 1 else 2 * Power(n - 1)
  }

  lemma ThreeAlike<T(!new)>(comparison: (nat, T, T) -> Answer, r: Run<T>, low: int, middle: int, high: int)
    requires AllAlike(comparison) && r.outcome.Done?
    requires 0 <= low < |r.keys| && 0 <= middle < |r.keys| && 0 <= high < |r.keys|
    ensures ThreeInOrder(comparison, r, low, middle, high).keys == r.keys
    ensures ThreeInOrder(comparison, r, low, middle, high).outcome.Done?
  {}

  /** Nothing stops a sweep later than where it starts. */
  lemma PairAlike<T(!new)>(comparison: (nat, T, T) -> Answer, r: Run<T>, i: int, j: int, pivot: T) returns (next: Run<T>)
    requires AllAlike(comparison) && r.outcome.Done? && 0 <= i <= j < |r.keys|
    ensures next.outcome.Done? && next.keys == Swapped(r.keys, i, j)
    ensures Crossed(comparison, r, i, j, pivot) == Crossed(comparison, next, i + 1, j - 1, pivot)
  {
    hide Crossed, SweptRight, SweptLeft, Swapped;
    RightStep(comparison, r, i, pivot);
    var right := SweptRight(comparison, r, i, pivot);
    LeftStep(comparison, right.1, j, pivot);
    var left := SweptLeft(comparison, right.1, j, pivot);
    CrossStep(comparison, r, i, j, pivot);
    next := left.1.(keys := Swapped(r.keys, i, j));
  }

  /** `t` is `s` with the items from `i` to `j` turned about. */
  ghost predicate Turned<T>(s: seq<T>, t: seq<T>, i: int, j: int) {
    && 0 <= i && j < |s| == |t|
    && (forall k {:trigger t[k]} :: i <= k <= j ==> t[k] == s[i + j - k])
    && (forall k {:trigger t[k]} :: 0 <= k < |s| && !(i <= k <= j) ==> t[k] == s[k])
  }

  lemma TurnedFromInside<T>(s: seq<T>, t: seq<T>, i: int, j: int)
    requires 0 <= i <= j < |s| && Turned(Swapped(s, i, j), t, i + 1, j - 1)
    ensures Turned(s, t, i, j)
  {
    var u := Swapped(s, i, j);
    forall k | i <= k <= j ensures t[k] == s[i + j - k] {
      if i < k < j { assert t[k] == u[i + j - k]; } else { assert t[k] == u[k]; }
    }
    forall k | 0 <= k < |s| && !(i <= k <= j) ensures t[k] == s[k] { assert t[k] == u[k]; }
  }

  lemma {:induction false} CrossedAlike<T(!new)>(comparison: (nat, T, T) -> Answer, r: Run<T>, i: int, j: int, pivot: T)
    requires AllAlike(comparison) && r.outcome.Done? && 0 <= i && j < |r.keys| && i <= j + 2
    ensures var crossed := Crossed(comparison, r, i, j, pivot);
            && crossed.2.outcome.Done? && Turned(r.keys, crossed.2.keys, i, j)
            && crossed.0 - i == j - crossed.1 && (crossed.0 - crossed.1 == 1 || crossed.0 - crossed.1 == 2)
    decreases j - i + 1
  {
    if i <= j {
      var next := PairAlike(comparison, r, i, j, pivot);
      hide *;
      CrossedAlike(comparison, next, i + 1, j - 1, pivot);
      TurnedFromInside(r.keys, Crossed(comparison, next, i + 1, j - 1, pivot).2.keys, i, j);
    }
  }

  lemma PartitionAlike<T(!new)>(comparison: (nat, T, T) -> Answer, r: Run<T>, left: int, right: int)
    requires AllAlike(comparison) && r.outcome.Done? && 0 <= left < right < |r.keys|
    ensures var parted := Partitioned(comparison, r, left, right);
            && parted.2.outcome.Done? && Turned(r.keys, parted.2.keys, left, right)
            && parted.0 == right + 1 - (right - left + 1) / 2 && parted.1 == left + (right - left + 1) / 2 - 1
  {
    hide ThreeInOrder, Crossed, Turned;
    ThreeAlike(comparison, r, left, left + (right - left) / 2, right);
    var three := ThreeInOrder(comparison, r, left, left + (right - left) / 2, right);
    CrossedAlike(comparison, three, left, right, r.keys[left + (right - left) / 2]);
  }

  /** A stretch turned about, then its left half, then its right half. */
  lemma HalvesFit<T>(s: seq<T>, left: int, right: int, turned: seq<T>, first: seq<T>, second: seq<T>)
    requires 0 <= left < right < |s|
    requires Turned(s, turned, left, right)
    requires var half := (right - left + 1) / 2;
             TurnedAbout(turned, first, left, left + half - 1) && TurnedAbout(first, second, right + 1 - half, right)
    ensures TurnedAbout(s, second, left, right)
  {
    HalvesFitEverywhere(s, left, right, turned, first, second);
    hide Turned, CameFrom;
  }

  lemma HalvesFitEverywhere<T>(s: seq<T>, left: int, right: int, turned: seq<T>, first: seq<T>, second: seq<T>)
    requires 0 <= left < right < |s|
    requires Turned(s, turned, left, right)
    requires var half := (right - left + 1) / 2;
             TurnedAbout(turned, first, left, left + half - 1) && TurnedAbout(first, second, right + 1 - half, right)
    ensures |second| == |s|
    ensures forall k {:trigger second[k]} :: 0 <= k < |s| ==>
              second[k] == if left <= k <= right then s[left + CameFrom(right - left + 1, k - left)] else s[k]
  {
    hide *;
    if |second| != |s| { HalvesFitAt(s, left, right, turned, first, second, 0); }
    forall k {:trigger second[k]} | 0 <= k < |s|
      ensures second[k] == if left <= k <= right then s[left + CameFrom(right - left + 1, k - left)] else s[k]
    {
      HalvesFitAt(s, left, right, turned, first, second, k);
    }
  }

  lemma HalvesFitAt<T>(s: seq<T>, left: int, right: int, turned: seq<T>, first: seq<T>, second: seq<T>, k: int)
    requires 0 <= left < right < |s| && 0 <= k < |s|
    requires Turned(s, turned, left, right)
    requires var half := (right - left + 1) / 2;
             TurnedAbout(turned, first, left, left + half - 1) && TurnedAbout(first, second, right + 1 - half, right)
    ensures |second| == |s|
    ensures second[k] == if left <= k <= right then s[left + CameFrom(right - left + 1, k - left)] else s[k]
  {
    hide CameFrom;
    var n, half := right - left + 1, (right - left + 1) / 2;
    if left <= k <= right {
      CameFromAHalf(n, k - left);
      if k < left + half {
        var at := left + CameFrom(half, k - left);
        assert second[k] == first[k] == turned[at] == s[left + right - at];
      } else if k > right - half {
        var at := right + 1 - half + CameFrom(half, k - left - (n - half));
        assert second[k] == first[at] == turned[at] == s[left + right - at];
      }
    }
  }

  lemma CameFromAHalf(n: nat, k: nat)
    requires k < n
    ensures var half := n / 2;
            CameFrom(n, k) == if k < half then n - 1 - CameFrom(half, k) else if k >= n - half then half - 1 - CameFrom(half, k - (n - half)) else k
  {}

  /** Items that all compare equal are not left as they stood. */
  lemma {:induction false} StretchAlike<T(!new)>(comparison: (nat, T, T) -> Answer, r: Run<T>, left: int, right: int, depth: nat)
    requires AllAlike(comparison) && r.outcome.Done? && 0 <= left <= right + 1 <= |r.keys|
    requires right - left + 1 <= Power(depth)
    ensures QuickSorted(comparison, r, left, right, depth).outcome.Done?
    ensures TurnedAbout(r.keys, QuickSorted(comparison, r, left, right, depth).keys, left, right)
    decreases depth
  {
    hide *;
    if left < right {
      PartitionAlike(comparison, r, left, right);
      var parted := Partitioned(comparison, r, left, right);
      var i, j, r1 := parted.0, parted.1, parted.2;
      Halved(right - left + 1, depth);
      LeftThenRight(comparison, r, left, right, depth);
      StretchAlike(comparison, r1, left, j, depth - 1);
      var r2 := QuickSorted(comparison, r1, left, j, depth - 1);
      StretchAlike(comparison, r2, i, right, depth - 1);
      HalvesFit(r.keys, left, right, r1.keys, r2.keys, QuickSorted(comparison, r2, i, right, depth - 1).keys);
    } else {
      ShortIsLeft(comparison, r, left, right, depth);
    }
  }

  lemma ShortIsLeft<T(!new)>(comparison: (nat, T, T) -> Answer, r: Run<T>, left: int, right: int, depth: nat)
    requires r.outcome.Done? && 0 <= left && right < |r.keys| && left >= right
    ensures QuickSorted(comparison, r, left, right, depth) == r && TurnedAbout(r.keys, r.keys, left, right)
  {}

  /** Of two sides alike in length the left one goes first. */
  lemma LeftThenRight<T(!new)>(comparison: (nat, T, T) -> Answer, r: Run<T>, left: int, right: int, depth: nat)
    requires r.outcome.Done? && 0 <= left < right < |r.keys| && depth > 0
    requires var parted := Partitioned(comparison, r, left, right);
             parted.2.outcome.Done? && parted.1 - left <= right - parted.0
    ensures var parted := Partitioned(comparison, r, left, right);
            var first := QuickSorted(comparison, parted.2, left, parted.1, depth - 1);
            first.outcome.Done? ==>
              QuickSorted(comparison, r, left, right, depth) == QuickSorted(comparison, first, parted.0, right, depth - 1)
  {
    hide Partitioned;
  }

  lemma Halved(n: nat, depth: nat)
    requires 2 <= n <= Power(depth)
    ensures depth > 0 && n / 2 <= Power(depth - 1)
  {}

  /** A list of items that all compare equal is turned about, and its halves
      likewise, down to single items. */
  lemma AlikeAreTurnedAbout<T(!new)>(comparison: (nat, T, T) -> Answer, keys: seq<T>)
    requires AllAlike(comparison) && |keys| <= 0x1_0000_0000
    ensures var r := Ran(comparison, keys);
            r.outcome.Done? && forall k :: 0 <= k < |keys| ==> r.keys[k] == keys[CameFrom(|keys|, k)]
  {
    hide AllAlike, QuickSorted;
    PowerOfTheDepth();
    hide Power;
    StretchAlike(comparison, Run(keys, [], Done), 0, |keys| - 1, DEPTH_LIMIT);
  }

  lemma {:induction false} PowerAdds(m: nat, n: nat)
    ensures Power(m + n) == Power(m) * Power(n)
  {
    if m > 0 { PowerAdds(m - 1, n); }
  }

  lemma PowerOfTheDepth()
    ensures Power(DEPTH_LIMIT) == 0x1_0000_0000
  {
    assert Power(8) == 0x100 by { assert Power(4) == 16; PowerAdds(4, 4); }
    PowerAdds(8, 8);
    PowerAdds(16, 16);
  }

  // ----- how often it asks -----

  /** The whole part of the logarithm to base two. */
  ghost function Log(n: nat): (l: nat) {
    if n < 2 then 0 else 1 + Log(n / 2)
  }

  lemma {:induction false} LogGrows(m: nat, n: nat)
    requires m <= n
    ensures Log(m) <= Log(n)
    decreases n
  {
    if m >= 2 { LogGrows(m / 2, n / 2); }
  }

  lemma LogOfAChild(i: nat, child: nat)
    requires 1 <= i && child / 2 == i
    ensures Log(child) == Log(i) + 1
  {}

  /** What a stretch of `n` items may cost: five questions an item for each
      level of the quicksort, and three for each of the heap. */
  ghost function Budget(n: nat, depth: nat): nat { 5 * (n * depth) + 3 * (n * Log(n)) }

  lemma BudgetSplits(n: nat, depth: nat, a: nat, b: nat)
    requires a + b <= n && depth > 0
    ensures 5 * n + Budget(a, depth - 1) + Budget(b, depth - 1) <= Budget(n, depth)
  {
    hide Log;
    LogGrows(a, n);
    LogGrows(b, n);
    var l := Log(n);
    ProductGrows(a, Log(a), l);
    ProductGrows(b, Log(b), l);
    PartsOfAProduct(n, a, b, l);
    PartsOfAProduct(n, a, b, depth - 1);
    assert n * (depth - 1) == n * depth - n;
  }

  lemma ProductGrows(a: nat, k: nat, l: nat)
    requires k <= l
    ensures a * k <= a * l
  {}

  lemma PartsOfAProduct(n: nat, a: nat, b: nat, k: nat)
    requires a + b <= n
    ensures a * k + b * k <= n * k
  {
    assert n * k == a * k + b * k + (n - a - b) * k;
  }

  lemma {:induction false} SweptRightStops<T(!new)>(comparison: (nat, T, T) -> Answer, le: (T, T) -> bool, r: Run<T>, i: int, stop: int, pivot: T)
    requires Agrees(comparison, le) && 0 <= i <= stop < |r.keys| && le(pivot, r.keys[stop])
    ensures var swept := SweptRight(comparison, r, i, pivot);
            && !swept.1.outcome.OutOfRange? && i <= swept.0 <= stop
            && |swept.1.asked| <= |r.asked| + swept.0 - i + 1
            && (swept.1.outcome.Done? ==> le(pivot, r.keys[swept.0]))
    decreases stop - i
  {
    RightStep(comparison, r, i, pivot);
    var r' := Asking(comparison, r, r.keys[i], pivot);
    if r'.outcome.Done? && Sign(comparison, r, r.keys[i], pivot) < 0 {
      SweptRightStops(comparison, le, r', i + 1, stop, pivot);
    }
  }

  lemma {:induction false} SweptLeftStops<T(!new)>(comparison: (nat, T, T) -> Answer, le: (T, T) -> bool, r: Run<T>, j: int, stop: int, pivot: T)
    requires Agrees(comparison, le) && 0 <= stop <= j < |r.keys| && le(r.keys[stop], pivot)
    ensures var swept := SweptLeft(comparison, r, j, pivot);
            && !swept.1.outcome.OutOfRange? && stop <= swept.0 <= j
            && |swept.1.asked| <= |r.asked| + j - swept.0 + 1
            && (swept.1.outcome.Done? ==> le(r.keys[swept.0], pivot))
    decreases j - stop
  {
    LeftStep(comparison, r, j, pivot);
    var r' := Asking(comparison, r, pivot, r.keys[j]);
    if r'.outcome.Done? && Sign(comparison, r, pivot, r.keys[j]) < 0 {
      SweptLeftStops(comparison, le, r', j - 1, stop, pivot);
    }
  }

  /** Sweeps with an item in each one's path that stops it stay within the
      stretch, and ask about each item once, but for where they cross. */
  lemma {:induction false} CrossedAsks<T(!new)>(comparison: (nat, T, T) -> Answer, le: (T, T) -> bool, r: Run<T>, lo: int, hi: int, i: int, j: int,
      leftStop: int, rightStop: int, pivot: T)
    requires Agrees(comparison, le) && !r.outcome.OutOfRange?
    requires 0 <= lo <= i <= hi + 1 && lo - 1 <= j <= hi < |r.keys|
    requires i <= j ==> i <= leftStop <= hi && lo <= rightStop <= j && le(pivot, r.keys[leftStop]) && le(r.keys[rightStop], pivot)
    ensures var crossed := Crossed(comparison, r, i, j, pivot);
            && !crossed.2.outcome.OutOfRange? && i <= crossed.0 <= hi + 1 && lo - 1 <= crossed.1 <= j
            && |crossed.2.asked| <= |r.asked| + (crossed.0 - i) + (j - crossed.1) + 2
    decreases if i <= j then j - i + 1 else 0
  {
    hide Crossed, SweptRight, SweptLeft, Agrees;
    if i > j {
      CrossEnd(comparison, r, i, j, pivot);
    } else {
      CrossStep(comparison, r, i, j, pivot);
      SweptRightStops(comparison, le, r, i, leftStop, pivot);
      var right := SweptRight(comparison, r, i, pivot);
      if right.1.outcome.Done? {
        SweptLeftStops(comparison, le, right.1, j, rightStop, pivot);
        var left := SweptLeft(comparison, right.1, j, pivot);
        if left.1.outcome.Done? && right.0 <= left.0 {
          CrossedAsks(comparison, le, left.1.(keys := Swapped(r.keys, right.0, left.0)), lo, hi, right.0 + 1, left.0 - 1, left.0, right.0, pivot);
        }
      }
    }
  }

  lemma PartitionAsks<T(!new)>(comparison: (nat, T, T) -> Answer, le: (T, T) -> bool, r: Run<T>, left: int, right: int)
    requires TotalPreorder(le) && Agrees(comparison, le) && r.outcome.Done? && 0 <= left < right < |r.keys|
    ensures var parted := Partitioned(comparison, r, left, right);
            && |parted.2.asked| <= |r.asked| + 5 * (right - left + 1)
            && (parted.2.outcome.Done? ==> left <= parted.0 <= right + 1 && left - 1 <= parted.1 <= right)
  {
    var middle := left + (right - left) / 2;
    var three := ThreeInOrder(comparison, r, left, middle, right);
    ThreeAsks(comparison, r, left, middle, right);
    Reflexive(le, three.keys[middle]);
    hide ThreeInOrder, Crossed, Agrees, TotalPreorder;
    if three.outcome.Done? {
      CrossedAsks(comparison, le, three, left, right, left, right, middle, middle, three.keys[middle]);
    }
  }

  lemma Reflexive<T(!new)>(le: (T, T) -> bool, x: T)
    requires TotalPreorder(le)
    ensures le(x, x)
  {}

  lemma ThreeAsks<T>(comparison: (nat, T, T) -> Answer, r: Run<T>, low: int, middle: int, high: int)
    requires r.outcome.Done? && 0 <= low < |r.keys| && 0 <= middle < |r.keys| && 0 <= high < |r.keys|
    ensures |ThreeInOrder(comparison, r, low, middle, high).asked| <= |r.asked| + 3
    ensures !ThreeInOrder(comparison, r, low, middle, high).outcome.OutOfRange?
  {}

  lemma {:induction false} SunkAsks<T>(comparison: (nat, T, T) -> Answer, r: Run<T>, i: int, n: int, lo: int, d: T)
    requires 0 <= lo && 1 <= i <= n && lo + n <= |r.keys|
    ensures |Sunk(comparison, r, i, n, lo, d).asked| <= |r.asked| + 2 * (Log(n) - Log(i))
    decreases n - i
  {
    hide Sunk, Log;
    LogGrows(i, n);
    if i > n / 2 {
      SinkEnd(comparison, r, i, n, lo, d);
    } else {
      SinkStep(comparison, r, i, n, lo, d);
      var child := Greater(comparison, r, i, n, lo);
      LogOfAChild(i, child.0);
      LogGrows(child.0, n);
      var c := r.keys[lo + child.0 - 1];
      var r' := Asking(comparison, child.1, d, c);
      SunkAsks(comparison, r'.(keys := r.keys[lo + i - 1 := c]), child.0, n, lo, d);
    }
  }

  lemma {:induction false} HeapedAsks<T>(comparison: (nat, T, T) -> Answer, r: Run<T>, i: int, n: int, lo: int)
    requires 0 <= lo && 0 <= i <= n && lo + n <= |r.keys|
    ensures |Heaped(comparison, r, i, n, lo).asked| <= |r.asked| + 2 * (i * Log(n))
    decreases i
  {
    hide Sunk, Log;
    if i > 0 {
      SunkAsks(comparison, r, i, n, lo, r.keys[lo + i - 1]);
      var r' := Sunk(comparison, r, i, n, lo, r.keys[lo + i - 1]);
      HeapedAsks(comparison, r', i - 1, n, lo);
      assert (i - 1) * Log(n) == i * Log(n) - Log(n) >= 0;
    }
  }

  lemma {:induction false} EmptiedAsks<T>(comparison: (nat, T, T) -> Answer, r: Run<T>, i: int, n: int, lo: int)
    requires 0 <= lo && 1 <= i <= n && lo + i <= |r.keys|
    ensures |Emptied(comparison, r, i, lo).asked| <= |r.asked| + 2 * (i * Log(n))
    decreases i
  {
    hide Sunk, Log;
    if i > 1 {
      var keys := Swapped(r.keys, lo, lo + i - 1);
      SunkAsks(comparison, r.(keys := keys), 1, i - 1, lo, keys[lo]);
      LogGrows(i - 1, n);
      EmptiedAsks(comparison, Sunk(comparison, r.(keys := keys), 1, i - 1, lo, keys[lo]), i - 1, n, lo);
      assert (i - 1) * Log(n) == i * Log(n) - Log(n) >= 0;
    } else {
      assert i * Log(n) >= 0;
    }
  }

  lemma HeapSortAsks<T>(comparison: (nat, T, T) -> Answer, r: Run<T>, lo: int, hi: int)
    requires 0 <= lo <= hi < |r.keys|
    ensures |HeapSorted(comparison, r, lo, hi).asked| <= |r.asked| + Budget(hi - lo + 1, 0)
  {
    hide Heaped, Emptied, Log;
    var n := hi - lo + 1;
    HeapedAsks(comparison, r, n / 2, n, lo);
    EmptiedAsks(comparison, Heaped(comparison, r, n / 2, n, lo), n, n, lo);
    ProductOfHalves(n, Log(n));
  }

  lemma ProductOfHalves(n: nat, k: nat)
    ensures 2 * ((n / 2) * k) <= n * k
  {
    PartsOfAProduct(n, n / 2, n / 2, k);
  }

  lemma {:induction false} QuickSortAsks<T(!new)>(comparison: (nat, T, T) -> Answer, le: (T, T) -> bool, r: Run<T>, left: int, right: int, depth: nat)
    requires TotalPreorder(le) && Agrees(comparison, le) && r.outcome.Done? && 0 <= left <= right + 1 <= |r.keys|
    ensures |QuickSorted(comparison, r, left, right, depth).asked| <= |r.asked| + Budget(right - left + 1, depth)
    decreases depth
  {
    hide TotalPreorder, Agrees, Partitioned, HeapSorted, Budget;
    if left < right {
      if depth == 0 {
        HeapSortAsks(comparison, r, left, right);
      } else {
        PartitionAsks(comparison, le, r, left, right);
        var parted := Partitioned(comparison, r, left, right);
        var i, j, r1 := parted.0, parted.1, parted.2;
        BudgetSplits(right - left + 1, depth, if r1.outcome.Done? then j - left + 1 else 0, if r1.outcome.Done? then right - i + 1 else 0);
        if r1.outcome.Done? {
          var leftFirst := j - left <= right - i;
          var r2 := if leftFirst then QuickSorted(comparison, r1, left, j, depth - 1) else QuickSorted(comparison, r1, i, right, depth - 1);
          if leftFirst { QuickSortAsks(comparison, le, r1, left, j, depth - 1); } else { QuickSortAsks(comparison, le, r1, i, right, depth - 1); }
          if r2.outcome.Done? {
            if leftFirst { QuickSortAsks(comparison, le, r2, i, right, depth - 1); } else { QuickSortAsks(comparison, le, r2, left, j, depth - 1); }
          }
        }
      }
    }
  }

  /** A comparison that does not contradict itself is asked no more often than
      is the bound of the two sorts together, however the list is made up. */
  lemma SortAsksAtMost<T(!new)>(comparison: (nat, T, T) -> Answer, le: (T, T) -> bool, keys: seq<T>)
    requires TotalPreorder(le) && Agrees(comparison, le)
    ensures |Ran(comparison, keys).asked| <= |keys| * (160 + 3 * Log(|keys|))
  {
    hide QuickSorted, Log, TotalPreorder, Agrees;
    QuickSortAsks(comparison, le, Run(keys, [], Done), 0, |keys| - 1, DEPTH_LIMIT);
    WholeBudget(|keys|, Log(|keys|));
  }

  lemma WholeBudget(n: nat, l: nat)
    ensures 5 * (n * DEPTH_LIMIT) + 3 * (n * l) == n * (160 + 3 * l)
  {}

  // ----- how deep it nests -----

  /** How many passes are under way at once: the smaller side is a pass within
      the one under way, the larger side goes on with it. */
  ghost function Nested<T>(comparison: (nat, T, T) -> Answer, r: Run<T>, left: int, right: int, depth: nat): (deep: nat)
    requires r.outcome.Done? && 0 <= left && right < |r.keys|
    decreases depth
  {
    if left >= right then 0
    else if depth == 0 then 1
    else
      var parted := Partitioned(comparison, r, left, right);
      var i, j, r1 := parted.0, parted.1, parted.2;
      if !r1.outcome.Done? then 1
      else
        var leftFirst := j - left <= right - i;
        var from, to := if leftFirst then left else i, if leftFirst then j else right;
        var inner := 1 + Nested(comparison, r1, from, to, depth - 1);
        var r2 := QuickSorted(comparison, r1, from, to, depth - 1);
        if !r2.outcome.Done? then inner
        else
          var rest := if leftFirst then Nested(comparison, r2, i, right, depth - 1) else Nested(comparison, r2, left, j, depth - 1);
          if rest > inner then rest else inner
  }

  /** Whatever the comparison answers, passes nest no deeper than the logarithm
      of the list's length. */
  lemma {:induction false} NestingIsLow<T(!new)>(comparison: (nat, T, T) -> Answer, r: Run<T>, left: int, right: int, depth: nat)
    requires r.outcome.Done? && 0 <= left <= right && right < |r.keys|
    ensures Power(Nested(comparison, r, left, right, depth)) <= right - left + 1
    decreases depth
  {
    hide Partitioned, QuickSorted;
    if left < right && depth > 0 {
      var parted := Partitioned(comparison, r, left, right);
      var i, j, r1 := parted.0, parted.1, parted.2;
      if r1.outcome.Done? {
        var leftFirst := j - left <= right - i;
        var from, to := if leftFirst then left else i, if leftFirst then j else right;
        if from <= to { NestingIsLow(comparison, r1, from, to, depth - 1); }
        var r2 := QuickSorted(comparison, r1, from, to, depth - 1);
        if r2.outcome.Done? {
          if leftFirst && i <= right { NestingIsLow(comparison, r2, i, right, depth - 1); }
          if !leftFirst && left <= j { NestingIsLow(comparison, r2, left, j, depth - 1); }
        }
      }
    }
  }
}
