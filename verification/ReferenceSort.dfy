/** The sort behind `listsort`: a depth-limited quicksort that falls back to a
    heapsort, run over an array in place under a comparison supplied by the
    user's own expression.  The comparison is any function of the call's number
    and of the two items, so it may contradict itself from one call to the next,
    or raise a fault. */
module ReferenceSort {

  import opened SortReference

  datatype SortResult = Sorted | Refused(fault: Fault)

  const INCONSISTENT: Fault :=
    Runtime("Unable to sort because the comparison returns inconsistent results. Either a value does not compare equal to itself, or one value repeatedly compared to another value yields different results.", true)

  const COMPARISON_FAILED: Fault := Runtime("Failed to compare two elements in the array.", false)

  /** What the caller is told when the comparison itself raised `fault`: that, or
      for a runtime error that is not about an argument, that it failed. */
  function Surfaced(fault: Fault): (surfaced: Fault)
    ensures fault.Runtime? && !fault.argument ==> surfaced == COMPARISON_FAILED
    ensures !fault.Runtime? || fault.argument ==> surfaced == fault
  {
    match fault
    case Cancelled => fault
    case Expression(_) => fault
    case Runtime(_, argument) => if argument then fault else COMPARISON_FAILED
  }

  function Told(outcome: Outcome): SortResult {
    match outcome
    case Done => Sorted
    case OutOfRange => Refused(INCONSISTENT)
    case Faulted(fault) => Refused(Surfaced(fault))
  }

  /** What the call numbered `n` was answered. */
  ghost function AnswerTo<T>(comparison: (nat, T, T) -> Answer, asked: seq<(T, T)>, n: nat): Answer
    requires n < |asked|
  {
    comparison(n, asked[n].0, asked[n].1)
  }

  /** A fault is the answer to the last call, and ends the pass. */
  ghost predicate Answered<T>(comparison: (nat, T, T) -> Answer, asked: seq<(T, T)>, outcome: Outcome) {
    && (outcome.Faulted? ==> asked != [] && AnswerTo(comparison, asked, |asked| - 1) == Raised(outcome.fault))
    && (forall n :: 0 <= n < (if outcome.Faulted? then |asked| - 1 else |asked|) ==> AnswerTo(comparison, asked, n).Value?)
  }

  ghost predicate SortedSlice<T>(s: seq<T>, lo: int, hi: int, le: (T, T) -> bool) {
    forall x, y :: 0 <= lo <= x < y < hi <= |s| ==> le(s[x], s[y])
  }

  // ----- rearranging one stretch of a list -----

  /** `t` is `s` with the items from `lo` up to `hi` rearranged. */
  ghost predicate Rearranged<T>(s: seq<T>, t: seq<T>, lo: int, hi: int) {
    && 0 <= lo <= hi <= |s| == |t|
    && s[..lo] == t[..lo]
    && s[hi..] == t[hi..]
    && multiset(s[lo..hi]) == multiset(t[lo..hi])
  }

  lemma RearrangedFrame<T>(s: seq<T>, t: seq<T>, lo: int, hi: int)
    requires Rearranged(s, t, lo, hi)
    ensures forall k :: (0 <= k < lo || hi <= k < |s|) ==> s[k] == t[k]
  {
    forall k | 0 <= k < lo || hi <= k < |s| ensures s[k] == t[k] {
      if k < lo {
        assert s[k] == s[..lo][k] && t[k] == t[..lo][k];
      } else {
        assert s[k] == s[hi..][k - hi] && t[k] == t[hi..][k - hi];
      }
    }
  }

  lemma RearrangedReflexive<T>(s: seq<T>, lo: int, hi: int)
    requires 0 <= lo <= hi <= |s|
    ensures Rearranged(s, s, lo, hi)
  {}

  lemma RearrangedTransitive<T>(s: seq<T>, t: seq<T>, u: seq<T>, lo: int, hi: int)
    requires Rearranged(s, t, lo, hi) && Rearranged(t, u, lo, hi)
    ensures Rearranged(s, u, lo, hi)
  {}

  lemma RearrangedWiden<T>(s: seq<T>, t: seq<T>, lo: int, hi: int, lo': int, hi': int)
    requires Rearranged(s, t, lo, hi)
    requires 0 <= lo' <= lo && hi <= hi' <= |s|
    ensures Rearranged(s, t, lo', hi')
  {
    RearrangedFrame(s, t, lo, hi);
    assert s[lo'..hi'] == s[lo'..lo] + s[lo..hi] + s[hi..hi'];
    assert t[lo'..hi'] == t[lo'..lo] + t[lo..hi] + t[hi..hi'];
    assert s[lo'..lo] == t[lo'..lo] && s[hi..hi'] == t[hi..hi'];
  }

  /** Every item of the rearranged stretch stood somewhere in it before. */
  lemma RearrangedOrigin<T>(s: seq<T>, t: seq<T>, lo: int, hi: int, k: int) returns (origin: int)
    requires Rearranged(s, t, lo, hi) && lo <= k < hi
    ensures lo <= origin < hi && s[origin] == t[k]
  {
    assert t[k] == t[lo..hi][k - lo];
    assert t[k] in multiset(t[lo..hi]);
    assert t[k] in s[lo..hi];
    var at :| 0 <= at < hi - lo && s[lo..hi][at] == t[k];
    origin := lo + at;
  }

  lemma WholeRearranged<T>(s: seq<T>, t: seq<T>)
    requires Rearranged(s, t, 0, |s|)
    ensures multiset(s) == multiset(t)
  {
    assert s[0..|s|] == s && t[0..|s|] == t;
  }

  lemma SwapRearranges<T>(s: seq<T>, a: int, b: int, lo: int, hi: int)
    requires 0 <= lo <= a < hi <= |s| && lo <= b < hi
    ensures Rearranged(s, Swapped(s, a, b), lo, hi)
  {
    var t := Swapped(s, a, b);
    assert s[..lo] == t[..lo] && s[hi..] == t[hi..];
    assert t[lo..hi] == s[lo..hi][a - lo := s[b]][b - lo := s[a]];
  }

  /** A property of every item of a stretch survives its rearrangement. */
  lemma RearrangedKeeps<T>(s: seq<T>, t: seq<T>, lo: int, hi: int, p: T -> bool)
    requires Rearranged(s, t, lo, hi)
    requires forall k :: lo <= k < hi ==> p(s[k])
    ensures forall k :: lo <= k < hi ==> p(t[k])
  {
    forall k | lo <= k < hi ensures p(t[k]) {
      var origin := RearrangedOrigin(s, t, lo, hi, k);
    }
  }

  // ----- the quicksort's bookkeeping -----

  /** Within `first..last`, only pairs lying together inside `lo..hi` may
      still be out of order. */
  ghost predicate SettledOutside<T>(s: seq<T>, first: int, last: int, lo: int, hi: int, le: (T, T) -> bool) {
    forall x, y :: 0 <= first <= x < y <= last < |s| && !(lo <= x && y <= hi) ==> le(s[x], s[y])
  }

  /** What one partition leaves: `..i` below the pivot, `j..` above it. */
  ghost predicate Split<T>(s: seq<T>, lo: int, hi: int, i: int, j: int, pivot: T, le: (T, T) -> bool) {
    && (forall k :: 0 <= lo <= k < i && k <= hi < |s| ==> le(s[k], pivot))
    && (forall k :: 0 <= lo <= k <= hi < |s| && j < k ==> le(pivot, s[k]))
  }

  lemma SettledAfterRearranging<T>(s: seq<T>, t: seq<T>, first: int, last: int, lo: int, hi: int, le: (T, T) -> bool)
    requires 0 <= first <= lo <= hi <= last < |s|
    requires SettledOutside(s, first, last, lo, hi, le)
    requires Rearranged(s, t, lo, hi + 1)
    ensures SettledOutside(t, first, last, lo, hi, le)
  {
    RearrangedFrame(s, t, lo, hi + 1);
    forall x, y | first <= x < y <= last && !(lo <= x && y <= hi) ensures le(t[x], t[y]) {
      var x', y' := x, y;
      if lo <= x <= hi { x' := RearrangedOrigin(s, t, lo, hi + 1, x); }
      if lo <= y <= hi { y' := RearrangedOrigin(s, t, lo, hi + 1, y); }
      assert le(s[x'], s[y']);
    }
  }

  lemma SplitAfterRearranging<T(!new)>(s: seq<T>, t: seq<T>, lo: int, hi: int, i: int, j: int, from: int, to: int, pivot: T, le: (T, T) -> bool)
    requires 0 <= lo <= hi < |s| && j < i && lo - 1 <= j <= hi && lo <= i <= hi + 1
    requires Split(s, lo, hi, i, j, pivot, le)
    requires Rearranged(s, t, from, to)
    requires (from == lo && to == j + 1) || (from == i && to == hi + 1)
    ensures Split(t, lo, hi, i, j, pivot, le)
  {
    RearrangedFrame(s, t, from, to);
    if from == lo && to == j + 1 {
      RearrangedKeeps(s, t, from, to, x => le(x, pivot));
    } else {
      RearrangedKeeps(s, t, from, to, x => le(pivot, x));
    }
  }

  /** One side sorted, the pass goes on with the other. */
  lemma SettledNarrows<T(!new)>(s: seq<T>, first: int, last: int, lo: int, hi: int, i: int, j: int, lo': int, hi': int, pivot: T, le: (T, T) -> bool)
    requires TotalPreorder(le)
    requires 0 <= first <= lo <= hi <= last < |s| && j < i && lo - 1 <= j <= hi && lo <= i <= hi + 1
    requires SettledOutside(s, first, last, lo, hi, le)
    requires Split(s, lo, hi, i, j, pivot, le)
    requires (lo' == i && hi' == hi && SortedSlice(s, lo, j + 1, le)) || (lo' == lo && hi' == j && SortedSlice(s, i, hi + 1, le))
    ensures SettledOutside(s, first, last, lo', hi', le)
  {
    forall x, y | first <= x < y <= last && !(lo' <= x && y <= hi') ensures le(s[x], s[y]) {
      if lo <= x && y <= hi {
        if lo' == i && hi' == hi && SortedSlice(s, lo, j + 1, le) {
          if j < y { assert le(s[x], pivot) && le(pivot, s[y]); }
        } else {
          if x < i { assert le(s[x], pivot) && le(pivot, s[y]); }
        }
      }
    }
  }

  /** A sweep under way from both ends, with an item standing in each one's
      path that will stop it. */
  ghost predicate Sweeping<T>(s: seq<T>, lo: int, hi: int, i: int, j: int, leftStop: int, rightStop: int, pivot: T, le: (T, T) -> bool) {
    && 0 <= lo <= i <= leftStop <= hi < |s|
    && lo <= rightStop <= j <= hi
    && le(pivot, s[leftStop]) && le(s[rightStop], pivot)
    && Split(s, lo, hi, i, j, pivot, le)
  }

  lemma SweepSwaps<T>(s: seq<T>, lo: int, hi: int, i: int, j: int, leftStop: int, rightStop: int, pivot: T, le: (T, T) -> bool)
    requires Sweeping(s, lo, hi, i, j, leftStop, rightStop, pivot, le)
    requires i <= j && le(pivot, s[i]) && le(s[j], pivot)
    ensures var t := Swapped(s, i, j);
            && Split(t, lo, hi, i + 1, j - 1, pivot, le)
            && (i + 1 <= j - 1 ==> Sweeping(t, lo, hi, i + 1, j - 1, j, i, pivot, le))
  {}

  // ----- the heap's bookkeeping -----

  /** The item at one-based heap position `k` of the stretch from `lo`. */
  ghost predicate HeapAbove<T>(s: seq<T>, lo: int, n: int, from: int, le: (T, T) -> bool) {
    forall k :: 0 <= lo && 1 <= from <= k / 2 && k <= n && lo + n <= |s| ==> le(s[lo + k - 1], s[lo + k / 2 - 1])
  }

  lemma {:induction false} HeapRootIsGreatest<T(!new)>(s: seq<T>, lo: int, n: int, k: int, le: (T, T) -> bool)
    requires TotalPreorder(le) && 0 <= lo && 1 <= k <= n && lo + n <= |s|
    requires HeapAbove(s, lo, n, 1, le)
    ensures le(s[lo + k - 1], s[lo])
    decreases k
  {
    if k > 1 {
      HeapRootIsGreatest(s, lo, n, k / 2, le);
      assert le(s[lo + k - 1], s[lo + k / 2 - 1]);
    }
  }

  /** `d` is being sifted down from `top`; the hole it will fill is at `hole`. */
  ghost predicate HeapWithHole<T>(s: seq<T>, lo: int, n: int, top: int, hole: int, d: T, le: (T, T) -> bool) {
    && 0 <= lo && 1 <= top <= hole <= n && lo + n <= |s|
    && (forall k :: top <= k / 2 && k <= n && k != hole && k / 2 != hole ==> le(s[lo + k - 1], s[lo + k / 2 - 1]))
    && (hole != top ==> top <= hole / 2 && le(d, s[lo + hole / 2 - 1]))
    && (hole != top ==> forall k :: k / 2 == hole && k <= n ==> le(s[lo + k - 1], s[lo + hole / 2 - 1]))
    && (forall k :: k / 2 > hole && k <= n ==> le(s[lo + k - 1], s[lo + k / 2 - 1]))
  }

  lemma HoleStarts<T>(s: seq<T>, lo: int, n: int, top: int, le: (T, T) -> bool)
    requires 0 <= lo && 1 <= top <= n && lo + n <= |s|
    requires HeapAbove(s, lo, n, top + 1, le)
    ensures HeapWithHole(s, lo, n, top, top, s[lo + top - 1], le)
  {}

  lemma HoleMovesDown<T(!new)>(s: seq<T>, lo: int, n: int, top: int, hole: int, child: int, d: T, le: (T, T) -> bool)
    requires TotalPreorder(le)
    requires HeapWithHole(s, lo, n, top, hole, d, le)
    requires child / 2 == hole && child <= n && le(d, s[lo + child - 1])
    requires forall k :: k / 2 == hole && k <= n ==> le(s[lo + k - 1], s[lo + child - 1])
    ensures HeapWithHole(s[lo + hole - 1 := s[lo + child - 1]], lo, n, top, child, d, le)
  {
    var t := s[lo + hole - 1 := s[lo + child - 1]];
    forall k | top <= k / 2 && k <= n && k != child && k / 2 != child ensures le(t[lo + k - 1], t[lo + k / 2 - 1]) {
      if k != hole && k / 2 != hole { assert le(s[lo + k - 1], s[lo + k / 2 - 1]); }
    }
  }

  lemma HoleFilled<T(!new)>(s: seq<T>, lo: int, n: int, top: int, hole: int, d: T, le: (T, T) -> bool)
    requires TotalPreorder(le)
    requires HeapWithHole(s, lo, n, top, hole, d, le)
    requires forall k :: k / 2 == hole && k <= n ==> le(s[lo + k - 1], d)
    ensures HeapAbove(s[lo + hole - 1 := d], lo, n, top, le)
  {
    var t := s[lo + hole - 1 := d];
    forall k | top <= k / 2 && k <= n ensures le(t[lo + k - 1], t[lo + k / 2 - 1]) {
      if k != hole && k / 2 != hole { assert le(s[lo + k - 1], s[lo + k / 2 - 1]); }
    }
  }

  /** A heap of the first `n` items, and behind it the greatest ones in order. */
  ghost predicate TailSorted<T>(s: seq<T>, lo: int, hi: int, end: int, le: (T, T) -> bool) {
    forall x, y :: 0 <= lo <= x < y <= hi < |s| && end <= y ==> le(s[x], s[y])
  }

  lemma RootMovesToTail<T(!new)>(s: seq<T>, lo: int, hi: int, i: int, le: (T, T) -> bool)
    requires TotalPreorder(le) && 0 <= lo && 1 < i && lo + i - 1 <= hi < |s|
    requires HeapAbove(s, lo, i, 1, le) && TailSorted(s, lo, hi, lo + i, le)
    ensures var t := Swapped(s, lo, lo + i - 1);
            HeapAbove(t, lo, i - 1, 2, le) && TailSorted(t, lo, hi, lo + i - 1, le)
  {
    var t := Swapped(s, lo, lo + i - 1);
    forall x | lo <= x < lo + i ensures le(s[x], s[lo]) { HeapRootIsGreatest(s, lo, i, x - lo + 1, le); }
    forall k | 2 <= k / 2 && k <= i - 1 ensures le(t[lo + k - 1], t[lo + k / 2 - 1]) {
      assert le(s[lo + k - 1], s[lo + k / 2 - 1]);
    }
  }

  lemma TailSurvives<T>(s: seq<T>, t: seq<T>, lo: int, hi: int, end: int, le: (T, T) -> bool)
    requires 0 <= lo <= end <= hi < |s|
    requires Rearranged(s, t, lo, end) && TailSorted(s, lo, hi, end, le)
    ensures TailSorted(t, lo, hi, end, le)
  {
    RearrangedFrame(s, t, lo, end);
    forall x, y | lo <= x < y <= hi && end <= y ensures le(t[x], t[y]) {
      var x' := x;
      if x < end { x' := RearrangedOrigin(s, t, lo, end, x); }
      assert le(s[x'], s[y]);
    }
  }

  lemma GreaterChild<T(!new)>(s: seq<T>, lo: int, n: int, i: int, child: int, le: (T, T) -> bool)
    requires TotalPreorder(le) && 0 <= lo && 1 <= i <= n / 2 && lo + n <= |s|
    requires child == 2 * i || (child == 2 * i + 1 && child <= n)
    requires 2 * i < n ==> le(s[lo + 4 * i + 1 - child - 1], s[lo + child - 1])
    ensures forall k :: k / 2 == i && k <= n ==> le(s[lo + k - 1], s[lo + child - 1])
  {}

  lemma ChildrenBelow<T(!new)>(s: seq<T>, lo: int, n: int, i: int, child: int, d: T, le: (T, T) -> bool)
    requires TotalPreorder(le) && 0 <= lo && 1 <= i && lo + n <= |s| && child / 2 == i && child <= n
    requires forall k :: k / 2 == i && k <= n ==> le(s[lo + k - 1], s[lo + child - 1])
    requires le(s[lo + child - 1], d)
    ensures forall k :: k / 2 == i && k <= n ==> le(s[lo + k - 1], d)
  {}

  class Sorter<T(!new)> {
    const keys: array<T>
    const comparison: (nat, T, T) -> Answer
    var calls: nat
    /** The pairs the comparison was asked about, call by call. */
    ghost var asked: seq<(T, T)>
    /** The order the comparison may be meant to follow; nothing depends on it. */
    ghost const le: (T, T) -> bool

    constructor (keys: array<T>, comparison: (nat, T, T) -> Answer, ghost le: (T, T) -> bool)
      ensures this.keys == keys && this.comparison == comparison && this.le == le && calls == 0 && Heard(Done)
    {
      this.keys := keys;
      this.comparison := comparison;
      this.le := le;
      calls := 0;
      asked := [];
    }

    ghost predicate Consistent() {
      TotalPreorder(le) && Agrees(comparison, le)
    }

    /** Where the sort has come to. */
    ghost function Now(outcome: Outcome): Run<T>
      reads this, keys
    {
      Run(keys[..], asked, outcome)
    }

    ghost predicate Heard(outcome: Outcome)
      reads this
    {
      |asked| == calls && Answered(comparison, asked, outcome)
    }

    /** What holds of every way a pass can end. */
    ghost predicate Explained(outcome: Outcome)
      reads this
    {
      && Heard(outcome)
      && (outcome.OutOfRange? ==> !Consistent())
    }

    lemma Reflexive(x: T)
      ensures Consistent() ==> le(x, x)
    {}

    method Compare(a: T, b: T) returns (answer: Answer)
      requires Heard(Done)
      modifies this`calls, this`asked
      ensures answer == comparison(old(calls), a, b)
      ensures Now(if answer.Raised? then Faulted(answer.fault) else Done) == Asking(comparison, old(Now(Done)), a, b)
      ensures Heard(if answer.Raised? then Faulted(answer.fault) else Done)
      ensures Consistent() && answer.Value? ==> (answer.sign < 0 <==> !le(b, a)) && (answer.sign > 0 <==> !le(a, b))
      ensures calls == old(calls) + 1
    {
      answer := comparison(calls, a, b);
      ghost var before := asked;
      asked := asked + [(a, b)];
      assert forall n :: 0 <= n < |before| ==> AnswerTo(comparison, asked, n) == AnswerTo(comparison, before, n);
      calls := calls + 1;
    }

    method Swap(a: int, b: int)
      requires 0 <= a < keys.Length && 0 <= b < keys.Length
      modifies keys
      ensures keys[..] == Swapped(old(keys[..]), a, b)
    {
      if a != b {
        keys[a], keys[b] := keys[b], keys[a];
      }
    }

    method SwapIfGreater(a: int, b: int, ghost lo: int, ghost hi: int) returns (outcome: Outcome)
      requires 0 <= lo <= a < hi <= keys.Length && lo <= b < hi
      requires Heard(Done)
      modifies this`calls, this`asked, keys
      ensures Explained(outcome) && !outcome.OutOfRange?
      ensures Now(outcome) == PutInOrder(comparison, old(Now(Done)), a, b)
      ensures Rearranged(old(keys[..]), keys[..], lo, hi)
      ensures Consistent() && outcome.Done? ==> le(keys[a], keys[b])
    {
      outcome := Done;
      if a != b {
        var answer := Compare(keys[a], keys[b]);
        if answer.Raised? { return Faulted(answer.fault); }
        if answer.sign > 0 {
          SwapRearranges(keys[..], a, b, lo, hi);
          Swap(a, b);
        }
      }
    }

    method OrderThree(low: int, middle: int, high: int) returns (outcome: Outcome)
      requires 0 <= low <= middle <= high < keys.Length
      requires Heard(Done)
      modifies this`calls, this`asked, keys
      ensures Explained(outcome) && !outcome.OutOfRange?
      ensures Now(outcome) == ThreeInOrder(comparison, old(Now(Done)), low, middle, high)
      ensures Rearranged(old(keys[..]), keys[..], low, high + 1)
    {
      hide Rearranged, Consistent, PutInOrder;
      ghost var start := keys[..];
      outcome := SwapIfGreater(low, middle, low, high + 1);
      if !outcome.Done? { return; }
      ghost var first := keys[..];
      outcome := SwapIfGreater(low, high, low, high + 1);
      RearrangedTransitive(start, first, keys[..], low, high + 1);
      if !outcome.Done? { return; }
      ghost var second := keys[..];
      outcome := SwapIfGreater(middle, high, low, high + 1);
      RearrangedTransitive(start, second, keys[..], low, high + 1);
    }

    /** Splits the stretch at a pivot, the median of three of its keys.  Under an
        inconsistent comparison no key need stop a sweep, which then runs off the
        list and is refused. */
    method Partition(left: int, right: int) returns (outcome: Outcome, i: int, j: int, ghost pivot: T)
      requires 0 <= left < right < keys.Length
      requires Heard(Done)
      modifies this`calls, this`asked, keys
      ensures Explained(outcome)
      ensures Partitioned(comparison, old(Now(Done)), left, right) == (i, j, Now(outcome))
      ensures outcome.Done? ==> Rearranged(old(keys[..]), keys[..], left, right + 1)
      ensures outcome.Done? ==> left <= i && j <= right && j < i
      ensures outcome.Done? && Consistent() ==>
                left - 1 <= j && i <= right + 1 && Split(keys[..], left, right, i, j, pivot, le)
    {
      hide Rearranged, Consistent, Sweeping, Split, ThreeInOrder, SweptRight, SweptLeft, Crossed, Partitioned, Swapped, Heard;
      i, j := left, right;
      var middle := i + (j - i) / 2;
      pivot := keys[middle];
      ghost var start, goal := keys[..], Partitioned(comparison, Now(Done), left, right);
      PartitionStep(comparison, Now(Done), left, right);
      outcome := OrderThree(left, middle, right);
      if !outcome.Done? { return; }
      var chosen := keys[middle];
      pivot := chosen;
      // Where an item stands that stops the sweep from the left, from the right.
      ghost var leftStop, rightStop := middle, middle;
      if Consistent() { SweepStarts(keys[..], left, right, middle); }
      while i <= j
        invariant Heard(Done)
        invariant outcome.Done? && left <= i && j <= right && chosen == pivot
        invariant Crossed(comparison, Now(Done), i, j, pivot) == goal
        invariant Rearranged(start, keys[..], left, right + 1)
        invariant Consistent() && i <= j ==> Sweeping(keys[..], left, right, i, j, leftStop, rightStop, pivot, le)
        invariant Consistent() ==> left - 1 <= j && i <= right + 1 && Split(keys[..], left, right, i, j, pivot, le)
        decreases j - i
      {
        CrossStep(comparison, Now(Done), i, j, pivot);
        i, outcome := SweepRight(i, chosen, left, right, j, leftStop, rightStop);
        if !outcome.Done? { return; }
        j, outcome := SweepLeft(j, chosen, left, right, i, leftStop, rightStop);
        if !outcome.Done? { return; }
        if Consistent() { SweepInside(keys[..], left, right, i, j, leftStop, rightStop, pivot); }
        if i > j { break; }
        Exchange(i, j, left, right, leftStop, rightStop, pivot, start);
        leftStop, rightStop := j, i;
        i, j := i + 1, j - 1;
      }
      CrossEnd(comparison, Now(Done), i, j, pivot);
    }

    /** Both ends stopped: the two items change places. */
    method Exchange(i: int, j: int, ghost left: int, ghost right: int, ghost leftStop: int, ghost rightStop: int, ghost pivot: T, ghost start: seq<T>)
      requires 0 <= left <= i <= j <= right < keys.Length
      requires Rearranged(start, keys[..], left, right + 1)
      requires Consistent() ==> Sweeping(keys[..], left, right, i, j, leftStop, rightStop, pivot, le)
      requires Consistent() ==> le(pivot, keys[i]) && le(keys[j], pivot)
      modifies keys
      ensures keys[..] == Swapped(old(keys[..]), i, j)
      ensures Rearranged(start, keys[..], left, right + 1)
      ensures Consistent() ==> Split(keys[..], left, right, i + 1, j - 1, pivot, le)
      ensures Consistent() && i + 1 <= j - 1 ==> Sweeping(keys[..], left, right, i + 1, j - 1, j, i, pivot, le)
    {
      hide Rearranged, Consistent, Sweeping, Split;
      ghost var before := keys[..];
      if i < j {
        Swap(i, j);
      }
      assert keys[..] == Swapped(before, i, j);
      hide Swapped;
      SwapRearranges(before, i, j, left, right + 1);
      RearrangedTransitive(start, before, keys[..], left, right + 1);
      if Consistent() { SweepSwaps(before, left, right, i, j, leftStop, rightStop, pivot, le); }
    }

    lemma SweepStarts(s: seq<T>, left: int, right: int, middle: int)
      requires Consistent() && 0 <= left <= middle <= right < |s|
      ensures Sweeping(s, left, right, left, right, middle, middle, s[middle], le)
      ensures Split(s, left, right, left, right, s[middle], le)
    {}

    lemma SweepInside(s: seq<T>, left: int, right: int, i: int, j: int, leftStop: int, rightStop: int, pivot: T)
      requires Sweeping(s, left, right, i, j, leftStop, rightStop, pivot, le)
      ensures i <= right && left <= j && Split(s, left, right, i, j, pivot, le)
    {}

    method SweepRight(from: int, pivot: T, ghost left: int, ghost right: int, ghost j: int, ghost leftStop: int, ghost rightStop: int)
      returns (i: int, outcome: Outcome)
      requires 0 <= from
      requires Consistent() ==> Sweeping(keys[..], left, right, from, j, leftStop, rightStop, pivot, le)
      requires Heard(Done)
      modifies this`calls, this`asked
      ensures Explained(outcome) && from <= i
      ensures SweptRight(comparison, old(Now(Done)), from, pivot) == (i, Now(outcome))
      ensures outcome.Done? ==> i < keys.Length
      ensures Consistent() ==> Sweeping(keys[..], left, right, i, j, leftStop, rightStop, pivot, le)
      ensures Consistent() && outcome.Done? ==> le(pivot, keys[i])
    {
      hide SweptRight, SweptLeft;
      i := from;
      while i < keys.Length
        invariant Heard(Done)
        invariant from <= i
        invariant SweptRight(comparison, Now(Done), i, pivot) == SweptRight(comparison, old(Now(Done)), from, pivot)
        invariant Consistent() ==> Sweeping(keys[..], left, right, i, j, leftStop, rightStop, pivot, le)
      {
        RightStep(comparison, Now(Done), i, pivot);
        var answer := Compare(keys[i], pivot);
        if answer.Raised? { return i, Faulted(answer.fault); }
        if answer.sign >= 0 { return i, Done; }
        i := i + 1;
      }
      RightEnd(comparison, Now(Done), i, pivot);
      outcome := OutOfRange;
    }

    method SweepLeft(from: int, pivot: T, ghost left: int, ghost right: int, ghost i: int, ghost leftStop: int, ghost rightStop: int)
      returns (j: int, outcome: Outcome)
      requires from < keys.Length
      requires Consistent() ==> Sweeping(keys[..], left, right, i, from, leftStop, rightStop, pivot, le)
      requires Heard(Done)
      modifies this`calls, this`asked
      ensures Explained(outcome) && j <= from
      ensures SweptLeft(comparison, old(Now(Done)), from, pivot) == (j, Now(outcome))
      ensures outcome.Done? ==> 0 <= j
      ensures Consistent() ==> Sweeping(keys[..], left, right, i, j, leftStop, rightStop, pivot, le)
      ensures Consistent() && outcome.Done? ==> le(keys[j], pivot)
    {
      hide SweptRight, SweptLeft;
      j := from;
      while 0 <= j
        invariant Heard(Done)
        invariant j <= from
        invariant SweptLeft(comparison, Now(Done), j, pivot) == SweptLeft(comparison, old(Now(Done)), from, pivot)
        invariant Consistent() ==> Sweeping(keys[..], left, right, i, j, leftStop, rightStop, pivot, le)
      {
        LeftStep(comparison, Now(Done), j, pivot);
        var answer := Compare(pivot, keys[j]);
        if answer.Raised? { return j, Faulted(answer.fault); }
        if answer.sign >= 0 { return j, Done; }
        j := j - 1;
      }
      LeftEnd(comparison, Now(Done), j, pivot);
      outcome := OutOfRange;
    }

    /** How far a pass over `first..last` has come: what is left to sort is
        the stretch `left..right`. */
    ghost predicate Progress(start: seq<T>, s: seq<T>, first: int, last: int, left: int, right: int) {
      && 0 <= first <= last < |s|
      && Rearranged(start, s, first, last + 1)
      && (Consistent() ==> SettledOutside(s, first, last, left, right, le))
    }

    lemma ProgressStarts(s: seq<T>, first: int, last: int)
      requires 0 <= first <= last < |s|
      ensures Progress(s, s, first, last, first, last)
    {}

    lemma ProgressEnds(start: seq<T>, s: seq<T>, first: int, last: int, left: int, right: int)
      requires Progress(start, s, first, last, left, right)
      requires left >= right || (Consistent() ==> SortedSlice(s, left, right + 1, le))
      requires left >= right || (first <= left && right <= last)
      ensures Rearranged(start, s, first, last + 1)
      ensures Consistent() ==> SortedSlice(s, first, last + 1, le)
    {}

    lemma ProgressRearranged(start: seq<T>, s: seq<T>, t: seq<T>, first: int, last: int, left: int, right: int, from: int, to: int)
      requires Progress(start, s, first, last, left, right)
      requires first <= left <= right <= last && left <= from && to <= right + 1
      requires Rearranged(s, t, from, to)
      ensures Progress(start, t, first, last, left, right)
    {
      hide Consistent, SettledOutside;
      assert |s| == |t| && from <= to <= |s|;
      RearrangedWiden(s, t, from, to, left, right + 1);
      RearrangedWiden(s, t, from, to, first, last + 1);
      hide Rearranged;
      RearrangedTransitive(start, s, t, first, last + 1);
      if Consistent() { SettledAfterRearranging(s, t, first, last, left, right, le); }
    }

    lemma LeftSideDone(start: seq<T>, s: seq<T>, t: seq<T>, first: int, last: int, left: int, right: int, i: int, j: int, pivot: T)
      requires Progress(start, s, first, last, left, right)
      requires first <= left <= right <= last && left <= i && j <= right && j < i
      requires Consistent() ==> left - 1 <= j && i <= right + 1 && Split(s, left, right, i, j, pivot, le)
      requires if left < j then Rearranged(s, t, left, j + 1) && (Consistent() ==> SortedSlice(t, left, j + 1, le)) else s == t
      ensures Progress(start, t, first, last, i, right)
    {
      hide Rearranged, SettledOutside, Split, SortedSlice, TotalPreorder, Agrees;
      if left < j { ProgressRearranged(start, s, t, first, last, left, right, left, j + 1); }
      if Consistent() {
        if left < j {
          SplitAfterRearranging(s, t, left, right, i, j, left, j + 1, pivot, le);
        } else {
          assert SortedSlice(t, left, j + 1, le) by { Short(t, left, j + 1); }
        }
        SettledNarrows(t, first, last, left, right, i, j, i, right, pivot, le);
      }
    }

    lemma RightSideDone(start: seq<T>, s: seq<T>, t: seq<T>, first: int, last: int, left: int, right: int, i: int, j: int, pivot: T)
      requires Progress(start, s, first, last, left, right)
      requires first <= left <= right <= last && left <= i && j <= right && j < i
      requires Consistent() ==> left - 1 <= j && i <= right + 1 && Split(s, left, right, i, j, pivot, le)
      requires if i < right then Rearranged(s, t, i, right + 1) && (Consistent() ==> SortedSlice(t, i, right + 1, le)) else s == t
      ensures Progress(start, t, first, last, left, j)
    {
      hide Rearranged, SettledOutside, Split, SortedSlice, TotalPreorder, Agrees;
      if i < right { ProgressRearranged(start, s, t, first, last, left, right, i, right + 1); }
      if Consistent() {
        if i < right {
          SplitAfterRearranging(s, t, left, right, i, j, i, right + 1, pivot, le);
        } else {
          assert SortedSlice(t, i, right + 1, le) by { Short(t, i, right + 1); }
        }
        SettledNarrows(t, first, last, left, right, i, j, left, j, pivot, le);
      }
    }

    lemma Short(s: seq<T>, lo: int, hi: int)
      requires hi <= lo + 1
      ensures SortedSlice(s, lo, hi, le)
    {}

    /** Rearranges the keys from `first` to `last` and no others.  Recursing into
        the smaller part keeps the depth low; `depth` zero hands over to the heap. */
    method QuickSort(first: int, last: int, depth: nat) returns (outcome: Outcome)
      requires 0 <= first < last < keys.Length
      requires Heard(Done)
      modifies this`calls, this`asked, keys
      ensures Explained(outcome)
      ensures Now(outcome) == QuickSorted(comparison, old(Now(Done)), first, last, depth)
      ensures outcome.Done? ==> Rearranged(old(keys[..]), keys[..], first, last + 1)
      ensures outcome.Done? && Consistent() ==> SortedSlice(keys[..], first, last + 1, le)
      decreases depth, 1
    {
      hide Rearranged, Consistent, Progress, Split, SortedSlice, Partitioned, HeapSorted, Heard;
      var left, right, depthLimit := first, last, depth;
      ghost var start := keys[..];
      ProgressStarts(start, first, last);
      while true
        invariant Heard(Done)
        invariant first <= left < right <= last && 0 <= depthLimit <= depth
        invariant Progress(start, keys[..], first, last, left, right)
        invariant QuickSorted(comparison, Now(Done), left, right, depthLimit) == QuickSorted(comparison, old(Now(Done)), first, last, depth)
        decreases depthLimit
      {
        ghost var before := keys[..];
        if depthLimit == 0 {
          outcome := Heapsort(left, right);
          if outcome.Done? {
            ProgressRearranged(start, before, keys[..], first, last, left, right, left, right + 1);
            ProgressEnds(start, keys[..], first, last, left, right);
          }
          return;
        }
        var i, j;
        ghost var pivot;
        outcome, i, j, pivot := Partition(left, right);
        if !outcome.Done? { return; }
        ghost var split := keys[..];
        ProgressRearranged(start, before, split, first, last, left, right, left, right + 1);
        depthLimit := depthLimit - 1;
        if j - left <= right - i {
          if left < j {
            outcome := QuickSort(left, j, depthLimit);
            if !outcome.Done? { return; }
          }
          LeftSideDone(start, split, keys[..], first, last, left, right, i, j, pivot);
          left := i;
        } else {
          if i < right {
            outcome := QuickSort(i, right, depthLimit);
            if !outcome.Done? { return; }
          }
          RightSideDone(start, split, keys[..], first, last, left, right, i, j, pivot);
          right := j;
        }
        if left >= right {
          ProgressEnds(start, keys[..], first, last, left, right);
          return Done;
        }
      }
    }

    /** Sorts the stretch `lo..hi` by a heap whose root stands at `lo`. */
    method Heapsort(lo: int, hi: int) returns (outcome: Outcome)
      requires 0 <= lo <= hi < keys.Length
      requires Heard(Done)
      modifies this`calls, this`asked, keys
      ensures Explained(outcome) && !outcome.OutOfRange?
      ensures Now(outcome) == HeapSorted(comparison, old(Now(Done)), lo, hi)
      ensures outcome.Done? ==> Rearranged(old(keys[..]), keys[..], lo, hi + 1)
      ensures outcome.Done? && Consistent() ==> SortedSlice(keys[..], lo, hi + 1, le)
    {
      hide Rearranged, TotalPreorder, Agrees, HeapAbove, TailSorted, Sunk, Swapped, Heaped, Emptied, Heard;
      var n := hi - lo + 1;
      ghost var start := keys[..];
      RearrangedReflexive(start, lo, hi + 1);
      var i := n / 2;
      HeapStarts(start, lo, n);
      while i >= 1
        invariant Heard(Done)
        invariant 0 <= i <= n / 2
        invariant Heaped(comparison, Now(Done), i, n, lo) == Heaped(comparison, old(Now(Done)), n / 2, n, lo)
        invariant Rearranged(start, keys[..], lo, hi + 1)
        invariant Consistent() ==> HeapAbove(keys[..], lo, n, i + 1, le)
      {
        ghost var before := keys[..];
        HeapStep(comparison, Now(Done), i, n, lo);
        outcome := DownHeap(i, n, lo);
        if !outcome.Done? { return; }
        RearrangedTransitive(start, before, keys[..], lo, hi + 1);
        i := i - 1;
      }
      HeapEnd(comparison, Now(Done), n, lo);
      i := n;
      ghost var heap := Now(Done);
      TailStarts(keys[..], lo, hi);
      while i > 1
        invariant Heard(Done)
        invariant 1 <= i <= n
        invariant Emptied(comparison, Now(Done), i, lo) == Emptied(comparison, heap, n, lo)
        invariant Rearranged(start, keys[..], lo, hi + 1)
        invariant Consistent() ==> HeapAbove(keys[..], lo, i, 1, le) && TailSorted(keys[..], lo, hi, lo + i, le)
      {
        EmptyStep(comparison, Now(Done), i, lo);
        outcome := ExtractGreatest(i, lo, hi, start);
        if !outcome.Done? { return; }
        i := i - 1;
      }
      EmptyEnd(comparison, Now(Done), lo);
      if Consistent() { TailWhole(keys[..], lo, hi); }
      outcome := Done;
    }

    lemma HeapStarts(s: seq<T>, lo: int, n: int)
      ensures HeapAbove(s, lo, n, n / 2 + 1, le)
    {}

    lemma TailStarts(s: seq<T>, lo: int, hi: int)
      ensures TailSorted(s, lo, hi, hi + 1, le)
    {}

    lemma TailWhole(s: seq<T>, lo: int, hi: int)
      requires 0 <= lo <= hi < |s| && TailSorted(s, lo, hi, lo + 1, le)
      ensures SortedSlice(s, lo, hi + 1, le)
    {}

    /** One step of the heapsort's second loop: the root goes behind the heap. */
    method ExtractGreatest(i: int, lo: int, hi: int, ghost start: seq<T>) returns (outcome: Outcome)
      requires 0 <= lo && 1 < i && lo + i - 1 <= hi < keys.Length
      requires Rearranged(start, keys[..], lo, hi + 1)
      requires Consistent() ==> HeapAbove(keys[..], lo, i, 1, le) && TailSorted(keys[..], lo, hi, lo + i, le)
      requires Heard(Done)
      modifies this`calls, this`asked, keys
      ensures Explained(outcome) && !outcome.OutOfRange?
      ensures var keys' := Swapped(old(keys[..]), lo, lo + i - 1);
              Now(outcome) == Sunk(comparison, old(Now(Done)).(keys := keys'), 1, i - 1, lo, keys'[lo])
      ensures outcome.Done? ==> Rearranged(start, keys[..], lo, hi + 1)
      ensures outcome.Done? && Consistent() ==> HeapAbove(keys[..], lo, i - 1, 1, le) && TailSorted(keys[..], lo, hi, lo + i - 1, le)
    {
      hide Rearranged, TotalPreorder, Agrees, HeapAbove, TailSorted, Swapped, Sunk, Heard, Explained;
      ghost var before := keys[..];
      Swap(lo, lo + i - 1);
      ghost var swapped := keys[..];
      SwapRearranges(before, lo, lo + i - 1, lo, hi + 1);
      RearrangedTransitive(start, before, swapped, lo, hi + 1);
      if Consistent() { RootMovesToTail(before, lo, hi, i, le); }
      outcome := DownHeap(1, i - 1, lo);
      if !outcome.Done? { return; }
      RearrangedWiden(swapped, keys[..], lo, lo + i - 1, lo, hi + 1);
      RearrangedTransitive(start, swapped, keys[..], lo, hi + 1);
      if Consistent() { TailSurvives(swapped, keys[..], lo, hi, lo + i - 1, le); }
    }

    /** Sifts the item at heap position `top` down among the first `n`. */
    method DownHeap(top: int, n: int, lo: int) returns (outcome: Outcome)
      requires 0 <= lo && 1 <= top <= n && lo + n <= keys.Length
      requires Heard(Done)
      modifies this`calls, this`asked, keys
      ensures Explained(outcome) && !outcome.OutOfRange?
      ensures Now(outcome) == Sunk(comparison, old(Now(Done)), top, n, lo, old(keys[lo + top - 1]))
      ensures outcome.Done? ==> Rearranged(old(keys[..]), keys[..], lo, lo + n)
      ensures outcome.Done? && Consistent() && HeapAbove(old(keys[..]), lo, n, top + 1, le)
              ==> HeapAbove(keys[..], lo, n, top, le)
    {
      hide Rearranged, TotalPreorder, Agrees, HeapWithHole, HeapAbove, Greater, Sunk, Asking, Swapped;
      var i := top;
      var d := keys[lo + i - 1];
      ghost var start, goal := keys[..], Sunk(comparison, Now(Done), top, n, lo, d);
      ghost var heap := Consistent() && HeapAbove(start, lo, n, top + 1, le);
      assert start == start[lo + i - 1 := d];
      RearrangedReflexive(start, lo, lo + n);
      if heap { HoleStarts(start, lo, n, top, le); }
      while i <= n / 2
        invariant Heard(Done)
        invariant top <= i <= n
        invariant Sunk(comparison, Now(Done), i, n, lo, d) == goal
        invariant Rearranged(start, keys[..][lo + i - 1 := d], lo, lo + n)
        invariant heap ==> HeapWithHole(keys[..], lo, n, top, i, d, le)
      {
        ghost var before := keys[..];
        SinkStep(comparison, Now(Done), i, n, lo, d);
        var child;
        child, outcome := ChooseChild(i, n, lo);
        if !outcome.Done? { return; }
        var c := keys[lo + child - 1];
        var answer := Compare(d, c);
        if answer.Raised? { return Faulted(answer.fault); }
        if answer.sign >= 0 {
          if heap { ChildrenBelow(before, lo, n, i, child, d, le); }
          break;
        }
        if heap { HoleMovesDown(before, lo, n, top, i, child, d, le); }
        HoleSwaps(start, before, lo, n, i, child, d);
        keys[lo + i - 1] := c;
        assert keys[..] == before[lo + i - 1 := c];
        i := child;
      }
      if heap { HoleFilled(keys[..], lo, n, top, i, d, le); }
      if n / 2 < i { SinkEnd(comparison, Now(Done), i, n, lo, d); }
      ghost var before := keys[..];
      keys[lo + i - 1] := d;
      assert keys[..] == before[lo + i - 1 := d];
      outcome := Done;
    }

    lemma HoleSwapped(s: seq<T>, a: int, b: int, d: T)
      requires 0 <= a < b < |s|
      ensures Swapped(s[a := d], a, b) == s[a := s[b]][b := d]
    {}

    lemma HoleSwaps(start: seq<T>, s: seq<T>, lo: int, n: int, i: int, child: int, d: T)
      requires 0 <= lo && 1 <= i < child <= n && lo + n <= |s|
      requires Rearranged(start, s[lo + i - 1 := d], lo, lo + n)
      ensures Rearranged(start, s[lo + i - 1 := s[lo + child - 1]][lo + child - 1 := d], lo, lo + n)
    {
      hide Rearranged, Swapped;
      var t := s[lo + i - 1 := d];
      SwapRearranges(t, lo + i - 1, lo + child - 1, lo, lo + n);
      HoleSwapped(s, lo + i - 1, lo + child - 1, d);
      RearrangedTransitive(start, t, s[lo + i - 1 := s[lo + child - 1]][lo + child - 1 := d], lo, lo + n);
    }

    /** The greater of a heap position's children. */
    method ChooseChild(i: int, n: int, lo: int) returns (child: int, outcome: Outcome)
      requires 0 <= lo && 1 <= i <= n / 2 && lo + n <= keys.Length
      requires Heard(Done)
      modifies this`calls, this`asked
      ensures Explained(outcome) && !outcome.OutOfRange?
      ensures Greater(comparison, old(Now(Done)), i, n, lo) == (child, Now(outcome))
      ensures i < child <= n && child / 2 == i
      ensures outcome.Done? && Consistent() ==> forall k :: k / 2 == i && k <= n ==> le(keys[lo + k - 1], keys[lo + child - 1])
    {
      hide TotalPreorder, Agrees;
      child, outcome := 2 * i, Done;
      if child < n {
        var answer := Compare(keys[lo + child - 1], keys[lo + child]);
        if answer.Raised? { return child, Faulted(answer.fault); }
        if answer.sign < 0 { child := child + 1; }
        Comparable(keys[lo + 2 * i - 1], keys[lo + 2 * i]);
      }
      if Consistent() { GreaterChild(keys[..], lo, n, i, child, le); }
    }

    lemma Comparable(a: T, b: T)
      ensures Consistent() ==> le(a, b) || le(b, a)
    {}
  }

  /** Sorts `keys` under `comparison`; `le` is any order the caller cares to
      compare the result with. */
  method Sort<T(!new)>(keys: array<T>, comparison: (nat, T, T) -> Answer, ghost le: (T, T) -> bool)
    returns (result: SortResult, calls: nat, ghost asked: seq<(T, T)>)
    modifies keys
    ensures var r := Ran(comparison, old(keys[..]));
            && keys[..] == r.keys && asked == r.asked && result == Told(r.outcome)
            && |asked| == calls && Answered(comparison, asked, r.outcome)
            && (TotalPreorder(le) && Agrees(comparison, le) ==> !r.outcome.OutOfRange?)
    ensures keys.Length < 2 ==> result.Sorted? && calls == 0
    ensures result.Sorted? ==> multiset(keys[..]) == multiset(old(keys[..]))
    ensures TotalPreorder(le) && Agrees(comparison, le) && result.Sorted? ==> SortedSlice(keys[..], 0, keys.Length, le)
    ensures TotalPreorder(le) && Agrees(comparison, le) && NeverFaults(comparison) ==> result.Sorted?
  {
    if keys.Length < 2 {
      return Sorted, 0, [];
    }
    hide Rearranged, QuickSorted, SortedSlice, TotalPreorder, Agrees, NeverFaults, Answered;
    var sorter := new Sorter(keys, comparison, le);
    ghost var start := keys[..];
    var outcome := sorter.QuickSort(0, keys.Length - 1, DEPTH_LIMIT);
    calls, asked := sorter.calls, sorter.asked;
    if outcome.Done? { WholeRearranged(start, keys[..]); }
    if outcome.Faulted? { FaultIsRaised(comparison, asked, outcome); }
    result := Told(outcome);
  }

  lemma FaultIsRaised<T(!new)>(comparison: (nat, T, T) -> Answer, asked: seq<(T, T)>, outcome: Outcome)
    requires Answered(comparison, asked, outcome) && outcome.Faulted?
    ensures !NeverFaults(comparison)
  {
    assert AnswerTo(comparison, asked, |asked| - 1) == Raised(outcome.fault);
  }
}
