/** Lists and dictionaries shared and changed in place, and the guard that
    keeps any of them from holding itself. */
module CollectionHeap {
  import opened Dictionaries

  /** An object id is 32 bits wide. */
  type ObjectId = n: nat | n <= 0xffff_ffff

  datatype Number = Finite(value: real) | NaN | PositiveInfinity | NegativeInfinity

  /** Lists and dictionaries are references; so are positions, stopwatches and
      controls, told apart by identity. */
  datatype Value =
    | Number(number: Number)
    | Boolean(truth: bool)
    | Text(text: string)
    | List(address: nat)
    | Dictionary(address: nat)
    | Coordinates(identity: nat, eastWest: Number, northSouth: Number, elevation: Number)
    | WorldObject(id: ObjectId)
    | Stopwatch(identity: nat)
    | UiControl(identity: nat)

  predicate IsCollection(value: Value) { value.List? || value.Dictionary? }

  predicate SameValue(a: Value, b: Value) {
    match (a, b)
    case (Coordinates(i, _, _, _), Coordinates(j, _, _, _)) => i == j
    case _ => a == b
  }

  /** A value is found again as itself: a reference by what it refers to, all
      else by what it says. */
  lemma SameValueTellsApart(a: Value, b: Value)
    ensures SameValue(a, b) <==> SameValue(b, a)
    ensures a.Coordinates? && b.Coordinates? ==> (SameValue(a, b) <==> a.identity == b.identity)
    ensures !a.Coordinates? || !b.Coordinates? ==> (SameValue(a, b) <==> a == b)
  {}

  datatype Collection =
    | Items(items: seq<Value>)
    | Members(table: Table<string, Value, string>)

  type Heap = map<nat, Collection>

  function ValuesOf(entries: seq<(string, Value)>): seq<Value> { seq(|entries|, i requires 0 <= i < |entries| => entries[i].1) }

  function Children(c: Collection): seq<Value> {
    match c
    case Items(items) => items
    case Members(table) => ValuesOf(Entries(table.slots))
  }

  /** The collection a value names is there and of its kind. */
  predicate Names(heap: Heap, value: Value) {
    IsCollection(value) ==> value.address in heap && (value.List? <==> heap[value.address].Items?)
  }

  /** Nothing held is missing, and every dictionary's slots are sound. */
  ghost predicate Closed(heap: Heap) {
    forall a :: a in heap ==>
      && (forall v :: v in Children(heap[a]) ==> Names(heap, v))
      && (heap[a].Members? ==> Valid(heap[a].table, AsIs))
  }

  // ----- containment -----

  ghost predicate Holds(heap: Heap, a: nat, b: nat) {
    a in heap && exists v :: v in Children(heap[a]) && IsCollection(v) && v.address == b
  }

  ghost predicate Path(heap: Heap, path: seq<nat>) {
    path != [] && forall i :: 0 <= i < |path| - 1 ==> Holds(heap, path[i], path[i + 1])
  }

  ghost predicate PathBetween(heap: Heap, path: seq<nat>, a: nat, b: nat) {
    Path(heap, path) && path[0] == a && path[|path| - 1] == b
  }

  /** `b` is `a` itself or inside it, at any depth. */
  ghost predicate Reaches(heap: Heap, a: nat, b: nat) { exists path :: PathBetween(heap, path, a, b) }

  /** No collection is inside itself. */
  ghost predicate Acyclic(heap: Heap) {
    forall path :: Path(heap, path) && |path| >= 2 ==> path[0] != path[|path| - 1]
  }

  lemma NoCycleIn(heap: Heap, path: seq<nat>)
    requires Acyclic(heap) && |path| >= 2 && forall i :: 0 <= i < |path| - 1 ==> Holds(heap, path[i], path[i + 1])
    ensures path[0] != path[|path| - 1]
  {
    assert Path(heap, path);
  }

  lemma PathTail(heap: Heap, path: seq<nat>)
    requires Path(heap, path) && |path| > 1
    ensures Holds(heap, path[0], path[1]) && Path(heap, path[1..])
  {
    hide Holds;
    forall i | 0 <= i < |path[1..]| - 1 ensures Holds(heap, path[1..][i], path[1..][i + 1]) {
      assert Holds(heap, path[i + 1], path[i + 1 + 1]);
    }
  }

  lemma ReachesItself(heap: Heap, a: nat)
    ensures Reaches(heap, a, a)
  {
    assert PathBetween(heap, [a], a, a);
  }

  lemma StepThenReach(heap: Heap, a: nat, b: nat, c: nat)
    requires Holds(heap, a, b) && Reaches(heap, b, c)
    ensures Reaches(heap, a, c)
  {
    hide Holds;
    var path :| PathBetween(heap, path, b, c);
    var longer := [a] + path;
    forall i | 0 <= i < |longer| - 1 ensures Holds(heap, longer[i], longer[i + 1]) {
      if i > 0 { assert longer[i] == path[i - 1] && longer[i + 1] == path[i]; }
    }
    assert PathBetween(heap, longer, a, c);
  }

  /** What is inside a set that holds on to everything it holds is in the set. */
  lemma {:induction false} ReachStaysInside(heap: Heap, inside: set<nat>, path: seq<nat>)
    requires Path(heap, path) && path[0] in inside
    requires forall a, b :: a in inside && Holds(heap, a, b) ==> b in inside
    ensures path[|path| - 1] in inside
  {
    if |path| > 1 {
      PathTail(heap, path);
      ReachStaysInside(heap, inside, path[1..]);
    }
  }

  // ----- the search -----

  /** What a search that has not met the destination has finished with: each
      collection newly visited had all of its own visited too. */
  ghost predicate Finished(heap: Heap, before: seq<nat>, after: seq<nat>, destination: nat) {
    && before <= after && destination !in after
    && forall a, b :: a in after && a !in before && Holds(heap, a, b) ==> b in after
  }

  ghost function Unvisited(heap: Heap, visited: seq<nat>): set<nat> { set a | a in heap && a !in visited }

  lemma VisitShrinks(heap: Heap, visited: seq<nat>, address: nat, after: seq<nat>)
    requires address in heap && address !in visited && visited + [address] <= after
    ensures |Unvisited(heap, after)| < |Unvisited(heap, visited)|
  {
    assert address in after by { assert after[|visited|] == address; }
    assert forall a :: a in visited ==> a in after by {
      forall a | a in visited ensures a in after {
        var i :| 0 <= i < |visited| && visited[i] == a;
        assert after[i] == a;
      }
    }
    SmallerSet(Unvisited(heap, after), Unvisited(heap, visited), address);
  }

  lemma {:induction false} SmallerSet(small: set<nat>, large: set<nat>, extra: nat)
    requires small <= large && extra in large && extra !in small
    ensures |small| < |large|
  {
    assert large - small != {};
    assert |large| == |small| + |large - small| by { assert large == small + (large - small); }
    assert |large - small| != 0;
  }

  /** Whether the value is the destination or holds it at any depth. */
  method ContainsReference(heap: Heap, value: Value, destination: nat, visited: seq<nat>) returns (found: bool, visited': seq<nat>)
    requires Closed(heap) && Names(heap, value) && destination !in visited
    ensures found ==> IsCollection(value) && Reaches(heap, value.address, destination)
    ensures !found ==> Finished(heap, visited, visited', destination) && (IsCollection(value) ==> value.address in visited')
    decreases |Unvisited(heap, visited)|
  {
    hide Holds, Reaches, Closed, Finished, Children, Unvisited, PathBetween;
    if !IsCollection(value) {
      NothingVisited(heap, visited, destination);
      return false, visited;
    }
    var address := value.address;
    if address == destination {
      ReachesItself(heap, address);
      return true, visited;
    }
    if address in visited {
      NothingVisited(heap, visited, destination);
      return false, visited;
    }
    visited' := visited + [address];
    var children := Children(heap[address]);
    NothingVisited(heap, visited', destination);
    for i := 0 to |children|
      invariant Finished(heap, visited + [address], visited', destination) && visited + [address] <= visited' && destination !in visited'
      invariant forall j :: 0 <= j < i && IsCollection(children[j]) ==> children[j].address in visited'
    {
      ChildIsNamed(heap, address, i);
      VisitShrinks(heap, visited, address, visited');
      ghost var middle := visited';
      found, visited' := ContainsReference(heap, children[i], destination, visited');
      if found {
        StepThenReach(heap, address, children[i].address, destination);
        return;
      }
      FinishedInTurn(heap, visited + [address], middle, visited', destination);
    }
    found := false;
    FinishedWith(heap, visited, address, visited', destination);
  }

  lemma NothingVisited(heap: Heap, visited: seq<nat>, destination: nat)
    requires destination !in visited
    ensures Finished(heap, visited, visited, destination)
  {}

  lemma ChildIsNamed(heap: Heap, address: nat, i: nat)
    requires Closed(heap) && address in heap && i < |Children(heap[address])|
    ensures Names(heap, Children(heap[address])[i])
    ensures IsCollection(Children(heap[address])[i]) ==> Holds(heap, address, Children(heap[address])[i].address)
  {
    assert Children(heap[address])[i] in Children(heap[address]);
  }

  lemma FinishedInTurn(heap: Heap, first: seq<nat>, second: seq<nat>, third: seq<nat>, destination: nat)
    requires Finished(heap, first, second, destination) && Finished(heap, second, third, destination)
    ensures Finished(heap, first, third, destination)
    ensures first <= third && second <= third && destination !in third && forall a :: a in second ==> a in third
  {
    hide Holds;
    assert forall a :: a in second ==> a in third by {
      forall a | a in second ensures a in third {
        var i :| 0 <= i < |second| && second[i] == a;
        assert third[i] == a;
      }
    }
  }

  lemma FinishedWith(heap: Heap, visited: seq<nat>, address: nat, after: seq<nat>, destination: nat)
    requires address in heap && Finished(heap, visited + [address], after, destination)
    requires forall j :: 0 <= j < |Children(heap[address])| && IsCollection(Children(heap[address])[j]) ==> Children(heap[address])[j].address in after
    ensures Finished(heap, visited, after, destination) && address in after
  {
    assert after[|visited|] == address;
    forall a, b | a in after && a !in visited && Holds(heap, a, b) ensures b in after {
      if a == address {
        var v :| v in Children(heap[a]) && IsCollection(v) && v.address == b;
        var j :| 0 <= j < |Children(heap[a])| && Children(heap[a])[j] == v;
      }
    }
  }

  /** The search is exact: from nothing visited, it answers whether the
      destination is the value or inside it. */
  method WouldCycle(heap: Heap, destination: nat, value: Value) returns (cyclic: bool)
    requires Closed(heap) && Names(heap, value)
    ensures cyclic <==> IsCollection(value) && Reaches(heap, value.address, destination)
  {
    var visited;
    cyclic, visited := ContainsReference(heap, value, destination, []);
    if !cyclic && IsCollection(value) && Reaches(heap, value.address, destination) {
      var path :| PathBetween(heap, path, value.address, destination);
      ReachStaysInside(heap, (set a | a in visited), path);
      assert false;
    }
  }

  // ----- changes that keep the containment acyclic -----

  /** `after` differs from `before` at one collection, which holds no more than
      it did but, perhaps, `value`. */
  ghost predicate GainsAtMost(before: Heap, after: Heap, at: nat, value: Value) {
    && (forall a :: a in after && a != at ==> a in before && after[a] == before[a])
    && (at in after ==> forall v :: v in Children(after[at]) ==> v == value || (at in before && v in Children(before[at])))
  }

  lemma OldEdge(before: Heap, after: Heap, at: nat, value: Value, a: nat, b: nat)
    requires GainsAtMost(before, after, at, value) && Holds(after, a, b)
    ensures Holds(before, a, b) || (a == at && IsCollection(value) && b == value.address)
  {}

  /** A way to the changed collection after the change has, up to its first
      visit there, been a way before it. */
  lemma {:induction false} WayBefore(before: Heap, after: Heap, at: nat, value: Value, path: seq<nat>)
    requires GainsAtMost(before, after, at, value) && Path(after, path) && path[|path| - 1] == at
    ensures Reaches(before, path[0], at)
  {
    hide Holds, GainsAtMost, Reaches;
    if path[0] == at {
      ReachesItself(before, at);
    } else {
      var rest := path[1..];
      PathTail(after, path);
      OldEdge(before, after, at, value, path[0], path[1]);
      WayBefore(before, after, at, value, rest);
      StepThenReach(before, path[0], path[1], at);
    }
  }

  /** Going round a cycle from just after one of its edges. */
  lemma Rotated(heap: Heap, path: seq<nat>, i: nat) returns (round: seq<nat>)
    requires Path(heap, path) && path[0] == path[|path| - 1] && i < |path| - 1
    ensures Path(heap, round) && round[0] == path[i + 1] && round[|round| - 1] == path[i]
  {
    hide Holds;
    round := path[i + 1..] + path[1..i + 1];
    var n := |path| - i - 1;
    forall k | 0 <= k < |round| - 1 ensures Holds(heap, round[k], round[k + 1]) {
      if k < n - 1 {
        assert round[k] == path[i + 1 + k] && round[k + 1] == path[i + 1 + k + 1];
      } else if k == n - 1 {
        assert round[k] == path[0] && round[k + 1] == path[1];
        assert Holds(heap, path[0], path[1]);
      } else {
        assert round[k] == path[k - n + 1] && round[k + 1] == path[k - n + 1 + 1];
      }
    }
  }

  /** The guard suffices: adding a value the collection is not inside of
      leaves no collection inside itself. */
  lemma GuardedChangeKeepsAcyclic(before: Heap, after: Heap, at: nat, value: Value)
    requires Acyclic(before) && GainsAtMost(before, after, at, value)
    requires IsCollection(value) ==> !Reaches(before, value.address, at)
    ensures Acyclic(after)
  {
    hide Holds, GainsAtMost, Reaches;
    forall path | Path(after, path) && |path| >= 2 ensures path[0] != path[|path| - 1] {
      if path[0] == path[|path| - 1] {
        if forall i :: 0 <= i < |path| - 1 ==> Holds(before, path[i], path[i + 1]) {
          NoCycleIn(before, path);
        } else {
          var i :| 0 <= i < |path| - 1 && !Holds(before, path[i], path[i + 1]);
          OldEdge(before, after, at, value, path[i], path[i + 1]);
          var round := Rotated(after, path, i);
          WayBefore(before, after, at, value, round);
        }
      }
    }
  }

  /** Whatever goes into a collection nothing holds, it ends up inside no cycle. */
  lemma UnheldKeepsAcyclic(before: Heap, after: Heap, at: nat)
    requires Acyclic(before) && forall a :: a in after && a != at ==> a in before && after[a] == before[a]
    requires forall a :: !Holds(after, a, at)
    ensures Acyclic(after)
  {
    hide Children;
    forall path | Path(after, path) && |path| >= 2 ensures path[0] != path[|path| - 1] {
      if path[0] == path[|path| - 1] {
        forall i | 0 <= i < |path| - 1 ensures Holds(before, path[i], path[i + 1]) {
          assert Holds(after, path[i], path[i + 1]);
          var from := if i == 0 then |path| - 1 else i;
          assert Holds(after, path[from - 1], path[from - 1 + 1]);
        }
        NoCycleIn(before, path);
      }
    }
  }

  /** And nothing less would do: however a collection comes to hold a value it
      is inside of, a cycle is closed. */
  lemma UnguardedChangeCycles(heap: Heap, at: nat, grown: Collection, value: Value)
    requires IsCollection(value) && Reaches(heap, value.address, at) && value in Children(grown)
    ensures !Acyclic(heap[at := grown])
  {
    var after := heap[at := grown];
    var path :| PathBetween(heap, path, value.address, at);
    var way := FirstWay(heap, path, at);
    forall i | 0 <= i < |way| - 1 ensures Holds(after, way[i], way[i + 1]) {
      assert Holds(heap, way[i], way[i + 1]);
    }
    assert Holds(after, at, value.address);
    StepThenReachCloses(after, at, value.address, way);
  }

  /** A way cut where it first comes to its end. */
  lemma {:induction false} FirstWay(heap: Heap, path: seq<nat>, at: nat) returns (way: seq<nat>)
    requires Path(heap, path) && path[|path| - 1] == at
    ensures Path(heap, way) && way[0] == path[0] && way[|way| - 1] == at && forall i :: 0 <= i < |way| - 1 ==> way[i] != at
    decreases |path|
  {
    hide Holds;
    way := path;
    if i :| 0 <= i < |path| - 1 && path[i] == at {
      way := FirstWay(heap, path[..i + 1], at);
    }
  }

  lemma StepThenReachCloses(heap: Heap, a: nat, b: nat, path: seq<nat>)
    requires Holds(heap, a, b) && PathBetween(heap, path, b, a)
    ensures !Acyclic(heap)
  {
    hide Holds;
    var cycle := [a] + path;
    forall i | 0 <= i < |cycle| - 1 ensures Holds(heap, cycle[i], cycle[i + 1]) {
      if i > 0 { assert cycle[i] == path[i - 1] && cycle[i + 1] == path[i - 1 + 1]; }
    }
    assert Path(heap, cycle);
  }

  // ----- the functions over collections, as steps -----

  /** `pending` holds the lists being filled by a function whose code string is
      still running: nothing names them until the function returns. */
  datatype State = State(heap: Heap, next: nat, pending: set<nat>)

  predicate Known(s: State, value: Value) { Names(s.heap, value) && (IsCollection(value) ==> value.address !in s.pending) }

  predicate AllKnown(s: State, values: seq<Value>) { forall i :: 0 <= i < |values| ==> Known(s, values[i]) }

  ghost predicate Sound(s: State) {
    && Closed(s.heap) && Acyclic(s.heap)
    && (forall a :: a in s.heap ==> a < s.next)
    && (forall a :: a in s.heap ==> forall v :: v in Children(s.heap[a]) && IsCollection(v) ==> v.address !in s.pending)
    && (forall a :: a in s.pending ==> a in s.heap && s.heap[a].Items?)
  }

  datatype Operation =
    | Create(collection: Collection)
    | AddItem(list: Value, value: Value)
    | InsertItem(list: Value, value: Value, index: int)
    | RemoveItemAt(list: Value, index: int)
    | ClearItems(list: Value)
    | SetMember(dictionary: Value, key: string, value: Value)
    | RemoveMember(dictionary: Value, key: string)
    | ClearMembers(dictionary: Value)
    | Begin
    | Push(address: nat, value: Value)
    | Publish(address: nat)

  predicate KnownList(s: State, value: Value) { value.List? && Known(s, value) }

  predicate KnownDictionary(s: State, value: Value) { value.Dictionary? && Known(s, value) }

  /** The value may go in: it is not the collection itself, nor holds it. */
  ghost predicate MayHold(heap: Heap, at: nat, value: Value) { IsCollection(value) ==> !Reaches(heap, value.address, at) }

  ghost predicate Whole(s: State, c: Collection) {
    AllKnown(s, Children(c)) && (c.Members? ==> Valid(c.table, AsIs))
  }

  function Inserted(items: seq<Value>, index: nat, value: Value): seq<Value>
    requires index <= |items|
  {
    items[..index] + [value] + items[index..]
  }

  function Without(items: seq<Value>, index: nat): seq<Value>
    requires index < |items|
  {
    items[..index] + items[index + 1..]
  }

  function Update(s: State, at: nat, c: Collection): State { s.(heap := s.heap[at := c]) }

  /** What one function does; one that fails leaves everything as it was. */
  ghost function Stepped(s: State, op: Operation): State
    requires Sound(s)
  {
    match op
    case Create(c) => if Whole(s, c) then State(s.heap[s.next := c], s.next + 1, s.pending) else s
    case AddItem(list, value) =>
      if KnownList(s, list) && Known(s, value) && MayHold(s.heap, list.address, value)
      then Update(s, list.address, Items(s.heap[list.address].items + [value])) else s
    case InsertItem(list, value, index) =>
      if KnownList(s, list) && Known(s, value) && MayHold(s.heap, list.address, value) && 0 <= index <= |s.heap[list.address].items|
      then Update(s, list.address, Items(Inserted(s.heap[list.address].items, index, value))) else s
    case RemoveItemAt(list, index) =>
      if KnownList(s, list) && 0 <= index < |s.heap[list.address].items|
      then Update(s, list.address, Items(Without(s.heap[list.address].items, index))) else s
    case ClearItems(list) => if KnownList(s, list) then Update(s, list.address, Items([])) else s
    case SetMember(dictionary, key, value) =>
      if KnownDictionary(s, dictionary) && Known(s, value) && MayHold(s.heap, dictionary.address, value)
      then Update(s, dictionary.address, Members(Put(s.heap[dictionary.address].table, AsIs, key, value))) else s
    case RemoveMember(dictionary, key) =>
      if KnownDictionary(s, dictionary)
      then Update(s, dictionary.address, Members(Removed(s.heap[dictionary.address].table, AsIs, key))) else s
    case ClearMembers(dictionary) =>
      if KnownDictionary(s, dictionary) then Update(s, dictionary.address, Members(Empty())) else s
    case Begin => State(s.heap[s.next := Items([])], s.next + 1, s.pending + {s.next})
    case Push(address, value) =>
      if address in s.pending && Known(s, value) then Update(s, address, Items(s.heap[address].items + [value])) else s
    case Publish(address) => s.(pending := s.pending - {address})
  }

  /** A collection's new contents: what it held, but perhaps `value`. */
  ghost predicate HoldsAtMost(s: State, at: nat, c: Collection, value: Value) {
    forall v :: v in Children(c) ==> v == value || (at in s.heap && v in Children(s.heap[at]))
  }

  lemma UpdateKeepsSound(s: State, at: nat, c: Collection, value: Value)
    requires Sound(s) && at in s.heap && (c.Items? <==> s.heap[at].Items?) && (c.Members? ==> Valid(c.table, AsIs))
    requires Known(s, value) && MayHold(s.heap, at, value) && HoldsAtMost(s, at, c, value)
    ensures Sound(Update(s, at, c))
  {
    hide Children, Reaches, Acyclic, Valid;
    assert GainsAtMost(s.heap, Update(s, at, c).heap, at, value);
    GuardedChangeKeepsAcyclic(s.heap, Update(s, at, c).heap, at, value);
  }

  lemma CreateKeepsSound(s: State, c: Collection)
    requires Sound(s) && Whole(s, c)
    ensures Sound(State(s.heap[s.next := c], s.next + 1, s.pending))
  {
    hide Children, Acyclic, Valid;
    var after := s.heap[s.next := c];
    assert forall v :: v in Children(c) ==> Known(s, v) by {
      forall v | v in Children(c) ensures Known(s, v) { var i :| 0 <= i < |Children(c)| && Children(c)[i] == v; }
    }
    forall a ensures !Holds(after, a, s.next) {}
    UnheldKeepsAcyclic(s.heap, after, s.next);
  }

  lemma PushKeepsSound(s: State, address: nat, value: Value)
    requires Sound(s) && address in s.pending && Known(s, value)
    ensures Sound(Update(s, address, Items(s.heap[address].items + [value])))
  {
    hide Acyclic, Valid;
    var after := Update(s, address, Items(s.heap[address].items + [value])).heap;
    forall a ensures !Holds(after, a, address) {}
    UnheldKeepsAcyclic(s.heap, after, address);
  }

  lemma PutHoldsAtMost(table: Table<string, Value, string>, key: string, value: Value)
    requires Valid(table, AsIs)
    ensures Valid(Put(table, AsIs, key, value), AsIs)
    ensures forall v :: v in Children(Members(Put(table, AsIs, key, value))) ==> v == value || v in Children(Members(table))
  {
    var after := Put(table, AsIs, key, value);
    PutKeepsValid(table, AsIs, key, value);
    PutSlots(table, key, value);
    hide Valid, Put, Entries;
    forall v | v in Children(Members(after)) ensures v == value || v in Children(Members(table)) {
      var j :| 0 <= j < |Entries(after.slots)| && Entries(after.slots)[j].1 == v;
      var i := EntryHasSlot(after.slots, j);
      if v != value { SlotIsChild(table, i); }
    }
  }

  lemma PutSlots(table: Table<string, Value, string>, key: string, value: Value)
    requires Valid(table, AsIs)
    ensures var after := Put(table, AsIs, key, value).slots;
            forall i :: 0 <= i < |after| && after[i].Some? && after[i].value.1 != value ==> i < |table.slots| && after[i] == table.slots[i]
  {}

  lemma RemoveHoldsAtMost(table: Table<string, Value, string>, key: string)
    requires Valid(table, AsIs)
    ensures Valid(Removed(table, AsIs, key), AsIs)
    ensures forall v :: v in Children(Members(Removed(table, AsIs, key))) ==> v in Children(Members(table))
  {
    var after := Removed(table, AsIs, key);
    RemoveKeepsValid(table, AsIs, key);
    forall v | v in Children(Members(after)) ensures v in Children(Members(table)) {
      var j :| 0 <= j < |Entries(after.slots)| && Entries(after.slots)[j].1 == v;
      var i := EntryHasSlot(after.slots, j);
      SlotIsChild(table, i);
    }
  }

  lemma SlotIsChild(table: Table<string, Value, string>, i: nat)
    requires i < |table.slots| && table.slots[i].Some?
    ensures table.slots[i].value.1 in Children(Members(table))
  {
    EntriesAround(table.slots, i);
    var n := |Entries(table.slots[..i])|;
    assert Entries(table.slots)[n] == table.slots[i].value;
    assert Children(Members(table))[n] == table.slots[i].value.1;
  }

  lemma PutHolds(table: Table<string, Value, string>, key: string, value: Value)
    requires Valid(table, AsIs)
    ensures value in Children(Members(Put(table, AsIs, key, value)))
  {
    var after := Put(table, AsIs, key, value);
    PutKeepsValid(table, AsIs, key, value);
    SlotIsChild(after, after.index[key]);
  }

  /** The guard refuses nothing it need not: whatever it keeps out of a list, at
      the end or anywhere in it, or out of a dictionary under any key, would
      close a cycle. */
  lemma RefusedAdditionsWouldCycle(s: State, at: nat, value: Value)
    requires Sound(s) && at in s.heap && !MayHold(s.heap, at, value)
    ensures s.heap[at].Items? ==>
              && !Acyclic(Update(s, at, Items(s.heap[at].items + [value])).heap)
              && forall index: nat {:trigger Inserted(s.heap[at].items, index, value)} :: index <= |s.heap[at].items| ==>
                   !Acyclic(Update(s, at, Items(Inserted(s.heap[at].items, index, value))).heap)
    ensures s.heap[at].Members? ==>
              forall key: string {:trigger Put(s.heap[at].table, AsIs, key, value)} ::
                !Acyclic(Update(s, at, Members(Put(s.heap[at].table, AsIs, key, value))).heap)
  {
    hide Acyclic, Reaches, Valid, Put;
    if s.heap[at].Items? {
      var items := s.heap[at].items;
      assert (items + [value])[|items|] == value;
      UnguardedChangeCycles(s.heap, at, Items(items + [value]), value);
      forall index: nat | index <= |items| ensures !Acyclic(Update(s, at, Items(Inserted(items, index, value))).heap) {
        assert Inserted(items, index, value)[index] == value;
        UnguardedChangeCycles(s.heap, at, Items(Inserted(items, index, value)), value);
      }
    } else {
      var table := s.heap[at].table;
      forall key: string ensures !Acyclic(Update(s, at, Members(Put(table, AsIs, key, value))).heap) {
        PutHolds(table, key, value);
        UnguardedChangeCycles(s.heap, at, Members(Put(table, AsIs, key, value)), value);
      }
    }
  }

  /** Every step keeps every collection out of itself. */
  lemma StepKeepsSound(s: State, op: Operation)
    requires Sound(s)
    ensures Sound(Stepped(s, op))
  {
    hide Closed, Acyclic, Reaches, Valid, Put, Removed;
    var nothing := Boolean(false);
    match op
    case Create(c) => if Whole(s, c) { CreateKeepsSound(s, c); }
    case AddItem(list, value) =>
      if Stepped(s, op) != s { UpdateKeepsSound(s, list.address, Items(s.heap[list.address].items + [value]), value); }
    case InsertItem(list, value, index) =>
      if Stepped(s, op) != s { UpdateKeepsSound(s, list.address, Items(Inserted(s.heap[list.address].items, index, value)), value); }
    case RemoveItemAt(list, index) =>
      if Stepped(s, op) != s { UpdateKeepsSound(s, list.address, Items(Without(s.heap[list.address].items, index)), nothing); }
    case ClearItems(list) =>
      if Stepped(s, op) != s { UpdateKeepsSound(s, list.address, Items([]), nothing); }
    case SetMember(dictionary, key, value) =>
      if KnownDictionary(s, dictionary) && Known(s, value) && MayHold(s.heap, dictionary.address, value) {
        TableIsSound(s, dictionary.address);
        var table := s.heap[dictionary.address].table;
        PutHoldsAtMost(table, key, value);
        UpdateKeepsSound(s, dictionary.address, Members(Put(table, AsIs, key, value)), value);
      }
    case RemoveMember(dictionary, key) =>
      if KnownDictionary(s, dictionary) {
        TableIsSound(s, dictionary.address);
        var table := s.heap[dictionary.address].table;
        RemoveHoldsAtMost(table, key);
        UpdateKeepsSound(s, dictionary.address, Members(Removed(table, AsIs, key)), nothing);
      }
    case ClearMembers(dictionary) =>
      if KnownDictionary(s, dictionary) {
        NothingIn();
        UpdateKeepsSound(s, dictionary.address, Members(Empty()), nothing);
      }
    case Begin => BeginKeepsSound(s);
    case Push(address, value) => if address in s.pending && Known(s, value) { PushKeepsSound(s, address, value); }
    case Publish(address) =>
  }

  lemma TableIsSound(s: State, at: nat)
    requires Sound(s) && at in s.heap && s.heap[at].Members?
    ensures Valid(s.heap[at].table, AsIs)
  {}

  lemma NothingIn()
    ensures Valid<string, Value, string>(Empty(), AsIs) && Children(Members(Empty())) == []
  {}

  lemma BeginKeepsSound(s: State)
    requires Sound(s)
    ensures Sound(State(s.heap[s.next := Items([])], s.next + 1, s.pending + {s.next}))
  {
    hide Acyclic, Valid;
    CreateKeepsSound(s, Items([]));
    assert forall a :: a in s.heap ==> forall v :: v in Children(s.heap[a]) && IsCollection(v) ==> v.address in s.heap;
  }

  /** What the functions do to a list they are given: one item more at the end,
      or before the one at an index; the item at an index out; all of them out. */
  lemma ListFunctionsDo(s: State, list: Value, value: Value, index: nat)
    requires Sound(s) && KnownList(s, list) && Known(s, value)
    ensures var at, items := list.address, s.heap[list.address].items;
            var added, cleared := Stepped(s, AddItem(list, value)), Stepped(s, ClearItems(list));
            && cleared.heap[at] == Items([])
            && (if IsCollection(value) && Reaches(s.heap, value.address, at) then added == s
                else added.heap[at].Items? && |added.heap[at].items| == |items| + 1 && items <= added.heap[at].items && added.heap[at].items[|items|] == value)
    ensures var at, items := list.address, s.heap[list.address].items;
            var inserted := Stepped(s, InsertItem(list, value, index));
            && (if (IsCollection(value) && Reaches(s.heap, value.address, at)) || index > |items| then inserted == s
                else inserted.heap[at].Items? && |inserted.heap[at].items| == |items| + 1 && inserted.heap[at].items[index] == value
                     && inserted.heap[at].items[..index] == items[..index] && inserted.heap[at].items[index + 1..] == items[index..])
    ensures var at, items := list.address, s.heap[list.address].items;
            var removed := Stepped(s, RemoveItemAt(list, index));
            && (if index >= |items| then removed == s
                else removed.heap[at].Items? && |removed.heap[at].items| == |items| - 1
                     && removed.heap[at].items[..index] == items[..index] && removed.heap[at].items[index..] == items[index + 1..])
  {
    hide Sound, Reaches;
  }

  /** What a dictionary has under a key. */
  function Held(s: State, dictionary: Value, key: string): Option<Value> {
    if dictionary.Dictionary? && dictionary.address in s.heap && s.heap[dictionary.address].Members?
    then Get(s.heap[dictionary.address].table, AsIs, key) else Option.None
  }

  /** What they do to a dictionary: one key with the value and the others as
      they were. */
  lemma SettingAKeyDoes(s: State, dictionary: Value, key: string, value: Value, another: string)
    requires Sound(s) && KnownDictionary(s, dictionary) && Known(s, value) && another != key
    ensures var put := Stepped(s, SetMember(dictionary, key, value));
            if IsCollection(value) && Reaches(s.heap, value.address, dictionary.address) then put == s
            else Held(put, dictionary, key) == Option.Some(value) && Held(put, dictionary, another) == Held(s, dictionary, another)
  {
    MemberSteps(s, dictionary, key, value);
    hide *;
    var table := s.heap[dictionary.address].table;
    PutThenGet(table, key, value, another);
    HeldOnceSet(s, dictionary, Put(table, AsIs, key, value), key);
    HeldOnceSet(s, dictionary, Put(table, AsIs, key, value), another);
    HeldOnceSet(s, dictionary, table, another);
  }

  /** One key out, or all of them. */
  lemma RemovingAKeyDoes(s: State, dictionary: Value, key: string, another: string)
    requires Sound(s) && KnownDictionary(s, dictionary) && another != key
    ensures var removed := Stepped(s, RemoveMember(dictionary, key));
            Held(removed, dictionary, key) == Option.None && Held(removed, dictionary, another) == Held(s, dictionary, another)
    ensures Held(Stepped(s, ClearMembers(dictionary)), dictionary, key) == Option.None
  {
    MemberSteps(s, dictionary, key, Boolean(true));
    hide *;
    var table := s.heap[dictionary.address].table;
    PutThenGet(table, key, Boolean(true), another);
    HeldOnceSet(s, dictionary, Removed(table, AsIs, key), key);
    HeldOnceSet(s, dictionary, Removed(table, AsIs, key), another);
    HeldOnceSet(s, dictionary, Empty(), key);
    HeldOnceSet(s, dictionary, table, another);
  }

  lemma MemberSteps(s: State, dictionary: Value, key: string, value: Value)
    requires Sound(s) && KnownDictionary(s, dictionary) && Known(s, value)
    ensures dictionary.Dictionary? && dictionary.address in s.heap && s.heap[dictionary.address].Members?
    ensures var table := s.heap[dictionary.address].table;
            && Valid(table, AsIs) && Update(s, dictionary.address, Members(table)) == s
            && Stepped(s, RemoveMember(dictionary, key)) == Update(s, dictionary.address, Members(Removed(table, AsIs, key)))
            && Stepped(s, ClearMembers(dictionary)) == Update(s, dictionary.address, Members(Empty()))
            && Stepped(s, SetMember(dictionary, key, value)) ==
                 if IsCollection(value) && Reaches(s.heap, value.address, dictionary.address) then s
                 else Update(s, dictionary.address, Members(Put(table, AsIs, key, value)))
  {
    hide Sound, Reaches, Put, Removed, Valid, Update;
    TableIsSound(s, dictionary.address);
    SameAgain(s, dictionary.address);
  }

  lemma SameAgain(s: State, at: nat)
    requires at in s.heap && s.heap[at].Members?
    ensures Update(s, at, Members(s.heap[at].table)) == s
  {
    assert s.heap[at := Members(s.heap[at].table)] == s.heap;
  }

  lemma HeldOnceSet(s: State, dictionary: Value, table: Table<string, Value, string>, key: string)
    requires dictionary.Dictionary?
    ensures Held(Update(s, dictionary.address, Members(table)), dictionary, key) == Get(table, AsIs, key)
  {
    hide Get;
  }

  /** And nothing else in the heap. */
  lemma OthersStay(s: State, op: Operation, other: nat)
    requires Sound(s) && other in s.heap
    requires op.AddItem? || op.InsertItem? || op.RemoveItemAt? || op.ClearItems? ==> op.list.List? ==> other != op.list.address
    requires op.SetMember? || op.RemoveMember? || op.ClearMembers? ==> op.dictionary.Dictionary? ==> other != op.dictionary.address
    requires op.Push? ==> other != op.address
    ensures other in Stepped(s, op).heap && Stepped(s, op).heap[other] == s.heap[other]
  {
    hide Reaches, Put, Removed, Valid, Closed, Acyclic;
  }

  lemma PutThenGet(table: Table<string, Value, string>, key: string, value: Value, another: string)
    requires Valid(table, AsIs) && another != key
    ensures Get(Put(table, AsIs, key, value), AsIs, key) == Option.Some(value)
    ensures Get(Put(table, AsIs, key, value), AsIs, another) == Get(table, AsIs, another) == Get(Removed(table, AsIs, key), AsIs, another)
    ensures Get(Removed(table, AsIs, key), AsIs, key).None? && Get<string, Value, string>(Empty(), AsIs, key).None?
  {
    PutKeepsValid(table, AsIs, key, value);
    RemoveKeepsValid(table, AsIs, key);
    hide Put, Removed;
    PutContents(table, AsIs, key, value);
    RemoveContents(table, AsIs, key);
    GetReadsContents(table, AsIs, another);
    GetReadsContents(Put(table, AsIs, key, value), AsIs, key);
    GetReadsContents(Put(table, AsIs, key, value), AsIs, another);
    GetReadsContents(Removed(table, AsIs, key), AsIs, key);
    GetReadsContents(Removed(table, AsIs, key), AsIs, another);
  }

  ghost function AfterRun(ops: seq<Operation>): (s: State)
    ensures Sound(s)
  {
    if ops == [] then
      assert Acyclic(map[]) by { NoPathsInNothing(); }
      State(map[], 0, {})
    else
      var before := AfterRun(ops[..|ops| - 1]);
      StepKeepsSound(before, ops[|ops| - 1]);
      Stepped(before, ops[|ops| - 1])
  }

  lemma NoPathsInNothing()
    ensures Acyclic(map[])
  {
    forall path: seq<nat> | |path| >= 2 ensures !Path(map[], path) {
      assert !Holds(map[], path[0], path[0 + 1]);
    }
  }

  /** After any run of the functions, no collection holds itself at any depth. */
  lemma RunsNeverCycle(ops: seq<Operation>, a: nat, b: nat)
    requires Holds(AfterRun(ops).heap, a, b)
    ensures !Reaches(AfterRun(ops).heap, b, a)
  {
    hide Holds;
    var heap := AfterRun(ops).heap;
    if Reaches(heap, b, a) {
      var path :| PathBetween(heap, path, b, a);
      StepThenReachCloses(heap, a, b, path);
    }
  }

  // ----- the functions themselves -----

  datatype Outcome = Done | Cyclic | WrongKind | Overflow | BadIndex | OddArguments | DuplicateKey

  /** A value taken as a whole number: cut toward zero, when it is a number at
      all and 32 bits hold what is left. */
  datatype Cut = WholeNumber(n: int) | NoNumber | TooLarge

  const I32_MIN := -0x8000_0000
  const I32_MAX := 0x7fff_ffff

  function AsNumber(value: Value): Option<Number> {
    match value
    case Number(number) => Some(number)
    case Boolean(truth) => Some(Finite(if truth then 1.0 else 0.0))
    case _ => None
  }

  function Truncated(x: real): int { if x >= 0.0 then x.Floor else -((-x).Floor) }

  function CutToInt(value: Value): Cut {
    match AsNumber(value)
    case None => NoNumber
    case Some(Finite(x)) => if I32_MIN <= Truncated(x) <= I32_MAX then WholeNumber(Truncated(x)) else TooLarge
    case Some(_) => TooLarge
  }

  /** How a function fails on an index, the upper end given. */
  function IndexOutcome(index: Cut, end: nat): Outcome {
    match index
    case NoNumber => WrongKind
    case TooLarge => Overflow
    case WholeNumber(n) => if 0 <= n < end then Done else BadIndex
  }

  /** The first of `items` that is the same value. */
  ghost predicate FirstSame(items: seq<Value>, value: Value, index: int) {
    if index < 0 then forall i :: 0 <= i < |items| ==> !SameValue(items[i], value)
    else index < |items| && SameValue(items[index], value) && forall i :: 0 <= i < index ==> !SameValue(items[i], value)
  }

  /** Where an item is popped: the end when no index, or -1, is given. */
  function PopAt(items: seq<Value>, index: Option<Value>): Cut {
    if index.None? || AsNumber(index.value) == Some(Finite(-1.0)) then WholeNumber(|items| - 1) else CutToInt(index.value)
  }

  /** What is left of a number once it is cut is the whole number next to it on
      the side of zero. */
  lemma CutTowardZero(x: real)
    ensures if x >= 0.0 then Truncated(x) as real <= x < (Truncated(x) + 1) as real else (Truncated(x) - 1) as real < x <= Truncated(x) as real
    ensures CutToInt(Value.Number(Finite(x))) == if -0x8000_0001 as real < x < 0x8000_0000 as real then WholeNumber(Truncated(x)) else TooLarge
  {}

  /** A truth will do for a number, and nothing else but a number does. */
  lemma TruthsAreNumbers(value: Value)
    ensures CutToInt(Boolean(true)) == WholeNumber(1) && CutToInt(Boolean(false)) == WholeNumber(0)
    ensures CutToInt(value) == NoNumber <==> !value.Number? && !value.Boolean?
  {}

  /** An index is cut, -1 is not: -1.5 is refused where -1 pops the last. */
  lemma OnlyMinusOneIsTheEnd(items: seq<Value>, x: real)
    ensures PopAt(items, Some(Value.Number(Finite(x)))) == WholeNumber(-1) <==> (-2.0 < x <= -1.0 && (x == -1.0 ==> items == []))
  {}

  class Collections {
    var heap: Heap
    var next: nat
    ghost var pending: set<nat>

    ghost function Now(): State reads this { State(heap, next, pending) }

    constructor ()
      ensures Now() == AfterRun([])
    {
      heap, next, pending := map[], 0, {};
    }

    /** A list of values at hand: created, copied, reversed, sorted, sliced,
        counted out, or a dictionary's keys or values. */
    method ListCreate(items: seq<Value>) returns (list: Value)
      requires Sound(Now()) && AllKnown(Now(), items)
      modifies this
      ensures Now() == Stepped(old(Now()), Create(Items(items))) && Sound(Now())
      ensures list.List? && list.address !in old(heap) && heap == old(heap)[list.address := Items(items)]
    {
      hide Closed, Acyclic;
      StepKeepsSound(Now(), Create(Items(items)));
      list := List(next);
      heap := heap[next := Items(items)];
      next := next + 1;
    }

    method ListAdd(list: Value, value: Value) returns (outcome: Outcome)
      requires Sound(Now()) && Known(Now(), list) && Known(Now(), value)
      modifies this
      ensures Now() == Stepped(old(Now()), AddItem(list, value)) && Sound(Now())
      ensures outcome == if !list.List? then WrongKind else if !MayHold(old(heap), list.address, value) then Cyclic else Done
      ensures outcome != Done ==> heap == old(heap)
    {
      hide Closed, Acyclic, Reaches;
      StepKeepsSound(Now(), AddItem(list, value));
      if !list.List? { return WrongKind; }
      HeapIsClosed(Now());
      var cyclic := WouldCycle(heap, list.address, value);
      if cyclic { return Cyclic; }
      heap := heap[list.address := Items(heap[list.address].items + [value])];
      outcome := Done;
    }

    /** The guard comes before the index is looked at. */
    method ListInsert(list: Value, value: Value, index: Value) returns (outcome: Outcome)
      requires Sound(Now()) && Known(Now(), list) && Known(Now(), value)
      modifies this
      ensures Now() == (if CutToInt(index).WholeNumber? then Stepped(old(Now()), InsertItem(list, value, CutToInt(index).n)) else old(Now()))
      ensures Sound(Now())
      ensures outcome == if !list.List? then WrongKind else if !MayHold(old(heap), list.address, value) then Cyclic
                         else IndexOutcome(CutToInt(index), |old(heap)[list.address].items| + 1)
      ensures outcome != Done ==> heap == old(heap)
    {
      hide Closed, Acyclic, Reaches;
      var at := CutToInt(index);
      if at.WholeNumber? { StepKeepsSound(Now(), InsertItem(list, value, at.n)); }
      if !list.List? { return WrongKind; }
      HeapIsClosed(Now());
      var cyclic := WouldCycle(heap, list.address, value);
      if cyclic { return Cyclic; }
      if at.NoNumber? { return WrongKind; }
      if at.TooLarge? { return Overflow; }
      var items := heap[list.address].items;
      if at.n < 0 || at.n > |items| { return BadIndex; }
      heap := heap[list.address := Items(items[..at.n] + [value] + items[at.n..])];
      outcome := Done;
    }

    /** Takes out the first item that is the same value, if there is one. */
    method ListRemove(list: Value, item: Value) returns (outcome: Outcome, ghost index: int)
      requires Sound(Now()) && Known(Now(), list)
      modifies this
      ensures Sound(Now()) && (outcome == if list.List? then Done else WrongKind)
      ensures list.List? ==> FirstSame(old(heap)[list.address].items, item, index)
      ensures Now() == if list.List? && index >= 0 then Stepped(old(Now()), RemoveItemAt(list, index)) else old(Now())
    {
      hide Closed, Acyclic;
      index := -1;
      if !list.List? { return WrongKind, -1; }
      var items := heap[list.address].items;
      for i := 0 to |items|
        invariant heap == old(heap) && Now() == old(Now())
        invariant forall k :: 0 <= k < i ==> !SameValue(items[k], item)
      {
        if SameValue(items[i], item) {
          StepKeepsSound(Now(), RemoveItemAt(list, i));
          heap := heap[list.address := Items(items[..i] + items[i + 1..])];
          return Done, i;
        }
      }
      outcome := Done;
    }

    method ListRemoveAt(list: Value, index: Value) returns (outcome: Outcome)
      requires Sound(Now()) && Known(Now(), list)
      modifies this
      ensures Now() == (if CutToInt(index).WholeNumber? then Stepped(old(Now()), RemoveItemAt(list, CutToInt(index).n)) else old(Now()))
      ensures Sound(Now())
      ensures outcome == if !list.List? then WrongKind else IndexOutcome(CutToInt(index), |old(heap)[list.address].items|)
    {
      hide Closed, Acyclic;
      var at := CutToInt(index);
      if at.WholeNumber? { StepKeepsSound(Now(), RemoveItemAt(list, at.n)); }
      if !list.List? || at.NoNumber? { return WrongKind; }
      if at.TooLarge? { return Overflow; }
      var items := heap[list.address].items;
      if at.n < 0 || at.n >= |items| { return BadIndex; }
      heap := heap[list.address := Items(items[..at.n] + items[at.n + 1..])];
      outcome := Done;
    }

    /** Takes out and answers an item. */
    method ListPop(list: Value, index: Option<Value>) returns (outcome: Outcome, item: Value)
      requires Sound(Now()) && Known(Now(), list)
      modifies this
      ensures Sound(Now())
      ensures list.List? ==>
                var items := old(heap)[list.address].items;
                var at := PopAt(items, index);
                && outcome == IndexOutcome(at, |items|)
                && Now() == (if at.WholeNumber? then Stepped(old(Now()), RemoveItemAt(list, at.n)) else old(Now()))
                && (outcome == Done ==> at.WholeNumber? && item == items[at.n])
      ensures !list.List? ==> outcome == WrongKind && Now() == old(Now())
    {
      hide Closed, Acyclic;
      item := Boolean(false);
      if !list.List? { return WrongKind, item; }
      var items := heap[list.address].items;
      var at := PopAt(items, index);
      if at.NoNumber? { return WrongKind, item; }
      if at.TooLarge? { return Overflow, item; }
      StepKeepsSound(Now(), RemoveItemAt(list, at.n));
      if at.n < 0 || at.n >= |items| { return BadIndex, item; }
      item := items[at.n];
      heap := heap[list.address := Items(items[..at.n] + items[at.n + 1..])];
      outcome := Done;
    }

    method ListClear(list: Value) returns (outcome: Outcome)
      requires Sound(Now()) && Known(Now(), list)
      modifies this
      ensures Now() == Stepped(old(Now()), ClearItems(list)) && Sound(Now()) && (outcome == if list.List? then Done else WrongKind)
    {
      hide Closed, Acyclic;
      StepKeepsSound(Now(), ClearItems(list));
      if !list.List? { return WrongKind; }
      heap := heap[list.address := Items([])];
      outcome := Done;
    }

    /** Starts the result of a filter or map, held by nothing while the code
        string runs once for every item. */
    method BeginResult() returns (address: nat)
      requires Sound(Now())
      modifies this
      ensures Now() == Stepped(old(Now()), Begin) && Sound(Now()) && address == old(next)
    {
      hide Closed, Acyclic;
      StepKeepsSound(Now(), Begin);
      address := next;
      heap := heap[next := Items([])];
      pending := pending + {next};
      next := next + 1;
    }

    /** An item of the result, taken without a guard. */
    method PushResult(address: nat, item: Value)
      requires Sound(Now()) && address in pending && Known(Now(), item)
      modifies this
      ensures Now() == Stepped(old(Now()), Push(address, item)) && Sound(Now())
    {
      hide Acyclic;
      StepKeepsSound(Now(), Push(address, item));
      heap := heap[address := Items(heap[address].items + [item])];
    }

    method ReturnResult(address: nat) returns (list: Value)
      requires Sound(Now()) && address in pending
      modifies this
      ensures Now() == Stepped(old(Now()), Publish(address)) && Sound(Now()) && list == List(address) && Known(Now(), list)
    {
      hide Acyclic;
      StepKeepsSound(Now(), Publish(address));
      pending := pending - {address};
      list := List(address);
    }

    /** A dictionary of key and value pairs, the keys texts and all different. */
    method DictCreate(arguments: seq<Value>) returns (outcome: Outcome, dictionary: Value)
      requires Sound(Now()) && AllKnown(Now(), arguments)
      modifies this
      ensures Sound(Now())
      ensures outcome == Done <==> |arguments| % 2 == 0 && KeysDiffer(Pairs(arguments))
      ensures outcome == Done ==>
                && dictionary == Dictionary(old(next)) && dictionary.address !in old(heap)
                && Now() == Stepped(old(Now()), Create(Members(TableOf(Pairs(arguments)))))
      ensures outcome != Done ==> Now() == old(Now())
    {
      hide Closed, Acyclic, Valid, Put, KeysDiffer, Pairs, TableOf, Whole;
      dictionary := Boolean(false);
      if |arguments| % 2 != 0 { return OddArguments, dictionary; }
      var pairs := Pairs(arguments);
      var table: Table<string, Value, string> := Empty();
      NoPairs(pairs);
      for i := 0 to |pairs|
        invariant Now() == old(Now()) && Valid(table, AsIs)
        invariant KeysDiffer(pairs[..i]) && table == TableOf(pairs[..i])
      {
        OneMorePair(pairs, i);
        if !pairs[i].0.Text? { return WrongKind, dictionary; }
        var key := pairs[i].0.text;
        if key in table.index { return DuplicateKey, dictionary; }
        table := Put(table, AsIs, key, pairs[i].1);
      }
      assert pairs[..|pairs|] == pairs;
      AllPairs(Now(), arguments);
      StepKeepsSound(Now(), Create(Members(table)));
      dictionary := Dictionary(next);
      heap := heap[next := Members(table)];
      next := next + 1;
      outcome := Done;
    }

    /** A packed copy of a dictionary. */
    method DictCopy(dictionary: Value) returns (outcome: Outcome, copy: Value)
      requires Sound(Now()) && Known(Now(), dictionary)
      modifies this
      ensures Sound(Now()) && (outcome == if dictionary.Dictionary? then Done else WrongKind)
      ensures dictionary.Dictionary? ==>
                && copy == Dictionary(old(next)) && copy.address !in old(heap) && copy.address in heap && heap[copy.address].Members?
                && Entries(heap[copy.address].table.slots) == Entries(old(heap)[dictionary.address].table.slots)
                && forall a :: a in old(heap) ==> a in heap && heap[a] == old(heap)[a]
    {
      hide Closed, Acyclic, Valid, Put, Entries, Dictionaries.Run, Inserts;
      copy := dictionary;
      if !dictionary.Dictionary? { return WrongKind, copy; }
      TableIsSound(Now(), dictionary.address);
      var entries := Entries(heap[dictionary.address].table.slots);
      var table: Table<string, Value, string> := Empty();
      EmptyIsSound(entries);
      for i := 0 to |entries|
        invariant Now() == old(Now()) && Valid(table, AsIs)
        invariant table == Dictionaries.Run(AsIs, Inserts(entries[..i]))
      {
        assert entries[..i + 1] == entries[..i] + [entries[i]];
        InsertAppends(AsIs, entries[..i], entries[i]);
        PutKeepsValid(table, AsIs, entries[i].0, entries[i].1);
        table := Put(table, AsIs, entries[i].0, entries[i].1);
      }
      assert entries[..|entries|] == entries;
      CopyEnumeratesAlike(heap[dictionary.address].table, AsIs);
      ChildrenAreKnown(Now(), dictionary.address);
      StepKeepsSound(Now(), Create(Members(table)));
      copy := Dictionary(next);
      heap := heap[next := Members(table)];
      next := next + 1;
      outcome := Done;
    }

    method DictAddItem(dictionary: Value, key: Value, value: Value) returns (outcome: Outcome, replaced: bool)
      requires Sound(Now()) && Known(Now(), dictionary) && Known(Now(), value)
      modifies this
      ensures Sound(Now())
      ensures outcome == if !dictionary.Dictionary? || !key.Text? then WrongKind
                         else if !MayHold(old(heap), dictionary.address, value) then Cyclic else Done
      ensures outcome == Done ==>
                && Now() == Stepped(old(Now()), SetMember(dictionary, key.text, value))
                && replaced == (key.text in old(heap)[dictionary.address].table.index)
      ensures outcome != Done ==> Now() == old(Now())
    {
      hide Closed, Acyclic, Reaches, Valid, Put;
      replaced := false;
      if !dictionary.Dictionary? || !key.Text? { return WrongKind, false; }
      StepKeepsSound(Now(), SetMember(dictionary, key.text, value));
      HeapIsClosed(Now());
      var cyclic := WouldCycle(heap, dictionary.address, value);
      if cyclic { return Cyclic, false; }
      TableIsSound(Now(), dictionary.address);
      var table := heap[dictionary.address].table;
      replaced := key.text in table.index;
      heap := heap[dictionary.address := Members(Put(table, AsIs, key.text, value))];
      outcome := Done;
    }

    method DictRemoveKey(dictionary: Value, key: Value) returns (outcome: Outcome, removed: bool)
      requires Sound(Now()) && Known(Now(), dictionary)
      modifies this
      ensures Sound(Now()) && (outcome == if dictionary.Dictionary? && key.Text? then Done else WrongKind)
      ensures outcome == Done ==>
                && Now() == Stepped(old(Now()), RemoveMember(dictionary, key.text))
                && removed == (key.text in old(heap)[dictionary.address].table.index)
      ensures outcome != Done ==> Now() == old(Now())
    {
      hide Closed, Acyclic, Valid, Removed;
      if !dictionary.Dictionary? || !key.Text? { return WrongKind, false; }
      StepKeepsSound(Now(), RemoveMember(dictionary, key.text));
      TableIsSound(Now(), dictionary.address);
      var table := heap[dictionary.address].table;
      removed := key.text in table.index;
      heap := heap[dictionary.address := Members(Removed(table, AsIs, key.text))];
      outcome := Done;
    }

    method DictClear(dictionary: Value) returns (outcome: Outcome)
      requires Sound(Now()) && Known(Now(), dictionary)
      modifies this
      ensures Now() == Stepped(old(Now()), ClearMembers(dictionary)) && Sound(Now())
      ensures outcome == if dictionary.Dictionary? then Done else WrongKind
    {
      hide Closed, Acyclic, Valid;
      StepKeepsSound(Now(), ClearMembers(dictionary));
      if !dictionary.Dictionary? { return WrongKind; }
      heap := heap[dictionary.address := Members(Empty())];
      outcome := Done;
    }
  }

  lemma HeapIsClosed(s: State)
    requires Sound(s)
    ensures Closed(s.heap)
  {}

  lemma EmptyIsSound(entries: seq<(string, Value)>)
    ensures Valid<string, Value, string>(Empty(), AsIs) && Empty() == Dictionaries.Run(AsIs, Inserts(entries[..0]))
  {}

  /** What a collection at hand holds is at hand. */
  lemma ChildrenAreKnown(s: State, at: nat)
    requires Sound(s) && at in s.heap
    ensures AllKnown(s, Children(s.heap[at]))
  {
    forall i | 0 <= i < |Children(s.heap[at])| ensures Known(s, Children(s.heap[at])[i]) {
      assert Children(s.heap[at])[i] in Children(s.heap[at]);
    }
  }

  // ----- key and value pairs -----

  function Pairs(arguments: seq<Value>): seq<(Value, Value)> {
    if |arguments| < 2 then [] else [(arguments[0], arguments[1])] + Pairs(arguments[2..])
  }

  /** The table of the pairs; one whose key is not a text adds nothing. */
  function TableOf(pairs: seq<(Value, Value)>): (table: Table<string, Value, string>)
    ensures Valid(table, AsIs)
  {
    if pairs == [] then Empty()
    else
      var before := TableOf(pairs[..|pairs| - 1]);
      var (key, value) := pairs[|pairs| - 1];
      if key.Text? then PutKeepsValid(before, AsIs, key.text, value); Put(before, AsIs, key.text, value) else before
  }

  ghost predicate KeysDiffer(pairs: seq<(Value, Value)>) {
    && (forall i :: 0 <= i < |pairs| ==> pairs[i].0.Text?)
    && (forall i, j :: 0 <= i < j < |pairs| ==> pairs[i].0 != pairs[j].0)
  }

  lemma NoPairs(pairs: seq<(Value, Value)>)
    ensures KeysDiffer(pairs[..0]) && TableOf(pairs[..0]) == Empty() && Valid(TableOf(pairs[..0]), AsIs)
  {}

  /** The table holds the keys so far, so it tells whether the next is new. */
  lemma {:induction false} KeysAreIndexed(pairs: seq<(Value, Value)>)
    requires KeysDiffer(pairs)
    ensures forall key :: key in TableOf(pairs).index <==> exists i :: 0 <= i < |pairs| && pairs[i].0 == Text(key)
  {
    if pairs != [] {
      var last := pairs[|pairs| - 1];
      KeysAreIndexed(pairs[..|pairs| - 1]);
      PutIndexes(TableOf(pairs[..|pairs| - 1]), last.0.text, last.1);
      assert TableOf(pairs).index.Keys == TableOf(pairs[..|pairs| - 1]).index.Keys + {last.0.text};
      hide Valid, Put, TableOf, KeysDiffer;
      forall key ensures key in TableOf(pairs).index <==> exists i :: 0 <= i < |pairs| && pairs[i].0 == Text(key) {
        LastPairOrBefore(pairs, key);
      }
    }
  }

  lemma LastPairOrBefore(pairs: seq<(Value, Value)>, key: string)
    requires pairs != []
    ensures var n := |pairs| - 1;
            (exists i :: 0 <= i < |pairs| && pairs[i].0 == Text(key))
              <==> pairs[n].0 == Text(key) || exists i :: 0 <= i < n && pairs[..n][i].0 == Text(key)
  {
    var n := |pairs| - 1;
    if i :| 0 <= i < |pairs| && pairs[i].0 == Text(key) {
      if i < n { assert pairs[..n][i] == pairs[i]; }
    }
  }

  lemma PutIndexes(table: Table<string, Value, string>, key: string, value: Value)
    requires Valid(table, AsIs)
    ensures Put(table, AsIs, key, value).index.Keys == table.index.Keys + {key}
  {}

  lemma OneMorePair(pairs: seq<(Value, Value)>, i: nat)
    requires i < |pairs| && KeysDiffer(pairs[..i])
    ensures var isNew := pairs[i].0.Text? && pairs[i].0.text !in TableOf(pairs[..i]).index;
            (KeysDiffer(pairs[..i + 1]) <==> isNew) && (!isNew ==> !KeysDiffer(pairs))
    ensures pairs[i].0.Text? ==>
              && TableOf(pairs[..i + 1]) == Put(TableOf(pairs[..i]), AsIs, pairs[i].0.text, pairs[i].1)
              && Valid(TableOf(pairs[..i + 1]), AsIs)
  {
    hide Valid, Put;
    KeysAreIndexed(pairs[..i]);
    assert pairs[..i + 1][..i] == pairs[..i];
    if pairs[i].0.Text? && pairs[i].0.text in TableOf(pairs[..i]).index {
      var j :| 0 <= j < i && pairs[..i][j].0 == Text(pairs[i].0.text);
      assert pairs[..i + 1][j] == pairs[j] && pairs[..i + 1][i] == pairs[i];
    }
  }

  lemma {:induction false} PairsAreArguments(s: State, pairs: seq<(Value, Value)>)
    requires forall i :: 0 <= i < |pairs| ==> Known(s, pairs[i].1)
    ensures AllKnown(s, Children(Members(TableOf(pairs))))
  {
    if pairs != [] {
      var last := |pairs| - 1;
      var before := TableOf(pairs[..last]);
      PairsAreArguments(s, pairs[..last]);
      if pairs[last].0.Text? {
        PutHoldsAtMost(before, pairs[last].0.text, pairs[last].1);
        hide Put, Valid, Children;
        var after := Children(Members(TableOf(pairs)));
        forall i | 0 <= i < |after| ensures Known(s, after[i]) {
          assert after[i] in after;
          if after[i] != pairs[last].1 {
            var j :| 0 <= j < |Children(Members(before))| && Children(Members(before))[j] == after[i];
          }
        }
      }
    }
  }

  lemma {:induction false} PairValuesKnown(s: State, arguments: seq<Value>)
    requires AllKnown(s, arguments)
    ensures forall i :: 0 <= i < |Pairs(arguments)| ==> Known(s, Pairs(arguments)[i].1)
  {
    if |arguments| >= 2 {
      PairValuesKnown(s, arguments[2..]);
    }
  }

  lemma AllPairs(s: State, arguments: seq<Value>)
    requires AllKnown(s, arguments)
    ensures Whole(s, Members(TableOf(Pairs(arguments))))
  {
    PairValuesKnown(s, arguments);
    PairsAreArguments(s, Pairs(arguments));
  }
}
