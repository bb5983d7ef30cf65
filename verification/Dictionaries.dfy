/** The two maps that enumerate as a .NET dictionary does: entries in slots, a
    freed slot taken by the next addition, the last freed one first. One
    compares keys by a normalised form, the other holds strings; both are
    proved against the same slot table. */
module Dictionaries {

  datatype Option<+T> = None | Some(value: T)

  /** The slots, the stack of freed ones, and where each normalised key sits. */
  datatype Table<K, V, N> = Table(slots: seq<Option<(K, V)>>, free: seq<nat>, index: map<N, nat>)

  function Empty<K, V, N>(): Table<K, V, N> { Table([], [], map[]) }

  function Get<K, V, N>(t: Table<K, V, N>, fold: K -> N, key: K): Option<V> {
    if fold(key) in t.index && t.index[fold(key)] < |t.slots| && t.slots[t.index[fold(key)]].Some?
    then Some(t.slots[t.index[fold(key)]].value.1)
    else None
  }

  /** A key already there keeps its slot and its first spelling and changes its
      value; a new one takes the slot on top of the free list, or extends. */
  function Put<K, V, N>(t: Table<K, V, N>, fold: K -> N, key: K, value: V): Table<K, V, N>
    requires Valid(t, fold)
  {
    var n := fold(key);
    if n in t.index then
      var slot := t.index[n];
      t.(slots := t.slots[slot := Some((t.slots[slot].value.0, value))])
    else if t.free != [] then
      var slot := t.free[|t.free| - 1];
      Table(t.slots[slot := Some((key, value))], t.free[..|t.free| - 1], t.index[n := slot])
    else
      Table(t.slots + [Some((key, value))], [], t.index[n := |t.slots|])
  }

  function Vacate<K, V, N>(t: Table<K, V, N>, n: N, slot: nat): Table<K, V, N>
    requires slot < |t.slots|
  {
    Table(t.slots[slot := None], t.free + [slot], t.index - {n})
  }

  function Removed<K, V, N>(t: Table<K, V, N>, fold: K -> N, key: K): Table<K, V, N>
    requires Valid(t, fold)
  {
    if fold(key) in t.index then Vacate(t, fold(key), t.index[fold(key)]) else t
  }

  // ----- what every table keeps -----

  ghost predicate Indexed<K, V, N>(t: Table<K, V, N>, fold: K -> N) {
    && (forall n :: n in t.index ==>
          t.index[n] < |t.slots| && t.slots[t.index[n]].Some? && fold(t.slots[t.index[n]].value.0) == n)
    && (forall i :: 0 <= i < |t.slots| && t.slots[i].Some? ==>
          fold(t.slots[i].value.0) in t.index && t.index[fold(t.slots[i].value.0)] == i)
  }

  /** The freed slots are exactly the empty ones, each on the stack once. */
  ghost predicate FreeListed<K, V, N>(t: Table<K, V, N>) {
    && (forall j :: 0 <= j < |t.free| ==> t.free[j] < |t.slots| && t.slots[t.free[j]].None?)
    && (forall i: nat :: i < |t.slots| && t.slots[i].None? ==> i in t.free)
    && (forall a, b :: 0 <= a < b < |t.free| ==> t.free[a] != t.free[b])
  }

  ghost predicate Valid<K, V, N>(t: Table<K, V, N>, fold: K -> N) { Indexed(t, fold) && FreeListed(t) }

  lemma PutKeepsValid<K, V, N>(t: Table<K, V, N>, fold: K -> N, key: K, value: V)
    requires Valid(t, fold)
    ensures Valid(Put(t, fold, key, value), fold)
  {
    PutKeepsIndex(t, fold, key, value);
    PutKeepsFreeList(t, fold, key, value);
  }

  lemma PutKeepsIndex<K, V, N>(t: Table<K, V, N>, fold: K -> N, key: K, value: V)
    requires Valid(t, fold)
    ensures Indexed(Put(t, fold, key, value), fold)
  {
    hide FreeListed;
    if t.free != [] { LastFreeIsASlot(t, fold); }
  }

  lemma PutKeepsFreeList<K, V, N>(t: Table<K, V, N>, fold: K -> N, key: K, value: V)
    requires Valid(t, fold)
    ensures FreeListed(Put(t, fold, key, value))
  {
    var u := Put(t, fold, key, value);
    if fold(key) in t.index {
      SlotOf(t, fold, key);
      hide Indexed;
    } else if t.free != [] {
      hide Indexed;
      SlotTaken(t, u);
    }
  }

  lemma SlotTaken<K, V, N>(t: Table<K, V, N>, u: Table<K, V, N>)
    requires FreeListed(t) && t.free != []
    requires var slot := t.free[|t.free| - 1];
             |u.slots| == |t.slots| && slot < |u.slots| && u.slots[slot].Some? && u.free == t.free[..|t.free| - 1]
             && forall i :: 0 <= i < |t.slots| && i != slot ==> u.slots[i] == t.slots[i]
    ensures FreeListed(u)
  {
    forall i: nat | i < |u.slots| && u.slots[i].None? ensures i in u.free {
      assert t.slots[i].None?;
      var j :| 0 <= j < |t.free| && t.free[j] == i;
      assert u.free[j] == i;
    }
  }

  lemma RemoveKeepsValid<K, V, N>(t: Table<K, V, N>, fold: K -> N, key: K)
    requires Valid(t, fold)
    ensures Valid(Removed(t, fold, key), fold)
  {
    if fold(key) in t.index {
      SlotFreed(t, fold(key), t.index[fold(key)]);
      RemoveKeepsIndex(t, fold, key);
    }
  }

  lemma RemoveKeepsIndex<K, V, N>(t: Table<K, V, N>, fold: K -> N, key: K)
    requires Valid(t, fold) && fold(key) in t.index
    ensures Indexed(Removed(t, fold, key), fold)
  {
    hide FreeListed;
  }

  lemma SlotFreed<K, V, N>(t: Table<K, V, N>, n: N, slot: nat)
    requires FreeListed(t) && slot < |t.slots| && t.slots[slot].Some?
    ensures FreeListed(Vacate(t, n, slot))
  {
    var u := Vacate(t, n, slot);
    assert u.free[|t.free|] == slot;
    forall i: nat | i < |u.slots| && u.slots[i].None? ensures i in u.free {
      if i != slot {
        var j :| 0 <= j < |t.free| && t.free[j] == i;
        assert u.free[j] == i;
      }
    }
  }

  lemma SlotOf<K, V, N>(t: Table<K, V, N>, fold: K -> N, key: K)
    requires Valid(t, fold) && fold(key) in t.index
    ensures t.index[fold(key)] < |t.slots| && t.slots[t.index[fold(key)]].Some? && fold(t.slots[t.index[fold(key)]].value.0) == fold(key)
  {}

  lemma LastFreeIsASlot<K, V, N>(t: Table<K, V, N>, fold: K -> N)
    requires Valid(t, fold) && t.free != []
    ensures t.free[|t.free| - 1] < |t.slots| && t.slots[t.free[|t.free| - 1]].None?
  {}

  // ----- the map a table stands for -----

  /** Each normalised key with its entry. */
  ghost function Contents<K, V, N>(t: Table<K, V, N>, fold: K -> N): map<N, (K, V)>
    requires Valid(t, fold)
  {
    map n | n in t.index :: t.slots[t.index[n]].value
  }

  lemma PutContents<K, V, N>(t: Table<K, V, N>, fold: K -> N, key: K, value: V)
    requires Valid(t, fold)
    ensures Valid(Put(t, fold, key, value), fold)
    ensures var before := Contents(t, fold);
            Contents(Put(t, fold, key, value), fold)
              == before[fold(key) := (if fold(key) in before then before[fold(key)].0 else key, value)]
  {
    hide FreeListed;
    PutKeepsValid(t, fold, key, value);
    if t.free != [] { LastFreeIsASlot(t, fold); }
  }

  lemma RemoveContents<K, V, N>(t: Table<K, V, N>, fold: K -> N, key: K)
    requires Valid(t, fold)
    ensures Valid(Removed(t, fold, key), fold)
    ensures Contents(Removed(t, fold, key), fold) == Contents(t, fold) - {fold(key)}
  {
    RemoveKeepsValid(t, fold, key);
  }

  lemma GetReadsContents<K, V, N>(t: Table<K, V, N>, fold: K -> N, key: K)
    requires Valid(t, fold)
    ensures Get(t, fold, key)
         == if fold(key) in Contents(t, fold) then Some(Contents(t, fold)[fold(key)].1) else None
  {}

  // ----- enumeration -----

  /** The entries in slot order, the free slots passed over. */
  function Entries<K, V>(slots: seq<Option<(K, V)>>): seq<(K, V)> {
    if slots == [] then []
    else Entries(slots[..|slots| - 1]) + if slots[|slots| - 1].Some? then [slots[|slots| - 1].value] else []
  }

  lemma {:induction false} EntriesSplit<K, V>(a: seq<Option<(K, V)>>, b: seq<Option<(K, V)>>)
    ensures Entries(a + b) == Entries(a) + Entries(b)
  {
    if b == [] {
      assert a + b == a;
    } else {
      assert (a + b)[..|a + b| - 1] == a + b[..|b| - 1];
      EntriesSplit(a, b[..|b| - 1]);
    }
  }

  /** One slot's share of the enumeration. */
  lemma EntriesAround<K, V>(slots: seq<Option<(K, V)>>, i: nat)
    requires i < |slots|
    ensures Entries(slots) == Entries(slots[..i]) + (if slots[i].Some? then [slots[i].value] else []) + Entries(slots[i + 1..])
  {
    EntriesLast(slots, i);
    hide Entries;
    assert slots == slots[..i + 1] + slots[i + 1..];
    EntriesSplit(slots[..i + 1], slots[i + 1..]);
  }

  lemma EntriesLast<K, V>(slots: seq<Option<(K, V)>>, i: nat)
    requires i < |slots|
    ensures Entries(slots[..i + 1]) == Entries(slots[..i]) + if slots[i].Some? then [slots[i].value] else []
  {
    assert slots[..i + 1][..i] == slots[..i];
  }

  lemma {:induction false} EntryHasSlot<K, V>(slots: seq<Option<(K, V)>>, j: nat) returns (i: nat)
    requires j < |Entries(slots)|
    ensures i < |slots| && slots[i] == Some(Entries(slots)[j]) && |Entries(slots[..i])| == j
  {
    var n := |slots| - 1;
    var before := Entries(slots[..n]);
    if j < |before| {
      i := EntryHasSlot(slots[..n], j);
      assert slots[..n][..i] == slots[..i];
    } else {
      i := n;
    }
  }

  /** The enumeration lists every entry of the map once, under its key. */
  lemma EnumerationIsExact<K, V, N>(t: Table<K, V, N>, fold: K -> N)
    requires Valid(t, fold)
    ensures forall a, b :: 0 <= a < b < |Entries(t.slots)| ==> fold(Entries(t.slots)[a].0) != fold(Entries(t.slots)[b].0)
    ensures forall a :: 0 <= a < |Entries(t.slots)| ==>
              fold(Entries(t.slots)[a].0) in Contents(t, fold) && Contents(t, fold)[fold(Entries(t.slots)[a].0)] == Entries(t.slots)[a]
    ensures forall n :: n in Contents(t, fold) ==> Contents(t, fold)[n] in Entries(t.slots)
    ensures |Entries(t.slots)| == |t.index|
  {
    var entries := Entries(t.slots);
    forall a, b | 0 <= a < b < |entries| ensures fold(entries[a].0) != fold(entries[b].0) {
      var i := EntryHasSlot(t.slots, a);
      var j := EntryHasSlot(t.slots, b);
    }
    forall a | 0 <= a < |entries|
      ensures fold(entries[a].0) in Contents(t, fold) && Contents(t, fold)[fold(entries[a].0)] == entries[a]
    {
      var i := EntryHasSlot(t.slots, a);
    }
    forall n | n in Contents(t, fold) ensures Contents(t, fold)[n] in entries {
      EntriesAround(t.slots, t.index[n]);
    }
    var keys := seq(|entries|, a requires 0 <= a < |entries| => fold(entries[a].0));
    assert forall n :: n in t.index.Keys ==> n in keys by {
      forall n | n in t.index.Keys ensures n in keys {
        var a :| 0 <= a < |entries| && entries[a] == Contents(t, fold)[n];
        assert keys[a] == n;
      }
    }
    DistinctCount(keys, t.index.Keys);
  }

  lemma {:induction false} DistinctCount<N>(keys: seq<N>, all: set<N>)
    requires forall a, b :: 0 <= a < b < |keys| ==> keys[a] != keys[b]
    requires forall n :: n in keys <==> n in all
    ensures |keys| == |all|
  {
    if keys == [] {
      assert all == {};
    } else {
      var last := |keys| - 1;
      forall n ensures n in keys[..last] <==> n in all - {keys[last]} {
        if n in all && n != keys[last] {
          var a :| 0 <= a < |keys| && keys[a] == n;
          assert keys[..last][a] == n;
        }
      }
      assert keys[last] in all;
      DistinctCount(keys[..last], all - {keys[last]});
    }
  }

  // ----- where an addition goes -----

  lemma EntryReplaced<K, V>(slots: seq<Option<(K, V)>>, i: nat, entry: (K, V))
    requires i < |slots| && slots[i].Some?
    ensures |Entries(slots[..i])| < |Entries(slots)|
    ensures Entries(slots[i := Some(entry)]) == Entries(slots)[|Entries(slots[..i])| := entry]
  {
    EntriesAround(slots, i);
    EntriesAround(slots[i := Some(entry)], i);
    assert slots[i := Some(entry)][..i] == slots[..i] && slots[i := Some(entry)][i + 1..] == slots[i + 1..];
  }

  /** An addition takes the slot the last removal freed. */
  lemma AdditionTakesTheFreedSlot<K, V, N>(t: Table<K, V, N>, fold: K -> N, gone: K, key: K, value: V)
    requires Valid(t, fold) && fold(gone) in t.index && (fold(key) in t.index ==> fold(key) == fold(gone))
    ensures t.index[fold(gone)] < |t.slots| && t.slots[t.index[fold(gone)]].Some? && Valid(Removed(t, fold, gone), fold)
    ensures var slot := t.index[fold(gone)];
            Put(Removed(t, fold, gone), fold, key, value)
              == Table(t.slots[slot := Some((key, value))], t.free, (t.index - {fold(gone)})[fold(key) := slot])
  {
    hide Indexed, FreeListed;
    RemoveKeepsValid(t, fold, gone);
    SlotOf(t, fold, gone);
    var slot := t.index[fold(gone)];
    var u := Removed(t, fold, gone);
    assert u.free[|u.free| - 1] == slot && u.free[..|u.free| - 1] == t.free;
    assert t.slots[slot := None][slot := Some((key, value))] == t.slots[slot := Some((key, value))];
  }

  /** So it stands where the removed entry stood in the enumeration, and adding
      back what was removed undoes the removal. */
  lemma AdditionStandsInForTheRemoved<K, V, N>(t: Table<K, V, N>, fold: K -> N, gone: K, key: K, value: V)
    requires Valid(t, fold) && fold(gone) in t.index && (fold(key) in t.index ==> fold(key) == fold(gone))
    ensures t.index[fold(gone)] < |t.slots| && Valid(Removed(t, fold, gone), fold)
    ensures |Entries(t.slots[..t.index[fold(gone)]])| < |Entries(t.slots)|
    ensures Entries(Put(Removed(t, fold, gone), fold, key, value).slots)
         == Entries(t.slots)[|Entries(t.slots[..t.index[fold(gone)]])| := (key, value)]
    ensures t.slots[t.index[fold(gone)]] == Some((key, value)) ==> Put(Removed(t, fold, gone), fold, key, value) == t
  {
    hide Indexed, FreeListed, Put, Entries;
    SlotOf(t, fold, gone);
    AdditionTakesTheFreedSlot(t, fold, gone, key, value);
    var slot := t.index[fold(gone)];
    EntryReplaced(t.slots, slot, (key, value));
    if t.slots[slot] == Some((key, value)) {
      assert (t.index - {fold(gone)})[fold(key) := slot] == t.index;
      assert t.slots[slot := Some((key, value))] == t.slots;
    }
  }

  /** Two additions after two removals: the slot freed last is taken first. */
  lemma LastFreedFirstTaken<K, V, N>(t: Table<K, V, N>, fold: K -> N, first: K, second: K, a: (K, V), b: (K, V))
    requires Valid(t, fold) && fold(first) in t.index && fold(second) in t.index && fold(first) != fold(second)
    requires fold(a.0) !in t.index && fold(b.0) !in t.index && fold(a.0) != fold(b.0)
    ensures t.index[fold(first)] < |t.slots| && t.index[fold(second)] < |t.slots|
    ensures Valid(Removed(t, fold, first), fold) && Valid(Removed(Removed(t, fold, first), fold, second), fold)
    ensures var emptied := Removed(Removed(t, fold, first), fold, second);
            var once := Put(emptied, fold, a.0, a.1);
            && Valid(once, fold)
            && Put(once, fold, b.0, b.1).slots == t.slots[t.index[fold(second)] := Some(a)][t.index[fold(first)] := Some(b)]
            && Put(once, fold, b.0, b.1).free == t.free
  {
    hide Indexed, FreeListed, Put;
    SlotOf(t, fold, first);
    SlotOf(t, fold, second);
    RemoveKeepsValid(t, fold, first);
    var u := Removed(t, fold, first);
    AdditionTakesTheFreedSlot(u, fold, second, a.0, a.1);
    PutKeepsValid(Removed(u, fold, second), fold, a.0, a.1);
    var once := Put(Removed(u, fold, second), fold, a.0, a.1);
    assert once.free == t.free + [t.index[fold(first)]];
    FillsTheLastFreed(once, fold, t.free, t.index[fold(first)], b);
    var i, j := t.index[fold(first)], t.index[fold(second)];
    assert t.slots[i := None][j := Some(a)][i := Some(b)] == t.slots[j := Some(a)][i := Some(b)];
  }

  lemma FillsTheLastFreed<K, V, N>(t: Table<K, V, N>, fold: K -> N, free: seq<nat>, slot: nat, entry: (K, V))
    requires Valid(t, fold) && fold(entry.0) !in t.index && t.free == free + [slot] && slot < |t.slots|
    ensures Put(t, fold, entry.0, entry.1).slots == t.slots[slot := Some(entry)] && Put(t, fold, entry.0, entry.1).free == free
  {
    hide Indexed, FreeListed;
  }

  // ----- whole runs -----

  datatype Operation<K, V> = Insert(key: K, value: V) | TryAdd(key: K, value: V) | Remove(key: K) | Clear

  function Step<K, V, N>(t: Table<K, V, N>, fold: K -> N, op: Operation<K, V>): (u: Table<K, V, N>)
    requires Valid(t, fold)
    ensures Valid(u, fold)
  {
    match op
    case Insert(key, value) => PutKeepsValid(t, fold, key, value); Put(t, fold, key, value)
    case TryAdd(key, value) => PutKeepsValid(t, fold, key, value); if fold(key) in t.index then t else Put(t, fold, key, value)
    case Remove(key) => RemoveKeepsValid(t, fold, key); Removed(t, fold, key)
    case Clear => Empty()
  }

  /** Every run from the empty table keeps the slot table sound: occupied slots
      and the free stack partition it. */
  function Run<K, V, N>(fold: K -> N, ops: seq<Operation<K, V>>): (t: Table<K, V, N>)
    ensures Valid(t, fold)
  {
    if ops == [] then Empty() else Step(Run(fold, ops[..|ops| - 1]), fold, ops[|ops| - 1])
  }

  /** What the operations mean for a plain map. */
  function Meant<K, V, N>(fold: K -> N, ops: seq<Operation<K, V>>): map<N, (K, V)> {
    if ops == [] then map[]
    else
      var before := Meant(fold, ops[..|ops| - 1]);
      match ops[|ops| - 1]
      case Insert(key, value) =>
        if fold(key) in before then before[fold(key) := (before[fold(key)].0, value)] else before[fold(key) := (key, value)]
      case TryAdd(key, value) => if fold(key) in before then before else before[fold(key) := (key, value)]
      case Remove(key) => before - {fold(key)}
      case Clear => map[]
  }

  /** After any run the table stands for the map the operations mean. */
  lemma {:induction false} RunsRefineAMap<K, V, N>(fold: K -> N, ops: seq<Operation<K, V>>)
    ensures Contents(Run(fold, ops), fold) == Meant(fold, ops)
  {
    if ops != [] {
      var before := ops[..|ops| - 1];
      RunsRefineAMap(fold, before);
      match ops[|ops| - 1]
      case Insert(key, value) => PutContents(Run(fold, before), fold, key, value);
      case TryAdd(key, value) => PutContents(Run(fold, before), fold, key, value);
      case Remove(key) => RemoveContents(Run(fold, before), fold, key);
      case Clear =>
    }
  }

  /** The keys in the order they were first added, each with its last value. */
  function Listed<K, V, N(==)>(fold: K -> N, ops: seq<Operation<K, V>>): seq<(K, V)> {
    if ops == [] then []
    else
      var before := Listed(fold, ops[..|ops| - 1]);
      match ops[|ops| - 1]
      case Insert(key, value) => Assigned(before, fold, key, value)
      case TryAdd(key, value) => if Holds(before, fold, key) then before else before + [(key, value)]
      case Remove(_) => before
      case Clear => []
  }

  predicate Holds<K, V, N(==)>(list: seq<(K, V)>, fold: K -> N, key: K) {
    exists i :: 0 <= i < |list| && fold(list[i].0) == fold(key)
  }

  function Assigned<K, V, N(==)>(list: seq<(K, V)>, fold: K -> N, key: K, value: V): seq<(K, V)> {
    if list == [] then [(key, value)]
    else if fold(list[0].0) == fold(key) then [(list[0].0, value)] + list[1..]
    else [list[0]] + Assigned(list[1..], fold, key, value)
  }

  /** Assigning to a key the list holds replaces its one entry; to another, it
      adds at the end. */
  lemma {:induction false} AssignedWhere<K, V, N>(list: seq<(K, V)>, fold: K -> N, key: K, value: V, at: nat)
    requires at <= |list| && (at < |list| ==> fold(list[at].0) == fold(key))
    requires forall i :: 0 <= i < at ==> fold(list[i].0) != fold(key)
    ensures Assigned(list, fold, key, value) == if at < |list| then list[at := (list[at].0, value)] else list + [(key, value)]
  {
    if list != [] && at > 0 {
      AssignedWhere(list[1..], fold, key, value, at - 1);
    }
  }

  predicate Removes<K, V>(ops: seq<Operation<K, V>>) { exists i :: 0 <= i < |ops| && ops[i].Remove? }

  /** A table with no free slot is its entries, packed. */
  lemma {:induction false} PackedEntries<K, V>(slots: seq<Option<(K, V)>>)
    requires forall i :: 0 <= i < |slots| ==> slots[i].Some?
    ensures |Entries(slots)| == |slots| && forall i :: 0 <= i < |slots| ==> Entries(slots)[i] == slots[i].value
  {
    if slots != [] { PackedEntries(slots[..|slots| - 1]); }
  }

  lemma FullWhenNoneFree<K, V, N>(t: Table<K, V, N>, fold: K -> N)
    requires Valid(t, fold) && t.free == []
    ensures forall i :: 0 <= i < |t.slots| ==> t.slots[i].Some?
  {}

  lemma PutListed<K, V, N>(t: Table<K, V, N>, fold: K -> N, key: K, value: V)
    requires Valid(t, fold) && t.free == []
    ensures Put(t, fold, key, value).free == []
    ensures Entries(Put(t, fold, key, value).slots) == Assigned(Entries(t.slots), fold, key, value)
    ensures fold(key) in t.index <==> Holds(Entries(t.slots), fold, key)
    ensures fold(key) !in t.index ==> Entries(Put(t, fold, key, value).slots) == Entries(t.slots) + [(key, value)]
  {
    var u := Put(t, fold, key, value);
    PutKeepsValid(t, fold, key, value);
    FullWhenNoneFree(t, fold);
    FullWhenNoneFree(u, fold);
    PackedEntries(t.slots);
    PackedEntries(u.slots);
    hide Entries, Assigned, FreeListed;
    var list := Entries(t.slots);
    if fold(key) in t.index {
      assert fold(list[t.index[fold(key)]].0) == fold(key);
      AssignedWhere(list, fold, key, value, t.index[fold(key)]);
    } else {
      AssignedWhere(list, fold, key, value, |list|);
    }
  }

  /** A run that removes nothing enumerates in insertion order. */
  lemma {:induction false} InsertionOrder<K, V, N>(fold: K -> N, ops: seq<Operation<K, V>>)
    requires !Removes(ops)
    ensures Run(fold, ops).free == [] && Entries(Run(fold, ops).slots) == Listed(fold, ops)
  {
    if ops != [] {
      var before := ops[..|ops| - 1];
      assert forall i :: 0 <= i < |before| ==> before[i] == ops[i];
      InsertionOrder(fold, before);
      match ops[|ops| - 1]
      case Insert(key, value) => PutListed(Run(fold, before), fold, key, value);
      case TryAdd(key, value) => PutListed(Run(fold, before), fold, key, value);
      case Remove(_) => assert false;
      case Clear =>
    }
  }

  // ----- the two dictionaries side by side -----

  /** A normalisation that tells the keys of a run apart. */
  ghost predicate Separates<K, N>(fold: K -> N, keys: set<K>) {
    forall a, b :: a in keys && b in keys && fold(a) == fold(b) ==> a == b
  }

  ghost predicate Within<K, V>(ops: seq<Operation<K, V>>, keys: set<K>) {
    forall i :: 0 <= i < |ops| && !ops[i].Clear? ==> ops[i].key in keys
  }

  /** The same slots, freed in the same order, whatever the keys are compared by. */
  ghost predicate Alike<K, V, M, N>(t: Table<K, V, M>, u: Table<K, V, N>, keys: set<K>) {
    && t.slots == u.slots && t.free == u.free
    && forall i :: 0 <= i < |t.slots| && t.slots[i].Some? ==> t.slots[i].value.0 in keys
  }

  lemma AlikeFind<K, V, M, N>(t: Table<K, V, M>, u: Table<K, V, N>, f: K -> M, g: K -> N, keys: set<K>, key: K)
    requires Valid(t, f) && Valid(u, g) && Alike(t, u, keys) && key in keys && Separates(f, keys) && Separates(g, keys)
    ensures f(key) in t.index <==> g(key) in u.index
    ensures f(key) in t.index ==> t.index[f(key)] == u.index[g(key)]
    ensures Get(t, f, key) == Get(u, g, key)
  {
    if f(key) in t.index {
      var i := t.index[f(key)];
      assert t.slots[i].value.0 == key;
      assert g(u.slots[i].value.0) in u.index;
    }
    if g(key) in u.index {
      var i := u.index[g(key)];
      assert u.slots[i].value.0 == key;
      assert f(t.slots[i].value.0) in t.index;
    }
  }

  lemma AlikeStep<K, V, M, N>(t: Table<K, V, M>, u: Table<K, V, N>, f: K -> M, g: K -> N, keys: set<K>, op: Operation<K, V>)
    requires Valid(t, f) && Valid(u, g) && Alike(t, u, keys) && Separates(f, keys) && Separates(g, keys)
    requires !op.Clear? ==> op.key in keys
    ensures Alike(Step(t, f, op), Step(u, g, op), keys)
  {
    hide Valid, Separates, Put, Removed;
    match op
    case Insert(key, value) => AlikePut(t, u, f, g, keys, key, value);
    case TryAdd(key, value) => AlikePut(t, u, f, g, keys, key, value);
    case Remove(key) => AlikeRemove(t, u, f, g, keys, key);
    case Clear =>
  }

  lemma AlikePut<K, V, M, N>(t: Table<K, V, M>, u: Table<K, V, N>, f: K -> M, g: K -> N, keys: set<K>, key: K, value: V)
    requires Valid(t, f) && Valid(u, g) && Alike(t, u, keys) && Separates(f, keys) && Separates(g, keys) && key in keys
    ensures f(key) in t.index <==> g(key) in u.index
    ensures Alike(Put(t, f, key, value), Put(u, g, key, value), keys)
  {
    AlikeFind(t, u, f, g, keys, key);
    if t.free != [] { LastFreeIsASlot(t, f); }
    if f(key) in t.index { SlotOf(t, f, key); }
    hide Indexed, FreeListed, Separates;
  }

  lemma AlikeRemove<K, V, M, N>(t: Table<K, V, M>, u: Table<K, V, N>, f: K -> M, g: K -> N, keys: set<K>, key: K)
    requires Valid(t, f) && Valid(u, g) && Alike(t, u, keys) && Separates(f, keys) && Separates(g, keys) && key in keys
    ensures Alike(Removed(t, f, key), Removed(u, g, key), keys)
  {
    AlikeFind(t, u, f, g, keys, key);
    if f(key) in t.index { SlotOf(t, f, key); }
    hide Indexed, FreeListed, Separates;
  }

  /** Any run on the two dictionaries fills the same slots in the same order,
      so they enumerate identically and answer every lookup alike. */
  lemma {:induction false} DictionariesAgree<K, V, M, N>(f: K -> M, g: K -> N, ops: seq<Operation<K, V>>, keys: set<K>)
    requires Within(ops, keys) && Separates(f, keys) && Separates(g, keys)
    ensures Alike(Run(f, ops), Run(g, ops), keys)
    ensures Entries(Run(f, ops).slots) == Entries(Run(g, ops).slots)
    ensures forall key :: key in keys ==> Get(Run(f, ops), f, key) == Get(Run(g, ops), g, key)
  {
    if ops != [] {
      var before := ops[..|ops| - 1];
      assert forall i :: 0 <= i < |before| ==> before[i] == ops[i];
      DictionariesAgree(f, g, before, keys);
      AlikeStep(Run(f, before), Run(g, before), f, g, keys, ops[|ops| - 1]);
    }
    forall key | key in keys ensures Get(Run(f, ops), f, key) == Get(Run(g, ops), g, key) {
      AlikeFind(Run(f, ops), Run(g, ops), f, g, keys, key);
    }
  }

  // ----- filtering -----

  /** Frees the slots whose entries are not kept, in slot order; `keep` is told
      how many entries it was asked about before. */
  function Retained<K, V, N>(t: Table<K, V, N>, fold: K -> N, keep: (nat, K, V) -> bool, slot: nat, asked: nat): Table<K, V, N>
    requires slot <= |t.slots|
    decreases |t.slots| - slot
  {
    if slot == |t.slots| then t
    else match t.slots[slot]
      case None => Retained(t, fold, keep, slot + 1, asked)
      case Some(entry) =>
        if keep(asked, entry.0, entry.1) then Retained(t, fold, keep, slot + 1, asked + 1)
        else Retained(Vacate(t, fold(entry.0), slot), fold, keep, slot + 1, asked + 1)
  }

  /** The entries of a list that are kept, asked about in order. */
  function Kept<K, V>(list: seq<(K, V)>, keep: (nat, K, V) -> bool, asked: nat): seq<(K, V)> {
    if list == [] then []
    else (if keep(asked, list[0].0, list[0].1) then [list[0]] else []) + Kept(list[1..], keep, asked + 1)
  }

  /** Filtering leaves a sound table that enumerates the kept entries, in
      their order. */
  lemma {:induction false} RetainFilters<K, V, N>(t: Table<K, V, N>, fold: K -> N, keep: (nat, K, V) -> bool, slot: nat, asked: nat)
    requires Valid(t, fold) && slot <= |t.slots|
    ensures Valid(Retained(t, fold, keep, slot, asked), fold)
    ensures Entries(Retained(t, fold, keep, slot, asked).slots) == Entries(t.slots[..slot]) + Kept(Entries(t.slots[slot..]), keep, asked)
    decreases |t.slots| - slot
  {
    hide Indexed, FreeListed, Entries, Kept, Vacate;
    if slot == |t.slots| {
      assert t.slots[..slot] == t.slots && t.slots[slot..] == [];
      NothingKept<K, V>(keep, asked);
    } else {
      NextSlot(t.slots, slot);
      match t.slots[slot]
      case None =>
        RetainFilters(t, fold, keep, slot + 1, asked);
        assert Entries(t.slots[slot..]) == Entries(t.slots[slot + 1..]) && Entries(t.slots[..slot + 1]) == Entries(t.slots[..slot]);
      case Some(entry) =>
        var rest := Entries(t.slots[slot + 1..]);
        KeptNext(entry, rest, keep, asked);
        if keep(asked, entry.0, entry.1) {
          RetainFilters(t, fold, keep, slot + 1, asked + 1);
        } else {
          var u := Vacate(t, fold(entry.0), slot);
          VacatedOutside(t, fold(entry.0), slot);
          VacateIsRemove(t, fold, slot);
          RetainFilters(u, fold, keep, slot + 1, asked + 1);
          NextSlot(u.slots, slot);
        }
    }
  }

  lemma NothingKept<K, V>(keep: (nat, K, V) -> bool, asked: nat)
    ensures Kept(Entries<K, V>([]), keep, asked) == []
  {}

  lemma KeptNext<K, V>(entry: (K, V), rest: seq<(K, V)>, keep: (nat, K, V) -> bool, asked: nat)
    ensures Kept([entry] + rest, keep, asked) == (if keep(asked, entry.0, entry.1) then [entry] else []) + Kept(rest, keep, asked + 1)
  {
    assert ([entry] + rest)[1..] == rest;
  }

  lemma VacatedOutside<K, V, N>(t: Table<K, V, N>, n: N, slot: nat)
    requires slot < |t.slots|
    ensures var u := Vacate(t, n, slot);
            |u.slots| == |t.slots| && u.slots[slot].None? && u.slots[..slot] == t.slots[..slot] && u.slots[slot + 1..] == t.slots[slot + 1..]
  {}

  lemma NextSlot<K, V>(slots: seq<Option<(K, V)>>, slot: nat)
    requires slot < |slots|
    ensures var here := if slots[slot].Some? then [slots[slot].value] else [];
            Entries(slots[slot..]) == here + Entries(slots[slot + 1..]) && Entries(slots[..slot + 1]) == Entries(slots[..slot]) + here
  {
    EntriesAround(slots[slot..], 0);
    assert slots[slot..][..0] == [] && slots[slot..][1..] == slots[slot + 1..];
    assert slots[..slot + 1][..slot] == slots[..slot];
  }

  /** Emptying an occupied slot is removing its key. */
  lemma VacateIsRemove<K, V, N>(t: Table<K, V, N>, fold: K -> N, slot: nat)
    requires Valid(t, fold) && slot < |t.slots| && t.slots[slot].Some?
    ensures var key := t.slots[slot].value.0;
            Vacate(t, fold(key), slot) == Removed(t, fold, key) && Valid(Vacate(t, fold(key), slot), fold)
  {
    RemoveKeepsValid(t, fold, t.slots[slot].value.0);
  }

  /** Whole filtering: the sound table of exactly the kept entries. */
  lemma RetainKeepsTheKept<K, V, N>(t: Table<K, V, N>, fold: K -> N, keep: (nat, K, V) -> bool)
    requires Valid(t, fold)
    ensures Valid(Retained(t, fold, keep, 0, 0), fold)
    ensures Entries(Retained(t, fold, keep, 0, 0).slots) == Kept(Entries(t.slots), keep, 0)
  {
    RetainFilters(t, fold, keep, 0, 0);
    assert t.slots[..0] == [] && t.slots[0..] == t.slots;
  }

  // ----- a packed copy -----

  function Inserts<K, V>(list: seq<(K, V)>): seq<Operation<K, V>> {
    if list == [] then [] else Inserts(list[..|list| - 1]) + [Insert(list[|list| - 1].0, list[|list| - 1].1)]
  }

  lemma {:induction false} InsertsListed<K, V, N>(fold: K -> N, list: seq<(K, V)>)
    requires forall a, b :: 0 <= a < b < |list| ==> fold(list[a].0) != fold(list[b].0)
    ensures Run(fold, Inserts(list)).free == [] && Entries(Run(fold, Inserts(list)).slots) == list
  {
    if list != [] {
      var before := list[..|list| - 1];
      var last := list[|list| - 1];
      hide Indexed, FreeListed, Entries, Put, Run, Assigned;
      InsertsListed(fold, before);
      InsertAppends(fold, before, last);
      assert list == before + [last];
      PutListed(Run(fold, Inserts(before)), fold, last.0, last.1);
      assert !Holds(before, fold, last.0);
    }
  }

  /** Sound tables that enumerate alike stand for the same map. */
  lemma EntriesTellContents<K, V, N>(t: Table<K, V, N>, u: Table<K, V, N>, fold: K -> N)
    requires Valid(t, fold) && Valid(u, fold) && Entries(t.slots) == Entries(u.slots)
    ensures forall n :: n in Contents(t, fold) ==> n in Contents(u, fold) && Contents(u, fold)[n] == Contents(t, fold)[n]
  {
    hide Indexed, FreeListed, Entries, Contents;
    ContentsFold(t, fold);
    EnumerationIsExact(t, fold);
    EnumerationIsExact(u, fold);
    forall n | n in Contents(t, fold) ensures n in Contents(u, fold) && Contents(u, fold)[n] == Contents(t, fold)[n] {
      var a :| 0 <= a < |Entries(u.slots)| && Entries(u.slots)[a] == Contents(t, fold)[n];
    }
  }

  lemma ContentsFold<K, V, N>(t: Table<K, V, N>, fold: K -> N)
    requires Valid(t, fold)
    ensures forall n :: n in Contents(t, fold) ==> fold(Contents(t, fold)[n].0) == n
  {
    hide FreeListed;
  }

  /** A copy enumerates as its source does, with no free slot left. */
  lemma CopyEnumeratesAlike<K, V, N>(t: Table<K, V, N>, fold: K -> N)
    requires Valid(t, fold)
    ensures var copy := Run(fold, Inserts(Entries(t.slots)));
            copy.free == [] && Entries(copy.slots) == Entries(t.slots) && Contents(copy, fold) == Contents(t, fold)
  {
    hide Indexed, FreeListed, Entries, Contents, Run, Inserts;
    EnumerationIsExact(t, fold);
    InsertsListed(fold, Entries(t.slots));
    var copy := Run(fold, Inserts(Entries(t.slots)));
    EntriesTellContents(t, copy, fold);
    EntriesTellContents(copy, t, fold);
  }

  // ----- the map with a comparer -----

  class FoldedDictionary<K(==), V, N(==)> {
    var slots: seq<Option<(K, V)>>
    var free: seq<nat>
    var index: map<N, nat>
    const fold: K -> N

    function Model(): Table<K, V, N> reads this { Table(slots, free, index) }

    ghost predicate Sound() reads this { Valid(Model(), fold) }

    constructor (fold: K -> N)
      ensures this.fold == fold && Model() == Empty() && Sound()
    {
      this.fold := fold;
      slots, free, index := [], [], map[];
    }

    method Find(key: K) returns (found: Option<V>)
      requires Sound()
      ensures found == (if fold(key) in Contents(Model(), fold) then Some(Contents(Model(), fold)[fold(key)].1) else None)
    {
      if fold(key) !in index { return None; }
      var slot := index[fold(key)];
      found := Some(slots[slot].value.1);
    }

    method Insert(key: K, value: V) returns (replaced: Option<V>)
      requires Sound()
      modifies this
      ensures Sound() && Model() == Put(old(Model()), fold, key, value)
      ensures replaced == Get(old(Model()), fold, key)
    {
      hide FreeListed;
      PutKeepsValid(Model(), fold, key, value);
      var n := fold(key);
      if n in index {
        var slot := index[n];
        replaced := Some(slots[slot].value.1);
        slots := slots[slot := Some((slots[slot].value.0, value))];
        return;
      }
      replaced := None;
      var slot;
      if free != [] {
        LastFreeIsASlot(Model(), fold);
        slot := free[|free| - 1];
        free := free[..|free| - 1];
        slots := slots[slot := Some((key, value))];
      } else {
        slots := slots + [Some((key, value))];
        slot := |slots| - 1;
      }
      index := index[n := slot];
    }

    method TryAdd(key: K, value: V) returns (added: bool)
      requires Sound()
      modifies this
      ensures Sound() && added == (fold(key) !in old(index))
      ensures Model() == if added then Put(old(Model()), fold, key, value) else old(Model())
    {
      if fold(key) in index { return false; }
      var _ := Insert(key, value);
      added := true;
    }

    method Remove(key: K) returns (removed: Option<V>)
      requires Sound()
      modifies this
      ensures Sound() && Model() == Removed(old(Model()), fold, key)
      ensures removed == Get(old(Model()), fold, key)
    {
      RemoveKeepsValid(Model(), fold, key);
      var n := fold(key);
      if n !in index { return None; }
      var slot := index[n];
      index := index - {n};
      free := free + [slot];
      removed := Some(slots[slot].value.1);
      slots := slots[slot := None];
    }

    method Clear()
      modifies this
      ensures Sound() && Model() == Empty()
    {
      slots, free, index := [], [], map[];
    }

    /** Keeps what `keep` says to, asked in enumeration order. */
    method Retain(keep: (nat, K, V) -> bool)
      requires Sound()
      modifies this
      ensures Sound() && Model() == Retained(old(Model()), fold, keep, 0, 0)
      ensures Entries(slots) == Kept(old(Entries(slots)), keep, 0)
    {
      hide Indexed, FreeListed;
      RetainKeepsTheKept(Model(), fold, keep);
      var asked := 0;
      ghost var all := Retained(Model(), fold, keep, 0, 0);
      for slot := 0 to |slots|
        invariant |slots| == old(|slots|) && Sound()
        invariant all == Retained(Model(), fold, keep, slot, asked)
      {
        if slots[slot].Some? {
          var entry := slots[slot].value;
          if !keep(asked, entry.0, entry.1) {
            VacateIsRemove(Model(), fold, slot);
            index := index - {fold(entry.0)};
            slots := slots[slot := None];
            free := free + [slot];
          }
          asked := asked + 1;
        }
      }
    }

    /** The entries as enumerated. */
    method Enumerate() returns (entries: seq<(K, V)>)
      ensures entries == Entries(slots)
    {
      entries := [];
      for slot := 0 to |slots|
        invariant entries == Entries(slots[..slot])
      {
        assert slots[..slot + 1][..slot] == slots[..slot];
        if slots[slot].Some? { entries := entries + [slots[slot].value]; }
      }
      assert slots[..|slots|] == slots;
    }
  }

  // ----- the map of strings -----

  /** Strings compared as they are. */
  function AsIs(text: string): string { text }

  class StringDictionary<V> {
    var slots: seq<Option<(string, V)>>
    var free: seq<nat>
    var index: map<string, nat>

    function Model(): Table<string, V, string> reads this { Table(slots, free, index) }

    ghost predicate Sound() reads this { Valid(Model(), AsIs) }

    constructor ()
      ensures Model() == Empty() && Sound()
    {
      slots, free, index := [], [], map[];
    }

    method Find(key: string) returns (found: Option<V>)
      requires Sound()
      ensures found == (if key in Contents(Model(), AsIs) then Some(Contents(Model(), AsIs)[key].1) else None)
    {
      if key !in index { return None; }
      var slot := index[key];
      found := if slots[slot].Some? then Some(slots[slot].value.1) else None;
    }

    method Insert(key: string, value: V)
      requires Sound()
      modifies this
      ensures Sound() && Model() == Put(old(Model()), AsIs, key, value)
    {
      hide FreeListed;
      PutKeepsValid(Model(), AsIs, key, value);
      if key in index {
        var slot := index[key];
        if slots[slot].Some? {
          slots := slots[slot := Some((slots[slot].value.0, value))];
        }
        return;
      }
      var slot;
      if free != [] {
        LastFreeIsASlot(Model(), AsIs);
        slot := free[|free| - 1];
        free := free[..|free| - 1];
        slots := slots[slot := Some((key, value))];
      } else {
        slots := slots + [Some((key, value))];
        slot := |slots| - 1;
      }
      index := index[key := slot];
    }

    method TryAdd(key: string, value: V) returns (added: bool)
      requires Sound()
      modifies this
      ensures Sound() && added == (key !in old(index))
      ensures Model() == if added then Put(old(Model()), AsIs, key, value) else old(Model())
    {
      if key in index { return false; }
      Insert(key, value);
      added := true;
    }

    method Remove(key: string) returns (removed: bool)
      requires Sound()
      modifies this
      ensures Sound() && Model() == Removed(old(Model()), AsIs, key)
      ensures removed == (key in old(index))
    {
      RemoveKeepsValid(Model(), AsIs, key);
      if key !in index { return false; }
      var slot := index[key];
      index := index - {key};
      slots := slots[slot := None];
      free := free + [slot];
      removed := true;
    }

    method Clear()
      modifies this
      ensures Sound() && Model() == Empty()
    {
      slots, free, index := [], [], map[];
    }

    /** A copy, its entries packed in the order they are enumerated. */
    method Copied() returns (copy: StringDictionary<V>)
      requires Sound()
      ensures fresh(copy) && copy.Sound()
      ensures copy.free == [] && Entries(copy.slots) == Entries(slots) && Contents(copy.Model(), AsIs) == Contents(Model(), AsIs)
    {
      hide Indexed, FreeListed, Contents, Run, Inserts, Entries;
      CopyEnumeratesAlike(Model(), AsIs);
      copy := new StringDictionary<V>();
      NothingInserted<string, V, string>(AsIs);
      for slot := 0 to |slots|
        invariant copy.Sound() && fresh(copy)
        invariant copy.Model() == Run(AsIs, Inserts(Entries(slots[..slot])))
      {
        NextSlot(slots, slot);
        if slots[slot].Some? {
          InsertAppends(AsIs, Entries(slots[..slot]), slots[slot].value);
          copy.Insert(slots[slot].value.0, slots[slot].value.1);
        } else {
          assert Entries(slots[..slot + 1]) == Entries(slots[..slot]);
        }
      }
      assert slots[..|slots|] == slots;
    }
  }

  lemma NothingInserted<K, V, N>(fold: K -> N)
    ensures Run(fold, Inserts<K, V>(Entries([]))) == Empty()
  {}

  lemma InsertAppends<K, V, N>(fold: K -> N, list: seq<(K, V)>, entry: (K, V))
    ensures Run(fold, Inserts(list + [entry])) == Put(Run(fold, Inserts(list)), fold, entry.0, entry.1)
  {
    assert (list + [entry])[..|list|] == list;
    assert Inserts(list + [entry])[..|Inserts(list)|] == Inserts(list);
  }
}
