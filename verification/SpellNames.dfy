/** A spell found by name through an index of hash buckets, as a scan of the
    whole table finds it. */
module SpellNames {

  datatype Option<+T> = None | Some(value: T)

  datatype Spell = Spell(id: nat, name: string)

  /** Casing and hashing, left open: `key` is the form a character is compared
      in, `mix` takes one more character's number into a hash. */
  datatype Kit = Kit(
    key: char -> char,
    offset: int,
    mix: (int, int) -> int,
    blank: string -> bool,
    contains: (string, string) -> bool)

  predicate IsAsciiChar(c: char) { c as int < 128 }

  predicate IsAscii(text: string) { forall i :: 0 <= i < |text| ==> IsAsciiChar(text[i]) }

  function AsciiUpper(c: char): char { if 'a' <= c <= 'z' then (c as int - 32) as char else c }

  /** All that is relied on: an ASCII character's form is its upper case. */
  ghost predicate KitWorks(kit: Kit) { forall c :: IsAsciiChar(c) ==> kit.key(c) == AsciiUpper(c) }

  /** Two names are the same when these are. */
  function Form(kit: Kit, text: string): string { seq(|text|, i requires 0 <= i < |text| => kit.key(text[i])) }

  predicate SameName(kit: Kit, a: string, b: string) { Form(kit, a) == Form(kit, b) }

  // ----- the scan -----

  /** The first spell of that name, else, if asked for, the first whose name
      contains it. */
  predicate FirstNamed(kit: Kit, spells: seq<Spell>, name: string, k: int) {
    0 <= k < |spells| && SameName(kit, spells[k].name, name) && forall i :: 0 <= i < k ==> !SameName(kit, spells[i].name, name)
  }

  predicate NoneNamed(kit: Kit, spells: seq<Spell>, name: string) {
    forall i :: 0 <= i < |spells| ==> !SameName(kit, spells[i].name, name)
  }

  predicate FirstContaining(kit: Kit, spells: seq<Spell>, name: string, k: int) {
    && 0 <= k < |spells| && kit.contains(spells[k].name, name)
    && forall i :: 0 <= i < k ==> !kit.contains(spells[i].name, name)
  }

  ghost predicate Answer(kit: Kit, spells: seq<Spell>, name: string, partial: bool, found: Option<Spell>) {
    if kit.blank(name) then found.None?
    else if !NoneNamed(kit, spells, name) then exists k :: FirstNamed(kit, spells, name, k) && found == Some(spells[k])
    else if !partial then found.None?
    else if found.None? then forall i :: 0 <= i < |spells| ==> !kit.contains(spells[i].name, name)
    else exists k :: FirstContaining(kit, spells, name, k) && found == Some(spells[k])
  }

  /** There is one answer, so whoever gives it gives the scan's. */
  lemma OneAnswer(kit: Kit, spells: seq<Spell>, name: string, partial: bool, a: Option<Spell>, b: Option<Spell>)
    requires Answer(kit, spells, name, partial, a) && Answer(kit, spells, name, partial, b)
    ensures a == b
  {
    hide SameName;
    if !kit.blank(name) && !NoneNamed(kit, spells, name) {
      var i :| FirstNamed(kit, spells, name, i) && a == Some(spells[i]);
      var j :| FirstNamed(kit, spells, name, j) && b == Some(spells[j]);
      assert i == j;
    } else if a.Some? && b.Some? {
      var i :| FirstContaining(kit, spells, name, i) && a == Some(spells[i]);
      var j :| FirstContaining(kit, spells, name, j) && b == Some(spells[j]);
      assert i == j;
    }
  }

  method FindContaining(kit: Kit, spells: seq<Spell>, name: string) returns (found: Option<nat>)
    ensures found.Some? ==> FirstContaining(kit, spells, name, found.value)
    ensures found.None? ==> forall i :: 0 <= i < |spells| ==> !kit.contains(spells[i].name, name)
  {
    for i := 0 to |spells|
      invariant forall j :: 0 <= j < i ==> !kit.contains(spells[j].name, name)
    {
      if kit.contains(spells[i].name, name) { return Some(i); }
    }
    found := None;
  }

  /** The catalogue's own way: over the whole table. */
  method TryFindByName(kit: Kit, spells: seq<Spell>, name: string, partial: bool) returns (found: Option<Spell>)
    ensures Answer(kit, spells, name, partial, found)
  {
    hide SameName;
    if kit.blank(name) { return None; }
    for i := 0 to |spells|
      invariant forall j :: 0 <= j < i ==> !SameName(kit, spells[j].name, name)
    {
      if SameName(kit, spells[i].name, name) {
        assert FirstNamed(kit, spells, name, i);
        return Some(spells[i]);
      }
    }
    if !partial { return None; }
    var at := FindContaining(kit, spells, name);
    found := if at.Some? then Some(spells[at.value]) else None;
  }

  // ----- folding and hashing -----

  function Folded(kit: Kit, text: string): string {
    seq(|text|, i requires 0 <= i < |text| => if IsAsciiChar(text[i]) then AsciiUpper(text[i]) else kit.key(text[i]))
  }

  lemma FoldedIsForm(kit: Kit, text: string)
    requires KitWorks(kit)
    ensures Folded(kit, text) == Form(kit, text)
  {}

  function HashOf(kit: Kit, form: string): int {
    if form == "" then kit.offset else kit.mix(HashOf(kit, form[..|form| - 1]), form[|form| - 1] as int)
  }

  /** The hash of a name's form; plain ASCII goes byte by byte. */
  method FoldedHash(kit: Kit, text: string) returns (hash: int)
    requires KitWorks(kit)
    ensures hash == HashOf(kit, Form(kit, text))
  {
    hash := kit.offset;
    var form := Form(kit, text);
    FoldedIsForm(kit, text);
    if IsAscii(text) {
      for i := 0 to |text|
        invariant hash == HashOf(kit, form[..i])
      {
        assert form[..i + 1][..i] == form[..i] && form[i] == AsciiUpper(text[i]);
        hash := kit.mix(hash, AsciiUpper(text[i]) as int);
      }
    } else {
      var folded := Folded(kit, text);
      for i := 0 to |folded|
        invariant hash == HashOf(kit, form[..i])
      {
        assert form[..i + 1][..i] == form[..i];
        hash := kit.mix(hash, folded[i] as int);
      }
    }
    assert form[..|text|] == form;
  }

  predicate EqualsIgnoreAsciiCase(a: string, b: string) {
    |a| == |b| && forall i :: 0 <= i < |a| ==> AsciiUpper(a[i]) == AsciiUpper(b[i])
  }

  predicate SameFolded(kit: Kit, a: string, b: string) {
    if IsAscii(a) && IsAscii(b) then EqualsIgnoreAsciiCase(a, b) else Folded(kit, a) == Folded(kit, b)
  }

  lemma SameFoldedIsSameName(kit: Kit, a: string, b: string)
    requires KitWorks(kit)
    ensures SameFolded(kit, a, b) <==> SameName(kit, a, b)
  {
    FoldedIsForm(kit, a);
    FoldedIsForm(kit, b);
    if IsAscii(a) && IsAscii(b) {
      var f, g := Form(kit, a), Form(kit, b);
      assert forall i :: 0 <= i < |a| ==> f[i] == AsciiUpper(a[i]);
      assert forall i :: 0 <= i < |b| ==> g[i] == AsciiUpper(b[i]);
    }
  }

  // ----- the index -----

  datatype NameBucket = One(index: nat) | Many(many: seq<nat>)

  function Indexes(bucket: NameBucket): seq<nat> { if bucket.One? then [bucket.index] else bucket.many }

  type Index = map<int, NameBucket>

  function NameHash(kit: Kit, name: string): int { HashOf(kit, Form(kit, name)) }

  /** The first spell of its name, under that name's hash. */
  ghost predicate IsFirst(kit: Kit, spells: seq<Spell>, k: nat, h: int) {
    && k < |spells| && NameHash(kit, spells[k].name) == h
    && forall i :: 0 <= i < k ==> !SameName(kit, spells[i].name, spells[k].name)
  }

  ghost predicate KeepsFirsts(kit: Kit, spells: seq<Spell>, byName: Index) {
    forall h, k {:trigger k in Indexes(byName[h])} :: h in byName && k in Indexes(byName[h]) ==> IsFirst(kit, spells, k, h)
  }

  /** Each of the first `n` spells has its name kept. */
  ghost predicate Covers(kit: Kit, spells: seq<Spell>, n: nat, byName: Index) {
    n <= |spells| && forall i :: 0 <= i < n ==> HasName(kit, spells, byName, spells[i].name)
  }

  ghost predicate HasName(kit: Kit, spells: seq<Spell>, byName: Index, name: string) {
    var h := NameHash(kit, name);
    h in byName && exists k :: k in Indexes(byName[h]) && k < |spells| && SameName(kit, spells[k].name, name)
  }

  ghost predicate Below(byName: Index, n: nat) { forall h, k :: h in byName && k in Indexes(byName[h]) ==> k < n }

  predicate InRange(spells: seq<Spell>, indexes: seq<nat>) { forall x :: 0 <= x < |indexes| ==> indexes[x] < |spells| }

  lemma BucketsInRange(kit: Kit, spells: seq<Spell>, byName: Index, h: int)
    requires KeepsFirsts(kit, spells, byName) && h in byName
    ensures InRange(spells, Indexes(byName[h]))
  {
    forall x | 0 <= x < |Indexes(byName[h])| ensures Indexes(byName[h])[x] < |spells| {
      assert Indexes(byName[h])[x] in Indexes(byName[h]);
    }
  }

  /** The first kept spell of a bucket that has the name. */
  method FindInBucket(kit: Kit, spells: seq<Spell>, indexes: seq<nat>, name: string) returns (found: Option<nat>)
    requires KitWorks(kit) && InRange(spells, indexes)
    ensures found.Some? ==> found.value in indexes && SameName(kit, spells[found.value].name, name)
    ensures found.None? ==> forall k :: k in indexes ==> !SameName(kit, spells[k].name, name)
  {
    hide SameName, SameFolded;
    for x := 0 to |indexes|
      invariant forall y :: 0 <= y < x ==> !SameName(kit, spells[indexes[y]].name, name)
    {
      SameFoldedIsSameName(kit, spells[indexes[x]].name, name);
      if SameFolded(kit, spells[indexes[x]].name, name) { return Some(indexes[x]); }
    }
    found := None;
  }

  /** A bucket with one more index. */
  ghost predicate Longer(byName: Index, h: int, bucket: NameBucket, n: nat) {
    Indexes(bucket) == (if h in byName then Indexes(byName[h]) else []) + [n]
  }

  lemma KeptOrNew(byName: Index, h: int, bucket: NameBucket, n: nat, g: int, k: nat)
    requires Longer(byName, h, bucket, n) && g in byName[h := bucket]
    ensures k in Indexes(byName[h := bucket][g]) <==> (g == h && k == n) || (g in byName && k in Indexes(byName[g]))
  {
    var indexes := Indexes(bucket);
    assert indexes[|indexes| - 1] == n;
    hide Indexes;
  }

  /** Adding the first spell of a name to its bucket. */
  lemma IndexGrows(kit: Kit, spells: seq<Spell>, n: nat, byName: Index, bucket: NameBucket)
    requires n < |spells| && KeepsFirsts(kit, spells, byName) && Covers(kit, spells, n, byName) && Below(byName, n)
    requires !HasName(kit, spells, byName, spells[n].name)
    requires Longer(byName, NameHash(kit, spells[n].name), bucket, n)
    ensures var more := byName[NameHash(kit, spells[n].name) := bucket];
            KeepsFirsts(kit, spells, more) && Covers(kit, spells, n + 1, more) && Below(more, n + 1)
  {
    hide SameName, NameHash, HasName, Indexes, Longer, KeepsFirsts, Below;
    var h := NameHash(kit, spells[n].name);
    forall i | 0 <= i < n ensures !SameName(kit, spells[i].name, spells[n].name) {
      if SameName(kit, spells[i].name, spells[n].name) { NameIsHad(kit, spells, byName, spells[i].name, spells[n].name); }
    }
    FirstsGrow(kit, spells, n, byName, h, bucket);
    StillBelow(byName, h, bucket, n);
    forall i | 0 <= i <= n ensures HasName(kit, spells, byName[h := bucket], spells[i].name) {
      if i < n { StillHas(kit, spells, byName, h, bucket, n, spells[i].name); } else { NowHas(kit, spells, byName, h, bucket, n); }
    }
  }

  lemma FirstsGrow(kit: Kit, spells: seq<Spell>, n: nat, byName: Index, h: int, bucket: NameBucket)
    requires n < |spells| && KeepsFirsts(kit, spells, byName) && h == NameHash(kit, spells[n].name) && Longer(byName, h, bucket, n)
    requires forall i :: 0 <= i < n ==> !SameName(kit, spells[i].name, spells[n].name)
    ensures KeepsFirsts(kit, spells, byName[h := bucket])
  {
    assert IsFirst(kit, spells, n, h);
    hide SameName, NameHash, Indexes, Longer, IsFirst;
    var more := byName[h := bucket];
    forall g, k: nat | g in more && k in Indexes(more[g]) ensures IsFirst(kit, spells, k, g) {
      KeptOrNew(byName, h, bucket, n, g, k);
    }
  }

  lemma StillBelow(byName: Index, h: int, bucket: NameBucket, n: nat)
    requires Below(byName, n) && Longer(byName, h, bucket, n)
    ensures Below(byName[h := bucket], n + 1)
  {
    hide Indexes, Longer;
    var more := byName[h := bucket];
    forall g, k: nat | g in more && k in Indexes(more[g]) ensures k < n + 1 {
      KeptOrNew(byName, h, bucket, n, g, k);
    }
  }

  lemma StillHas(kit: Kit, spells: seq<Spell>, byName: Index, h: int, bucket: NameBucket, n: nat, name: string)
    requires HasName(kit, spells, byName, name) && Longer(byName, h, bucket, n)
    ensures HasName(kit, spells, byName[h := bucket], name)
  {
    hide SameName, NameHash, Indexes, Longer;
    var g := NameHash(kit, name);
    var k :| k in Indexes(byName[g]) && k < |spells| && SameName(kit, spells[k].name, name);
    KeptOrNew(byName, h, bucket, n, g, k);
  }

  lemma NowHas(kit: Kit, spells: seq<Spell>, byName: Index, h: int, bucket: NameBucket, n: nat)
    requires n < |spells| && h == NameHash(kit, spells[n].name) && Longer(byName, h, bucket, n)
    ensures HasName(kit, spells, byName[h := bucket], spells[n].name)
  {
    SameItself(kit, spells[n].name);
    hide SameName, NameHash, Indexes, Longer;
    KeptOrNew(byName, h, bucket, n, h, n);
  }

  lemma SameItself(kit: Kit, name: string)
    ensures SameName(kit, name, name)
  {}

  /** Having one name is having any that is the same. */
  lemma NameIsHad(kit: Kit, spells: seq<Spell>, byName: Index, a: string, b: string)
    requires SameName(kit, a, b)
    ensures HasName(kit, spells, byName, a) <==> HasName(kit, spells, byName, b)
  {
    hide HashOf;
    assert NameHash(kit, a) == NameHash(kit, b);
    assert forall c :: SameName(kit, c, a) <==> SameName(kit, c, b);
  }

  class SpellTable {
    const kit: Kit
    const spells: seq<Spell>
    var byName: Option<Index>

    ghost predicate Valid() reads this {
      KitWorks(kit) && (byName.Some? ==> KeepsFirsts(kit, spells, byName.value) && Covers(kit, spells, |spells|, byName.value))
    }

    constructor (kit: Kit, spells: seq<Spell>)
      requires KitWorks(kit)
      ensures Valid() && this.kit == kit && this.spells == spells
    {
      this.kit := kit;
      this.spells := spells;
      byName := None;
    }

    /** The name index, built on the first lookup. */
    method BuildIndex() returns (index: Index)
      requires Valid()
      ensures KeepsFirsts(kit, spells, index) && Covers(kit, spells, |spells|, index)
    {
      hide SameName, KitWorks, KeepsFirsts, Covers, HasName, HashOf, Form;
      index := map[];
      NothingIndexed(kit, spells);
      for n := 0 to |spells|
        invariant KeepsFirsts(kit, spells, index) && Covers(kit, spells, n, index) && Below(index, n)
      {
        var hash := FoldedHash(kit, spells[n].name);
        assert hash == NameHash(kit, spells[n].name);
        if hash !in index {
          NotHad(kit, spells, index, spells[n].name);
          IndexGrows(kit, spells, n, index, One(n));
          index := index[hash := One(n)];
        } else {
          BucketsInRange(kit, spells, index, hash);
          var kept := FindInBucket(kit, spells, Indexes(index[hash]), spells[n].name);
          if kept.Some? {
            AlreadyHad(kit, spells, n, index, kept.value);
          } else {
            NotInBucket(kit, spells, index, spells[n].name);
            IndexGrows(kit, spells, n, index, Many(Indexes(index[hash]) + [n]));
            index := index[hash := Many(Indexes(index[hash]) + [n])];
          }
        }
      }
    }

    /** The first spell of that name. */
    method ByFoldedName(name: string) returns (found: Option<nat>)
      requires Valid()
      modifies this
      ensures Valid()
      ensures found.Some? ==> FirstNamed(kit, spells, name, found.value)
      ensures found.None? ==> NoneNamed(kit, spells, name)
    {
      hide SameName, KitWorks, HashOf, Form;
      if byName.None? {
        var index := BuildIndex();
        byName := Some(index);
      }
      var hash := FoldedHash(kit, name);
      assert hash == NameHash(kit, name);
      forall i | 0 <= i < |spells| && SameName(kit, spells[i].name, name) ensures HasName(kit, spells, byName.value, name) {
        NameIsHad(kit, spells, byName.value, spells[i].name, name);
      }
      if hash !in byName.value { return None; }
      BucketsInRange(kit, spells, byName.value, hash);
      found := FindInBucket(kit, spells, Indexes(byName.value[hash]), name);
      if found.Some? {
        forall i | 0 <= i < found.value ensures !SameName(kit, spells[i].name, name) {
          SameThroughout(kit, spells[i].name, spells[found.value].name, name);
        }
      }
    }

    /** A spell by name, as the scan finds it in this table. */
    method FindByName(name: string, partial: bool) returns (found: Option<Spell>)
      requires Valid()
      modifies this
      ensures Valid() && Answer(kit, spells, name, partial, found)
    {
      hide SameName, KitWorks, KeepsFirsts, Covers;
      if kit.blank(name) { return None; }
      var at := ByFoldedName(name);
      if at.Some? { return Some(spells[at.value]); }
      if !partial { return None; }
      at := FindContaining(kit, spells, name);
      found := if at.Some? then Some(spells[at.value]) else None;
    }
  }

  lemma SameThroughout(kit: Kit, a: string, b: string, c: string)
    requires SameName(kit, b, c)
    ensures SameName(kit, a, b) <==> SameName(kit, a, c)
  {}

  lemma NothingIndexed(kit: Kit, spells: seq<Spell>)
    ensures KeepsFirsts(kit, spells, map[]) && Covers(kit, spells, 0, map[]) && Below(map[], 0)
  {}

  lemma NotHad(kit: Kit, spells: seq<Spell>, index: Index, name: string)
    requires NameHash(kit, name) !in index
    ensures !HasName(kit, spells, index, name)
  {}

  lemma NotInBucket(kit: Kit, spells: seq<Spell>, index: Index, name: string)
    requires NameHash(kit, name) in index
    requires forall k :: k in Indexes(index[NameHash(kit, name)]) ==> k < |spells| && !SameName(kit, spells[k].name, name)
    ensures !HasName(kit, spells, index, name)
  {}

  lemma AlreadyHad(kit: Kit, spells: seq<Spell>, n: nat, index: Index, kept: nat)
    requires n < |spells| && Covers(kit, spells, n, index) && Below(index, n)
    requires NameHash(kit, spells[n].name) in index && kept in Indexes(index[NameHash(kit, spells[n].name)])
    requires kept < |spells| && SameName(kit, spells[kept].name, spells[n].name)
    ensures Covers(kit, spells, n + 1, index) && Below(index, n + 1)
  {}
}
