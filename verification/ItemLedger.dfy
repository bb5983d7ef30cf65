/** The timers of spells cast on items: a table whose changes wait to be
    written until the storage is at hand, kept against one that writes each
    change at once. */
module ItemLedger {

  datatype Option<+T> = None | Some(value: T)

  const LAST_MOMENT := 253_402_300_799_999
  const FIRST_MOMENT := -62_135_596_800_000

  datatype Key = Key(item: nat, family: nat, spell: nat)

  /** `a` is the due stamp a force sets to now, `b` the real expiry. */
  datatype Entry = Entry(a: real, b: real, quality: int, weenie: nat, name: string, recorded: int, expires: int)

  datatype Row = Row(quality: int, weenie: nat, name: string, recorded: int, expires: int)

  datatype Scope = Scope(server: string, character: string)

  /** What a file holds: rows of ours, one for each key; rows in an order, as
      someone else may have left them; or something that does not read. */
  datatype File =
    | Saved(scope: Scope, savedAt: int, rows: map<Key, Row>)
    | Found(scope: Scope, savedAt: int, listed: seq<(Key, Row)>)
    | Unreadable

  type Files = map<string, File>

  /** The text services: trimming, blankness, equality whatever the case, and
      the file a scope is kept in. */
  datatype Texts = Texts(trim: string -> string, blank: string -> bool, same: (string, string) -> bool, file: Scope -> string)

  predicate Names(scope: Scope) { scope.server != "" && scope.character != "" }

  predicate SameScope(texts: Texts, a: Scope, b: Scope) { texts.same(a.server, b.server) && texts.same(a.character, b.character) }

  // ----- the store -----

  predicate InRange(moment: int) { FIRST_MOMENT <= moment <= LAST_MOMENT }

  /** The days of all years before this one, by the Gregorian calendar. */
  function DaysBefore(year: nat): int
    requires year > 0
  {
    365 * (year - 1) + (year - 1) / 4 - (year - 1) / 100 + (year - 1) / 400
  }

  /** A moment is a millisecond of the years 1 to 9999, counted from 1970. */
  lemma MomentsAreOfTheCalendar(moment: int)
    ensures InRange(moment) <==>
            (DaysBefore(1) - DaysBefore(1970)) * 24 * 60 * 60 * 1000 <= moment < (DaysBefore(10_000) - DaysBefore(1970)) * 24 * 60 * 60 * 1000
  {}

  /** A row that makes the whole file suspect: seen after now, or no moment. */
  predicate Refuses(row: Row, now: int) { !InRange(row.recorded) || !InRange(row.expires) || row.recorded > now }

  /** A whole row whose timer still runs. */
  predicate Runs(texts: Texts, key: Key, row: Row, now: int) {
    && key.item != 0 && row.weenie != 0 && !texts.blank(row.name) && key.family != 0 && key.spell != 0
    && row.expires > row.recorded && row.expires > now
  }

  datatype Reading = Rows(rows: map<Key, Row>, rewrite: bool) | Refused

  function ReadKeyed(texts: Texts, rows: map<Key, Row>, now: int): Reading {
    if exists k :: k in rows && Refuses(rows[k], now) then Refused
    else Rows(map k | k in rows && Runs(texts, k, rows[k], now) :: rows[k], exists k :: k in rows && !Runs(texts, k, rows[k], now))
  }

  /** Row by row: of two for one key the longer timer is kept, the earlier row
      of two alike. */
  function ReadListed(texts: Texts, listed: seq<(Key, Row)>, now: int): Reading {
    if listed == [] then Rows(map[], false)
    else match ReadListed(texts, listed[..|listed| - 1], now)
      case Refused => Refused
      case Rows(rows, rewrite) =>
        var (key, row) := listed[|listed| - 1];
        if Refuses(row, now) then Refused
        else if !Runs(texts, key, row, now) then Rows(rows, true)
        else if key !in rows then Rows(rows[key := row], rewrite)
        else if rows[key].expires >= row.expires then Rows(rows, true)
        else Rows(rows[key := row], true)
  }

  function Read(texts: Texts, scope: Scope, file: File, now: int): Reading {
    match file
    case Unreadable => Refused
    case Saved(of, savedAt, rows) =>
      if !SameScope(texts, scope, of) || !InRange(savedAt) || savedAt > now then Refused else ReadKeyed(texts, rows, now)
    case Found(of, savedAt, listed) =>
      if !SameScope(texts, scope, of) || !InRange(savedAt) || savedAt > now then Refused else ReadListed(texts, listed, now)
  }

  /** A file not trusted is deleted. */
  function Loaded(texts: Texts, scope: Scope, files: Files, now: int): (Files, map<Key, Row>, bool) {
    var at := texts.file(scope);
    if at !in files then (files, map[], false)
    else match Read(texts, scope, files[at], now)
      case Refused => (files - {at}, map[], false)
      case Rows(rows, rewrite) => (files, rows, rewrite)
  }

  /** A file with no rows is deleted. */
  function Save(texts: Texts, scope: Scope, rows: map<Key, Row>, now: int, files: Files): Files {
    if rows == map[] then files - {texts.file(scope)} else files[texts.file(scope) := Saved(scope, now, rows)]
  }

  // ----- the table -----

  datatype Ledger = Ledger(entries: map<Key, Entry>, scope: Option<Scope>, utcNow: int, last: Option<int>)

  function RowOf(entry: Entry): Row { Row(entry.quality, entry.weenie, entry.name, entry.recorded, entry.expires) }

  /** The part of the table a file keeps: rows whose item can be told again. */
  function Records(entries: map<Key, Entry>): map<Key, Row> {
    map k | k in entries && entries[k].weenie != 0 && entries[k].name != "" :: RowOf(entries[k])
  }

  /** What a change asks of the file. */
  datatype Request = DeleteFile | SaveRows(now: int)

  datatype Item = Item(id: nat, weenie: nat, name: string)

  /** A time that is no number is None. */
  datatype Operation =
    | SetClock(utcNow: int)
    | NoteCast(item: Item, family: nat, spell: nat, quality: int, duration: Option<real>, now: Option<real>)
    | RemainingOf(owned: Item)
    | ForceAll(at: real)
    | CancelForce
    | Expire(before: real)
    | InvalidateItem(id: nat)
    | Invalidate(of: nat, kind: nat)
    | Bind(server: Option<string>, character: Option<string>, since: real)
    | Flush
    | Reset

  /** The whole number nearest `x`, the one further from zero of two as near. */
  function RoundAway(x: real): int { if x >= 0.0 then (x + 0.5).Floor else -((0.5 - x).Floor) }

  /** Looking at the clock: if it is behind where it was last, no timer can be
      believed, and the file is asked to go. */
  function Observed(ledger: Ledger): (Ledger, seq<Request>) {
    if ledger.last.Some? && ledger.utcNow < ledger.last.value
    then (ledger.(entries := map[], last := Some(ledger.utcNow)), [DeleteFile])
    else (ledger.(last := Some(ledger.utcNow)), [])
  }

  /** The entry a cast finds: one of another item under the same id is no entry. */
  function Present(texts: Texts, entries: map<Key, Entry>, key: Key, item: Item): Option<Entry> {
    if key !in entries then None
    else if item.weenie != 0 && entries[key].weenie != 0
            && (entries[key].weenie != item.weenie || !texts.same(entries[key].name, item.name)) then None
    else Some(entries[key])
  }

  /** An entry with no identity takes the item's. */
  predicate Enriches(texts: Texts, entry: Entry, item: Item) { item.weenie != 0 && entry.weenie == 0 && !texts.blank(item.name) }

  /** The table after a cast that ends at `expiry`, and whether it changed. */
  function Settled(texts: Texts, entries: map<Key, Entry>, key: Key, item: Item, quality: int, expiry: real, moment: int, expires: int)
    : (map<Key, Entry>, bool)
  {
    var present := Present(texts, entries, key, item);
    if present.None? || present.value.b < expiry then
      (entries[key := Entry(expiry, expiry, quality, item.weenie, texts.trim(item.name), moment, expires)], true)
    else if Enriches(texts, present.value, item) then
      (entries[key := present.value.(weenie := item.weenie, name := texts.trim(item.name))], true)
    else (entries, false)
  }

  function Noted(texts: Texts, ledger: Ledger, key: Key, item: Item, quality: int, duration: real, now: real): (Ledger, seq<Request>) {
    var (seen, requests) := Observed(ledger);
    var expiresAt := seen.utcNow as real + duration * 1000.0;
    if expiresAt > LAST_MOMENT as real then (seen, requests)
    else
      var (entries, changed) := Settled(texts, seen.entries, key, item, quality, now + duration, seen.utcNow, RoundAway(expiresAt));
      if changed then (seen.(entries := entries), requests + [SaveRows(seen.utcNow)]) else (seen, requests)
  }

  function Dropped(ledger: Ledger, gone: set<Key>): (Ledger, seq<Request>) {
    if gone == {} then (ledger, [])
    else
      var (seen, requests) := Observed(ledger.(entries := ledger.entries - gone));
      (seen, requests + [SaveRows(seen.utcNow)])
  }

  function Expired(ledger: Ledger, before: real): (Ledger, seq<Request>) {
    var (seen, requests) := Observed(ledger);
    var gone := set k | k in seen.entries && seen.entries[k].b < before;
    if gone == {} then (seen, requests)
    else (seen.(entries := seen.entries - gone), requests + [SaveRows(seen.utcNow)])
  }

  function OfItem(ledger: Ledger, id: nat): set<Key> { set k | k in ledger.entries && k.item == id }

  function OfFamily(ledger: Ledger, id: nat, family: nat): set<Key> { set k | k in ledger.entries && k.item == id && k.family == family }

  /** The id is still the item's whose timers were kept; rows without an
      identity carry no stamp. */
  predicate MatchesIdentity(texts: Texts, ledger: Ledger, item: Item) {
    forall k :: k in ledger.entries && k.item == item.id ==>
      var entry := ledger.entries[k];
      (entry.weenie == 0 && entry.name == "") || (entry.weenie == item.weenie && texts.same(entry.name, texts.trim(item.name)))
  }

  function Forced(ledger: Ledger, at: real): Ledger { ledger.(entries := map k | k in ledger.entries :: ledger.entries[k].(a := at)) }

  function Cancelled(ledger: Ledger): Ledger {
    ledger.(entries := map k | k in ledger.entries :: ledger.entries[k].(a := ledger.entries[k].b))
  }

  /** What an operation that keeps away from the storage does and asks. */
  function Effect(texts: Texts, ledger: Ledger, op: Operation): (Ledger, seq<Request>) {
    match op
    case SetClock(utcNow) => (ledger.(utcNow := utcNow), [])
    case NoteCast(item, family, spell, quality, duration, now) =>
      if duration.None? || duration.value <= 0.0 || now.None? then (ledger, [])
      else Noted(texts, ledger, Key(item.id, family, spell), item, quality, duration.value, now.value)
    case RemainingOf(item) =>
      if MatchesIdentity(texts, ledger, item) || item.id == 0 then (ledger, []) else Dropped(ledger, OfItem(ledger, item.id))
    case ForceAll(at) => (Forced(ledger, at), [])
    case CancelForce => (Cancelled(ledger), [])
    case Expire(before) => Expired(ledger, before)
    case InvalidateItem(id) => if id == 0 then (ledger, []) else Dropped(ledger, OfItem(ledger, id))
    case Invalidate(id, family) => if id == 0 || family == 0 then (ledger, []) else Dropped(ledger, OfFamily(ledger, id, family))
    case _ => (ledger, [])
  }

  /** The restored entry: its remaining time on the macro's clock. */
  function EntryOf(row: Row, utcNow: int, since: real): Entry {
    var expiry := since + (row.expires - utcNow) as real / 1000.0;
    Entry(expiry, expiry, row.quality, row.weenie, row.name, row.recorded, row.expires)
  }

  function Restored(rows: map<Key, Row>, utcNow: int, since: real): map<Key, Entry> {
    map k | k in rows && rows[k].expires - utcNow > 0 :: EntryOf(rows[k], utcNow, since)
  }

  function ScopeOf(texts: Texts, server: Option<string>, character: Option<string>): Scope {
    Scope(if server.Some? then texts.trim(server.value) else "", if character.Some? then texts.trim(character.value) else "")
  }

  /** What binding leaves of the files and the table, and what it asks. */
  function Bound(texts: Texts, ledger: Ledger, files: Files, scope: Scope, since: real): (Files, Ledger, seq<Request>) {
    if !Names(scope) then (files, ledger.(entries := map[], scope := None), [])
    else
      var (files', rows, rewrite) := Loaded(texts, scope, files, ledger.utcNow);
      (files', Ledger(Restored(rows, ledger.utcNow, since), Some(scope), ledger.utcNow, Some(ledger.utcNow)),
       if rewrite then [SaveRows(ledger.utcNow)] else [])
  }

  // ----- each request carried out at once -----

  datatype Through = Through(ledger: Ledger, files: Files)

  function CarryOut(texts: Texts, ledger: Ledger, request: Request, files: Files): Files {
    if ledger.scope.None? then files
    else match request
      case DeleteFile => files - {texts.file(ledger.scope.value)}
      case SaveRows(now) => Save(texts, ledger.scope.value, Records(ledger.entries), now, files)
  }

  function CarryOutAll(texts: Texts, ledger: Ledger, requests: seq<Request>, files: Files): Files {
    if requests == [] then files
    else CarryOut(texts, ledger, requests[|requests| - 1], CarryOutAll(texts, ledger, requests[..|requests| - 1], files))
  }

  function StepThrough(texts: Texts, s: Through, op: Operation): Through {
    match op
    case Flush => s
    case Reset => Through(s.ledger.(entries := map[], scope := None, last := None), s.files)
    case Bind(server, character, since) =>
      var (files, ledger, requests) := Bound(texts, s.ledger, s.files, ScopeOf(texts, server, character), since);
      Through(ledger, CarryOutAll(texts, ledger, requests, files))
    case _ =>
      var (ledger, requests) := Effect(texts, s.ledger, op);
      Through(ledger, CarryOutAll(texts, ledger, requests, s.files))
  }

  // ----- requests kept until a flush -----

  datatype Pending = Nothing | Delete | SaveAt(now: int) | DeleteThenSave(now: int)

  datatype Behind = Behind(ledger: Ledger, write: Pending, files: Files)

  function Merge(bound: bool, write: Pending, request: Request): Pending {
    if !bound then write
    else match request
      case DeleteFile => Delete
      case SaveRows(now) => if write.Delete? || write.DeleteThenSave? then DeleteThenSave(now) else SaveAt(now)
  }

  function MergeAll(bound: bool, write: Pending, requests: seq<Request>): Pending {
    if requests == [] then write
    else Merge(bound, MergeAll(bound, write, requests[..|requests| - 1]), requests[|requests| - 1])
  }

  function Flushed(texts: Texts, ledger: Ledger, write: Pending, files: Files): Files {
    if ledger.scope.None? then files
    else
      var scope := ledger.scope.value;
      match write
      case Nothing => files
      case Delete => files - {texts.file(scope)}
      case SaveAt(now) => Save(texts, scope, Records(ledger.entries), now, files)
      case DeleteThenSave(now) => Save(texts, scope, Records(ledger.entries), now, files - {texts.file(scope)})
  }

  function StepBehind(texts: Texts, s: Behind, op: Operation): Behind {
    match op
    case Flush => Behind(s.ledger, Nothing, Flushed(texts, s.ledger, s.write, s.files))
    case Reset => Behind(s.ledger.(entries := map[], scope := None, last := None), Nothing, s.files)
    case Bind(server, character, since) =>
      var files := Flushed(texts, s.ledger, s.write, s.files);
      var (files', ledger, requests) := Bound(texts, s.ledger, files, ScopeOf(texts, server, character), since);
      Behind(ledger, MergeAll(ledger.scope.Some?, Nothing, requests), files')
    case _ =>
      var (ledger, requests) := Effect(texts, s.ledger, op);
      Behind(ledger, MergeAll(ledger.scope.Some?, s.write, requests), s.files)
  }

  const FRESH := Ledger(map[], None, 0, None)

  function RunThrough(texts: Texts, files: Files, ops: seq<Operation>): Through {
    if ops == [] then Through(FRESH, files) else StepThrough(texts, RunThrough(texts, files, ops[..|ops| - 1]), ops[|ops| - 1])
  }

  function RunBehind(texts: Texts, files: Files, ops: seq<Operation>): Behind {
    if ops == [] then Behind(FRESH, Nothing, files) else StepBehind(texts, RunBehind(texts, files, ops[..|ops| - 1]), ops[|ops| - 1])
  }

  // ----- the one refines the other -----

  /** The same table, and files that would be the same once flushed. */
  ghost predicate Related(texts: Texts, s: Behind, t: Through) {
    && s.ledger == t.ledger && t.files == Flushed(texts, s.ledger, s.write, s.files)
    && (s.ledger.scope.None? ==> s.write.Nothing?)
  }

  /** An operation whose table changes in the file's eyes asks for a save as
      the last thing it does, or for a delete of what is now empty. */
  ghost predicate AsksEnough(before: Ledger, after: Ledger, requests: seq<Request>) {
    && after.scope == before.scope
    && (requests == [] ==> Records(after.entries) == Records(before.entries))
    && |requests| <= 2
    && (requests != [] && requests[|requests| - 1] == DeleteFile ==> after.entries == map[])
    && (|requests| == 2 ==> requests[0] == DeleteFile && requests[1].SaveRows?)
  }

  lemma EffectAsksEnough(texts: Texts, ledger: Ledger, op: Operation)
    ensures AsksEnough(ledger, Effect(texts, ledger, op).0, Effect(texts, ledger, op).1)
  {
    hide Noted, Dropped, Expired, MatchesIdentity, AsksEnough;
    match op
    case NoteCast(item, family, spell, quality, duration, now) =>
      if duration.Some? && now.Some? { NotedAsksEnough(texts, ledger, Key(item.id, family, spell), item, quality, duration.value, now.value); }
      ChangelessAsksEnough(ledger, ledger);
    case RemainingOf(item) =>
      DroppedAsksEnough(ledger, OfItem(ledger, item.id));
      ChangelessAsksEnough(ledger, ledger);
    case Expire(before) => ExpiredAsksEnough(ledger, before);
    case InvalidateItem(id) =>
      DroppedAsksEnough(ledger, OfItem(ledger, id));
      ChangelessAsksEnough(ledger, ledger);
    case Invalidate(id, family) =>
      DroppedAsksEnough(ledger, OfFamily(ledger, id, family));
      ChangelessAsksEnough(ledger, ledger);
    case _ => ChangelessAsksEnough(ledger, Effect(texts, ledger, op).0);
  }

  lemma ChangelessAsksEnough(before: Ledger, after: Ledger)
    requires after.scope == before.scope && Records(after.entries) == Records(before.entries)
    ensures AsksEnough(before, after, [])
  {}

  lemma NotedAsksEnough(texts: Texts, ledger: Ledger, key: Key, item: Item, quality: int, duration: real, now: real)
    ensures AsksEnough(ledger, Noted(texts, ledger, key, item, quality, duration, now).0, Noted(texts, ledger, key, item, quality, duration, now).1)
  {
    hide Settled, RoundAway;
    var seen := Observed(ledger).0;
    SettlesNothing(texts, seen.entries, key, item, quality, now + duration, seen.utcNow, RoundAway(seen.utcNow as real + duration * 1000.0));
  }

  lemma DroppedAsksEnough(ledger: Ledger, gone: set<Key>)
    ensures AsksEnough(ledger, Dropped(ledger, gone).0, Dropped(ledger, gone).1)
  {}

  lemma ExpiredAsksEnough(ledger: Ledger, before: real)
    ensures AsksEnough(ledger, Expired(ledger, before).0, Expired(ledger, before).1)
  {}

  /** A request leaves nothing of what its file was. */
  lemma RequestOverwrites(texts: Texts, ledger: Ledger, request: Request, files: Files, others: Files)
    requires ledger.scope.Some? && files - {texts.file(ledger.scope.value)} == others - {texts.file(ledger.scope.value)}
    ensures CarryOut(texts, ledger, request, files) == CarryOut(texts, ledger, request, others)
  {
    hide Records;
    var at := texts.file(ledger.scope.value);
    forall k | k != at ensures k in files <==> k in others {
      assert k in files - {at} <==> k in others - {at};
    }
    forall k | k != at && k in files ensures k in others && files[k] == others[k] {
      assert (files - {at})[k] == (others - {at})[k];
    }
  }

  lemma FlushTouchesOneFile(texts: Texts, ledger: Ledger, write: Pending, files: Files)
    requires ledger.scope.Some?
    ensures Flushed(texts, ledger, write, files) - {texts.file(ledger.scope.value)} == files - {texts.file(ledger.scope.value)}
  {
    hide Records;
  }

  lemma MergedRequest(texts: Texts, ledger: Ledger, write: Pending, request: Request, files: Files)
    requires ledger.scope.Some?
    ensures Flushed(texts, ledger, Merge(true, write, request), files) == CarryOut(texts, ledger, request, files)
  {
    hide Records;
  }

  /** What is merged into the pending write comes, once flushed, to each
      request carried out at once. */
  lemma MergeIsCarryOut(texts: Texts, before: Ledger, after: Ledger, requests: seq<Request>, write: Pending, files: Files)
    requires AsksEnough(before, after, requests) && (before.scope.None? ==> write.Nothing?)
    ensures Flushed(texts, after, MergeAll(after.scope.Some?, write, requests), files)
         == CarryOutAll(texts, after, requests, Flushed(texts, before, write, files))
    ensures after.scope.None? ==> MergeAll(after.scope.Some?, write, requests) == write
  {
    hide Records, Save, CarryOut, Merge;
    if |requests| == 1 {
      OneRequest(texts, after, write, requests, Flushed(texts, before, write, files));
    } else if |requests| == 2 {
      TwoRequests(texts, after, write, requests, Flushed(texts, before, write, files));
    }
    if before.scope.None? {
      MergeNothing(texts, after, write, files);
    } else if |requests| > 0 {
      var flushed := Flushed(texts, before, write, files);
      FlushTouchesOneFile(texts, before, write, files);
      if |requests| == 1 {
        MergedRequest(texts, after, write, requests[0], files);
        RequestOverwrites(texts, after, requests[0], files, flushed);
      } else {
        var middle := Merge(true, write, requests[0]);
        MergedRequest(texts, after, middle, requests[1], files);
        FlushTouchesOneFile(texts, after, middle, files);
        MergedRequest(texts, after, write, requests[0], files);
        RequestOverwrites(texts, after, requests[0], files, flushed);
        RequestOverwrites(texts, after, requests[1], files, CarryOut(texts, after, requests[0], flushed));
      }
    }
  }

  lemma OneRequest(texts: Texts, ledger: Ledger, write: Pending, requests: seq<Request>, files: Files)
    requires |requests| == 1
    ensures MergeAll(ledger.scope.Some?, write, requests) == Merge(ledger.scope.Some?, write, requests[0])
    ensures CarryOutAll(texts, ledger, requests, files) == CarryOut(texts, ledger, requests[0], files)
  {
    hide Merge, CarryOut;
    assert requests[..0] == [];
  }

  lemma TwoRequests(texts: Texts, ledger: Ledger, write: Pending, requests: seq<Request>, files: Files)
    requires |requests| == 2
    ensures MergeAll(ledger.scope.Some?, write, requests) == Merge(ledger.scope.Some?, Merge(ledger.scope.Some?, write, requests[0]), requests[1])
    ensures CarryOutAll(texts, ledger, requests, files) == CarryOut(texts, ledger, requests[1], CarryOut(texts, ledger, requests[0], files))
  {
    hide Merge, CarryOut;
    OneRequest(texts, ledger, write, requests[..1], files);
  }

  lemma MergeNothing(texts: Texts, ledger: Ledger, write: Pending, files: Files)
    requires ledger.scope.None?
    ensures forall request :: Merge(false, write, request) == write && CarryOut(texts, ledger, request, files) == files
  {}

  lemma BoundAsksEnough(texts: Texts, ledger: Ledger, files: Files, scope: Scope, since: real)
    ensures var (files', after, requests) := Bound(texts, ledger, files, scope, since);
            && requests == (if requests == [] then [] else [SaveRows(ledger.utcNow)])
            && (after.scope.None? ==> requests == [])
  {}

  /** Nothing that waits would change the stored file: no write waits, or a
      delete of a file that is not there, or a save of what the file holds
      already, moment and rows. */
  predicate LosesNothing(texts: Texts, s: Behind) {
    || s.write.Nothing?
    || s.ledger.scope.None?
    || (var scope, rows := s.ledger.scope.value, Records(s.ledger.entries);
        if s.write.Delete? || rows == map[] then texts.file(scope) !in s.files
        else texts.file(scope) in s.files && s.files[texts.file(scope)] == Saved(scope, s.write.now, rows))
  }

  lemma LosesNothingExactly(texts: Texts, s: Behind)
    ensures LosesNothing(texts, s) <==> Flushed(texts, s.ledger, s.write, s.files) == s.files
  {
    hide Records;
    if s.ledger.scope.Some? && !s.write.Nothing? {
      var at := texts.file(s.ledger.scope.value);
      assert at !in s.files ==> s.files - {at} == s.files;
      assert at in s.files ==> s.files[at := s.files[at]] == s.files;
      var flushed := Flushed(texts, s.ledger, s.write, s.files);
      assert at in flushed ==> flushed == s.files[at := flushed[at]];
      assert flushed == s.files ==> (at in flushed <==> at in s.files);
    }
  }

  /** One more operation, unless it is a teardown that loses something. */
  lemma StepsStayRelated(texts: Texts, s: Behind, t: Through, op: Operation)
    requires Related(texts, s, t) && (op.Reset? ==> LosesNothing(texts, s))
    ensures Related(texts, StepBehind(texts, s, op), StepThrough(texts, t, op))
  {
    hide Effect, Bound, Records, Save, MergeAll, CarryOutAll, AsksEnough, ScopeOf, LosesNothing;
    match op
    case Flush =>
    case Reset => LosesNothingExactly(texts, s);
    case Bind(server, character, since) =>
      BoundStaysRelated(texts, s, t, ScopeOf(texts, server, character), since);
    case _ =>
      EffectAsksEnough(texts, s.ledger, op);
      ScopeKept(s.ledger, Effect(texts, s.ledger, op).0, Effect(texts, s.ledger, op).1);
      MergeIsCarryOut(texts, s.ledger, Effect(texts, s.ledger, op).0, Effect(texts, s.ledger, op).1, s.write, s.files);
  }

  lemma ScopeKept(before: Ledger, after: Ledger, requests: seq<Request>)
    requires AsksEnough(before, after, requests)
    ensures after.scope == before.scope
  {}

  lemma BoundStaysRelated(texts: Texts, s: Behind, t: Through, scope: Scope, since: real)
    requires Related(texts, s, t)
    ensures var (files', ledger, requests) := Bound(texts, s.ledger, t.files, scope, since);
            Related(texts, Behind(ledger, MergeAll(ledger.scope.Some?, Nothing, requests), files'), Through(ledger, CarryOutAll(texts, ledger, requests, files')))
  {
    hide Records, Loaded, Restored, Save;
    var (files', ledger, requests) := Bound(texts, s.ledger, t.files, scope, since);
    if requests != [] {
      assert requests[..0] == [];
      MergedRequest(texts, ledger, Nothing, requests[0], files');
    }
  }

  /** A run none of whose teardowns loses anything. */
  ghost predicate Orderly(texts: Texts, files: Files, ops: seq<Operation>) {
    forall i :: 0 <= i < |ops| && ops[i].Reset? ==> LosesNothing(texts, RunBehind(texts, files, ops[..i]))
  }

  /** Over any such run, the waiting table is the writing one's, and a flush
      leaves every file as if each change had been written when it was made. */
  lemma {:induction false} WriteBehindRefinesWriteThrough(texts: Texts, files: Files, ops: seq<Operation>)
    requires Orderly(texts, files, ops)
    ensures Related(texts, RunBehind(texts, files, ops), RunThrough(texts, files, ops))
    ensures StepBehind(texts, RunBehind(texts, files, ops), Flush).files == RunThrough(texts, files, ops).files
  {
    hide StepBehind, StepThrough, Flushed;
    if ops == [] {
      FreshIsRelated(texts, files);
    } else {
      var n := |ops| - 1;
      assert forall i :: 0 <= i < n ==> ops[..n][..i] == ops[..i];
      WriteBehindRefinesWriteThrough(texts, files, ops[..n]);
      StepsStayRelated(texts, RunBehind(texts, files, ops[..n]), RunThrough(texts, files, ops[..n]), ops[n]);
    }
    FlushStep(texts, RunBehind(texts, files, ops));
  }

  lemma FreshIsRelated(texts: Texts, files: Files)
    ensures Related(texts, Behind(FRESH, Nothing, files), Through(FRESH, files))
  {}

  lemma FlushStep(texts: Texts, s: Behind)
    ensures StepBehind(texts, s, Flush).files == Flushed(texts, s.ledger, s.write, s.files)
  {}

  /** The two keep step all along a run exactly when none of its teardowns
      loses anything. */
  lemma {:induction false} KeepsStepExactlyWhenOrderly(texts: Texts, files: Files, ops: seq<Operation>)
    ensures (forall i :: 0 <= i <= |ops| ==> Related(texts, RunBehind(texts, files, ops[..i]), RunThrough(texts, files, ops[..i])))
       <==> Orderly(texts, files, ops)
  {
    hide Related, LosesNothing, StepBehind, StepThrough, RunBehind, RunThrough;
    if Orderly(texts, files, ops) {
      forall i | 0 <= i <= |ops| ensures Related(texts, RunBehind(texts, files, ops[..i]), RunThrough(texts, files, ops[..i])) {
        assert forall j :: 0 <= j < i ==> ops[..i][..j] == ops[..j];
        WriteBehindRefinesWriteThrough(texts, files, ops[..i]);
      }
    }
    if forall i :: 0 <= i <= |ops| ==> Related(texts, RunBehind(texts, files, ops[..i]), RunThrough(texts, files, ops[..i])) {
      forall i | 0 <= i < |ops| && ops[i].Reset? ensures LosesNothing(texts, RunBehind(texts, files, ops[..i])) {
        assert ops[..i + 1] == ops[..i] + [ops[i]];
        OneMoreStep(texts, files, ops[..i], ops[i]);
        assert Related(texts, RunBehind(texts, files, ops[..i]), RunThrough(texts, files, ops[..i]));
        assert Related(texts, RunBehind(texts, files, ops[..i + 1]), RunThrough(texts, files, ops[..i + 1]));
        TeardownStaysRelated(texts, RunBehind(texts, files, ops[..i]), RunThrough(texts, files, ops[..i]));
      }
    }
  }

  lemma TeardownStaysRelated(texts: Texts, s: Behind, t: Through)
    requires Related(texts, s, t) && Related(texts, StepBehind(texts, s, Reset), StepThrough(texts, t, Reset))
    ensures LosesNothing(texts, s)
  {
    hide LosesNothing, Records, Save;
    LosesNothingExactly(texts, s);
    assert StepBehind(texts, s, Reset).files == s.files && StepThrough(texts, t, Reset).files == t.files;
  }

  /** A teardown after any orderly run leaves the files as writing at once
      would exactly when nothing that waits would change the stored file. */
  lemma TeardownLosesNothingExactly(texts: Texts, files: Files, ops: seq<Operation>)
    requires Orderly(texts, files, ops)
    ensures RunBehind(texts, files, ops + [Reset]).files == RunThrough(texts, files, ops + [Reset]).files
       <==> LosesNothing(texts, RunBehind(texts, files, ops))
  {
    var s, t := RunBehind(texts, files, ops), RunThrough(texts, files, ops);
    WriteBehindRefinesWriteThrough(texts, files, ops);
    OneMoreStep(texts, files, ops, Reset);
    TeardownKeepsFiles(texts, s, t);
    LosesNothingExactly(texts, s);
    hide RunBehind, RunThrough, StepBehind, StepThrough, LosesNothing, Flushed, Orderly;
  }

  predicate TouchesNoFile(op: Operation) { !op.Flush? && !op.Bind? && !op.Reset? }

  /** Until the next flush, binding or teardown the files stay and the scope with them. */
  lemma {:induction false} FilesStayTillTheFlush(texts: Texts, files: Files, ops: seq<Operation>, more: seq<Operation>)
    requires forall i :: 0 <= i < |more| ==> TouchesNoFile(more[i])
    ensures RunBehind(texts, files, ops + more).files == RunBehind(texts, files, ops).files
    ensures RunBehind(texts, files, ops + more).ledger.scope == RunBehind(texts, files, ops).ledger.scope
  {
    if more == [] {
      assert ops + more == ops;
    } else {
      var n := |more| - 1;
      FilesStayTillTheFlush(texts, files, ops, more[..n]);
      assert ops + more == (ops + more[..n]) + [more[n]];
      OneMoreStep(texts, files, ops + more[..n], more[n]);
      EffectAsksEnough(texts, RunBehind(texts, files, ops + more[..n]).ledger, more[n]);
      hide Effect, MergeAll, RunBehind, RunThrough;
    }
  }

  /** A session flushed, then gone on with and torn down leaves in its file the
      durable timers of the flush. */
  lemma TornDownToTheFlush(texts: Texts, files: Files, ops: seq<Operation>, more: seq<Operation>)
    requires texts.blank("") && Orderly(texts, files, ops) && RunBehind(texts, files, ops).ledger.scope.Some?
    requires forall i :: 0 <= i < |more| ==> TouchesNoFile(more[i])
    ensures RowsIn(RunBehind(texts, files, ops + [Flush] + more + [Reset]).files, texts.file(RunBehind(texts, files, ops).ledger.scope.value))
         == Records(RunBehind(texts, files, ops).ledger.entries)
  {
    hide RunBehind, RunThrough, StepBehind, StepThrough, Records, RowsIn, Orderly;
    OneMoreStep(texts, files, ops, Flush);
    OneMoreStep(texts, files, ops + [Flush] + more, Reset);
    var s := RunBehind(texts, files, ops + [Flush] + more);
    TeardownKeepsFiles(texts, s, RunThrough(texts, files, ops + [Flush] + more));
    FlushedFileTellsTheTable(texts, files, ops);
    FlushKeepsLedger(texts, RunBehind(texts, files, ops));
    FilesStayTillTheFlush(texts, files, ops + [Flush], more);
  }

  /** So what came after the flush is lost exactly when the durable timers are
      no longer those of the flush: written at once, the file holds today's. */
  lemma TeardownForgetsSinceTheFlush(texts: Texts, files: Files, ops: seq<Operation>, more: seq<Operation>)
    requires texts.blank("") && Orderly(texts, files, ops) && RunBehind(texts, files, ops).ledger.scope.Some?
    requires forall i :: 0 <= i < |more| ==> TouchesNoFile(more[i])
    ensures var at := texts.file(RunBehind(texts, files, ops).ledger.scope.value);
            var whole := ops + [Flush] + more;
            RowsIn(RunBehind(texts, files, whole + [Reset]).files, at) == RowsIn(RunThrough(texts, files, whole + [Reset]).files, at)
            <==> Records(RunBehind(texts, files, ops).ledger.entries) == Records(RunBehind(texts, files, whole).ledger.entries)
  {
    hide RunBehind, RunThrough, StepBehind, StepThrough, Records, RowsIn, Orderly, Flushed;
    var whole := ops + [Flush] + more;
    TornDownToTheFlush(texts, files, ops, more);
    OneMoreStep(texts, files, ops, Flush);
    OneMoreStep(texts, files, whole, Reset);
    TeardownKeepsFiles(texts, RunBehind(texts, files, whole), RunThrough(texts, files, whole));
    FlushKeepsLedger(texts, RunBehind(texts, files, ops));
    FilesStayTillTheFlush(texts, files, ops + [Flush], more);
    OrderlyGoesOn(texts, files, ops, [Flush] + more);
    assert ops + ([Flush] + more) == whole;
    WriteBehindRefinesWriteThrough(texts, files, whole);
    FileTellsTheTable(texts, files, whole);
  }

  lemma FlushKeepsLedger(texts: Texts, s: Behind)
    ensures StepBehind(texts, s, Flush).ledger == s.ledger
  {}

  lemma OrderlyGoesOn(texts: Texts, files: Files, ops: seq<Operation>, more: seq<Operation>)
    requires Orderly(texts, files, ops) && forall i :: 0 <= i < |more| ==> !more[i].Reset?
    ensures Orderly(texts, files, ops + more)
  {
    hide LosesNothing, RunBehind;
    forall i | 0 <= i < |ops + more| && (ops + more)[i].Reset? ensures LosesNothing(texts, RunBehind(texts, files, (ops + more)[..i])) {
      assert i < |ops| && (ops + more)[..i] == ops[..i];
    }
  }

  /** An instance: a timer noted and never flushed. */
  lemma TeardownCanLoseATimer(texts: Texts)
    requires texts.trim("s") == "s" && texts.trim("c") == "c" && texts.trim("w") == "w"
    ensures var ops := [Bind(Some("s"), Some("c"), 0.0), NoteCast(Item(1, 2, "w"), 3, 4, 5, Some(6.0), Some(0.0)), Reset];
            RunBehind(texts, map[], ops).files != RunThrough(texts, map[], ops).files
  {
    var bind, note := Bind(Some("s"), Some("c"), 0.0), NoteCast(Item(1, 2, "w"), 3, 4, 5, Some(6.0), Some(0.0));
    var ledger := Ledger(map[], Some(Scope("s", "c")), 0, Some(0));
    FirstBind(texts, bind);
    NoteWaits(texts, ledger, note);
    OneMoreStep(texts, map[], [bind], note);
    OneMoreStep(texts, map[], [bind, note], Reset);
    assert [bind] + [note] == [bind, note] && [bind, note] + [Reset] == [bind, note, Reset];
    hide RunBehind, RunThrough, StepBehind, StepThrough;
    TeardownKeepsFiles(texts, RunBehind(texts, map[], [bind, note]), RunThrough(texts, map[], [bind, note]));
  }

  lemma TeardownKeepsFiles(texts: Texts, s: Behind, t: Through)
    ensures StepBehind(texts, s, Reset).files == s.files && StepThrough(texts, t, Reset).files == t.files
  {}

  lemma FirstBind(texts: Texts, bind: Operation)
    requires bind == Bind(Some("s"), Some("c"), 0.0) && texts.trim("s") == "s" && texts.trim("c") == "c"
    ensures var ledger := Ledger(map[], Some(Scope("s", "c")), 0, Some(0));
            RunBehind(texts, map[], [bind]) == Behind(ledger, Nothing, map[]) && RunThrough(texts, map[], [bind]) == Through(ledger, map[])
  {
    BindsNothing(texts);
    OneMoreStep(texts, map[], [], bind);
    hide Bound, Records, Save, MergeAll, CarryOutAll, ScopeOf, RunBehind, RunThrough;
    assert [] + [bind] == [bind];
  }

  /** The note reaches the file only where it is written at once. */
  lemma NoteWaits(texts: Texts, ledger: Ledger, note: Operation)
    requires note == NoteCast(Item(1, 2, "w"), 3, 4, 5, Some(6.0), Some(0.0)) && texts.trim("w") == "w"
    requires ledger == Ledger(map[], Some(Scope("s", "c")), 0, Some(0))
    ensures StepBehind(texts, Behind(ledger, Nothing, map[]), note).files == map[]
    ensures texts.file(Scope("s", "c")) in StepThrough(texts, Through(ledger, map[]), note).files
  {
    NotesOneTimer(texts, ledger);
    hide Effect, MergeAll, CarryOutAll;
  }

  lemma OneMoreStep(texts: Texts, files: Files, ops: seq<Operation>, op: Operation)
    ensures RunThrough(texts, files, []) == Through(FRESH, files) && RunBehind(texts, files, []) == Behind(FRESH, Nothing, files)
    ensures RunThrough(texts, files, ops + [op]) == StepThrough(texts, RunThrough(texts, files, ops), op)
    ensures RunBehind(texts, files, ops + [op]) == StepBehind(texts, RunBehind(texts, files, ops), op)
  {
    hide StepThrough, StepBehind;
    assert (ops + [op])[..|ops|] == ops;
  }

  lemma BindsNothing(texts: Texts)
    requires texts.trim("s") == "s" && texts.trim("c") == "c"
    ensures ScopeOf(texts, Some("s"), Some("c")) == Scope("s", "c")
    ensures Bound(texts, FRESH, map[], Scope("s", "c"), 0.0) == (map[], Ledger(map[], Some(Scope("s", "c")), 0, Some(0)), [])
    ensures MergeAll(true, Nothing, []) == Nothing
    ensures forall ledger, files :: CarryOutAll(texts, ledger, [], files) == files
  {
    assert Restored(map[], 0, 0.0) == map[];
  }

  lemma NotesOneTimer(texts: Texts, ledger: Ledger)
    requires texts.trim("w") == "w" && ledger.entries == map[] && ledger.utcNow == 0 && ledger.last == Some(0) && ledger.scope.Some?
    ensures var note := NoteCast(Item(1, 2, "w"), 3, 4, 5, Some(6.0), Some(0.0));
            var (after, requests) := Effect(texts, ledger, note);
            after.scope == ledger.scope && texts.file(ledger.scope.value) in CarryOutAll(texts, after, requests, map[])
  {
    var key, entry := Key(1, 3, 4), Entry(6.0, 6.0, 5, 2, "w", 0, 6000);
    var after := ledger.(entries := map[key := entry]);
    var none: seq<Request> := [];
    assert none + [SaveRows(0)] == [SaveRows(0)];
    assert Noted(texts, ledger, key, Item(1, 2, "w"), 5, 6.0, 0.0) == (after, [SaveRows(0)]);
    assert key in Records(after.entries);
    OneRequest(texts, after, Nothing, [SaveRows(0)], map[]);
  }

  // ----- the file tells the table -----

  /** The rows a listing comes to, the longer timer of two for one key. */
  function RowsListed(listed: seq<(Key, Row)>): map<Key, Row> {
    if listed == [] then map[]
    else
      var before := RowsListed(listed[..|listed| - 1]);
      var (key, row) := listed[|listed| - 1];
      if key in before && before[key].expires >= row.expires then before else before[key := row]
  }

  function RowsIn(files: Files, at: string): map<Key, Row> {
    if at !in files then map[]
    else match files[at]
      case Saved(_, _, rows) => rows
      case Found(_, _, listed) => RowsListed(listed)
      case Unreadable => map[]
  }

  /** The bound file's rows are exactly the table's rows with a durable identity. */
  ghost predicate Told(texts: Texts, s: Through) {
    s.ledger.scope.Some? ==> RowsIn(s.files, texts.file(s.ledger.scope.value)) == Records(s.ledger.entries)
  }

  lemma SavedTells(texts: Texts, scope: Scope, rows: map<Key, Row>, now: int, files: Files)
    ensures RowsIn(Save(texts, scope, rows, now, files), texts.file(scope)) == rows
  {}

  lemma {:induction false} ReadTellsListed(texts: Texts, listed: seq<(Key, Row)>, now: int)
    requires ReadListed(texts, listed, now).Rows?
    ensures forall k :: k in ReadListed(texts, listed, now).rows ==> Runs(texts, k, ReadListed(texts, listed, now).rows[k], now)
    ensures !ReadListed(texts, listed, now).rewrite ==> ReadListed(texts, listed, now).rows == RowsListed(listed)
  {
    if listed != [] { ReadTellsListed(texts, listed[..|listed| - 1], now); }
  }

  /** What is read without a rewrite is what the file holds, and every row of
      it has an identity and time left. */
  lemma ReadTells(texts: Texts, scope: Scope, files: Files, now: int)
    requires texts.file(scope) in files && Read(texts, scope, files[texts.file(scope)], now).Rows?
    ensures var reading := Read(texts, scope, files[texts.file(scope)], now);
            && (forall k :: k in reading.rows ==> Runs(texts, k, reading.rows[k], now))
            && (!reading.rewrite ==> reading.rows == RowsIn(files, texts.file(scope)))
  {
    match files[texts.file(scope)]
    case Found(_, _, listed) => ReadTellsListed(texts, listed, now);
    case Saved(_, _, rows) =>
      var reading := ReadKeyed(texts, rows, now);
      if !reading.rewrite { assert reading.rows == rows; }
  }

  lemma RestoredRecords(texts: Texts, rows: map<Key, Row>, utcNow: int, since: real)
    requires texts.blank("") && forall k :: k in rows ==> Runs(texts, k, rows[k], utcNow)
    ensures Records(Restored(rows, utcNow, since)) == rows
  {}

  lemma EffectTells(texts: Texts, before: Ledger, after: Ledger, requests: seq<Request>, files: Files)
    requires AsksEnough(before, after, requests) && Told(texts, Through(before, files))
    ensures Told(texts, Through(after, CarryOutAll(texts, after, requests, files)))
  {
    hide Save, Records;
    if after.scope.Some? && requests != [] {
      NoRecords();
      var earlier := CarryOutAll(texts, after, requests[..|requests| - 1], files);
      match requests[|requests| - 1]
      case DeleteFile =>
      case SaveRows(now) => SavedTells(texts, after.scope.value, Records(after.entries), now, earlier);
    }
  }

  lemma NoRecords()
    ensures Records(map[]) == map[]
  {}

  lemma BoundTells(texts: Texts, ledger: Ledger, files: Files, scope: Scope, since: real)
    requires texts.blank("")
    ensures var (files', after, requests) := Bound(texts, ledger, files, scope, since);
            Told(texts, Through(after, CarryOutAll(texts, after, requests, files')))
  {
    hide Save, Records, Read, Restored, RowsListed;
    if Names(scope) {
      var at := texts.file(scope);
      var now := ledger.utcNow;
      NothingRestored(now, since);
      if at in files && Read(texts, scope, files[at], now).Rows? {
        var rows := Read(texts, scope, files[at], now).rows;
        ReadTells(texts, scope, files, now);
        RestoredRecords(texts, rows, now, since);
        var after := Ledger(Restored(rows, now, since), Some(scope), now, Some(now));
        OneRequest(texts, after, Nothing, [SaveRows(now)], files);
        SavedTells(texts, scope, rows, now, files);
      }
    }
  }

  lemma NothingRestored(utcNow: int, since: real)
    ensures Records(Restored(map[], utcNow, since)) == map[]
  {}

  /** Whatever the files were, the one bound always tells exactly the table's
      durable timers. */
  lemma {:induction false} FileTellsTheTable(texts: Texts, files: Files, ops: seq<Operation>)
    requires texts.blank("")
    ensures Told(texts, RunThrough(texts, files, ops))
  {
    if ops != [] {
      var s, op := RunThrough(texts, files, ops[..|ops| - 1]), ops[|ops| - 1];
      FileTellsTheTable(texts, files, ops[..|ops| - 1]);
      hide Effect, Bound, Records, Told, AsksEnough, CarryOutAll, ScopeOf, RunThrough;
      match op
      case Flush =>
      case Reset => UnboundTells(texts, StepThrough(texts, s, op));
      case Bind(server, character, since) => BoundTells(texts, s.ledger, s.files, ScopeOf(texts, server, character), since);
      case _ =>
        EffectAsksEnough(texts, s.ledger, op);
        EffectTells(texts, s.ledger, Effect(texts, s.ledger, op).0, Effect(texts, s.ledger, op).1, s.files);
      LastStep(texts, files, ops);
    } else {
      UnboundTells(texts, Through(FRESH, files));
    }
  }

  lemma UnboundTells(texts: Texts, s: Through)
    requires s.ledger.scope.None?
    ensures Told(texts, s)
  {}

  lemma LastStep(texts: Texts, files: Files, ops: seq<Operation>)
    requires ops != []
    ensures RunThrough(texts, files, ops) == StepThrough(texts, RunThrough(texts, files, ops[..|ops| - 1]), ops[|ops| - 1])
  {}

  /** So after any orderly run and a flush, the stored file does too. */
  lemma FlushedFileTellsTheTable(texts: Texts, files: Files, ops: seq<Operation>)
    requires texts.blank("") && Orderly(texts, files, ops)
    ensures var s := StepBehind(texts, RunBehind(texts, files, ops), Flush);
            s.ledger.scope.Some? ==> RowsIn(s.files, texts.file(s.ledger.scope.value)) == Records(s.ledger.entries)
  {
    hide RunBehind, RunThrough, RowsIn, Records, Flushed;
    WriteBehindRefinesWriteThrough(texts, files, ops);
    FileTellsTheTable(texts, files, ops);
  }

  /** Which are the timers of items that can be told again, each with all that
      is kept of it. */
  lemma FlushedRowsAre(texts: Texts, files: Files, ops: seq<Operation>, key: Key)
    requires texts.blank("") && Orderly(texts, files, ops)
    ensures var s := StepBehind(texts, RunBehind(texts, files, ops), Flush);
            s.ledger.scope.Some? ==>
              var rows, table := RowsIn(s.files, texts.file(s.ledger.scope.value)), s.ledger.entries;
              && (key in rows <==> key in table && table[key].weenie != 0 && table[key].name != "")
              && (key in rows ==> rows[key].quality == table[key].quality && rows[key].weenie == table[key].weenie && rows[key].name == table[key].name
                                  && rows[key].recorded == table[key].recorded && rows[key].expires == table[key].expires)
  {
    FlushedFileTellsTheTable(texts, files, ops);
    hide RunBehind, RowsIn, Flushed, Orderly;
  }

  // ----- forcing and cancelling -----

  predicate ForcesOrCancels(op: Operation) { op.ForceAll? || op.CancelForce? }

  /** The run with no force and no cancel in it. */
  function Unforced(ops: seq<Operation>): seq<Operation> {
    if ops == [] then []
    else Unforced(ops[..|ops| - 1]) + if ForcesOrCancels(ops[|ops| - 1]) then [] else [ops[|ops| - 1]]
  }

  /** The due stamps have no say in what an operation does but to themselves. */
  lemma CancelCommutes(texts: Texts, ledger: Ledger, op: Operation)
    requires !ForcesOrCancels(op)
    ensures Effect(texts, Cancelled(ledger), op) == (Cancelled(Effect(texts, ledger, op).0), Effect(texts, ledger, op).1)
  {
    match op
    case NoteCast(item, family, spell, quality, duration, now) =>
      if duration.Some? && duration.value > 0.0 && now.Some? {
        NotedCommutes(texts, ledger, Key(item.id, family, spell), item, quality, duration.value, now.value);
      }
    case RemainingOf(item) =>
      assert MatchesIdentity(texts, Cancelled(ledger), item) <==> MatchesIdentity(texts, ledger, item);
      DroppedCommutes(ledger, OfItem(ledger, item.id));
      assert OfItem(Cancelled(ledger), item.id) == OfItem(ledger, item.id);
    case Expire(before) => ExpiredCommutes(ledger, before);
    case InvalidateItem(id) =>
      DroppedCommutes(ledger, OfItem(ledger, id));
      assert OfItem(Cancelled(ledger), id) == OfItem(ledger, id);
    case Invalidate(id, family) =>
      DroppedCommutes(ledger, OfFamily(ledger, id, family));
      assert OfFamily(Cancelled(ledger), id, family) == OfFamily(ledger, id, family);
    case _ =>
  }

  lemma ObservedCommutes(ledger: Ledger)
    ensures Observed(Cancelled(ledger)) == (Cancelled(Observed(ledger).0), Observed(ledger).1)
  {}

  lemma NotedCommutes(texts: Texts, ledger: Ledger, key: Key, item: Item, quality: int, duration: real, now: real)
    ensures var (after, requests) := Noted(texts, ledger, key, item, quality, duration, now);
            Noted(texts, Cancelled(ledger), key, item, quality, duration, now) == (Cancelled(after), requests)
  {
    ObservedCommutes(ledger);
    hide Observed, RoundAway;
    var seen := Observed(ledger).0;
    var present := Present(texts, seen.entries, key, item);
    assert Present(texts, Cancelled(seen).entries, key, item)
        == if present.None? then None else Some(present.value.(a := present.value.b));
    var after := Noted(texts, ledger, key, item, quality, duration, now).0;
    assert Noted(texts, Cancelled(ledger), key, item, quality, duration, now).0.entries == Cancelled(after).entries;
  }

  lemma DroppedCommutes(ledger: Ledger, gone: set<Key>)
    ensures Dropped(Cancelled(ledger), gone) == (Cancelled(Dropped(ledger, gone).0), Dropped(ledger, gone).1)
  {
    var left := ledger.(entries := ledger.entries - gone);
    assert Cancelled(left).entries == Cancelled(ledger).entries - gone;
    ObservedCommutes(left);
  }

  lemma ExpiredCommutes(ledger: Ledger, before: real)
    ensures Expired(Cancelled(ledger), before) == (Cancelled(Expired(ledger, before).0), Expired(ledger, before).1)
  {
    ObservedCommutes(ledger);
    hide Observed;
    var seen := Observed(ledger).0;
    var gone := set k | k in seen.entries && seen.entries[k].b < before;
    assert gone == set k | k in Cancelled(seen).entries && Cancelled(seen).entries[k].b < before;
    assert Cancelled(seen.(entries := seen.entries - gone)).entries == Cancelled(seen).entries - gone;
  }

  lemma RecordsIgnoreStamps(ledger: Ledger)
    ensures Records(Cancelled(ledger).entries) == Records(ledger.entries)
  {}

  lemma StampsEndCancelled(ledger: Ledger, at: real)
    ensures Cancelled(Forced(ledger, at)) == Cancelled(ledger) && Cancelled(Cancelled(ledger)) == Cancelled(ledger)
  {}

  function CancelledState(s: Behind): Behind { s.(ledger := Cancelled(s.ledger)) }

  lemma StepIgnoresStamps(texts: Texts, s: Behind, op: Operation)
    requires !ForcesOrCancels(op)
    ensures CancelledState(StepBehind(texts, s, op)) == StepBehind(texts, CancelledState(s), op)
  {
    hide Effect, MergeAll, Bound, ScopeOf, Records, Save;
    match op
    case Flush => RecordsIgnoreStamps(s.ledger);
    case Reset => assert Cancelled(s.ledger.(entries := map[])).entries == map[];
    case Bind(server, character, since) =>
      RecordsIgnoreStamps(s.ledger);
      BindIgnoresStamps(texts, s.ledger, Flushed(texts, s.ledger, s.write, s.files), ScopeOf(texts, server, character), since);
    case _ =>
      CancelCommutes(texts, s.ledger, op);
  }

  lemma BindIgnoresStamps(texts: Texts, ledger: Ledger, files: Files, scope: Scope, since: real)
    ensures Bound(texts, Cancelled(ledger), files, scope, since) == Bound(texts, ledger, files, scope, since)
    ensures Cancelled(Bound(texts, ledger, files, scope, since).1) == Bound(texts, ledger, files, scope, since).1
  {
    hide Loaded;
    var rows := Loaded(texts, scope, files, ledger.utcNow).1;
    assert Cancelled(Ledger(map[], None, 0, None)).entries == map[];
    assert Cancelled(Ledger(Restored(rows, ledger.utcNow, since), None, 0, None)).entries == Restored(rows, ledger.utcNow, since);
  }

  /** Ending with a cancel, a run leaves the table, what waits and the files as
      it would without a single force or cancel before. */
  lemma {:induction false} ForcesLeaveNoTrace(texts: Texts, files: Files, ops: seq<Operation>)
    ensures CancelledState(RunBehind(texts, files, ops)) == RunBehind(texts, files, Unforced(ops))
  {
    if ops != [] {
      var n := |ops| - 1;
      var s := RunBehind(texts, files, ops[..n]);
      ForcesLeaveNoTrace(texts, files, ops[..n]);
      match ops[n]
      case ForceAll(at) =>
        StampsEndCancelled(s.ledger, at);
        assert Unforced(ops) == Unforced(ops[..n]);
      case CancelForce =>
        StampsEndCancelled(s.ledger, 0.0);
        assert Unforced(ops) == Unforced(ops[..n]);
      case _ =>
        StepIgnoresStamps(texts, s, ops[n]);
        hide StepBehind;
        assert Unforced(ops)[..|Unforced(ops)| - 1] == Unforced(ops[..n]);
    } else {
      assert Cancelled(FRESH).entries == map[];
    }
  }

  /** A cancel at the end takes back every force before it. */
  lemma CancelTakesForcesBack(texts: Texts, files: Files, ops: seq<Operation>)
    ensures RunBehind(texts, files, ops + [CancelForce]) == RunBehind(texts, files, Unforced(ops))
  {
    ForcesLeaveNoTrace(texts, files, ops);
    hide Cancelled;
    assert (ops + [CancelForce])[..|ops|] == ops;
  }

  // ----- what each operation does to the table -----

  /** The clock has not gone back since it was last looked at. */
  predicate Onward(ledger: Ledger) { ledger.last.None? || ledger.last.value <= ledger.utcNow }

  /** The timers after one more operation. */
  function TableAfter(texts: Texts, s: Behind, op: Operation): map<Key, Entry> { StepBehind(texts, s, op).ledger.entries }

  /** A look at a clock gone back forgets every timer but the one of a cast
      just noted. */
  lemma ClockBackForgetsAll(texts: Texts, s: Behind, before: real, item: Item, family: nat, spell: nat, quality: int, duration: real, now: real)
    requires !Onward(s.ledger)
    ensures TableAfter(texts, s, Expire(before)) == map[]
    ensures forall k :: k in TableAfter(texts, s, NoteCast(item, family, spell, quality, Some(duration), Some(now))) && duration > 0.0 ==>
              k == Key(item.id, family, spell)
  {
    hide MergeAll, RoundAway;
  }

  /** Expiry keeps just the timers not yet past, as they are. */
  lemma ExpireKeepsWhatRuns(texts: Texts, s: Behind, before: real, key: Key)
    requires Onward(s.ledger)
    ensures var old_, new_ := s.ledger.entries, TableAfter(texts, s, Expire(before));
            && (key in new_ <==> key in old_ && before <= old_[key].b)
            && (key in new_ ==> new_[key] == old_[key])
  {}

  /** The entry under a key is not that of another item under the same id. */
  predicate SameItem(texts: Texts, entry: Entry, item: Item) {
    item.weenie == 0 || entry.weenie == 0 || (item.weenie == entry.weenie && texts.same(entry.name, item.name))
  }

  /** A tracked cast lets its timer run to the later of its own end and the end
      it had; a timer that is not later is written anew, and a later one kept
      but for the identity it may lack.  No other timer changes. */
  lemma CastRunsToTheLater(texts: Texts, s: Behind, item: Item, family: nat, spell: nat, quality: int, duration: real, now: real, other: Key)
    requires Onward(s.ledger) && duration > 0.0 && s.ledger.utcNow as real + duration * 1000.0 <= LAST_MOMENT as real
    ensures var key := Key(item.id, family, spell);
            var old_, new_ := s.ledger.entries, TableAfter(texts, s, NoteCast(item, family, spell, quality, Some(duration), Some(now)));
            && key in new_
            && (if key in old_ && SameItem(texts, old_[key], item) && now + duration <= old_[key].b
                then new_[key] == old_[key].(weenie := new_[key].weenie, name := new_[key].name) && AsIdentified(texts, old_[key], new_[key], item)
                else NewTimer(new_[key], now + duration, quality, item.weenie, texts.trim(item.name), s.ledger.utcNow, duration))
            && (other != key ==> (other in new_ <==> other in old_) && (other in new_ ==> new_[other] == old_[other]))
  {
    hide MergeAll;
    RoundAwayIsNear(s.ledger.utcNow as real + duration * 1000.0);
    hide RoundAway;
  }

  /** An entry without an identity takes that of an item that has one and a
      name; any other keeps its own. */
  predicate AsIdentified(texts: Texts, before: Entry, after: Entry, item: Item) {
    if before.weenie == 0 && item.weenie != 0 && !texts.blank(item.name) then after.weenie == item.weenie && after.name == texts.trim(item.name)
    else after.weenie == before.weenie && after.name == before.name
  }

  /** A timer that ends so, on the macro's clock and, to the millisecond, on the
      wall's. */
  predicate NewTimer(entry: Entry, end: real, quality: int, weenie: nat, name: string, utcNow: int, duration: real) {
    && entry.a == entry.b == end && entry.quality == quality && entry.weenie == weenie && entry.name == name && entry.recorded == utcNow
    && -0.5 <= entry.expires as real - (utcNow as real + duration * 1000.0) <= 0.5
  }

  lemma RoundAwayIsNear(x: real)
    ensures -0.5 <= RoundAway(x) as real - x <= 0.5 && RoundAway(-x) == -RoundAway(x)
  {}

  /** A cast with no time to it, or past the calendar, changes no timer. */
  lemma UntrackedCastChangesNothing(texts: Texts, s: Behind, item: Item, family: nat, spell: nat, quality: int, duration: Option<real>, now: Option<real>)
    requires Onward(s.ledger)
    requires duration.None? || now.None? || duration.value <= 0.0 || s.ledger.utcNow as real + duration.value * 1000.0 > LAST_MOMENT as real
    ensures TableAfter(texts, s, NoteCast(item, family, spell, quality, duration, now)) == s.ledger.entries
  {
    hide MergeAll, Settled;
  }

  /** An invalidation takes just the timers of the item, or of the one family
      on it; the id and family that stand for none take nothing. */
  lemma InvalidationsTakeTheirOwn(texts: Texts, s: Behind, id: nat, family: nat, key: Key)
    requires Onward(s.ledger)
    ensures var old_, new_ := s.ledger.entries, TableAfter(texts, s, InvalidateItem(id));
            && (key in new_ <==> key in old_ && (id == 0 || key.item != id)) && (key in new_ ==> new_[key] == old_[key])
    ensures var old_, new_ := s.ledger.entries, TableAfter(texts, s, Invalidate(id, family));
            && (key in new_ <==> key in old_ && (id == 0 || family == 0 || key.item != id || key.family != family))
            && (key in new_ ==> new_[key] == old_[key])
  {
    hide MergeAll, Dropped;
    DroppedLeavesTheRest(s.ledger, OfItem(s.ledger, id), key);
    DroppedLeavesTheRest(s.ledger, OfFamily(s.ledger, id, family), key);
  }

  lemma DroppedLeavesTheRest(ledger: Ledger, gone: set<Key>, key: Key)
    requires Onward(ledger)
    ensures var after := Dropped(ledger, gone).0.entries;
            (key in after <==> key in ledger.entries && key !in gone) && (key in after ==> after[key] == ledger.entries[key])
  {}

  /** A question about an item forgets the id's timers exactly when one of them
      was kept for another item. */
  lemma AskingForgetsAnothersTimers(texts: Texts, s: Behind, item: Item, key: Key)
    requires Onward(s.ledger)
    ensures var old_, new_ := s.ledger.entries, TableAfter(texts, s, RemainingOf(item));
            && (key in new_ <==> key in old_ && !(item.id != 0 && key.item == item.id && exists k :: Anothers(texts, old_, k, item)))
            && (key in new_ ==> new_[key] == old_[key])
  {
    var old_ := s.ledger.entries;
    if exists k :: Anothers(texts, old_, k, item) {
      assert !MatchesIdentity(texts, s.ledger, item);
    } else {
      forall k | k in old_ && k.item == item.id
        ensures (old_[k].weenie == 0 && old_[k].name == "") || (old_[k].weenie == item.weenie && texts.same(old_[k].name, texts.trim(item.name)))
      {
        assert !Anothers(texts, old_, k, item);
      }
    }
    hide MergeAll, MatchesIdentity, Dropped;
    DroppedLeavesTheRest(s.ledger, OfItem(s.ledger, item.id), key);
  }

  /** A timer kept under the item's id, with an identity that is not the item's. */
  predicate Anothers(texts: Texts, entries: map<Key, Entry>, key: Key, item: Item) {
    && key in entries && key.item == item.id && (entries[key].weenie != 0 || entries[key].name != "")
    && (entries[key].weenie != item.weenie || !texts.same(entries[key].name, texts.trim(item.name)))
  }

  /** A force has every timer due at the moment it names, a cancel at its real
      end; neither touches when it ends or what is kept of it. */
  lemma ForceAndCancelMoveTheDue(texts: Texts, s: Behind, at: real, key: Key)
    ensures var old_, forced, cancelled := s.ledger.entries, TableAfter(texts, s, ForceAll(at)), TableAfter(texts, s, CancelForce);
            && (key in forced <==> key in old_) && (key in cancelled <==> key in old_)
            && (key in old_ ==> forced[key].a == at && forced[key].(a := old_[key].a) == old_[key])
            && (key in old_ ==> cancelled[key].a == old_[key].b && cancelled[key].(a := old_[key].a) == old_[key])
  {
    hide MergeAll;
    assert TableAfter(texts, s, ForceAll(at)) == Forced(s.ledger, at).entries;
    assert TableAfter(texts, s, CancelForce) == Cancelled(s.ledger).entries;
  }

  /** A row the file has under a key. */
  ghost predicate Stored(file: File, key: Key, row: Row) {
    if file.Saved? then key in file.rows && file.rows[key] == row
    else file.Found? && exists i :: 0 <= i < |file.listed| && file.listed[i] == (key, row)
  }

  /** A file that can be believed: of this scope, and neither written nor with a
      row seen after now, or at no moment. */
  ghost predicate Trusted(texts: Texts, scope: Scope, file: File, now: int) {
    && !file.Unreadable? && texts.same(scope.server, file.scope.server) && texts.same(scope.character, file.scope.character)
    && FIRST_MOMENT <= file.savedAt <= now && file.savedAt <= LAST_MOMENT
    && forall key, row :: Stored(file, key, row) ==>
         FIRST_MOMENT <= row.recorded <= now && row.recorded <= LAST_MOMENT && FIRST_MOMENT <= row.expires <= LAST_MOMENT
  }

  /** A row all there, of a timer not past. */
  predicate Whole(texts: Texts, key: Key, row: Row, now: int) {
    && key.item > 0 && key.family > 0 && key.spell > 0 && row.weenie > 0 && !texts.blank(row.name)
    && row.recorded < row.expires && now < row.expires
  }

  /** The rows read are the longest whole one of each key. */
  ghost predicate Longest(texts: Texts, file: File, rows: map<Key, Row>, now: int) {
    && (forall key :: key in rows ==> Stored(file, key, rows[key]) && Whole(texts, key, rows[key], now))
    && (forall key, row :: Stored(file, key, row) && Whole(texts, key, row, now) ==> key in rows && row.expires <= rows[key].expires)
  }

  lemma {:induction false} ListReadsLongest(texts: Texts, of: Scope, savedAt: int, listed: seq<(Key, Row)>, now: int)
    ensures ReadListed(texts, listed, now).Refused? <==> exists i :: 0 <= i < |listed| && Refuses(listed[i].1, now)
    ensures ReadListed(texts, listed, now).Rows? ==> Longest(texts, Found(of, savedAt, listed), ReadListed(texts, listed, now).rows, now)
  {
    hide Refuses;
    if listed != [] {
      var n := |listed| - 1;
      var init := listed[..n];
      ListReadsLongest(texts, of, savedAt, init, now);
      if i :| 0 <= i < n && Refuses(init[i].1, now) { assert Refuses(listed[i].1, now); }
      assert forall i :: 0 <= i < n ==> init[i] == listed[i];
      if ReadListed(texts, listed, now).Rows? { OneMoreRow(texts, of, savedAt, listed, now); }
    }
  }

  lemma OneMoreRow(texts: Texts, of: Scope, savedAt: int, listed: seq<(Key, Row)>, now: int)
    requires listed != [] && ReadListed(texts, listed, now).Rows?
    requires ReadListed(texts, listed[..|listed| - 1], now).Rows? &&
             Longest(texts, Found(of, savedAt, listed[..|listed| - 1]), ReadListed(texts, listed[..|listed| - 1], now).rows, now)
    ensures Longest(texts, Found(of, savedAt, listed), ReadListed(texts, listed, now).rows, now)
  {
    hide Longest, Stored, Refuses, Runs;
    var n := |listed| - 1;
    var shorter, longer := Found(of, savedAt, listed[..n]), Found(of, savedAt, listed);
    var (last, row) := listed[n];
    forall key, row_ ensures Stored(longer, key, row_) <==> Stored(shorter, key, row_) || (last, row) == (key, row_) {
      OneMoreStored(of, savedAt, listed, key, row_);
    }
    RunsWhole(texts, last, row, now);
    LongestGrows(texts, shorter, longer, ReadListed(texts, listed[..n], now).rows, last, row, now);
  }

  lemma LongestGrows(texts: Texts, shorter: File, longer: File, rows: map<Key, Row>, last: Key, row: Row, now: int)
    requires Longest(texts, shorter, rows, now)
    requires forall k, r :: Stored(longer, k, r) <==> Stored(shorter, k, r) || (last, row) == (k, r)
    ensures if !Whole(texts, last, row, now) || (last in rows && rows[last].expires >= row.expires) then Longest(texts, longer, rows, now)
            else Longest(texts, longer, rows[last := row], now)
  {
    hide Stored, Whole;
  }

  lemma RunsWhole(texts: Texts, key: Key, row: Row, now: int)
    ensures Runs(texts, key, row, now) <==> Whole(texts, key, row, now)
  {}

  lemma OneMoreStored(of: Scope, savedAt: int, listed: seq<(Key, Row)>, key: Key, row: Row)
    requires listed != []
    ensures Stored(Found(of, savedAt, listed), key, row) <==> Stored(Found(of, savedAt, listed[..|listed| - 1]), key, row) || listed[|listed| - 1] == (key, row)
  {
    var n := |listed| - 1;
    if i :| 0 <= i < n && listed[..n][i] == (key, row) { assert listed[i] == (key, row); }
    if i :| 0 <= i <= n && listed[i] == (key, row) { assert i < n ==> listed[..n][i] == (key, row); }
  }

  /** A file that can be believed is read, the longest whole row of each key;
      any other is refused. */
  lemma FileReadsLongest(texts: Texts, scope: Scope, file: File, now: int)
    ensures Read(texts, scope, file, now).Rows? <==> Trusted(texts, scope, file, now)
    ensures Trusted(texts, scope, file, now) ==> Longest(texts, file, Read(texts, scope, file, now).rows, now)
  {
    match file
    case Unreadable =>
    case Saved(of, savedAt, rows) =>
      forall k, row | k in rows ensures Runs(texts, k, row, now) <==> Whole(texts, k, row, now) { RunsWhole(texts, k, row, now); }
      if k :| k in rows && Refuses(rows[k], now) { assert Stored(file, k, rows[k]); }
      hide Whole, Runs;
    case Found(of, savedAt, listed) =>
      ListReadsLongest(texts, of, savedAt, listed, now);
      if i :| 0 <= i < |listed| && Refuses(listed[i].1, now) { assert Stored(file, listed[i].0, listed[i].1); }
      hide ReadListed, Longest;
  }

  /** A bind restores, of a file that can be believed, the longest whole row of
      each key, due and ending as long after this moment as the row says; of any
      other, or none, nothing. */
  lemma BindRestoresTheTimeLeft(texts: Texts, s: Behind, server: Option<string>, character: Option<string>, since: real, key: Key)
    requires Names(ScopeOf(texts, server, character))
    ensures var scope := ScopeOf(texts, server, character);
            var files := StepBehind(texts, s, Flush).files;
            var after := TableAfter(texts, s, Bind(server, character, since));
            var at := texts.file(scope);
            if at in files && Trusted(texts, scope, files[at], s.ledger.utcNow) then
              && (key in after <==> exists row :: Stored(files[at], key, row) && Whole(texts, key, row, s.ledger.utcNow))
              && (key in after ==>
                    && Stored(files[at], key, RowOf(after[key])) && Whole(texts, key, RowOf(after[key]), s.ledger.utcNow)
                    && (forall row :: Stored(files[at], key, row) && Whole(texts, key, row, s.ledger.utcNow) ==> row.expires <= after[key].expires)
                    && after[key].a == after[key].b && 1000.0 * (after[key].b - since) == (after[key].expires - s.ledger.utcNow) as real)
            else after == map[]
  {
    hide MergeAll, Flushed, Trusted, Stored, Read;
    var scope := ScopeOf(texts, server, character);
    var files := StepBehind(texts, s, Flush).files;
    var at := texts.file(scope);
    if at in files {
      FileReadsLongest(texts, scope, files[at], s.ledger.utcNow);
      if Trusted(texts, scope, files[at], s.ledger.utcNow) {
        RestoredIsLongest(texts, files[at], Read(texts, scope, files[at], s.ledger.utcNow).rows, s.ledger.utcNow, since, key);
      }
    } else {
      NothingRestored(s.ledger.utcNow, since);
    }
    NothingRestored(s.ledger.utcNow, since);
    hide ScopeOf, Names, Restored;
  }

  lemma RestoredIsLongest(texts: Texts, file: File, rows: map<Key, Row>, now: int, since: real, key: Key)
    requires Longest(texts, file, rows, now)
    ensures var after := Restored(rows, now, since);
            && (key in after <==> exists row :: Stored(file, key, row) && Whole(texts, key, row, now))
            && (key in after ==>
                  && Stored(file, key, RowOf(after[key])) && Whole(texts, key, RowOf(after[key]), now)
                  && (forall row :: Stored(file, key, row) && Whole(texts, key, row, now) ==> row.expires <= after[key].expires)
                  && after[key].a == after[key].b && 1000.0 * (after[key].b - since) == (after[key].expires - now) as real)
  {
    hide Stored;
    if key in rows { assert Stored(file, key, rows[key]) && Whole(texts, key, rows[key], now); }
  }

  /** A bind to no one, and a teardown, leave no timer. */
  lemma NoOneHasNoTimers(texts: Texts, s: Behind, server: Option<string>, character: Option<string>, since: real)
    requires !Names(ScopeOf(texts, server, character))
    ensures TableAfter(texts, s, Bind(server, character, since)) == map[] && TableAfter(texts, s, Reset) == map[]
    ensures TableAfter(texts, s, Flush) == s.ledger.entries
  {
    hide Flushed;
  }

  // ----- the ledger itself -----

  class Storage {
    var files: Files

    constructor () { files := map[]; }

    method Load(texts: Texts, scope: Scope, now: int) returns (rows: map<Key, Row>, rewrite: bool)
      modifies this
      ensures (files, rows, rewrite) == Loaded(texts, scope, old(files), now)
    {
      var loaded := Loaded(texts, scope, files, now);
      files, rows, rewrite := loaded.0, loaded.1, loaded.2;
    }

    method SaveRows(texts: Texts, scope: Scope, rows: map<Key, Row>, now: int)
      modifies this
      ensures files == Save(texts, scope, rows, now, old(files))
    {
      if rows == map[] {
        files := files - {texts.file(scope)};
        return;
      }
      files := files[texts.file(scope) := Saved(scope, now, rows)];
    }

    method Delete(texts: Texts, scope: Scope)
      modifies this
      ensures files == old(files) - {texts.file(scope)}
    {
      files := files - {texts.file(scope)};
    }
  }

  /** The most any timer of the family on the object, at the quality or better,
      has till it is due; nothing for none, or for those past. */
  ghost predicate LongestLeft(entries: map<Key, Entry>, id: nat, family: nat, quality: int, now: real, longest: real) {
    && longest >= 0.0
    && (forall k :: k in entries && k.item == id && k.family == family && entries[k].quality >= quality ==> entries[k].a - now <= longest)
    && (longest == 0.0 || exists k :: k in entries && k.item == id && k.family == family && entries[k].quality >= quality && entries[k].a - now == longest)
  }

  class ItemEnchantLedger {
    const texts: Texts
    var entries: map<Key, Entry>
    var scope: Option<Scope>
    var utcNow: int
    var last: Option<int>
    var write: Pending

    function Core(): Ledger reads this { Ledger(entries, scope, utcNow, last) }

    function Now(storage: Storage): Behind reads this, storage { Behind(Core(), write, storage.files) }

    /** What an operation away from the storage comes to. */
    twostate predicate Did(op: Operation) reads this {
      && Core() == Effect(texts, old(Core()), op).0
      && write == MergeAll(scope.Some?, old(write), Effect(texts, old(Core()), op).1)
    }

    constructor (texts: Texts)
      ensures this.texts == texts && Core() == FRESH && write == Nothing
    {
      this.texts := texts;
      entries, scope, utcNow, last, write := map[], None, 0, None, Nothing;
    }

    method SetUtcNow(moment: int)
      modifies this`utcNow
      ensures Did(SetClock(moment))
    {
      utcNow := moment;
    }

    method RequestDelete()
      modifies this`write
      ensures write == Merge(scope.Some?, old(write), DeleteFile)
    {
      if scope.Some? { write := Delete; }
    }

    method Persist(now: int)
      modifies this`write
      ensures write == Merge(scope.Some?, old(write), SaveRows(now))
    {
      if scope.None? { return; }
      write := match write
        case Delete => DeleteThenSave(now)
        case DeleteThenSave(_) => DeleteThenSave(now)
        case _ => SaveAt(now);
    }

    method ObserveUtcNow() returns (now: int)
      modifies this`entries, this`last, this`write
      ensures now == utcNow && Core() == Observed(old(Core())).0
      ensures write == MergeAll(scope.Some?, old(write), Observed(old(Core())).1)
    {
      now := utcNow;
      if last.Some? && now < last.value {
        entries := map[];
        RequestDelete();
      }
      last := Some(now);
      assert [DeleteFile][..0] == [];
    }

    method RemoveWhere(gone: set<Key>)
      requires gone <= entries.Keys
      modifies this`entries, this`last, this`write
      ensures Core() == Dropped(old(Core()), gone).0
      ensures write == MergeAll(scope.Some?, old(write), Dropped(old(Core()), gone).1)
    {
      var changed := gone != {};
      entries := entries - gone;
      if changed {
        ghost var before, waited := Core(), write;
        var now := ObserveUtcNow();
        MergeOneMore(scope.Some?, waited, Observed(before).1, SaveRows(now));
        Persist(now);
      }
    }

    /** Settles a cast in the table; whether that changed it. */
    method Settle(key: Key, item: Item, quality: int, expiry: real, moment: int, expires: int) returns (changed: bool)
      modifies this`entries
      ensures (entries, changed) == Settled(texts, old(entries), key, item, quality, expiry, moment, expires)
    {
      var hasEntry := key in entries;
      if hasEntry && item.weenie != 0 && entries[key].weenie != 0
         && (entries[key].weenie != item.weenie || !texts.same(entries[key].name, item.name)) {
        entries := entries - {key};
        hasEntry := false;
      }
      var enriched := hasEntry && item.weenie != 0 && entries[key].weenie == 0 && !texts.blank(item.name);
      if enriched {
        entries := entries[key := entries[key].(weenie := item.weenie, name := texts.trim(item.name))];
      }
      changed := enriched;
      if !hasEntry || entries[key].b < expiry {
        entries := entries[key := Entry(expiry, expiry, quality, item.weenie, texts.trim(item.name), moment, expires)];
        changed := true;
      }
      assert entries == Settled(texts, old(entries), key, item, quality, expiry, moment, expires).0;
    }

    method NoteCast(item: Item, family: nat, spell: nat, quality: int, duration: Option<real>, now: Option<real>)
      modifies this`entries, this`last, this`write
      ensures Did(Operation.NoteCast(item, family, spell, quality, duration, now))
    {
      if duration.None? || duration.value <= 0.0 || now.None? { return; }
      hide Observed, Merge, MergeAll, Dropped, Expired, MatchesIdentity, Forced, Cancelled, RoundAway, Settled;
      ghost var waited := write;
      ghost var (seen, requests) := Observed(Core());
      var moment := ObserveUtcNow();
      var expiry := now.value + duration.value;
      var expiresAt := moment as real + duration.value * 1000.0;
      if expiresAt > LAST_MOMENT as real { return; }
      var changed := Settle(Key(item.id, family, spell), item, quality, expiry, moment, RoundAway(expiresAt));
      if changed {
        MergeOneMore(scope.Some?, waited, requests, SaveRows(moment));
        Persist(moment);
      } else {
        SettlesNothing(texts, seen.entries, Key(item.id, family, spell), item, quality, expiry, moment, RoundAway(expiresAt));
      }
    }

    /** A maximum over the matching entries, at least zero; zero for none. */
    method RemainingSeconds(id: nat, family: nat, quality: int, now: real) returns (longest: real)
      ensures LongestLeft(entries, id, family, quality, now, longest)
    {
      longest := 0.0;
      var left := entries.Keys;
      while left != {}
        invariant left <= entries.Keys && longest >= 0.0
        invariant forall k :: k in entries && k !in left && k.item == id && k.family == family && entries[k].quality >= quality ==> entries[k].a - now <= longest
        invariant longest == 0.0 || exists k :: k in entries && k.item == id && k.family == family && entries[k].quality >= quality && entries[k].a - now == longest
        decreases left
      {
        var k :| k in left;
        left := left - {k};
        if k.item != id || k.family != family || entries[k].quality < quality { continue; }
        var remaining := entries[k].a - now;
        if remaining > longest { longest := remaining; }
      }
    }

    /** Zero, after forgetting the id's timers, when they were another item's. */
    method RemainingItemSeconds(item: Item, family: nat, quality: int, now: real) returns (longest: real)
      modifies this`entries, this`last, this`write
      ensures Did(RemainingOf(item)) && longest >= 0.0
      ensures if MatchesIdentity(texts, old(Core()), item) then LongestLeft(old(entries), item.id, family, quality, now, longest) else longest == 0.0
    {
      if !MatchesIdentity(texts, Core(), item) {
        InvalidateItem(item.id);
        return 0.0;
      }
      longest := RemainingSeconds(item.id, family, quality, now);
    }

    method ForceAll(now: real)
      modifies this`entries
      ensures Did(Operation.ForceAll(now))
    {
      entries := map k | k in entries :: entries[k].(a := now);
    }

    method CancelForce()
      modifies this`entries
      ensures Did(Operation.CancelForce)
    {
      entries := map k | k in entries :: entries[k].(a := entries[k].b);
    }

    method Expire(now: real)
      modifies this`entries, this`last, this`write
      ensures Did(Operation.Expire(now))
    {
      ghost var waited := write;
      ghost var (seen, requests) := Observed(Core());
      var moment := ObserveUtcNow();
      var gone := set k | k in entries && entries[k].b < now;
      assert gone == set k | k in seen.entries && seen.entries[k].b < now;
      var changed := gone != {};
      entries := entries - gone;
      if changed {
        MergeOneMore(scope.Some?, waited, requests, SaveRows(moment));
        Persist(moment);
      }
    }

    method InvalidateItem(id: nat)
      modifies this`entries, this`last, this`write
      ensures Did(Operation.InvalidateItem(id))
    {
      if id == 0 { return; }
      RemoveWhere(set k | k in entries && k.item == id);
    }

    method Invalidate(id: nat, family: nat)
      modifies this`entries, this`last, this`write
      ensures Did(Operation.Invalidate(id, family))
    {
      if id == 0 || family == 0 { return; }
      RemoveWhere(set k | k in entries && k.item == id && k.family == family);
    }

    /** Writes what changed, while the storage is at hand. */
    method Flush(storage: Storage)
      modifies this`write, storage
      ensures Now(storage) == StepBehind(texts, old(Now(storage)), Operation.Flush)
    {
      var waiting := write;
      write := Nothing;
      if waiting == Nothing || scope.None? { return; }
      match waiting
      case Delete => storage.Delete(texts, scope.value);
      case SaveAt(moment) => storage.SaveRows(texts, scope.value, Records(entries), moment);
      case DeleteThenSave(moment) =>
        storage.Delete(texts, scope.value);
        storage.SaveRows(texts, scope.value, Records(entries), moment);
      case Nothing =>
    }

    /** Chooses whose timers are kept, and restores those still running. */
    method BindPersistence(storage: Storage, server: Option<string>, character: Option<string>, since: real)
      modifies this, storage
      ensures Now(storage) == StepBehind(texts, old(Now(storage)), Bind(server, character, since))
    {
      hide Records, Loaded, Save;
      Flush(storage);
      ghost var files := storage.files;
      assert Core() == old(Core()) && files == Flushed(texts, Core(), old(write), old(storage.files));
      entries := map[];
      write := Nothing;
      var whose := ScopeOf(texts, server, character);
      if !Names(whose) {
        scope := None;
        return;
      }
      last := Some(utcNow);
      var rows, rewrite := storage.Load(texts, whose, utcNow);
      scope := Some(whose);
      entries := Restored(rows, utcNow, since);
      if rewrite {
        Persist(utcNow);
        assert [Request.SaveRows(utcNow)][..0] == [];
      }
      assert Bound(texts, old(Core()), files, whose, since) == (storage.files, Core(), if rewrite then [Request.SaveRows(utcNow)] else []);
      assert write == MergeAll(true, Nothing, if rewrite then [Request.SaveRows(utcNow)] else []);
    }

    /** Session teardown. */
    method Reset(storage: Storage)
      modifies this
      ensures Now(storage) == StepBehind(texts, old(Now(storage)), Operation.Reset)
    {
      entries := map[];
      scope := None;
      last := None;
      write := Nothing;
    }
  }

  lemma SettlesNothing(texts: Texts, entries: map<Key, Entry>, key: Key, item: Item, quality: int, expiry: real, moment: int, expires: int)
    ensures var (after, changed) := Settled(texts, entries, key, item, quality, expiry, moment, expires); !changed ==> after == entries
  {}

  lemma MergeOneMore(bound: bool, write: Pending, requests: seq<Request>, request: Request)
    ensures MergeAll(bound, write, requests + [request]) == Merge(bound, MergeAll(bound, write, requests), request)
  {
    assert (requests + [request])[..|requests|] == requests;
  }
}
