/** The JSON shape values are saved in: how one is stored, how it is rebuilt,
    and why storing what a run of the functions built always ends. */
module SavedValues {
  import opened CollectionHeap
  import D = Dictionaries

  datatype Option<+T> = None | Some(value: T)

  datatype Result<+T> = Ok(value: T) | Damaged(damage: Damage)

  datatype Damage = NoKind | NotAnObject | NotANumber | NoText | IdOutOfRange

  const U32_MAX := 0xffff_ffff

  /** A value with everything inside it; a dictionary lists its members as it
      enumerates them. */
  datatype Tree =
    | Num(number: Number)
    | Truth(truth: bool)
    | Str(text: string)
    | Sequence(items: seq<Tree>)
    | Record(members: seq<Member>)
    | Position(eastWest: Number, northSouth: Number, elevation: Number)
    | Object(id: ObjectId)
    | Timer
    | Control

  datatype Member = Member(key: string, tree: Tree)

  datatype Json =
    | JsonNull
    | JsonTruth(truth: bool)
    | JsonNumber(number: Number)
    | JsonString(text: string)
    | JsonArray(items: seq<Json>)
    | JsonObject(members: seq<Property>)

  datatype Property = Property(name: string, json: Json)

  // ----- storing -----

  const PROPERTIES: seq<string> := ["Kind", "Number", "Text", "List", "Dictionary", "Coordinates"]

  function Shape(kind: string, number: Number, text: string, list: Json, dictionary: Json, coordinates: Json): Json {
    JsonObject([Property(PROPERTIES[0], JsonString(kind)), Property(PROPERTIES[1], JsonNumber(number)),
                Property(PROPERTIES[2], JsonString(text)), Property(PROPERTIES[3], list),
                Property(PROPERTIES[4], dictionary), Property(PROPERTIES[5], coordinates)])
  }

  const ZERO: Number := Finite(0.0)

  function Plain(kind: string, number: Number, text: string): Json { Shape(kind, number, text, JsonNull, JsonNull, JsonNull) }

  function Stored(tree: Tree): Option<Json> {
    match tree
    case Num(number) => Some(Plain("number", number, ""))
    case Truth(truth) => Some(Plain("boolean", if truth then Finite(1.0) else ZERO, ""))
    case Str(text) => Some(Plain("string", ZERO, text))
    case Sequence(items) =>
      (match StoredItems(items)
       case None => None
       case Some(list) => Some(Shape("list", ZERO, "", JsonArray(list), JsonNull, JsonNull)))
    case Record(members) =>
      (match StoredMembers(members)
       case None => None
       case Some(record) => Some(Shape("dictionary", ZERO, "", JsonNull, JsonObject(record), JsonNull)))
    case Position(eastWest, northSouth, elevation) =>
      Some(Shape("coordinates", ZERO, "", JsonNull, JsonNull,
                 JsonArray([JsonNumber(eastWest), JsonNumber(northSouth), JsonNumber(elevation)])))
    case Object(id) => Some(Plain("worldobject", Finite(id as real), ""))
    case Timer => None
    case Control => None
  }

  function StoredItems(items: seq<Tree>): Option<seq<Json>> {
    if items == [] then Some([])
    else match StoredItems(items[..|items| - 1])
      case None => None
      case Some(before) =>
        match Stored(items[|items| - 1])
        case None => None
        case Some(last) => Some(before + [last])
  }

  function StoredMembers(members: seq<Member>): Option<seq<Property>> {
    if members == [] then Some([])
    else match StoredMembers(members[..|members| - 1])
      case None => None
      case Some(before) =>
        match Stored(members[|members| - 1].tree)
        case None => None
        case Some(last) => Some(before + [Property(members[|members| - 1].key, last)])
  }

  /** Somewhere in the value is a stopwatch or a control. */
  ghost predicate Unsavable(tree: Tree) {
    match tree
    case Timer => true
    case Control => true
    case Sequence(items) => exists i :: 0 <= i < |items| && Unsavable(items[i])
    case Record(members) => exists i :: 0 <= i < |members| && Unsavable(members[i].tree)
    case _ => false
  }

  /** The six properties every saved value has, in their order. */
  lemma SixProperties(kind: string, number: Number, text: string, list: Json, dictionary: Json, coordinates: Json)
    ensures Shape(kind, number, text, list, dictionary, coordinates) == JsonObject([
              Property("Kind", JsonString(kind)), Property("Number", JsonNumber(number)), Property("Text", JsonString(text)),
              Property("List", list), Property("Dictionary", dictionary), Property("Coordinates", coordinates)])
  {}

  /** Only the one of its kind has anything in it. */
  lemma SavedFormat(n: Number, truth: bool, text: string, id: ObjectId, x: Number, y: Number, z: Number)
    ensures Stored(Num(n)) == Some(Shape("number", n, "", JsonNull, JsonNull, JsonNull))
    ensures Stored(Truth(truth)) == Some(Shape("boolean", Finite(if truth then 1.0 else 0.0), "", JsonNull, JsonNull, JsonNull))
    ensures Stored(Str(text)) == Some(Shape("string", Finite(0.0), text, JsonNull, JsonNull, JsonNull))
    ensures Stored(Object(id)) == Some(Shape("worldobject", Finite(id as real), "", JsonNull, JsonNull, JsonNull))
    ensures Stored(Position(x, y, z)) ==
            Some(Shape("coordinates", Finite(0.0), "", JsonNull, JsonNull, JsonArray([JsonNumber(x), JsonNumber(y), JsonNumber(z)])))
  {
    hide Shape;
  }

  /** A list is saved item by item and a dictionary member by member, in order. */
  lemma {:induction false} SavedPartByPart(items: seq<Tree>, members: seq<Member>, i: nat)
    ensures Stored(Sequence(items)).Some? && i < |items| ==>
              exists list: seq<Json> :: |list| == |items| && Stored(items[i]) == Some(list[i])
                             && Stored(Sequence(items)) == Some(Shape("list", ZERO, "", JsonArray(list), JsonNull, JsonNull))
    ensures Stored(Record(members)).Some? && i < |members| ==>
              exists record: seq<Property> :: |record| == |members| && Stored(members[i].tree) == Some(record[i].json) && record[i].name == members[i].key
                               && Stored(Record(members)) == Some(Shape("dictionary", ZERO, "", JsonNull, JsonObject(record), JsonNull))
  {
    if Stored(Sequence(items)).Some? && i < |items| {
      var list := StoredItems(items).value;
      ItemsStored(items, i);
      assert Stored(Sequence(items)) == Some(Shape("list", ZERO, "", JsonArray(list), JsonNull, JsonNull));
    }
    if Stored(Record(members)).Some? && i < |members| {
      var record := StoredMembers(members).value;
      MembersStored(members, i);
      assert Stored(Record(members)) == Some(Shape("dictionary", ZERO, "", JsonNull, JsonObject(record), JsonNull));
    }
  }

  lemma {:induction false} ItemsStored(items: seq<Tree>, i: nat)
    requires i < |items| && StoredItems(items).Some?
    ensures |StoredItems(items).value| == |items| && Stored(items[i]) == Some(StoredItems(items).value[i])
  {
    hide Stored;
    if |items| > 1 { ItemsStored(items[..|items| - 1], if i < |items| - 1 then i else 0); }
  }

  lemma {:induction false} MembersStored(members: seq<Member>, i: nat)
    requires i < |members| && StoredMembers(members).Some?
    ensures |StoredMembers(members).value| == |members|
    ensures StoredMembers(members).value[i].name == members[i].key && Stored(members[i].tree) == Some(StoredMembers(members).value[i].json)
  {
    hide Stored;
    if |members| > 1 { MembersStored(members[..|members| - 1], if i < |members| - 1 then i else 0); }
  }

  /** Storing fails exactly when a stopwatch or a control is inside. */
  lemma {:induction false} StoringFailsExactly(tree: Tree)
    ensures Stored(tree).None? <==> Unsavable(tree)
    decreases tree
  {
    match tree
    case Sequence(items) => ItemsFailExactly(items);
    case Record(members) => MembersFailExactly(members);
    case _ =>
  }

  lemma {:induction false} ItemsFailExactly(items: seq<Tree>)
    ensures StoredItems(items).None? <==> exists i :: 0 <= i < |items| && Unsavable(items[i])
    decreases items
  {
    if items != [] {
      var n := |items| - 1;
      ItemsFailExactly(items[..n]);
      StoringFailsExactly(items[n]);
      hide Unsavable;
      assert forall i :: 0 <= i < n ==> items[..n][i] == items[i];
    }
  }

  lemma {:induction false} MembersFailExactly(members: seq<Member>)
    ensures StoredMembers(members).None? <==> exists i :: 0 <= i < |members| && Unsavable(members[i].tree)
    decreases members
  {
    if members != [] {
      var n := |members| - 1;
      MembersFailExactly(members[..n]);
      StoringFailsExactly(members[n].tree);
      hide Unsavable;
      assert forall i :: 0 <= i < n ==> members[..n][i] == members[i];
    }
  }

  // ----- rebuilding -----

  /** How properties are looked up by name, and kinds compared, whatever their
      case. */
  datatype Kit = Kit(pick: (seq<string>, string) -> Option<nat>, lower: string -> string)

  /** All that is relied on: the six properties are told apart, and the kinds
      are lower case as they stand. */
  ghost predicate KitWorks(kit: Kit) {
    && (forall i: nat :: i < |PROPERTIES| ==> kit.pick(PROPERTIES, PROPERTIES[i]) == Some(i))
    && (forall kind :: kind in {"number", "boolean", "string", "list", "dictionary", "coordinates", "worldobject"} ==> kit.lower(kind) == kind)
  }

  function MembersOf(entries: seq<(string, Tree)>): seq<Member> {
    seq(|entries|, i requires 0 <= i < |entries| => Member(entries[i].0, entries[i].1))
  }

  function NamesOf(members: seq<Property>): seq<string> { seq(|members|, i requires 0 <= i < |members| => members[i].name) }

  function Look(kit: Kit, members: seq<Property>, name: string): Option<Json> {
    match kit.pick(NamesOf(members), name)
    case Some(i) => if i < |members| then Some(members[i].json) else None
    case None => None
  }

  function NumberOf(json: Option<Json>): Result<Number> {
    match json
    case None => Ok(ZERO)
    case Some(JsonNull) => Ok(ZERO)
    case Some(JsonNumber(number)) => Ok(number)
    case Some(JsonString(text)) =>
      if text == "NaN" then Ok(NaN)
      else if text == "Infinity" then Ok(PositiveInfinity)
      else if text == "-Infinity" then Ok(NegativeInfinity)
      else Damaged(NotANumber)
    case Some(_) => Damaged(NotANumber)
  }

  /** Cut toward zero. */
  function Truncated(x: real): int { if x >= 0.0 then x.Floor else -(-x).Floor }

  function KindOf(kind: Option<Json>): Result<string> {
    match kind
    case None => Ok("number")
    case Some(JsonString(text)) => Ok(text)
    case Some(_) => Damaged(NoKind)
  }

  function TextOf(text: Option<Json>): Result<Tree> {
    match text
    case None => Ok(Str(""))
    case Some(JsonString(t)) => Ok(Str(t))
    case Some(_) => Damaged(NoText)
  }

  function PositionOf(coordinates: Option<Json>): Result<Tree> {
    match coordinates
    case Some(JsonArray(values)) =>
      if |values| < 2 then Ok(Num(ZERO))
      else
        var eastWest := NumberOf(Some(values[0]));
        var northSouth := NumberOf(Some(values[1]));
        var elevation := if |values| >= 3 then NumberOf(Some(values[2])) else Ok(ZERO);
        if eastWest.Damaged? then Damaged(eastWest.damage)
        else if northSouth.Damaged? then Damaged(northSouth.damage)
        else if elevation.Damaged? then Damaged(elevation.damage)
        else Ok(Position(eastWest.value, northSouth.value, elevation.value))
    case _ => Ok(Num(ZERO))
  }

  function ObjectOf(number: Number): Result<Tree> {
    if number.Finite? && 0 <= Truncated(number.value) <= U32_MAX then Ok(Object(Truncated(number.value))) else Damaged(IdOutOfRange)
  }

  /** The id of an object may have a fraction, which is cut off. */
  lemma ObjectIsTheWholePart(x: real, id: ObjectId)
    ensures ObjectOf(Finite(x)) == Ok(Object(id)) <==> id as real <= x < (id + 1) as real || (id == 0 && -1.0 < x < 0.0)
    ensures ObjectOf(Finite(x)).Damaged? <==> x <= -1.0 || x >= 0x1_0000_0000 as real
  {}

  /** Two coordinates are a position on the ground, and fewer are none. */
  lemma PositionOnTheGround(kit: Kit, eastWest: Number, northSouth: Number, coordinates: seq<Json>)
    ensures PositionOf(Some(JsonArray([JsonNumber(eastWest), JsonNumber(northSouth)]))) == Ok(Position(eastWest, northSouth, ZERO))
    ensures |coordinates| < 2 ==> PositionOf(Some(JsonArray(coordinates))) == Ok(Num(ZERO))
  {}

  /** What a saved value stands for; its first damage, if it has any. */
  function Restored(json: Json, kit: Kit): Result<Tree>
    decreases json, 0
  {
    match json
    case JsonObject(members) =>
      var kind := KindOf(Look(kit, members, "Kind"));
      if kind.Damaged? then Damaged(kind.damage) else
      var number := NumberOf(Look(kit, members, "Number"));
      if number.Damaged? then Damaged(number.damage) else
      var lowered := kit.lower(kind.value);
      if lowered == "number" then Ok(Num(number.value))
      else if lowered == "boolean" then Ok(Truth(number.value != ZERO))
      else if lowered == "string" then TextOf(Look(kit, members, "Text"))
      else if lowered == "list" then
        (match Look(kit, members, "List")
         case Some(JsonArray(items)) =>
           var all := RestoredItems(items, kit);
           if all.Ok? then Ok(Sequence(all.value)) else Damaged(all.damage)
         case _ => Ok(Sequence([])))
      else if lowered == "dictionary" then
        (match Look(kit, members, "Dictionary")
         case Some(JsonObject(entries)) =>
           var table := RestoredMembers(entries, kit);
           if table.Ok? then Ok(Record(MembersOf(D.Entries(table.value.slots)))) else Damaged(table.damage)
         case _ => Ok(Record([])))
      else if lowered == "coordinates" then PositionOf(Look(kit, members, "Coordinates"))
      else if lowered == "worldobject" then ObjectOf(number.value)
      else Ok(Num(ZERO))
    case JsonNull => Damaged(NoKind)
    case _ => Damaged(NotAnObject)
  }

  /** A value that says no kind is a number, and one that says no number is 0. */
  lemma NoKindIsANumber(members: seq<Property>, kit: Kit)
    requires KitWorks(kit) && Look(kit, members, "Kind").None?
    ensures Restored(JsonObject(members), kit) ==
            var number := Look(kit, members, "Number");
            if number.None? then Ok(Num(ZERO))
            else if NumberOf(number).Ok? then Ok(Num(NumberOf(number).value)) else Damaged(NumberOf(number).damage)
  {}

  function RestoredItems(items: seq<Json>, kit: Kit): Result<seq<Tree>> {
    if items == [] then Ok([])
    else match RestoredItems(items[..|items| - 1], kit)
      case Damaged(damage) => Damaged(damage)
      case Ok(before) =>
        match Restored(items[|items| - 1], kit)
        case Damaged(damage) => Damaged(damage)
        case Ok(last) => Ok(before + [last])
  }

  /** The entries are inserted one by one into an empty dictionary. */
  function RestoredMembers(members: seq<Property>, kit: Kit): (table: Result<D.Table<string, Tree, string>>)
    ensures table.Ok? ==> D.Valid(table.value, D.AsIs)
  {
    if members == [] then Ok(D.Empty())
    else match RestoredMembers(members[..|members| - 1], kit)
      case Damaged(damage) => Damaged(damage)
      case Ok(before) =>
        match Restored(members[|members| - 1].json, kit)
        case Damaged(damage) => Damaged(damage)
        case Ok(last) =>
          D.PutKeepsValid(before, D.AsIs, members[|members| - 1].name, last);
          Ok(D.Put(before, D.AsIs, members[|members| - 1].name, last))
  }

  // ----- what comes back -----

  /** A value that can exist: no dictionary has a key twice. */
  ghost predicate WellFormed(tree: Tree) {
    match tree
    case Sequence(items) => forall i :: 0 <= i < |items| ==> WellFormed(items[i])
    case Record(members) =>
      && (forall i :: 0 <= i < |members| ==> WellFormed(members[i].tree))
      && (forall i, j :: 0 <= i < j < |members| ==> members[i].key != members[j].key)
    case _ => true
  }

  /** JSON text has no number for these: the writer puts their names. */
  function Written(json: Json): Json {
    match json
    case JsonNumber(NaN) => JsonString("NaN")
    case JsonNumber(PositiveInfinity) => JsonString("Infinity")
    case JsonNumber(NegativeInfinity) => JsonString("-Infinity")
    case JsonArray(items) => JsonArray(WrittenItems(items))
    case JsonObject(members) => JsonObject(WrittenMembers(members))
    case _ => json
  }

  function WrittenItems(items: seq<Json>): (r: seq<Json>)
    ensures |r| == |items| && forall i :: 0 <= i < |r| ==> r[i] == Written(items[i])
  {
    if items == [] then [] else WrittenItems(items[..|items| - 1]) + [Written(items[|items| - 1])]
  }

  function WrittenMembers(members: seq<Property>): (r: seq<Property>)
    ensures |r| == |members| && forall i :: 0 <= i < |r| ==> r[i].name == members[i].name && r[i].json == Written(members[i].json)
  {
    if members == [] then []
    else WrittenMembers(members[..|members| - 1]) + [Property(members[|members| - 1].name, Written(members[|members| - 1].json))]
  }

  /** The JSON as it is in memory, or as its text reads back. */
  function Carried(json: Json, asText: bool): Json { if asText then Written(json) else json }

  function CarriedItems(items: seq<Json>, asText: bool): seq<Json> { if asText then WrittenItems(items) else items }

  function CarriedMembers(members: seq<Property>, asText: bool): seq<Property> { if asText then WrittenMembers(members) else members }

  /** Looking at the six properties of something stored. */
  lemma LooksUpStored(kit: Kit, kind: string, number: Number, text: string, list: Json, dictionary: Json, coordinates: Json, asText: bool)
    requires KitWorks(kit)
    ensures Carried(Shape(kind, number, text, list, dictionary, coordinates), asText).JsonObject?
    ensures var members := Carried(Shape(kind, number, text, list, dictionary, coordinates), asText).members;
            && KindOf(Look(kit, members, "Kind")) == Ok(kind)
            && NumberOf(Look(kit, members, "Number")) == Ok(number)
            && Look(kit, members, "Text") == Some(JsonString(text))
            && Look(kit, members, "List") == Some(Carried(list, asText))
            && Look(kit, members, "Dictionary") == Some(Carried(dictionary, asText))
            && Look(kit, members, "Coordinates") == Some(Carried(coordinates, asText))
  {
    var members := Carried(Shape(kind, number, text, list, dictionary, coordinates), asText).members;
    assert NamesOf(members) == PROPERTIES;
    assert PROPERTIES[0] == "Kind" && PROPERTIES[1] == "Number" && PROPERTIES[2] == "Text";
    assert PROPERTIES[3] == "List" && PROPERTIES[4] == "Dictionary" && PROPERTIES[5] == "Coordinates";
  }

  /** A saved value comes back as it was, straight from memory or through
      its text. */
  lemma {:induction false} SavedComesBack(tree: Tree, kit: Kit, asText: bool)
    requires KitWorks(kit) && WellFormed(tree) && Stored(tree).Some?
    ensures Restored(Carried(Stored(tree).value, asText), kit) == Ok(tree)
    decreases tree
  {
    hide WellFormed, Look, Carried, KindOf, NumberOf, RestoredItems, RestoredMembers, StoredItems, StoredMembers;
    match tree
    case Num(number) => LooksUpStored(kit, "number", number, "", JsonNull, JsonNull, JsonNull, asText);
    case Truth(truth) => LooksUpStored(kit, "boolean", if truth then Finite(1.0) else ZERO, "", JsonNull, JsonNull, JsonNull, asText);
    case Str(text) => LooksUpStored(kit, "string", ZERO, text, JsonNull, JsonNull, JsonNull, asText);
    case Sequence(items) =>
      var list := StoredItems(items).value;
      LooksUpStored(kit, "list", ZERO, "", JsonArray(list), JsonNull, JsonNull, asText);
      ItemsWellFormed(tree);
      CarriesInside(list, [], asText);
      ItemsComeBack(items, kit, asText);
    case Record(members) =>
      var record := StoredMembers(members).value;
      LooksUpStored(kit, "dictionary", ZERO, "", JsonNull, JsonObject(record), JsonNull, asText);
      MembersWellFormed(tree);
      CarriesInside([], record, asText);
      MembersComeBack(members, kit, asText);
    case Position(eastWest, northSouth, elevation) =>
      var values := JsonArray([JsonNumber(eastWest), JsonNumber(northSouth), JsonNumber(elevation)]);
      LooksUpStored(kit, "coordinates", ZERO, "", JsonNull, JsonNull, values, asText);
      PositionComesBack(eastWest, northSouth, elevation, asText);
    case Object(id) =>
      LooksUpStored(kit, "worldobject", Finite(id as real), "", JsonNull, JsonNull, JsonNull, asText);
      ObjectComesBack(id);
  }

  lemma ItemsWellFormed(tree: Tree)
    requires tree.Sequence? && WellFormed(tree)
    ensures forall i :: 0 <= i < |tree.items| ==> WellFormed(tree.items[i])
  {}

  lemma MembersWellFormed(tree: Tree)
    requires tree.Record? && WellFormed(tree)
    ensures forall i :: 0 <= i < |tree.members| ==> WellFormed(tree.members[i].tree)
    ensures forall i, j :: 0 <= i < j < |tree.members| ==> tree.members[i].key != tree.members[j].key
  {}

  lemma CarriesInside(items: seq<Json>, members: seq<Property>, asText: bool)
    ensures Carried(JsonArray(items), asText) == JsonArray(CarriedItems(items, asText))
    ensures Carried(JsonObject(members), asText) == JsonObject(CarriedMembers(members, asText))
  {}

  lemma PositionComesBack(eastWest: Number, northSouth: Number, elevation: Number, asText: bool)
    ensures PositionOf(Some(Carried(JsonArray([JsonNumber(eastWest), JsonNumber(northSouth), JsonNumber(elevation)]), asText)))
         == Ok(Position(eastWest, northSouth, elevation))
  {
    var a, b, c := JsonNumber(eastWest), JsonNumber(northSouth), JsonNumber(elevation);
    hide WrittenItems;
    assert WrittenItems([a, b, c]) == [Written(a), Written(b), Written(c)];
  }

  lemma ObjectComesBack(id: ObjectId)
    ensures ObjectOf(Finite(id as real)) == Ok(Object(id))
  {}

  lemma {:induction false} ItemsComeBack(items: seq<Tree>, kit: Kit, asText: bool)
    requires KitWorks(kit) && StoredItems(items).Some? && forall i :: 0 <= i < |items| ==> WellFormed(items[i])
    ensures RestoredItems(CarriedItems(StoredItems(items).value, asText), kit) == Ok(items)
    decreases items
  {
    hide WellFormed, Restored, Stored, Written;
    if items != [] {
      var n := |items| - 1;
      ItemsComeBack(items[..n], kit, asText);
      SavedComesBack(items[n], kit, asText);
      var before, last := StoredItems(items[..n]).value, Stored(items[n]).value;
      assert StoredItems(items).value == before + [last];
      CarriedAppend(before, last, asText);
      var all := CarriedItems(before, asText) + [Carried(last, asText)];
      assert all[..|all| - 1] == CarriedItems(before, asText);
      assert items == items[..n] + [items[n]];
    }
  }

  lemma CarriedAppend(before: seq<Json>, last: Json, asText: bool)
    ensures CarriedItems(before + [last], asText) == CarriedItems(before, asText) + [Carried(last, asText)]
  {
    assert (before + [last])[..|before|] == before;
  }

  lemma CarriedMembersAppend(before: seq<Property>, last: Property, asText: bool)
    ensures CarriedMembers(before + [last], asText) == CarriedMembers(before, asText) + [Property(last.name, Carried(last.json, asText))]
  {
    assert (before + [last])[..|before|] == before;
  }

  /** A dictionary's entries come back in the order it enumerated them. */
  lemma {:induction false} MembersComeBack(members: seq<Member>, kit: Kit, asText: bool)
    requires KitWorks(kit) && StoredMembers(members).Some? && forall i :: 0 <= i < |members| ==> WellFormed(members[i].tree)
    requires forall i, j :: 0 <= i < j < |members| ==> members[i].key != members[j].key
    ensures var table := RestoredMembers(CarriedMembers(StoredMembers(members).value, asText), kit);
            table.Ok? && table.value.free == [] && MembersOf(D.Entries(table.value.slots)) == members
    decreases members
  {
    hide WellFormed, Restored, Stored, Written, D.Put, D.Valid, D.Entries;
    if members == [] {
      NoEntries();
    } else {
      var n := |members| - 1;
      MembersComeBack(members[..n], kit, asText);
      SavedComesBack(members[n].tree, kit, asText);
      var before, last := StoredMembers(members[..n]).value, Property(members[n].key, Stored(members[n].tree).value);
      assert StoredMembers(members).value == before + [last];
      CarriedMembersAppend(before, last, asText);
      var carried := Property(last.name, Carried(last.json, asText));
      var all := CarriedMembers(before, asText) + [carried];
      assert all[..|all| - 1] == CarriedMembers(before, asText);
      var table := RestoredMembers(CarriedMembers(before, asText), kit).value;
      MemberAdded(table, members[..n], members[n]);
      assert members == members[..n] + [members[n]];
    }
  }

  lemma MemberAdded(table: D.Table<string, Tree, string>, members: seq<Member>, last: Member)
    requires D.Valid(table, D.AsIs) && table.free == [] && MembersOf(D.Entries(table.slots)) == members
    requires forall i :: 0 <= i < |members| ==> members[i].key != last.key
    ensures var after := D.Put(table, D.AsIs, last.key, last.tree);
            after.free == [] && MembersOf(D.Entries(after.slots)) == members + [last]
  {
    hide D.Put, D.Valid, D.Entries;
    var entries := D.Entries(table.slots);
    assert forall i :: 0 <= i < |entries| ==> members[i].key == entries[i].0;
    D.PutListed(table, D.AsIs, last.key, last.tree);
  }

  lemma NoEntries()
    ensures D.Entries<string, Tree>([]) == []
  {}

  // ----- values as the functions left them -----

  /** The collections inside one. */
  ghost function Inside(heap: Heap, a: nat): set<nat> { set b | b in heap && Reaches(heap, a, b) }

  ghost function Depth(heap: Heap, value: Value): nat { if IsCollection(value) then |Inside(heap, value.address)| else 0 }

  /** What a collection holds has less inside it, when none holds itself. */
  lemma DepthShrinks(heap: Heap, value: Value, child: Value)
    requires Closed(heap) && Acyclic(heap) && IsCollection(value) && Names(heap, value) && child in Children(heap[value.address])
    ensures Names(heap, child) && Depth(heap, child) < Depth(heap, value)
  {
    hide Acyclic, Children, Reaches;
    var a := value.address;
    ReachesItself(heap, a);
    assert a in Inside(heap, a);
    if IsCollection(child) {
      var b := child.address;
      assert Holds(heap, a, b);
      forall c | c in Inside(heap, b) ensures c in Inside(heap, a) { StepThenReach(heap, a, b, c); }
      if a in Inside(heap, b) { NotBackAgain(heap, a, b); }
      SmallerSet(Inside(heap, b), Inside(heap, a), a);
    }
  }

  lemma NotBackAgain(heap: Heap, a: nat, b: nat)
    requires Acyclic(heap) && Holds(heap, a, b)
    ensures !Reaches(heap, b, a)
  {
    hide Holds;
    if Reaches(heap, b, a) {
      var path :| PathBetween(heap, path, b, a);
      StepThenReachCloses(heap, a, b, path);
    }
  }

  /** The value with everything inside it. */
  ghost function Unfolded(heap: Heap, value: Value): Tree
    requires Closed(heap) && Acyclic(heap) && Names(heap, value)
    decreases Depth(heap, value)
  {
    match value
    case Number(number) => Num(number)
    case Boolean(truth) => Truth(truth)
    case Text(text) => Str(text)
    case Coordinates(_, eastWest, northSouth, elevation) => Position(eastWest, northSouth, elevation)
    case WorldObject(id) => Object(id)
    case Stopwatch(_) => Timer
    case UiControl(_) => Control
    case List(address) => Sequence(UnfoldedAll(heap, value, |heap[address].items|))
    case Dictionary(address) =>
      var entries := D.Entries(heap[address].table.slots);
      var trees := UnfoldedAll(heap, value, |entries|);
      Record(seq(|entries|, i requires 0 <= i < |entries| => Member(entries[i].0, trees[i])))
  }

  /** The first `n` of the values a collection holds. */
  ghost function UnfoldedAll(heap: Heap, value: Value, n: nat): (trees: seq<Tree>)
    requires Closed(heap) && Acyclic(heap) && IsCollection(value) && Names(heap, value) && n <= |Children(heap[value.address])|
    ensures |trees| == n
    decreases Depth(heap, value), n
  {
    if n == 0 then []
    else
      var child := Children(heap[value.address])[n - 1];
      assert child in Children(heap[value.address]);
      DepthShrinks(heap, value, child);
      UnfoldedAll(heap, value, n - 1) + [Unfolded(heap, child)]
  }

  /** Storing what a value holds ends however the heap shares it, and tells all
      of it. */
  method Store(heap: Heap, value: Value) returns (json: Option<Json>)
    requires Closed(heap) && Acyclic(heap) && Names(heap, value)
    ensures json == Stored(Unfolded(heap, value))
    decreases Depth(heap, value)
  {
    hide Closed, Acyclic, Depth, Shape, UnfoldedAll, StoredItems, StoredMembers, D.Entries;
    match value
    case Number(number) => json := Some(Plain("number", number, ""));
    case Boolean(truth) => json := Some(Plain("boolean", if truth then Finite(1.0) else ZERO, ""));
    case Text(text) => json := Some(Plain("string", ZERO, text));
    case Coordinates(_, eastWest, northSouth, elevation) =>
      json := Some(Shape("coordinates", ZERO, "", JsonNull, JsonNull,
                         JsonArray([JsonNumber(eastWest), JsonNumber(northSouth), JsonNumber(elevation)])));
    case WorldObject(id) => json := Some(Plain("worldobject", Finite(id as real), ""));
    case Stopwatch(_) => json := None;
    case UiControl(_) => json := None;
    case List(address) =>
      var items := heap[address].items;
      var stored: seq<Json> := [];
      NothingUnfolded(heap, value);
      for i := 0 to |items|
        invariant StoredItems(UnfoldedAll(heap, value, i)) == Some(stored)
      {
        ChildOf(heap, value, i);
        var item := Store(heap, items[i]);
        OneMoreUnfolded(heap, value, i);
        if item.None? {
          ItemStopsAll(heap, value, i);
          return None;
        }
        stored := stored + [item.value];
      }
      json := Some(Shape("list", ZERO, "", JsonArray(stored), JsonNull, JsonNull));
    case Dictionary(address) =>
      var entries := D.Entries(heap[address].table.slots);
      var stored: seq<Property> := [];
      NothingUnfolded(heap, value);
      assert MembersUnfolded(heap, value, entries, 0) == [];
      for i := 0 to |entries|
        invariant StoredMembers(MembersUnfolded(heap, value, entries, i)) == Some(stored)
      {
        ChildOf(heap, value, i);
        var item := Store(heap, entries[i].1);
        OneMoreMember(heap, value, entries, i);
        if item.None? {
          MemberStopsAll(heap, value, entries, i);
          return None;
        }
        stored := stored + [Property(entries[i].0, item.value)];
      }
      json := Some(Shape("dictionary", ZERO, "", JsonNull, JsonObject(stored), JsonNull));
  }

  /** The first `n` entries of a dictionary, unfolded. */
  ghost function MembersUnfolded(heap: Heap, value: Value, entries: seq<(string, Value)>, n: nat): seq<Member>
    requires Closed(heap) && Acyclic(heap) && value.Dictionary? && Names(heap, value)
    requires n <= |entries| && entries == D.Entries(heap[value.address].table.slots)
  {
    seq(n, i requires 0 <= i < n => Member(entries[i].0, UnfoldedAll(heap, value, n)[i]))
  }

  lemma NothingUnfolded(heap: Heap, value: Value)
    requires Closed(heap) && Acyclic(heap) && IsCollection(value) && Names(heap, value)
    ensures StoredItems(UnfoldedAll(heap, value, 0)) == Some([]) && StoredMembers([]) == Some([])
  {}

  lemma ChildOf(heap: Heap, value: Value, i: nat)
    requires Closed(heap) && Acyclic(heap) && IsCollection(value) && Names(heap, value) && i < |Children(heap[value.address])|
    ensures var child := Children(heap[value.address])[i];
            Names(heap, child) && Depth(heap, child) < Depth(heap, value)
  {
    var child := Children(heap[value.address])[i];
    assert child in Children(heap[value.address]);
    DepthShrinks(heap, value, child);
  }

  lemma OneMoreUnfolded(heap: Heap, value: Value, i: nat)
    requires Closed(heap) && Acyclic(heap) && IsCollection(value) && Names(heap, value) && i < |Children(heap[value.address])|
    ensures var child := Children(heap[value.address])[i];
            var before := UnfoldedAll(heap, value, i);
            && Names(heap, child) && UnfoldedAll(heap, value, i + 1) == before + [Unfolded(heap, child)]
            && StoredItems(before + [Unfolded(heap, child)])
                 == if StoredItems(before).Some? && Stored(Unfolded(heap, child)).Some?
                    then Some(StoredItems(before).value + [Stored(Unfolded(heap, child)).value]) else None
  {
    hide Stored;
    ChildOf(heap, value, i);
    var child := Children(heap[value.address])[i];
    var before := UnfoldedAll(heap, value, i);
    assert (before + [Unfolded(heap, child)])[..|before|] == before;
  }

  lemma {:induction false} ItemStopsAll(heap: Heap, value: Value, i: nat)
    requires Closed(heap) && Acyclic(heap) && value.List? && Names(heap, value) && i < |heap[value.address].items|
    requires StoredItems(UnfoldedAll(heap, value, i + 1)).None?
    ensures StoredItems(UnfoldedAll(heap, value, |heap[value.address].items|)).None?
    decreases |heap[value.address].items| - i
  {
    hide Stored, StoredItems, UnfoldedAll;
    if i + 1 < |heap[value.address].items| {
      OneMoreUnfolded(heap, value, i + 1);
      ItemStopsAll(heap, value, i + 1);
    }
  }

  lemma OneMoreMember(heap: Heap, value: Value, entries: seq<(string, Value)>, i: nat)
    requires Closed(heap) && Acyclic(heap) && value.Dictionary? && Names(heap, value)
    requires i < |entries| && entries == D.Entries(heap[value.address].table.slots)
    ensures var child := entries[i].1;
            var before := MembersUnfolded(heap, value, entries, i);
            && Names(heap, child)
            && StoredMembers(MembersUnfolded(heap, value, entries, i + 1))
                 == if StoredMembers(before).Some? && Stored(Unfolded(heap, child)).Some?
                    then Some(StoredMembers(before).value + [Property(entries[i].0, Stored(Unfolded(heap, child)).value)]) else None
  {
    hide Stored, StoredItems, UnfoldedAll, D.Entries;
    OneMoreUnfolded(heap, value, i);
    var child := Children(heap[value.address])[i];
    var before := MembersUnfolded(heap, value, entries, i);
    var all := MembersUnfolded(heap, value, entries, i + 1);
    assert all[..i] == before && all[i] == Member(entries[i].0, Unfolded(heap, child));
  }

  lemma {:induction false} MemberStopsAll(heap: Heap, value: Value, entries: seq<(string, Value)>, i: nat)
    requires Closed(heap) && Acyclic(heap) && value.Dictionary? && Names(heap, value)
    requires i < |entries| && entries == D.Entries(heap[value.address].table.slots)
    requires StoredMembers(MembersUnfolded(heap, value, entries, i + 1)).None?
    ensures StoredMembers(MembersUnfolded(heap, value, entries, |entries|)).None?
    decreases |entries| - i
  {
    hide Stored, StoredMembers, MembersUnfolded;
    if i + 1 < |entries| {
      OneMoreMember(heap, value, entries, i + 1);
      MemberStopsAll(heap, value, entries, i + 1);
    }
  }

  /** A stopwatch or a control is the value, or is held by it or by something
      inside it. */
  ghost predicate HoldsUnsavable(heap: Heap, value: Value) {
    || value.Stopwatch? || value.UiControl?
    || (IsCollection(value) && exists a, v :: Reaches(heap, value.address, a) && a in heap && v in Children(heap[a]) && (v.Stopwatch? || v.UiControl?))
  }

  lemma ChildUnsavable(heap: Heap, value: Value, child: Value)
    requires IsCollection(value) && value.address in heap && child in Children(heap[value.address]) && HoldsUnsavable(heap, child)
    ensures HoldsUnsavable(heap, value)
  {
    hide Children, Reaches;
    ReachesItself(heap, value.address);
    if IsCollection(child) {
      var a, v :| Reaches(heap, child.address, a) && a in heap && v in Children(heap[a]) && (v.Stopwatch? || v.UiControl?);
      assert Holds(heap, value.address, child.address);
      StepThenReach(heap, value.address, child.address, a);
    }
  }

  lemma UnsavableThroughChild(heap: Heap, value: Value) returns (child: Value)
    requires IsCollection(value) && HoldsUnsavable(heap, value) && value.address in heap
    ensures child in Children(heap[value.address]) && HoldsUnsavable(heap, child)
  {
    hide Children;
    var a, v :| Reaches(heap, value.address, a) && a in heap && v in Children(heap[a]) && (v.Stopwatch? || v.UiControl?);
    var path :| PathBetween(heap, path, value.address, a);
    if |path| == 1 {
      child := v;
    } else {
      PathTail(heap, path);
      child :| child in Children(heap[path[0]]) && IsCollection(child) && child.address == path[1];
      assert PathBetween(heap, path[1..], child.address, a);
    }
  }

  /** Storing fails exactly when a stopwatch or a control can be reached. */
  lemma {:induction false} UnsavableIsReached(heap: Heap, value: Value)
    requires Closed(heap) && Acyclic(heap) && Names(heap, value)
    ensures Unsavable(Unfolded(heap, value)) <==> HoldsUnsavable(heap, value)
    decreases Depth(heap, value)
  {
    hide Closed, Acyclic, Depth, HoldsUnsavable, UnfoldedAll, D.Entries;
    if IsCollection(value) {
      var children := Children(heap[value.address]);
      forall i | 0 <= i < |children|
        ensures Names(heap, children[i]) && (Unsavable(Unfolded(heap, children[i])) <==> HoldsUnsavable(heap, children[i]))
      {
        ChildOf(heap, value, i);
        UnsavableIsReached(heap, children[i]);
      }
      UnfoldedAt(heap, value);
      UnsavableParts(Unfolded(heap, value));
      if HoldsUnsavable(heap, value) {
        var child := UnsavableThroughChild(heap, value);
        var i :| 0 <= i < |children| && children[i] == child;
        assert Unsavable(Parts(Unfolded(heap, value))[i]);
      } else {
        forall i | 0 <= i < |children| ensures !HoldsUnsavable(heap, children[i]) {
          if HoldsUnsavable(heap, children[i]) { ChildUnsavable(heap, value, children[i]); }
        }
      }
    } else {
      PlainUnsavable(heap, value);
    }
  }

  lemma PlainUnsavable(heap: Heap, value: Value)
    requires !IsCollection(value)
    ensures HoldsUnsavable(heap, value) <==> value.Stopwatch? || value.UiControl?
  {}

  function Parts(tree: Tree): seq<Tree> {
    match tree
    case Sequence(items) => items
    case Record(members) => seq(|members|, i requires 0 <= i < |members| => members[i].tree)
    case _ => []
  }

  lemma UnsavableParts(tree: Tree)
    requires tree.Sequence? || tree.Record?
    ensures Unsavable(tree) <==> exists i :: 0 <= i < |Parts(tree)| && Unsavable(Parts(tree)[i])
  {
    if tree.Record? {
      assert |Parts(tree)| == |tree.members|;
      if i :| 0 <= i < |tree.members| && Unsavable(tree.members[i].tree) { assert Unsavable(Parts(tree)[i]); }
    } else {
      assert Parts(tree) == tree.items;
    }
  }

  /** The unfolding of a collection has its children's unfoldings for parts. */
  lemma UnfoldedAt(heap: Heap, value: Value)
    requires Closed(heap) && Acyclic(heap) && IsCollection(value) && Names(heap, value)
    ensures var children := Children(heap[value.address]);
            var parts := Parts(Unfolded(heap, value));
            |parts| == |children| && forall i :: 0 <= i < |parts| ==> Names(heap, children[i]) && parts[i] == Unfolded(heap, children[i])
  {
    hide Closed, Acyclic;
    UnfoldedAllAt(heap, value, |Children(heap[value.address])|);
  }

  lemma {:induction false} UnfoldedAllAt(heap: Heap, value: Value, n: nat)
    requires Closed(heap) && Acyclic(heap) && IsCollection(value) && Names(heap, value) && n <= |Children(heap[value.address])|
    ensures var children := Children(heap[value.address]);
            forall i :: 0 <= i < n ==> Names(heap, children[i]) && UnfoldedAll(heap, value, n)[i] == Unfolded(heap, children[i])
  {
    hide Closed, Acyclic, Unfolded;
    if n > 0 {
      UnfoldedAllAt(heap, value, n - 1);
      ChildOf(heap, value, n - 1);
    }
  }

  /** What a heap holds can exist: no dictionary of it has a key twice. */
  lemma {:induction false} UnfoldedIsWellFormed(heap: Heap, value: Value)
    requires Closed(heap) && Acyclic(heap) && Names(heap, value)
    ensures WellFormed(Unfolded(heap, value))
    decreases Depth(heap, value)
  {
    hide Acyclic, Depth, UnfoldedAll, D.Entries, D.Valid;
    if IsCollection(value) {
      var children := Children(heap[value.address]);
      forall i | 0 <= i < |children| ensures Names(heap, children[i]) && WellFormed(Unfolded(heap, children[i])) {
        ChildOf(heap, value, i);
        UnfoldedIsWellFormed(heap, children[i]);
      }
      UnfoldedAt(heap, value);
      var tree := Unfolded(heap, value);
      if value.Dictionary? {
        D.EnumerationIsExact(heap[value.address].table, D.AsIs);
        assert forall i :: 0 <= i < |tree.members| ==> Parts(tree)[i] == tree.members[i].tree;
      } else {
        assert Parts(tree) == tree.items;
      }
    }
  }

  /** After any run of the functions, every value at hand can be stored unless a
      stopwatch or a control is reached from it, and comes back as it was. */
  lemma SessionValuesComeBack(ops: seq<Operation>, value: Value, kit: Kit, asText: bool)
    requires KitWorks(kit) && Names(AfterRun(ops).heap, value)
    ensures Closed(AfterRun(ops).heap) && Acyclic(AfterRun(ops).heap)
    ensures var tree := Unfolded(AfterRun(ops).heap, value);
            && (Stored(tree).None? <==> HoldsUnsavable(AfterRun(ops).heap, value))
            && (Stored(tree).Some? ==> Restored(Carried(Stored(tree).value, asText), kit) == Ok(tree))
  {
    hide Acyclic, Closed;
    var heap := AfterRun(ops).heap;
    assert Sound(AfterRun(ops));
    UnfoldedIsWellFormed(heap, value);
    UnsavableIsReached(heap, value);
    StoringFailsExactly(Unfolded(heap, value));
    if Stored(Unfolded(heap, value)).Some? {
      SavedComesBack(Unfolded(heap, value), kit, asText);
    }
  }

  /** Rebuilds a saved value, filling a list or a dictionary entry by entry. */
  method Restore(json: Json, kit: Kit) returns (result: Result<Tree>)
    ensures result == Restored(json, kit)
    decreases json
  {
    hide Look, KindOf, NumberOf, TextOf, PositionOf, ObjectOf, RestoredItems, RestoredMembers, D.Put, D.Valid, D.Entries;
    if json.JsonNull? { return Damaged(NoKind); }
    if !json.JsonObject? { return Damaged(NotAnObject); }
    var members := json.members;
    var kind := KindOf(Look(kit, members, "Kind"));
    if kind.Damaged? { return Damaged(kind.damage); }
    var number := NumberOf(Look(kit, members, "Number"));
    if number.Damaged? { return Damaged(number.damage); }
    var lowered := kit.lower(kind.value);
    if lowered == "number" { return Ok(Num(number.value)); }
    if lowered == "boolean" { return Ok(Truth(number.value != ZERO)); }
    if lowered == "string" { return TextOf(Look(kit, members, "Text")); }
    if lowered == "list" {
      var list := Look(kit, members, "List");
      LookedUpIsInside(kit, members, "List");
      if list.None? || !list.value.JsonArray? { return Ok(Sequence([])); }
      var all := RestoreItems(list.value.items, kit);
      return if all.Ok? then Ok(Sequence(all.value)) else Damaged(all.damage);
    }
    if lowered == "dictionary" {
      var record := Look(kit, members, "Dictionary");
      LookedUpIsInside(kit, members, "Dictionary");
      if record.None? || !record.value.JsonObject? { return Ok(Record([])); }
      var table := RestoreMembers(record.value.members, kit);
      return if table.Ok? then Ok(Record(MembersOf(D.Entries(table.value.slots)))) else Damaged(table.damage);
    }
    if lowered == "coordinates" { return PositionOf(Look(kit, members, "Coordinates")); }
    if lowered == "worldobject" { return ObjectOf(number.value); }
    result := Ok(Num(ZERO));
  }

  lemma LookedUpIsInside(kit: Kit, members: seq<Property>, name: string)
    ensures Look(kit, members, name).Some? ==> exists i :: 0 <= i < |members| && Look(kit, members, name).value == members[i].json
  {}

  method RestoreItems(items: seq<Json>, kit: Kit) returns (result: Result<seq<Tree>>)
    ensures result == RestoredItems(items, kit)
    decreases items
  {
    hide Restored;
    var trees: seq<Tree> := [];
    for i := 0 to |items|
      invariant RestoredItems(items[..i], kit) == Ok(trees)
    {
      var item := Restore(items[i], kit);
      assert items[..i + 1][..i] == items[..i];
      if item.Damaged? {
        DamageStopsItems(items, i + 1, kit);
        return Damaged(item.damage);
      }
      trees := trees + [item.value];
    }
    assert items[..|items|] == items;
    result := Ok(trees);
  }

  lemma {:induction false} DamageStopsItems(items: seq<Json>, n: nat, kit: Kit)
    requires n <= |items| && RestoredItems(items[..n], kit).Damaged?
    ensures RestoredItems(items, kit) == RestoredItems(items[..n], kit)
    decreases |items| - n
  {
    hide Restored;
    if n == |items| {
      assert items[..n] == items;
    } else {
      assert items[..n + 1][..n] == items[..n];
      DamageStopsItems(items, n + 1, kit);
    }
  }

  method RestoreMembers(members: seq<Property>, kit: Kit) returns (result: Result<D.Table<string, Tree, string>>)
    ensures result == RestoredMembers(members, kit)
    decreases members
  {
    hide Restored, D.Put, D.Valid;
    var table: D.Table<string, Tree, string> := D.Empty();
    EmptyTable(members, kit);
    for i := 0 to |members|
      invariant RestoredMembers(members[..i], kit) == Ok(table) && D.Valid(table, D.AsIs)
    {
      var item := Restore(members[i].json, kit);
      assert members[..i + 1][..i] == members[..i];
      if item.Damaged? {
        DamageStopsMembers(members, i + 1, kit);
        return Damaged(item.damage);
      }
      D.PutKeepsValid(table, D.AsIs, members[i].name, item.value);
      table := D.Put(table, D.AsIs, members[i].name, item.value);
    }
    assert members[..|members|] == members;
    result := Ok(table);
  }

  lemma EmptyTable(members: seq<Property>, kit: Kit)
    ensures RestoredMembers(members[..0], kit) == Ok(D.Empty()) && D.Valid<string, Tree, string>(D.Empty(), D.AsIs)
  {}

  lemma {:induction false} DamageStopsMembers(members: seq<Property>, n: nat, kit: Kit)
    requires n <= |members| && RestoredMembers(members[..n], kit).Damaged?
    ensures RestoredMembers(members, kit) == RestoredMembers(members[..n], kit)
    decreases |members| - n
  {
    hide Restored;
    if n == |members| {
      assert members[..n] == members;
    } else {
      assert members[..n + 1][..n] == members[..n];
      DamageStopsMembers(members, n + 1, kit);
    }
  }
}
