/** The weapon to fight a monster with when its rule leaves that open: a cascade
    of wishes, and the single pass over the items that answers it. */
module WeaponLadder {

  datatype Option<+T> = None | Some(value: T)

  datatype Element =
    | Auto | Slash | Pierce | Bludgeon | Cold | Fire | Acid | Electric | Nether | VoidBasic
    | DrainAuto | Harm | NoElement | PlayerAuto | Prismatic | Random | Fists | Physical

  datatype ObjectClass = MeleeWeapon | MissileWeapon | WandStaffOrb | OtherClass

  datatype Item = Item(
    id: nat, class_: ObjectClass, ammoType: nat, validLocations: bv32, damageType: bv32, imbued: bv32, cleaving: bv32,
    slayer: int, armorCleaving: bool, crushingBlow: bool, bitingStrike: bool)

  // ----- the element a weapon strikes with -----

  const REND_MASK: bv32 := 0x03ff

  function RendOf(imbued: bv32): Element {
    var rend := imbued & REND_MASK;
    if rend == 0x0040 then Acid
    else if rend == 0x0020 then Bludgeon
    else if rend == 0x0080 then Cold
    else if rend == 0x0200 then Fire
    else if rend == 0x0100 then Electric
    else if rend == 0x0010 then Pierce
    else if rend == 0x0008 then Slash
    else NoElement
  }

  function CleavingOf(cleaving: bv32): Element {
    if cleaving & 0x0020 != 0 then Acid
    else if cleaving & 0x0004 != 0 then Bludgeon
    else if cleaving & 0x0008 != 0 then Cold
    else if cleaving & 0x0010 != 0 then Fire
    else if cleaving & 0x0040 != 0 then Electric
    else if cleaving & 0x0002 != 0 then Pierce
    else if cleaving & 0x0001 != 0 then Slash
    else NoElement
  }

  /** The element of damage that no imbuement changes; of several bits the first
      of this order counts, which is not the order of the rends. */
  function PlainOf(damage: bv32): Element {
    if damage & 0x0020 != 0 then Acid
    else if damage & 0x0004 != 0 then Bludgeon
    else if damage & 0x0008 != 0 then Cold
    else if damage & 0x0010 != 0 then Fire
    else if damage & 0x0040 != 0 then Electric
    else if damage & 0x0001 != 0 then Slash
    else if damage & 0x0002 != 0 then Pierce
    else if damage & 0x0400 != 0 then VoidBasic
    else NoElement
  }

  /** The imbue burned in, else the resistance cleaved, else the plain damage. */
  function Resolve(imbued: bv32, cleaving: bv32, damage: bv32): Element {
    if RendOf(imbued) != NoElement then RendOf(imbued)
    else if CleavingOf(cleaving) != NoElement then CleavingOf(cleaving)
    else PlainOf(damage)
  }

  predicate IsRend(bit: bv32) {
    || bit == 0x0001 || bit == 0x0002 || bit == 0x0004 || bit == 0x0008 || bit == 0x0010
    || bit == 0x0020 || bit == 0x0040 || bit == 0x0080 || bit == 0x0100 || bit == 0x0200
  }

  /** A word with one bit more than a rend's equals no rend. */
  lemma RendsNameNothingTogether(imbued: bv32, a: bv32, b: bv32)
    requires IsRend(a) && IsRend(b) && a != b && imbued & a != 0 && imbued & b != 0
    ensures RendOf(imbued) == NoElement
  {}

  /** A bit by itself names its element; of the two where the orders differ a
      cleaving is taken as piercing and plain damage as slashing. */
  lemma BitsNameElements()
    ensures RendOf(0x08) == CleavingOf(0x01) == PlainOf(0x01) == Slash && RendOf(0x10) == CleavingOf(0x02) == PlainOf(0x02) == Pierce
    ensures RendOf(0x20) == CleavingOf(0x04) == PlainOf(0x04) == Bludgeon && RendOf(0x80) == CleavingOf(0x08) == PlainOf(0x08) == Cold
    ensures RendOf(0x0200) == CleavingOf(0x10) == PlainOf(0x10) == Fire && RendOf(0x40) == CleavingOf(0x20) == PlainOf(0x20) == Acid
    ensures RendOf(0x0100) == CleavingOf(0x40) == PlainOf(0x40) == Electric && PlainOf(0x0400) == VoidBasic
    ensures CleavingOf(0x03) == Pierce && PlainOf(0x03) == Slash
  {}

  // ----- ratings and kinds -----

  function RatingOf(item: Item): nat {
    (if item.imbued & 0x0004 != 0 then 4000 else 0) + (if item.imbued & 0x0001 != 0 then 2000 else 0)
    + (if item.imbued & 0x0002 != 0 then 1000 else 0) + (if item.armorCleaving then 400 else 0)
    + (if item.crushingBlow then 200 else 0) + (if item.bitingStrike then 100 else 0)
  }

  predicate IsLauncher(item: Item) { item.class_.MissileWeapon? && item.ammoType in {1, 2, 4} }

  predicate IsCaster(item: Item) { item.class_.WandStaffOrb? }

  const WEAPON_READY_MASK: bv32 := 0x0350_0000

  datatype Request = Request(
    items: seq<Item>, isProfiled: Item -> bool, wanted: seq<Element>, species: int,
    canDeliver: (Item, Element) -> bool, alreadyVulnerable: Element -> bool,
    warTrained: bool, voidTrained: bool, excluded: nat)

  datatype Selection = Selection(id: nat, lastResort: bool)

  // ----- what each item is good for -----

  /** Profiled, made to fight with, and not the item taken already. */
  predicate Eligible(req: Request, item: Item) {
    req.isProfiled(item) && item.validLocations & WEAPON_READY_MASK != 0 && !(req.excluded != 0 && item.id == req.excluded)
  }

  predicate Untrained(req: Request, item: Item) {
    IsCaster(item) && (if item.damageType & 0x0400 != 0 then !req.voidTrained else !req.warTrained)
  }

  predicate Usable(req: Request, item: Item) { Eligible(req, item) && !Untrained(req, item) }

  predicate Slays(req: Request, item: Item) { req.species >= 0 && item.slayer == req.species }

  function ImbuedElement(item: Item): Element { Resolve(item.imbued, item.cleaving, 0) }

  predicate Elementless(item: Item) { Resolve(item.imbued, item.cleaving, item.damageType) == NoElement }

  /** A launcher of no element pierces. */
  function Strikes(item: Item): Element {
    if Elementless(item) && IsLauncher(item) then Pierce else Resolve(item.imbued, item.cleaving, item.damageType)
  }

  /** What an item can be remembered as. */
  datatype Role = Slayer | Imbues(element: Element) | StrikesWith(of: Element) | RatedCaster | Launcher | Anything | AnyCaster

  predicate Fits(req: Request, role: Role, item: Item) {
    match role
    case Slayer =>
      Eligible(req, item) && Slays(req, item) && (Usable(req, item) || (IsCaster(item) && (req.warTrained || req.voidTrained)))
    case Imbues(e) => Usable(req, item) && ImbuedElement(item) == e != NoElement && req.canDeliver(item, e)
    case StrikesWith(e) => Usable(req, item) && Strikes(item) == e != NoElement && req.canDeliver(item, e)
    case RatedCaster => Usable(req, item) && RatingOf(item) > 0 && IsCaster(item) && Elementless(item)
    case Launcher => Usable(req, item) && IsLauncher(item)
    case Anything => Usable(req, item)
    case AnyCaster => Eligible(req, item) && IsCaster(item)
  }

  /** The last item of a role. */
  function LastFit(req: Request, items: seq<Item>, role: Role): Option<nat> {
    if items == [] then None
    else if Fits(req, role, items[|items| - 1]) then Some(items[|items| - 1].id)
    else LastFit(req, items[..|items| - 1], role)
  }

  /** A rated weapon offers its element, and a plain launcher any wanted one it
      can deliver. */
  predicate Offers(req: Request, item: Item, e: Element) {
    && Usable(req, item) && RatingOf(item) > 0 && req.canDeliver(item, e)
    && ((Strikes(item) == e && e != NoElement) || (IsLauncher(item) && Elementless(item) && e in req.wanted && e != Strikes(item)))
  }

  datatype Rated = Rated(rating: nat, id: nat)

  /** The best-rated offer, the earlier of two. */
  function Best(req: Request, items: seq<Item>, e: Element): Option<Rated> {
    if items == [] then None
    else
      var before := Best(req, items[..|items| - 1], e);
      var item := items[|items| - 1];
      if Offers(req, item, e) && RatingOf(item) > (if before.Some? then before.value.rating else 0) then Some(Rated(RatingOf(item), item.id)) else before
  }

  /** `k` is the last item of the role. */
  predicate LastAt(req: Request, items: seq<Item>, role: Role, k: int) {
    0 <= k < |items| && Fits(req, role, items[k]) && forall j :: k < j < |items| ==> !Fits(req, role, items[j])
  }

  lemma {:induction false} LastFitIsLast(req: Request, items: seq<Item>, role: Role)
    ensures LastFit(req, items, role).None? <==> forall k :: 0 <= k < |items| ==> !Fits(req, role, items[k])
    ensures LastFit(req, items, role).Some? ==> exists k :: LastAt(req, items, role, k) && 0 <= k < |items| && items[k].id == LastFit(req, items, role).value
  {
    hide Fits;
    if items != [] {
      var n := |items| - 1;
      var before := items[..n];
      LastFitIsLast(req, before, role);
      if Fits(req, role, items[n]) {
        assert LastAt(req, items, role, n);
      } else {
        hide LastFit;
        assert forall k :: 0 <= k < n ==> before[k] == items[k];
        if k :| LastAt(req, before, role, k) && 0 <= k < n && before[k].id == LastFit(req, before, role).value {
          assert LastAt(req, items, role, k);
        }
      }
    }
  }

  predicate EarliestBest(req: Request, items: seq<Item>, e: Element, k: int) {
    && 0 <= k < |items| && Offers(req, items[k], e)
    && (forall j :: 0 <= j < |items| && Offers(req, items[j], e) ==> RatingOf(items[j]) <= RatingOf(items[k]))
    && (forall j :: 0 <= j < k && Offers(req, items[j], e) ==> RatingOf(items[j]) < RatingOf(items[k]))
  }

  /** The best offer of `items` is the earliest best, and there is none only
      when nothing offers. */
  ghost predicate BestSays(req: Request, items: seq<Item>, e: Element) {
    match Best(req, items, e)
    case None => forall k :: 0 <= k < |items| ==> !Offers(req, items[k], e)
    case Some(best) => exists k :: EarliestBest(req, items, e, k) && 0 <= k < |items| && best == Rated(RatingOf(items[k]), items[k].id)
  }

  lemma BestSaysNext(req: Request, before: seq<Item>, item: Item, e: Element)
    requires BestSays(req, before, e)
    ensures BestSays(req, before + [item], e)
  {
    OffersAreRated(req, item, e);
    BestNext(req, before, item, e);
    hide Offers, RatingOf, Best, EarliestBest;
    if Best(req, before, e).Some? {
      var k :| EarliestBest(req, before, e, k) && 0 <= k < |before| && Best(req, before, e).value == Rated(RatingOf(before[k]), before[k].id);
      BestMoves(req, before, item, e, k);
    } else {
      BestBegins(req, before, item, e);
    }
  }

  lemma {:induction false} BestIsSaid(req: Request, items: seq<Item>, e: Element)
    ensures BestSays(req, items, e)
  {
    if items != [] {
      var n := |items| - 1;
      BestIsSaid(req, items[..n], e);
      hide BestSays;
      BestSaysNext(req, items[..n], items[n], e);
      assert items[..n] + [items[n]] == items;
    }
  }

  lemma BestIsEarliestBest(req: Request, items: seq<Item>, e: Element)
    ensures Best(req, items, e).None? <==> forall k :: 0 <= k < |items| ==> !Offers(req, items[k], e)
    ensures Best(req, items, e).Some? ==>
              exists k :: EarliestBest(req, items, e, k) && 0 <= k < |items| && Best(req, items, e) == Some(Rated(RatingOf(items[k]), items[k].id))
  {
    BestIsSaid(req, items, e);
    hide Best, Offers, RatingOf;
  }

  lemma BestMoves(req: Request, before: seq<Item>, item: Item, e: Element, k: int)
    requires EarliestBest(req, before, e, k)
    ensures EarliestBest(req, before + [item], e, if Offers(req, item, e) && RatingOf(item) > RatingOf(before[k]) then |before| else k)
  {
    hide Offers, RatingOf;
  }

  lemma BestBegins(req: Request, before: seq<Item>, item: Item, e: Element)
    requires forall k :: 0 <= k < |before| ==> !Offers(req, before[k], e)
    ensures Offers(req, item, e) ==> EarliestBest(req, before + [item], e, |before|)
    ensures !Offers(req, item, e) ==> forall k :: 0 <= k <= |before| ==> !Offers(req, (before + [item])[k], e)
  {
    hide Offers, RatingOf;
  }

  lemma OffersAreRated(req: Request, item: Item, e: Element)
    ensures Offers(req, item, e) ==> RatingOf(item) > 0
  {}

  // ----- the cascade -----

  datatype Stage = Vulnerable | Imbued | BestRated | PlainElement

  predicate Has(req: Request, stage: Stage, e: Element) {
    match stage
    case Vulnerable => req.alreadyVulnerable(e) && Best(req, req.items, e).Some?
    case Imbued => LastFit(req, req.items, Imbues(e)).Some?
    case BestRated => Best(req, req.items, e).Some?
    case PlainElement => LastFit(req, req.items, StrikesWith(e)).Some?
  }

  /** The first wanted element a stage has a weapon for. */
  function FirstHad(req: Request, wanted: seq<Element>, stage: Stage): Option<Element> {
    if wanted == [] then None else if Has(req, stage, wanted[0]) then Some(wanted[0]) else FirstHad(req, wanted[1..], stage)
  }

  function IdOf(found: Option<nat>): nat { if found.Some? then found.value else 0 }

  function BestId(req: Request, e: Element): nat { if Best(req, req.items, e).Some? then Best(req, req.items, e).value.id else 0 }

  function FitId(req: Request, role: Role): nat { IdOf(LastFit(req, req.items, role)) }

  /** What answers the request: each stage stands aside only when it has nothing.
      The fourth, a weapon imbued with the void, always stands aside, since there
      is none (`NoImbuementIsVoid`). */
  function Cascade(req: Request): Selection {
    if FitId(req, Slayer) != 0 then Selection(FitId(req, Slayer), false)
    else if FirstHad(req, req.wanted, Vulnerable).Some? then Selection(BestId(req, FirstHad(req, req.wanted, Vulnerable).value), false)
    else if FirstHad(req, req.wanted, Imbued).Some? then Selection(FitId(req, Imbues(FirstHad(req, req.wanted, Imbued).value)), false)
    else if LastFit(req, req.items, Imbues(VoidBasic)).Some? then Selection(FitId(req, Imbues(VoidBasic)), false)
    else if FirstHad(req, req.wanted, BestRated).Some? then Selection(BestId(req, FirstHad(req, req.wanted, BestRated).value), false)
    else if FitId(req, RatedCaster) != 0 then Selection(FitId(req, RatedCaster), false)
    else if FirstHad(req, req.wanted, PlainElement).Some? then Selection(FitId(req, StrikesWith(FirstHad(req, req.wanted, PlainElement).value)), false)
    else if FitId(req, Launcher) != 0 then Selection(FitId(req, Launcher), false)
    else
      var last, unusable := FitId(req, Anything), FitId(req, AnyCaster);
      Selection(if last != 0 then last else unusable, last != 0 || unusable != 0)
  }

  lemma NoItemIsImbuedVoid(item: Item)
    ensures ImbuedElement(item) != VoidBasic
  {}

  /** No imbuement and no cleaving is of the void, so the cascade's void stage
      never answers. */
  lemma {:induction false} NoImbuementIsVoid(req: Request, items: seq<Item>)
    ensures LastFit(req, items, Imbues(VoidBasic)) == None
  {
    hide Resolve, Usable;
    if items != [] {
      NoImbuementIsVoid(req, items[..|items| - 1]);
      NoItemIsImbuedVoid(items[|items| - 1]);
    }
  }

  /** An item the request may pick has this id. */
  ghost predicate Pickable(req: Request, id: nat) { exists k :: 0 <= k < |req.items| && Eligible(req, req.items[k]) && req.items[k].id == id }

  lemma FitsAreEligible(req: Request, role: Role, item: Item)
    requires Fits(req, role, item)
    ensures Eligible(req, item)
  {}

  lemma FitIsPickable(req: Request, role: Role)
    ensures FitId(req, role) != 0 ==> Pickable(req, FitId(req, role))
  {
    hide Fits, Eligible;
    LastFitIsLast(req, req.items, role);
    if LastFit(req, req.items, role).Some? {
      var k :| LastAt(req, req.items, role, k) && 0 <= k < |req.items| && req.items[k].id == LastFit(req, req.items, role).value;
      FitsAreEligible(req, role, req.items[k]);
    }
  }

  lemma BestIsPickable(req: Request, e: Element)
    ensures BestId(req, e) != 0 ==> Pickable(req, BestId(req, e))
  {
    BestIsEarliestBest(req, req.items, e);
    hide Best, RatingOf, Eligible;
    if Best(req, req.items, e).Some? {
      var k :| EarliestBest(req, req.items, e, k) && 0 <= k < |req.items| && Best(req, req.items, e) == Some(Rated(RatingOf(req.items[k]), req.items[k].id));
    }
  }

  /** A pick is always profiled, wieldable and not the excluded item. */
  lemma PickIsEligible(req: Request)
    ensures Cascade(req).id != 0 ==> Pickable(req, Cascade(req).id)
  {
    hide FitId, BestId, Pickable, FirstHad, LastFit;
    forall role ensures FitId(req, role) != 0 ==> Pickable(req, FitId(req, role)) { FitIsPickable(req, role); }
    forall e ensures BestId(req, e) != 0 ==> Pickable(req, BestId(req, e)) { BestIsPickable(req, e); }
  }

  // ----- what the pick is -----

  /** On the character's list, fit to fight with, and not in the other hand. */
  predicate MayBePicked(req: Request, item: Item) {
    req.isProfiled(item) && item.validLocations & 0x0350_0000 != 0 && (req.excluded == 0 || item.id != req.excluded)
  }

  /** One whose school of magic, if it casts, the character knows. */
  predicate MayBeUsed(req: Request, item: Item) {
    MayBePicked(req, item) && (item.class_ == WandStaffOrb ==> if item.damageType & 0x0400 == 0 then req.warTrained else req.voidTrained)
  }

  /** A pick is an item that may be, and never the excluded one. */
  lemma PickMayBe(req: Request)
    ensures Cascade(req).id != 0 ==>
              Cascade(req).id != req.excluded && exists k :: 0 <= k < |req.items| && MayBePicked(req, req.items[k]) && req.items[k].id == Cascade(req).id
  {
    PickIsEligible(req);
    hide Cascade;
    if Cascade(req).id != 0 {
      var k :| 0 <= k < |req.items| && Eligible(req, req.items[k]) && req.items[k].id == Cascade(req).id;
      assert MayBePicked(req, req.items[k]);
    }
  }

  /** A slayer of the monster's kind; a caster's school may be either then. */
  predicate MaySlay(req: Request, item: Item) {
    && MayBePicked(req, item) && req.species >= 0 && item.slayer == req.species
    && (item.class_ == WandStaffOrb ==> req.warTrained || req.voidTrained)
  }

  /** The last slayer of the monster's kind wins outright. */
  lemma SlayerWins(req: Request, k: nat)
    requires k < |req.items| && MaySlay(req, req.items[k]) && req.items[k].id != 0 && forall j :: k < j < |req.items| ==> !MaySlay(req, req.items[j])
    ensures Cascade(req) == Selection(req.items[k].id, false)
  {
    forall item ensures Fits(req, Slayer, item) <==> MaySlay(req, item) {}
    hide Fits, MaySlay;
    LastFitIsAt(req, req.items, Slayer, k);
    hide LastFit, FirstHad, BestId;
  }

  lemma {:induction false} LastFitIsAt(req: Request, items: seq<Item>, role: Role, k: nat)
    requires k < |items| && LastAt(req, items, role, k)
    ensures LastFit(req, items, role) == Some(items[k].id)
  {
    hide Fits;
    if k < |items| - 1 {
      assert forall j :: 0 <= j < |items| - 1 ==> items[..|items| - 1][j] == items[j];
      LastFitIsAt(req, items[..|items| - 1], role, k);
    }
  }

  /** Armour rend, critical strike, crippling blow, armour cleaving, crushing
      blow and biting strike. */
  function Bonuses(item: Item): (bonuses: seq<bool>)
    ensures |bonuses| == 6
  {
    [item.imbued & 0x0004 != 0, item.imbued & 0x0001 != 0, item.imbued & 0x0002 != 0, item.armorCleaving, item.crushingBlow, item.bitingStrike]
  }

  /** The first bonus from the n-th on that only one of them has is `x`'s. */
  predicate FirstToHave(x: seq<bool>, y: seq<bool>, n: nat)
    requires |x| == |y|
    decreases |x| - n
  {
    n < |x| && if x[n] == y[n] then FirstToHave(x, y, n + 1) else x[n]
  }

  /** A bonus is worth more than all after it together. */
  lemma RatingOrdersByBonus(a: Item, b: Item)
    ensures RatingOf(a) > RatingOf(b) <==> FirstToHave(Bonuses(a), Bonuses(b), 0)
    ensures RatingOf(a) == 0 <==> forall n :: 0 <= n < 6 ==> !Bonuses(a)[n]
  {
    RatingIsWorth(a);
    RatingIsWorth(b);
    hide RatingOf, Bonuses;
    WorthOrders(Bonuses(a), Bonuses(b));
  }

  function Worth(x: seq<bool>): int
    requires |x| == 6
  {
    (if x[0] then 4000 else 0) + (if x[1] then 2000 else 0) + (if x[2] then 1000 else 0)
    + (if x[3] then 400 else 0) + (if x[4] then 200 else 0) + (if x[5] then 100 else 0)
  }

  lemma RatingIsWorth(item: Item)
    ensures RatingOf(item) == Worth(Bonuses(item))
  {}

  lemma WorthOrders(x: seq<bool>, y: seq<bool>)
    requires |x| == |y| == 6
    ensures Worth(x) > Worth(y) <==> FirstToHave(x, y, 0)
    ensures Worth(x) == 0 <==> forall n :: 0 <= n < 6 ==> !x[n]
  {
    assert !FirstToHave(x, y, 6);
    assert FirstToHave(x, y, 5) == if x[5] == y[5] then false else x[5];
    assert FirstToHave(x, y, 4) == if x[4] == y[4] then FirstToHave(x, y, 5) else x[4];
    assert FirstToHave(x, y, 3) == if x[3] == y[3] then FirstToHave(x, y, 4) else x[3];
    assert FirstToHave(x, y, 2) == if x[2] == y[2] then FirstToHave(x, y, 3) else x[2];
    assert FirstToHave(x, y, 1) == if x[1] == y[1] then FirstToHave(x, y, 2) else x[1];
  }

  /** With no slayer, the best-rated weapon of the first wanted element the
      monster is vulnerable to already comes next. */
  lemma VulnerableComesNext(req: Request, w: nat, k: nat)
    requires FitId(req, Slayer) == 0 && w < |req.wanted| && req.alreadyVulnerable(req.wanted[w]) && EarliestBest(req, req.items, req.wanted[w], k)
    requires forall v, j :: 0 <= v < w && req.alreadyVulnerable(req.wanted[v]) && 0 <= j < |req.items| ==> !Offers(req, req.items[j], req.wanted[v])
    ensures Cascade(req) == Selection(req.items[k].id, false)
  {
    forall e ensures Best(req, req.items, e).None? <==> forall j :: 0 <= j < |req.items| ==> !Offers(req, req.items[j], e) { BestIsEarliestBest(req, req.items, e); }
    hide Offers, Best, RatingOf;
    BestIsAt(req, req.wanted[w], k);
    FirstHadAt(req, req.wanted, Vulnerable, w);
    hide FirstHad, LastFit;
  }

  lemma BestIsAt(req: Request, e: Element, k: nat)
    requires EarliestBest(req, req.items, e, k) && k < |req.items|
    ensures BestId(req, e) == req.items[k].id && Best(req, req.items, e).Some?
  {
    BestIsEarliestBest(req, req.items, e);
    hide Offers, Best, RatingOf;
    assert Best(req, req.items, e).Some?;
    var j :| EarliestBest(req, req.items, e, j) && 0 <= j < |req.items| && Best(req, req.items, e) == Some(Rated(RatingOf(req.items[j]), req.items[j].id));
    assert j == k;
  }

  lemma {:induction false} FirstHadAt(req: Request, wanted: seq<Element>, stage: Stage, w: nat)
    requires w < |wanted| && Has(req, stage, wanted[w]) && forall v :: 0 <= v < w ==> !Has(req, stage, wanted[v])
    ensures FirstHad(req, wanted, stage) == Some(wanted[w])
  {
    hide Has;
    if w > 0 { FirstHadAt(req, wanted[1..], stage, w - 1); }
  }

  /** The last resort is taken only where there is no slayer, and nothing that
      may be used launches or strikes as the fight wants. */
  lemma LastResortIsLast(req: Request, item: Item, e: Element)
    requires Cascade(req).lastResort && item in req.items && forall other :: other in req.items ==> other.id != 0
    ensures !MaySlay(req, item)
    ensures MayBeUsed(req, item) ==> !(item.class_ == MissileWeapon && item.ammoType in {1, 2, 4})
    ensures MayBeUsed(req, item) && e in req.wanted && e != NoElement && req.canDeliver(item, e) ==> ImbuedElement(item) != e && Strikes(item) != e
  {
    UsableSlayers(req, item);
    LastResortHasNone(req);
    hide Cascade;
    NoneFits(req, Slayer, item);
    NoneFits(req, Launcher, item);
    if e in req.wanted {
      NoneHad(req, req.wanted, Imbued, e);
      NoneHad(req, req.wanted, PlainElement, e);
    }
    NoneFits(req, Imbues(e), item);
    NoneFits(req, StrikesWith(e), item);
    hide MaySlay, MayBeUsed, Usable, Resolve, FitId, LastFit, FirstHad, BestId, Elementless;
  }

  lemma UsableSlayers(req: Request, item: Item)
    ensures Usable(req, item) <==> MayBeUsed(req, item)
    ensures Fits(req, Slayer, item) <==> MaySlay(req, item)
  {}

  lemma LastResortHasNone(req: Request)
    requires Cascade(req).lastResort
    ensures FitId(req, Slayer) == 0 && FitId(req, Launcher) == 0
    ensures FirstHad(req, req.wanted, Imbued).None? && FirstHad(req, req.wanted, PlainElement).None?
  {
    hide FitId, FirstHad, BestId, LastFit;
  }

  lemma NoneFits(req: Request, role: Role, item: Item)
    requires item in req.items && forall other :: other in req.items ==> other.id != 0
    ensures FitId(req, role) == 0 || LastFit(req, req.items, role).None? ==> !Fits(req, role, item)
  {
    LastFitIsLast(req, req.items, role);
    hide Fits, LastFit;
    var k :| 0 <= k < |req.items| && req.items[k] == item;
  }

  lemma {:induction false} NoneHad(req: Request, wanted: seq<Element>, stage: Stage, e: Element)
    requires e in wanted && FirstHad(req, wanted, stage).None?
    ensures !Has(req, stage, e)
  {
    hide Has;
    if wanted[0] != e { NoneHad(req, wanted[1..], stage, e); }
  }

  // ----- the ladder's order -----

  /** The rungs a weapon can stand on, the highest first: a slayer; best-rated
      for a wanted element the monster is vulnerable to already; imbued with a
      wanted element; rated for one; a rated caster of none; striking with a
      wanted element; a launcher; anything that may be used; any caster. */
  ghost predicate StandsOn(req: Request, rung: nat, item: Item) {
    if rung == 0 then Fits(req, Slayer, item)
    else if rung == 1 then exists e :: e in req.wanted && req.alreadyVulnerable(e) && Offers(req, item, e)
    else if rung == 2 then exists e :: e in req.wanted && Fits(req, Imbues(e), item)
    else if rung == 3 then exists e :: e in req.wanted && Offers(req, item, e)
    else if rung == 4 then Fits(req, RatedCaster, item)
    else if rung == 5 then exists e :: e in req.wanted && Fits(req, StrikesWith(e), item)
    else if rung == 6 then Fits(req, Launcher, item)
    else if rung == 7 then Fits(req, Anything, item)
    else rung == 8 && Fits(req, AnyCaster, item)
  }

  /** The weapon a rung answers with, if it does. */
  ghost function RungId(req: Request, rung: nat): nat {
    if rung == 0 then FitId(req, Slayer)
    else if rung == 1 then StageId(req, Vulnerable)
    else if rung == 2 then StageId(req, Imbued)
    else if rung == 3 then StageId(req, BestRated)
    else if rung == 4 then FitId(req, RatedCaster)
    else if rung == 5 then StageId(req, PlainElement)
    else if rung == 6 then FitId(req, Launcher)
    else if rung == 7 then FitId(req, Anything)
    else if rung == 8 then FitId(req, AnyCaster)
    else 0
  }

  ghost function StageId(req: Request, stage: Stage): nat {
    var had := FirstHad(req, req.wanted, stage);
    if had.None? then 0
    else if stage.Imbued? then FitId(req, Imbues(had.value))
    else if stage.PlainElement? then FitId(req, StrikesWith(had.value))
    else BestId(req, had.value)
  }

  ghost predicate AllNamed(req: Request) { forall item :: item in req.items ==> item.id != 0 }

  /** The pick stands as high as any weapon does, and is a last resort on the
      last two rungs. */
  lemma PickStandsHighest(req: Request, rung: nat, item: Item) returns (top: nat, pick: Item)
    requires AllNamed(req) && item in req.items && StandsOn(req, rung, item)
    ensures top <= rung && pick in req.items && StandsOn(req, top, pick)
    ensures Cascade(req) == Selection(pick.id, top >= 7)
  {
    hide AllNamed, StandsOn, RungId, Cascade;
    RungAnswers(req, rung, item);
    top := 0;
    while RungId(req, top) == 0
      invariant top <= rung && forall t: nat :: t < top ==> RungId(req, t) == 0
      decreases rung - top
    {
      top := top + 1;
    }
    FirstRungAnswers(req, top);
    pick := RungHolds(req, top);
  }

  lemma RungAnswers(req: Request, rung: nat, item: Item)
    requires AllNamed(req) && item in req.items && StandsOn(req, rung, item)
    ensures RungId(req, rung) != 0
  {
    hide Fits, FitId, Offers, FirstHad, BestId;
    forall role ensures Fits(req, role, item) ==> FitId(req, role) != 0 { NoneFits(req, role, item); }
    if rung in {1, 2, 3, 5} {
      var stage := if rung == 1 then Vulnerable else if rung == 2 then Imbued else if rung == 3 then BestRated else PlainElement;
      var e :| e in req.wanted && match stage
                                  case Vulnerable => req.alreadyVulnerable(e) && Offers(req, item, e)
                                  case Imbued => Fits(req, Imbues(e), item)
                                  case BestRated => Offers(req, item, e)
                                  case PlainElement => Fits(req, StrikesWith(e), item);
      StageAnswers(req, stage, e, item);
    }
  }

  lemma StageAnswers(req: Request, stage: Stage, e: Element, item: Item)
    requires AllNamed(req) && item in req.items && e in req.wanted
    requires if stage.Imbued? then Fits(req, Imbues(e), item)
             else if stage.PlainElement? then Fits(req, StrikesWith(e), item)
             else Offers(req, item, e) && (stage.Vulnerable? ==> req.alreadyVulnerable(e))
    ensures StageId(req, stage) != 0
  {
    hide Fits, Offers, Best, LastFit;
    LastFitIsLast(req, req.items, Imbues(e));
    LastFitIsLast(req, req.items, StrikesWith(e));
    BestIsEarliestBest(req, req.items, e);
    var k :| 0 <= k < |req.items| && req.items[k] == item;
    assert Has(req, stage, e);
    if FirstHad(req, req.wanted, stage).None? {
      NoneHad(req, req.wanted, stage, e);
    } else {
      var pick, had := StageHolds(req, stage);
    }
  }

  /** What a stage answers with is a weapon that does as the stage says. */
  lemma StageHolds(req: Request, stage: Stage) returns (pick: Item, e: Element)
    requires AllNamed(req) && FirstHad(req, req.wanted, stage).Some?
    ensures pick in req.items && pick.id == StageId(req, stage) && e in req.wanted
    ensures if stage.Imbued? then Fits(req, Imbues(e), pick)
            else if stage.PlainElement? then Fits(req, StrikesWith(e), pick)
            else Offers(req, pick, e) && (stage.Vulnerable? ==> req.alreadyVulnerable(e))
  {
    hide Fits, Offers, Best, LastFit, RatingOf, AllNamed;
    HadIsWanted(req, req.wanted, stage);
    e := FirstHad(req, req.wanted, stage).value;
    if stage.Imbued? {
      pick := FitHolds(req, Imbues(e));
    } else if stage.PlainElement? {
      pick := FitHolds(req, StrikesWith(e));
    } else {
      BestIsEarliestBest(req, req.items, e);
      var k :| EarliestBest(req, req.items, e, k) && 0 <= k < |req.items| && Best(req, req.items, e) == Some(Rated(RatingOf(req.items[k]), req.items[k].id));
      pick := req.items[k];
    }
  }

  lemma {:induction false} HadIsWanted(req: Request, wanted: seq<Element>, stage: Stage)
    requires FirstHad(req, wanted, stage).Some?
    ensures FirstHad(req, wanted, stage).value in wanted && Has(req, stage, FirstHad(req, wanted, stage).value)
  {
    hide Has;
    if !Has(req, stage, wanted[0]) { HadIsWanted(req, wanted[1..], stage); }
  }

  lemma FitHolds(req: Request, role: Role) returns (pick: Item)
    requires LastFit(req, req.items, role).Some?
    ensures pick in req.items && pick.id == FitId(req, role) && Fits(req, role, pick)
  {
    hide Fits, LastFit;
    LastFitIsLast(req, req.items, role);
    var k :| LastAt(req, req.items, role, k) && 0 <= k < |req.items| && req.items[k].id == LastFit(req, req.items, role).value;
    pick := req.items[k];
  }

  lemma RungHolds(req: Request, rung: nat) returns (pick: Item)
    requires AllNamed(req) && RungId(req, rung) != 0
    ensures pick in req.items && pick.id == RungId(req, rung) && StandsOn(req, rung, pick)
  {
    hide Fits, Offers, FirstHad, LastFit, BestId, AllNamed;
    var e: Element;
    if rung in {1, 2, 3, 5} {
      pick, e := StageHolds(req, if rung == 1 then Vulnerable else if rung == 2 then Imbued else if rung == 3 then BestRated else PlainElement);
    } else {
      pick := FitHolds(req, if rung == 0 then Slayer else if rung == 4 then RatedCaster else if rung == 6 then Launcher else if rung == 7 then Anything else AnyCaster);
    }
  }

  lemma FirstRungAnswers(req: Request, rung: nat)
    requires AllNamed(req) && RungId(req, rung) != 0 && forall t: nat :: t < rung ==> RungId(req, t) == 0
    ensures Cascade(req) == Selection(RungId(req, rung), rung >= 7)
  {
    NoImbuementIsVoid(req, req.items);
    hide FitId, FirstHad, BestId, LastFit, AllNamed;
    forall stage ensures FirstHad(req, req.wanted, stage).Some? ==> StageId(req, stage) != 0 { StageIsNamed(req, stage); }
    assert rung > 0 ==> RungId(req, 0) == 0;
    assert rung > 1 ==> RungId(req, 1) == 0;
    assert rung > 2 ==> RungId(req, 2) == 0;
    assert rung > 3 ==> RungId(req, 3) == 0;
    assert rung > 4 ==> RungId(req, 4) == 0;
    assert rung > 5 ==> RungId(req, 5) == 0;
    assert rung > 6 ==> RungId(req, 6) == 0;
    assert rung > 7 ==> RungId(req, 7) == 0;
  }

  lemma StageIsNamed(req: Request, stage: Stage)
    requires AllNamed(req)
    ensures FirstHad(req, req.wanted, stage).Some? ==> StageId(req, stage) != 0
  {
    if FirstHad(req, req.wanted, stage).Some? {
      var pick, e := StageHolds(req, stage);
    }
  }

  // ----- the one pass -----

  /** What is remembered per element: the weapon, and which elements have one. */
  datatype Memory = Memory(ids: map<Element, nat>, order: seq<Element>)

  function Record(memory: Memory, e: Element, id: nat): Memory {
    Memory(memory.ids[e := id], if e in memory.ids then memory.order else memory.order + [e])
  }

  /** The memory holds the last item of the role for each element. */
  ghost predicate HoldsImbues(req: Request, items: seq<Item>, memory: Memory) {
    forall e :: Listed(memory, e) && (if e in memory.ids then Some(memory.ids[e]) else None) == LastFit(req, items, Imbues(e))
  }

  ghost predicate HoldsStrikes(req: Request, items: seq<Item>, memory: Memory) {
    forall e :: Listed(memory, e) && (if e in memory.ids then Some(memory.ids[e]) else None) == LastFit(req, items, StrikesWith(e))
  }

  predicate Listed(memory: Memory, e: Element) { e in memory.order <==> e in memory.ids }

  function Held(memory: Memory, ratings: map<Element, nat>, e: Element): Option<Rated> {
    if e in memory.ids && e in ratings then Some(Rated(ratings[e], memory.ids[e])) else None
  }

  /** The memory holds the best-rated offer of each element: for those in `done`
      with the item at hand counted, for the rest without it. */
  ghost predicate HoldsBest(req: Request, items: seq<Item>, item: Item, done: set<Element>, memory: Memory, ratings: map<Element, nat>) {
    forall e :: Listed(memory, e) && (e in ratings <==> e in memory.ids)
                && Held(memory, ratings, e) == Best(req, if e in done then items + [item] else items, e)
  }

  lemma RecordLists(memory: Memory, e: Element, id: nat, other: Element)
    requires Listed(memory, other)
    ensures Listed(Record(memory, e, id), other)
    ensures other in Record(memory, e, id).ids <==> other == e || other in memory.ids
    ensures other in Record(memory, e, id).ids ==> Record(memory, e, id).ids[other] == if other == e then id else memory.ids[other]
  {}

  lemma LastFitNext(req: Request, items: seq<Item>, item: Item, role: Role)
    ensures LastFit(req, items + [item], role) == if Fits(req, role, item) then Some(item.id) else LastFit(req, items, role)
  {
    hide Fits;
    assert (items + [item])[..|items|] == items;
  }

  lemma BestNext(req: Request, items: seq<Item>, item: Item, e: Element)
    ensures Best(req, items + [item], e)
         == var before := Best(req, items, e);
            if Offers(req, item, e) && RatingOf(item) > (if before.Some? then before.value.rating else 0) then Some(Rated(RatingOf(item), item.id)) else before
  {
    hide Offers, RatingOf;
    assert (items + [item])[..|items|] == items;
  }

  /** Offers one element of the item at hand. */
  method Offer(req: Request, ghost items: seq<Item>, item: Item, e: Element, ghost done: set<Element>, memory: Memory, ratings: map<Element, nat>)
    returns (memory': Memory, ratings': map<Element, nat>)
    requires HoldsBest(req, items, item, done, memory, ratings) && Offers(req, item, e)
    ensures HoldsBest(req, items, item, done + {e}, memory', ratings')
  {
    hide Offers, RatingOf, Best;
    memory', ratings' := memory, ratings;
    BestNext(req, items, item, e);
    AgainNothing(req, items, item, e);
    OffersAreRated(req, item, e);
    assert Listed(memory, e) && (e in ratings <==> e in memory.ids);
    assert Held(memory, ratings, e) == Best(req, if e in done then items + [item] else items, e);
    var rating := RatingOf(item);
    if rating > (if e in ratings then ratings[e] else 0) {
      ratings' := ratings[e := rating];
      memory' := Record(memory, e, item.id);
      forall other
        ensures Listed(memory', other) && (other in ratings' <==> other in memory'.ids)
        ensures Held(memory', ratings', other) == Best(req, if other in done + {e} then items + [item] else items, other)
      {
        assert Listed(memory, other) && Held(memory, ratings, other) == Best(req, if other in done then items + [item] else items, other);
        RecordLists(memory, e, item.id, other);
      }
    } else {
      forall other
        ensures Listed(memory', other) && (other in ratings' <==> other in memory'.ids)
        ensures Held(memory', ratings', other) == Best(req, if other in done + {e} then items + [item] else items, other)
      {
        assert Listed(memory, other) && Held(memory, ratings, other) == Best(req, if other in done then items + [item] else items, other);
        assert Held(memory, ratings, e) == Best(req, if e in done then items + [item] else items, e);
      }
    }
  }

  /** Once counted, an item is no better than the best. */
  lemma AgainNothing(req: Request, items: seq<Item>, item: Item, e: Element)
    ensures Offers(req, item, e) ==> Best(req, items + [item], e).Some? && RatingOf(item) <= Best(req, items + [item], e).value.rating
  {
    BestNext(req, items, item, e);
    OffersAreRated(req, item, e);
    hide Offers, RatingOf, Best;
  }

  /** All the item has to offer: its own element, and what a plain launcher can
      feed. */
  method OfferAll(req: Request, ghost items: seq<Item>, item: Item, memory: Memory, ratings: map<Element, nat>)
    returns (memory': Memory, ratings': map<Element, nat>)
    requires Usable(req, item) && HoldsBest(req, items, item, {}, memory, ratings)
    ensures forall other :: HoldsBest(req, items + [item], other, {}, memory', ratings')
  {
    hide HoldsBest, Usable, RatingOf, Elementless, Resolve, IsLauncher;
    memory', ratings' := memory, ratings;
    var strikes := Strikes(item);
    ghost var done: set<Element> := {};
    if RatingOf(item) > 0 {
      if strikes != NoElement && req.canDeliver(item, strikes) {
        memory', ratings' := Offer(req, items, item, strikes, done, memory', ratings');
        done := done + {strikes};
      }
      if IsLauncher(item) && Elementless(item) {
        for i := 0 to |req.wanted|
          invariant HoldsBest(req, items, item, done, memory', ratings')
          invariant strikes != NoElement && req.canDeliver(item, strikes) ==> strikes in done
          invariant forall j :: 0 <= j < i && req.wanted[j] != strikes && req.canDeliver(item, req.wanted[j]) ==> req.wanted[j] in done
        {
          var candidate := req.wanted[i];
          if candidate == strikes || !req.canDeliver(item, candidate) { continue; }
          memory', ratings' := Offer(req, items, item, candidate, done, memory', ratings');
          done := done + {candidate};
        }
      }
    }
    OffersAreDone(req, items, item, done, memory', ratings');
  }

  /** Nothing the item offers is left out. */
  lemma OffersAreDone(req: Request, items: seq<Item>, item: Item, done: set<Element>, memory: Memory, ratings: map<Element, nat>)
    requires HoldsBest(req, items, item, done, memory, ratings) && forall e :: Offers(req, item, e) ==> e in done
    ensures forall other :: HoldsBest(req, items + [item], other, {}, memory, ratings)
  {
    hide Offers, RatingOf, Best;
    forall e ensures Listed(memory, e) && (e in ratings <==> e in memory.ids) && Held(memory, ratings, e) == Best(req, items + [item], e) {
      assert Listed(memory, e) && Held(memory, ratings, e) == Best(req, if e in done then items + [item] else items, e);
      BestNext(req, items, item, e);
    }
  }

  lemma UnusableOffersNothing(req: Request, items: seq<Item>, item: Item, memory: Memory, ratings: map<Element, nat>)
    requires !Usable(req, item) && HoldsBest(req, items, item, {}, memory, ratings)
    ensures forall other :: HoldsBest(req, items + [item], other, {}, memory, ratings)
  {
    OffersAreDone(req, items, item, {}, memory, ratings);
  }

  /** What the pass remembers by itself. */
  datatype Notes = Notes(slayer: nat, caster: nat, launcher: nat, last: nat, unusable: nat)

  ghost predicate Noted(req: Request, items: seq<Item>, notes: Notes) {
    && notes.slayer == IdOf(LastFit(req, items, Slayer)) && notes.caster == IdOf(LastFit(req, items, RatedCaster))
    && notes.launcher == IdOf(LastFit(req, items, Launcher)) && notes.last == IdOf(LastFit(req, items, Anything))
    && notes.unusable == IdOf(LastFit(req, items, AnyCaster))
  }

  ghost predicate Kept(req: Request, items: seq<Item>, imbues: Memory, strikes: Memory, best: Memory, ratings: map<Element, nat>, notes: Notes) {
    && HoldsImbues(req, items, imbues) && HoldsStrikes(req, items, strikes) && Noted(req, items, notes)
    && forall other :: HoldsBest(req, items, other, {}, best, ratings)
  }

  /** One item of the pass. */
  method Consider(req: Request, ghost items: seq<Item>, item: Item, imbues: Memory, strikes: Memory, best: Memory, ratings: map<Element, nat>, notes: Notes)
    returns (imbues': Memory, strikes': Memory, best': Memory, ratings': map<Element, nat>, notes': Notes)
    requires Kept(req, items, imbues, strikes, best, ratings, notes)
    ensures Kept(req, items + [item], imbues', strikes', best', ratings', notes')
  {
    hide HoldsImbues, HoldsStrikes, HoldsBest, LastFit, RatingOf, Resolve, Elementless;
    imbues', strikes', best', ratings', notes' := imbues, strikes, best, ratings, notes;
    ghost var more := items + [item];
    forall role ensures LastFit(req, more, role) == if Fits(req, role, item) then Some(item.id) else LastFit(req, items, role) {
      LastFitNext(req, items, item, role);
    }
    if !Eligible(req, item) {
      UnusableChangesNothing(req, items, item, imbues, strikes, best, ratings);
      return;
    }
    var launcher := IsLauncher(item);
    var caster := IsCaster(item);
    if caster {
      notes' := notes'.(unusable := item.id);
      if (req.warTrained || req.voidTrained) && Slays(req, item) { notes' := notes'.(slayer := item.id); }
      var nether := item.damageType & 0x0400 != 0;
      if if nether then !req.voidTrained else !req.warTrained {
        UnusableChangesNothing(req, items, item, imbues, strikes, best, ratings);
        return;
      }
    }
    if launcher { notes' := notes'.(launcher := item.id); }
    if Slays(req, item) { notes' := notes'.(slayer := item.id); }
    var imbued := ImbuedElement(item);
    if imbued != NoElement && req.canDeliver(item, imbued) { imbues' := Record(imbues, imbued, item.id); }
    ImbuesFollow(req, items, item, imbues, imbues');
    var element := Strikes(item);
    if element != NoElement && req.canDeliver(item, element) { strikes' := Record(strikes, element, item.id); }
    StrikesFollow(req, items, item, strikes, strikes');
    best', ratings' := OfferAll(req, items, item, best, ratings);
    if RatingOf(item) > 0 && caster && Elementless(item) { notes' := notes'.(caster := item.id); }
    notes' := notes'.(last := item.id);
  }

  lemma ImbuesFollow(req: Request, items: seq<Item>, item: Item, memory: Memory, memory': Memory)
    requires HoldsImbues(req, items, memory)
    requires var e := ImbuedElement(item);
             memory' == if Usable(req, item) && e != NoElement && req.canDeliver(item, e) then Record(memory, e, item.id) else memory
    ensures HoldsImbues(req, items + [item], memory')
  {
    hide LastFit, Resolve;
    forall e ensures Listed(memory', e) && (if e in memory'.ids then Some(memory'.ids[e]) else None) == LastFit(req, items + [item], Imbues(e)) {
      assert Listed(memory, e) && (if e in memory.ids then Some(memory.ids[e]) else None) == LastFit(req, items, Imbues(e));
      LastFitNext(req, items, item, Imbues(e));
      RecordLists(memory, ImbuedElement(item), item.id, e);
    }
  }

  lemma StrikesFollow(req: Request, items: seq<Item>, item: Item, memory: Memory, memory': Memory)
    requires HoldsStrikes(req, items, memory)
    requires var e := Strikes(item);
             memory' == if Usable(req, item) && e != NoElement && req.canDeliver(item, e) then Record(memory, e, item.id) else memory
    ensures HoldsStrikes(req, items + [item], memory')
  {
    hide LastFit, Resolve, Elementless;
    forall e ensures Listed(memory', e) && (if e in memory'.ids then Some(memory'.ids[e]) else None) == LastFit(req, items + [item], StrikesWith(e)) {
      assert Listed(memory, e) && (if e in memory.ids then Some(memory.ids[e]) else None) == LastFit(req, items, StrikesWith(e));
      LastFitNext(req, items, item, StrikesWith(e));
      RecordLists(memory, Strikes(item), item.id, e);
    }
  }

  lemma UnusableChangesNothing(req: Request, items: seq<Item>, item: Item, imbues: Memory, strikes: Memory, best: Memory, ratings: map<Element, nat>)
    requires !Usable(req, item) && HoldsImbues(req, items, imbues) && HoldsStrikes(req, items, strikes) && HoldsBest(req, items, item, {}, best, ratings)
    ensures HoldsImbues(req, items + [item], imbues) && HoldsStrikes(req, items + [item], strikes)
    ensures forall other :: HoldsBest(req, items + [item], other, {}, best, ratings)
  {
    hide HoldsImbues, HoldsStrikes, HoldsBest;
    ImbuesFollow(req, items, item, imbues, imbues);
    StrikesFollow(req, items, item, strikes, strikes);
    UnusableOffersNothing(req, items, item, best, ratings);
  }

  method FirstCommon(wanted: seq<Element>, available: seq<Element>) returns (hit: Option<Element>)
    ensures hit.Some? ==> exists k :: 0 <= k < |wanted| && hit.value == wanted[k] && wanted[k] in available && forall j :: 0 <= j < k ==> wanted[j] !in available
    ensures hit.None? ==> forall k :: 0 <= k < |wanted| ==> wanted[k] !in available
  {
    for k := 0 to |wanted|
      invariant forall j :: 0 <= j < k ==> wanted[j] !in available
    {
      if wanted[k] in available { return Some(wanted[k]); }
    }
    hit := None;
  }

  lemma {:induction false} FirstHadIs(req: Request, wanted: seq<Element>, stage: Stage, hit: Option<Element>)
    requires hit.Some? ==> exists k :: 0 <= k < |wanted| && hit.value == wanted[k] && Has(req, stage, wanted[k]) && forall j :: 0 <= j < k ==> !Has(req, stage, wanted[j])
    requires hit.None? ==> forall k :: 0 <= k < |wanted| ==> !Has(req, stage, wanted[k])
    ensures FirstHad(req, wanted, stage) == hit
  {
    hide Has;
    if wanted != [] && !Has(req, stage, wanted[0]) {
      if hit.Some? {
        var k :| 0 <= k < |wanted| && hit.value == wanted[k] && Has(req, stage, wanted[k]) && forall j :: 0 <= j < k ==> !Has(req, stage, wanted[j]);
        assert wanted[1..][k - 1] == wanted[k];
        assert forall j :: 0 <= j < k - 1 ==> wanted[1..][j] == wanted[j + 1];
      }
      FirstHadIs(req, wanted[1..], stage, hit);
    }
  }

  /** The first wanted element of a remembered order is the stage's. */
  method FirstOf(req: Request, ghost stage: Stage, order: seq<Element>) returns (hit: Option<Element>)
    requires forall e :: e in order <==> Has(req, stage, e)
    ensures hit == FirstHad(req, req.wanted, stage) && (hit.Some? ==> hit.value in order)
  {
    hide Has, FirstHad;
    hit := FirstCommon(req.wanted, order);
    FirstHadIs(req, req.wanted, stage, hit);
  }

  /** Answers what the cascade does. */
  method Select(req: Request) returns (selection: Selection)
    ensures selection == Cascade(req)
  {
    hide Kept, LastFit, Best, FirstHad, Has;
    var imbues, strikes, best := Memory(map[], []), Memory(map[], []), Memory(map[], []);
    var ratings: map<Element, nat> := map[];
    var notes := Notes(0, 0, 0, 0, 0);
    NothingKept(req);
    for i := 0 to |req.items|
      invariant Kept(req, req.items[..i], imbues, strikes, best, ratings, notes)
    {
      assert req.items[..i + 1] == req.items[..i] + [req.items[i]];
      imbues, strikes, best, ratings, notes := Consider(req, req.items[..i], req.items[i], imbues, strikes, best, ratings, notes);
    }
    assert req.items[..|req.items|] == req.items;
    KeptMeans(req, imbues, strikes, best, ratings, notes);
    if notes.slayer != 0 { return Selection(notes.slayer, false); }
    for i := 0 to |req.wanted|
      invariant forall j :: 0 <= j < i ==> !Has(req, Vulnerable, req.wanted[j])
    {
      var candidate := req.wanted[i];
      if req.alreadyVulnerable(candidate) && candidate in best.ids {
        FirstHadIs(req, req.wanted, Vulnerable, Some(candidate));
        return Selection(best.ids[candidate], false);
      }
    }
    FirstHadIs(req, req.wanted, Vulnerable, None);
    var hit := FirstOf(req, Imbued, imbues.order);
    if hit.Some? { return Selection(imbues.ids[hit.value], false); }
    if VoidBasic in imbues.ids { return Selection(imbues.ids[VoidBasic], false); }
    hit := FirstOf(req, BestRated, best.order);
    if hit.Some? { return Selection(best.ids[hit.value], false); }
    if notes.caster != 0 { return Selection(notes.caster, false); }
    hit := FirstOf(req, PlainElement, strikes.order);
    if hit.Some? { return Selection(strikes.ids[hit.value], false); }
    if notes.launcher != 0 { return Selection(notes.launcher, false); }
    selection := Selection(if notes.last != 0 then notes.last else notes.unusable, notes.last != 0 || notes.unusable != 0);
  }

  lemma NothingKept(req: Request)
    ensures Kept(req, req.items[..0], Memory(map[], []), Memory(map[], []), Memory(map[], []), map[], Notes(0, 0, 0, 0, 0))
  {}

  /** After the last item, the memories say what the cascade asks. */
  lemma KeptMeans(req: Request, imbues: Memory, strikes: Memory, best: Memory, ratings: map<Element, nat>, notes: Notes)
    requires Kept(req, req.items, imbues, strikes, best, ratings, notes)
    ensures notes == Notes(FitId(req, Slayer), FitId(req, RatedCaster), FitId(req, Launcher), FitId(req, Anything), FitId(req, AnyCaster))
    ensures forall e :: (e in imbues.order <==> Has(req, Imbued, e)) && (e in imbues.order <==> e in imbues.ids)
    ensures forall e :: e in imbues.ids ==> imbues.ids[e] == FitId(req, Imbues(e))
    ensures forall e :: e in imbues.ids <==> LastFit(req, req.items, Imbues(e)).Some?
    ensures forall e :: (e in strikes.order <==> Has(req, PlainElement, e)) && (e in strikes.order <==> e in strikes.ids)
    ensures forall e :: e in strikes.ids ==> strikes.ids[e] == FitId(req, StrikesWith(e))
    ensures forall e :: (e in best.order <==> Has(req, BestRated, e)) && (e in best.order <==> e in best.ids)
    ensures forall e :: e in best.ids ==> best.ids[e] == BestId(req, e)
    ensures forall e :: Has(req, Vulnerable, e) <==> req.alreadyVulnerable(e) && e in best.ids
  {
    hide LastFit, Best;
    var any := Item(0, OtherClass, 0, 0, 0, 0, 0, 0, false, false, false);
    assert HoldsBest(req, req.items, any, {}, best, ratings);
    forall e
      ensures Listed(imbues, e) && (if e in imbues.ids then Some(imbues.ids[e]) else None) == LastFit(req, req.items, Imbues(e))
      ensures Listed(strikes, e) && (if e in strikes.ids then Some(strikes.ids[e]) else None) == LastFit(req, req.items, StrikesWith(e))
      ensures Listed(best, e) && (e in ratings <==> e in best.ids) && Held(best, ratings, e) == Best(req, req.items, e)
    {}
  }
}
