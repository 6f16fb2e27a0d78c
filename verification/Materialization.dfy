/**
 The materialization audit and its repair (scripts/character_materialization_readiness.py).
 The snapshot is what the queries select; the repair is the effect of the guarded
 transaction on those rows.
 */
module Materialization {
  import opened Wrappers

  datatype Domain = Player | Companion

  datatype Character = Character(pid: int, room: int)

  datatype Item = Item(rowId: int, owner: int, vnum: int, parent: Option<int>, itemType: Option<int>, domain: Domain,
                       scope: int)

  datatype Pet = Pet(
    rowId: int, owner: int, mob: int, order: int, hit: int, maxHit: int, mana: int, maxMana: int,
    vitality: int, maxVitality: int, charm: int, room: int)

  datatype Snapshot = Snapshot(characters: seq<Character>, items: seq<Item>, pets: seq<Pet>, petItems: seq<Item>)

  datatype Kind =
    | UnknownObject(domain: Domain)
    | InvalidParent(domain: Domain)
    | InvalidNesting(domain: Domain)
    | ItemType(domain: Domain)
    | PetUnknownMobile
    | PetState
    | PetInvalidBounds

  datatype Finding = Finding(
    kind: Kind, owner: int, rowId: int, vnum: int, currentA: int, expectedA: int,
    currentB: int, expectedB: int, childCount: nat, repairable: bool)

  /** Prototype types by vnum and the types that may hold other items. */
  datatype Catalog = Catalog(objectTypes: map<int, int>, containers: set<int>, mobiles: set<int>)

  const MAX_PETS := 32

  // ----- items -----

  /** `{item.row_id: item for item in items}` */
  function ById(items: seq<Item>): map<int, Item> {
    if items == [] then map[] else ById(items[..|items| - 1])[items[|items| - 1].rowId := items[|items| - 1]]
  }

  function ChildCount(items: seq<Item>, id: int): nat {
    if items == [] then 0
    else ChildCount(items[..|items| - 1], id) + if items[|items| - 1].parent == Some(id) then 1 else 0
  }

  function UnknownFindings(items: seq<Item>, catalog: Catalog): seq<Finding> {
    if items == [] then []
    else
      var item := items[|items| - 1];
      UnknownFindings(items[..|items| - 1], catalog)
      + if item.vnum in catalog.objectTypes then []
        else [Finding(UnknownObject(item.domain), item.owner, item.rowId, item.vnum, -1, -1, 0, 0, 0, false)]
  }

  function Effective(item: Item, canonical: int): int {
    if item.itemType.Some? then item.itemType.value else canonical
  }

  predicate SameHolder(parent: Item, child: Item) {
    parent.owner == child.owner && parent.scope == child.scope
  }

  /** The parent's own type keeps it from holding items although its prototype may. */
  predicate MisTyped(parent: Item, catalog: Catalog) {
    && parent.vnum in catalog.objectTypes
    && Effective(parent, catalog.objectTypes[parent.vnum]) !in catalog.containers
  }

  predicate Repairable(parent: Item, catalog: Catalog)
    requires parent.vnum in catalog.objectTypes
  {
    parent.itemType.Some? && catalog.objectTypes[parent.vnum] in catalog.containers
  }

  function ParentFinding(items: seq<Item>, parent: Item, catalog: Catalog): Finding
    requires parent.vnum in catalog.objectTypes
  {
    var canonical := catalog.objectTypes[parent.vnum];
    var repairable := Repairable(parent, catalog);
    Finding(if repairable then ItemType(parent.domain) else InvalidNesting(parent.domain),
            parent.owner, parent.rowId, parent.vnum, Effective(parent, canonical), canonical,
            0, 0, ChildCount(items, parent.rowId), repairable)
  }

  function OrphanFinding(child: Item): Finding
    requires child.parent.Some?
  {
    Finding(InvalidParent(child.domain), child.owner, child.rowId, child.vnum, child.parent.value, -1, 0, 0, 0, false)
  }

  /** The findings of the parent loop over the first `n` items, and the parents it has reported. */
  function Scan(items: seq<Item>, catalog: Catalog, n: nat): (seq<Finding>, set<int>)
    requires n <= |items|
  {
    if n == 0 then ([], {})
    else
      var (findings, reported) := Scan(items, catalog, n - 1);
      var child := items[n - 1];
      if child.parent.None? || child.parent.value in reported then (findings, reported)
      else if child.parent.value !in ById(items) || !SameHolder(ById(items)[child.parent.value], child) then
        (findings + [OrphanFinding(child)], reported)
      else
        var parent := ById(items)[child.parent.value];
        if MisTyped(parent, catalog) then
          (findings + [ParentFinding(items, parent, catalog)], reported + {parent.rowId})
        else (findings, reported)
  }

  function ItemFindings(items: seq<Item>, catalog: Catalog): seq<Finding> {
    UnknownFindings(items, catalog) + Scan(items, catalog, |items|).0
  }

  /** `_item_findings` */
  method FindItems(items: seq<Item>, catalog: Catalog) returns (findings: seq<Finding>)
    ensures findings == ItemFindings(items, catalog)
  {
    findings := [];
    var byId: map<int, Item> := map[];
    for i := 0 to |items|
      invariant byId == ById(items[..i])
    {
      assert items[..i + 1][..i] == items[..i];
      byId := byId[items[i].rowId := items[i]];
    }
    assert items[..|items|] == items;
    var children: map<int, nat> := map[];
    for i := 0 to |items|
      invariant forall id :: (if id in children then children[id] else 0) == ChildCount(items[..i], id)
      invariant findings == UnknownFindings(items[..i], catalog)
    {
      assert items[..i + 1][..i] == items[..i];
      var item := items[i];
      if item.parent.Some? {
        var id := item.parent.value;
        children := children[id := (if id in children then children[id] else 0) + 1];
      }
      if item.vnum !in catalog.objectTypes {
        findings := findings + [Finding(UnknownObject(item.domain), item.owner, item.rowId, item.vnum, -1, -1, 0, 0, 0,
                                        false)];
      }
    }
    var reported: set<int> := {};
    for i := 0 to |items|
      invariant findings == UnknownFindings(items, catalog) + Scan(items, catalog, i).0
      invariant reported == Scan(items, catalog, i).1
    {
      var child := items[i];
      if child.parent.None? || child.parent.value in reported {
        continue;
      }
      if child.parent.value !in byId || !SameHolder(byId[child.parent.value], child) {
        findings := findings + [OrphanFinding(child)];
        continue;
      }
      var parent := byId[child.parent.value];
      if parent.vnum !in catalog.objectTypes {
        continue;
      }
      var canonical := catalog.objectTypes[parent.vnum];
      var effective := Effective(parent, canonical);
      if effective in catalog.containers {
        continue;
      }
      var repairable := parent.itemType.Some? && canonical in catalog.containers;
      var kind := if repairable then ItemType(parent.domain) else InvalidNesting(parent.domain);
      ByIdKey(items, child.parent.value);
      var count := if parent.rowId in children then children[parent.rowId] else 0;
      findings := findings + [Finding(kind, parent.owner, parent.rowId, parent.vnum, effective, canonical, 0, 0, count,
                                      repairable)];
      reported := reported + {parent.rowId};
    }
  }

  lemma {:induction false} ByIdKey(items: seq<Item>, id: int)
    requires id in ById(items)
    ensures ById(items)[id] in items && ById(items)[id].rowId == id
  {
    var n := |items| - 1;
    if items[n].rowId != id {
      ByIdKey(items[..n], id);
    }
  }

  /** Every listing of an id is of one table row: the query's parent join can list a row again, with another parent. */
  ghost predicate OneRowPerId(items: seq<Item>) {
    forall i, j | 0 <= i < |items| && 0 <= j < |items| && items[i].rowId == items[j].rowId ::
      items[i] == items[j].(parent := items[i].parent)
  }

  lemma {:induction false} ByIdFinds(items: seq<Item>, k: nat)
    requires OneRowPerId(items) && k < |items|
    ensures items[k].rowId in ById(items) && ById(items)[items[k].rowId].(parent := items[k].parent) == items[k]
  {
    var n := |items| - 1;
    if k < n && items[n].rowId != items[k].rowId {
      ByIdFinds(items[..n], k);
    }
  }

  // ----- what the item findings mean -----

  predicate ChildHealthy(items: seq<Item>, catalog: Catalog, child: Item) {
    child.parent.Some? ==>
      && child.parent.value in ById(items) && SameHolder(ById(items)[child.parent.value], child)
      && !MisTyped(ById(items)[child.parent.value], catalog)
  }

  /** Every prototype known, every child in a present container of the same holder. */
  ghost predicate Healthy(items: seq<Item>, catalog: Catalog) {
    forall i | 0 <= i < |items| :: items[i].vnum in catalog.objectTypes && ChildHealthy(items, catalog, items[i])
  }

  lemma {:induction false} UnknownsAreListed(items: seq<Item>, catalog: Catalog)
    ensures UnknownFindings(items, catalog) == [] <==>
              forall i | 0 <= i < |items| :: items[i].vnum in catalog.objectTypes
    ensures forall f | f in UnknownFindings(items, catalog) :: !f.repairable && f.kind.UnknownObject?
  {
    if items != [] {
      UnknownsAreListed(items[..|items| - 1], catalog);
    }
  }

  lemma {:induction false} UnknownIsUnrepairable(items: seq<Item>, catalog: Catalog)
    requires UnknownFindings(items, catalog) != []
    ensures exists f | f in ItemFindings(items, catalog) :: !f.repairable
  {
    UnknownsAreListed(items, catalog);
    assert UnknownFindings(items, catalog)[0] in ItemFindings(items, catalog);
  }

  /** The parent loop over the first `n` items is silent exactly if their parents are in order. */
  lemma {:induction false} ScanSilent(items: seq<Item>, catalog: Catalog, n: nat)
    requires n <= |items|
    ensures Scan(items, catalog, n).0 == [] <==> forall i | 0 <= i < n :: ChildHealthy(items, catalog, items[i])
    ensures Scan(items, catalog, n).0 == [] ==> Scan(items, catalog, n).1 == {}
  {
    if n > 0 {
      ScanSilent(items, catalog, n - 1);
    }
  }

  lemma {:induction false} CleanIsHealthy(items: seq<Item>, catalog: Catalog)
    ensures ItemFindings(items, catalog) == [] <==> Healthy(items, catalog)
  {
    UnknownsAreListed(items, catalog);
    ScanSilent(items, catalog, |items|);
  }

  /** A child some earlier sibling has shielded from the holder check. */
  predicate Shielded(items: seq<Item>, catalog: Catalog, child: Item) {
    && child.parent.Some? && child.parent.value in ById(items)
    && MisTyped(ById(items)[child.parent.value], catalog)
    && ById(items)[child.parent.value].vnum in catalog.objectTypes
    && Repairable(ById(items)[child.parent.value], catalog)
  }

  /** The finding about the parent with this id. */
  function FindingFor(items: seq<Item>, catalog: Catalog, id: int): Finding
    requires id in ById(items) && ById(items)[id].vnum in catalog.objectTypes
  {
    ParentFinding(items, ById(items)[id], catalog)
  }

  predicate ReportedWell(items: seq<Item>, catalog: Catalog, findings: seq<Finding>, id: int) {
    && id in ById(items) && MisTyped(ById(items)[id], catalog)
    && Repairable(ById(items)[id], catalog) && FindingFor(items, catalog, id) in findings
  }

  /**
   What a scan with only repairable findings has established: each finding is about one
   reported, mistyped, repairable parent, and every child is in order or under such a parent.
   */
  ghost predicate ScanRepairable(items: seq<Item>, catalog: Catalog, n: nat, findings: seq<Finding>, reported: set<int>)
  {
    && n <= |items|
    && (forall id | id in reported :: ReportedWell(items, catalog, findings, id))
    && (forall f | f in findings :: f.rowId in reported && f.rowId in ById(items)
                                    && ById(items)[f.rowId].vnum in catalog.objectTypes
                                       && f == FindingFor(items, catalog, f.rowId))
    && (forall i | 0 <= i < n && items[i].parent.Some? ::
          items[i].parent.value in reported || ChildHealthy(items, catalog, items[i]))
  }

  /** What one more item adds to the scan. */
  lemma {:induction false} LastScanned(items: seq<Item>, catalog: Catalog, n: nat)
    requires 0 < n <= |items|
    ensures var child, before, after := items[n - 1], Scan(items, catalog, n - 1), Scan(items, catalog, n);
            && (forall f | f in before.0 :: f in after.0)
            && (child.parent.Some? && child.parent.value !in before.1 ==>
                  if child.parent.value !in ById(items) || !SameHolder(ById(items)[child.parent.value], child) then
                    OrphanFinding(child) in after.0
                  else
                    var parent := ById(items)[child.parent.value];
                    MisTyped(parent, catalog) ==> ParentFinding(items, parent, catalog) in after.0)
  {
  }

  lemma {:induction false} ScanWithRepairs(items: seq<Item>, catalog: Catalog, n: nat)
    requires n <= |items| && forall f | f in Scan(items, catalog, n).0 :: f.repairable
    ensures ScanRepairable(items, catalog, n, Scan(items, catalog, n).0, Scan(items, catalog, n).1)
  {
    if n > 0 {
      LastScanned(items, catalog, n);
      ScanWithRepairs(items, catalog, n - 1);
      var child := items[n - 1];
      if child.parent.Some? && child.parent.value in ById(items) {
        ByIdKey(items, child.parent.value);
      }
    }
  }

  // ----- repairing items -----

  /** The row an update clause for `finding` selects. */
  predicate Selects(finding: Finding, item: Item) {
    && finding.kind == ItemType(item.domain) && finding.rowId == item.rowId && finding.owner == item.owner
    && finding.vnum == item.vnum && item.itemType == Some(finding.currentA)
  }

  function RepairItem(item: Item, findings: set<Finding>): Item {
    if exists f | f in findings :: Selects(f, item) then item.(itemType := None) else item
  }

  function RepairItems(items: seq<Item>, findings: set<Finding>): (r: seq<Item>)
    ensures |r| == |items| && forall i | 0 <= i < |r| :: r[i] == RepairItem(items[i], findings)
  {
    seq(|items|, i requires 0 <= i < |items| => RepairItem(items[i], findings))
  }

  lemma {:induction false} ByIdRepaired(items: seq<Item>, findings: set<Finding>)
    ensures ById(RepairItems(items, findings)).Keys == ById(items).Keys
    ensures forall id | id in ById(items) ::
              ById(RepairItems(items, findings))[id] == RepairItem(ById(items)[id], findings)
  {
    if items != [] {
      var n := |items| - 1;
      assert RepairItems(items, findings)[..n] == RepairItems(items[..n], findings);
      ByIdRepaired(items[..n], findings);
    }
  }

  ghost predicate OfDomain(items: seq<Item>, domain: Domain) {
    forall i | 0 <= i < |items| :: items[i].domain == domain
  }

  /** The findings of this domain among `all` are exactly those of `items`. */
  ghost predicate Restricts(all: set<Finding>, items: seq<Item>, domain: Domain, catalog: Catalog) {
    forall f: Finding | f.kind == ItemType(domain) :: f in all <==> f in ItemFindings(items, catalog)
  }

  /** The children of every parent that is to be retyped have its owner and scope. */
  ghost predicate ChildrenAgree(items: seq<Item>, catalog: Catalog) {
    forall i | 0 <= i < |items| && Shielded(items, catalog, items[i]) ::
      SameHolder(ById(items)[items[i].parent.value], items[i])
  }

  lemma {:induction false} ReportedExactly(items: seq<Item>, catalog: Catalog, domain: Domain, all: set<Finding>,
                                           id: int)
    requires OneRowPerId(items) && OfDomain(items, domain) && Restricts(all, items, domain, catalog)
    requires forall f | f in ItemFindings(items, catalog) :: f.repairable
    requires id in ById(items)
    ensures (exists f | f in all :: Selects(f, ById(items)[id])) <==> id in Scan(items, catalog, |items|).1
  {
    var (findings, reported) := Scan(items, catalog, |items|);
    var item := ById(items)[id];
    ByIdKey(items, id);
    UnknownsAreListed(items, catalog);
    assert forall f | f in findings :: f in ItemFindings(items, catalog);
    ScannedRepairable(items, catalog);
    if id in reported {
      assert Selects(FindingFor(items, catalog, id), item);
      assert FindingFor(items, catalog, id) in all;
    }
    if exists f | f in all :: Selects(f, item) {
      var f :| f in all && Selects(f, item);
      assert f in ItemFindings(items, catalog) && f in findings;
    }
  }

  /**
   With only repairable findings, the repaired items are clean exactly if the shielded
   children agree with their parents.
   */
  lemma {:induction false} ItemsConverge(items: seq<Item>, catalog: Catalog, domain: Domain, all: set<Finding>)
    requires OneRowPerId(items) && OfDomain(items, domain) && Restricts(all, items, domain, catalog)
    requires forall f | f in ItemFindings(items, catalog) :: f.repairable
    ensures ItemFindings(RepairItems(items, all), catalog) == [] <==> ChildrenAgree(items, catalog)
  {
    var repaired := RepairItems(items, all);
    UnknownsAreListed(items, catalog);
    CleanIsHealthy(repaired, catalog);
    ByIdRepaired(items, all);
    if UnknownFindings(items, catalog) != [] {
      UnknownIsUnrepairable(items, catalog);
    }
    forall i | 0 <= i < |items|
      ensures repaired[i].vnum in catalog.objectTypes
      ensures ChildHealthy(repaired, catalog, repaired[i]) <==>
              (Shielded(items, catalog, items[i]) ==> SameHolder(ById(items)[items[i].parent.value], items[i]))
    {
      ChildConverges(items, catalog, domain, all, i);
    }
  }

  lemma {:induction false} ChildConverges(items: seq<Item>, catalog: Catalog, domain: Domain, all: set<Finding>, i: nat)
    requires OneRowPerId(items) && OfDomain(items, domain) && Restricts(all, items, domain, catalog)
    requires forall f | f in ItemFindings(items, catalog) :: f.repairable
    requires i < |items|
    ensures ChildHealthy(RepairItems(items, all), catalog, RepairItem(items[i], all)) <==>
            (Shielded(items, catalog, items[i]) ==> SameHolder(ById(items)[items[i].parent.value], items[i]))
  {
    hide UnknownFindings, ById, ItemFindings, Scan;
    var (findings, reported) := Scan(items, catalog, |items|);
    ScannedRepairable(items, catalog);
    ByIdRepaired(items, all);
    var child := items[i];
    assert RepairItem(child, all).parent == child.parent;
    if child.parent.Some? {
      assert child.parent.value in reported || ChildHealthy(items, catalog, child);
      assert child.parent.value in reported ==> ReportedWell(items, catalog, findings, child.parent.value);
      ReportedExactly(items, catalog, domain, all, child.parent.value);
      var parent := ById(items)[child.parent.value];
      assert SameHolder(RepairItem(parent, all), RepairItem(child, all)) == SameHolder(parent, child);
      if child.parent.value in reported {
        assert RepairItem(parent, all).itemType.None?;
        assert !MisTyped(RepairItem(parent, all), catalog);
        assert Shielded(items, catalog, child);
      } else {
        assert RepairItem(parent, all) == parent;
        assert ChildHealthy(RepairItems(items, all), catalog, RepairItem(child, all));
      }
    }
  }

  lemma {:induction false} ScannedRepairable(items: seq<Item>, catalog: Catalog)
    requires forall f | f in ItemFindings(items, catalog) :: f.repairable
    ensures var (findings, reported) := Scan(items, catalog, |items|);
            ScanRepairable(items, catalog, |items|, findings, reported)
  {
    assert forall f | f in Scan(items, catalog, |items|).0 :: f in ItemFindings(items, catalog);
    ScanWithRepairs(items, catalog, |items|);
  }

  // ----- pets -----

  function Rooms(characters: seq<Character>): map<int, int> {
    if characters == [] then map[]
    else Rooms(characters[..|characters| - 1])[characters[|characters| - 1].pid := characters[|characters| - 1].room]
  }

  predicate OtherBounds(pet: Pet, duplicate: bool) {
    && 0 <= pet.order < MAX_PETS && !duplicate && pet.maxHit > 0 && pet.hit >= 0
    && 0 <= pet.mana <= pet.maxMana && 0 <= pet.vitality <= pet.maxVitality
    && pet.charm >= -1 && pet.room > 0
  }

  function Orders(pets: seq<Pet>): set<(int, int)> {
    set pet | pet in pets :: (pet.owner, pet.order)
  }

  function Min(a: int, b: int): int {
    if a <= b then a else b
  }

  function PetStateFinding(pet: Pet, room: int): Finding {
    Finding(PetState, pet.owner, pet.rowId, pet.mob, pet.room, room, pet.hit, Min(pet.hit, pet.maxHit), 0, true)
  }

  /** The findings of the pet loop for one pet. */
  function PetFindings(pet: Pet, rooms: map<int, int>, catalog: Catalog, duplicate: bool): seq<Finding> {
    var bounds := OtherBounds(pet, duplicate);
    var housed := pet.owner in rooms && rooms[pet.owner] > 0;
    var wrong := pet.hit > pet.maxHit || (pet.owner in rooms && pet.room != rooms[pet.owner]);
    (if pet.mob in catalog.mobiles then []
     else [Finding(PetUnknownMobile, pet.owner, pet.rowId, pet.mob, -1, -1, 0, 0, 0, false)])
    + (if bounds && housed && wrong then [PetStateFinding(pet, rooms[pet.owner])]
       else if !bounds || pet.hit > pet.maxHit || !housed then
         [Finding(PetInvalidBounds, pet.owner, pet.rowId, pet.mob, pet.room,
                  if pet.owner in rooms then rooms[pet.owner] else -1, pet.hit, pet.maxHit, 0, false)]
       else [])
  }

  function AllPetFindings(pets: seq<Pet>, rooms: map<int, int>, catalog: Catalog): seq<Finding> {
    if pets == [] then []
    else
      var rest, pet := pets[..|pets| - 1], pets[|pets| - 1];
      AllPetFindings(rest, rooms, catalog) + PetFindings(pet, rooms, catalog, (pet.owner, pet.order) in Orders(rest))
  }

  predicate PetSelected(finding: Finding, pet: Pet, rooms: map<int, int>) {
    && finding.kind == PetState && finding.rowId == pet.rowId && finding.owner == pet.owner && finding.vnum == pet.mob
    && finding.currentA == pet.room && finding.currentB == pet.hit
    && pet.owner in rooms && rooms[pet.owner] == finding.expectedA
  }

  /** `CASE id` of the update: the selecting finding's room and hit points. */
  function RepairPet(pet: Pet, rooms: map<int, int>, findings: set<Finding>): (r: Pet)
    ensures r == pet.(room := r.room, hit := r.hit)
  {
    if exists f | f in findings :: PetSelected(f, pet, rooms) && f.expectedB == Min(pet.hit, pet.maxHit)
    then pet.(room := rooms[pet.owner], hit := Min(pet.hit, pet.maxHit))
    else pet
  }

  function RepairPets(pets: seq<Pet>, rooms: map<int, int>, findings: set<Finding>): (r: seq<Pet>)
    ensures |r| == |pets| && forall i | 0 <= i < |r| :: r[i] == RepairPet(pets[i], rooms, findings)
  {
    seq(|pets|, i requires 0 <= i < |pets| => RepairPet(pets[i], rooms, findings))
  }

  lemma {:induction false} RepairKeepsOrders(pets: seq<Pet>, rooms: map<int, int>, findings: set<Finding>)
    ensures Orders(RepairPets(pets, rooms, findings)) == Orders(pets)
  {
    var repaired := RepairPets(pets, rooms, findings);
    forall order
      ensures order in Orders(repaired) <==> order in Orders(pets)
    {
      if order in Orders(pets) {
        var i :| 0 <= i < |pets| && (pets[i].owner, pets[i].order) == order;
        assert repaired[i] in repaired;
      }
      if order in Orders(repaired) {
        var i :| 0 <= i < |repaired| && (repaired[i].owner, repaired[i].order) == order;
        assert pets[i] in pets;
      }
    }
  }

  /** Pets whose findings are all repairable are repaired for good. */
  lemma {:induction false} PetsConverge(pets: seq<Pet>, rooms: map<int, int>, catalog: Catalog, all: set<Finding>)
    requires forall f | f in AllPetFindings(pets, rooms, catalog) :: f.repairable && f in all
    ensures AllPetFindings(RepairPets(pets, rooms, all), rooms, catalog) == []
  {
    hide PetFindings, RepairPet;
    if pets != [] {
      var n := |pets| - 1;
      var pet, duplicate := pets[n], (pets[n].owner, pets[n].order) in Orders(pets[..n]);
      var findings := PetFindings(pet, rooms, catalog, duplicate);
      assert forall f | f in findings :: f in AllPetFindings(pets, rooms, catalog);
      assert forall f | f in AllPetFindings(pets[..n], rooms, catalog) :: f in AllPetFindings(pets, rooms, catalog);
      PetsConverge(pets[..n], rooms, catalog, all);
      RepairKeepsOrders(pets[..n], rooms, all);
      assert RepairPets(pets, rooms, all)[..n] == RepairPets(pets[..n], rooms, all);
      OnePetConverges(pet, rooms, catalog, duplicate, all);
      var repaired := RepairPets(pets, rooms, all);
      var last := repaired[n];
      assert last == RepairPet(pet, rooms, all) && last.owner == pet.owner && last.order == pet.order;
      hide RepairPets, Orders;
      assert AllPetFindings(repaired, rooms, catalog) ==
             AllPetFindings(repaired[..n], rooms, catalog) + PetFindings(last, rooms, catalog, duplicate);
    }
  }

  lemma {:induction false} OnePetConverges(pet: Pet, rooms: map<int, int>, catalog: Catalog, duplicate: bool,
                                           all: set<Finding>)
    requires forall f | f in PetFindings(pet, rooms, catalog, duplicate) :: f.repairable && f in all
    ensures PetFindings(RepairPet(pet, rooms, all), rooms, catalog, duplicate) == []
  {
    var findings := PetFindings(pet, rooms, catalog, duplicate);
    if findings != [] {
      assert findings[0] in findings;
      var state := findings[|findings| - 1];
      assert state in findings;
      assert state == PetStateFinding(pet, rooms[pet.owner]);
      assert PetSelected(state, pet, rooms);
    }
  }

  // ----- the audit -----

  function Elements(s: seq<Finding>): set<Finding> {
    set f | f in s
  }

  /** The order of the kinds' names. */
  function KindRank(kind: Kind): nat {
    match kind
    case PetInvalidBounds => 0
    case InvalidNesting(Companion) => 1
    case InvalidParent(Companion) => 2
    case ItemType(Companion) => 3
    case PetState => 4
    case PetUnknownMobile => 5
    case UnknownObject(Companion) => 6
    case InvalidNesting(Player) => 7
    case InvalidParent(Player) => 8
    case ItemType(Player) => 9
    case UnknownObject(Player) => 10
  }

  /** The fields of a finding in declaration order, which is the order it is compared by. */
  function FieldsOf(f: Finding): (r: seq<int>)
    ensures |r| == 10
  {
    [KindRank(f.kind), f.owner, f.rowId, f.vnum, f.currentA, f.expectedA, f.currentB, f.expectedB, f.childCount,
     if f.repairable then 1 else 0]
  }

  predicate LessFields(a: seq<int>, b: seq<int>)
    requires |a| == |b|
  {
    a != [] && (a[0] < b[0] || (a[0] == b[0] && LessFields(a[1..], b[1..])))
  }

  /** `<` on findings. */
  predicate Precedes(f: Finding, g: Finding) {
    LessFields(FieldsOf(f), FieldsOf(g))
  }

  lemma {:induction false} FieldsAreOrdered(a: seq<int>, b: seq<int>, c: seq<int>)
    requires |a| == |b| == |c|
    ensures LessFields(a, b) || a == b || LessFields(b, a)
    ensures LessFields(a, b) && LessFields(b, c) ==> LessFields(a, c)
    ensures !LessFields(a, a)
  {
    if a != [] {
      FieldsAreOrdered(a[1..], b[1..], c[1..]);
      assert a[0] == b[0] && a[1..] == b[1..] ==> a == b by { assert a == [a[0]] + a[1..] && b == [b[0]] + b[1..]; }
    }
  }

  lemma {:induction false} FieldsTellApart(f: Finding, g: Finding)
    requires FieldsOf(f) == FieldsOf(g)
    ensures f == g
  {
    var x, y := FieldsOf(f), FieldsOf(g);
    assert x[0] == y[0] && x[1] == y[1] && x[2] == y[2] && x[3] == y[3] && x[4] == y[4] && x[5] == y[5]
           && x[6] == y[6] && x[7] == y[7] && x[8] == y[8] && x[9] == y[9];
  }

  lemma {:induction false} FirstFinding(findings: set<Finding>) returns (first: Finding)
    requires findings != {}
    ensures first in findings && forall f | f in findings :: f == first || Precedes(first, f)
  {
    hide FieldsOf, LessFields;
    var f :| f in findings;
    if findings == {f} {
      first := f;
    } else {
      var rest := FirstFinding(findings - {f});
      FieldsAreOrdered(FieldsOf(f), FieldsOf(rest), FieldsOf(f));
      if FieldsOf(f) == FieldsOf(rest) {
        FieldsTellApart(f, rest);
      }
      first := if Precedes(f, rest) then f else rest;
      forall g | g in findings
        ensures g == first || Precedes(first, g)
      {
        FieldsAreOrdered(FieldsOf(f), FieldsOf(rest), FieldsOf(g));
        assert g == f || g in findings - {f};
      }
    }
  }

  /** Every element once, in order. */
  ghost predicate Sorted(list: seq<Finding>) {
    forall i, j | 0 <= i < j < |list| :: Precedes(list[i], list[j])
  }

  /** `sorted(set(findings))` */
  method SortFindings(findings: set<Finding>) returns (list: seq<Finding>)
    ensures Sorted(list) && Elements(list) == findings
  {
    hide Precedes;
    list := [];
    var rest := findings;
    while rest != {}
      invariant rest <= findings && Elements(list) == findings - rest && Sorted(list)
      invariant forall f, g | f in list && g in rest :: Precedes(f, g)
      decreases rest
    {
      ghost var first := FirstFinding(rest);
      var f :| f in rest && forall g | g in rest :: g == f || Precedes(f, g);
      assert Elements(list + [f]) == Elements(list) + {f};
      list := list + [f];
      rest := rest - {f};
    }
  }

  /** All findings; `evaluate` lists them in order. */
  function Audit(s: Snapshot, catalog: Catalog): set<Finding> {
    Elements(ItemFindings(s.items, catalog)) + Elements(ItemFindings(s.petItems, catalog))
    + Elements(AllPetFindings(s.pets, Rooms(s.characters), catalog))
  }

  /** `evaluate` */
  method Evaluate(s: Snapshot, catalog: Catalog) returns (findings: seq<Finding>)
    ensures Elements(findings) == Audit(s, catalog) && Sorted(findings)
  {
    var itemFindings := FindItems(s.items, catalog);
    var petItemFindings := FindItems(s.petItems, catalog);
    var rooms: map<int, int> := map[];
    for i := 0 to |s.characters|
      invariant rooms == Rooms(s.characters[..i])
    {
      assert s.characters[..i + 1][..i] == s.characters[..i];
      rooms := rooms[s.characters[i].pid := s.characters[i].room];
    }
    assert s.characters[..|s.characters|] == s.characters;
    var petFindings := FindPets(s.pets, rooms, catalog);
    findings := SortFindings(Elements(itemFindings) + Elements(petItemFindings) + Elements(petFindings));
  }

  /** The pet loop of `evaluate`. */
  method FindPets(pets: seq<Pet>, rooms: map<int, int>, catalog: Catalog) returns (findings: seq<Finding>)
    ensures findings == AllPetFindings(pets, rooms, catalog)
  {
    findings := [];
    var orders: set<(int, int)> := {};
    for i := 0 to |pets|
      invariant findings == AllPetFindings(pets[..i], rooms, catalog) && orders == Orders(pets[..i])
    {
      var pet := pets[i];
      assert pets[..i + 1][..i] == pets[..i] && pets[..i + 1] == pets[..i] + [pet];
      ghost var before := findings;
      if pet.mob !in catalog.mobiles {
        findings := findings + [Finding(PetUnknownMobile, pet.owner, pet.rowId, pet.mob, -1, -1, 0, 0, 0, false)];
      }
      var duplicate := (pet.owner, pet.order) in orders;
      orders := orders + {(pet.owner, pet.order)};
      var bounds := OtherBounds(pet, duplicate);
      var present := pet.owner in rooms;
      var mismatch := present && pet.room != rooms[pet.owner];
      if bounds && present && rooms[pet.owner] > 0 && (pet.hit > pet.maxHit || mismatch) {
        findings := findings + [PetStateFinding(pet, rooms[pet.owner])];
      } else if !bounds || pet.hit > pet.maxHit || !present || rooms[pet.owner] <= 0 {
        findings := findings + [Finding(PetInvalidBounds, pet.owner, pet.rowId, pet.mob, pet.room,
                                        if present then rooms[pet.owner] else -1, pet.hit, pet.maxHit, 0, false)];
      }
      assert findings == before + PetFindings(pet, rooms, catalog, duplicate);
    }
    assert pets[..|pets|] == pets;
  }

  // ----- the repair -----

  function ItemTypeFindings(findings: set<Finding>): set<Finding> {
    set f | f in findings && f.kind.ItemType?
  }

  function PetStateFindings(findings: set<Finding>): set<Finding> {
    set f | f in findings && f.kind == PetState
  }

  /** The rows an item update changes, by primary key. */
  function TouchedItems(items: seq<Item>, findings: set<Finding>): set<int> {
    set item | item in items && exists f | f in findings :: Selects(f, item) :: item.rowId
  }

  function TouchedPets(pets: seq<Pet>, rooms: map<int, int>, findings: set<Finding>): set<int> {
    set pet | pet in pets && exists f | f in findings :: PetSelected(f, pet, rooms) :: pet.rowId
  }

  function Repaired(s: Snapshot, findings: set<Finding>): Snapshot {
    s.(items := RepairItems(s.items, findings), petItems := RepairItems(s.petItems, findings),
       pets := RepairPets(s.pets, Rooms(s.characters), findings))
  }

  /** The guard on row counts: one changed row for each finding. */
  predicate CountsMatch(s: Snapshot, findings: set<Finding>) {
    && |TouchedItems(s.items, findings)| + |TouchedItems(s.petItems, findings)| == |ItemTypeFindings(findings)|
    && |TouchedPets(s.pets, Rooms(s.characters), findings)| == |PetStateFindings(findings)|
  }

  /** What the tables guarantee: one row per primary key, and each query's own domain. */
  ghost predicate WellFormed(s: Snapshot) {
    && OneRowPerId(s.items) && OfDomain(s.items, Player)
    && OneRowPerId(s.petItems) && OfDomain(s.petItems, Companion)
    && forall i, j | 0 <= i < j < |s.pets| :: s.pets[i].rowId != s.pets[j].rowId
  }

  lemma {:induction false} Matching(findings: set<Finding>, ids: set<int>)
    requires forall f | f in findings :: f.rowId in ids
    requires forall f, g | f in findings && g in findings && f.rowId == g.rowId :: f == g
    requires forall id | id in ids :: exists f | f in findings :: f.rowId == id
    ensures |findings| == |ids|
  {
    var named := set f | f in findings :: f.rowId;
    forall id | id in ids
      ensures id in named
    {
      var f :| f in findings && f.rowId == id;
    }
    assert ids == named;
    if findings != {} {
      var f :| f in findings;
      forall id | id in ids - {f.rowId}
        ensures exists g | g in findings - {f} :: g.rowId == id
      {
        var g :| g in findings && g.rowId == id;
        assert g in findings - {f};
      }
      Matching(findings - {f}, ids - {f.rowId});
    }
  }

  /** Items of one domain: as many rows are touched as there are findings. */
  lemma {:induction false} ItemCountsMatch(items: seq<Item>, catalog: Catalog, domain: Domain, all: set<Finding>)
    requires OneRowPerId(items) && OfDomain(items, domain) && Restricts(all, items, domain, catalog)
    requires forall f | f in ItemFindings(items, catalog) :: f.repairable
    ensures |TouchedItems(items, all)| == |set f | f in all && f.kind == ItemType(domain)|
  {
    hide ById, Scan, UnknownFindings;
    var (findings, reported) := Scan(items, catalog, |items|);
    var kind := set f | f in all && f.kind == ItemType(domain);
    ScannedRepairable(items, catalog);
    forall item | item in items
      ensures item.rowId in reported <==> exists f | f in all :: Selects(f, item)
    {
      var k :| 0 <= k < |items| && items[k] == item;
      ByIdFinds(items, k);
      ReportedExactly(items, catalog, domain, all, item.rowId);
    }
    forall f | f in kind
      ensures f in findings
    {
      UnknownsAreListed(items, catalog);
    }
    forall id | id in reported
      ensures id in TouchedItems(items, all) && exists f | f in kind :: f.rowId == id
    {
      assert ReportedWell(items, catalog, findings, id);
      ByIdKey(items, id);
      var f :| f in all && Selects(f, ById(items)[id]);
      assert f in kind;
    }
    Matching(kind, reported);
    assert TouchedItems(items, all) == reported;
  }

  lemma {:induction false} PetFindingsComeFromPets(pets: seq<Pet>, rooms: map<int, int>, catalog: Catalog)
    ensures forall f | f in AllPetFindings(pets, rooms, catalog) ::
              !f.kind.ItemType? && (f.kind == PetState <==> f.repairable)
    ensures forall f | f in AllPetFindings(pets, rooms, catalog) && f.kind == PetState ::
              exists i ::
                0 <= i < |pets| && PetSelected(f, pets[i], rooms) && f == PetStateFinding(pets[i], rooms[pets[i].owner])
  {
    if pets != [] {
      var n := |pets| - 1;
      PetFindingsComeFromPets(pets[..n], rooms, catalog);
      forall f | f in AllPetFindings(pets, rooms, catalog) && f.kind == PetState
        ensures exists i ::
                  && 0 <= i < |pets| && PetSelected(f, pets[i], rooms)
                  && f == PetStateFinding(pets[i], rooms[pets[i].owner])
      {
        if f in AllPetFindings(pets[..n], rooms, catalog) {
          var i :| 0 <= i < n && PetSelected(f, pets[..n][i], rooms)
              && f == PetStateFinding(pets[..n][i], rooms[pets[..n][i].owner]);
          assert pets[..n][i] == pets[i];
        } else {
          assert PetSelected(f, pets[n], rooms);
        }
      }
    }
  }

  lemma {:induction false} ItemFindingsAreNotPetFindings(items: seq<Item>, catalog: Catalog, domain: Domain, n: nat)
    requires OfDomain(items, domain) && n <= |items|
    ensures forall f | f in UnknownFindings(items, catalog) :: f.kind == UnknownObject(domain)
    ensures forall f | f in Scan(items, catalog, n).0 ::
              f.kind in {ItemType(domain), InvalidParent(domain), InvalidNesting(domain)}
  {
    if n > 0 {
      ItemFindingsAreNotPetFindings(items, catalog, domain, n - 1);
      var child := items[n - 1];
      if child.parent.Some? && child.parent.value in ById(items) {
        ByIdKey(items, child.parent.value);
      }
    }
    UnknownsAreOfDomain(items, catalog, domain);
  }

  lemma {:induction false} UnknownsAreOfDomain(items: seq<Item>, catalog: Catalog, domain: Domain)
    requires OfDomain(items, domain)
    ensures forall f | f in UnknownFindings(items, catalog) :: f.kind == UnknownObject(domain)
  {
    if items != [] {
      UnknownsAreOfDomain(items[..|items| - 1], catalog, domain);
    }
  }

  /** The audit's findings sort themselves by kind into those of the three tables. */
  lemma {:induction false} AuditSplits(s: Snapshot, catalog: Catalog)
    requires WellFormed(s)
    ensures Restricts(Audit(s, catalog), s.items, Player, catalog)
    ensures Restricts(Audit(s, catalog), s.petItems, Companion, catalog)
    ensures forall f | f in Audit(s, catalog) && f.kind == PetState ::
              f in AllPetFindings(s.pets, Rooms(s.characters), catalog)
  {
    hide UnknownFindings, Scan, AllPetFindings, Rooms;
    ItemFindingsAreNotPetFindings(s.items, catalog, Player, |s.items|);
    ItemFindingsAreNotPetFindings(s.petItems, catalog, Companion, |s.petItems|);
    PetFindingsComeFromPets(s.pets, Rooms(s.characters), catalog);
  }

  lemma {:induction false} PetCountsMatch(s: Snapshot, catalog: Catalog)
    requires WellFormed(s)
    ensures |TouchedPets(s.pets, Rooms(s.characters), Audit(s, catalog))| == |PetStateFindings(Audit(s, catalog))|
  {
    hide Rooms, AllPetFindings, Audit;
    var rooms, all: set<Finding> := Rooms(s.characters), Audit(s, catalog);
    var states := PetStateFindings(all);
    AuditSplits(s, catalog);
    PetFindingsComeFromPets(s.pets, rooms, catalog);
    forall f | f in states
      ensures f.rowId in TouchedPets(s.pets, rooms, all)
    {
      var i :| 0 <= i < |s.pets| && PetSelected(f, s.pets[i], rooms);
      assert s.pets[i] in s.pets;
    }
    forall f, g | f in states && g in states && f.rowId == g.rowId
      ensures f == g
    {
      var i :| 0 <= i < |s.pets| && PetSelected(f, s.pets[i], rooms)
          && f == PetStateFinding(s.pets[i], rooms[s.pets[i].owner]);
      var j :| 0 <= j < |s.pets| && PetSelected(g, s.pets[j], rooms)
          && g == PetStateFinding(s.pets[j], rooms[s.pets[j].owner]);
      assert i == j;
    }
    forall id | id in TouchedPets(s.pets, rooms, all)
      ensures exists f | f in states :: f.rowId == id
    {
      var pet :| pet in s.pets && pet.rowId == id && exists f | f in all :: PetSelected(f, pet, rooms);
      var f :| f in all && PetSelected(f, pet, rooms);
      assert f in states;
    }
    Matching(states, TouchedPets(s.pets, rooms, all));
  }

  lemma {:induction false} GuardHolds(s: Snapshot, catalog: Catalog)
    requires WellFormed(s) && forall f | f in Audit(s, catalog) :: f.repairable
    ensures CountsMatch(s, Audit(s, catalog))
  {
    hide TouchedItems, TouchedPets, Rooms, ItemFindings, AllPetFindings;
    var all := Audit(s, catalog);
    AuditSplits(s, catalog);
    assert forall f | f in ItemFindings(s.items, catalog) :: f in all;
    assert forall f | f in ItemFindings(s.petItems, catalog) :: f in all;
    ItemCountsMatch(s.items, catalog, Player, all);
    ItemCountsMatch(s.petItems, catalog, Companion, all);
    var own := set f | f in all && f.kind == ItemType(Player);
    var theirs := set f | f in all && f.kind == ItemType(Companion);
    forall f | f in ItemTypeFindings(all)
      ensures f in own + theirs
    {
      assert f.kind.domain == Player || f.kind.domain == Companion;
    }
    assert ItemTypeFindings(all) == own + theirs && own !! theirs;
    PetCountsMatch(s, catalog);
  }

  /**
   The repair of an audit with nothing but repairable findings is never rolled back, and the
   next audit is silent exactly if every child of a retyped parent has its owner and scope.
   */
  lemma {:induction false} RepairConverges(s: Snapshot, catalog: Catalog)
    requires WellFormed(s) && forall f | f in Audit(s, catalog) :: f.repairable
    ensures CountsMatch(s, Audit(s, catalog))
    ensures Audit(Repaired(s, Audit(s, catalog)), catalog) == {} <==>
            ChildrenAgree(s.items, catalog) && ChildrenAgree(s.petItems, catalog)
  {
    hide ItemFindings, AllPetFindings, Rooms, RepairPets, RepairItems, ChildrenAgree;
    var all := Audit(s, catalog);
    GuardHolds(s, catalog);
    AuditSplits(s, catalog);
    assert forall f | f in ItemFindings(s.items, catalog) :: f in all;
    assert forall f | f in ItemFindings(s.petItems, catalog) :: f in all;
    assert forall f | f in AllPetFindings(s.pets, Rooms(s.characters), catalog) :: f in all;
    ItemsConverge(s.items, catalog, Player, all);
    ItemsConverge(s.petItems, catalog, Companion, all);
    PetsConverge(s.pets, Rooms(s.characters), catalog, all);
    var after := Repaired(s, all);
    EmptyElements(ItemFindings(after.items, catalog));
    EmptyElements(ItemFindings(after.petItems, catalog));
    EmptyElements(AllPetFindings(after.pets, Rooms(s.characters), catalog));
  }

  /**
   The queries join a parent by its child's character or pet, so a parent that is there has
   its child's owner and scope.
   */
  ghost predicate Joined(items: seq<Item>) {
    forall i | 0 <= i < |items| && items[i].parent.Some? && items[i].parent.value in ById(items) ::
      SameHolder(ById(items)[items[i].parent.value], items[i])
  }

  /** What `database_snapshot` reads. */
  ghost predicate FromQueries(s: Snapshot) {
    WellFormed(s) && Joined(s.items) && Joined(s.petItems)
  }

  /** The repair does its work: if all findings of a snapshot that was read are repairable, the next audit is silent. */
  lemma {:induction false} RepairSilencesTheAudit(s: Snapshot, catalog: Catalog)
    requires FromQueries(s) && forall f | f in Audit(s, catalog) :: f.repairable
    ensures CountsMatch(s, Audit(s, catalog))
    ensures Audit(Repaired(s, Audit(s, catalog)), catalog) == {}
    ensures FromQueries(Repaired(s, Audit(s, catalog)))
  {
    RepairConverges(s, catalog);
    RepairKeepsJoins(s.items, Audit(s, catalog));
    RepairKeepsJoins(s.petItems, Audit(s, catalog));
  }

  lemma {:induction false} RepairKeepsJoins(items: seq<Item>, findings: set<Finding>)
    requires Joined(items) && OneRowPerId(items)
    ensures Joined(RepairItems(items, findings)) && OneRowPerId(RepairItems(items, findings))
  {
    ByIdRepaired(items, findings);
    hide ById;
    var repaired := RepairItems(items, findings);
    forall i | 0 <= i < |items| && repaired[i].parent.Some? && repaired[i].parent.value in ById(repaired)
      ensures SameHolder(ById(repaired)[repaired[i].parent.value], repaired[i])
    {
      var id := items[i].parent.value;
      assert repaired[i] == RepairItem(items[i], findings) && items[i].parent == repaired[i].parent;
      assert SameHolder(ById(items)[id], items[i]);
      assert ById(repaired)[id] == RepairItem(ById(items)[id], findings);
    }
  }

  lemma {:induction false} EmptyElements(findings: seq<Finding>)
    ensures Elements(findings) == {} <==> findings == []
  {
    if findings != [] {
      assert findings[0] in Elements(findings);
    }
  }

  /** Rows no finding names stay as they are; a named one changes in the repaired columns only. */
  lemma {:induction false} OnlyNamedRowsChange(s: Snapshot, findings: set<Finding>)
    ensures var after := Repaired(s, findings);
            && after.characters == s.characters
            && |after.items| == |s.items| && |after.petItems| == |s.petItems| && |after.pets| == |s.pets|
            && (forall i | 0 <= i < |s.items| && after.items[i] != s.items[i] ::
                  after.items[i] == s.items[i].(itemType := None)
                      && s.items[i].rowId in TouchedItems(s.items, findings))
            && (forall i | 0 <= i < |s.petItems| && after.petItems[i] != s.petItems[i] ::
                  after.petItems[i] == s.petItems[i].(itemType := None)
                      && s.petItems[i].rowId in TouchedItems(s.petItems, findings))
            && (forall i | 0 <= i < |s.pets| && after.pets[i] != s.pets[i] ::
                  after.pets[i] == s.pets[i].(room := after.pets[i].room, hit := after.pets[i].hit)
                  && s.pets[i].rowId in TouchedPets(s.pets, Rooms(s.characters), findings))
  {
    hide Rooms;
  }

  /** `UPDATE ... SET item_type=NULL` on one table: its rows afterwards, and the keys of those it changed. */
  method UpdateItems(items: seq<Item>, findings: set<Finding>) returns (after: seq<Item>, touched: set<int>)
    ensures after == RepairItems(items, findings) && touched == TouchedItems(items, findings)
  {
    after, touched := [], {};
    for i := 0 to |items|
      invariant |after| == i && forall j | 0 <= j < i :: after[j] == RepairItem(items[j], findings)
      invariant touched == TouchedItems(items[..i], findings)
    {
      assert items[..i + 1] == items[..i] + [items[i]];
      if exists f | f in findings :: Selects(f, items[i]) {
        after := after + [items[i].(itemType := None)];
        touched := touched + {items[i].rowId};
      } else {
        after := after + [items[i]];
      }
    }
    assert items[..|items|] == items;
  }

  /**
   `apply_repair`: one update for each table, rolled back unless every finding changed one
   row. An audit of nothing but repairable findings is applied, touches the rows it names and
   no others, and leaves a snapshot with nothing to report.
   */
  method ApplyRepair(s: Snapshot, findings: set<Finding>, ghost catalog: Catalog) returns (result: Option<Snapshot>)
    ensures result.Some? <==> CountsMatch(s, findings)
    ensures result.Some? ==>
              && result.value.characters == s.characters
              && |result.value.items| == |s.items| && |result.value.petItems| == |s.petItems|
                 && |result.value.pets| == |s.pets|
              && (forall i | 0 <= i < |s.items| :: result.value.items[i] == s.items[i] ||
                    (result.value.items[i] == s.items[i].(itemType := None)
                     && s.items[i].rowId in TouchedItems(s.items, findings)))
              && (forall i | 0 <= i < |s.petItems| :: result.value.petItems[i] == s.petItems[i] ||
                    (result.value.petItems[i] == s.petItems[i].(itemType := None)
                     && s.petItems[i].rowId in TouchedItems(s.petItems, findings)))
              && (forall i | 0 <= i < |s.pets| :: result.value.pets[i] == s.pets[i] ||
                    (result.value.pets[i] == s.pets[i].(room := result.value.pets[i].room,
                                                        hit := result.value.pets[i].hit)
                     && s.pets[i].rowId in TouchedPets(s.pets, Rooms(s.characters), findings)))
    ensures FromQueries(s) && findings == Audit(s, catalog) && (forall f | f in findings :: f.repairable) ==>
              result.Some? && Audit(result.value, catalog) == {}
  {
    hide CountsMatch, Audit, FromQueries, Rooms, RepairItems, RepairPets, TouchedItems, TouchedPets;
    var items, itemRows := UpdateItems(s.items, findings);
    var petItems, petItemRows := UpdateItems(s.petItems, findings);
    var rooms := Rooms(s.characters);
    var pets := RepairPets(s.pets, rooms, findings);
    var petRows := TouchedPets(s.pets, rooms, findings);
    CountsMean(s, findings);
    OnlyNamedRowsChange(s, findings);
    if FromQueries(s) && findings == Audit(s, catalog) && forall f | f in findings :: f.repairable {
      RepairSilencesTheAudit(s, catalog);
    }
    if |itemRows| + |petItemRows| != |ItemTypeFindings(findings)| || |petRows| != |PetStateFindings(findings)| {
      return None;
    }
    return Some(s.(items := items, petItems := petItems, pets := pets));
  }

  lemma {:induction false} CountsMean(s: Snapshot, findings: set<Finding>)
    ensures CountsMatch(s, findings) <==>
            && |TouchedItems(s.items, findings)| + |TouchedItems(s.petItems, findings)| == |ItemTypeFindings(findings)|
            && |TouchedPets(s.pets, Rooms(s.characters), findings)| == |PetStateFindings(findings)|
  {
  }

  lemma {:induction false} SecondChildGoesUnseen(parent: Item, child: Item, stray: Item, catalog: Catalog)
    requires var items := [parent, child, stray];
             && parent.rowId !in {child.rowId, stray.rowId}
                && (forall i | 0 <= i < 3 :: items[i].vnum in catalog.objectTypes)
             && parent.parent.None? && child.parent == stray.parent == Some(parent.rowId)
             && SameHolder(parent, child) && MisTyped(parent, catalog)
    ensures var items := [parent, child, stray];
            && parent.rowId in ById(items) && ById(items)[parent.rowId] == parent
            && ItemFindings(items, catalog) == [ParentFinding(items, parent, catalog)]
  {
    var items := [parent, child, stray];
    assert ById(items)[parent.rowId] == parent by {
      assert items[..2] == [parent, child] && [parent, child][..1] == [parent];
      assert parent.rowId in ById([parent]);
      ByIdKey(items, parent.rowId);
    }
    hide ById, MisTyped, SameHolder;
    UnknownsAreListed(items, catalog);
    assert items[0] == parent && items[1] == child && items[2] == stray;
    assert Scan(items, catalog, 1) == ([], {});
    assert Scan(items, catalog, 1 + 1) == ([] + [ParentFinding(items, parent, catalog)], {} + {parent.rowId});
    assert Scan(items, catalog, 2 + 1) == Scan(items, catalog, 2);
  }

  lemma {:induction false} OnlyItems(items: seq<Item>, catalog: Catalog)
    ensures Audit(Snapshot([], items, [], []), catalog) == Elements(ItemFindings(items, catalog))
  {
    CleanIsHealthy([], catalog);
    assert AllPetFindings([], Rooms([]), catalog) == [];
    hide ItemFindings, AllPetFindings, Rooms;
  }

  lemma {:induction false} StraySurfaces(items: seq<Item>, catalog: Catalog, parent: Item, k: nat)
    requires WellFormed(Snapshot([], items, [], [])) && k < |items|
    requires parent.vnum in catalog.objectTypes
             && ItemFindings(items, catalog) == [ParentFinding(items, parent, catalog)]
    requires ParentFinding(items, parent, catalog).repairable
    requires Shielded(items, catalog, items[k]) && !SameHolder(ById(items)[items[k].parent.value], items[k])
    ensures var s := Snapshot([], items, [], []);
            && (forall f | f in Audit(s, catalog) :: f.repairable)
               && Audit(Repaired(s, Audit(s, catalog)), catalog) != {}
  {
    hide WellFormed, ItemFindings, Repaired, ParentFinding, Shielded, SameHolder;
    var s := Snapshot([], items, [], []);
    OnlyItems(items, catalog);
    hide Audit;
    RepairConverges(s, catalog);
  }

  /**
   On snapshots no query returns the join matters: `evaluate` does not compare a reported
   parent with its later children, so here the repair surfaces a finding the first audit
   did not have.
   */
  lemma {:induction false} ShieldedChildSurfaces()
    ensures exists s: Snapshot, catalog: Catalog ::
              && WellFormed(s) && (forall f | f in Audit(s, catalog) :: f.repairable)
              && Audit(Repaired(s, Audit(s, catalog)), catalog) != {}
  {
    hide ById, ItemFindings, Repaired, Audit;
    var parent := Item(1, 7, 100, None, Some(5), Player, 0);
    var child := Item(2, 7, 100, Some(1), None, Player, 0);
    var stray := Item(3, 8, 100, Some(1), None, Player, 0);
    var catalog := Catalog(map[100 := 15], {15}, {});
    var items := [parent, child, stray];
    SecondChildGoesUnseen(parent, child, stray, catalog);
    assert Shielded(items, catalog, items[2]) && !SameHolder(parent, stray);
    assert WellFormed(Snapshot([], items, [], []));
    StraySurfaces(items, catalog, parent, 2);
    hide WellFormed, Shielded, ParentFinding;
  }
}
