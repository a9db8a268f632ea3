/**
 The product table: items with derived index attributes, conditional writes,
 and the readiness transition, which takes the category from an earlier read.
 */
module ProductStore {
  import opened Wrappers

  type Id = nat

  datatype Attribute =
    | Name | Manufacturer | ModelNumber | Category | Status | Description | SourceCount | Version
    | NormalizedName | NormalizedManufacturer | NormalizedModelNumber | CategoryStatusKey

  datatype Value = Null | Text(text: string) | Number(number: int)

  type Item = map<Attribute, Value>

  datatype Product = Product(
    name: string, manufacturer: Option<string>, modelNumber: Option<string>, category: string, status: string,
    description: Option<string>, sourceCount: int, version: int)

  const READY := "READY_TO_PUBLISH"

  datatype ProductError = AlreadyExists | NotFound | VersionConflict | StatusConflict | InvalidVersion

  function TextOrNull(text: Option<string>): Value { if text.Some? then Text(text.value) else Null }

  function KeyOf(category: string, status: string): string { category + "#" + status }

  /** The item of a product: its fields, and the attributes that the indexes are over. */
  function ItemOf(normal: string -> string, p: Product): Item {
    map[Name := Text(p.name), Manufacturer := TextOrNull(p.manufacturer), ModelNumber := TextOrNull(p.modelNumber),
        Category := Text(p.category), Status := Text(p.status), Description := TextOrNull(p.description),
        SourceCount := Number(p.sourceCount), Version := Number(p.version),
        NormalizedName := Text(normal(p.name)), CategoryStatusKey := Text(KeyOf(p.category, p.status))]
    + (if p.manufacturer.Some? then map[NormalizedManufacturer := Text(normal(p.manufacturer.value))] else map[])
    + (if p.modelNumber.Some? then map[NormalizedModelNumber := Text(normal(p.modelNumber.value))] else map[])
  }

  /** Every index attribute is the one its product calls for, and there is none left over. */
  ghost predicate Indexed(normal: string -> string, item: Item) {
    exists p :: item == ItemOf(normal, p)
  }

  predicate AtVersion(items: map<Id, Item>, id: Id, expected: int) {
    id in items && Version in items[id] && items[id][Version] == Number(expected)
  }

  // ----- update expressions ----------------------------------------------------------------------

  function Assigned(item: Item, parts: seq<(Attribute, Value)>): Item {
    if parts == [] then item else Assigned(item, parts[..|parts| - 1])[parts[|parts| - 1].0 := parts[|parts| - 1].1]
  }

  function Without(item: Item, attributes: seq<Attribute>): Item {
    item - set a | a in attributes
  }

  function SetParts(normal: string -> string, p: Product, version: int): seq<(Attribute, Value)> {
    [(Name, Text(p.name)), (Manufacturer, TextOrNull(p.manufacturer)), (ModelNumber, TextOrNull(p.modelNumber)),
     (Category, Text(p.category)), (Status, Text(p.status)), (Description, TextOrNull(p.description)),
     (SourceCount, Number(p.sourceCount)), (Version, Number(version)), (NormalizedName, Text(normal(p.name))),
     (CategoryStatusKey, Text(KeyOf(p.category, p.status)))]
    + (if p.manufacturer.Some? then [(NormalizedManufacturer, Text(normal(p.manufacturer.value)))] else [])
    + (if p.modelNumber.Some? then [(NormalizedModelNumber, Text(normal(p.modelNumber.value)))] else [])
  }

  function RemoveParts(p: Product): seq<Attribute> {
    (if p.manufacturer.None? then [NormalizedManufacturer] else []) + (if p.modelNumber.None? then [NormalizedModelNumber] else [])
  }

  function ReadyParts(category: string, version: int): seq<(Attribute, Value)> {
    [(Status, Text(READY)), (CategoryStatusKey, Text(KeyOf(category, READY))), (Version, Number(version))]
  }

  lemma {:induction false} AssignedAt(item: Item, parts: seq<(Attribute, Value)>, i: nat)
    requires i < |parts| && forall j, k :: 0 <= j < k < |parts| ==> parts[j].0 != parts[k].0
    ensures parts[i].0 in Assigned(item, parts) && Assigned(item, parts)[parts[i].0] == parts[i].1
  {
    if i < |parts| - 1 { AssignedAt(item, parts[..|parts| - 1], i); }
  }

  lemma {:induction false} AssignedElsewhere(item: Item, parts: seq<(Attribute, Value)>, a: Attribute)
    requires forall i :: 0 <= i < |parts| ==> parts[i].0 != a
    ensures (a in Assigned(item, parts) <==> a in item) && (a in item ==> Assigned(item, parts)[a] == item[a])
  {
    if parts != [] { AssignedElsewhere(item, parts[..|parts| - 1], a); }
  }

  function PartIndex(p: Product, a: Attribute): nat {
    match a
    case Name => 0
    case Manufacturer => 1
    case ModelNumber => 2
    case Category => 3
    case Status => 4
    case Description => 5
    case SourceCount => 6
    case Version => 7
    case NormalizedName => 8
    case CategoryStatusKey => 9
    case NormalizedManufacturer => 10
    case NormalizedModelNumber => if p.manufacturer.Some? then 11 else 10
  }

  predicate SetsAttribute(p: Product, a: Attribute) {
    match a
    case NormalizedManufacturer => p.manufacturer.Some?
    case NormalizedModelNumber => p.modelNumber.Some?
    case _ => true
  }

  /** The value of an attribute of a product, if the product has it. */
  function ValueOf(normal: string -> string, p: Product, a: Attribute): Option<Value> {
    match a
    case Name => Some(Text(p.name))
    case Manufacturer => Some(TextOrNull(p.manufacturer))
    case ModelNumber => Some(TextOrNull(p.modelNumber))
    case Category => Some(Text(p.category))
    case Status => Some(Text(p.status))
    case Description => Some(TextOrNull(p.description))
    case SourceCount => Some(Number(p.sourceCount))
    case Version => Some(Number(p.version))
    case NormalizedName => Some(Text(normal(p.name)))
    case CategoryStatusKey => Some(Text(KeyOf(p.category, p.status)))
    case NormalizedManufacturer => if p.manufacturer.Some? then Some(Text(normal(p.manufacturer.value))) else None
    case NormalizedModelNumber => if p.modelNumber.Some? then Some(Text(normal(p.modelNumber.value))) else None
  }

  lemma ItemAt(normal: string -> string, p: Product, a: Attribute)
    ensures a in ItemOf(normal, p) <==> ValueOf(normal, p, a).Some?
    ensures a in ItemOf(normal, p) ==> ItemOf(normal, p)[a] == ValueOf(normal, p, a).value
  {
    hide TextOrNull, KeyOf;
    match a
    case NormalizedManufacturer =>
    case NormalizedModelNumber =>
    case _ => assert ItemOf(normal, p)[a] == ValueOf(normal, p, a).value;
  }

  lemma PartOf(normal: string -> string, p: Product, version: int, a: Attribute)
    requires SetsAttribute(p, a)
    ensures PartIndex(p, a) < |SetParts(normal, p, version)|
    ensures a in ItemOf(normal, p.(version := version))
    ensures SetParts(normal, p, version)[PartIndex(p, a)] == (a, ItemOf(normal, p.(version := version))[a])
  {
    hide ItemOf;
    ItemAt(normal, p.(version := version), a);
  }

  lemma PartsAreIndexed(normal: string -> string, p: Product, version: int, i: nat)
    requires i < |SetParts(normal, p, version)|
    ensures SetsAttribute(p, SetParts(normal, p, version)[i].0) && PartIndex(p, SetParts(normal, p, version)[i].0) == i
  {
  }

  /** Updating an item, whatever its index attributes were, leaves the item that the product would
      have been created as: every index attribute is set or removed with what it is derived from. */
  lemma UpdateIsItem(normal: string -> string, item: Item, p: Product, version: int)
    ensures Without(Assigned(item, SetParts(normal, p, version)), RemoveParts(p)) == ItemOf(normal, p.(version := version))
  {
    var parts, result := SetParts(normal, p, version), Without(Assigned(item, SetParts(normal, p, version)), RemoveParts(p));
    var expected := ItemOf(normal, p.(version := version));
    forall j, k | 0 <= j < k < |parts| ensures parts[j].0 != parts[k].0 {
      PartsAreIndexed(normal, p, version, j);
      PartsAreIndexed(normal, p, version, k);
    }
    hide SetParts, ItemOf, Assigned, RemoveParts;
    forall a: Attribute
      ensures (a in result <==> a in expected) && (a in expected ==> result[a] == expected[a])
    {
      UpdatedAt(normal, item, p, version, a);
    }
  }

  /** The expression leaves of each attribute what the item of the product has. */
  lemma UpdatedAt(normal: string -> string, item: Item, p: Product, version: int, a: Attribute)
    requires var parts := SetParts(normal, p, version); forall j, k :: 0 <= j < k < |parts| ==> parts[j].0 != parts[k].0
    ensures var result, expected := Without(Assigned(item, SetParts(normal, p, version)), RemoveParts(p)), ItemOf(normal, p.(version := version));
      (a in result <==> a in expected) && (a in expected ==> result[a] == expected[a])
  {
    hide Assigned, SetParts, ItemOf;
    RemovesUnset(p, a);
    if SetsAttribute(p, a) {
      PartOf(normal, p, version, a);
      AssignedAt(item, SetParts(normal, p, version), PartIndex(p, a));
    } else {
      ItemAt(normal, p.(version := version), a);
    }
  }

  lemma RemovesUnset(p: Product, a: Attribute)
    ensures a in RemoveParts(p) <==> !SetsAttribute(p, a)
  {
  }

  /** Marking the item of a product ready with that product's own category leaves the item of the
      product made ready. */
  lemma ReadyIsItem(normal: string -> string, p: Product, version: int)
    ensures Assigned(ItemOf(normal, p), ReadyParts(p.category, version)) == ItemOf(normal, p.(status := READY, version := version))
  {
    var item, expected := ItemOf(normal, p), ItemOf(normal, p.(status := READY, version := version));
    AssignedThree(item, (Status, Text(READY)), (CategoryStatusKey, Text(KeyOf(p.category, READY))), (Version, Number(version)));
    var result := item[Status := Text(READY)][CategoryStatusKey := Text(KeyOf(p.category, READY))][Version := Number(version)];
    forall a: Attribute ensures (a in result <==> a in expected) && (a in expected ==> result[a] == expected[a]) {
      OtherFields(normal, p, version, a);
      hide ItemOf;
    }
    hide ItemOf;
    assert result == expected;
  }

  lemma AssignedThree(item: Item, a: (Attribute, Value), b: (Attribute, Value), c: (Attribute, Value))
    ensures Assigned(item, [a, b, c]) == item[a.0 := a.1][b.0 := b.1][c.0 := c.1]
  {
    assert [a][..0] == [] && [a, b][..1] == [a] && [a, b, c][..2] == [a, b];
    assert Assigned(item, [a]) == item[a.0 := a.1];
    assert Assigned(item, [a, b]) == item[a.0 := a.1][b.0 := b.1];
  }

  lemma OtherFields(normal: string -> string, p: Product, version: int, a: Attribute)
    ensures var before, after := ItemOf(normal, p), ItemOf(normal, p.(status := READY, version := version));
      && (a in before <==> a in after)
      && (a !in {Status, CategoryStatusKey, Version} && a in after ==> after[a] == before[a])
    ensures var after := ItemOf(normal, p.(status := READY, version := version));
      && Status in after && after[Status] == Text(READY) && Version in after && after[Version] == Number(version)
      && CategoryStatusKey in after && after[CategoryStatusKey] == Text(KeyOf(p.category, READY))
  {
    hide ItemOf;
    var after := p.(status := READY, version := version);
    ItemAt(normal, p, a);
    ItemAt(normal, after, a);
    ItemAt(normal, after, Status);
    ItemAt(normal, after, Version);
    ItemAt(normal, after, CategoryStatusKey);
  }

  // ----- the table ---------------------------------------------------------------------------------

  /** The lists of an update expression, grown by what the product has and has not. */
  method BuildExpression(normal: string -> string, p: Product, version: int)
    returns (setParts: seq<(Attribute, Value)>, removeParts: seq<Attribute>)
    ensures setParts == SetParts(normal, p, version) && removeParts == RemoveParts(p)
  {
    setParts := [
      (Name, Text(p.name)), (Manufacturer, TextOrNull(p.manufacturer)), (ModelNumber, TextOrNull(p.modelNumber)),
      (Category, Text(p.category)), (Status, Text(p.status)), (Description, TextOrNull(p.description)),
      (SourceCount, Number(p.sourceCount)), (Version, Number(version)), (NormalizedName, Text(normal(p.name))),
      (CategoryStatusKey, Text(KeyOf(p.category, p.status)))];
    removeParts := [];
    if p.manufacturer.None? {
      removeParts := removeParts + [NormalizedManufacturer];
    } else {
      setParts := setParts + [(NormalizedManufacturer, Text(normal(p.manufacturer.value)))];
    }
    if p.modelNumber.None? {
      removeParts := removeParts + [NormalizedModelNumber];
    } else {
      setParts := setParts + [(NormalizedModelNumber, Text(normal(p.modelNumber.value)))];
    }
  }

  class ProductTable {
    var items: map<Id, Item>
    const normal: string -> string

    constructor (normal: string -> string)
      ensures items == map[] && this.normal == normal
    {
      items := map[];
      this.normal := normal;
    }

    ghost predicate Valid()
      reads this
    {
      forall id :: id in items ==> Indexed(normal, items[id])
    }

    method Create(id: Id, p: Product) returns (r: Result<Product, ProductError>)
      requires Valid()
      modifies `items
      ensures Valid()
      ensures r == if id in old(items) then Failure(AlreadyExists) else Success(p)
      ensures items == if r.Success? then old(items)[id := ItemOf(normal, p)] else old(items)
    {
      if id in items {
        return Failure(AlreadyExists);
      }
      items := items[id := ItemOf(normal, p)];
      return Success(p);
    }

    method Update(id: Id, p: Product, expected: int) returns (r: Result<Product, ProductError>)
      requires Valid()
      modifies `items
      ensures Valid()
      ensures r.Success? <==> expected >= 1 && AtVersion(old(items), id, expected)
      ensures r.Success? ==> r.value == p.(version := expected + 1) && items == old(items)[id := ItemOf(normal, r.value)]
      ensures r.Failure? ==>
        items == old(items)
        && r.error == if expected < 1 then InvalidVersion else if id in items then VersionConflict else NotFound
    {
      if expected < 1 {
        return Failure(InvalidVersion);
      }
      var setParts, removeParts := BuildExpression(normal, p, expected + 1);
      if !AtVersion(items, id, expected) {
        return Failure(if id in items then VersionConflict else NotFound);
      }
      hide ItemOf, SetParts, RemoveParts, Assigned, Without;
      UpdateIsItem(normal, items[id], p, expected + 1);
      items := items[id := Without(Assigned(items[id], setParts), removeParts)];
      return Success(p.(version := expected + 1));
    }

    method Delete(id: Id, expected: int) returns (r: Result<(), ProductError>)
      requires Valid()
      modifies `items
      ensures Valid()
      ensures r.Success? <==> expected >= 1 && AtVersion(old(items), id, expected)
      ensures items == if r.Success? then old(items) - {id} else old(items)
    {
      if expected < 1 {
        return Failure(InvalidVersion);
      }
      if !AtVersion(items, id, expected) {
        return Failure(if id in items then VersionConflict else NotFound);
      }
      items := items - {id};
      return Success(());
    }

    /** The conditional write of the readiness transition; `category` is what the read before it found. */
    method WriteReady(id: Id, category: string, expected: int, status: string) returns (r: Result<(), ProductError>)
      modifies `items
      ensures items == MarkedReady(old(items), id, category, expected, status)
      ensures r.Success? <==> MayMarkReady(old(items), id, expected, status)
    {
      if !MayMarkReady(items, id, expected, status) {
        return Failure(if id !in items then NotFound else if !AtVersion(items, id, expected) then VersionConflict else StatusConflict);
      }
      items := items[id := Assigned(items[id], ReadyParts(category, expected + 1))];
      return Success(());
    }

    /** Reads the product, then writes with the category it read. */
    method MarkReady(id: Id, expected: int, status: string) returns (r: Result<(), ProductError>)
      requires Valid()
      modifies `items
      ensures Valid()
      ensures r.Success? <==> expected >= 1 && MayMarkReady(old(items), id, expected, status)
      ensures r.Failure? ==> items == old(items)
      ensures r.Success? ==>
        forall p :: old(items)[id] == ItemOf(normal, p) ==>
          items == old(items)[id := ItemOf(normal, p.(status := READY, version := expected + 1))]
    {
      if expected < 1 {
        return Failure(InvalidVersion);
      }
      if id !in items {
        return Failure(NotFound);
      }
      ghost var p :| items[id] == ItemOf(normal, p);
      var category := CategoryOf(items[id]);
      r := WriteReady(id, category, expected, status);
      ReadyIsItem(normal, p, expected + 1);
      CategoryIsRead(normal);
      hide ItemOf, Assigned;
    }
  }

  function CategoryOf(item: Item): string { if Category in item && item[Category].Text? then item[Category].text else "" }

  lemma CategoryIsRead(normal: string -> string)
    ensures forall p :: CategoryOf(ItemOf(normal, p)) == p.category
    ensures forall p, q :: ItemOf(normal, p) == ItemOf(normal, q) ==> p == q
  {
    forall p, q | ItemOf(normal, p) == ItemOf(normal, q) ensures p == q {
      ItemsAreFaithful(normal, p, q);
    }
  }

  /** An item determines its product. */
  lemma ItemsAreFaithful(normal: string -> string, p: Product, q: Product)
    requires ItemOf(normal, p) == ItemOf(normal, q)
    ensures p == q
  {
    hide ItemOf;
    ItemFields(normal, p);
    ItemFields(normal, q);
  }

  lemma ItemFields(normal: string -> string, p: Product)
    ensures var item := ItemOf(normal, p);
      && Name in item && Manufacturer in item && ModelNumber in item && Category in item && Status in item
      && Description in item && SourceCount in item && Version in item && CategoryStatusKey in item
      && item[Name] == Text(p.name) && item[Manufacturer] == TextOrNull(p.manufacturer)
      && item[ModelNumber] == TextOrNull(p.modelNumber) && item[Category] == Text(p.category)
      && item[Status] == Text(p.status) && item[Description] == TextOrNull(p.description)
      && item[SourceCount] == Number(p.sourceCount) && item[Version] == Number(p.version)
      && item[CategoryStatusKey] == Text(KeyOf(p.category, p.status))
  {
    hide ItemOf;
    ItemAt(normal, p, Name);
    ItemAt(normal, p, Manufacturer);
    ItemAt(normal, p, ModelNumber);
    ItemAt(normal, p, Category);
    ItemAt(normal, p, Status);
    ItemAt(normal, p, Description);
    ItemAt(normal, p, SourceCount);
    ItemAt(normal, p, Version);
    ItemAt(normal, p, CategoryStatusKey);
  }

  predicate MayMarkReady(items: map<Id, Item>, id: Id, expected: int, status: string) {
    AtVersion(items, id, expected) && Status in items[id] && items[id][Status] == Text(status)
  }

  function MarkedReady(items: map<Id, Item>, id: Id, category: string, expected: int, status: string): map<Id, Item> {
    if MayMarkReady(items, id, expected, status) then items[id := Assigned(items[id], ReadyParts(category, expected + 1))] else items
  }
}
