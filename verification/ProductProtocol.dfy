/**
 Products changed by several callers at once. The readiness transition is two
 requests, a read and a conditional write, and others may come between them.
 */
module ProductProtocol {
  import opened Wrappers
  import opened ProductStore

  /** A transition that has read the category and not yet written. */
  datatype Mark = Mark(id: Id, category: string, expected: int, status: string, observed: int)

  /** `used` holds every identifier a product ever had. */
  datatype State = State(items: map<Id, Item>, used: set<Id>, marks: map<nat, Mark>)

  datatype Step =
    | Create(id: Id, product: Product)
    | Update(id: Id, product: Product, expected: int)
    | Delete(id: Id, expected: int)
    | BeginMark(p: nat, id: Id, expected: int, status: string)
    | EndMark(p: nat)

  function VersionOf(item: Item): int { if Version in item && item[Version].Number? then item[Version].number else 0 }

  function Apply(normal: string -> string, s: State, step: Step): State {
    match step
    case Create(id, product) =>
      if id in s.items || id in s.used then s
      else s.(items := s.items[id := ItemOf(normal, product)], used := s.used + {id})
    case Update(id, product, expected) =>
      if !AtVersion(s.items, id, expected) then s
      else s.(items := s.items[id := ItemOf(normal, product.(version := expected + 1))])
    case Delete(id, expected) => if !AtVersion(s.items, id, expected) then s else s.(items := s.items - {id})
    case BeginMark(p, id, expected, status) =>
      if id !in s.items || p in s.marks then s
      else s.(marks := s.marks[p := Mark(id, CategoryOf(s.items[id]), expected, status, VersionOf(s.items[id]))])
    case EndMark(p) =>
      if p !in s.marks then s
      else
        var m := s.marks[p];
        s.(items := MarkedReady(s.items, m.id, m.category, m.expected, m.status), marks := s.marks - {p})
  }

  function Run(normal: string -> string, s: State, steps: seq<Step>): State
    decreases |steps|
  {
    if steps == [] then s else Run(normal, Apply(normal, s, steps[0]), steps[1..])
  }

  const INITIAL := State(map[], {}, map[])

  /** A caller passes a version that the product has, or had. */
  ghost predicate Observed(s: State, step: Step) {
    step.BeginMark? && step.id in s.items ==> step.expected <= VersionOf(s.items[step.id])
  }

  ghost predicate ObservedRun(normal: string -> string, s: State, steps: seq<Step>)
    decreases |steps|
  {
    steps == [] || (Observed(s, steps[0]) && ObservedRun(normal, Apply(normal, s, steps[0]), steps[1..]))
  }

  // ----- the invariant ---------------------------------------------------------------------------

  /** What a waiting transition read still holds for as long as the version is the one it read. */
  ghost predicate MarkInv(s: State, m: Mark) {
    && m.id in s.used && m.expected <= m.observed
    && (m.id in s.items ==>
          && m.observed <= VersionOf(s.items[m.id])
          && (m.observed == VersionOf(s.items[m.id]) ==> m.category == CategoryOf(s.items[m.id])))
  }

  ghost predicate Inv(normal: string -> string, s: State) {
    && (forall id :: id in s.items ==> id in s.used && Indexed(normal, s.items[id]))
    && (forall p :: p in s.marks ==> MarkInv(s, s.marks[p]))
  }

  lemma ItemParts(normal: string -> string, p: Product)
    ensures VersionOf(ItemOf(normal, p)) == p.version && CategoryOf(ItemOf(normal, p)) == p.category
    ensures Version in ItemOf(normal, p) && ItemOf(normal, p)[Version] == Number(p.version)
    ensures Indexed(normal, ItemOf(normal, p))
  {
  }

  /** Products come and go and are rewritten at higher versions only. */
  ghost predicate Rises(s: State, s': State) {
    && s.used <= s'.used
    && (forall id :: id in s'.items ==> id in s'.used)
    && forall id :: id in s.used && id in s'.items ==>
         id in s.items && (s'.items[id] == s.items[id] || VersionOf(s'.items[id]) > VersionOf(s.items[id]))
  }

  lemma MarksPersist(s: State, s': State, m: Mark)
    requires MarkInv(s, m) && Rises(s, s')
    ensures MarkInv(s', m)
  {
  }

  lemma WriteKeeps(normal: string -> string, s: State, s': State)
    requires Inv(normal, s) && Rises(s, s') && (forall p :: p in s'.marks ==> p in s.marks && s'.marks[p] == s.marks[p])
    requires forall id :: id in s'.items ==> Indexed(normal, s'.items[id])
    ensures Inv(normal, s')
  {
  }

  /** One product is rewritten at a higher version. */
  lemma RewriteKeeps(normal: string -> string, s: State, id: Id, item: Item, marks: map<nat, Mark>)
    requires Inv(normal, s) && id in s.items && Indexed(normal, item) && VersionOf(item) > VersionOf(s.items[id])
    requires forall p :: p in marks ==> p in s.marks && marks[p] == s.marks[p]
    ensures Inv(normal, State(s.items[id := item], s.used, marks))
  {
    hide Indexed, MarkInv, CategoryOf, VersionOf;
    WriteKeeps(normal, s, State(s.items[id := item], s.used, marks));
  }

  /** The write of a transition whose version was observed leaves the item of the product made ready. */
  lemma MarkedItem(normal: string -> string, s: State, m: Mark)
    requires MarkInv(s, m) && m.id in s.items && Indexed(normal, s.items[m.id])
    requires MayMarkReady(s.items, m.id, m.expected, m.status)
    ensures var item := Assigned(s.items[m.id], ReadyParts(m.category, m.expected + 1));
      Indexed(normal, item) && VersionOf(item) == m.expected + 1 > VersionOf(s.items[m.id])
  {
    hide ItemOf, Assigned;
    var product :| s.items[m.id] == ItemOf(normal, product);
    ItemParts(normal, product);
    ReadyIsItem(normal, product, m.expected + 1);
    ItemParts(normal, product.(status := READY, version := m.expected + 1));
  }

  lemma MarkParts(normal: string -> string, s: State, p: nat)
    requires Inv(normal, s) && p in s.marks
    ensures MarkInv(s, s.marks[p]) && (s.marks[p].id in s.items ==> Indexed(normal, s.items[s.marks[p].id]))
  {
  }

  lemma EndMarkKeeps(normal: string -> string, s: State, step: Step)
    requires Inv(normal, s) && step.EndMark?
    ensures Inv(normal, Apply(normal, s, step))
  {
    hide Assigned, Indexed, MarkInv, VersionOf, Inv, MayMarkReady, ReadyParts;
    if step.p in s.marks {
      var m := s.marks[step.p];
      MarkParts(normal, s, step.p);
      if MayMarkReady(s.items, m.id, m.expected, m.status) {
        IsThere(s, m);
        MarkedItem(normal, s, m);
        RewriteKeeps(normal, s, m.id, Assigned(s.items[m.id], ReadyParts(m.category, m.expected + 1)), s.marks - {step.p});
      } else {
        FewerMarks(normal, s, s.(marks := s.marks - {step.p}));
      }
    }
  }

  lemma IsThere(s: State, m: Mark)
    requires MayMarkReady(s.items, m.id, m.expected, m.status)
    ensures m.id in s.items
  {
  }

  lemma FewerMarks(normal: string -> string, s: State, s': State)
    requires Inv(normal, s) && s'.items == s.items && s'.used == s.used
    requires forall p :: p in s'.marks ==> p in s.marks && s'.marks[p] == s.marks[p]
    ensures Inv(normal, s')
  {
  }

  lemma CreateKeeps(normal: string -> string, s: State, step: Step)
    requires Inv(normal, s) && step.Create?
    ensures Inv(normal, Apply(normal, s, step))
  {
  }

  lemma UpdateKeeps(normal: string -> string, s: State, step: Step)
    requires Inv(normal, s) && step.Update?
    ensures Inv(normal, Apply(normal, s, step))
  {
    hide ItemOf, Indexed, MarkInv, CategoryOf, Inv;
    var next := step.product.(version := step.expected + 1);
    ItemParts(normal, next);
    if AtVersion(s.items, step.id, step.expected) { RewriteKeeps(normal, s, step.id, ItemOf(normal, next), s.marks); }
  }

  lemma DeleteKeeps(normal: string -> string, s: State, step: Step)
    requires Inv(normal, s) && step.Delete?
    ensures Inv(normal, Apply(normal, s, step))
  {
  }

  lemma BeginMarkKeeps(normal: string -> string, s: State, step: Step)
    requires Inv(normal, s) && step.BeginMark? && Observed(s, step)
    ensures Inv(normal, Apply(normal, s, step))
  {
  }

  lemma StepKeeps(normal: string -> string, s: State, step: Step)
    requires Inv(normal, s) && Observed(s, step)
    ensures Inv(normal, Apply(normal, s, step))
  {
    hide *;
    match step
    case Create(_, _) => CreateKeeps(normal, s, step);
    case Update(_, _, _) => UpdateKeeps(normal, s, step);
    case Delete(_, _) => DeleteKeeps(normal, s, step);
    case BeginMark(_, _, _, _) => BeginMarkKeeps(normal, s, step);
    case EndMark(_) => EndMarkKeeps(normal, s, step);
  }

  lemma {:induction false} RunKeeps(normal: string -> string, s: State, steps: seq<Step>)
    requires Inv(normal, s) && ObservedRun(normal, s, steps)
    ensures Inv(normal, Run(normal, s, steps))
    decreases |steps|
  {
    hide Inv, Apply, Observed;
    if steps != [] {
      StepKeeps(normal, s, steps[0]);
      RunKeeps(normal, Apply(normal, s, steps[0]), steps[1..]);
    }
  }

  /** The attributes that the indexes are over, in terms of the fields beside them. */
  ghost predicate IndexesAre(normal: string -> string, item: Item, p: Product) {
    && {Category, Status, Name, NormalizedName, CategoryStatusKey} <= item.Keys
    && item[Category] == Text(p.category) && item[Status] == Text(p.status) && item[Name] == Text(p.name)
    && item[CategoryStatusKey] == Text(p.category + "#" + p.status) && item[NormalizedName] == Text(normal(p.name))
    && (NormalizedManufacturer in item <==> p.manufacturer.Some?) && (NormalizedModelNumber in item <==> p.modelNumber.Some?)
    && (NormalizedManufacturer in item && p.manufacturer.Some? ==> item[NormalizedManufacturer] == Text(normal(p.manufacturer.value)))
    && (NormalizedModelNumber in item && p.modelNumber.Some? ==> item[NormalizedModelNumber] == Text(normal(p.modelNumber.value)))
  }

  lemma IndexesOfItem(normal: string -> string, p: Product)
    ensures IndexesAre(normal, ItemOf(normal, p), p)
  {
  }

  /** However callers interleave, every stored product has the index attributes its fields call for,
      so the category-and-status key is its category and status, as long as each readiness
      transition is asked for at a version the product has had. */
  lemma IndexKeysAreDerived(normal: string -> string, steps: seq<Step>, id: Id)
    requires ObservedRun(normal, INITIAL, steps)
    ensures var items := Run(normal, INITIAL, steps).items;
      id in items ==> exists p :: items[id] == ItemOf(normal, p) && IndexesAre(normal, items[id], p)
  {
    RunKeeps(normal, INITIAL, steps);
    var items := Run(normal, INITIAL, steps).items;
    hide Run, ObservedRun, MarkInv;
    if id in items {
      assert Indexed(normal, items[id]);
      var p :| items[id] == ItemOf(normal, p);
      IndexesOfItem(normal, p);
    }
  }

  // ----- the table is a store of versioned products ------------------------------------------------

  /** The product that an identifier's item was written for. */
  ghost function ProductAt(normal: string -> string, items: map<Id, Item>, id: Id): Option<Product> {
    if id in items && Indexed(normal, items[id]) then
      var p :| items[id] == ItemOf(normal, p);
      Some(p)
    else None
  }

  /** What a step does to the product of one identifier, `was` before it and `now` after it. */
  ghost predicate Writes(s: State, step: Step, id: Id, was: Option<Product>, now: Option<Product>) {
    match step
    case Create(i, product) => now == if i == id && id !in s.used then Some(product) else was
    case Update(i, product, expected) =>
      now == if i == id && was.Some? && was.value.version == expected then Some(product.(version := expected + 1)) else was
    case Delete(i, expected) => now == if i == id && was.Some? && was.value.version == expected then None else was
    case BeginMark(_, _, _, _) => now == was
    case EndMark(p) =>
      now == if && p in s.marks && s.marks[p].id == id && was.Some?
                && was.value.version == s.marks[p].expected && was.value.status == s.marks[p].status
             then Some(was.value.(status := READY, version := was.value.version + 1)) else was
  }

  lemma ProductIs(normal: string -> string, items: map<Id, Item>, id: Id, p: Product)
    requires id in items && items[id] == ItemOf(normal, p)
    ensures ProductAt(normal, items, id) == Some(p)
  {
    hide ItemOf;
    assert Indexed(normal, items[id]);
    var q := ProductAt(normal, items, id).value;
    ItemsAreFaithful(normal, p, q);
  }

  lemma NoProduct(normal: string -> string, items: map<Id, Item>, id: Id)
    requires id !in items
    ensures ProductAt(normal, items, id) == None
  {
  }

  lemma NotAtVersion(items: map<Id, Item>, id: Id)
    requires id !in items
    ensures forall expected :: !AtVersion(items, id, expected)
    ensures forall category, expected, status :: MarkedReady(items, id, category, expected, status) == items
  {
  }

  lemma UsedIfStored(normal: string -> string, s: State, id: Id)
    requires Inv(normal, s) && id in s.items
    ensures id in s.used
  {
  }

  lemma AtVersionIff(normal: string -> string, items: map<Id, Item>, id: Id, p: Product, expected: int)
    requires id in items && items[id] == ItemOf(normal, p)
    ensures AtVersion(items, id, expected) <==> p.version == expected
    ensures forall status :: MayMarkReady(items, id, expected, status) <==> p.version == expected && p.status == status
  {
    ItemFields(normal, p);
    hide ItemOf;
  }

  /** A transition whose version is still the product's has read the product's category. */
  lemma MarkReads(normal: string -> string, s: State, m: Mark, was: Product)
    requires MarkInv(s, m) && m.id in s.items && s.items[m.id] == ItemOf(normal, was) && was.version == m.expected
    ensures m.category == was.category
  {
    ItemParts(normal, was);
    hide ItemOf, VersionOf, CategoryOf;
  }

  lemma ReadyWrites(normal: string -> string, s: State, m: Mark, was: Product)
    requires MarkInv(s, m) && m.id in s.items && s.items[m.id] == ItemOf(normal, was)
    ensures ProductAt(normal, MarkedReady(s.items, m.id, m.category, m.expected, m.status), m.id) ==
      Some(if was.version == m.expected && was.status == m.status then was.(status := READY, version := was.version + 1) else was)
  {
    hide MarkInv, ItemOf, Assigned, AtVersion, MayMarkReady, ReadyParts, ProductAt;
    AtVersionIff(normal, s.items, m.id, was, m.expected);
    if MayMarkReady(s.items, m.id, m.expected, m.status) {
      MarkReads(normal, s, m, was);
      ReadyIsItem(normal, was, m.expected + 1);
      ProductIs(normal, MarkedReady(s.items, m.id, m.category, m.expected, m.status), m.id,
                was.(status := READY, version := m.expected + 1));
    } else {
      ProductIs(normal, s.items, m.id, was);
    }
  }

  lemma StoredProduct(normal: string -> string, s: State, id: Id) returns (was: Product)
    requires Inv(normal, s) && id in s.items
    ensures s.items[id] == ItemOf(normal, was) && ProductAt(normal, s.items, id) == Some(was)
  {
    hide ItemOf, MarkInv;
    assert Indexed(normal, s.items[id]);
    was :| s.items[id] == ItemOf(normal, was);
    ProductIs(normal, s.items, id, was);
  }

  lemma ElsewhereUnchanged(normal: string -> string, items: map<Id, Item>, items': map<Id, Item>, id: Id)
    requires (id in items <==> id in items') && (id in items ==> items[id] == items'[id])
    ensures ProductAt(normal, items, id) == ProductAt(normal, items', id)
  {
    hide ItemOf;
    if id in items && Indexed(normal, items[id]) {
      var p :| items[id] == ItemOf(normal, p);
      ProductIs(normal, items, id, p);
      ProductIs(normal, items', id, p);
    }
  }

  lemma WritesThere(normal: string -> string, s: State, step: Step, id: Id)
    requires Inv(normal, s) && (step.Create? || step.Update? || step.Delete?) && step.id == id
    ensures Writes(s, step, id, ProductAt(normal, s.items, id), ProductAt(normal, Apply(normal, s, step).items, id))
  {
    hide Inv, ItemOf, AtVersion, ProductAt;
    var items := Apply(normal, s, step).items;
    if id in s.items {
      var was := StoredProduct(normal, s, id);
      if step.Create? {
        UsedIfStored(normal, s, id);
      } else {
        AtVersionIff(normal, s.items, id, was, step.expected);
        if step.Update? && was.version == step.expected {
          ProductIs(normal, items, id, step.product.(version := step.expected + 1));
        } else if step.Delete? && was.version == step.expected {
          NoProduct(normal, items, id);
        }
      }
    } else {
      NoProduct(normal, s.items, id);
      NotAtVersion(s.items, id);
      if step.Create? && id !in s.used { ProductIs(normal, items, id, step.product); }
    }
  }

  lemma WritesElsewhere(normal: string -> string, s: State, step: Step, id: Id)
    requires match step
      case EndMark(p) => p in s.marks ==> s.marks[p].id != id
      case BeginMark(_, _, _, _) => true
      case _ => step.id != id
    ensures Writes(s, step, id, ProductAt(normal, s.items, id), ProductAt(normal, Apply(normal, s, step).items, id))
  {
    hide ItemOf, ProductAt, MayMarkReady, AtVersion, Assigned;
    ElsewhereUnchanged(normal, s.items, Apply(normal, s, step).items, id);
  }

  lemma MarkWrites(normal: string -> string, s: State, step: Step, id: Id)
    requires Inv(normal, s) && step.EndMark? && step.p in s.marks && s.marks[step.p].id == id
    ensures Writes(s, step, id, ProductAt(normal, s.items, id), ProductAt(normal, Apply(normal, s, step).items, id))
  {
    hide Inv, ItemOf, MarkedReady, ProductAt, MarkInv;
    MarkParts(normal, s, step.p);
    if id in s.items {
      var was := StoredProduct(normal, s, id);
      ReadyWrites(normal, s, s.marks[step.p], was);
    } else {
      NoProduct(normal, s.items, id);
      NotAtVersion(s.items, id);
    }
  }

  lemma StepWrites(normal: string -> string, s: State, step: Step, id: Id)
    requires Inv(normal, s)
    ensures Writes(s, step, id, ProductAt(normal, s.items, id), ProductAt(normal, Apply(normal, s, step).items, id))
  {
    hide *;
    if (step.Create? || step.Update? || step.Delete?) && step.id == id {
      WritesThere(normal, s, step, id);
    } else if step.EndMark? && step.p in s.marks && s.marks[step.p].id == id {
      MarkWrites(normal, s, step, id);
    } else {
      WritesElsewhere(normal, s, step, id);
    }
  }

  /** Identifiers stay used, and a transition waits with what it was asked for until it is written. */
  lemma StepWaits(normal: string -> string, s: State, step: Step)
    requires Inv(normal, s)
    ensures var s' := Apply(normal, s, step);
      && s'.used == s.used + (if step.Create? then {step.id} else {})
      && (forall p :: p in s'.marks <==> if step.BeginMark? && step.p == p then p in s.marks || step.id in s.items
                                         else p in s.marks && step != EndMark(p))
      && (forall p :: p in s.marks && p in s'.marks ==> s'.marks[p] == s.marks[p])
      && (step.BeginMark? && step.p !in s.marks && step.id in s.items ==>
            var m := s'.marks[step.p]; m.id == step.id && m.expected == step.expected && m.status == step.status)
  {
  }

  /** However callers interleave, the table is a plain store of versioned products: a new product is
      put under an identifier never used; an update, a deletion and a readiness transition happen
      exactly when the product has the version they were asked for (and the status, for the last);
      and nothing else changes. */
  lemma StoreOfProducts(normal: string -> string, steps: seq<Step>, step: Step, id: Id)
    requires ObservedRun(normal, INITIAL, steps)
    ensures var s := Run(normal, INITIAL, steps);
      Writes(s, step, id, ProductAt(normal, s.items, id), ProductAt(normal, Apply(normal, s, step).items, id))
  {
    RunKeeps(normal, INITIAL, steps);
    StepWrites(normal, Run(normal, INITIAL, steps), step, id);
  }

  // ----- why the version must have been observed ------------------------------------------------

  /** One product, read as `before` by a transition that waits for version `expected`. */
  function Waiting(normal: string -> string, id: Id, before: Product, now: Product, expected: int): State {
    State(map[id := ItemOf(normal, now)], {id}, map[0 := Mark(id, before.category, expected, before.status, before.version)])
  }

  /** Updates of the product to `after`, from one version up to another. */
  function Updates(id: Id, after: Product, from: int, to: int): seq<Step>
    decreases to - from
  {
    if from >= to then [] else [Update(id, after, from)] + Updates(id, after, from + 1, to)
  }

  lemma {:induction false} UpdatesReach(normal: string -> string, id: Id, before: Product, now: Product, after: Product, expected: int)
    requires now.version <= expected && (now.version == expected ==> now == after.(version := expected))
    ensures Run(normal, Waiting(normal, id, before, now, expected), Updates(id, after, now.version, expected) + [EndMark(0)])
            == Apply(normal, Waiting(normal, id, before, after.(version := expected), expected), EndMark(0))
    decreases expected - now.version
  {
    hide Apply, Waiting;
    var steps := Updates(id, after, now.version, expected) + [EndMark(0)];
    if now.version == expected {
      assert steps == [EndMark(0)] && steps[1..] == [];
    } else {
      var next := after.(version := now.version + 1);
      assert steps[0] == Update(id, after, now.version);
      assert steps[1..] == Updates(id, after, next.version, expected) + [EndMark(0)];
      UpdateReaches(normal, id, before, now, after, expected);
      UpdatesReach(normal, id, before, next, after, expected);
    }
  }

  lemma UpdateReaches(normal: string -> string, id: Id, before: Product, now: Product, after: Product, expected: int)
    ensures Apply(normal, Waiting(normal, id, before, now, expected), Update(id, after, now.version))
            == Waiting(normal, id, before, after.(version := now.version + 1), expected)
  {
    hide ItemOf;
    ItemParts(normal, now);
    var next := ItemOf(normal, after.(version := now.version + 1));
    assert map[id := ItemOf(normal, now)][id := next] == map[id := next];
  }

  /** A product is created and a transition of it begins. */
  function Begun(id: Id, before: Product, expected: int): seq<Step> {
    [Create(id, before), BeginMark(0, id, expected, before.status)]
  }

  lemma BegunWaits(normal: string -> string, id: Id, before: Product, expected: int, rest: seq<Step>)
    ensures Run(normal, INITIAL, Begun(id, before, expected) + rest) == Run(normal, Waiting(normal, id, before, before, expected), rest)
  {
    hide ItemOf, CategoryOf, VersionOf;
    ItemParts(normal, before);
    var steps := Begun(id, before, expected) + rest;
    assert steps[1..][1..] == rest;
    var created := State(map[id := ItemOf(normal, before)], {id}, map[]);
    assert INITIAL.items[id := ItemOf(normal, before)] == created.items && INITIAL.used + {id} == created.used;
    assert Apply(normal, INITIAL, steps[0]) == created;
    assert Apply(normal, created, steps[1..][0]) == Waiting(normal, id, before, before, expected);
  }

  /** A transition asked for at any later version than the one it reads can be overtaken: the key
      then names the category it read, and the product has another. */
  lemma UnobservedVersionBreaksKey(normal: string -> string, id: Id, before: Product, after: Product, expected: int)
    requires before.version < expected && after.category != before.category && after.status == before.status
    ensures var item := Run(normal, INITIAL, Begun(id, before, expected)
                            + (Updates(id, after, before.version, expected) + [EndMark(0)])).items;
      && id in item && CategoryOf(item[id]) == after.category
      && CategoryStatusKey in item[id] && item[id][CategoryStatusKey] == Text(before.category + "#" + READY)
      && item[id][CategoryStatusKey] != Text(KeyOf(after.category, READY))
  {
    hide Run, ItemOf, Assigned, Updates, Apply, Waiting, Begun;
    BegunWaits(normal, id, before, expected, Updates(id, after, before.version, expected) + [EndMark(0)]);
    UpdatesReach(normal, id, before, before, after, expected);
    var now := after.(version := expected);
    var item := ItemOf(normal, now);
    ItemFields(normal, now);
    AssignedThree(item, (Status, Text(READY)), (CategoryStatusKey, Text(KeyOf(before.category, READY))),
                  (Version, Number(expected + 1)));
    KeysDiffer(before.category, after.category);
    MarkFires(normal, id, before, now, expected);
  }

  lemma MarkFires(normal: string -> string, id: Id, before: Product, now: Product, expected: int)
    requires now.version == expected && now.status == before.status
    ensures var s := Apply(normal, Waiting(normal, id, before, now, expected), EndMark(0));
      id in s.items && s.items[id] == Assigned(ItemOf(normal, now), ReadyParts(before.category, expected + 1))
  {
    ItemFields(normal, now);
    hide ItemOf, Assigned;
  }

  lemma KeysDiffer(a: string, b: string)
    requires a != b
    ensures KeyOf(a, READY) != KeyOf(b, READY)
  {
    if |a| == |b| {
      assert KeyOf(a, READY)[..|a|] == a && KeyOf(b, READY)[..|b|] == b;
    }
  }
}
