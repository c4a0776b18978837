/** The insert-or-skip store of seektam/db/loader.py and
    seektam/crawl/loader.py, as a value: the food and aliment tables keyed by
    their unique `name`, each with the id its next inserted row receives, and
    the set of (food id, aliment id) links. The link table's primary key is
    the pair itself, so it is a set. */
module Store {
  import opened Wrappers
  import opened Schema

  /** One table: the stored rows by name, and the next autoincrement id. */
  datatype Table = Table(byName: map<string, Row>, nextId: nat)

  const EmptyTable: Table := Table(map[], 1)

  datatype Db = Db(foods: Table, aliments: Table, links: set<(nat, nat)>)

  const EmptyDb: Db := Db(EmptyTable, EmptyTable, {})

  function TableOf(db: Db, kind: Kind): Table
  {
    if kind == FoodKind then db.foods else db.aliments
  }

  function WithTable(db: Db, kind: Kind, t: Table): (r: Db)
    ensures TableOf(r, kind) == t && r.links == db.links
    ensures forall other :: other != kind ==> TableOf(r, other) == TableOf(db, other)
  {
    if kind == FoodKind then db.(foods := t) else db.(aliments := t)
  }

  /** Every row sits under its own name, belongs to the table's kind, and has
      an id below the counter; no two rows share an id. */
  ghost predicate ValidTable(t: Table, kind: Kind)
  {
    && (forall name :: name in t.byName ==>
          t.byName[name].record.name == name && t.byName[name].record.Kind() == kind
          && t.byName[name].id < t.nextId)
    && (forall a, b :: a in t.byName && b in t.byName && a != b ==> t.byName[a].id != t.byName[b].id)
  }

  function Ids(t: Table): set<nat>
  {
    set name | name in t.byName :: t.byName[name].id
  }

  /** The schema's constraints: unique names and ids, and links that refer to
      stored rows. */
  ghost predicate Valid(db: Db)
  {
    && ValidTable(db.foods, FoodKind)
    && ValidTable(db.aliments, AlimentKind)
    && (forall link :: link in db.links ==> link.0 in Ids(db.foods) && link.1 in Ids(db.aliments))
  }

  /** Whether `query(model).filter(filter).all()` is non-empty. */
  predicate AnyMatch(t: Table, filter: Record -> bool)
  {
    exists name :: name in t.byName && filter(t.byName[name].record)
  }

  /** The filter `Model.name == name`. */
  function NameIs(name: string): Record -> bool
  {
    (r: Record) => r.name == name
  }

  /** `session.add(instance)` followed by a successful commit. */
  function Insert(t: Table, instance: Record): Table
  {
    Table(t.byName[instance.name := Row(t.nextId, instance)], t.nextId + 1)
  }

  /** add_model: skip (False) when the query over `kind` finds a row;
      otherwise insert the instance into its own table and answer True. The
      commit fails on a taken name, and that error propagates. */
  function AddModel(db: Db, kind: Kind, filter: Record -> bool, instance: Record): (Db, Result<bool>)
  {
    if AnyMatch(TableOf(db, kind), filter) then (db, Ok(false))
    else
      var t := TableOf(db, instance.Kind());
      if instance.name in t.byName then (db, Err(IntegrityError))
      else (WithTable(db, instance.Kind(), Insert(t, instance)), Ok(true))
  }

  function AddFood(db: Db, mfood: Record): (Db, Result<bool>)
  {
    AddModel(db, FoodKind, NameIs(mfood.name), mfood)
  }

  function AddAliment(db: Db, maliment: Record): (Db, Result<bool>)
  {
    AddModel(db, AlimentKind, NameIs(maliment.name), maliment)
  }

  /** add_food_aliment: both `.one()` lookups must succeed; the new link's
      commit failing on a duplicate pair is swallowed, which leaves the same
      set as inserting it. */
  function AddFoodAliment(db: Db, mfood: Record, maliment: Record): (Db, Result<()>)
  {
    if mfood.name !in db.foods.byName || maliment.name !in db.aliments.byName then (db, Err(NoResultFound))
    else
      var link := (db.foods.byName[mfood.name].id, db.aliments.byName[maliment.name].id);
      (db.(links := db.links + {link}), Ok(()))
  }

  /** Skipping and failing change nothing; True means exactly one row, the
      instance under a fresh id, was added to the instance's table. */
  lemma AddModelOutcome(db: Db, kind: Kind, filter: Record -> bool, instance: Record)
    ensures var (after, r) := AddModel(db, kind, filter, instance);
      && (r == Ok(false) <==> AnyMatch(TableOf(db, kind), filter))
      && (r != Ok(true) ==> after == db)
      && (r == Ok(true) ==>
            var t := TableOf(db, instance.Kind());
            var t' := TableOf(after, instance.Kind());
            && instance.name !in t.byName
            && t'.byName.Keys == t.byName.Keys + {instance.name}
            && |t'.byName| == |t.byName| + 1
            && t'.byName[instance.name] == Row(t.nextId, instance)
            && (forall name :: name in t.byName ==> t'.byName[name] == t.byName[name])
            && (forall k :: k != instance.Kind() ==> TableOf(after, k) == TableOf(db, k))
            && after.links == db.links)
  {
  }

  /** Every table operation keeps the schema's constraints. */
  lemma AddModelValid(db: Db, kind: Kind, filter: Record -> bool, instance: Record)
    requires Valid(db)
    ensures Valid(AddModel(db, kind, filter, instance).0)
  {
    var (after, r) := AddModel(db, kind, filter, instance);
    if r == Ok(true) {
      var k := instance.Kind();
      var t := TableOf(db, k);
      var t' := Insert(t, instance);
      assert ValidTable(t, k);
      assert ValidTable(t', k);
      assert Ids(t) <= Ids(t') by {
        forall id | id in Ids(t) ensures id in Ids(t') {
          var name :| name in t.byName && t.byName[name].id == id;
          assert t'.byName[name].id == id;
        }
      }
    }
  }

  /** Under the schema, a name filter over the instance's own table matches
      exactly when the name is stored. */
  lemma NameFilterMatches(t: Table, kind: Kind, name: string)
    requires ValidTable(t, kind)
    ensures AnyMatch(t, NameIs(name)) <==> name in t.byName
  {
    if name in t.byName {
      assert NameIs(name)(t.byName[name].record);
    }
  }

  /** add_food never fails: it answers True exactly when the name was new,
      and afterwards the name is stored. */
  lemma AddFoodOutcome(db: Db, mfood: Record)
    requires Valid(db) && mfood.Food?
    ensures var (after, r) := AddFood(db, mfood);
      && r == Ok(mfood.name !in db.foods.byName)
      && mfood.name in after.foods.byName
      && after.aliments == db.aliments && after.links == db.links
  {
    NameFilterMatches(db.foods, FoodKind, mfood.name);
  }

  /** add_aliment never fails: it answers True exactly when the name was new,
      and afterwards the name is stored. */
  lemma AddAlimentOutcome(db: Db, maliment: Record)
    requires Valid(db) && maliment.Aliment?
    ensures var (after, r) := AddAliment(db, maliment);
      && r == Ok(maliment.name !in db.aliments.byName)
      && maliment.name in after.aliments.byName
      && after.foods == db.foods && after.links == db.links
  {
    NameFilterMatches(db.aliments, AlimentKind, maliment.name);
  }

  /** Adding the same food twice answers True then False, and the second
      call changes nothing. */
  lemma AddFoodTwice(db: Db, mfood: Record)
    requires Valid(db) && mfood.Food? && mfood.name !in db.foods.byName
    ensures var (once, r1) := AddFood(db, mfood);
      var (twice, r2) := AddFood(once, mfood);
      r1 == Ok(true) && r2 == Ok(false) && twice == once
  {
    AddFoodOutcome(db, mfood);
    AddModelValid(db, FoodKind, NameIs(mfood.name), mfood);
    AddFoodOutcome(AddFood(db, mfood).0, mfood);
  }

  /** Adding the same aliment twice answers True then False, and the second
      call changes nothing. */
  lemma AddAlimentTwice(db: Db, maliment: Record)
    requires Valid(db) && maliment.Aliment? && maliment.name !in db.aliments.byName
    ensures var (once, r1) := AddAliment(db, maliment);
      var (twice, r2) := AddAliment(once, maliment);
      r1 == Ok(true) && r2 == Ok(false) && twice == once
  {
    AddAlimentOutcome(db, maliment);
    AddModelValid(db, AlimentKind, NameIs(maliment.name), maliment);
    AddAlimentOutcome(AddAliment(db, maliment).0, maliment);
  }

  /** The link is made exactly when both names are stored, between their
      stored ids; the tables never change. */
  lemma AddFoodAlimentOutcome(db: Db, mfood: Record, maliment: Record)
    ensures var (after, r) := AddFoodAliment(db, mfood, maliment);
      && (r.Ok? <==> mfood.name in db.foods.byName && maliment.name in db.aliments.byName)
      && after.foods == db.foods && after.aliments == db.aliments
      && (r.Err? ==> r.error == NoResultFound && after == db)
      && (r.Ok? ==> after.links == db.links + {(db.foods.byName[mfood.name].id, db.aliments.byName[maliment.name].id)})
  {
  }

  /** A second identical link request changes nothing. */
  lemma AddFoodAlimentIdempotent(db: Db, mfood: Record, maliment: Record)
    ensures var once := AddFoodAliment(db, mfood, maliment);
      AddFoodAliment(once.0, mfood, maliment) == once
  {
  }

  /** add_food_aliment of seektam/crawl/loader.py, as written: after both
      `.one()` lookups it instantiates `FoodAlimentRelation` from
      seektam/model/koreafood.py, a module that defines no such class, so
      the attribute lookup raises before anything is added. */
  function CrawlAddFoodAliment(db: Db, mfood: Record, maliment: Record): (Db, Result<()>)
  {
    if mfood.name !in db.foods.byName || maliment.name !in db.aliments.byName then (db, Err(NoResultFound))
    else (db, Err(AttributeError))
  }

  /** As written, the crawl loader's add_food_aliment never links anything:
      it fails with NoResultFound when a name is not stored and with
      AttributeError when both are, while the db loader's version links the
      pair in exactly that second case. */
  lemma CrawlAddFoodAlimentNeverLinks(db: Db, mfood: Record, maliment: Record)
    ensures var (after, r) := CrawlAddFoodAliment(db, mfood, maliment);
      && after == db && r.Err?
      && (r.error == AttributeError <==> AddFoodAliment(db, mfood, maliment).1.Ok?)
      && (r.error == AttributeError ==>
            (db.foods.byName[mfood.name].id, db.aliments.byName[maliment.name].id)
              in AddFoodAliment(db, mfood, maliment).0.links)
  {
  }

  /** On fresh tables holding one food and one aliment, the crawl loader's
      add_food_aliment leaves the link table empty where the db loader's
      links the two rows. */
  lemma CrawlLinkExample()
    ensures var f := Food("bibimbap", "rice", "mixed");
      var a := Aliment("rice", map[]);
      var db := AddAliment(AddFood(EmptyDb, f).0, a).0;
      && db.foods.byName.Keys == {"bibimbap"} && db.aliments.byName.Keys == {"rice"}
      && CrawlAddFoodAliment(db, f, a) == (db, Err(AttributeError)) && db.links == {}
      && AddFoodAliment(db, f, a).0.links == {(1, 1)}
  {
    var f := Food("bibimbap", "rice", "mixed");
    var a := Aliment("rice", map[]);
    assert !AnyMatch(EmptyTable, NameIs(f.name));
    var db1 := AddFood(EmptyDb, f).0;
    assert db1.foods.byName == map["bibimbap" := Row(1, f)];
    assert !AnyMatch(db1.aliments, NameIs(a.name));
    var db := AddAliment(db1, a).0;
    assert db.aliments.byName == map["rice" := Row(1, a)];
  }

  /** Linking keeps the schema's constraints. */
  lemma AddFoodAlimentValid(db: Db, mfood: Record, maliment: Record)
    requires Valid(db)
    ensures Valid(AddFoodAliment(db, mfood, maliment).0)
  {
    if mfood.name in db.foods.byName && maliment.name in db.aliments.byName {
      assert db.foods.byName[mfood.name].id in Ids(db.foods);
      assert db.aliments.byName[maliment.name].id in Ids(db.aliments);
    }
  }
}
