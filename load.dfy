/** The load loop of seektam/db/loader.py: for every scraped dish, build its
    food record and aliments against the stored content, add the food, then
    add each aliment and link it to the food. An exception anywhere ends the
    whole load, with everything committed before it kept. */
module Load {
  import opened Wrappers
  import opened Schema
  import KoreaFood
  import Store
  import Database
  import Normalise

  // ---------------------------------------------------------------------
  // What the loop does, as functions of the stored content
  // ---------------------------------------------------------------------

  /** The aliment loop from aliment `i` on: add the aliment, then link it to
      the food; the first error ends the loop. */
  function LinkAll(db: Store.Db, mfood: Record, aliments: seq<Record>, i: nat): (Store.Db, Result<()>)
    requires i <= |aliments|
    decreases |aliments| - i
  {
    if i == |aliments| then (db, Ok(()))
    else
      var (db1, added) := Store.AddAliment(db, aliments[i]);
      if added.Err? then (db1, Err(added.error))
      else
        var (db2, linked) := Store.AddFoodAliment(db1, mfood, aliments[i]);
        if linked.Err? then (db2, Err(linked.error))
        else LinkAll(db2, mfood, aliments, i + 1)
  }

  /** One turn of the loop: food_to_model, then add_food, then the aliment
      loop. */
  function LoadFood(db: Store.Db, food: KoreaFood.Food, keys: seq<string>, columns: seq<Column>)
    : (Store.Db, Result<()>)
  {
    match Normalise.ModelOf(Normalise.DbLoader, db, food, keys, columns)
    case Err(e) => (db, Err(e))
    case Ok(m) =>
      var (db1, added) := Store.AddFood(db, m.food);
      if added.Err? then (db1, Err(added.error))
      else LinkAll(db1, m.food, m.aliments, 0)
  }

  /** The loop over the dishes from dish `i` on; `keyOrders[i]` is the order
      in which dish `i`'s ingredients are visited. */
  function LoadAll(db: Store.Db, foods: seq<KoreaFood.Food>, keyOrders: seq<seq<string>>, columns: seq<Column>,
                   i: nat): (Store.Db, Result<()>)
    requires |keyOrders| == |foods| && i <= |foods|
    decreases |foods| - i
  {
    if i == |foods| then (db, Ok(()))
    else
      var (db1, r) := LoadFood(db, foods[i], keyOrders[i], columns);
      if r.Err? then (db1, r)
      else LoadAll(db1, foods, keyOrders, columns, i + 1)
  }

  /** Every dish's ingredient order lists its ingredients once each. */
  predicate KeyOrders(foods: seq<KoreaFood.Food>, keyOrders: seq<seq<string>>)
  {
    |keyOrders| == |foods| && forall i :: 0 <= i < |foods| ==> Normalise.Enumerates(keyOrders[i], foods[i].aliment)
  }

  // ---------------------------------------------------------------------
  // The loop
  // ---------------------------------------------------------------------

  /** The body of the load loop for one dish. */
  method LoadDish(sess: Database.Session, food: KoreaFood.Food, keys: seq<string>, columns: seq<Column>)
    returns (r: Result<()>)
    requires Normalise.Enumerates(keys, food.aliment)
    modifies sess
    ensures (sess.State(), r) == LoadFood(old(sess.State()), food, keys, columns)
  {
    var model := Normalise.FoodToModel(sess, Normalise.DbLoader, food, keys, columns);
    if model.Err? {
      return Err(model.error);
    }
    var mfood := model.value.food;
    var aliments := model.value.aliments;
    var added := sess.AddFood(mfood);
    if added.Err? {
      return Err(added.error);
    }
    ghost var start := sess.State();
    for j := 0 to |aliments|
      invariant LinkAll(start, mfood, aliments, 0) == LinkAll(sess.State(), mfood, aliments, j)
    {
      var isNew := sess.AddAliment(aliments[j]);
      if isNew.Err? {
        return Err(isNew.error);
      }
      var linked := sess.AddFoodAliment(mfood, aliments[j]);
      if linked.Err? {
        return Err(linked.error);
      }
    }
    return Ok(());
  }

  /** The load loop over the scraped dishes, building aliments with the
      loaders' 16-name column list `SourceColumns`, as the program does. */
  method Loader(sess: Database.Session, foods: seq<KoreaFood.Food>, keyOrders: seq<seq<string>>)
    returns (r: Result<()>)
    requires KeyOrders(foods, keyOrders)
    modifies sess
    ensures (sess.State(), r) == LoadAll(old(sess.State()), foods, keyOrders, SourceColumns, 0)
  {
    for i := 0 to |foods|
      invariant LoadAll(old(sess.State()), foods, keyOrders, SourceColumns, 0)
             == LoadAll(sess.State(), foods, keyOrders, SourceColumns, i)
    {
      var done := LoadDish(sess, foods[i], keyOrders[i], SourceColumns);
      if done.Err? {
        return done;
      }
    }
    return Ok(());
  }

  // ---------------------------------------------------------------------
  // What a load leaves behind
  // ---------------------------------------------------------------------

  /** `after` keeps every stored row as it was and every link. */
  ghost predicate Grows(db: Store.Db, after: Store.Db)
  {
    && (forall n :: n in db.foods.byName ==> n in after.foods.byName && after.foods.byName[n] == db.foods.byName[n])
    && (forall n :: n in db.aliments.byName ==>
          n in after.aliments.byName && after.aliments.byName[n] == db.aliments.byName[n])
    && db.links <= after.links
  }

  /** The food and the aliment are stored under these names and linked. */
  ghost predicate Linked(db: Store.Db, foodName: string, alimentName: string)
  {
    && foodName in db.foods.byName && alimentName in db.aliments.byName
    && (db.foods.byName[foodName].id, db.aliments.byName[alimentName].id) in db.links
  }

  /** The dish is stored, and so is each of its listed ingredients, linked
      to it. */
  ghost predicate Covered(db: Store.Db, food: KoreaFood.Food, keys: seq<string>)
  {
    food.name in db.foods.byName && forall key :: key in keys ==> Linked(db, food.name, key)
  }

  lemma GrowsTransitive(db: Store.Db, mid: Store.Db, after: Store.Db)
    requires Grows(db, mid) && Grows(mid, after)
    ensures Grows(db, after)
  {
  }

  lemma LinkedGrows(db: Store.Db, after: Store.Db, foodName: string, alimentName: string)
    requires Linked(db, foodName, alimentName) && Grows(db, after)
    ensures Linked(after, foodName, alimentName)
  {
  }

  lemma CoveredGrows(db: Store.Db, after: Store.Db, food: KoreaFood.Food, keys: seq<string>)
    requires Covered(db, food, keys) && Grows(db, after)
    ensures Covered(after, food, keys)
  {
    forall key | key in keys ensures Linked(after, food.name, key) {
      LinkedGrows(db, after, food.name, key);
    }
  }

  /** Under the schema, add_food never fails, keeps the constraints and
      every stored row, and leaves the food stored. */
  lemma AddFoodStep(db: Store.Db, mfood: Record)
    requires Store.Valid(db) && mfood.Food?
    ensures var (after, r) := Store.AddFood(db, mfood);
      r.Ok? && Store.Valid(after) && Grows(db, after) && mfood.name in after.foods.byName
  {
    Store.AddFoodOutcome(db, mfood);
    Store.AddModelValid(db, FoodKind, Store.NameIs(mfood.name), mfood);
    Store.AddModelOutcome(db, FoodKind, Store.NameIs(mfood.name), mfood);
  }

  /** Under the schema and with the food stored, add_aliment followed by
      add_food_aliment never fails, keeps the constraints and every stored
      row, and leaves the aliment stored and linked to the food. */
  lemma LinkStep(db: Store.Db, mfood: Record, a: Record)
    requires Store.Valid(db) && mfood.name in db.foods.byName && a.Aliment?
    ensures var (db1, added) := Store.AddAliment(db, a);
      var (db2, linked) := Store.AddFoodAliment(db1, mfood, a);
      && added.Ok? && linked.Ok?
      && Store.Valid(db2) && Grows(db, db2) && Linked(db2, mfood.name, a.name)
  {
    Store.AddAlimentOutcome(db, a);
    Store.AddModelValid(db, AlimentKind, Store.NameIs(a.name), a);
    Store.AddModelOutcome(db, AlimentKind, Store.NameIs(a.name), a);
    var (db1, _) := Store.AddAliment(db, a);
    assert Grows(db, db1);
    Store.AddFoodAlimentOutcome(db1, mfood, a);
    Store.AddFoodAlimentValid(db1, mfood, a);
  }

  /** Under the schema, the aliment loop never fails once the food is
      stored: it keeps the schema's constraints and every stored row, and
      leaves each aliment stored and linked to the food. */
  lemma {:induction false} LinkAllCovers(db: Store.Db, mfood: Record, aliments: seq<Record>, i: nat)
    requires i <= |aliments| && Store.Valid(db)
    requires mfood.name in db.foods.byName
    requires forall j :: i <= j < |aliments| ==> aliments[j].Aliment?
    ensures LinkAll(db, mfood, aliments, i).1 == Ok(())
    ensures Store.Valid(LinkAll(db, mfood, aliments, i).0)
    ensures Grows(db, LinkAll(db, mfood, aliments, i).0)
    ensures forall j :: i <= j < |aliments| ==> Linked(LinkAll(db, mfood, aliments, i).0, mfood.name, aliments[j].name)
    decreases |aliments| - i
  {
    if i < |aliments| {
      var a := aliments[i];
      LinkStep(db, mfood, a);
      var db2 := Store.AddFoodAliment(Store.AddAliment(db, a).0, mfood, a).0;
      assert LinkAll(db, mfood, aliments, i) == LinkAll(db2, mfood, aliments, i + 1);
      LinkAllCovers(db2, mfood, aliments, i + 1);
      var after := LinkAll(db2, mfood, aliments, i + 1).0;
      GrowsTransitive(db, db2, after);
      LinkedGrows(db2, after, mfood.name, a.name);
      assert LinkAll(db, mfood, aliments, i).0 == after;
      forall j | i <= j < |aliments| ensures Linked(after, mfood.name, aliments[j].name) {
        if j > i {
          assert i + 1 <= j < |aliments|;
        }
      }
    }
  }

  /** Under the schema, one turn fails exactly when food_to_model does, and
      then changes nothing. Otherwise it keeps the schema's constraints and
      every stored row, and leaves the dish and each ingredient stored and
      linked. */
  lemma LoadFoodCovers(db: Store.Db, food: KoreaFood.Food, keys: seq<string>, columns: seq<Column>)
    requires Store.Valid(db) && Normalise.Enumerates(keys, food.aliment)
    ensures var (after, r) := LoadFood(db, food, keys, columns);
      var model := Normalise.ModelOf(Normalise.DbLoader, db, food, keys, columns);
      && (r.Ok? <==> model.Ok?)
      && (r.Err? ==> after == db && r.error == model.error)
      && (r.Ok? ==> Store.Valid(after) && Grows(db, after) && Covered(after, food, keys))
  {
    var model := Normalise.ModelOf(Normalise.DbLoader, db, food, keys, columns);
    if model.Ok? {
      var m := model.value;
      var build := Normalise.Builder(Normalise.DbLoader, db, food, columns);
      Normalise.ModelMeaning(Normalise.DbLoader, db, food, keys, columns);
      forall j | 0 <= j < |keys| ensures m.aliments[j].Aliment? && m.aliments[j].name == keys[j] {
        Normalise.AlimentForMeaning(Normalise.DbLoader, db, food, keys[j], columns);
      }
      AddFoodStep(db, m.food);
      var (db1, _) := Store.AddFood(db, m.food);
      LinkAllCovers(db1, m.food, m.aliments, 0);
      var (after, _) := LinkAll(db1, m.food, m.aliments, 0);
      GrowsTransitive(db, db1, after);
      forall key | key in keys ensures Linked(after, food.name, key) {
        var j :| 0 <= j < |keys| && keys[j] == key;
        assert Linked(after, m.food.name, m.aliments[j].name);
      }
    }
  }

  /** Under the schema, the load loop keeps the schema's constraints, and
      after a load that does not fail every dish from `i` on is stored with
      each of its ingredients, linked to it, and every row stored before is
      still there unchanged. */
  lemma {:induction false} LoadAllCovers(db: Store.Db, foods: seq<KoreaFood.Food>, keyOrders: seq<seq<string>>,
                                         columns: seq<Column>, i: nat)
    requires KeyOrders(foods, keyOrders) && i <= |foods| && Store.Valid(db)
    ensures Store.Valid(LoadAll(db, foods, keyOrders, columns, i).0)
    ensures LoadAll(db, foods, keyOrders, columns, i).1.Ok? ==>
      && Grows(db, LoadAll(db, foods, keyOrders, columns, i).0)
      && forall l :: i <= l < |foods| ==> Covered(LoadAll(db, foods, keyOrders, columns, i).0, foods[l], keyOrders[l])
    decreases |foods| - i
  {
    if i < |foods| {
      LoadFoodCovers(db, foods[i], keyOrders[i], columns);
      var (db1, r1) := LoadFood(db, foods[i], keyOrders[i], columns);
      if r1.Ok? {
        assert LoadAll(db, foods, keyOrders, columns, i) == LoadAll(db1, foods, keyOrders, columns, i + 1);
        LoadAllCovers(db1, foods, keyOrders, columns, i + 1);
        var (after, r) := LoadAll(db1, foods, keyOrders, columns, i + 1);
        if r.Ok? {
          CoveredGrows(db1, after, foods[i], keyOrders[i]);
          GrowsTransitive(db, db1, after);
          forall l | i <= l < |foods| ensures Covered(after, foods[l], keyOrders[l]) {
            if l > i {
              assert i + 1 <= l < |foods|;
            }
          }
        }
      }
    }
  }

  /** Under the schema, the aliment loop over aliments already stored and
      linked to the stored food changes nothing. */
  lemma {:induction false} LinkAllUnchanged(db: Store.Db, mfood: Record, aliments: seq<Record>, i: nat)
    requires i <= |aliments| && Store.Valid(db)
    requires forall j :: i <= j < |aliments| ==> Linked(db, mfood.name, aliments[j].name)
    ensures LinkAll(db, mfood, aliments, i) == (db, Ok(()))
    decreases |aliments| - i
  {
    if i < |aliments| {
      var a := aliments[i];
      assert Linked(db, mfood.name, a.name);
      Store.NameFilterMatches(db.aliments, AlimentKind, a.name);
      assert Store.AddAliment(db, a) == (db, Ok(false));
      var link := (db.foods.byName[mfood.name].id, db.aliments.byName[a.name].id);
      assert db.links + {link} == db.links;
      assert Store.AddFoodAliment(db, mfood, a) == (db, Ok(()));
      LinkAllUnchanged(db, mfood, aliments, i + 1);
    }
  }

  /** Under the schema, a dish already stored with each ingredient stored
      and linked to it loads without change: every aliment is the stored
      one, and every add answers False. */
  lemma LoadFoodUnchanged(db: Store.Db, food: KoreaFood.Food, keys: seq<string>, columns: seq<Column>)
    requires Store.Valid(db) && Covered(db, food, keys)
    ensures LoadFood(db, food, keys, columns) == (db, Ok(()))
  {
    var build := Normalise.Builder(Normalise.DbLoader, db, food, columns);
    forall j | 0 <= j < |keys|
      ensures keys[j] in db.aliments.byName && build(keys[j]) == Ok(db.aliments.byName[keys[j]].record)
    {
      assert Linked(db, food.name, keys[j]);
      Normalise.AlimentForMeaning(Normalise.DbLoader, db, food, keys[j], columns);
    }
    Normalise.ModelMeaning(Normalise.DbLoader, db, food, keys, columns);
    var m := Normalise.ModelOf(Normalise.DbLoader, db, food, keys, columns).value;
    Store.NameFilterMatches(db.foods, FoodKind, food.name);
    assert Store.AddFood(db, m.food) == (db, Ok(false));
    forall j | 0 <= j < |m.aliments| ensures Linked(db, m.food.name, m.aliments[j].name) {
      assert Linked(db, food.name, keys[j]);
    }
    LinkAllUnchanged(db, m.food, m.aliments, 0);
  }

  /** Under the schema, the load loop over dishes that are all stored with
      their ingredients linked changes nothing. The `Ok` outcome holds of the
      model only: there every repeated link is a no-op, while the program's
      swallowed commit failure leaves its session needing a rollback, so the
      query after the first repeated link (if there is one) raises and ends
      the load. What the program shares with the model is that no row is
      inserted. */
  lemma {:induction false} LoadAllUnchanged(db: Store.Db, foods: seq<KoreaFood.Food>, keyOrders: seq<seq<string>>,
                                            columns: seq<Column>, i: nat)
    requires |keyOrders| == |foods| && i <= |foods| && Store.Valid(db)
    requires forall l :: i <= l < |foods| ==> Covered(db, foods[l], keyOrders[l])
    ensures LoadAll(db, foods, keyOrders, columns, i) == (db, Ok(()))
    decreases |foods| - i
  {
    if i < |foods| {
      LoadFoodUnchanged(db, foods[i], keyOrders[i], columns);
      LoadAllUnchanged(db, foods, keyOrders, columns, i + 1);
    }
  }

  /** Loading the same dishes a second time, after a load that did not
      fail, inserts nothing: no food, no aliment and no link is added. As for
      LoadAllUnchanged, the second load's `Ok` outcome is the model's: the
      program's session breaks at the first repeated link, and the query
      after it (if there is one) raises before anything could be inserted. */
  lemma LoadTwice(db: Store.Db, foods: seq<KoreaFood.Food>, keyOrders: seq<seq<string>>, columns: seq<Column>)
    requires KeyOrders(foods, keyOrders) && Store.Valid(db)
    ensures var (once, r) := LoadAll(db, foods, keyOrders, columns, 0);
      r.Ok? ==> LoadAll(once, foods, keyOrders, columns, 0) == (once, Ok(()))
  {
    LoadAllCovers(db, foods, keyOrders, columns, 0);
    var (once, r) := LoadAll(db, foods, keyOrders, columns, 0);
    if r.Ok? {
      LoadAllUnchanged(once, foods, keyOrders, columns, 0);
    }
  }
}
