/** The database session the loaders write through: its tables change in
    place on every successful `add` and `commit`. Each method is proved
    against the function of the same name in module Store. */
module Database {
  import opened Wrappers
  import opened Schema
  import Store

  class Session {
    var foods: Store.Table
    var aliments: Store.Table
    var links: set<(nat, nat)>

    /** The stored content, as a value. */
    function State(): Store.Db
      reads this
    {
      Store.Db(foods, aliments, links)
    }

    ghost predicate Valid()
      reads this
    {
      Store.Valid(State())
    }

    /** A session on freshly created, empty tables. */
    constructor ()
      ensures State() == Store.EmptyDb && Valid()
    {
      foods := Store.EmptyTable;
      aliments := Store.EmptyTable;
      links := {};
    }

    method AddModel(kind: Kind, filter: Record -> bool, instance: Record) returns (added: Result<bool>)
      modifies this
      ensures (State(), added) == Store.AddModel(old(State()), kind, filter, instance)
      ensures old(Valid()) ==> Valid()
    {
      if Valid() {
        Store.AddModelValid(State(), kind, filter, instance);
      }
      if Store.AnyMatch(Store.TableOf(State(), kind), filter) {
        return Ok(false);
      }
      var table := Store.TableOf(State(), instance.Kind());
      if instance.name in table.byName {
        // the commit violates the unique name constraint
        return Err(IntegrityError);
      }
      if instance.Food? {
        foods := Store.Insert(foods, instance);
      } else {
        aliments := Store.Insert(aliments, instance);
      }
      return Ok(true);
    }

    method AddFood(mfood: Record) returns (added: Result<bool>)
      modifies this
      ensures (State(), added) == Store.AddFood(old(State()), mfood)
      ensures old(Valid()) ==> Valid()
    {
      added := AddModel(FoodKind, Store.NameIs(mfood.name), mfood);
    }

    method AddAliment(maliment: Record) returns (added: Result<bool>)
      modifies this
      ensures (State(), added) == Store.AddAliment(old(State()), maliment)
      ensures old(Valid()) ==> Valid()
    {
      added := AddModel(AlimentKind, Store.NameIs(maliment.name), maliment);
    }

    method AddFoodAliment(mfood: Record, maliment: Record) returns (r: Result<()>)
      modifies this
      ensures (State(), r) == Store.AddFoodAliment(old(State()), mfood, maliment)
      ensures old(Valid()) ==> Valid()
    {
      if Valid() {
        Store.AddFoodAlimentValid(State(), mfood, maliment);
      }
      if mfood.name !in foods.byName || maliment.name !in aliments.byName {
        return Err(NoResultFound);
      }
      var f := foods.byName[mfood.name];
      var a := aliments.byName[maliment.name];
      // a duplicate pair fails the commit, and the failure is swallowed
      links := links + {(f.id, a.id)};
      return Ok(());
    }
  }
}
