/** food_to_model, in its two variants (seektam/crawl/loader.py and
    seektam/db/loader.py): a scraped dish becomes a food record plus one
    aliment record per ingredient, reusing the aliment already stored under
    the ingredient's name and otherwise building one from the raw values. */
module Normalise {
  import opened Wrappers
  import opened Schema
  import Text
  import Numbers
  import KoreaFood
  import Store
  import Database

  /** Which loader's food_to_model. */
  datatype Variant = CrawlLoader | DbLoader

  /** The food record and the aliment list the loader hands to the store. */
  datatype Model = Model(food: Record, aliments: seq<Record>)

  /** `keys` lists every key of the map once, in the dictionary's iteration
      order. */
  predicate Enumerates(keys: seq<string>, m: map<string, seq<string>>)
  {
    && (forall k :: k in keys ==> k in m)
    && (forall k :: k in m ==> k in keys)
    && (forall i, j :: 0 <= i < j < |keys| ==> keys[i] != keys[j])
  }

  predicate Distinct(columns: seq<Column>)
  {
    forall i, j :: 0 <= i < j < |columns| ==> columns[i] != columns[j]
  }

  /** Every raw value with its commas removed. */
  function WithoutCommas(raw: seq<string>): (arr: seq<string>)
    ensures |arr| == |raw|
    ensures forall i :: 0 <= i < |raw| ==> arr[i] == Text.RemoveCommas(raw[i]) && ',' !in arr[i]
  {
    seq(|raw|, i requires 0 <= i < |raw| => Text.RemoveCommas(raw[i]))
  }

  /** The raw values as the variant reads them: the crawl loader removes the
      commas from all of them first, the db loader reads them as they are. */
  function Prepared(variant: Variant, raw: seq<string>): seq<string>
  {
    match variant
    case CrawlLoader => WithoutCommas(raw)
    case DbLoader => raw
  }

  /** The weight the nutrient values are divided by. The crawl loader takes
      1.0 for an empty first value; the db loader removes the commas of the
      first value and takes 1.0 for a parsed zero. */
  function Weight(variant: Variant, arr: seq<string>): (r: Result<real>)
    ensures r == Err(IndexError) <==> |arr| == 0
    ensures r.Err? ==> r.error == IndexError || r.error == ValueError
    ensures variant == DbLoader && r.Ok? ==> r.value != 0.0
  {
    if |arr| == 0 then Err(IndexError)
    else match variant
      case CrawlLoader =>
        if arr[0] == "" then Ok(1.0)
        else (match Numbers.ParseFloat(arr[0])
          case None => Err(ValueError)
          case Some(w) => Ok(w))
      case DbLoader =>
        match Numbers.ParseFloat(Text.RemoveCommas(arr[0]))
        case None => Err(ValueError)
        case Some(w) => Ok(if w == 0.0 then 1.0 else w)
  }

  /** `float` applied to each raw value. */
  function Parsed(arr: seq<string>): (cells: seq<Option<real>>)
    ensures |cells| == |arr|
    ensures forall k :: 0 <= k < |arr| ==> cells[k] == Numbers.ParseFloat(arr[k])
  {
    seq(|arr|, k requires 0 <= k < |arr| => Numbers.ParseFloat(arr[k]))
  }

  /** Raw position `k` exists and holds a number. */
  predicate Readable(cells: seq<Option<real>>, k: nat)
  {
    k < |cells| && cells[k].Some?
  }

  /** The `setattr` loop from column `i` on, over the parsed raw values:
      column `columns[i]` is raw position `i + 1`, its index in the loaders'
      list that starts with the weight. Errors come in the loop's order: the
      missing value, the unparsable value, then the division. */
  function Values(cells: seq<Option<real>>, columns: seq<Column>, weight: real, i: nat, acc: map<Column, real>)
    : (r: Result<map<Column, real>>)
    requires i <= |columns|
    ensures r.Err? ==> r.error == IndexError || r.error == ValueError || r.error == ZeroDivisionError
    ensures r.Ok? ==> acc.Keys <= r.value.Keys
    decreases |columns| - i
  {
    if i == |columns| then Ok(acc)
    else if i + 1 >= |cells| then Err(IndexError)
    else match cells[i + 1]
      case None => Err(ValueError)
      case Some(v) =>
        if weight == 0.0 then Err(ZeroDivisionError)
        else Values(cells, columns, weight, i + 1, acc[columns[i] := v / weight])
  }

  /** A new aliment built from an ingredient's raw values. */
  function NewAliment(variant: Variant, name: string, raw: seq<string>, columns: seq<Column>): (r: Result<Record>)
    ensures r.Ok? ==> r.value.Aliment? && r.value.name == name
  {
    var arr := Prepared(variant, raw);
    match Weight(variant, arr)
    case Err(e) => Err(e)
    case Ok(w) =>
      match Values(Parsed(arr), columns, w, 0, map[])
      case Err(e) => Err(e)
      case Ok(m) => Ok(Aliment(name, m))
  }

  /** The aliment for one key: the stored one under that name, else a new
      one from the dish's raw values for that key. */
  function AlimentFor(variant: Variant, db: Store.Db, food: KoreaFood.Food, key: string, columns: seq<Column>)
    : Result<Record>
  {
    if key in db.aliments.byName then Ok(db.aliments.byName[key].record)
    else if key !in food.aliment then Err(KeyError)
    else NewAliment(variant, key, food.aliment[key], columns)
  }

  function Builder(variant: Variant, db: Store.Db, food: KoreaFood.Food, columns: seq<Column>)
    : string -> Result<Record>
  {
    key => AlimentFor(variant, db, food, key, columns)
  }

  /** The key loop from key `i` on, with `acc` the aliments collected so far;
      the first failing key's error propagates. */
  function Collect(build: string -> Result<Record>, keys: seq<string>, i: nat, acc: seq<Record>)
    : Result<seq<Record>>
    requires i <= |keys|
    decreases |keys| - i
  {
    if i == |keys| then Ok(acc)
    else match build(keys[i])
      case Err(e) => Err(e)
      case Ok(a) => Collect(build, keys, i + 1, acc + [a])
  }

  /** food_to_model against the stored content `db`. */
  function ModelOf(variant: Variant, db: Store.Db, food: KoreaFood.Food, keys: seq<string>, columns: seq<Column>)
    : Result<Model>
  {
    match Collect(Builder(variant, db, food, columns), keys, 0, [])
    case Err(e) => Err(e)
    case Ok(aliments) => Ok(Model(Food(food.name, food.categoryBig, food.categorySmall), aliments))
  }

  // ---------------------------------------------------------------------
  // The loops
  // ---------------------------------------------------------------------

  /** Builds a new aliment, setting one column per iteration. */
  method BuildAliment(variant: Variant, name: string, raw: seq<string>, columns: seq<Column>)
    returns (r: Result<Record>)
    ensures r == NewAliment(variant, name, raw, columns)
  {
    var arr := Prepared(variant, raw);
    var weight := Weight(variant, arr);
    if weight.Err? {
      return Err(weight.error);
    }
    var w := weight.value;
    var values: map<Column, real> := map[];
    ghost var cells := Parsed(arr);
    for i := 0 to |columns|
      invariant Values(cells, columns, w, 0, map[]) == Values(cells, columns, w, i, values)
    {
      if i + 1 >= |arr| {
        return Err(IndexError);
      }
      var v := Numbers.ParseFloat(arr[i + 1]);
      if v.None? {
        return Err(ValueError);
      }
      if w == 0.0 {
        return Err(ZeroDivisionError);
      }
      values := values[columns[i] := v.value / w];
    }
    return Ok(Aliment(name, values));
  }

  /** food_to_model: looks each key up in the session and collects the
      aliments in key order. */
  method FoodToModel(sess: Database.Session, variant: Variant, food: KoreaFood.Food, keys: seq<string>,
                     columns: seq<Column>) returns (r: Result<Model>)
    requires Enumerates(keys, food.aliment)
    ensures r == ModelOf(variant, sess.State(), food, keys, columns)
  {
    var ret: seq<Record> := [];
    ghost var build := Builder(variant, sess.State(), food, columns);
    for i := 0 to |keys|
      invariant Collect(build, keys, 0, []) == Collect(build, keys, i, ret)
    {
      var key := keys[i];
      var maliment: Record;
      if key in sess.aliments.byName {
        maliment := sess.aliments.byName[key].record;
      } else {
        var built := BuildAliment(variant, key, food.aliment[key], columns);
        if built.Err? {
          return Err(built.error);
        }
        maliment := built.value;
      }
      ret := ret + [maliment];
    }
    return Ok(Model(Food(food.name, food.categoryBig, food.categorySmall), ret));
  }

  // ---------------------------------------------------------------------
  // What the loops compute
  // ---------------------------------------------------------------------

  /** The column loop succeeds exactly when every remaining column's raw
      value is present and parses and, if a column remains, the weight is
      not zero. */
  lemma {:induction false} ValuesSucceeds(cells: seq<Option<real>>, columns: seq<Column>, w: real, i: nat,
                                          acc: map<Column, real>)
    requires i <= |columns|
    ensures Values(cells, columns, w, i, acc).Ok? <==>
      && (forall k :: i < k <= |columns| ==> Readable(cells, k))
      && (i < |columns| ==> w != 0.0)
    decreases |columns| - i
  {
    if i < |columns| {
      if Readable(cells, i + 1) && w != 0.0 {
        ValuesSucceeds(cells, columns, w, i + 1, acc[columns[i] := cells[i + 1].value / w]);
      } else {
        assert !Readable(cells, i + 1) || w == 0.0;
      }
    }
  }

  /** A successful column loop sets exactly the remaining columns and keeps
      every other value it started with. */
  lemma {:induction false} ValuesKeys(cells: seq<Option<real>>, columns: seq<Column>, w: real, i: nat,
                                      acc: map<Column, real>)
    requires i <= |columns|
    ensures var r := Values(cells, columns, w, i, acc);
      && (r.Ok? ==> forall c :: c in r.value <==> c in acc || c in columns[i..])
      && (r.Ok? ==> forall c :: c in acc && c !in columns[i..] ==> c in r.value && r.value[c] == acc[c])
    decreases |columns| - i
  {
    if i == |columns| {
      assert columns[i..] == [];
    } else if Readable(cells, i + 1) && w != 0.0 {
      var acc' := acc[columns[i] := cells[i + 1].value / w];
      ValuesKeys(cells, columns, w, i + 1, acc');
      assert Values(cells, columns, w, i, acc) == Values(cells, columns, w, i + 1, acc');
      assert columns[i..] == [columns[i]] + columns[i + 1..];
      forall c ensures c in columns[i..] <==> c == columns[i] || c in columns[i + 1..] {
      }
    }
  }

  /** With no column listed twice, a successful column loop sets each
      remaining column to its own raw value divided by the weight. */
  lemma {:induction false} ValuesSets(cells: seq<Option<real>>, columns: seq<Column>, w: real, i: nat,
                                      acc: map<Column, real>)
    requires i <= |columns| && Distinct(columns)
    ensures var r := Values(cells, columns, w, i, acc);
      r.Ok? ==>
        forall j :: i <= j < |columns| ==>
          && columns[j] in r.value && Readable(cells, j + 1)
          && r.value[columns[j]] == cells[j + 1].value / w
    decreases |columns| - i
  {
    if i < |columns| && Readable(cells, i + 1) && w != 0.0 {
      var acc' := acc[columns[i] := cells[i + 1].value / w];
      ValuesSucceeds(cells, columns, w, i, acc);
      ValuesSets(cells, columns, w, i + 1, acc');
      ValuesKeys(cells, columns, w, i + 1, acc');
      assert columns[i] !in columns[i + 1..];
    }
  }

  /** A new aliment is built exactly when the weight is readable, every
      listed column's raw value parses and, with any column at all, the
      weight is not zero. It then holds exactly the listed columns, each
      its own raw value divided by the weight. */
  lemma NewAlimentMeaning(variant: Variant, name: string, raw: seq<string>, columns: seq<Column>)
    ensures var r := NewAliment(variant, name, raw, columns);
      var cells := Parsed(Prepared(variant, raw));
      var weight := Weight(variant, Prepared(variant, raw));
      && (r.Ok? <==>
            && weight.Ok?
            && (forall k :: 0 < k <= |columns| ==> Readable(cells, k))
            && (|columns| > 0 ==> weight.value != 0.0))
      && (r.Ok? ==> forall c :: c in r.value.values <==> c in columns)
      && (r.Ok? && Distinct(columns) ==>
            forall j :: 0 <= j < |columns| ==>
              && columns[j] in r.value.values && Readable(cells, j + 1)
              && r.value.values[columns[j]] == cells[j + 1].value / weight.value)
  {
    var arr := Prepared(variant, raw);
    var weight := Weight(variant, arr);
    if weight.Ok? {
      ValuesSucceeds(Parsed(arr), columns, weight.value, 0, map[]);
      ValuesKeys(Parsed(arr), columns, weight.value, 0, map[]);
      if Distinct(columns) {
        ValuesSets(Parsed(arr), columns, weight.value, 0, map[]);
      }
      assert columns[0..] == columns;
    }
  }

  /** The key loop succeeds exactly when every remaining key yields an
      aliment; it then appends them in key order. Otherwise it fails with
      the error of the first key that does not. */
  lemma {:induction false} CollectMeaning(build: string -> Result<Record>, keys: seq<string>, i: nat, acc: seq<Record>)
    requires i <= |keys|
    ensures var r := Collect(build, keys, i, acc);
      && (r.Ok? <==> forall j :: i <= j < |keys| ==> build(keys[j]).Ok?)
      && (r.Ok? ==>
            && |r.value| == |acc| + |keys| - i
            && r.value[..|acc|] == acc
            && forall j :: i <= j < |keys| ==> r.value[|acc| + j - i] == build(keys[j]).value)
      && (r.Err? ==>
            exists j :: i <= j < |keys| && build(keys[j]) == Err(r.error)
              && forall l :: i <= l < j ==> build(keys[l]).Ok?)
    decreases |keys| - i
  {
    if i < |keys| {
      var first := build(keys[i]);
      if first.Ok? {
        var acc' := acc + [first.value];
        CollectMeaning(build, keys, i + 1, acc');
        var r := Collect(build, keys, i, acc);
        if r.Ok? {
          assert r.value[..|acc|] == r.value[..|acc'|][..|acc|];
          assert r.value[|acc|] == r.value[..|acc'|][|acc|];
        }
      }
    }
  }

  /** food_to_model copies the name and both categories, and gives one
      aliment per key, in key order; it fails exactly when some key yields
      no aliment, with the error of the first such key. */
  lemma ModelMeaning(variant: Variant, db: Store.Db, food: KoreaFood.Food, keys: seq<string>, columns: seq<Column>)
    ensures var r := ModelOf(variant, db, food, keys, columns);
      var build := Builder(variant, db, food, columns);
      && (r.Ok? <==> forall j :: 0 <= j < |keys| ==> build(keys[j]).Ok?)
      && (r.Ok? ==>
            && r.value.food == Food(food.name, food.categoryBig, food.categorySmall)
            && |r.value.aliments| == |keys|
            && forall j :: 0 <= j < |keys| ==> build(keys[j]) == Ok(r.value.aliments[j]))
      && (r.Err? ==>
            exists j :: 0 <= j < |keys| && build(keys[j]) == Err(r.error)
              && forall l :: 0 <= l < j ==> build(keys[l]).Ok?)
  {
    var build := Builder(variant, db, food, columns);
    CollectMeaning(build, keys, 0, []);
    var c := Collect(build, keys, 0, []);
    assert ModelOf(variant, db, food, keys, columns)
        == if c.Err? then Err(c.error) else Ok(Model(Food(food.name, food.categoryBig, food.categorySmall), c.value));
  }

  /** The aliment for a key is named after the key: the stored aliment
      unchanged when the name is taken, else the one built from the dish's
      raw values for the key. */
  lemma AlimentForMeaning(variant: Variant, db: Store.Db, food: KoreaFood.Food, key: string, columns: seq<Column>)
    requires Store.ValidTable(db.aliments, AlimentKind)
    ensures var r := Builder(variant, db, food, columns)(key);
      && (key in db.aliments.byName ==> r == Ok(db.aliments.byName[key].record))
      && (key !in db.aliments.byName && key in food.aliment ==> r == NewAliment(variant, key, food.aliment[key], columns))
      && (r.Ok? ==> r.value.Aliment? && r.value.name == key)
  {
  }

  /** A dish without ingredients gives the bare food record whatever is
      stored: no lookup takes place. */
  lemma NoAliments(variant: Variant, db: Store.Db, food: KoreaFood.Food, keys: seq<string>, columns: seq<Column>)
    requires food.aliment == map[] && Enumerates(keys, food.aliment)
    ensures keys == []
    ensures ModelOf(variant, db, food, keys, columns) == Ok(Model(Food(food.name, food.categoryBig, food.categorySmall), []))
  {
    if keys != [] {
      HeadIn(keys);
      assert false;
    }

  }

  // ---------------------------------------------------------------------
  // How the raw values are read
  // ---------------------------------------------------------------------

  lemma {:induction false} ValuesReadsPrefix(cells: seq<Option<real>>, columns: seq<Column>, w: real, i: nat,
                                             acc: map<Column, real>)
    requires i <= |columns| < |cells|
    ensures Values(cells, columns, w, i, acc) == Values(cells[..|columns| + 1], columns, w, i, acc)
    decreases |columns| - i
  {
    if i < |columns| {
      assert cells[..|columns| + 1][i + 1] == cells[i + 1];
      if cells[i + 1].Some? && w != 0.0 {
        ValuesReadsPrefix(cells, columns, w, i + 1, acc[columns[i] := cells[i + 1].value / w]);
      }
    }
  }

  /** The weight depends on the first raw value alone. */
  lemma WeightHead(variant: Variant, a: seq<string>, b: seq<string>)
    requires |a| > 0 && |b| > 0 && a[0] == b[0]
    ensures Weight(variant, a) == Weight(variant, b)
  {
  }

  /** Raw values past the last listed column are never read. */
  lemma IgnoresExtraValues(variant: Variant, name: string, raw: seq<string>, columns: seq<Column>)
    requires |raw| > |columns|
    ensures NewAliment(variant, name, raw, columns) == NewAliment(variant, name, raw[..|columns| + 1], columns)
  {
    var n := |columns| + 1;
    var arr := Prepared(variant, raw);
    var short := Prepared(variant, raw[..n]);
    assert short == arr[..n];
    WeightHead(variant, short, arr);
    var cells := Parsed(arr);
    assert Parsed(short) == cells[..n];
    var w := Weight(variant, arr);
    if w.Ok? {
      ValuesReadsPrefix(cells, columns, w.value, 0, map[]);
    }
  }

  /** The crawl loader does not see commas: removing them beforehand changes
      nothing. */
  lemma CrawlIgnoresCommas(name: string, raw: seq<string>, columns: seq<Column>)
    ensures NewAliment(CrawlLoader, name, raw, columns) == NewAliment(CrawlLoader, name, WithoutCommas(raw), columns)
  {
    forall i | 0 <= i < |raw| {
      Text.RemoveCommasIdempotent(raw[i]);
    }
    assert WithoutCommas(WithoutCommas(raw)) == WithoutCommas(raw);
  }

  /** An empty weight (once commas are gone): the crawl loader takes 1.0,
      the db loader fails to parse it. */
  lemma EmptyWeight(name: string, raw: seq<string>, columns: seq<Column>)
    requires raw != [] && Text.RemoveCommas(raw[0]) == ""
    ensures Weight(CrawlLoader, Prepared(CrawlLoader, raw)) == Ok(1.0)
    ensures NewAliment(DbLoader, name, raw, columns) == Err(ValueError)
  {
    Numbers.ParseEmpty();
  }

  /** A zero weight: the db loader takes 1.0, while the crawl loader divides
      by it and fails as soon as there is a column to set. */
  lemma ZeroWeight(name: string, raw: seq<string>, columns: seq<Column>)
    requires raw != [] && Numbers.ParseFloat(Text.RemoveCommas(raw[0])) == Some(0.0) && |columns| > 0
    ensures Weight(DbLoader, raw) == Ok(1.0)
    ensures NewAliment(CrawlLoader, name, raw, columns).Err?
  {
    var arr := Prepared(CrawlLoader, raw);
    assert arr[0] == Text.RemoveCommas(raw[0]);
    CrawlWeightParsed(arr);
    ZeroWeightFails(Parsed(arr), columns);
  }

  /** A first value that parses is the crawl loader's weight. */
  lemma CrawlWeightParsed(arr: seq<string>)
    requires |arr| > 0 && Numbers.ParseFloat(arr[0]).Some?
    ensures Weight(CrawlLoader, arr) == Ok(Numbers.ParseFloat(arr[0]).value)
  {
    Numbers.ParseEmpty();
  }

  /** Dividing by a zero weight fails as soon as there is a column. */
  lemma ZeroWeightFails(cells: seq<Option<real>>, columns: seq<Column>)
    requires |columns| > 0
    ensures Values(cells, columns, 0.0, 0, map[]).Err?
  {
  }

  /** The db loader leaves the thousands separators in the nutrient values,
      so a listed column whose value holds a comma makes it fail. */
  lemma DbRejectsCommas(name: string, raw: seq<string>, columns: seq<Column>, j: nat)
    requires 1 <= j <= |columns| && j < |raw| && ',' in raw[j]
    ensures NewAliment(DbLoader, name, raw, columns).Err?
  {
    Numbers.ParseRejectsComma(raw[j]);
    NewAlimentMeaning(DbLoader, name, raw, columns);
    assert !Readable(Parsed(raw), j);
  }

  // ---------------------------------------------------------------------
  // The column list
  // ---------------------------------------------------------------------

  /** Neither column list names a column twice. */
  lemma ColumnListsDistinct()
    ensures Distinct(SourceColumns) && Distinct(SchemaColumns)
  {
    SourceOrder();
    SchemaOrder();
  }

  /** As written, the loaders' list never sets phosphorus, iron and
      sodium. */
  lemma SourceColumnsSkip(cells: seq<Option<real>>, w: real)
    requires Values(cells, SourceColumns, w, 0, map[]).Ok?
    ensures var m := Values(cells, SourceColumns, w, 0, map[]).value;
      forall c :: c in m <==> c != Phosphorus && c != Iron && c != Sodium
  {
    SourceMembers();
    ValuesKeys(cells, SourceColumns, w, 0, map[]);
    assert SourceColumns[0..] == SourceColumns;
  }

  /** As written, the column at place `j` of the loaders' list reads raw
      position `j + 1`: up to calcium that is its schema position plus one,
      from potassium on it is three places before that. */
  lemma SourceColumnsShift(cells: seq<Option<real>>, w: real)
    requires Values(cells, SourceColumns, w, 0, map[]).Ok?
    ensures var m := Values(cells, SourceColumns, w, 0, map[]).value;
      forall j :: 0 <= j < |SourceColumns| ==>
        && Position(SourceColumns[j]) == (if j < 8 then j else j + 3)
        && SourceColumns[j] in m && Readable(cells, j + 1)
        && m[SourceColumns[j]] == cells[j + 1].value / w
  {
    SourceOrder();
    ShiftedValues(cells, SourceColumns, w);
  }

  /** SourceColumnsShift for any duplicate-free list ranked like the
      loaders' list. */
  lemma ShiftedValues(cells: seq<Option<real>>, columns: seq<Column>, w: real)
    requires Values(cells, columns, w, 0, map[]).Ok?
    requires forall j :: 0 <= j < |columns| ==> Position(columns[j]) == (if j < 8 then j else j + 3)
    ensures var m := Values(cells, columns, w, 0, map[]).value;
      forall j :: 0 <= j < |columns| ==>
        && Position(columns[j]) == (if j < 8 then j else j + 3)
        && columns[j] in m && Readable(cells, j + 1)
        && m[columns[j]] == cells[j + 1].value / w
  {
    assert Distinct(columns) by {
      forall i, j | 0 <= i < j < |columns| ensures columns[i] != columns[j] {
        assert Position(columns[i]) < Position(columns[j]);
      }
    }
    ValuesSucceeds(cells, columns, w, 0, map[]);
    ValuesSets(cells, columns, w, 0, map[]);
  }

  /** As written, potassium reads the raw value at phosphorus's place, and
      phosphorus, iron and sodium stay unset. */
  lemma SourceColumnsMisread(cells: seq<Option<real>>, w: real)
    requires Values(cells, SourceColumns, w, 0, map[]).Ok?
    ensures var m := Values(cells, SourceColumns, w, 0, map[]).value;
      && Phosphorus !in m && Iron !in m && Sodium !in m
      && Potassium in m && Readable(cells, Position(Phosphorus) + 1)
      && m[Potassium] == cells[Position(Phosphorus) + 1].value / w
  {
    SourceColumnsSkip(cells, w);
    SourceColumnsShift(cells, w);
    assert SourceColumns[8] == Potassium;
  }

  /** With the schema's full list every column is set, from the raw value
      at its own schema position plus one. */
  lemma SchemaColumnsKeepPositions(cells: seq<Option<real>>, w: real, c: Column)
    requires Values(cells, SchemaColumns, w, 0, map[]).Ok?
    ensures var m := Values(cells, SchemaColumns, w, 0, map[]).value;
      c in m && Readable(cells, Position(c) + 1) && m[c] == cells[Position(c) + 1].value / w
  {
    SchemaOrder();
    ColumnListsDistinct();
    ValuesSets(cells, SchemaColumns, w, 0, map[]);
    assert SchemaColumns[Position(c)] == c;
  }

  /** The raw row of the site's boiled-rice sample ingredient, read as
      numbers: a weight of 50, then the 19 nutrients in the schema's order,
      phosphorus 45.5 and potassium 52.5 among them. */
  const SampleRow: seq<Option<real>> := [
    Some(50.0), Some(185.0), Some(5.6), Some(2.6), Some(0.2), Some(41.3), Some(0.2), Some(0.2), Some(3.0),
    Some(45.5), Some(0.6), Some(7.5), Some(52.5), Some(0.0), Some(0.0), Some(0.0), Some(0.1), Some(0.015),
    Some(0.5), Some(0.0)]

  lemma SampleFacts()
    ensures |SampleRow| == 20
    ensures forall k :: 0 <= k < |SampleRow| ==> SampleRow[k].Some?
    ensures SampleRow[9] == Some(45.5) && SampleRow[12] == Some(52.5)
  {
  }

  /** Every column list of at most 19 columns reads the sample row. */
  lemma SampleSucceeds(columns: seq<Column>)
    requires |columns| <= 19
    ensures Values(SampleRow, columns, 50.0, 0, map[]).Ok?
  {
    SampleFacts();
    ValuesSucceeds(SampleRow, columns, 50.0, 0, map[]);
  }

  /** As written, the sample ingredient's potassium is its phosphorus per
      gram, and phosphorus is left unset. */
  lemma SampleAsWritten()
    ensures var r := Values(SampleRow, SourceColumns, 50.0, 0, map[]);
      && r.Ok?
      && Potassium in r.value && r.value[Potassium] == 45.5 / 50.0 && r.value[Potassium] != 52.5 / 50.0
      && Phosphorus !in r.value
  {
    SourceOrder();
    SampleSucceeds(SourceColumns);
    SourceColumnsMisread(SampleRow, 50.0);
    SampleFacts();
    assert Position(Phosphorus) + 1 == 9;
  }

  /** With the schema's list, the sample ingredient's phosphorus and
      potassium are each its own value per gram. */
  lemma SampleCorrected()
    ensures var r := Values(SampleRow, SchemaColumns, 50.0, 0, map[]);
      && r.Ok?
      && Phosphorus in r.value && r.value[Phosphorus] == 45.5 / 50.0
      && Potassium in r.value && r.value[Potassium] == 52.5 / 50.0
  {
    SchemaOrder();
    SampleSucceeds(SchemaColumns);
    SchemaColumnsKeepPositions(SampleRow, 50.0, Phosphorus);
    SchemaColumnsKeepPositions(SampleRow, 50.0, Potassium);
    SampleFacts();
    assert Position(Phosphorus) + 1 == 9 && Position(Potassium) + 1 == 12;
  }

  lemma HeadIn<T>(s: seq<T>)
    requires s != []
    ensures s[0] in s
  {
  }
}
