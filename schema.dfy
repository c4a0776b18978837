/** The database schema the loaders write to: a table of foods, a table of
    aliments (ingredients with their nutrient values per unit of weight),
    and a link table between them keyed by the pair of ids. */
module Schema {

  /** The nutrient columns of the aliment table, in the order the schema
      declares them. */
  datatype Column =
    | Energy | Moisture | Protein | Fat | Nonfiborous | Fiber | Ash
    | Calcium | Phosphorus | Iron | Sodium | Potassium
    | RetinolEquivalent | Retinol | Betacarotene
    | Thiamin | Riboflavin | Niacin | AscobicAcid

  /** The nutrient columns the loaders fill, in the order they read the raw
      values after the weight. Phosphorus, iron and sodium are not among
      them. */
  const SourceColumns: seq<Column> := [
    Energy, Moisture, Protein, Fat, Nonfiborous, Fiber, Ash, Calcium, Potassium,
    RetinolEquivalent, Retinol, Betacarotene, Thiamin, Riboflavin, Niacin, AscobicAcid]

  /** All nutrient columns of the schema, in declaration order. */
  const SchemaColumns: seq<Column> := [
    Energy, Moisture, Protein, Fat, Nonfiborous, Fiber, Ash, Calcium, Phosphorus, Iron, Sodium, Potassium,
    RetinolEquivalent, Retinol, Betacarotene, Thiamin, Riboflavin, Niacin, AscobicAcid]

  /** A column's place in the schema's declaration order. */
  function Position(c: Column): (p: nat)
    ensures p < 19
  {
    match c
    case Energy => 0
    case Moisture => 1
    case Protein => 2
    case Fat => 3
    case Nonfiborous => 4
    case Fiber => 5
    case Ash => 6
    case Calcium => 7
    case Phosphorus => 8
    case Iron => 9
    case Sodium => 10
    case Potassium => 11
    case RetinolEquivalent => 12
    case Retinol => 13
    case Betacarotene => 14
    case Thiamin => 15
    case Riboflavin => 16
    case Niacin => 17
    case AscobicAcid => 18
  }

  /** The schema's list holds every column once, each at its own position. */
  lemma SchemaOrder()
    ensures |SchemaColumns| == 19
    ensures forall j :: 0 <= j < |SchemaColumns| ==> Position(SchemaColumns[j]) == j
    ensures forall c :: SchemaColumns[Position(c)] == c
  {
  }

  /** The loaders' list follows the schema's order up to calcium and skips
      phosphorus, iron and sodium: from potassium on, its entry `j` is the
      schema's column `j + 3`. */
  lemma SourceOrder()
    ensures |SourceColumns| == 16
    ensures forall j :: 0 <= j < |SourceColumns| ==> Position(SourceColumns[j]) == if j < 8 then j else j + 3
  {
  }

  /** Where the loaders' list puts a column it names. */
  function SourceIndex(c: Column): int
  {
    if Position(c) < 8 then Position(c) else Position(c) - 3
  }

  /** The loaders' list names every column except phosphorus, iron and
      sodium, each at its `SourceIndex`. */
  lemma SourceMembers()
    ensures forall c :: c in SourceColumns <==> c != Phosphorus && c != Iron && c != Sodium
    ensures forall c :: c in SourceColumns ==>
      0 <= SourceIndex(c) < |SourceColumns| && SourceColumns[SourceIndex(c)] == c
  {
    SourceOrder();
    SchemaOrder();
    forall c | c in SourceColumns ensures c != Phosphorus && c != Iron && c != Sodium {
      var j :| 0 <= j < |SourceColumns| && SourceColumns[j] == c;
    }
    forall c | c != Phosphorus && c != Iron && c != Sodium
      ensures 0 <= SourceIndex(c) < |SourceColumns| && SourceColumns[SourceIndex(c)] == c
    {
      assert c == SchemaColumns[Position(c)];
    }
  }

  /** The two tables rows can be added to. */
  datatype Kind = FoodKind | AlimentKind

  /** A row's content without its id. An aliment's `values` holds the
      columns that were set; a column left unset is NULL in the table. */
  datatype Record =
    | Food(name: string, categoryBig: string, categorySmall: string)
    | Aliment(name: string, values: map<Column, real>)
  {
    function Kind(): Kind
    {
      if Food? then FoodKind else AlimentKind
    }
  }

  /** A stored row: its id and its content. */
  datatype Row = Row(id: nat, record: Record)
}
