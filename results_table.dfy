/** The results_store table: its schema, its rows and the accessors the
    experience features use. */
module ResultsTable {

  datatype Option<T> = None | Some(value: T)

  /** A cell of one of the result columns the feature code never reads
      (grid, points, time, ...). */
  datatype Cell = IntCell(n: int) | TextCell(s: string) | NullCell

  /** The partition key of an experience feature. */
  datatype Entity = Driver | Constructor

  /** One result row. An experience field is None exactly while its column
      has not been added to the table. */
  datatype Row = Row(
    raceId: int,
    driverId: int,
    constructorId: int,
    driverExperience: Option<int>,
    constructorExperience: Option<int>,
    other: map<string, Cell>)

  /** A table value: column names in schema order and the rows in table order. */
  datatype Relation = Relation(columns: seq<string>, rows: seq<Row>)

  const RaceIdColumn: string := "raceId"
  const DriverIdColumn: string := "driverId"
  const ConstructorIdColumn: string := "constructorId"
  const DriverExperienceColumn: string := "driverExperience"
  const ConstructorExperienceColumn: string := "constructorExperience"

  /** The two feature columns have different names (they differ in length). */
  lemma FeatureColumnsDiffer()
    ensures DriverExperienceColumn != ConstructorExperienceColumn
  {
    assert |DriverExperienceColumn| == 16 && |ConstructorExperienceColumn| == 21;
  }

  /** Columns held in the typed fields of Row rather than in its map. */
  const FixedColumns: set<string> :=
    {RaceIdColumn, DriverIdColumn, ConstructorIdColumn, DriverExperienceColumn, ConstructorExperienceColumn}

  function ExperienceColumn(e: Entity): string {
    match e
    case Driver => DriverExperienceColumn
    case Constructor => ConstructorExperienceColumn
  }

  function OtherEntity(e: Entity): Entity {
    match e
    case Driver => Constructor
    case Constructor => Driver
  }

  /** The id a feature partitions on: driverId or constructorId. */
  function KeyOf(r: Row, e: Entity): int {
    match e
    case Driver => r.driverId
    case Constructor => r.constructorId
  }

  function ExperienceOf(r: Row, e: Entity): Option<int> {
    match e
    case Driver => r.driverExperience
    case Constructor => r.constructorExperience
  }

  /** The row with the experience column of `e` set to `v`; nothing else changes. */
  function WithExperience(r: Row, e: Entity, v: int): (r': Row)
    ensures ExperienceOf(r', e) == Some(v)
    ensures ExperienceOf(r', OtherEntity(e)) == ExperienceOf(r, OtherEntity(e))
    ensures r'.raceId == r.raceId && r'.driverId == r.driverId
    ensures r'.constructorId == r.constructorId && r'.other == r.other
  {
    match e
    case Driver => r.(driverExperience := Some(v))
    case Constructor => r.(constructorExperience := Some(v))
  }

  lemma WithExperienceUnchanged(r: Row, e: Entity, v: int)
    requires ExperienceOf(r, e) == Some(v)
    ensures WithExperience(r, e, v) == r
  {
  }

  function ColumnSet(columns: seq<string>): set<string> {
    set c | c in columns
  }

  predicate Distinct(columns: seq<string>) {
    forall i, j | 0 <= i < j < |columns| :: columns[i] != columns[j]
  }

  /** A row carries a value for exactly the columns of the schema. */
  predicate RowFits(columns: seq<string>, r: Row) {
    && (r.driverExperience.Some? <==> DriverExperienceColumn in columns)
    && (r.constructorExperience.Some? <==> ConstructorExperienceColumn in columns)
    && r.other.Keys == ColumnSet(columns) - FixedColumns
  }

  /** The table invariant: distinct column names, the three id columns the
      feature queries join and partition on, and every row fitting the schema. */
  predicate WellFormed(rel: Relation) {
    && Distinct(rel.columns)
    && RaceIdColumn in rel.columns
    && DriverIdColumn in rel.columns
    && ConstructorIdColumn in rel.columns
    && forall i | 0 <= i < |rel.rows| :: RowFits(rel.columns, rel.rows[i])
  }

  /** The cell of column `c` in row `r`, as a SELECT * would show it. */
  function Lookup(r: Row, c: string): Option<Cell> {
    if c == RaceIdColumn then Some(IntCell(r.raceId))
    else if c == DriverIdColumn then Some(IntCell(r.driverId))
    else if c == ConstructorIdColumn then Some(IntCell(r.constructorId))
    else if c == DriverExperienceColumn then
      (if r.driverExperience.Some? then Some(IntCell(r.driverExperience.value)) else None)
    else if c == ConstructorExperienceColumn then
      (if r.constructorExperience.Some? then Some(IntCell(r.constructorExperience.value)) else None)
    else if c in r.other then Some(r.other[c])
    else None
  }

  /** In a well-formed table a row has a cell for a column exactly when the
      column is in the schema. */
  lemma CellsFollowSchema(rel: Relation, i: nat, c: string)
    requires WellFormed(rel) && i < |rel.rows|
    ensures Lookup(rel.rows[i], c).Some? <==> c in rel.columns
  {
    assert RowFits(rel.columns, rel.rows[i]);
    if c !in FixedColumns {
      assert c in rel.rows[i].other <==> c in ColumnSet(rel.columns);
    }
  }
}
