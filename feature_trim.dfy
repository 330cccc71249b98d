/** finalise_feature_list: drop six result columns from the DataFrame
    (pandas drop(..., axis=1, inplace=True)). The drop raises KeyError and
    leaves the frame as it was when one of the labels is not a column. */
module FeatureTrim {
  import opened ResultsTable

  const DroppedColumns: seq<string> :=
    ["resultId", "number", "positionText", "positionOrder", "time", "milliseconds"]

  const DroppedSet: set<string> := set c | c in DroppedColumns

  lemma DroppedSetIsDroppedColumns()
    ensures forall c :: c in DroppedSet <==> c in DroppedColumns
    ensures |DroppedSet| == 6
  {
    assert DroppedSet == {"resultId", "number", "positionText", "positionOrder", "time", "milliseconds"};
    assert "resultId"[0] == 'r' && "number"[0] == 'n' && "positionText"[0] == 'p';
    assert "positionOrder"[0] == 'p' && "time"[0] == 't' && "milliseconds"[0] == 'm';
    assert "positionText"[8] == 'T' && "positionOrder"[8] == 'O';
  }

  /** Every dropped label has at most 13 characters. */
  lemma DroppedLabelsAreShort()
    ensures forall c | c in DroppedSet :: |c| <= 13
  {
  }

  /** Neither feature column is a dropped label: their names are longer than
      every dropped label. */
  lemma FeaturesNotDropped()
    ensures DriverExperienceColumn !in DroppedSet && ConstructorExperienceColumn !in DroppedSet
  {
    DroppedLabelsAreShort();
    assert |DriverExperienceColumn| == 16 && |ConstructorExperienceColumn| == 21;
  }

  /** A row without the cells of the dropped columns. */
  function TrimRow(r: Row): (r': Row)
    ensures r'.other.Keys == r.other.Keys - DroppedSet
    ensures forall c | c in r'.other :: r'.other[c] == r.other[c]
    ensures r'.raceId == r.raceId && r'.driverId == r.driverId && r'.constructorId == r.constructorId
    ensures r'.driverExperience == r.driverExperience && r'.constructorExperience == r.constructorExperience
  {
    r.(other := r.other - DroppedSet)
  }

  /** The schema with the `dropped` labels removed, the rest in schema order. */
  function KeptColumns(columns: seq<string>, dropped: set<string>): (r: seq<string>)
    ensures forall c :: c in r <==> c in columns && c !in dropped
    ensures Distinct(columns) ==> Distinct(r)
  {
    if columns == [] then []
    else
      var rest := KeptColumns(columns[1..], dropped);
      assert Distinct(columns) ==> columns[0] !in columns[1..];
      if columns[0] in dropped then rest else [columns[0]] + rest
  }

  /** Dropping labels keeps the relative order of the remaining columns. */
  lemma {:induction false} KeptColumnsAppend(a: seq<string>, b: seq<string>, dropped: set<string>)
    ensures KeptColumns(a + b, dropped) == KeptColumns(a, dropped) + KeptColumns(b, dropped)
  {
    if a == [] {
      assert a + b == b;
    } else {
      assert (a + b)[1..] == a[1..] + b;
      KeptColumnsAppend(a[1..], b, dropped);
    }
  }

  lemma DistinctTail(columns: seq<string>)
    requires Distinct(columns) && columns != []
    ensures Distinct(columns[1..]) && columns[0] !in columns[1..]
  {
    forall i, j | 0 <= i < j < |columns| - 1 ensures columns[1..][i] != columns[1..][j] {
      assert columns[1..][i] == columns[i + 1] && columns[1..][j] == columns[j + 1];
    }
  }

  /** Every column of a distinct schema is either kept or one of the dropped labels. */
  lemma {:induction false} KeptColumnsCount(columns: seq<string>, dropped: set<string>)
    requires Distinct(columns)
    ensures |KeptColumns(columns, dropped)| + |ColumnSet(columns) * dropped| == |columns|
  {
    if columns != [] {
      var c := columns[0];
      var rest := columns[1..];
      DistinctTail(columns);
      KeptColumnsCount(rest, dropped);
      var shared := ColumnSet(rest) * dropped;
      var kept := KeptColumns(rest, dropped);
      assert |kept| + |shared| == |rest|;
      assert c !in shared;
      SharedStep(columns, dropped);
      if c in dropped {
        assert |ColumnSet(columns) * dropped| == |shared| + 1;
        assert KeptColumns(columns, dropped) == kept;
      } else {
        assert |ColumnSet(columns) * dropped| == |shared|;
        assert KeptColumns(columns, dropped) == [c] + kept;
      }
    }
  }

  lemma SharedStep(columns: seq<string>, dropped: set<string>)
    requires columns != []
    ensures ColumnSet(columns) * dropped
         == (if columns[0] in dropped then {columns[0]} else {}) + ColumnSet(columns[1..]) * dropped
  {
    assert columns == [columns[0]] + columns[1..];
    assert ColumnSet(columns) == ColumnSet(columns[1..]) + {columns[0]};
  }

  function Trim(rel: Relation): (r: Option<Relation>)
    ensures r.Some? <==> forall c | c in DroppedColumns :: c in rel.columns
  {
    if forall c | c in DroppedColumns :: c in rel.columns then
      Some(Relation(KeptColumns(rel.columns, DroppedSet),
                    seq(|rel.rows|, i requires 0 <= i < |rel.rows| => TrimRow(rel.rows[i]))))
    else None
  }

  lemma TrimShape(rel: Relation)
    requires Trim(rel).Some?
    ensures Trim(rel).value.columns == KeptColumns(rel.columns, DroppedSet)
    ensures |Trim(rel).value.rows| == |rel.rows|
    ensures forall i | 0 <= i < |rel.rows| :: Trim(rel).value.rows[i] == TrimRow(rel.rows[i])
  {
  }

  /** The trimmed table, given column by column and row by row. */
  lemma TrimIs(rel: Relation, r: Relation)
    requires forall c | c in DroppedColumns :: c in rel.columns
    requires r.columns == KeptColumns(rel.columns, DroppedSet) && |r.rows| == |rel.rows|
    requires forall i | 0 <= i < |rel.rows| :: r.rows[i] == TrimRow(rel.rows[i])
    ensures Trim(rel) == Some(r)
  {
    assert Trim(rel).value.rows == r.rows;
  }

  /** None of the six labels names a column the feature code reads. */
  lemma DroppedAreNotFixed()
    ensures forall c | c in DroppedSet :: c !in FixedColumns
  {
    assert "resultId"[0] == 'r' && "driverId"[0] == 'd' && "constructorId"[0] == 'c';
    assert "number"[0] == 'n' && "raceId"[0] == 'r' && "raceId"[1] == 'a' && "resultId"[1] == 'e';
    assert "positionOrder"[0] == 'p';
  }

  /** Removing labels outside the fixed columns from a schema and from a
      row's cells keeps the row fitting the schema. */
  lemma KeptRowFits(columns: seq<string>, dropped: set<string>, r: Row)
    requires RowFits(columns, r)
    requires forall c | c in dropped :: c !in FixedColumns
    ensures RowFits(KeptColumns(columns, dropped), r.(other := r.other - dropped))
  {
    var kept := KeptColumns(columns, dropped);
    assert DriverExperienceColumn in FixedColumns && ConstructorExperienceColumn in FixedColumns;
    assert ColumnSet(kept) - FixedColumns == ColumnSet(columns) - FixedColumns - dropped;
  }

  /** Dropping the six columns from the schema and from every row keeps the
      table well formed. */
  lemma TrimKeepsWellFormed(rel: Relation)
    requires WellFormed(rel) && Trim(rel).Some?
    ensures WellFormed(Trim(rel).value)
  {
    var r := Trim(rel).value;
    TrimShape(rel);
    DroppedAreNotFixed();
    assert RaceIdColumn in FixedColumns && DriverIdColumn in FixedColumns && ConstructorIdColumn in FixedColumns;
    forall i | 0 <= i < |r.rows| ensures RowFits(r.columns, r.rows[i]) {
      KeptRowFits(rel.columns, DroppedSet, rel.rows[i]);
    }
  }

  /** When the six labels are columns, the trim keeps every row in its place,
      every cell of a kept column, and no cell of a dropped one. */
  lemma TrimKeepsCells(rel: Relation, i: nat, c: string)
    requires Trim(rel).Some? && i < |rel.rows|
    ensures |Trim(rel).value.rows| == |rel.rows|
    ensures c !in DroppedSet ==> Lookup(Trim(rel).value.rows[i], c) == Lookup(rel.rows[i], c)
    ensures c in DroppedSet && WellFormed(rel) ==> Lookup(Trim(rel).value.rows[i], c) == None
  {
    var r := Trim(rel).value;
    TrimShape(rel);
    if c in DroppedSet {
      DroppedAreNotFixed();
      if WellFormed(rel) {
        assert RowFits(rel.columns, rel.rows[i]);
        LookupOutsideCells(r.rows[i], c);
      }
    } else {
      LookupKeptCell(rel.rows[i], DroppedSet, c);
    }
  }

  lemma LookupKeptCell(r: Row, dropped: set<string>, c: string)
    requires c !in dropped
    ensures Lookup(r.(other := r.other - dropped), c) == Lookup(r, c)
  {
  }

  lemma LookupOutsideCells(r: Row, c: string)
    requires c !in FixedColumns && c !in r.other
    ensures Lookup(r, c) == None
  {
  }

  /** The trim removes exactly six columns and keeps the others in order. */
  lemma TrimDropsSixColumns(rel: Relation)
    requires WellFormed(rel) && Trim(rel).Some?
    ensures Trim(rel).value.columns == KeptColumns(rel.columns, DroppedSet)
    ensures |Trim(rel).value.columns| == |rel.columns| - 6
    ensures forall c :: c in Trim(rel).value.columns <==> c in rel.columns && c !in DroppedSet
  {
    TrimShape(rel);
    KeptColumnsCount(rel.columns, DroppedSet);
    DroppedSetIsDroppedColumns();
    assert ColumnSet(rel.columns) * DroppedSet == DroppedSet;
  }
}
