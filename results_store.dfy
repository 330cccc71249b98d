/** The stateful side of the flow: the results_store table that the two SQL
    scripts alter and update in place, the DataFrame copies SELECT * makes of
    it, and the in-place column drop. */
module ResultsStore {
  import opened ResultsTable
  import opened ExperienceUpdate
  import opened FeatureTrim

  /** A table (or a DataFrame holding a copy of one): a schema and an array of rows. */
  class Table {
    var columns: seq<string>
    var rows: array<Row>

    function Value(): Relation
      reads this, rows
    {
      Relation(columns, rows[..])
    }

    ghost predicate Valid()
      reads this, rows
    {
      WellFormed(Value())
    }

    constructor (rel: Relation)
      requires WellFormed(rel)
      ensures Valid() && Value() == rel && fresh(rows)
    {
      columns := rel.columns;
      rows := new Row[|rel.rows|](i requires 0 <= i < |rel.rows| => rel.rows[i]);
      new;
      assert rows[..] == rel.rows;
    }

    /** ALTER TABLE results_store ADD COLUMN IF NOT EXISTS <feature> INT DEFAULT 0 */
    method AddColumnIfNotExists(e: Entity)
      requires Valid()
      modifies this, rows
      ensures Valid() && rows == old(rows)
      ensures Value() == AddColumn(old(Value()), e)
    {
      AddColumnKeepsWellFormed(Value(), e);
      if ExperienceColumn(e) !in columns {
        ghost var before := rows[..];
        var i := 0;
        while i < rows.Length
          invariant 0 <= i <= rows.Length
          invariant columns == old(columns) && rows == old(rows)
          invariant forall k | 0 <= k < i :: rows[k] == WithExperience(before[k], e, 0)
          invariant forall k | i <= k < rows.Length :: rows[k] == before[k]
        {
          rows[i] := WithExperience(rows[i], e, 0);
          i := i + 1;
        }
        columns := columns + [ExperienceColumn(e)];
      }
    }

    /** UPDATE results_store SET <feature> = subquery.cumulative_experience
        FROM (ranking subquery) WHERE ids and raceId match. The subquery is
        evaluated on the table as it was before the update. */
    method UpdateExperience(races: map<int, int>, e: Entity)
      requires Valid() && ExperienceColumn(e) in columns
      modifies rows
      ensures Valid()
      ensures Value() == ApplyUpdate(old(Value()), races, e)
    {
      var before := rows[..];
      ghost var rel := Value();
      UpdateKeepsWellFormed(rel, races, e);
      WriteUpdatedRows(before, races, e);
    }

    /** Writes into every row the value the UPDATE computed for it. */
    method WriteUpdatedRows(before: seq<Row>, races: map<int, int>, e: Entity)
      requires before == rows[..]
      modifies rows
      ensures rows[..] == UpdateRows(before, races, e)
    {
      var updated := ComputeUpdatedRows(before, races, e);
      var i := 0;
      while i < rows.Length
        invariant 0 <= i <= rows.Length
        invariant rows[..i] == updated[..i]
      {
        rows[i] := updated[i];
        assert rows[..i + 1] == rows[..i] + [updated[i]];
        i := i + 1;
      }
      assert rows[..] == rows[..rows.Length];
    }

    /** SELECT * FROM results_store, turned into a DataFrame. */
    method Select() returns (frame: Table)
      requires Valid()
      ensures fresh(frame) && fresh(frame.rows)
      ensures frame.Valid() && frame.Value() == Value()
    {
      frame := new Table(Value());
    }

    /** self.results_store.drop([...six labels...], axis=1, inplace=True).
        Returns false, changing nothing, where pandas raises KeyError. */
    method FinaliseFeatureList() returns (ok: bool)
      requires Valid()
      modifies this, rows
      ensures Valid() && rows == old(rows)
      ensures ok == Trim(old(Value())).Some?
      ensures ok ==> Value() == Trim(old(Value())).value
      ensures !ok ==> Value() == old(Value())
    {
      ghost var rel := Value();
      ok := forall c | c in DroppedColumns :: c in columns;
      if ok {
        TrimRows();
        columns := KeptColumns(columns, DroppedSet);
        TrimIs(rel, Value());
        TrimKeepsWellFormed(rel);
      }
    }

    /** Removes the cells of the dropped columns from every row, in place. */
    method TrimRows()
      modifies rows
      ensures forall k | 0 <= k < rows.Length :: rows[k] == TrimRow(old(rows[k]))
    {
      ghost var before := rows[..];
      var i := 0;
      while i < rows.Length
        invariant 0 <= i <= rows.Length
        invariant forall k | 0 <= k < i :: rows[k] == TrimRow(before[k])
        invariant forall k | i <= k < rows.Length :: rows[k] == before[k]
      {
        rows[i] := TrimRow(rows[i]);
        i := i + 1;
      }
    }
  }
}
