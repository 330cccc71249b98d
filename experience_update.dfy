/** One experience step:
      ALTER TABLE results_store ADD COLUMN IF NOT EXISTS <feature> INT DEFAULT 0;
      UPDATE results_store SET <feature> = subquery.cumulative_experience
        FROM (<ranking subquery>) AS subquery
        WHERE results_store.<entity id> = subquery.<entity id>
          AND results_store.raceId = subquery.raceId;

    The subquery holds one row per joined table row s, carrying
    (KeyOf(s), raceId, Flag(s)). When several subquery rows match a table row
    (two cars of one constructor in one race), SQL leaves open which one the
    UPDATE uses; the model takes the first in table order, and UpdateRows
    states the guarantee SQL gives: the value is the flag of SOME matching
    subquery row. */
module ExperienceUpdate {
  import opened ResultsTable
  import opened ExperienceRanking

  /** Subquery row s (from joined table row s) matches table row i on entity id and raceId. */
  predicate Matches(t: seq<Row>, races: map<int, int>, e: Entity, s: nat, i: nat)
  {
    && s < |t| && i < |t|
    && t[s].raceId in races
    && KeyOf(t[s], e) == KeyOf(t[i], e)
    && t[s].raceId == t[i].raceId
  }

  /** No two joined rows share an entity id and a raceId (the driver case). */
  predicate UniqueKeys(t: seq<Row>, races: map<int, int>, e: Entity) {
    forall s: nat, i: nat | s < |t| && i < |t| && Matches(t, races, e, s, i) :: s == i
  }

  function FirstMatchFrom(t: seq<Row>, races: map<int, int>, e: Entity, i: nat, lo: nat): (s: nat)
    requires Joined(t, races, i) && lo <= i
    requires forall x: nat | x < lo :: !Matches(t, races, e, x, i)
    ensures lo <= s <= i && Matches(t, races, e, s, i)
    ensures forall x: nat | x < s :: !Matches(t, races, e, x, i)
    decreases i - lo
  {
    if Matches(t, races, e, lo, i) then lo else FirstMatchFrom(t, races, e, i, lo + 1)
  }

  /** The subquery row the UPDATE takes for a joined table row: the first
      match in table order. A joined row always matches itself. */
  function FirstMatch(t: seq<Row>, races: map<int, int>, e: Entity, i: nat): (s: nat)
    requires Joined(t, races, i)
    ensures s <= i && Matches(t, races, e, s, i)
    ensures forall x: nat | x < s :: !Matches(t, races, e, x, i)
  {
    FirstMatchFrom(t, races, e, i, 0)
  }

  /** Scans the subquery rows in table order for the first one that matches row i. */
  method FindFirstMatch(t: seq<Row>, races: map<int, int>, e: Entity, i: nat) returns (s: nat)
    requires Joined(t, races, i)
    ensures s == FirstMatch(t, races, e, i)
  {
    s := 0;
    while !Matches(t, races, e, s, i)
      invariant s <= i
      invariant forall x: nat | x < s :: !Matches(t, races, e, x, i)
      decreases i - s
    {
      s := s + 1;
    }
  }

  /** The UPDATE's value for row i: it keeps the row's ids, its other cells
      and the other feature, and a joined row holds 0 or 1 in the feature. */
  function UpdatedRow(t: seq<Row>, races: map<int, int>, e: Entity, i: nat): (r: Row)
    requires i < |t|
    ensures r.raceId == t[i].raceId && r.driverId == t[i].driverId
    ensures r.constructorId == t[i].constructorId && r.other == t[i].other
    ensures ExperienceOf(r, OtherEntity(e)) == ExperienceOf(t[i], OtherEntity(e))
    ensures Joined(t, races, i) ==> ExperienceOf(r, e) == Some(0) || ExperienceOf(r, e) == Some(1)
    ensures !Joined(t, races, i) ==> r == t[i]
  {
    if Joined(t, races, i) then WithExperience(t[i], e, Flag(t, races, e, FirstMatch(t, races, e, i)))
    else t[i]
  }

  /** The value the UPDATE leaves in row i: the row with the flag of its
      first match, or the row itself when its race is not in races. */
  method ComputeUpdatedRow(t: seq<Row>, races: map<int, int>, e: Entity, i: nat) returns (r: Row)
    requires i < |t|
    ensures r == UpdatedRow(t, races, e, i)
  {
    r := t[i];
    if t[i].raceId in races {
      var s := FindFirstMatch(t, races, e, i);
      var n := ComputeRowNumber(t, races, e, s);
      r := WithExperience(t[i], e, FlagFor(n));
    }
  }

  /** The rows after the UPDATE: a row with a matching subquery row gets the
      flag of one of its matches, a row whose race is missing from races has
      no match and keeps every value it had. */
  function UpdateRows(t: seq<Row>, races: map<int, int>, e: Entity): (u: seq<Row>)
    ensures |u| == |t|
    ensures forall i | 0 <= i < |t| && !Joined(t, races, i) :: u[i] == t[i]
    ensures forall i | 0 <= i < |t| && Joined(t, races, i) ::
      exists s: nat :: Matches(t, races, e, s, i) && u[i] == WithExperience(t[i], e, Flag(t, races, e, s))
  {
    var u := seq(|t|, i requires 0 <= i < |t| => UpdatedRow(t, races, e, i));
    UpdatedRowsMatch(t, races, e, u);
    u
  }

  lemma UpdatedRowsMatch(t: seq<Row>, races: map<int, int>, e: Entity, u: seq<Row>)
    requires |u| == |t| && forall i | 0 <= i < |t| :: u[i] == UpdatedRow(t, races, e, i)
    ensures forall i | 0 <= i < |t| && Joined(t, races, i) ::
      exists s: nat :: Matches(t, races, e, s, i) && u[i] == WithExperience(t[i], e, Flag(t, races, e, s))
  {
    forall i | 0 <= i < |t| && Joined(t, races, i)
      ensures exists s: nat :: Matches(t, races, e, s, i) && u[i] == WithExperience(t[i], e, Flag(t, races, e, s))
    {
      var s := FirstMatch(t, races, e, i);
      assert Matches(t, races, e, s, i) && u[i] == WithExperience(t[i], e, Flag(t, races, e, s));
    }
  }

  /** Evaluates the UPDATE's new value for every row of t, in table order. */
  method ComputeUpdatedRows(t: seq<Row>, races: map<int, int>, e: Entity) returns (u: seq<Row>)
    ensures u == UpdateRows(t, races, e)
  {
    u := [];
    var i := 0;
    while i < |t|
      invariant i <= |t| && |u| == i
      invariant forall k | 0 <= k < i :: u[k] == UpdatedRow(t, races, e, k)
    {
      var r := ComputeUpdatedRow(t, races, e, i);
      u := u + [r];
      i := i + 1;
    }
  }

  /** ALTER TABLE ... ADD COLUMN IF NOT EXISTS ... INT DEFAULT 0 */
  function AddColumn(rel: Relation, e: Entity): (r: Relation)
    ensures ExperienceColumn(e) in r.columns
    ensures ExperienceColumn(e) in rel.columns ==> r == rel
    ensures ExperienceColumn(e) !in rel.columns ==>
      && r.columns == rel.columns + [ExperienceColumn(e)]
      && |r.rows| == |rel.rows|
      && forall i | 0 <= i < |rel.rows| :: r.rows[i] == WithExperience(rel.rows[i], e, 0)
  {
    if ExperienceColumn(e) in rel.columns then rel
    else
      Relation(rel.columns + [ExperienceColumn(e)],
               seq(|rel.rows|, i requires 0 <= i < |rel.rows| => WithExperience(rel.rows[i], e, 0)))
  }

  /** Adding the column only when it is missing keeps the column names
      distinct and gives every row a value for it. */
  lemma AddColumnKeepsWellFormed(rel: Relation, e: Entity)
    requires WellFormed(rel)
    ensures WellFormed(AddColumn(rel, e))
  {
    var r := AddColumn(rel, e);
    if ExperienceColumn(e) !in rel.columns {
      assert ColumnSet(r.columns) - FixedColumns == ColumnSet(rel.columns) - FixedColumns;
      forall i | 0 <= i < |r.rows| ensures RowFits(r.columns, r.rows[i]) {
        assert RowFits(rel.columns, rel.rows[i]);
        match e
        case Driver =>
        case Constructor =>
      }
    }
  }

  /** UPDATE results_store SET <feature> = ... FROM (subquery) WHERE ... */
  function ApplyUpdate(rel: Relation, races: map<int, int>, e: Entity): (r: Relation)
    ensures r.columns == rel.columns && |r.rows| == |rel.rows|
    ensures forall i | 0 <= i < |rel.rows| && !Joined(rel.rows, races, i) :: r.rows[i] == rel.rows[i]
  {
    Relation(rel.columns, UpdateRows(rel.rows, races, e))
  }

  lemma UpdateKeepsWellFormed(rel: Relation, races: map<int, int>, e: Entity)
    requires WellFormed(rel) && ExperienceColumn(e) in rel.columns
    ensures WellFormed(ApplyUpdate(rel, races, e))
  {
    var r := ApplyUpdate(rel, races, e);
    forall i | 0 <= i < |r.rows| ensures RowFits(r.columns, r.rows[i]) {
      assert RowFits(rel.columns, rel.rows[i]);
      match e
      case Driver =>
      case Constructor =>
    }
  }

  /** One feature step as the step's SQL script runs it: add the column, then update it. */
  function ExperienceStep(rel: Relation, races: map<int, int>, e: Entity): (r: Relation)
    ensures ExperienceColumn(e) in r.columns
  {
    ApplyUpdate(AddColumn(rel, e), races, e)
  }

  lemma StepKeepsWellFormed(rel: Relation, races: map<int, int>, e: Entity)
    requires WellFormed(rel)
    ensures WellFormed(ExperienceStep(rel, races, e))
  {
    AddColumnKeepsWellFormed(rel, e);
    UpdateKeepsWellFormed(AddColumn(rel, e), races, e);
  }

  /** With unique (entity id, raceId) keys a joined row's only match is
      itself, so the update writes the row's own flag. */
  lemma UniqueKeysWriteOwnFlag(t: seq<Row>, races: map<int, int>, e: Entity, i: nat)
    requires UniqueKeys(t, races, e) && Joined(t, races, i)
    ensures UpdateRows(t, races, e)[i] == WithExperience(t[i], e, Flag(t, races, e, i))
  {
    assert FirstMatch(t, races, e, i) == i;
  }

  /** With unique keys, for every entity with n joined rows exactly min(60, n)
      table rows of that entity hold 1 after the update. */
  lemma UniqueKeysFlagCount(t: seq<Row>, races: map<int, int>, e: Entity, k: int)
    requires UniqueKeys(t, races, e)
    ensures |set i | i in Partition(t, races, e, k) && ExperienceOf(UpdateRows(t, races, e)[i], e) == Some(1)|
         == Min(RecentWindow, |Partition(t, races, e, k)|)
  {
    var p := Partition(t, races, e, k);
    forall i | i in p
      ensures ExperienceOf(UpdateRows(t, races, e)[i], e) == Some(Flag(t, races, e, i))
    {
      UniqueKeysWriteOwnFlag(t, races, e, i);
    }
    assert (set i | i in p && ExperienceOf(UpdateRows(t, races, e)[i], e) == Some(1))
        == (set i | i in p && Flag(t, races, e, i) == 1);
    PartitionFlagCount(t, races, e, k);
  }

  /** Table rows of one entity and one race (a constructor's two cars) all
      receive the same value: they share their matching subquery rows. */
  lemma SameRaceRowsAgree(t: seq<Row>, races: map<int, int>, e: Entity, i: nat, j: nat)
    requires Matches(t, races, e, j, i)
    ensures ExperienceOf(UpdateRows(t, races, e)[i], e) == ExperienceOf(UpdateRows(t, races, e)[j], e)
  {
    assert Joined(t, races, i) && Joined(t, races, j);
    var a, b := FirstMatch(t, races, e, i), FirstMatch(t, races, e, j);
    forall x: nat ensures Matches(t, races, e, x, i) == Matches(t, races, e, x, j) {
    }
    assert a == b;
    assert UpdateRows(t, races, e)[i] == UpdatedRow(t, races, e, i);
    assert UpdateRows(t, races, e)[j] == UpdatedRow(t, races, e, j);
  }

  /** The two tables agree on everything the ranking subquery and the
      UPDATE's join condition read. */
  predicate SameRankingInputs(t: seq<Row>, u: seq<Row>, e: Entity) {
    |t| == |u| && forall i | 0 <= i < |t| :: t[i].raceId == u[i].raceId && KeyOf(t[i], e) == KeyOf(u[i], e)
  }

  /** After a step a joined row holds the flag of its first matching result
      in the ranking of the rows the step started from. */
  lemma StepWritesFlag(rel: Relation, races: map<int, int>, e: Entity, i: nat)
    requires Joined(rel.rows, races, i)
    ensures ExperienceOf(ExperienceStep(rel, races, e).rows[i], e)
         == Some(Flag(rel.rows, races, e, FirstMatch(rel.rows, races, e, i)))
  {
    var a := AddColumn(rel, e).rows;
    assert SameRankingInputs(rel.rows, a, e);
    RankingReadsOnlyKeys(rel.rows, a, races, e);
    assert ExperienceStep(rel, races, e).rows[i] == UpdatedRow(a, races, e, i);
  }

  /** A step keeps every raceId and entity id in place. */
  lemma StepKeepsRankingInputs(rel: Relation, races: map<int, int>, e: Entity, f: Entity)
    ensures SameRankingInputs(rel.rows, ExperienceStep(rel, races, e).rows, f)
  {
    forall i | 0 <= i < |rel.rows|
      ensures rel.rows[i].raceId == ExperienceStep(rel, races, e).rows[i].raceId
      ensures KeyOf(rel.rows[i], f) == KeyOf(ExperienceStep(rel, races, e).rows[i], f)
    {
      StepChangesOnlyExperience(rel, races, e, i);
    }
  }

  /** The ranking reads only the entity id, the raceId and the race date, never
      an experience column: tables that agree on those get the same flags and
      the same matches. */
  lemma RankingReadsOnlyKeys(t: seq<Row>, u: seq<Row>, races: map<int, int>, e: Entity)
    requires SameRankingInputs(t, u, e)
    ensures forall i: nat | Joined(t, races, i) ::
      && Joined(u, races, i)
      && Flag(t, races, e, i) == Flag(u, races, e, i)
      && FirstMatch(t, races, e, i) == FirstMatch(u, races, e, i)
  {
    forall i: nat | Joined(t, races, i)
      ensures Joined(u, races, i)
      ensures Flag(t, races, e, i) == Flag(u, races, e, i)
      ensures FirstMatch(t, races, e, i) == FirstMatch(u, races, e, i)
    {
      var k := KeyOf(t[i], e);
      assert Partition(t, races, e, k) == Partition(u, races, e, k);
      var p := Partition(t, races, e, k);
      assert (set j | j in p && RanksAhead(t, races, j, i)) == (set j | j in p && RanksAhead(u, races, j, i));
      var a, b := FirstMatch(t, races, e, i), FirstMatch(u, races, e, i);
      assert Matches(t, races, e, b, i);
      assert Matches(u, races, e, a, i);
    }
  }

  /** Whatever a step wrote, re-running it meets the same joined rows, the
      same partitions and the same matches for every target row. The flags
      are the same under the model's fixed tie-break; in SQL, where equal
      dates may be numbered differently on each run, only the set of
      possible outcomes is the same. */
  lemma RerunSeesSameSubquery(rel: Relation, races: map<int, int>, e: Entity)
    ensures forall s: nat, i: nat ::
      Matches(ExperienceStep(rel, races, e).rows, races, e, s, i) == Matches(rel.rows, races, e, s, i)
    ensures forall s: nat | Joined(rel.rows, races, s) ::
      Joined(ExperienceStep(rel, races, e).rows, races, s)
      && Flag(ExperienceStep(rel, races, e).rows, races, e, s) == Flag(rel.rows, races, e, s)
  {
    StepKeepsRankingInputs(rel, races, e, e);
    RankingReadsOnlyKeys(rel.rows, ExperienceStep(rel, races, e).rows, races, e);
  }

  /** A table whose experience column already holds what the update would
      write is left as it is. */
  lemma UpdateFixedPoint(t: seq<Row>, races: map<int, int>, e: Entity)
    requires forall i: nat | Joined(t, races, i) ::
      ExperienceOf(t[i], e) == Some(Flag(t, races, e, FirstMatch(t, races, e, i)))
    ensures UpdateRows(t, races, e) == t
  {
    forall i | 0 <= i < |t| ensures UpdateRows(t, races, e)[i] == t[i] {
      if Joined(t, races, i) {
        WithExperienceUnchanged(t[i], e, Flag(t, races, e, FirstMatch(t, races, e, i)));
      }
    }
  }

  /** Running the update twice gives what running it once gives. */
  lemma UpdateIdempotent(t: seq<Row>, races: map<int, int>, e: Entity)
    ensures UpdateRows(UpdateRows(t, races, e), races, e) == UpdateRows(t, races, e)
  {
    var u := UpdateRows(t, races, e);
    RankingReadsOnlyKeys(t, u, races, e);
    UpdateFixedPoint(u, races, e);
  }

  /** Re-running a step leaves the table as the first run left it: the
      column exists, so ADD COLUMN IF NOT EXISTS changes nothing, and the
      update recomputes the same values. */
  lemma StepIdempotent(rel: Relation, races: map<int, int>, e: Entity)
    ensures ExperienceStep(ExperienceStep(rel, races, e), races, e) == ExperienceStep(rel, races, e)
  {
    UpdateIdempotent(AddColumn(rel, e).rows, races, e);
  }

  /** A step writes only its own experience column: the row count, the
      schema apart from the added column, the ids, the other experience
      column and every other cell stay as they were. */
  lemma StepChangesOnlyExperience(rel: Relation, races: map<int, int>, e: Entity, i: nat)
    requires i < |rel.rows|
    ensures |ExperienceStep(rel, races, e).rows| == |rel.rows|
    ensures ExperienceStep(rel, races, e).columns
         == if ExperienceColumn(e) in rel.columns then rel.columns else rel.columns + [ExperienceColumn(e)]
    ensures var r := ExperienceStep(rel, races, e).rows[i];
      && r.raceId == rel.rows[i].raceId
      && r.driverId == rel.rows[i].driverId
      && r.constructorId == rel.rows[i].constructorId
      && r.other == rel.rows[i].other
      && ExperienceOf(r, OtherEntity(e)) == ExperienceOf(rel.rows[i], OtherEntity(e))
  {
  }

  /** On a table without the column every row ends with 0 or 1, and a row
      whose race is missing from races keeps the default 0. Where the
      column exists with 0/1 values, the values stay 0/1. */
  lemma StepValuesAreFlags(rel: Relation, races: map<int, int>, e: Entity, i: nat)
    requires i < |rel.rows|
    requires ExperienceColumn(e) in rel.columns ==>
      forall j | 0 <= j < |rel.rows| :: ExperienceOf(rel.rows[j], e) in {Some(0), Some(1)}
    ensures ExperienceOf(ExperienceStep(rel, races, e).rows[i], e) in {Some(0), Some(1)}
    ensures ExperienceColumn(e) !in rel.columns && rel.rows[i].raceId !in races ==>
      ExperienceOf(ExperienceStep(rel, races, e).rows[i], e) == Some(0)
  {
    var a := AddColumn(rel, e).rows;
    assert ExperienceOf(a[i], e) in {Some(0), Some(1)};
    if Joined(a, races, i) {
      var u := UpdateRows(a, races, e);
      var s: nat :| Matches(a, races, e, s, i) && u[i] == WithExperience(a[i], e, Flag(a, races, e, s));
    }
  }
}
