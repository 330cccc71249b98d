/** The flow's steps in their fixed order: create_driver_experience_feature,
    create_constructor_experience_feature, finalise_feature_list. The
    Metaflow step plumbing becomes sequential composition. */
module FeaturePipeline {
  import opened ResultsTable
  import opened ExperienceRanking
  import opened ExperienceUpdate
  import opened FeatureTrim
  import opened ResultsStore

  /** The store after both feature steps. */
  function FeatureSteps(rel: Relation, races: map<int, int>): (r: Relation)
    ensures DriverExperienceColumn in r.columns && ConstructorExperienceColumn in r.columns
    ensures |r.rows| == |rel.rows|
    ensures forall c | c in rel.columns :: c in r.columns
  {
    ExperienceStep(ExperienceStep(rel, races, Driver), races, Constructor)
  }

  /** The DataFrame the flow hands on: the store after both steps, trimmed. */
  function Pipeline(rel: Relation, races: map<int, int>): (r: Option<Relation>)
    ensures r.Some? <==> forall c | c in DroppedColumns :: c in rel.columns
    ensures r.Some? ==> DriverExperienceColumn in r.value.columns && ConstructorExperienceColumn in r.value.columns
  {
    FeaturesSurviveTrim(rel, races);
    Trim(FeatureSteps(rel, races))
  }

  /** The drop succeeds on the featured store exactly when it would on the
      original one, and never removes a feature column. */
  lemma FeaturesSurviveTrim(rel: Relation, races: map<int, int>)
    ensures Trim(FeatureSteps(rel, races)).Some? <==> forall c | c in DroppedColumns :: c in rel.columns
    ensures Trim(FeatureSteps(rel, races)).Some? ==>
      DriverExperienceColumn in Trim(FeatureSteps(rel, races)).value.columns
      && ConstructorExperienceColumn in Trim(FeatureSteps(rel, races)).value.columns
  {
    var s := FeatureSteps(rel, races);
    DroppedSetIsDroppedColumns();
    FeaturesNotDropped();
    FeatureColumnsDiffer();
    if Trim(s).Some? {
      TrimShape(s);
    }
  }

  /** Runs the three steps on one store. The DataFrame copy taken after the
      driver step is replaced by the one taken after the constructor step,
      and that copy is trimmed. */
  method RunFeaturePipeline(store: Table, races: map<int, int>) returns (frame: Table, ok: bool)
    requires store.Valid()
    modifies store, store.rows
    ensures store.Valid() && store.rows == old(store.rows)
    ensures store.Value() == FeatureSteps(old(store.Value()), races)
    ensures fresh(frame) && frame.Valid()
    ensures ok == Pipeline(old(store.Value()), races).Some?
    ensures ok ==> frame.Value() == Pipeline(old(store.Value()), races).value
    ensures !ok ==> frame.Value() == store.Value()
  {
    store.AddColumnIfNotExists(Driver);
    store.UpdateExperience(races, Driver);
    frame := store.Select();
    store.AddColumnIfNotExists(Constructor);
    store.UpdateExperience(races, Constructor);
    frame := store.Select();
    ok := frame.FinaliseFeatureList();
  }

  /** After both steps a joined row holds, in each feature, the flag of its
      first matching result in that entity's ranking of the original rows. */
  lemma FeatureStepsWriteFlags(rel: Relation, races: map<int, int>, i: nat)
    requires Joined(rel.rows, races, i)
    ensures var r := FeatureSteps(rel, races).rows[i];
      && r.driverExperience == Some(Flag(rel.rows, races, Driver, FirstMatch(rel.rows, races, Driver, i)))
      && r.constructorExperience == Some(Flag(rel.rows, races, Constructor, FirstMatch(rel.rows, races, Constructor, i)))
  {
    var d := ExperienceStep(rel, races, Driver);
    StepWritesFlag(rel, races, Driver, i);
    StepChangesOnlyExperience(d, races, Constructor, i);
    StepKeepsRankingInputs(rel, races, Driver, Constructor);
    StepWritesFlag(d, races, Constructor, i);
    RankingReadsOnlyKeys(rel.rows, d.rows, races, Constructor);
  }

  /** With unique (driverId, raceId) keys the driver feature of a joined row
      is the row's own flag. */
  lemma UniqueDriverKeysGiveOwnFlag(rel: Relation, races: map<int, int>, i: nat)
    requires Joined(rel.rows, races, i) && UniqueKeys(rel.rows, races, Driver)
    ensures FeatureSteps(rel, races).rows[i].driverExperience == Some(Flag(rel.rows, races, Driver, i))
  {
    FeatureStepsWriteFlags(rel, races, i);
    assert FirstMatch(rel.rows, races, Driver, i) == i;
  }

  /** Both steps keep every row in its place with its ids and its other
      cells; on a store without the two experience columns they append the
      two columns to the schema. */
  lemma FeatureStepsKeepRows(rel: Relation, races: map<int, int>, i: nat)
    requires i < |rel.rows|
    ensures |FeatureSteps(rel, races).rows| == |rel.rows|
    ensures DriverExperienceColumn !in rel.columns && ConstructorExperienceColumn !in rel.columns ==>
      FeatureSteps(rel, races).columns == rel.columns + [DriverExperienceColumn, ConstructorExperienceColumn]
    ensures var r := FeatureSteps(rel, races).rows[i];
      && r.raceId == rel.rows[i].raceId
      && r.driverId == rel.rows[i].driverId
      && r.constructorId == rel.rows[i].constructorId
      && r.other == rel.rows[i].other
  {
    var d := ExperienceStep(rel, races, Driver);
    StepChangesOnlyExperience(rel, races, Driver, i);
    FeatureColumnsDiffer();
    StepChangesOnlyExperience(d, races, Constructor, i);
  }

  /** On a store without the two experience columns both steps leave a 0 or
      1 in each feature of every row, and 0 in both for a result whose race
      is missing from races. */
  lemma FeatureStepsOnFreshStore(rel: Relation, races: map<int, int>, i: nat)
    requires i < |rel.rows|
    requires DriverExperienceColumn !in rel.columns && ConstructorExperienceColumn !in rel.columns
    ensures var r := FeatureSteps(rel, races).rows[i];
      && (r.driverExperience == Some(0) || r.driverExperience == Some(1))
      && (r.constructorExperience == Some(0) || r.constructorExperience == Some(1))
      && (rel.rows[i].raceId !in races ==> r.driverExperience == Some(0) && r.constructorExperience == Some(0))
  {
    var d := ExperienceStep(rel, races, Driver);
    StepChangesOnlyExperience(rel, races, Driver, i);
    FeatureColumnsDiffer();
    assert ConstructorExperienceColumn !in d.columns;
    StepValuesAreFlags(rel, races, Driver, i);
    StepChangesOnlyExperience(d, races, Constructor, i);
    StepValuesAreFlags(d, races, Constructor, i);
  }

  lemma FeatureColumnsKept(columns: seq<string>)
    ensures KeptColumns(columns + [DriverExperienceColumn] + [ConstructorExperienceColumn], DroppedSet)
         == KeptColumns(columns, DroppedSet) + [DriverExperienceColumn, ConstructorExperienceColumn]
  {
    FeaturesNotDropped();
    FeatureColumnsDiffer();
    assert [DriverExperienceColumn][1..] == [] && [ConstructorExperienceColumn][1..] == [];
    assert KeptColumns([DriverExperienceColumn], DroppedSet) == [DriverExperienceColumn];
    assert KeptColumns([ConstructorExperienceColumn], DroppedSet) == [ConstructorExperienceColumn];
    KeptColumnsAppend(columns + [DriverExperienceColumn], [ConstructorExperienceColumn], DroppedSet);
    KeptColumnsAppend(columns, [DriverExperienceColumn], DroppedSet);
  }

  lemma DroppedPresentIgnoresFeatures(columns: seq<string>)
    ensures (forall c | c in DroppedColumns :: c in columns + [DriverExperienceColumn] + [ConstructorExperienceColumn])
        <==> (forall c | c in DroppedColumns :: c in columns)
  {
    DroppedSetIsDroppedColumns();
    FeaturesNotDropped();
    FeatureColumnsDiffer();
  }

  /** The trimmed output of a store without the two experience columns: it
      exists exactly when the six labels are columns, and then holds the
      kept columns in order followed by the two features, and each row of
      the store after both steps without the six dropped cells. */
  lemma PipelineOnFreshStore(rel: Relation, races: map<int, int>)
    requires DriverExperienceColumn !in rel.columns && ConstructorExperienceColumn !in rel.columns
    ensures Pipeline(rel, races).Some? <==> forall c | c in DroppedColumns :: c in rel.columns
    ensures Pipeline(rel, races).Some? ==>
      && Pipeline(rel, races).value.columns
           == KeptColumns(rel.columns, DroppedSet) + [DriverExperienceColumn, ConstructorExperienceColumn]
      && |Pipeline(rel, races).value.rows| == |rel.rows|
      && forall i | 0 <= i < |rel.rows| ::
           Pipeline(rel, races).value.rows[i] == TrimRow(FeatureSteps(rel, races).rows[i])
  {
    var s := FeatureSteps(rel, races);
    var d := ExperienceStep(rel, races, Driver);
    assert d.columns == rel.columns + [DriverExperienceColumn];
    assert s.columns == rel.columns + [DriverExperienceColumn] + [ConstructorExperienceColumn];
    DroppedPresentIgnoresFeatures(rel.columns);
    if Pipeline(rel, races).Some? {
      TrimShape(s);
      FeatureColumnsKept(rel.columns);
    }
  }

  /** Running both feature steps again on the store they produced leaves it
      unchanged: the ranking never reads the experience columns, and both
      columns already exist. */
  lemma RerunLeavesStoreUnchanged(rel: Relation, races: map<int, int>)
    ensures FeatureSteps(FeatureSteps(rel, races), races) == FeatureSteps(rel, races)
  {
    var d := ExperienceStep(rel, races, Driver);
    var s := ExperienceStep(d, races, Constructor);
    var a1 := AddColumn(rel, Driver).rows;
    assert DriverExperienceColumn in s.columns;
    StepKeepsRankingInputs(rel, races, Driver, Driver);
    StepKeepsRankingInputs(d, races, Constructor, Driver);
    assert SameRankingInputs(a1, s.rows, Driver);
    RankingReadsOnlyKeys(a1, s.rows, races, Driver);
    forall i: nat | Joined(s.rows, races, i)
      ensures ExperienceOf(s.rows[i], Driver)
           == Some(Flag(s.rows, races, Driver, FirstMatch(s.rows, races, Driver, i)))
    {
      StepChangesOnlyExperience(d, races, Constructor, i);
      assert d.rows[i] == UpdatedRow(a1, races, Driver, i);
    }
    UpdateFixedPoint(s.rows, races, Driver);
    assert ExperienceStep(s, races, Driver) == s;
    StepIdempotent(d, races, Constructor);
  }
}
