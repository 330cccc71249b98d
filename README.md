# Formula 1 experience features: a Dafny model

This project models the feature-engineering core of the Formula 1 feature
pipeline. The pipeline is a Metaflow flow that works on a DuckDB table
`results_store`, which holds one row per race result, and a `races` table
that holds one date per race.

- **Driver step** (`create_driver_experience_feature`). It adds the column
  `driverExperience INT DEFAULT 0` to the results table. It then runs one
  `UPDATE ... FROM`. The subquery numbers each driver's results, newest race
  first, with `ROW_NUMBER() OVER (PARTITION BY driverId ORDER BY date DESC)`.
  It flags a result with 1 when its number is at most 60 and with 0
  otherwise. The UPDATE joins back on `(driverId, raceId)`.
- **Constructor step** (`create_constructor_experience_feature`). It does the
  same on `constructorId`, into `constructorExperience`.
- After each step the flow copies the whole table into a pandas DataFrame
  with `SELECT *`.
- **Final step** (`finalise_feature_list`). It drops six columns from that
  DataFrame: `resultId`, `number`, `positionText`, `positionOrder`, `time` and
  `milliseconds`.

The model has six modules.

- `ResultsTable` (results_table.dfy) holds the table values.
  - A `Relation` is the column names in schema order plus the rows in table
    order.
  - A `Row` keeps its ids in typed fields. Each experience field is an
    `Option`, which is `None` while its column does not exist. Every other
    cell is kept in a map.
  - `WellFormed` is the table invariant: distinct column names, the three id
    columns present, and every row holding exactly the cells of the schema.
- `ExperienceRanking` (experience_ranking.dfy) models the ranking subquery.
  - The inner join keeps the rows whose `raceId` is a key of `races`. `races`
    is a map from raceId to date. The `races` table declares no key (it is
    created from the CSV file with `CREATE TABLE ... AS SELECT`, line 56);
    raceId is unique in the races data by convention, and the map assumes it.
  - A row's partition is the set of joined rows with its entity id.
  - Its row number is one plus the number of partition rows ranked ahead of
    it. A row ranks ahead if its date is later, or if its date is equal and
    it comes earlier in the table.
  - Its flag is `CASE WHEN row number <= 60 THEN 1 ELSE 0 END`.
- `ExperienceUpdate` (experience_update.dfy) models `ADD COLUMN IF NOT EXISTS`,
  the `UPDATE ... FROM` and the whole step, as functions on `Relation`s.
- `FeatureTrim` (feature_trim.dfy) models the pandas column drop. When a
  label is not a column, pandas raises `KeyError` and the frame stays as it
  was.
- `ResultsStore` (results_store.dfy) is the mutable side.
  - A `Table` class, with a schema field and an array of rows, stands for both
    the DuckDB table and a DataFrame copy.
  - `AddColumnIfNotExists`, `UpdateExperience` and `FinaliseFeatureList`
    change the table in place. Each is proved to leave exactly the value that
    the matching function computes. `Select` leaves the table alone and
    returns a fresh copy of it.
- `FeaturePipeline` (feature_pipeline.dfy) runs the steps in the flow's order:
  - the driver step (`self.next` at line 93 leads to it);
  - the constructor step (line 145);
  - the final drop (line 195);
  - the next step, `create_feature_group` (line 204), is not part of this
    model.

## Behaviour of the code worth knowing

- The subquery's alias `cumulative_experience` suggests a count of races,
  but line 117 writes a 0/1 flag. The flag is 1 for an entity's 60 most
  recent joined results and 0 for older ones. An entity's first race
  therefore gets 1 whenever the entity has at most 60 joined results
  (the second ensures of `Flag`).
- The ranking reads only raceIds, entity ids and race dates, never the
  experience columns. A re-run of a step therefore meets the same joined
  rows, partitions and matches as the first run, so it has the same set of
  possible outcomes (`RerunSeesSameSubquery`). The flags themselves are the
  same only under the model's fixed order for equal dates: SQL may number
  equal dates differently on each run. With the model's fixed choices below
  a re-run rewrites the same values (`StepIdempotent`,
  `RerunLeavesStoreUnchanged`).
- A result whose raceId is missing from `races` is dropped by the inner
  join. It keeps the column's default 0, or the value it had before, and
  nothing reports it.

Two points are nondeterministic in SQL, and the model fixes one choice for
each.

- `ROW_NUMBER` does not fix the order of results with equal dates. The model
  ranks such results by table position. `RowNumbersAreARowNumbering` proves
  that this gives a valid numbering.
- An `UPDATE ... FROM` whose row matches several subquery rows takes one of
  them, and SQL does not say which. This happens to a constructor's two cars
  in one race. The model takes the first match in table order.
  `UpdateRows`' contract states only what SQL guarantees: the value written is
  the flag of some matching row.

## Model

| member | source | states |
|---|---|---|
| ResultsTable.WithExperience | feature-pipeline/feature-pipeline.py:111-112 | The SET writes the feature column of the row and no other field: ids, the other feature and every other cell are unchanged |
| ResultsTable.CellsFollowSchema | feature-pipeline/feature-pipeline.py:126-127 | In a well-formed table, a row of the `SELECT *` copy has a cell for a column exactly when the column is in the schema |
| ExperienceRanking.FlagFor | feature-pipeline/feature-pipeline.py:117 | The CASE yields only 0 or 1, and yields 1 exactly when the row number is at most 60 |
| ExperienceRanking.RowNumber | feature-pipeline/feature-pipeline.py:117 | The ROW_NUMBER of a joined row lies between 1 and the size of its partition |
| ExperienceRanking.Flag | feature-pipeline/feature-pipeline.py:117 | The value the subquery emits is 0 or 1, and is 1 for every result of an entity with at most 60 joined results |
| ExperienceRanking.ComputeRowNumber | feature-pipeline/feature-pipeline.py:117-119 | Scanning the joined rows and counting the partition rows ranked ahead gives the row number of the window definition |
| ExperienceRanking.RowNumbersAreARowNumbering | feature-pipeline/feature-pipeline.py:117 | Within a partition of n joined rows the numbers lie in 1..n, differ between rows, and a row with a later race date gets a smaller number (ORDER BY date DESC) |
| ExperienceRanking.CountTopK | feature-pipeline/feature-pipeline.py:117 | In any set of rows numbered newest first, exactly min(k, size) rows get a number at most k |
| ExperienceRanking.PartitionFlagCount | feature-pipeline/feature-pipeline.py:117-119 | For every driver or constructor with n joined results, exactly min(60, n) of them are flagged 1 |
| ExperienceRanking.FlagMeansRecent | feature-pipeline/feature-pipeline.py:117 | A flagged result's later results of the same entity are flagged too. An unflagged result has at least 60 other results of its entity on the same date or later |
| ExperienceUpdate.FirstMatch | feature-pipeline/feature-pipeline.py:121 | The chosen subquery row matches the table row on entity id and raceId, lies no later than the row itself, and no earlier subquery row matches |
| ExperienceUpdate.FindFirstMatch | feature-pipeline/feature-pipeline.py:121 | The scan for a matching subquery row returns the first match |
| ExperienceUpdate.UpdatedRow | feature-pipeline/feature-pipeline.py:111-121 | The UPDATE's value for one row keeps its ids, its other cells and the other feature. A joined row holds 0 or 1 in the feature, and an unjoined row is unchanged |
| ExperienceUpdate.ComputeUpdatedRow | feature-pipeline/feature-pipeline.py:111-121 | Evaluating the UPDATE for one row gives the row with its first match's flag, or the unchanged row when its race is not joined |
| ExperienceUpdate.ComputeUpdatedRows | feature-pipeline/feature-pipeline.py:111-121 | Evaluating the UPDATE row by row in table order gives the UPDATE's result table |
| ExperienceUpdate.UpdateRows | feature-pipeline/feature-pipeline.py:111-121 | The UPDATE keeps the row count. A row whose race is not in `races` keeps every value. Every other row gets the flag of some subquery row that matches it on entity id and raceId |
| ExperienceUpdate.AddColumn | feature-pipeline/feature-pipeline.py:108-109 | After ADD COLUMN IF NOT EXISTS the column exists. An existing column leaves the table untouched. Otherwise the column is appended to the schema and every row holds the default 0 |
| ExperienceUpdate.AddColumnKeepsWellFormed | feature-pipeline/feature-pipeline.py:108-109 | Adding the column keeps the table well formed |
| ExperienceUpdate.ApplyUpdate | feature-pipeline/feature-pipeline.py:111-121 | The UPDATE keeps the schema and the row count, and leaves every row whose race is missing from `races` unchanged |
| ExperienceUpdate.UpdateKeepsWellFormed | feature-pipeline/feature-pipeline.py:111-121 | The UPDATE on an existing column keeps the table well formed |
| ExperienceUpdate.ExperienceStep | feature-pipeline/feature-pipeline.py:108-121 | After the step's SQL script the feature column is in the schema |
| ExperienceUpdate.StepKeepsWellFormed | feature-pipeline/feature-pipeline.py:108-121 | The whole step keeps the table well formed |
| ExperienceUpdate.UniqueKeysWriteOwnFlag | feature-pipeline/feature-pipeline.py:111-121 | When no two joined results share entity id and raceId, each joined row receives its own flag |
| ExperienceUpdate.UniqueKeysFlagCount | feature-pipeline/feature-pipeline.py:111-121 | With unique keys, after the UPDATE exactly min(60, n) of an entity's n joined results hold 1 |
| ExperienceUpdate.SameRaceRowsAgree | feature-pipeline/feature-pipeline.py:163-173 | With the model's first-match choice, two results of one constructor in one race receive the same constructor value |
| ExperienceUpdate.StepWritesFlag | feature-pipeline/feature-pipeline.py:108-121 | After a step, a joined row's feature is the flag of its first match, ranked over the rows the step started from |
| ExperienceUpdate.StepKeepsRankingInputs | feature-pipeline/feature-pipeline.py:111-121 | A step changes no raceId, driverId or constructorId |
| ExperienceUpdate.RankingReadsOnlyKeys | feature-pipeline/feature-pipeline.py:114-119 | Two tables that agree on raceIds and entity ids have the same joined rows, flags and first matches |
| ExperienceUpdate.RerunSeesSameSubquery | feature-pipeline/feature-pipeline.py:108-121 | After a step, the joined rows and every row's set of matching subquery rows are as they were before it, and so are the flags under the model's fixed order for equal dates |
| ExperienceUpdate.UpdateFixedPoint | feature-pipeline/feature-pipeline.py:111-121 | A table whose feature column already holds the flag of each joined row's first match is left unchanged by the UPDATE |
| ExperienceUpdate.UpdateIdempotent | feature-pipeline/feature-pipeline.py:111-121 | With the model's fixed choices, running the UPDATE twice gives the same table as running it once |
| ExperienceUpdate.StepIdempotent | feature-pipeline/feature-pipeline.py:108-121 | With the model's fixed choices, running a whole step twice gives the same table as running it once |
| ExperienceUpdate.StepChangesOnlyExperience | feature-pipeline/feature-pipeline.py:108-121 | A step keeps the row count, and adds its column only when it is missing. It keeps each row's ids, its other cells and the other feature |
| ExperienceUpdate.StepValuesAreFlags | feature-pipeline/feature-pipeline.py:108-121 | After a step on a table without the column, every row holds 0 or 1, and an unjoined row holds the default 0. Where the column already holds 0/1 values it keeps holding 0/1 values |
| FeatureTrim.TrimRow | feature-pipeline/feature-pipeline.py:202 | A trimmed row loses exactly the cells of the six labels, keeps every other cell with its value, and keeps its ids and features |
| FeatureTrim.KeptColumns | feature-pipeline/feature-pipeline.py:202 | A column survives the drop exactly when it is not a dropped label, and distinct names stay distinct |
| FeatureTrim.KeptColumnsAppend | feature-pipeline/feature-pipeline.py:202 | The drop keeps the remaining columns in their order |
| FeatureTrim.KeptColumnsCount | feature-pipeline/feature-pipeline.py:202 | A schema loses exactly as many columns as it shares with the dropped labels |
| FeatureTrim.Trim | feature-pipeline/feature-pipeline.py:202 | The drop succeeds exactly when all six labels are columns; otherwise it yields nothing (KeyError) |
| FeatureTrim.TrimKeepsWellFormed | feature-pipeline/feature-pipeline.py:202 | A successful drop keeps the table well formed |
| FeatureTrim.TrimKeepsCells | feature-pipeline/feature-pipeline.py:202 | A successful drop keeps every row in place, keeps the cell of every other column, and leaves no cell for a dropped column |
| FeatureTrim.TrimDropsSixColumns | feature-pipeline/feature-pipeline.py:202 | A successful drop on a well-formed table removes exactly six columns and keeps all others, in their order |
| ResultsStore.Table.AddColumnIfNotExists | feature-pipeline/feature-pipeline.py:108-109 | The in-place ALTER TABLE leaves the table value that AddColumn computes, keeps it well formed, and keeps the same row array |
| ResultsStore.Table.UpdateExperience | feature-pipeline/feature-pipeline.py:111-121 | The in-place UPDATE, whose subquery reads the table as it was before the update, leaves the value ApplyUpdate computes and keeps the table well formed |
| ResultsStore.Table.WriteUpdatedRows | feature-pipeline/feature-pipeline.py:111-121 | The row array ends up holding the UPDATE's result rows computed from the snapshot |
| ResultsStore.Table.Select | feature-pipeline/feature-pipeline.py:126-127 | `SELECT *` gives a fresh, well-formed copy with the table's value, so later changes to the table do not reach it |
| ResultsStore.Table.FinaliseFeatureList | feature-pipeline/feature-pipeline.py:202 | The in-place drop reports success exactly when Trim does. On success the frame holds Trim's value; on KeyError it is unchanged. Either way it stays well formed |
| ResultsStore.Table.TrimRows | feature-pipeline/feature-pipeline.py:202 | Every row of the array is replaced, in place, by the row without the six dropped cells |
| FeaturePipeline.FeatureSteps | feature-pipeline/feature-pipeline.py:93-175 | After the driver step and then the constructor step, both feature columns exist, every earlier column is kept, and the row count is unchanged |
| FeaturePipeline.Pipeline | feature-pipeline/feature-pipeline.py:93-202 | The flow's output exists exactly when the six labels are columns of the starting store, and then it keeps both feature columns |
| FeaturePipeline.RunFeaturePipeline | feature-pipeline/feature-pipeline.py:105-202 | The driver step, a copy, the constructor step, a copy, then the drop. The store ends as FeatureSteps of its start value. The final frame is Pipeline's value when the drop succeeds and the store's copy when it fails |
| FeaturePipeline.FeatureStepsWriteFlags | feature-pipeline/feature-pipeline.py:108-173 | After both steps, a joined row's driver and constructor features are each the flag of its first match, ranked over the original rows |
| FeaturePipeline.UniqueDriverKeysGiveOwnFlag | feature-pipeline/feature-pipeline.py:108-173 | With unique (driverId, raceId), a joined row's driver feature after both steps is its own flag |
| FeaturePipeline.FeatureStepsKeepRows | feature-pipeline/feature-pipeline.py:108-173 | Both steps keep the row count and each row's ids and other cells. On a store without the features they append the two columns to the schema, in step order |
| FeaturePipeline.FeatureStepsOnFreshStore | feature-pipeline/feature-pipeline.py:108-173 | On a store without the features, both features of every row are 0 or 1 after both steps, and both are 0 for a result whose race is missing |
| FeaturePipeline.FeatureColumnsKept | feature-pipeline/feature-pipeline.py:202 | The drop keeps both feature columns, last and in step order |
| FeaturePipeline.PipelineOnFreshStore | feature-pipeline/feature-pipeline.py:108-202 | On a store without the features, the output exists exactly when the six labels are columns. Its columns are then the kept columns followed by the two features, and each row is the featured row without the six cells |
| FeaturePipeline.RerunLeavesStoreUnchanged | feature-pipeline/feature-pipeline.py:108-173 | With the model's fixed choices, running both feature steps again on their own output changes nothing |

## Left out

- Environment checks, the DuckDB connection, CSV loading and the creation of the tables (`start` and the data-loading step). The model starts from a `results_store` value and a `races` map.
- The diagnostic queries and all printing, including the shape reports after each feature step. They change no state.
- `create_feature_group` and the later steps: the feature store login, the feature group and the upload. These are calls to an external service.
- Metaflow's step plumbing and artifact persistence become plain sequential calls on one `Table`. The DuckDB table kept across steps is that object.
- Race dates are modelled as integers ordered like the dates, and a `races` row with a NULL date is not modelled. The model does not handle duplicate raceIds in `races`: the table declares no key, raceId is unique in the races data by convention, and the map from raceId to date assumes it. A duplicate would repeat every joined result of that race in the ranking.
- Column names are compared exactly. DuckDB matches identifiers regardless of case, in `ADD COLUMN IF NOT EXISTS` and in the `SET` target (lines 108-112 and 160-164). No column of the results data (listed at lines 241-242) differs from `driverExperience` or `constructorExperience` only in case, so the two agree on this data.
- SQL NULLs in the id columns are not modelled. Ids are plain integers.
- The 32-bit width of `INT`. Every value written is 0 or 1, so the width never matters.
- ExperienceRanking.RowNumber: fixes one order for equal race dates, table position. SQL leaves that order open, and `RowNumbersAreARowNumbering` states what any valid choice satisfies.
- ExperienceUpdate.FirstMatch: fixes which of several matching subquery rows the UPDATE takes. SQL leaves this open, and `UpdateRows` states only the guarantee SQL gives.
- ExperienceUpdate.SameRaceRowsAgree: holds for the model's first-match choice only. In SQL, when a constructor's 60th and 61st ranked results fall in one race, that race has two matching subquery rows, one flagged 1 and one flagged 0, and each target row may take either.
- ExperienceUpdate.UpdateIdempotent: holds for the model's fixed tie-break and first-match choice. In SQL a re-run meets the same joined rows, partitions and matches (`RerunSeesSameSubquery`), yet may write other values for two reasons. First, ROW_NUMBER may order equal dates differently on each run: when an entity's 60th and 61st results are in two races on one date, the 1 and the 0 may swap. Second, where a row has matches with different flags, the UPDATE may pick another one.
- ExperienceUpdate.StepIdempotent: holds for the model's fixed choices, for the same reason as `UpdateIdempotent`.
- FeaturePipeline.RerunLeavesStoreUnchanged: holds for the model's fixed choices, for the same reason as `UpdateIdempotent`.
- The column order of pandas DataFrames read back from DuckDB is taken as the table's schema order.
