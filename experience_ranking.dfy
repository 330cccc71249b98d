/** The ranking subquery of the experience features:
      ROW_NUMBER() OVER (PARTITION BY <entity id> ORDER BY race date DESC) <= 60
    over results_store inner-joined to races on raceId.

    Rows of the join are identified by their index in results_store. The
    races table declares no key; raceId is unique in the races data by
    convention, and modelling races as a map from raceId to date assumes
    it, so the join adds no rows and drops the unmatched ones.
    ROW_NUMBER leaves the order of equal dates open; the model fixes it by
    table position (the earlier row is numbered first), and
    RowNumbersAreARowNumbering proves that this is one of the numberings
    the database may produce. */
module ExperienceRanking {
  import opened ResultsTable

  /** The number of most recent results that are flagged with 1. */
  const RecentWindow: nat := 60

  function Min(a: int, b: int): int {
    if a <= b then a else b
  }

  /** Row i of the table survives the inner join with races. */
  predicate Joined(t: seq<Row>, races: map<int, int>, i: nat) {
    i < |t| && t[i].raceId in races
  }

  /** The race date a joined row carries (0 for rows the join drops, which
      are never ranked). */
  function RaceDate(t: seq<Row>, races: map<int, int>, i: nat): int {
    if Joined(t, races, i) then races[t[i].raceId] else 0
  }

  /** Row j is numbered before row i: a later race date, or the same date
      and an earlier table position. */
  predicate RanksAhead(t: seq<Row>, races: map<int, int>, j: nat, i: nat) {
    RaceDate(t, races, j) > RaceDate(t, races, i)
    || (RaceDate(t, races, j) == RaceDate(t, races, i) && j < i)
  }

  /** The joined rows of the partition of entity id `k`: a row is in it
      exactly when the join keeps it and its entity id is `k`. */
  function Partition(t: seq<Row>, races: map<int, int>, e: Entity, k: int): (p: set<nat>)
  {
    set i: nat | i < |t| && t[i].raceId in races && KeyOf(t[i], e) == k
  }

  /** The position of row i in the date-DESC order of the rows of `s`. */
  function RankIn(t: seq<Row>, races: map<int, int>, s: set<nat>, i: nat): nat {
    1 + |set j | j in s && RanksAhead(t, races, j, i)|
  }

  /** ROW_NUMBER of a joined row within its entity's partition. */
  function RowNumber(t: seq<Row>, races: map<int, int>, e: Entity, i: nat): (n: nat)
    requires Joined(t, races, i)
    ensures 1 <= n <= |Partition(t, races, e, KeyOf(t[i], e))|
  {
    var p := Partition(t, races, e, KeyOf(t[i], e));
    RankWithinSet(t, races, p, i);
    RankIn(t, races, p, i)
  }

  /** A row's position in a set it belongs to is at most the set's size:
      the rows ranked ahead of it are the others, or some of them. */
  lemma RankWithinSet(t: seq<Row>, races: map<int, int>, s: set<nat>, i: nat)
    requires i in s
    ensures RankIn(t, races, s, i) <= |s|
  {
    var ahead := set j | j in s && RanksAhead(t, races, j, i);
    assert ahead <= s - {i};
    SubsetNotLarger(ahead, s - {i});
  }

  /** CASE WHEN row number <= 60 THEN 1 ELSE 0 END */
  function FlagFor(rowNumber: nat): (f: int)
    ensures f == 0 || f == 1
    ensures f == 1 <==> rowNumber <= RecentWindow
  {
    if rowNumber <= RecentWindow then 1 else 0
  }

  /** The `cumulative_experience` value the subquery emits for a joined row. */
  function Flag(t: seq<Row>, races: map<int, int>, e: Entity, i: nat): (f: int)
    requires Joined(t, races, i)
    ensures f == 0 || f == 1
    ensures |Partition(t, races, e, KeyOf(t[i], e))| <= RecentWindow ==> f == 1
  {
    FlagFor(RowNumber(t, races, e, i))
  }

  /** Counts, row by row, the rows of i's partition that are numbered before
      it, as the window function does over the joined rows. */
  method ComputeRowNumber(t: seq<Row>, races: map<int, int>, e: Entity, i: nat) returns (n: nat)
    requires Joined(t, races, i)
    ensures n == RowNumber(t, races, e, i)
  {
    var k := KeyOf(t[i], e);
    var ahead: nat := 0;
    var j := 0;
    while j < |t|
      invariant j <= |t|
      invariant ahead == |AheadBelow(t, races, e, i, j)|
    {
      AheadBelowStep(t, races, e, i, j);
      if t[j].raceId in races && KeyOf(t[j], e) == k && RanksAhead(t, races, j, i) {
        ahead := ahead + 1;
      }
      j := j + 1;
    }
    AheadBelowAll(t, races, e, i);
    n := 1 + ahead;
  }

  /** The rows below position `bound` that are numbered before row i in i's partition. */
  ghost function AheadBelow(t: seq<Row>, races: map<int, int>, e: Entity, i: nat, bound: nat): set<nat>
    requires i < |t|
  {
    set j: nat | j < bound && j < |t| && t[j].raceId in races && KeyOf(t[j], e) == KeyOf(t[i], e)
                 && RanksAhead(t, races, j, i)
  }

  lemma AheadBelowStep(t: seq<Row>, races: map<int, int>, e: Entity, i: nat, j: nat)
    requires i < |t| && j < |t|
    ensures t[j].raceId in races && KeyOf(t[j], e) == KeyOf(t[i], e) && RanksAhead(t, races, j, i) ==>
      |AheadBelow(t, races, e, i, j + 1)| == |AheadBelow(t, races, e, i, j)| + 1
    ensures !(t[j].raceId in races && KeyOf(t[j], e) == KeyOf(t[i], e) && RanksAhead(t, races, j, i)) ==>
      AheadBelow(t, races, e, i, j + 1) == AheadBelow(t, races, e, i, j)
  {
    if t[j].raceId in races && KeyOf(t[j], e) == KeyOf(t[i], e) && RanksAhead(t, races, j, i) {
      assert AheadBelow(t, races, e, i, j + 1) == AheadBelow(t, races, e, i, j) + {j};
    } else {
      assert AheadBelow(t, races, e, i, j + 1) == AheadBelow(t, races, e, i, j);
    }
  }

  lemma AheadBelowAll(t: seq<Row>, races: map<int, int>, e: Entity, i: nat)
    requires i < |t|
    ensures AheadBelow(t, races, e, i, |t|)
         == set x | x in Partition(t, races, e, KeyOf(t[i], e)) && RanksAhead(t, races, x, i)
  {
  }

  lemma ProperSubsetSmaller(a: set<nat>, b: set<nat>, x: nat)
    requires a <= b && x in b && x !in a
    ensures |a| < |b|
  {
    assert b == a + (b - a);
    assert x in b - a;
  }

  lemma SubsetNotLarger(a: set<nat>, b: set<nat>)
    requires a <= b
    ensures |a| <= |b|
  {
    assert b == a + (b - a);
  }

  /** Every non-empty set of rows has a row that all the others are numbered before. */
  lemma LastRanked(t: seq<Row>, races: map<int, int>, s: set<nat>) returns (m: nat)
    requires s != {}
    ensures m in s
    ensures forall j | j in s && j != m :: RanksAhead(t, races, j, m)
    decreases |s|
  {
    var x :| x in s;
    var rest := s - {x};
    if rest == {} {
      m := x;
      assert s == rest + {x};
    } else {
      var last := LastRanked(t, races, rest);
      if RanksAhead(t, races, last, x) {
        m := x;
        forall j | j in s && j != m
          ensures RanksAhead(t, races, j, m)
        {
          if j != last {
            assert RanksAhead(t, races, j, last);
          }
        }
      } else {
        m := last;
        assert RanksAhead(t, races, x, last);
      }
    }
  }

  /** Removing the last-numbered row of a set leaves the others' numbers as
      they were, and that row's own number is the size of the set. */
  lemma RemoveLastRanked(t: seq<Row>, races: map<int, int>, s: set<nat>, m: nat)
    requires m in s
    requires forall j | j in s && j != m :: RanksAhead(t, races, j, m)
    ensures RankIn(t, races, s, m) == |s|
    ensures forall i | i in s && i != m :: RankIn(t, races, s, i) == RankIn(t, races, s - {m}, i)
  {
    assert (set j | j in s && RanksAhead(t, races, j, m)) == s - {m};
    forall i | i in s && i != m
      ensures RankIn(t, races, s, i) == RankIn(t, races, s - {m}, i)
    {
      assert !RanksAhead(t, races, m, i);
      assert (set j | j in s && RanksAhead(t, races, j, i))
          == (set j | j in s - {m} && RanksAhead(t, races, j, i));
    }
  }

  /** The rows of `s` numbered at most k. */
  function TopK(t: seq<Row>, races: map<int, int>, s: set<nat>, k: nat): set<nat> {
    set i | i in s && RankIn(t, races, s, i) <= k
  }

  lemma TopKWithoutLast(t: seq<Row>, races: map<int, int>, s: set<nat>, m: nat, k: nat)
    requires m in s
    requires forall j | j in s && j != m :: RanksAhead(t, races, j, m)
    ensures TopK(t, races, s, k) - {m} == TopK(t, races, s - {m}, k)
    ensures m in TopK(t, races, s, k) <==> |s| <= k
  {
    RemoveLastRanked(t, races, s, m);
    forall i | i in TopK(t, races, s, k) - {m}
      ensures i in TopK(t, races, s - {m}, k)
    {
      assert RankIn(t, races, s, i) == RankIn(t, races, s - {m}, i);
    }
    forall i | i in TopK(t, races, s - {m}, k)
      ensures i in TopK(t, races, s, k) - {m}
    {
      assert RankIn(t, races, s, i) == RankIn(t, races, s - {m}, i);
    }
  }

  /** Numbering the rows of any set in date-DESC order puts exactly
      min(k, |s|) of them at a position <= k. */
  lemma {:induction false} CountTopK(t: seq<Row>, races: map<int, int>, s: set<nat>, k: nat)
    ensures |TopK(t, races, s, k)| == Min(k, |s|)
    decreases |s|
  {
    var top := TopK(t, races, s, k);
    if s == {} {
      assert top == {};
    } else {
      var m := LastRanked(t, races, s);
      CountTopK(t, races, s - {m}, k);
      TopKWithoutLast(t, races, s, m, k);
      var top' := TopK(t, races, s - {m}, k);
      if |s| <= k {
        assert top == top' + {m};
      } else {
        assert top == top';
      }
    }
  }

  /** The row numbers within a partition of n rows run over 1..n, are
      distinct, and a row with a later race date gets a smaller number:
      the fixed tie-break yields a valid ROW_NUMBER ... ORDER BY date DESC. */
  lemma RowNumbersAreARowNumbering(t: seq<Row>, races: map<int, int>, e: Entity, k: int, i: nat, j: nat)
    requires i in Partition(t, races, e, k) && j in Partition(t, races, e, k)
    ensures 1 <= RowNumber(t, races, e, i) <= |Partition(t, races, e, k)|
    ensures i != j ==> RowNumber(t, races, e, i) != RowNumber(t, races, e, j)
    ensures RaceDate(t, races, j) > RaceDate(t, races, i) ==> RowNumber(t, races, e, j) < RowNumber(t, races, e, i)
  {
    var p := Partition(t, races, e, k);
    var aheadI := set x | x in p && RanksAhead(t, races, x, i);
    var aheadJ := set x | x in p && RanksAhead(t, races, x, j);
    assert RowNumber(t, races, e, i) == 1 + |aheadI|;
    assert RowNumber(t, races, e, j) == 1 + |aheadJ|;
    ProperSubsetSmaller(aheadI, p, i);
    if RanksAhead(t, races, j, i) {
      ProperSubsetSmaller(aheadJ, aheadI, j);
    } else if i != j {
      assert RanksAhead(t, races, i, j);
      ProperSubsetSmaller(aheadI, aheadJ, i);
    }
  }

  /** For every entity with n joined rows the subquery flags exactly
      min(60, n) of them with 1. */
  lemma PartitionFlagCount(t: seq<Row>, races: map<int, int>, e: Entity, k: int)
    ensures |set i | i in Partition(t, races, e, k) && Flag(t, races, e, i) == 1|
         == Min(RecentWindow, |Partition(t, races, e, k)|)
  {
    var p := Partition(t, races, e, k);
    CountTopK(t, races, p, RecentWindow);
    assert (set i | i in p && Flag(t, races, e, i) == 1) == TopK(t, races, p, RecentWindow);
  }

  /** The flag marks the most recent results: a flagged row's later results
      are flagged too, and an unflagged row has at least 60 other results of
      its entity on the same date or later. */
  lemma FlagMeansRecent(t: seq<Row>, races: map<int, int>, e: Entity, i: nat)
    requires Joined(t, races, i)
    ensures Flag(t, races, e, i) == 1 ==>
      forall j: nat | Joined(t, races, j) && KeyOf(t[j], e) == KeyOf(t[i], e)
                 && RaceDate(t, races, j) > RaceDate(t, races, i) :: Flag(t, races, e, j) == 1
    ensures Flag(t, races, e, i) == 0 ==>
      |set j | j in Partition(t, races, e, KeyOf(t[i], e)) && j != i
               && RaceDate(t, races, j) >= RaceDate(t, races, i)| >= RecentWindow
  {
    var k := KeyOf(t[i], e);
    var p := Partition(t, races, e, k);
    forall j: nat | Joined(t, races, j) && KeyOf(t[j], e) == k && RaceDate(t, races, j) > RaceDate(t, races, i)
      ensures RowNumber(t, races, e, j) < RowNumber(t, races, e, i)
    {
      RowNumbersAreARowNumbering(t, races, e, k, i, j);
    }
    var ahead := set j | j in p && RanksAhead(t, races, j, i);
    var sameOrLater := set j | j in p && j != i && RaceDate(t, races, j) >= RaceDate(t, races, i);
    assert ahead <= sameOrLater;
    if Flag(t, races, e, i) == 0 {
      assert |ahead| >= RecentWindow;
      SubsetNotLarger(ahead, sameOrLater);
    }
  }
}
