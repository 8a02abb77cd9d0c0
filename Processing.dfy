/** Data processing: the Prophet-shaped dataset, the optional volume feature
    and the chronological train/test split (pipelines/data_processing/nodes.py). */
module Processing {
  import opened Common
  import Ingestion

  /** One row of a Prophet frame: the date `ds` (epoch milliseconds), the
      target `y`, and the volume regressor, None where the cell is null or
      the frame has no volume column. */
  datatype Observation = Observation(ds: int, y: real, volume: Option<real>)

  function DsOf(o: Observation): int { o.ds }

  /** A Prophet frame: whether it carries a volume column, and its rows. */
  datatype ProphetFrame = ProphetFrame(hasVolume: bool, rows: seq<Observation>)

  /** The dates of a frame's rows, in row order. */
  function Dates(rows: seq<Observation>): (r: seq<int>)
    ensures |r| == |rows| && forall i :: 0 <= i < |rows| ==> r[i] == rows[i].ds
  {
    seq(|rows|, i requires 0 <= i < |rows| => rows[i].ds)
  }

  // ------------------------------------------------------------------
  // create_prophet_dataset
  // ------------------------------------------------------------------

  /** Every row has a value in the chosen price column. */
  predicate PricePresent(rows: seq<Ingestion.Kline>, price: Ingestion.Column)
    requires price in Ingestion.NullableRequired
  {
    forall i :: 0 <= i < |rows| ==> Ingestion.Cell(rows[i], price).Some?
  }

  /** The (ds, y) projection of one validated row. */
  function Project(k: Ingestion.Kline, price: Ingestion.Column): Observation
    requires price in Ingestion.NullableRequired && Ingestion.Cell(k, price).Some?
  {
    Observation(k.timestamp, Ingestion.Cell(k, price).value, None)
  }

  /** One (ds, y) row per validated row, in order: the date is the open time,
      the target is the chosen price cell, and there is no volume yet. */
  function ProjectAll(rows: seq<Ingestion.Kline>, price: Ingestion.Column): (r: seq<Observation>)
    requires price in Ingestion.NullableRequired && PricePresent(rows, price)
    ensures |r| == |rows|
    ensures forall i :: 0 <= i < |rows| ==>
      r[i].ds == rows[i].timestamp && Some(r[i].y) == Ingestion.Cell(rows[i], price) && r[i].volume.None?
  {
    seq(|rows|, i requires 0 <= i < |rows| => Project(rows[i], price))
  }

  /** create_prophet_dataset: project to (ds, y), sort by ds, drop repeated dates. */
  function CreateProphetDataset(rows: seq<Ingestion.Kline>, price: Ingestion.Column): ProphetFrame
    requires price in Ingestion.NullableRequired && PricePresent(rows, price)
  {
    ProphetFrame(false, DedupBy(SortBy(ProjectAll(rows, price), DsOf), DsOf))
  }

  /** The Prophet dataset has no volume column, its dates are strictly
      ascending, it has exactly the input's dates, each row is the projection
      of some input row with that date, and no row is lost when the input's
      timestamps are already unique. */
  lemma {:induction false} CreateProphetDatasetFacts(rows: seq<Ingestion.Kline>, price: Ingestion.Column)
    requires price in Ingestion.NullableRequired && PricePresent(rows, price)
    ensures var f := CreateProphetDataset(rows, price);
      !f.hasVolume &&
      StrictlyAscending(f.rows, DsOf) &&
      Keys(f.rows, DsOf) == Keys(rows, Ingestion.TimestampOf) &&
      (forall i :: 0 <= i < |f.rows| ==>
         f.rows[i].volume.None? &&
         exists j :: 0 <= j < |rows| && f.rows[i] == Project(rows[j], price)) &&
      (UniqueKeys(rows, Ingestion.TimestampOf) ==> |f.rows| == |rows|)
  {
    var p := ProjectAll(rows, price);
    var sorted := SortBy(p, DsOf);
    DedupByAscending(sorted, DsOf);
    DedupByFacts(sorted, DsOf);
    SortByFacts(p, DsOf);
    ProjectKeys(rows, price);
    DatasetRowsAreProjections(rows, price);
    if UniqueKeys(rows, Ingestion.TimestampOf) {
      DatasetOfUniqueTimestamps(rows, price);
    }
  }

  /** Each dataset row is the projection of some input row. */
  lemma DatasetRowsAreProjections(rows: seq<Ingestion.Kline>, price: Ingestion.Column)
    requires price in Ingestion.NullableRequired && PricePresent(rows, price)
    ensures var f := CreateProphetDataset(rows, price);
      forall i :: 0 <= i < |f.rows| ==>
        f.rows[i].volume.None? &&
        exists j :: 0 <= j < |rows| && f.rows[i] == Project(rows[j], price)
  {
    var p := ProjectAll(rows, price);
    var sorted := SortBy(p, DsOf);
    var f := CreateProphetDataset(rows, price);
    DedupByFacts(sorted, DsOf);
    forall i | 0 <= i < |f.rows|
      ensures f.rows[i].volume.None?
      ensures exists j :: 0 <= j < |rows| && f.rows[i] == Project(rows[j], price)
    {
      var y := sorted[FirstIndex(sorted, DsOf, f.rows[i].ds)];
      assert y == f.rows[i];
      assert y in multiset(p);
      var j :| 0 <= j < |p| && p[j] == y;
    }
  }

  /** With unique input timestamps nothing is dropped. */
  lemma DatasetOfUniqueTimestamps(rows: seq<Ingestion.Kline>, price: Ingestion.Column)
    requires price in Ingestion.NullableRequired && PricePresent(rows, price)
    requires UniqueKeys(rows, Ingestion.TimestampOf)
    ensures |CreateProphetDataset(rows, price).rows| == |rows|
  {
    var p := ProjectAll(rows, price);
    var sorted := SortBy(p, DsOf);
    assert UniqueKeys(p, DsOf);
    SortByFacts(p, DsOf);
    DedupByUniqueIsIdentity(sorted, DsOf);
  }

  lemma ProjectKeys(rows: seq<Ingestion.Kline>, price: Ingestion.Column)
    requires price in Ingestion.NullableRequired && PricePresent(rows, price)
    ensures Keys(ProjectAll(rows, price), DsOf) == Keys(rows, Ingestion.TimestampOf)
  {
    var p := ProjectAll(rows, price);
    forall t | t in Keys(p, DsOf) ensures t in Keys(rows, Ingestion.TimestampOf) {
      var y :| y in p && DsOf(y) == t;
      var j :| 0 <= j < |p| && p[j] == y;
      assert rows[j] in rows;
    }
    forall t | t in Keys(rows, Ingestion.TimestampOf) ensures t in Keys(p, DsOf) {
      var y :| y in rows && Ingestion.TimestampOf(y) == t;
      var j :| 0 <= j < |rows| && rows[j] == y;
      assert p[j] in p;
    }
  }

  // ------------------------------------------------------------------
  // add_features
  // ------------------------------------------------------------------

  /** The volume value after the guard against non-positive volumes: a
      positive volume is kept, anything else (zero, negative, null) becomes 1. */
  function PositiveVolume(x: Option<real>): (v: real)
    ensures v > 0.0
    ensures x.Some? && x.value > 0.0 ==> v == x.value
    ensures !(x.Some? && x.value > 0.0) ==> v == 1.0
  {
    if x.Some? && x.value > 0.0 then x.value else 1.0
  }

  /** The merged rows for one Prophet row in a left merge on the date: one
      row per validated row with that date, in validated order, or the row
      with a null volume when there is none. */
  function JoinRow(o: Observation, validated: seq<Ingestion.Kline>): (r: seq<Observation>)
    ensures |r| >= 1
  {
    var m := Filter(validated, HasKey(Ingestion.TimestampOf, o.ds));
    if m == [] then [o.(volume := None)]
    else seq(|m|, i requires 0 <= i < |m| => o.(volume := m[i].volume))
  }

  /** prophet_df.merge(volume_data, on="ds", how="left"). */
  function LeftJoinVolume(rows: seq<Observation>, validated: seq<Ingestion.Kline>): (r: seq<Observation>)
    ensures |r| >= |rows|
  {
    if rows == [] then [] else JoinRow(rows[0], validated) + LeftJoinVolume(rows[1..], validated)
  }

  /** Whatever the keys, every merged row is a left row with its date and
      target, carrying null or the volume of a validated row with that date. */
  lemma {:induction false} LeftJoinContents(rows: seq<Observation>, validated: seq<Ingestion.Kline>)
    ensures forall i :: 0 <= i < |LeftJoinVolume(rows, validated)| ==>
      JoinedFrom(LeftJoinVolume(rows, validated)[i], rows, validated)
  {
    if rows != [] {
      var a := JoinRow(rows[0], validated);
      var b := LeftJoinVolume(rows[1..], validated);
      var r := a + b;
      JoinRowContents(rows[0], validated);
      LeftJoinContents(rows[1..], validated);
      forall i | 0 <= i < |r| ensures JoinedFrom(r[i], rows, validated) {
        if i < |a| {
          assert r[i] == a[i];
          assert r[i].ds == rows[0].ds && r[i].y == rows[0].y;
        } else {
          assert r[i] == b[i - |a|];
          assert JoinedFrom(LeftJoinVolume(rows[1..], validated)[i - |a|], rows[1..], validated);
          var j :| 0 <= j < |rows[1..]| && b[i - |a|].ds == rows[1..][j].ds && b[i - |a|].y == rows[1..][j].y;
          assert rows[1..][j] == rows[j + 1];
        }
      }
    }
  }

  /** A merged row that comes from a left row (its date and target) and
      carries null or the volume of a validated row with that date. */
  predicate JoinedFrom(x: Observation, rows: seq<Observation>, validated: seq<Ingestion.Kline>)
  {
    (exists j :: 0 <= j < |rows| && x.ds == rows[j].ds && x.y == rows[j].y) &&
    (x.volume.None? || exists k :: 0 <= k < |validated| && validated[k].timestamp == x.ds && validated[k].volume == x.volume)
  }

  /** The merged rows of one left row keep its date and target, and carry
      null or the volume of a validated row with that date. */
  lemma JoinRowContents(o: Observation, validated: seq<Ingestion.Kline>)
    ensures var r := JoinRow(o, validated);
      forall i :: 0 <= i < |r| ==>
        r[i].ds == o.ds && r[i].y == o.y &&
        (r[i].volume.None? || exists k :: 0 <= k < |validated| && validated[k].timestamp == o.ds && validated[k].volume == r[i].volume)
  {
    var m := Filter(validated, HasKey(Ingestion.TimestampOf, o.ds));
    forall i | 0 <= i < |m| ensures exists k :: 0 <= k < |validated| && validated[k].timestamp == o.ds && validated[k].volume == m[i].volume {
      assert m[i] in m;
      assert Ingestion.TimestampOf(m[i]) == o.ds;
      var k :| 0 <= k < |validated| && validated[k] == m[i];
      assert validated[k].timestamp == o.ds && validated[k].volume == m[i].volume;
    }
  }

  function WithPositiveVolume(rows: seq<Observation>): (r: seq<Observation>)
    ensures |r| == |rows|
    ensures forall i :: 0 <= i < |rows| ==>
      r[i] == rows[i].(volume := Some(PositiveVolume(rows[i].volume)))
  {
    seq(|rows|, i requires 0 <= i < |rows| => rows[i].(volume := Some(PositiveVolume(rows[i].volume))))
  }

  /** add_features. `columns` are the validated frame's columns. The input is
      the plain (ds, y) frame create_prophet_dataset builds; a frame that
      already had a volume column would not reach this step in the pipeline. */
  function AddFeatures(f: ProphetFrame, addVolume: bool, validated: seq<Ingestion.Kline>, columns: set<Ingestion.Column>): ProphetFrame
    requires !f.hasVolume
  {
    if addVolume && Ingestion.Volume in columns then
      ProphetFrame(true, WithPositiveVolume(LeftJoinVolume(f.rows, validated)))
    else f
  }

  /** With the flag off or no volume column, the frame comes back unchanged;
      otherwise it gains a volume column whose every value is positive. */
  lemma {:induction false} AddFeaturesCases(f: ProphetFrame, addVolume: bool, validated: seq<Ingestion.Kline>, columns: set<Ingestion.Column>)
    requires !f.hasVolume
    ensures !(addVolume && Ingestion.Volume in columns) ==> AddFeatures(f, addVolume, validated, columns) == f
    ensures addVolume && Ingestion.Volume in columns ==>
      var r := AddFeatures(f, addVolume, validated, columns);
      r.hasVolume && |r.rows| >= |f.rows| &&
      forall i :: 0 <= i < |r.rows| ==> r.rows[i].volume.Some? && r.rows[i].volume.value > 0.0
  {
  }

  /** The volume a Prophet row with date `t` gets from validated rows with
      unique timestamps: that row's volume, or null when the date is absent. */
  function VolumeAt(validated: seq<Ingestion.Kline>, t: int): Option<real>
  {
    if t in Keys(validated, Ingestion.TimestampOf)
    then validated[FirstIndex(validated, Ingestion.TimestampOf, t)].volume
    else None
  }

  /** With unique validated timestamps the left merge keeps each row once,
      with its date and target, and attaches the volume of that date. */
  lemma {:induction false} LeftJoinUnique(rows: seq<Observation>, validated: seq<Ingestion.Kline>)
    requires UniqueKeys(validated, Ingestion.TimestampOf)
    ensures |LeftJoinVolume(rows, validated)| == |rows|
    ensures forall i :: 0 <= i < |rows| ==>
      LeftJoinVolume(rows, validated)[i] == rows[i].(volume := VolumeAt(validated, rows[i].ds))
  {
    if rows != [] {
      FilterUniqueKey(validated, Ingestion.TimestampOf, rows[0].ds);
      LeftJoinUnique(rows[1..], validated);
      var head := JoinRow(rows[0], validated);
      assert head == [rows[0].(volume := VolumeAt(validated, rows[0].ds))];
      var r := LeftJoinVolume(rows, validated);
      assert forall i :: 1 <= i < |rows| ==> r[i] == LeftJoinVolume(rows[1..], validated)[i - 1] && rows[i] == rows[1..][i - 1];
    }
  }

  /** With the flag on and unique validated timestamps, add_features keeps
      the row count, every date and target, and sets each volume to the
      validated volume of that date when positive and to 1 otherwise. */
  lemma {:induction false} AddFeaturesUnique(f: ProphetFrame, validated: seq<Ingestion.Kline>, columns: set<Ingestion.Column>)
    requires !f.hasVolume && Ingestion.Volume in columns
    requires UniqueKeys(validated, Ingestion.TimestampOf)
    ensures var r := AddFeatures(f, true, validated, columns);
      |r.rows| == |f.rows| &&
      forall i :: 0 <= i < |f.rows| ==>
        r.rows[i].ds == f.rows[i].ds && r.rows[i].y == f.rows[i].y &&
        r.rows[i].volume == Some(PositiveVolume(VolumeAt(validated, f.rows[i].ds)))
  {
    LeftJoinUnique(f.rows, validated);
  }

  // ------------------------------------------------------------------
  // split_train_test
  // ------------------------------------------------------------------

  function OnOrBefore(cutoff: int): Observation -> bool
  {
    (o: Observation) => o.ds <= cutoff
  }

  function After(cutoff: int): Observation -> bool
  {
    (o: Observation) => o.ds > cutoff
  }

  /** split_date = max(ds) - test_size_days days. */
  function SplitDate(rows: seq<Observation>, testSizeDays: int): int
    requires |rows| > 0
  {
    MaxInt(Dates(rows)) - testSizeDays * MsPerDay
  }

  /** split_train_test: sort by date, then train is every row on or before
      the split date and test every row after it. An empty frame has no
      maximum date, every comparison with it is false, and both parts are
      empty; an empty part is not an error. */
  function SplitTrainTest(f: ProphetFrame, testSizeDays: int): (ProphetFrame, ProphetFrame)
  {
    var sorted := SortBy(f.rows, DsOf);
    if |sorted| == 0 then (ProphetFrame(f.hasVolume, []), ProphetFrame(f.hasVolume, []))
    else
      var cutoff := SplitDate(sorted, testSizeDays);
      (ProphetFrame(f.hasVolume, Filter(sorted, OnOrBefore(cutoff))),
       ProphetFrame(f.hasVolume, Filter(sorted, After(cutoff))))
  }

  lemma DatesOfPermutation(a: seq<Observation>, b: seq<Observation>)
    requires multiset(a) == multiset(b) && |b| > 0
    ensures MaxInt(Dates(a)) == MaxInt(Dates(b))
  {
    assert |a| == |b| by {
      assert |multiset(a)| == |multiset(b)|;
    }
    var ma, mb := MaxInt(Dates(a)), MaxInt(Dates(b));
    var i :| 0 <= i < |a| && Dates(a)[i] == ma;
    var j :| 0 <= j < |b| && Dates(b)[j] == mb;
    assert a[i] in multiset(b);
    var j' :| 0 <= j' < |b| && b[j'] == a[i];
    assert b[j] in multiset(a);
    var i' :| 0 <= i' < |a| && a[i'] == b[j];
    assert Dates(b)[j'] <= mb && Dates(a)[i'] <= ma;
  }

  /** The split partitions the input: the rows of train and test together
      are the input's rows; train holds exactly the rows dated on or before
      max(ds) - d days and test exactly those after it, both in ascending
      date order, and every train date precedes every test date. */
  lemma {:induction false} SplitPartition(f: ProphetFrame, testSizeDays: int)
    ensures var (train, test) := SplitTrainTest(f, testSizeDays);
      multiset(train.rows) + multiset(test.rows) == multiset(f.rows) &&
      |train.rows| + |test.rows| == |f.rows| &&
      Ascending(train.rows, DsOf) && Ascending(test.rows, DsOf) &&
      forall i, j :: 0 <= i < |train.rows| && 0 <= j < |test.rows| ==> train.rows[i].ds < test.rows[j].ds
    ensures |f.rows| > 0 ==>
      var (train, test) := SplitTrainTest(f, testSizeDays);
      var cutoff := SplitDate(f.rows, testSizeDays);
      (forall o :: o in train.rows <==> o in f.rows && o.ds <= cutoff) &&
      (forall o :: o in test.rows <==> o in f.rows && o.ds > cutoff)
  {
    var sorted := SortBy(f.rows, DsOf);
    if |sorted| > 0 {
      SplitAt(sorted, SplitDate(sorted, testSizeDays));
      SplitMembers(f, testSizeDays);
    }
  }

  /** Which rows each part holds: the input's rows on either side of the
      split date computed from the input's own maximum date. */
  lemma SplitMembers(f: ProphetFrame, testSizeDays: int)
    requires |f.rows| > 0
    ensures var sorted := SortBy(f.rows, DsOf);
      var cutoff := SplitDate(f.rows, testSizeDays);
      SplitDate(sorted, testSizeDays) == cutoff &&
      (forall o :: o in Filter(sorted, OnOrBefore(cutoff)) <==> o in f.rows && o.ds <= cutoff) &&
      (forall o :: o in Filter(sorted, After(cutoff)) <==> o in f.rows && o.ds > cutoff)
  {
    var sorted := SortBy(f.rows, DsOf);
    DatesOfPermutation(sorted, f.rows);
    SameMembers(sorted, f.rows);
  }

  /** Cutting an ascending sequence at a date: the two parts together are a
      permutation of it, both stay ascending, and the first part's dates all
      come before the second's. */
  lemma SplitAt(sorted: seq<Observation>, cutoff: int)
    requires Ascending(sorted, DsOf)
    ensures var train := Filter(sorted, OnOrBefore(cutoff));
      var test := Filter(sorted, After(cutoff));
      multiset(train) + multiset(test) == multiset(sorted) &&
      |train| + |test| == |sorted| &&
      Ascending(train, DsOf) && Ascending(test, DsOf) &&
      forall i, j :: 0 <= i < |train| && 0 <= j < |test| ==> train[i].ds < test[j].ds
  {
    FilterPartition(sorted, OnOrBefore(cutoff), After(cutoff));
    FilterAscending(sorted, OnOrBefore(cutoff), DsOf);
    FilterAscending(sorted, After(cutoff), DsOf);
    var train := Filter(sorted, OnOrBefore(cutoff));
    var test := Filter(sorted, After(cutoff));
    forall i, j | 0 <= i < |train| && 0 <= j < |test| ensures train[i].ds < test[j].ds {
      assert train[i] in train && test[j] in test;
    }
  }

  /** With a test window of at least one day, the last date lands in test. */
  lemma {:induction false} SplitLastDateInTest(f: ProphetFrame, testSizeDays: int)
    requires |f.rows| > 0 && testSizeDays >= 1
    ensures var test := SplitTrainTest(f, testSizeDays).1;
      |test.rows| > 0 && MaxInt(Dates(f.rows)) in Dates(test.rows)
  {
    var sorted := SortBy(f.rows, DsOf);
    var cutoff := SplitDate(sorted, testSizeDays);
    DatesOfPermutation(sorted, f.rows);
    var m := MaxInt(Dates(sorted));
    var k :| 0 <= k < |sorted| && Dates(sorted)[k] == m;
    assert After(cutoff)(sorted[k]);
    var test := Filter(sorted, After(cutoff));
    assert sorted[k] in test;
    var j :| 0 <= j < |test| && test[j] == sorted[k];
    assert Dates(test)[j] == m;
  }

  /** `n` rows on consecutive days starting at `start`. */
  predicate ConsecutiveDays(rows: seq<Observation>, start: int)
  {
    forall k :: 0 <= k < |rows| ==> rows[k].ds == start + k * MsPerDay
  }

  /** Consecutive days are ascending, and the last one is the latest. */
  lemma {:induction false} ConsecutiveDaysMax(s: seq<Observation>, start: int)
    requires |s| > 0 && ConsecutiveDays(s, start)
    ensures Ascending(s, DsOf)
    ensures MaxInt(Dates(s)) == start + (|s| - 1) * MsPerDay
  {
    var n := |s|;
    forall i, j | 0 <= i < j < n ensures s[i].ds <= s[j].ds {
      assert start + i * MsPerDay <= start + j * MsPerDay;
    }
    assert Dates(s)[n - 1] == start + (n - 1) * MsPerDay;
    var m := MaxInt(Dates(s));
    var k :| 0 <= k < n && Dates(s)[k] == m;
    assert start + k * MsPerDay <= start + (n - 1) * MsPerDay;
  }

  /** Filtering the first `n - d` of `n` consecutive days against the split
      date keeps them all in train and none in test, and the other way round
      for the last `d`. */
  lemma {:induction false} ConsecutiveDaysSides(s: seq<Observation>, start: int, d: int, cutoff: int)
    requires ConsecutiveDays(s, start) && 0 <= d <= |s|
    requires cutoff == start + (|s| - 1 - d) * MsPerDay
    ensures Filter(s[..|s| - d], OnOrBefore(cutoff)) == s[..|s| - d]
    ensures Filter(s[..|s| - d], After(cutoff)) == []
    ensures Filter(s[|s| - d..], OnOrBefore(cutoff)) == []
    ensures Filter(s[|s| - d..], After(cutoff)) == s[|s| - d..]
  {
    var n := |s|;
    var a, b := s[..n - d], s[n - d..];
    forall k | 0 <= k < |a| ensures OnOrBefore(cutoff)(a[k]) && !After(cutoff)(a[k]) {
      assert a[k] == s[k];
      assert start + k * MsPerDay <= start + (n - 1 - d) * MsPerDay;
    }
    forall k | 0 <= k < |b| ensures After(cutoff)(b[k]) && !OnOrBefore(cutoff)(b[k]) {
      assert b[k] == s[n - d + k];
      assert start + (n - d + k) * MsPerDay > start + (n - 1 - d) * MsPerDay;
    }
    FilterAll(a, OnOrBefore(cutoff));
    FilterNone(a, After(cutoff));
    FilterNone(b, OnOrBefore(cutoff));
    FilterAll(b, After(cutoff));
  }

  /** n consecutive days with a test window of d days (0 <= d <= n) give
      n - d train rows (the first ones) and d test rows (the last ones). */
  lemma {:induction false} SplitConsecutiveDays(f: ProphetFrame, start: int, d: int)
    requires |f.rows| > 0 && ConsecutiveDays(f.rows, start) && 0 <= d <= |f.rows|
    ensures SplitTrainTest(f, d).0.rows == f.rows[..|f.rows| - d]
    ensures SplitTrainTest(f, d).1.rows == f.rows[|f.rows| - d..]
  {
    var s := f.rows;
    var n := |s|;
    ConsecutiveDaysMax(s, start);
    SortByAscendingIsIdentity(s, DsOf);
    var cutoff := SplitDate(s, d);
    assert SplitTrainTest(f, d) ==
      (ProphetFrame(f.hasVolume, Filter(s, OnOrBefore(cutoff))), ProphetFrame(f.hasVolume, Filter(s, After(cutoff))));
    ConsecutiveDaysSides(s, start, d, cutoff);
    FilterAtSplitPoint(s, n - d, cutoff);
  }

  /** When the rows before index `m` all pass the train mask and the rest
      all pass the test mask, the masks cut the sequence at `m`. */
  lemma {:induction false} FilterAtSplitPoint(s: seq<Observation>, m: int, cutoff: int)
    requires 0 <= m <= |s|
    requires Filter(s[..m], OnOrBefore(cutoff)) == s[..m] && Filter(s[..m], After(cutoff)) == []
    requires Filter(s[m..], OnOrBefore(cutoff)) == [] && Filter(s[m..], After(cutoff)) == s[m..]
    ensures Filter(s, OnOrBefore(cutoff)) == s[..m]
    ensures Filter(s, After(cutoff)) == s[m..]
  {
    var a, b := s[..m], s[m..];
    assert s == a + b;
    FilterAppend(a, b, OnOrBefore(cutoff));
    FilterAppend(a, b, After(cutoff));
    assert a + [] == a && [] + b == b;
  }

  /** The unit test's frame: ten consecutive days split with a three-day
      window give seven train rows and three test rows. */
  lemma TenDaysThreeTest(f: ProphetFrame, start: int)
    requires |f.rows| == 10 && ConsecutiveDays(f.rows, start)
    ensures |SplitTrainTest(f, 3).0.rows| == 7 && |SplitTrainTest(f, 3).1.rows| == 3
  {
    SplitConsecutiveDays(f, start, 3);
  }
}
