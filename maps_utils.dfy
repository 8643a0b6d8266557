/**
 * The map-data builder of maps_utils.py, `give_data(states_data, date, status)`.
 *
 * The states frame is indexed by (date, status) and has one count column per
 * state. `give_data` keeps the rows of one status, takes a running sum down
 * every column in stored row order, picks the row of one date, pairs each
 * state name with its value, renames the geometry feature at position 7, and
 * inner-joins the geometry names with the state values on the name.
 *
 * The geometry table is passed in as its sequence of feature names; features
 * are identified by their position in it. Dates are opaque keys compared for
 * equality only.
 */
module MapsUtils {
  import opened Wrappers
  import StatesData

  /** The position of the geometry feature whose name is overwritten. */
  const PATCH_INDEX: nat := 7

  /** The name written into that feature. */
  const PATCHED_NAME: string := "Dadra and Nagar Haveli Daman and Diu"

  /** The name the relabel table gives the same union territory (code "dd"). */
  const MAPPER_DD_NAME: string := "Dadra and Nagar Haveli and Daman and Diu"

  /** One row of the states frame: its two index levels and one count per state column. */
  datatype DailyRow<D> = DailyRow(date: D, status: string, counts: seq<int>)

  /** The states frame: state column names and the rows in stored order. */
  datatype StatesFrame<D> = StatesFrame(columns: seq<string>, rows: seq<DailyRow<D>>)

  /** Every row has exactly n counts. */
  predicate HasWidth<D(!new)>(rows: seq<DailyRow<D>>, n: nat) {
    forall k :: 0 <= k < |rows| ==> |rows[k].counts| == n
  }

  /** Every row has one count per column. */
  predicate Rectangular<D(!new)>(f: StatesFrame<D>) {
    HasWidth(f.rows, |f.columns|)
  }

  /** The exceptions `give_data` can raise. */
  datatype GiveDataError =
    | KeyError    // no kept row has the requested date
    | ValueError  // several kept rows have it: the selection is a frame, not a row (ValueError in
                  // pandas 1.2 and later; earlier versions raise a bare Exception)
    | IndexError  // the geometry table has no feature at position 7

  /** One row of the intermediate table: a state name and its value. */
  datatype StateValue = StateValue(name: string, value: int)

  /** One row of the merged table: the geometry feature (by position), its name and the state's value. */
  datatype MergedRow = MergedRow(feature: nat, name: string, value: int)

  // ---------------------------------------------------------------------
  // Status filter and running sums
  // ---------------------------------------------------------------------

  /** `.loc[(slice(None), status), :]`: the rows of one status, in stored order. */
  function WithStatus<D(!new)>(rows: seq<DailyRow<D>>, status: string): (r: seq<DailyRow<D>>)
    ensures |r| <= |rows|
    ensures forall n: nat :: HasWidth(rows, n) ==> HasWidth(r, n)
  {
    if rows == [] then []
    else
      var p := rows[..|rows| - 1];
      var last := rows[|rows| - 1];
      assert forall n: nat :: HasWidth(rows, n) ==> HasWidth(p, n) && |last.counts| == n;
      WithStatus(p, status) + if last.status == status then [last] else []
  }

  /** The kept rows are exactly the rows of the requested status. */
  lemma {:induction false} WithStatusKeeps<D(!new)>(rows: seq<DailyRow<D>>, status: string)
    ensures forall x :: x in WithStatus(rows, status) <==> x in rows && x.status == status
  {
    if rows != [] {
      var p := rows[..|rows| - 1];
      WithStatusKeeps(p, status);
      assert rows == p + [rows[|rows| - 1]];
    }
  }

  /** Filtering distributes over concatenation. */
  lemma {:induction false} WithStatusAppend<D(!new)>(a: seq<DailyRow<D>>, b: seq<DailyRow<D>>, status: string)
    ensures WithStatus(a + b, status) == WithStatus(a, status) + WithStatus(b, status)
  {
    if b == [] {
      assert a + b == a;
    } else {
      var n := |b| - 1;
      var p := b[..n];
      var y := b[n];
      WithStatusAppend(a, p, status);
      var ab := a + b;
      assert ab[..|ab| - 1] == a + p;
      assert ab[|ab| - 1] == y;
      var tail := if y.status == status then [y] else [];
      assert WithStatus(ab, status) == WithStatus(a + p, status) + tail;
      assert WithStatus(b, status) == WithStatus(p, status) + tail;
      assert WithStatus(a, status) + WithStatus(p, status) + tail == WithStatus(a, status) + (WithStatus(p, status) + tail);
    }
  }

  /** A row of another status, inserted anywhere, contributes nothing. */
  lemma WithStatusIgnoresOtherRows<D(!new)>(rows: seq<DailyRow<D>>, k: nat, x: DailyRow<D>, status: string)
    requires k <= |rows| && x.status != status
    ensures WithStatus(rows[..k] + [x] + rows[k..], status) == WithStatus(rows, status)
  {
    WithStatusAppend(rows[..k] + [x], rows[k..], status);
    WithStatusAppend(rows[..k], [x], status);
    WithStatusAppend(rows[..k], rows[k..], status);
    assert rows[..k] + rows[k..] == rows;
  }

  /** The elementwise sum of two count vectors. */
  function AddCounts(a: seq<int>, b: seq<int>): (r: seq<int>)
    requires |a| == |b|
    ensures |r| == |a|
  {
    seq(|a|, j requires 0 <= j < |a| => a[j] + b[j])
  }

  /** `.cumsum()`: row by row, the running totals so far, starting from acc, in stored order. */
  function RunningTotals<D(!new)>(acc: seq<int>, rows: seq<DailyRow<D>>): (r: seq<seq<int>>)
    requires HasWidth(rows, |acc|)
    ensures |r| == |rows|
    ensures forall k :: 0 <= k < |r| ==> |r[k]| == |acc|
    decreases |rows|
  {
    if rows == [] then []
    else
      var next := AddCounts(acc, rows[0].counts);
      [next] + RunningTotals(next, rows[1..])
  }

  /** The sum of column j over all the rows: the reference definition of a cumulative count. */
  function ColumnSum<D(!new)>(rows: seq<DailyRow<D>>, j: nat): int
    requires forall k :: 0 <= k < |rows| ==> j < |rows[k].counts|
  {
    if rows == [] then 0 else ColumnSum(rows[..|rows| - 1], j) + rows[|rows| - 1].counts[j]
  }

  /** The column sum taken from the front. */
  lemma {:induction false} ColumnSumFront<D(!new)>(rows: seq<DailyRow<D>>, j: nat)
    requires |rows| > 0 && forall k :: 0 <= k < |rows| ==> j < |rows[k].counts|
    ensures ColumnSum(rows, j) == rows[0].counts[j] + ColumnSum(rows[1..], j)
  {
    if |rows| > 1 {
      var n := |rows|;
      ColumnSumFront(rows[..n - 1], j);
      assert rows[..n - 1][1..] == rows[1..][..n - 2];
      assert rows[1..][n - 2] == rows[n - 1];
    }
  }

  /** Entry i of the running totals is acc plus the column sums of the first i + 1 rows. */
  lemma {:induction false} RunningTotalsAreColumnSums<D(!new)>(acc: seq<int>, rows: seq<DailyRow<D>>, i: nat, j: nat)
    requires HasWidth(rows, |acc|) && i < |rows| && j < |acc|
    decreases i
    ensures RunningTotals(acc, rows)[i][j] == acc[j] + ColumnSum(rows[..i + 1], j)
  {
    var next := AddCounts(acc, rows[0].counts);
    ColumnSumFront(rows[..i + 1], j);
    if i == 0 {
      assert rows[..1][1..] == [];
    } else {
      RunningTotalsAreColumnSums(next, rows[1..], i - 1, j);
      assert rows[..i + 1][1..] == rows[1..][..i];
    }
  }

  /** With no negative count in column j, a longer prefix never sums to less. */
  lemma {:induction false} ColumnSumGrows<D(!new)>(rows: seq<DailyRow<D>>, m: nat, n: nat, j: nat)
    requires m <= n <= |rows|
    requires forall k :: 0 <= k < |rows| ==> j < |rows[k].counts| && rows[k].counts[j] >= 0
    ensures ColumnSum(rows[..m], j) <= ColumnSum(rows[..n], j)
  {
    if m < n {
      ColumnSumGrows(rows, m, n - 1, j);
      assert rows[..n][..n - 1] == rows[..n - 1];
    }
  }

  /** A zero count vector. */
  function Zeros(n: nat): (r: seq<int>)
    ensures |r| == n && forall j :: 0 <= j < n ==> r[j] == 0
  {
    if n == 0 then [] else Zeros(n - 1) + [0]
  }

  /** With no negative count, a state's running total at a later row is never below an earlier one. */
  lemma CumulativeNeverDecreases<D(!new)>(acc: seq<int>, rows: seq<DailyRow<D>>, i: nat, k: nat, j: nat)
    requires HasWidth(rows, |acc|) && i <= k < |rows| && j < |acc|
    requires forall m :: 0 <= m < |rows| ==> rows[m].counts[j] >= 0
    ensures RunningTotals(acc, rows)[i][j] <= RunningTotals(acc, rows)[k][j]
  {
    RunningTotalsAreColumnSums(acc, rows, i, j);
    RunningTotalsAreColumnSums(acc, rows, k, j);
    ColumnSumGrows(rows, i + 1, k + 1, j);
  }

  /**
   * The running totals follow stored order, not date order: with the row of
   * date 2 stored before the row of date 1, date 2 gets 5 and date 1 gets 8.
   */
  lemma CumsumFollowsStoredOrder()
    ensures RunningTotals([0], [DailyRow(2, "Confirmed", [5]), DailyRow(1, "Confirmed", [3])]) == [[5], [8]]
  {
    var rows := [DailyRow(2, "Confirmed", [5]), DailyRow(1, "Confirmed", [3])];
    assert AddCounts([0], [5]) == [5];
    assert AddCounts([5], [3]) == [8];
    assert rows[1..][1..] == [];
  }

  // ---------------------------------------------------------------------
  // The date pick and the intermediate table
  // ---------------------------------------------------------------------

  /** No row has the date. */
  ghost predicate DateAbsent<D(!new)>(rows: seq<DailyRow<D>>, date: D) {
    forall k :: 0 <= k < |rows| ==> rows[k].date != date
  }

  /** Two different rows have the date. */
  ghost predicate DateRepeated<D(!new)>(rows: seq<DailyRow<D>>, date: D) {
    exists a, b :: 0 <= a < b < |rows| && rows[a].date == date && rows[b].date == date
  }

  /** The positions of the rows with the given date, in increasing order. */
  function DatePositions<D(==,!new)>(rows: seq<DailyRow<D>>, date: D): (r: seq<nat>)
    ensures forall k: int :: k in r <==> 0 <= k < |rows| && rows[k].date == date
    ensures forall a, b :: 0 <= a < b < |r| ==> r[a] < r[b]
  {
    if rows == [] then []
    else
      var n := |rows| - 1;
      var p := DatePositions(rows[..n], date);
      assert forall a :: 0 <= a < |p| ==> p[a] in p && p[a] < n;
      p + if rows[n].date == date then [n] else []
  }

  /** No position means no row has the date. */
  lemma NoPositionMeansAbsent<D(!new)>(rows: seq<DailyRow<D>>, date: D)
    ensures |DatePositions(rows, date)| == 0 <==> DateAbsent(rows, date)
  {
    var at := DatePositions(rows, date);
    if |at| == 0 {
      forall k | 0 <= k < |rows| ensures rows[k].date != date {
        assert k !in at;
      }
    } else {
      assert at[0] in at;
    }
  }

  /** Several positions mean two different rows have the date. */
  lemma SeveralPositionsMeansRepeated<D(!new)>(rows: seq<DailyRow<D>>, date: D)
    ensures |DatePositions(rows, date)| > 1 ==> DateRepeated(rows, date)
  {
    var at := DatePositions(rows, date);
    if |at| > 1 {
      assert at[0] in at && at[1] in at;
      assert 0 <= at[0] < at[1] < |rows| && rows[at[0]].date == date && rows[at[1]].date == date;
    }
  }

  /** Two different rows with the date mean several positions. */
  lemma RepeatedMeansSeveralPositions<D(!new)>(rows: seq<DailyRow<D>>, date: D)
    ensures DateRepeated(rows, date) ==> |DatePositions(rows, date)| > 1
  {
    if DateRepeated(rows, date) {
      var at := DatePositions(rows, date);
      var a, b :| 0 <= a < b < |rows| && rows[a].date == date && rows[b].date == date;
      assert a in at && b in at;
      TwoMembers(at, a, b);
    }
  }

  /** A sequence holding two different values has more than one element. */
  lemma TwoMembers(s: seq<nat>, x: nat, y: nat)
    requires x in s && y in s && x != y
    ensures |s| > 1
  {
  }

  /**
   * Lines 19-20: the cumulative counts on the row of `date` among the rows of
   * `status`, one entry per state column, in column order.
   */
  function StateValues<D(==,!new)>(f: StatesFrame<D>, date: D, status: string): (r: Result<seq<StateValue>, GiveDataError>)
    requires Rectangular(f)
    ensures r == Err(KeyError) <==> DateAbsent(WithStatus(f.rows, status), date)
    ensures r == Err(ValueError) <==> DateRepeated(WithStatus(f.rows, status), date)
    ensures r.Ok? <==> !DateAbsent(WithStatus(f.rows, status), date) && !DateRepeated(WithStatus(f.rows, status), date)
    ensures r.Ok? ==> |r.value| == |f.columns| && forall j :: 0 <= j < |f.columns| ==> r.value[j].name == f.columns[j]
  {
    var rows := WithStatus(f.rows, status);
    NoPositionMeansAbsent(rows, date);
    SeveralPositionsMeansRepeated(rows, date);
    RepeatedMeansSeveralPositions(rows, date);
    var at := DatePositions(rows, date);
    if |at| == 0 then Err(KeyError)
    else if |at| > 1 then Err(ValueError)
    else
      var row := RunningTotals(Zeros(|f.columns|), rows)[at[0]];
      Ok(seq(|f.columns|, j requires 0 <= j < |f.columns| => StateValue(f.columns[j], row[j])))
  }

  /**
   * Each state's value is the sum of its column over the kept rows from the
   * first one down to the one with the requested date, in stored order.
   */
  lemma StateValueIsCumulativeSum<D(!new)>(f: StatesFrame<D>, date: D, status: string, k: nat, j: nat)
    requires Rectangular(f) && StateValues(f, date, status).Ok?
    requires k < |WithStatus(f.rows, status)| && WithStatus(f.rows, status)[k].date == date
    requires j < |f.columns|
    ensures StateValues(f, date, status).value[j] ==
              StateValue(f.columns[j], ColumnSum(WithStatus(f.rows, status)[..k + 1], j))
  {
    var rows := WithStatus(f.rows, status);
    NoPositionMeansAbsent(rows, date);
    SeveralPositionsMeansRepeated(rows, date);
    RepeatedMeansSeveralPositions(rows, date);
    var at := DatePositions(rows, date);
    assert k in at;
    RunningTotalsAreColumnSums(Zeros(|f.columns|), rows, at[0], j);
  }

  // ---------------------------------------------------------------------
  // The geometry patch and the inner join
  // ---------------------------------------------------------------------

  /** `sf_india.st_nm.iloc[7] = patch`: only the name at position 7 changes; fewer than 8 features is an IndexError. */
  function PatchGeometry(names: seq<string>, patch: string): (r: Result<seq<string>, GiveDataError>)
    ensures r.Err? <==> |names| <= PATCH_INDEX
    ensures r.Err? ==> r.error == IndexError
    ensures r.Ok? ==> |r.value| == |names| && r.value[PATCH_INDEX] == patch
    ensures r.Ok? ==> forall i :: 0 <= i < |names| && i != PATCH_INDEX ==> r.value[i] == names[i]
  {
    if |names| <= PATCH_INDEX then Err(IndexError) else Ok(names[PATCH_INDEX := patch])
  }

  /** The same write, in place on the geometry table's name column. */
  method PatchGeometryNames(names: array<string>, patch: string) returns (error: Option<GiveDataError>)
    modifies names
    ensures error.Some? ==> names[..] == old(names[..]) && PatchGeometry(old(names[..]), patch) == Err(error.value)
    ensures error.None? ==> PatchGeometry(old(names[..]), patch) == Ok(names[..])
  {
    if names.Length <= PATCH_INDEX {
      return Some(IndexError);
    }
    names[PATCH_INDEX] := patch;
    return None;
  }

  /** The merged rows of feature f: one per state-value row with its name, in table order. */
  function Matches(f: nat, name: string, table: seq<StateValue>): (r: seq<MergedRow>)
    ensures forall m :: m in r <==> m.feature == f && m.name == name && StateValue(name, m.value) in table
  {
    if table == [] then []
    else
      var p := table[..|table| - 1];
      var last := table[|table| - 1];
      assert forall e :: e in table <==> e in p || e == last by {
        assert table == p + [last];
      }
      Matches(f, name, p) + if last.name == name then [MergedRow(f, name, last.value)] else []
  }

  /** Feature f gets one merged row for each occurrence of its name's state value in the table. */
  lemma {:induction false} MatchesCount(f: nat, name: string, table: seq<StateValue>)
    ensures forall m :: multiset(Matches(f, name, table))[m] ==
              if m.feature == f && m.name == name then multiset(table)[StateValue(name, m.value)] else 0
  {
    if table != [] {
      var p := table[..|table| - 1];
      var last := table[|table| - 1];
      MatchesCount(f, name, p);
      assert table == p + [last];
      assert multiset(table) == multiset(p) + multiset{last};
    }
  }

  /**
   * `pd.merge(geometry, table, on='st_nm', how='inner')`: every pair of a
   * feature and a state-value row with the same name, in feature order;
   * entries without a partner on the other side are dropped.
   */
  function InnerJoin(names: seq<string>, table: seq<StateValue>): (r: seq<MergedRow>)
    ensures forall m :: m in r <==>
              m.feature < |names| && m.name == names[m.feature] && StateValue(m.name, m.value) in table
    ensures forall a, b :: 0 <= a < b < |r| ==> r[a].feature <= r[b].feature
  {
    if names == [] then []
    else
      var n := |names| - 1;
      var left := InnerJoin(names[..n], table);
      var right := Matches(n, names[n], table);
      assert forall a :: 0 <= a < |left| ==> left[a] in left && left[a].feature < n;
      assert forall b :: 0 <= b < |right| ==> right[b] in right && right[b].feature == n;
      left + right
  }

  /**
   * The merge holds one row per matching pair: a row occurs as often as its
   * state value occurs in the table when its feature carries its name, and never otherwise.
   */
  lemma {:induction false} InnerJoinCount(names: seq<string>, table: seq<StateValue>)
    ensures forall m :: multiset(InnerJoin(names, table))[m] ==
              if m.feature < |names| && m.name == names[m.feature]
              then multiset(table)[StateValue(m.name, m.value)] else 0
  {
    if names != [] {
      var n := |names| - 1;
      var left := InnerJoin(names[..n], table);
      var right := Matches(n, names[n], table);
      InnerJoinCount(names[..n], table);
      MatchesCount(n, names[n], table);
      assert InnerJoin(names, table) == left + right;
      assert multiset(left + right) == multiset(left) + multiset(right);
      forall m: MergedRow ensures multiset(left + right)[m] ==
                         if m.feature < |names| && m.name == names[m.feature]
                         then multiset(table)[StateValue(m.name, m.value)] else 0
      {
        if m.feature < n {
          assert names[..n][m.feature] == names[m.feature];
        }
      }
    }
  }

  /** The names of the state-value rows. */
  function TableNames(table: seq<StateValue>): set<string> {
    set e | e in table :: e.name
  }

  /** The names in the merged table. */
  function MergedNames(rows: seq<MergedRow>): set<string> {
    set m | m in rows :: m.name
  }

  /** A name appears in the merge exactly when it is both a feature name and a state-value name. */
  lemma InnerJoinNames(names: seq<string>, table: seq<StateValue>)
    ensures MergedNames(InnerJoin(names, table)) == (set x | x in names) * TableNames(table)
  {
    var r := InnerJoin(names, table);
    forall x | x in names && x in TableNames(table) ensures x in MergedNames(r) {
      var f :| 0 <= f < |names| && names[f] == x;
      var e :| e in table && e.name == x;
      assert MergedRow(f, x, e.value) in r;
    }
  }

  // ---------------------------------------------------------------------
  // give_data
  // ---------------------------------------------------------------------

  /** `give_data` with the name written at position 7 as a parameter. */
  function GiveDataWith<D(==,!new)>(f: StatesFrame<D>, date: D, status: string, geometry: seq<string>, patch: string)
    : (r: Result<seq<MergedRow>, GiveDataError>)
    requires Rectangular(f)
    ensures StateValues(f, date, status).Err? ==> r == Err(StateValues(f, date, status).error)
    ensures StateValues(f, date, status).Ok? ==> (r.Err? <==> |geometry| <= PATCH_INDEX)
    ensures r.Err? && StateValues(f, date, status).Ok? ==> r.error == IndexError
    ensures r.Ok? ==> forall m :: m in r.value <==>
              && m.feature < |geometry|
              && m.name == (if m.feature == PATCH_INDEX then patch else geometry[m.feature])
              && StateValue(m.name, m.value) in StateValues(f, date, status).value
    ensures r.Ok? ==> && StateValues(f, date, status).Ok? && PatchGeometry(geometry, patch).Ok?
                      && r.value == InnerJoin(PatchGeometry(geometry, patch).value, StateValues(f, date, status).value)
  {
    match StateValues(f, date, status)
    case Err(e) => Err(e)
    case Ok(table) =>
      match PatchGeometry(geometry, patch)
      case Err(e) => Err(e)
      case Ok(names) => Ok(InnerJoin(names, table))
  }

  /** `give_data(states_data, date, status)` as written: feature 7 is renamed to PATCHED_NAME. */
  function GiveData<D(==,!new)>(f: StatesFrame<D>, date: D, status: string, geometry: seq<string>)
    : (r: Result<seq<MergedRow>, GiveDataError>)
    requires Rectangular(f)
    ensures r.Ok? <==> StateValues(f, date, status).Ok? && |geometry| > PATCH_INDEX
    ensures r.Ok? ==> forall m :: m in r.value && m.feature == PATCH_INDEX ==> m.name == PATCHED_NAME
    ensures r.Ok? ==> forall m :: m in r.value && m.feature != PATCH_INDEX ==>
                        m.feature < |geometry| && m.name == geometry[m.feature]
  {
    GiveDataWith(f, date, status, geometry, PATCHED_NAME)
  }

  /** `give_data` with feature 7 renamed to the name the relabel table uses for "dd". */
  function GiveDataIntended<D(==,!new)>(f: StatesFrame<D>, date: D, status: string, geometry: seq<string>)
    : (r: Result<seq<MergedRow>, GiveDataError>)
    requires Rectangular(f)
    ensures r.Ok? <==> StateValues(f, date, status).Ok? && |geometry| > PATCH_INDEX
    ensures r.Ok? ==> forall m :: m in r.value && m.feature == PATCH_INDEX ==> m.name == MAPPER_DD_NAME
    ensures r.Ok? ==> forall m :: m in r.value && m.feature != PATCH_INDEX ==>
                        m.feature < |geometry| && m.name == geometry[m.feature]
  {
    GiveDataWith(f, date, status, geometry, MAPPER_DD_NAME)
  }

  /** The features that occur in a merged table. */
  function Features(rows: seq<MergedRow>): set<nat> {
    set m | m in rows :: m.feature
  }

  /** MAPPER_DD_NAME is the relabel table's name for "dd". */
  lemma MapperNameOfDd()
    ensures "dd" in StatesData.MAPPER && StatesData.MAPPER["dd"] == MAPPER_DD_NAME
  {
    StatesData.MapperDomain();
    assert StatesData.MapperEntry("dd") == Some(MAPPER_DD_NAME);
  }

  /** No name in the relabel table is the patched name. */
  lemma PatchedNameNotInMapper()
    ensures PATCHED_NAME !in StatesData.MAPPER.Values
  {
    assert StatesData.NameToCode(PATCHED_NAME).None?;
    if PATCHED_NAME in StatesData.MAPPER.Values {
      var c :| c in StatesData.MAPPER && StatesData.MAPPER[c] == PATCHED_NAME;
      StatesData.MapperInverse(c);
    }
  }

  /** No relabelled column carries the patched name, whatever the codes, known or not. */
  lemma RelabelNeverGivesPatchedName(codes: seq<string>)
    ensures forall i :: 0 <= i < |codes| ==> StatesData.Relabel(codes)[i] != Some(PATCHED_NAME)
  {
    PatchedNameNotInMapper();
  }

  /**
   * As written: when no state column is named PATCHED_NAME (as after the
   * relabel, see RelabelNeverGivesPatchedName), feature 7 is never in the
   * merge, whatever the date, status and counts.
   */
  lemma PatchedFeatureNeverJoined<D(!new)>(f: StatesFrame<D>, date: D, status: string, geometry: seq<string>)
    requires Rectangular(f)
    requires PATCHED_NAME !in f.columns
    requires GiveData(f, date, status, geometry).Ok?
    ensures PATCH_INDEX !in Features(GiveData(f, date, status, geometry).value)
  {
  }

  /**
   * Corrected: with the relabel table's own name written at position 7,
   * feature 7 joins whenever that state has a column.
   */
  lemma IntendedKeepsPatchedFeature<D(!new)>(f: StatesFrame<D>, date: D, status: string, geometry: seq<string>)
    requires Rectangular(f) && StateValues(f, date, status).Ok? && |geometry| > PATCH_INDEX
    requires MAPPER_DD_NAME in f.columns
    ensures GiveDataIntended(f, date, status, geometry).Ok?
    ensures PATCH_INDEX in Features(GiveDataIntended(f, date, status, geometry).value)
  {
    var table := StateValues(f, date, status).value;
    var j :| 0 <= j < |f.columns| && f.columns[j] == MAPPER_DD_NAME;
    var m := MergedRow(PATCH_INDEX, MAPPER_DD_NAME, table[j].value);
    assert table[j] in table;
    assert m in GiveDataIntended(f, date, status, geometry).value;
  }
}
