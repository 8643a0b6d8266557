/**
 * The dashboard's preprocessing (app.py).
 *
 * `preprocess_india_data` adds the national `Total Active` and `Daily Active`
 * columns and `preprocess_states_data` adds the per-state `Active` column,
 * each as Confirmed - Recovered - Deceased, by assigning into the frame it
 * is given. The state picker lists each `State` value once, in order of
 * first appearance, without the national row "India".
 */
module App {
  import opened Wrappers
  import opened Tables

  const TOTAL_CONFIRMED: string := "Total Confirmed"
  const TOTAL_RECOVERED: string := "Total Recovered"
  const TOTAL_DECEASED: string := "Total Deceased"
  const TOTAL_ACTIVE: string := "Total Active"
  const DAILY_CONFIRMED: string := "Daily Confirmed"
  const DAILY_RECOVERED: string := "Daily Recovered"
  const DAILY_DECEASED: string := "Daily Deceased"
  const DAILY_ACTIVE: string := "Daily Active"
  const CONFIRMED: string := "Confirmed"
  const RECOVERED: string := "Recovered"
  const DECEASED: string := "Deceased"
  const ACTIVE: string := "Active"
  const STATE: string := "State"
  const NATIONAL_ROW: string := "India"

  /** Confirmed - Recovered - Deceased for one row: an integer when all three are, NaN otherwise. */
  predicate IsActiveCell(r: Cell, confirmed: Cell, recovered: Cell, deceased: Cell) {
    && (r.Num? <==> confirmed.Num? && recovered.Num? && deceased.Num?)
    && (r.NaN? <==> !(confirmed.Num? && recovered.Num? && deceased.Num?))
    && (r.Num? ==> r.n == confirmed.n - recovered.n - deceased.n)
  }

  /** One row of (Confirmed - Recovered) - Deceased can be computed without raising. */
  predicate ActiveRowOk(confirmed: Cell, recovered: Cell, deceased: Cell) {
    CellsSubtractable(confirmed, recovered) && CellsSubtractable(CellSub(confirmed, recovered), deceased)
  }

  /** The three input columns of an Active column exist and every row of the difference can be computed. */
  predicate ActiveInputsOk(t: Table, c: string, r: string, d: string)
    requires WellFormed(t)
  {
    && c in t.labels && r in t.labels && d in t.labels
    && forall i :: 0 <= i < t.height ==> ActiveRowOk(t.cols[c][i], t.cols[r][i], t.cols[d][i])
  }

  /**
   * `t[c] - t[r] - t[d]`, evaluated as Python does, left to right as (t[c] - t[r]) - t[d]:
   * t[c] and t[r] are looked up, subtracted (which may raise TypeError), and only then
   * is t[d] looked up and subtracted.
   */
  function ActiveColumn(t: Table, c: string, r: string, d: string): (res: Result<seq<Cell>, FrameError>)
    requires WellFormed(t)
    ensures c !in t.labels ==> res == Err(KeyError(c))
    ensures c in t.labels && r !in t.labels ==> res == Err(KeyError(r))
    ensures c in t.labels && r in t.labels && !Subtractable(t.cols[c], t.cols[r]) ==> res == Err(TypeError)
    ensures c in t.labels && r in t.labels && Subtractable(t.cols[c], t.cols[r]) && d !in t.labels ==>
              res == Err(KeyError(d))
    ensures c in t.labels && r in t.labels && d in t.labels && !ActiveInputsOk(t, c, r, d) ==> res == Err(TypeError)
    ensures res.Ok? <==> ActiveInputsOk(t, c, r, d)
    ensures res.Ok? ==> |res.value| == t.height
    ensures res.Ok? ==> forall i :: 0 <= i < t.height ==>
                          IsActiveCell(res.value[i], t.cols[c][i], t.cols[r][i], t.cols[d][i])
  {
    match Column(t, c)
    case Err(e) => Err(e)
    case Ok(confirmed) =>
      match Column(t, r)
      case Err(e) => Err(e)
      case Ok(recovered) =>
        match SubColumns(confirmed, recovered)
        case Err(e) => Err(e)
        case Ok(open) =>
          match Column(t, d)
          case Err(e) => Err(e)
          case Ok(deceased) => SubColumns(open, deceased)
  }

  /** A preprocessing step's result: the frame as the step leaves it, and the exception it raised, if any. */
  datatype Outcome = Outcome(table: Table, error: Option<FrameError>)

  /**
   * `df[target] = df[c] - df[r] - df[d]`: on success the new column is assigned
   * (overwritten where it stands, or appended last); an exception leaves the frame as it was.
   */
  function AddActive(t: Table, target: string, c: string, r: string, d: string): (o: Outcome)
    requires WellFormed(t)
    ensures WellFormed(o.table) && o.table.height == t.height
    ensures o.error.None? <==> ActiveInputsOk(t, c, r, d)
    ensures o.error.Some? ==> o.table == t && o.error.value == ActiveColumn(t, c, r, d).error
    ensures o.error.None? ==> o.table == Put(t, target, ActiveColumn(t, c, r, d).value)
    ensures o.error.None? ==> target in o.table.cols && forall i :: 0 <= i < t.height ==>
              IsActiveCell(o.table.cols[target][i], t.cols[c][i], t.cols[r][i], t.cols[d][i])
  {
    match ActiveColumn(t, c, r, d)
    case Err(e) => Outcome(t, Some(e))
    case Ok(active) => Outcome(Put(t, target, active), None)
  }

  /** Column l is the same in both frames, or missing from both. */
  predicate SameColumn(t: Table, u: Table, l: string) {
    && (l in t.labels <==> l in u.labels)
    && (l in t.cols <==> l in u.cols)
    && (l in t.cols ==> t.cols[l] == u.cols[l])
  }

  /** The Active computation reads only its three input columns. */
  lemma ActiveColumnReadsInputs(t: Table, u: Table, c: string, r: string, d: string)
    requires WellFormed(t) && WellFormed(u)
    requires SameColumn(t, u, c) && SameColumn(t, u, r) && SameColumn(t, u, d)
    ensures ActiveColumn(t, c, r, d) == ActiveColumn(u, c, r, d)
  {
  }

  /** Assigning a column the values it already holds changes nothing. */
  lemma PutSame(t: Table, name: string, values: seq<Cell>)
    requires WellFormed(t) && name in t.cols && t.cols[name] == values
    ensures Put(t, name, values) == t
  {
    assert t.cols[name := values] == t.cols;
  }

  /** Assigning an Active column a second time, from unchanged inputs, changes nothing. */
  lemma AddActiveRepeat(t: Table, target: string, c: string, r: string, d: string)
    requires WellFormed(t) && target != c && target != r && target != d
    ensures AddActive(AddActive(t, target, c, r, d).table, target, c, r, d) == AddActive(t, target, c, r, d)
  {
    var o := AddActive(t, target, c, r, d);
    if o.error.None? {
      assert SameColumn(t, o.table, c) && SameColumn(t, o.table, r) && SameColumn(t, o.table, d);
      ActiveColumnReadsInputs(t, o.table, c, r, d);
      PutSame(o.table, target, ActiveColumn(t, c, r, d).value);
    }
  }

  // ---------------------------------------------------------------------
  // preprocess_india_data
  // ---------------------------------------------------------------------

  /**
   * The frame after `preprocess_india_data`. `Total Active` is assigned before
   * `Daily Active` is computed, so a failure on the Daily columns leaves
   * `Total Active` in place.
   */
  function PreprocessIndia(t: Table): (o: Outcome)
    requires WellFormed(t)
    ensures WellFormed(o.table) && o.table.height == t.height
    // The Total step raises: the frame is untouched and its exception propagates.
    ensures !ActiveInputsOk(t, TOTAL_CONFIRMED, TOTAL_RECOVERED, TOTAL_DECEASED) ==>
              o == Outcome(t, Some(ActiveColumn(t, TOTAL_CONFIRMED, TOTAL_RECOVERED, TOTAL_DECEASED).error))
    // Once the Total step succeeds, Total Active stays assigned whatever the Daily step does.
    ensures ActiveInputsOk(t, TOTAL_CONFIRMED, TOTAL_RECOVERED, TOTAL_DECEASED) ==>
              TOTAL_ACTIVE in o.table.cols && forall i :: 0 <= i < t.height ==>
                IsActiveCell(o.table.cols[TOTAL_ACTIVE][i],
                             t.cols[TOTAL_CONFIRMED][i], t.cols[TOTAL_RECOVERED][i], t.cols[TOTAL_DECEASED][i])
    // The Daily step raises: only Total Active has been assigned, and the Daily exception propagates.
    ensures ActiveInputsOk(t, TOTAL_CONFIRMED, TOTAL_RECOVERED, TOTAL_DECEASED)
            && !ActiveInputsOk(t, DAILY_CONFIRMED, DAILY_RECOVERED, DAILY_DECEASED) ==>
              && o.table == Put(t, TOTAL_ACTIVE, ActiveColumn(t, TOTAL_CONFIRMED, TOTAL_RECOVERED, TOTAL_DECEASED).value)
              && o.error == Some(ActiveColumn(t, DAILY_CONFIRMED, DAILY_RECOVERED, DAILY_DECEASED).error)
  {
    var total := AddActive(t, TOTAL_ACTIVE, TOTAL_CONFIRMED, TOTAL_RECOVERED, TOTAL_DECEASED);
    if total.error.Some? then total
    else
      TotalStepKeepsDaily(t);
      ActiveColumnReadsInputs(t, total.table, DAILY_CONFIRMED, DAILY_RECOVERED, DAILY_DECEASED);
      AddActive(total.table, DAILY_ACTIVE, DAILY_CONFIRMED, DAILY_RECOVERED, DAILY_DECEASED)
  }

  /** `preprocess_india_data(india_ts)`: assigns the two Active columns into the frame it is given. */
  method PreprocessIndiaData(df: DataFrame) returns (error: Option<FrameError>)
    requires df.Valid()
    modifies df
    ensures df.Valid()
    ensures Outcome(df.Value(), error) == PreprocessIndia(old(df.Value()))
  {
    var total := ActiveColumn(df.Value(), TOTAL_CONFIRMED, TOTAL_RECOVERED, TOTAL_DECEASED);
    if total.Err? {
      return Some(total.error);
    }
    df.Assign(TOTAL_ACTIVE, total.value);
    var daily := ActiveColumn(df.Value(), DAILY_CONFIRMED, DAILY_RECOVERED, DAILY_DECEASED);
    if daily.Err? {
      return Some(daily.error);
    }
    df.Assign(DAILY_ACTIVE, daily.value);
    return None;
  }

  /** Adding Total Active leaves the three Daily columns as they were. */
  lemma TotalStepKeepsDaily(t: Table)
    requires WellFormed(t)
    ensures var t1 := AddActive(t, TOTAL_ACTIVE, TOTAL_CONFIRMED, TOTAL_RECOVERED, TOTAL_DECEASED).table;
            SameColumn(t, t1, DAILY_CONFIRMED) && SameColumn(t, t1, DAILY_RECOVERED) && SameColumn(t, t1, DAILY_DECEASED)
  {
  }

  /** Assigning an Active column adds at most that column, after the existing ones, and changes no other column. */
  lemma AddActiveExtends(t: Table, target: string, c: string, r: string, d: string)
    requires WellFormed(t)
    ensures var u := AddActive(t, target, c, r, d).table;
            && (forall l :: l in t.cols && l != target ==> l in u.cols && u.cols[l] == t.cols[l])
            && |t.labels| <= |u.labels| && u.labels[..|t.labels|] == t.labels
            && (forall l :: l in u.labels ==> l in t.labels || l == target)
  {
  }

  /** A prefix of a prefix is a prefix. */
  lemma PrefixOfPrefix(a: seq<string>, b: seq<string>, c: seq<string>)
    requires |a| <= |b| && b[..|a|] == a && |b| <= |c| && c[..|b|] == b
    ensures |a| <= |c| && c[..|a|] == a
  {
    assert c[..|a|] == c[..|b|][..|a|];
  }

  /** The step changes no column other than the two Active ones. */
  lemma IndiaKeepsOtherColumns(t: Table)
    requires WellFormed(t)
    ensures forall l :: l in t.cols && l != TOTAL_ACTIVE && l != DAILY_ACTIVE ==>
              l in PreprocessIndia(t).table.cols && PreprocessIndia(t).table.cols[l] == t.cols[l]
  {
    var o1 := AddActive(t, TOTAL_ACTIVE, TOTAL_CONFIRMED, TOTAL_RECOVERED, TOTAL_DECEASED);
    AddActiveExtends(t, TOTAL_ACTIVE, TOTAL_CONFIRMED, TOTAL_RECOVERED, TOTAL_DECEASED);
    if o1.error.None? {
      AddActiveExtends(o1.table, DAILY_ACTIVE, DAILY_CONFIRMED, DAILY_RECOVERED, DAILY_DECEASED);
    }
  }

  /** The step adds at most the two Active columns, after the existing ones. */
  lemma IndiaAppendsLabels(t: Table)
    requires WellFormed(t)
    ensures |t.labels| <= |PreprocessIndia(t).table.labels|
    ensures PreprocessIndia(t).table.labels[..|t.labels|] == t.labels
    ensures forall l :: l in PreprocessIndia(t).table.labels ==> l in t.labels || l == TOTAL_ACTIVE || l == DAILY_ACTIVE
  {
    var o1 := AddActive(t, TOTAL_ACTIVE, TOTAL_CONFIRMED, TOTAL_RECOVERED, TOTAL_DECEASED);
    AddActiveExtends(t, TOTAL_ACTIVE, TOTAL_CONFIRMED, TOTAL_RECOVERED, TOTAL_DECEASED);
    if o1.error.None? {
      var t1 := o1.table;
      var t2 := AddActive(t1, DAILY_ACTIVE, DAILY_CONFIRMED, DAILY_RECOVERED, DAILY_DECEASED).table;
      AddActiveExtends(t1, DAILY_ACTIVE, DAILY_CONFIRMED, DAILY_RECOVERED, DAILY_DECEASED);
      PrefixOfPrefix(t.labels, t1.labels, t2.labels);
    }
  }

  /** On a frame with neither Active column, a successful step appends Total Active, then Daily Active. */
  lemma IndiaAppendsInOrder(t: Table)
    requires WellFormed(t)
    requires TOTAL_ACTIVE !in t.labels && DAILY_ACTIVE !in t.labels
    ensures PreprocessIndia(t).error.None? ==> PreprocessIndia(t).table.labels == t.labels + [TOTAL_ACTIVE, DAILY_ACTIVE]
  {
    var o1 := AddActive(t, TOTAL_ACTIVE, TOTAL_CONFIRMED, TOTAL_RECOVERED, TOTAL_DECEASED);
    if o1.error.None? {
      var t1 := o1.table;
      var o2 := AddActive(t1, DAILY_ACTIVE, DAILY_CONFIRMED, DAILY_RECOVERED, DAILY_DECEASED);
      assert PreprocessIndia(t) == o2;
      assert t1.labels == t.labels + [TOTAL_ACTIVE];
      assert DAILY_ACTIVE !in t1.labels;
      if o2.error.None? {
        assert o2.table.labels == t1.labels + [DAILY_ACTIVE];
      }
    }
  }

  /** The step succeeds exactly when the six count columns exist and every row of both differences can be computed. */
  lemma IndiaSucceedsIff(t: Table)
    requires WellFormed(t)
    ensures PreprocessIndia(t).error.None? <==>
              && ActiveInputsOk(t, TOTAL_CONFIRMED, TOTAL_RECOVERED, TOTAL_DECEASED)
              && ActiveInputsOk(t, DAILY_CONFIRMED, DAILY_RECOVERED, DAILY_DECEASED)
  {
    TotalStepKeepsDaily(t);
  }

  /**
   * Every row of a successful step: Total Active from the three Total columns,
   * Daily Active from the three Daily columns; neither is clamped at zero.
   */
  lemma IndiaActiveRows(t: Table, i: nat)
    requires WellFormed(t) && i < t.height
    requires PreprocessIndia(t).error.None?
    ensures TOTAL_ACTIVE in PreprocessIndia(t).table.cols && DAILY_ACTIVE in PreprocessIndia(t).table.cols
    ensures IsActiveCell(PreprocessIndia(t).table.cols[TOTAL_ACTIVE][i],
                         t.cols[TOTAL_CONFIRMED][i], t.cols[TOTAL_RECOVERED][i], t.cols[TOTAL_DECEASED][i])
    ensures IsActiveCell(PreprocessIndia(t).table.cols[DAILY_ACTIVE][i],
                         t.cols[DAILY_CONFIRMED][i], t.cols[DAILY_RECOVERED][i], t.cols[DAILY_DECEASED][i])
  {
    TotalStepKeepsDaily(t);
  }

  /** Active is not clamped: when Recovered + Deceased exceeds Confirmed on a row, Total Active is negative there. */
  lemma IndiaActiveCanBeNegative(t: Table, i: nat)
    requires WellFormed(t) && i < t.height && PreprocessIndia(t).error.None?
    requires TOTAL_CONFIRMED in t.cols && TOTAL_RECOVERED in t.cols && TOTAL_DECEASED in t.cols
    requires t.cols[TOTAL_CONFIRMED][i].Num? && t.cols[TOTAL_RECOVERED][i].Num? && t.cols[TOTAL_DECEASED][i].Num?
    requires t.cols[TOTAL_RECOVERED][i].n + t.cols[TOTAL_DECEASED][i].n > t.cols[TOTAL_CONFIRMED][i].n
    ensures TOTAL_ACTIVE in PreprocessIndia(t).table.cols
    ensures PreprocessIndia(t).table.cols[TOTAL_ACTIVE][i].Num? && PreprocessIndia(t).table.cols[TOTAL_ACTIVE][i].n < 0
  {
    IndiaActiveRows(t, i);
  }

  /** On a frame both Active steps have filled, recomputing Total Active gives the column it already holds. */
  lemma TotalStepOnFinished(t: Table)
    requires WellFormed(t)
    requires AddActive(t, TOTAL_ACTIVE, TOTAL_CONFIRMED, TOTAL_RECOVERED, TOTAL_DECEASED).error.None?
    ensures var t1 := AddActive(t, TOTAL_ACTIVE, TOTAL_CONFIRMED, TOTAL_RECOVERED, TOTAL_DECEASED).table;
            var t2 := AddActive(t1, DAILY_ACTIVE, DAILY_CONFIRMED, DAILY_RECOVERED, DAILY_DECEASED).table;
            AddActive(t2, TOTAL_ACTIVE, TOTAL_CONFIRMED, TOTAL_RECOVERED, TOTAL_DECEASED) == Outcome(t2, None)
  {
    var t1 := AddActive(t, TOTAL_ACTIVE, TOTAL_CONFIRMED, TOTAL_RECOVERED, TOTAL_DECEASED).table;
    var t2 := AddActive(t1, DAILY_ACTIVE, DAILY_CONFIRMED, DAILY_RECOVERED, DAILY_DECEASED).table;
    var total := ActiveColumn(t, TOTAL_CONFIRMED, TOTAL_RECOVERED, TOTAL_DECEASED).value;
    assert SameColumn(t, t2, TOTAL_CONFIRMED);
    assert SameColumn(t, t2, TOTAL_RECOVERED);
    assert SameColumn(t, t2, TOTAL_DECEASED);
    ActiveColumnReadsInputs(t, t2, TOTAL_CONFIRMED, TOTAL_RECOVERED, TOTAL_DECEASED);
    assert t2.cols[TOTAL_ACTIVE] == total;
    PutSame(t2, TOTAL_ACTIVE, total);
  }

  /** Running the step on its own result changes nothing: the Active columns are recomputed to the same values. */
  lemma IndiaIdempotent(t: Table)
    requires WellFormed(t)
    ensures PreprocessIndia(PreprocessIndia(t).table) == PreprocessIndia(t)
  {
    var o1 := AddActive(t, TOTAL_ACTIVE, TOTAL_CONFIRMED, TOTAL_RECOVERED, TOTAL_DECEASED);
    AddActiveRepeat(t, TOTAL_ACTIVE, TOTAL_CONFIRMED, TOTAL_RECOVERED, TOTAL_DECEASED);
    if o1.error.None? {
      var o2 := AddActive(o1.table, DAILY_ACTIVE, DAILY_CONFIRMED, DAILY_RECOVERED, DAILY_DECEASED);
      assert PreprocessIndia(t) == o2;
      AddActiveRepeat(o1.table, DAILY_ACTIVE, DAILY_CONFIRMED, DAILY_RECOVERED, DAILY_DECEASED);
      if o2.error.None? {
        TotalStepOnFinished(t);
      }
    }
  }

  // ---------------------------------------------------------------------
  // preprocess_states_data
  // ---------------------------------------------------------------------

  /** The frame after `preprocess_states_data`; the `replace` result is discarded, so NaN cells stay NaN. */
  function PreprocessStates(t: Table): (o: Outcome)
    requires WellFormed(t)
    ensures WellFormed(o.table) && o.table.height == t.height
    ensures forall l :: l in t.cols && l != ACTIVE ==> l in o.table.cols && o.table.cols[l] == t.cols[l]
    ensures |t.labels| <= |o.table.labels| && o.table.labels[..|t.labels|] == t.labels
    ensures forall l :: l in o.table.labels ==> l in t.labels || l == ACTIVE
    ensures o.error.None? <==> ActiveInputsOk(t, CONFIRMED, RECOVERED, DECEASED)
    ensures o.error.None? ==> ACTIVE in o.table.cols && forall i :: 0 <= i < t.height ==>
              IsActiveCell(o.table.cols[ACTIVE][i], t.cols[CONFIRMED][i], t.cols[RECOVERED][i], t.cols[DECEASED][i])
    ensures o.error.Some? ==> o.table == t
  {
    AddActive(t, ACTIVE, CONFIRMED, RECOVERED, DECEASED)
  }

  /** `preprocess_states_data(states_ts)`: the NaN replacement is computed and dropped, then Active is assigned. */
  method PreprocessStatesData(df: DataFrame) returns (error: Option<FrameError>)
    requires df.Valid()
    modifies df
    ensures df.Valid()
    ensures Outcome(df.Value(), error) == PreprocessStates(old(df.Value()))
  {
    var discarded := ReplaceNaN(df.Value(), Num(0));
    var active := ActiveColumn(df.Value(), CONFIRMED, RECOVERED, DECEASED);
    if active.Err? {
      return Some(active.error);
    }
    df.Assign(ACTIVE, active.value);
    return None;
  }

  /**
   * The dropped `replace` would have turned a NaN cell into 0, but the step
   * leaves it NaN, and an Active cell computed from it is NaN too.
   */
  lemma StatesKeepsNaN(t: Table, l: string, i: nat)
    requires WellFormed(t) && l in t.cols && l != ACTIVE && i < t.height && t.cols[l][i].NaN?
    ensures ReplaceNaN(t, Num(0)).cols[l][i] == Num(0)
    ensures PreprocessStates(t).table.cols[l][i].NaN?
    ensures PreprocessStates(t).error.None? && (l == CONFIRMED || l == RECOVERED || l == DECEASED) ==>
              PreprocessStates(t).table.cols[ACTIVE][i].NaN?
  {
  }

  /** A one-row frame holding just the three state count columns. */
  function OneRowCounts(confirmed: Cell, recovered: Cell, deceased: Cell): Table {
    Table([CONFIRMED, RECOVERED, DECEASED],
          map[CONFIRMED := [confirmed], RECOVERED := [recovered], DECEASED := [deceased]], 1)
  }

  /** Text opposite a missing value does not raise: pandas leaves that row NaN and the step succeeds. */
  lemma StatesTextBesideMissing()
    ensures var t := OneRowCounts(Str("x"), NaN, Num(0));
            PreprocessStates(t) == Outcome(Put(t, ACTIVE, [NaN]), None)
  {
    var t := OneRowCounts(Str("x"), NaN, Num(0));
    assert WellFormed(t);
    assert ActiveRowOk(t.cols[CONFIRMED][0], t.cols[RECOVERED][0], t.cols[DECEASED][0]);
    var active := ActiveColumn(t, CONFIRMED, RECOVERED, DECEASED);
    assert active.Ok?;
    assert active.value[0].NaN?;
    assert active.value == [NaN];
  }

  /** Text opposite a present number raises TypeError, and the frame is left as it was. */
  lemma StatesTextBesideNumber()
    ensures var t := OneRowCounts(Str("x"), Num(1), Num(0));
            PreprocessStates(t) == Outcome(t, Some(TypeError))
  {
    var t := OneRowCounts(Str("x"), Num(1), Num(0));
    assert WellFormed(t);
    assert !CellsSubtractable(t.cols[CONFIRMED][0], t.cols[RECOVERED][0]);
    assert !Subtractable(t.cols[CONFIRMED], t.cols[RECOVERED]);
  }

  /** Running the step on its own result changes nothing. */
  lemma StatesIdempotent(t: Table)
    requires WellFormed(t)
    ensures PreprocessStates(PreprocessStates(t).table) == PreprocessStates(t)
  {
    AddActiveRepeat(t, ACTIVE, CONFIRMED, RECOVERED, DECEASED);
  }

  // ---------------------------------------------------------------------
  // The state picker's options
  // ---------------------------------------------------------------------

  /** The position of the first occurrence of x in s. */
  function FirstIndex(s: seq<Cell>, x: Cell): (k: nat)
    requires x in s
    ensures k < |s| && s[k] == x
    ensures forall m :: 0 <= m < k ==> s[m] != x
  {
    if s[0] == x then 0 else 1 + FirstIndex(s[1..], x)
  }

  /** No value occurs twice. */
  predicate NoDuplicates(s: seq<Cell>) {
    forall i, j :: 0 <= i < j < |s| ==> s[i] != s[j]
  }

  /** x and y both occur in s, and x first occurs before y first occurs. */
  predicate FirstAppearsBefore(s: seq<Cell>, x: Cell, y: Cell) {
    x in s && y in s && FirstIndex(s, x) < FirstIndex(s, y)
  }

  /** The values of r, all taken from s, stand in the order of their first appearance in s. */
  predicate InFirstAppearanceOrder(r: seq<Cell>, s: seq<Cell>) {
    forall i, j :: 0 <= i < j < |r| ==> FirstAppearsBefore(s, r[i], r[j])
  }

  /** pandas' `Series.unique()`: each value once, in order of first appearance. */
  function Unique(s: seq<Cell>): (r: seq<Cell>)
    ensures forall x :: x in r <==> x in s
    ensures NoDuplicates(r)
  {
    if |s| == 0 then []
    else
      var u := Unique(s[..|s| - 1]);
      assert forall x :: x in s <==> x in s[..|s| - 1] || x == s[|s| - 1] by {
        assert s == s[..|s| - 1] + [s[|s| - 1]];
      }
      if s[|s| - 1] in u then u else u + [s[|s| - 1]]
  }

  /** The first occurrence of a value of the prefix is the same in the whole sequence. */
  lemma FirstIndexOfPrefix(s: seq<Cell>, n: nat, x: Cell)
    requires n <= |s| && x in s[..n]
    ensures x in s && FirstIndex(s, x) == FirstIndex(s[..n], x)
  {
    var k := FirstIndex(s[..n], x);
    assert s[k] == x;
    assert forall m :: 0 <= m < k ==> s[m] == s[..n][m];
  }

  /** Order by first appearance in a prefix of s is order by first appearance in s. */
  lemma OrderInExtension(r: seq<Cell>, s: seq<Cell>, n: nat)
    requires n <= |s| && (forall x :: x in r ==> x in s[..n]) && InFirstAppearanceOrder(r, s[..n])
    ensures InFirstAppearanceOrder(r, s)
  {
    forall x | x in r ensures x in s && FirstIndex(s, x) == FirstIndex(s[..n], x) {
      FirstIndexOfPrefix(s, n, x);
    }
  }

  /** A value new to the prefix s[..n] comes after every value of it. */
  lemma AppendNewKeepsOrder(r: seq<Cell>, s: seq<Cell>, n: nat)
    requires n < |s| && s[n] !in s[..n]
    requires (forall x :: x in r ==> x in s[..n]) && InFirstAppearanceOrder(r, s)
    ensures InFirstAppearanceOrder(r + [s[n]], s)
  {
    var r' := r + [s[n]];
    assert FirstIndex(s, s[n]) == n by {
      assert forall m :: 0 <= m < n ==> s[m] == s[..n][m];
    }
    forall i, j | 0 <= i < j < |r'|
      ensures FirstAppearsBefore(s, r'[i], r'[j])
    {
      assert r'[i] == r[i];
      if j == |r| {
        FirstIndexOfPrefix(s, n, r[i]);
      } else {
        assert r'[j] == r[j];
      }
    }
    assert InFirstAppearanceOrder(r', s);
  }

  lemma {:induction false} UniqueOrder(s: seq<Cell>)
    ensures InFirstAppearanceOrder(Unique(s), s)
  {
    if |s| > 0 {
      var n := |s| - 1;
      var u := Unique(s[..n]);
      UniqueOrder(s[..n]);
      OrderInExtension(u, s, n);
      if s[n] !in u {
        AppendNewKeepsOrder(u, s, n);
      }
    }
  }

  /** The values of s other than x, in order (the mask `u[u != x]`). */
  function Without(s: seq<Cell>, x: Cell): (r: seq<Cell>)
    ensures forall y :: y in r <==> y in s && y != x
  {
    if |s| == 0 then []
    else
      assert forall y :: y in s <==> y in s[..|s| - 1] || y == s[|s| - 1] by {
        assert s == s[..|s| - 1] + [s[|s| - 1]];
      }
      Without(s[..|s| - 1], x) + if s[|s| - 1] != x then [s[|s| - 1]] else []
  }

  /** A value that differs from, and first appears after, every value of w can be appended to w. */
  lemma AppendLater(w: seq<Cell>, y: Cell, s: seq<Cell>)
    requires NoDuplicates(w) && InFirstAppearanceOrder(w, s)
    requires forall z :: z in w ==> z != y && FirstAppearsBefore(s, z, y)
    ensures NoDuplicates(w + [y]) && InFirstAppearanceOrder(w + [y], s)
  {
    var r := w + [y];
    forall i, j | 0 <= i < j < |r| ensures r[i] != r[j] && FirstAppearsBefore(s, r[i], r[j]) {
      assert r[i] == w[i];
      if j < |w| {
        assert r[j] == w[j];
      } else {
        assert r[j] == y && w[i] in w;
      }
    }
    assert NoDuplicates(r) && InFirstAppearanceOrder(r, s);
  }

  /** Dropping values keeps the rest distinct and in the same relative order. */
  lemma {:induction false} WithoutKeepsOrder(u: seq<Cell>, x: Cell, s: seq<Cell>)
    requires NoDuplicates(u) && InFirstAppearanceOrder(u, s)
    ensures NoDuplicates(Without(u, x)) && InFirstAppearanceOrder(Without(u, x), s)
  {
    if |u| > 0 {
      var p := u[..|u| - 1];
      var last := u[|u| - 1];
      assert NoDuplicates(p) && InFirstAppearanceOrder(p, s) by {
        assert forall i :: 0 <= i < |p| ==> p[i] == u[i];
      }
      WithoutKeepsOrder(p, x, s);
      var w := Without(p, x);
      if last != x {
        forall z | z in w ensures z != last && FirstAppearsBefore(s, z, last) {
          assert z in p;
          var k :| 0 <= k < |p| && p[k] == z;
          assert u[k] == z && k < |u| - 1;
          assert FirstAppearsBefore(s, u[k], u[|u| - 1]);
        }
        AppendLater(w, last, s);
      }
    }
  }

  /**
   * `states['State'].unique()[... != 'India'].tolist()`: the picker's options,
   * or KeyError when the frame has no State column.
   */
  function StateOptions(t: Table): (r: Result<seq<Cell>, FrameError>)
    requires WellFormed(t)
    ensures r.Err? <==> STATE !in t.labels
    ensures r.Err? ==> r.error == KeyError(STATE)
    ensures r.Ok? ==> forall x :: x in r.value <==> x in t.cols[STATE] && x != Str(NATIONAL_ROW)
  {
    match Column(t, STATE)
    case Err(e) => Err(e)
    case Ok(states) => Ok(Without(Unique(states), Str(NATIONAL_ROW)))
  }

  /** Each option appears once, in order of first appearance in the State column. */
  lemma StateOptionsOrder(t: Table)
    requires WellFormed(t) && STATE in t.labels
    ensures NoDuplicates(StateOptions(t).value)
    ensures InFirstAppearanceOrder(StateOptions(t).value, t.cols[STATE])
  {
    UniqueOrder(t.cols[STATE]);
    WithoutKeepsOrder(Unique(t.cols[STATE]), Str(NATIONAL_ROW), t.cols[STATE]);
  }
}
