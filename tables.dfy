/**
 * The pandas DataFrame behaviour the dashboard's preprocessing relies on:
 * column lookup by label, column assignment (overwrite in place or append
 * as the last column), elementwise subtraction that skips missing values, and
 * `replace`, which returns a new frame and leaves its receiver alone.
 */
module Tables {
  import opened Wrappers

  /** One cell of a column: an integer count, a text value, or pandas' missing value. */
  datatype Cell = Num(n: int) | Str(s: string) | NaN

  /** The exceptions column access and column arithmetic raise. */
  datatype FrameError =
    | KeyError(column: string) // no column with that label
    | TypeError                // arithmetic between text and a present value

  /** A frame's value: column labels in order, each column's cells by label, and the row count. */
  datatype Table = Table(labels: seq<string>, cols: map<string, seq<Cell>>, height: nat)

  /** Labels are distinct, every label has a column, and every column has one cell per row. */
  predicate WellFormed(t: Table) {
    && (forall i, j :: 0 <= i < j < |t.labels| ==> t.labels[i] != t.labels[j])
    && (forall l :: l in t.labels ==> l in t.cols)
    && (forall l :: l in t.cols ==> l in t.labels)
    && (forall l :: l in t.cols ==> |t.cols[l]| == t.height)
  }

  /** `df[name]`: the column with that label, or KeyError. */
  function Column(t: Table, name: string): (r: Result<seq<Cell>, FrameError>)
    requires WellFormed(t)
    ensures r.Ok? <==> name in t.labels
    ensures r.Ok? ==> r.value == t.cols[name] && |r.value| == t.height
    ensures r.Err? ==> r.error == KeyError(name)
  {
    if name in t.cols then Ok(t.cols[name]) else Err(KeyError(name))
  }

  /** `df[name] = values`: an existing column is overwritten where it stands, a new one goes last. */
  function Put(t: Table, name: string, values: seq<Cell>): (r: Table)
    requires WellFormed(t) && |values| == t.height
    ensures WellFormed(r) && r.height == t.height
    ensures r.cols == t.cols[name := values]
    ensures name in t.labels ==> r.labels == t.labels
    ensures name !in t.labels ==> r.labels == t.labels + [name]
  {
    var labels := if name in t.labels then t.labels else t.labels + [name];
    Table(labels, t.cols[name := values], t.height)
  }

  /**
   * One row of `a - b` can be computed: pandas skips a row where either side
   * is missing (the result is NaN there), and otherwise both sides must be numbers.
   */
  predicate CellsSubtractable(x: Cell, y: Cell) {
    x.NaN? || y.NaN? || (x.Num? && y.Num?)
  }

  /** Every row of `a - b` can be computed, so the column subtraction raises nothing. */
  predicate Subtractable(a: seq<Cell>, b: seq<Cell>)
    requires |a| == |b|
  {
    forall i :: 0 <= i < |a| ==> CellsSubtractable(a[i], b[i])
  }

  /** One cell of `a - b`: NaN if either side is NaN, the difference of two numbers otherwise. */
  function CellSub(x: Cell, y: Cell): (r: Cell)
    requires CellsSubtractable(x, y)
    ensures r.NaN? <==> x.NaN? || y.NaN?
    ensures r.Num? <==> x.Num? && y.Num?
    ensures r.Num? ==> r.n + y.n == x.n
  {
    if x.Num? && y.Num? then Num(x.n - y.n) else NaN
  }

  /**
   * `a - b` on two columns of one frame, row by row. Text opposite a missing
   * value gives NaN; text opposite any present value raises TypeError.
   */
  function SubColumns(a: seq<Cell>, b: seq<Cell>): (r: Result<seq<Cell>, FrameError>)
    requires |a| == |b|
    ensures r.Ok? <==> Subtractable(a, b)
    ensures r.Err? ==> r.error == TypeError
    ensures r.Ok? ==> |r.value| == |a|
    ensures r.Ok? ==> forall i :: 0 <= i < |a| ==> r.value[i] == CellSub(a[i], b[i])
  {
    if Subtractable(a, b) then Ok(seq(|a|, i requires 0 <= i < |a| => CellSub(a[i], b[i])))
    else Err(TypeError)
  }

  /** One cell of `replace(NaN, v)`. */
  function ReplaceCell(c: Cell, v: Cell): Cell {
    if c.NaN? then v else c
  }

  /** `df.replace(NaN, v)`: a NEW frame with every NaN cell replaced by v; the receiver is not changed. */
  function ReplaceNaN(t: Table, v: Cell): (r: Table)
    requires WellFormed(t)
    ensures WellFormed(r) && r.labels == t.labels && r.height == t.height
    ensures forall l :: l in t.cols ==>
              forall i :: 0 <= i < t.height ==> r.cols[l][i] == (if t.cols[l][i].NaN? then v else t.cols[l][i])
  {
    Table(t.labels, map l | l in t.cols :: seq(|t.cols[l]|, i requires 0 <= i < |t.cols[l]| => ReplaceCell(t.cols[l][i], v)), t.height)
  }

  /** A pandas DataFrame that the dashboard changes in place by assigning columns. */
  class DataFrame {
    var labels: seq<string>
    var cols: map<string, seq<Cell>>
    var height: nat

    /** The frame's current contents. */
    function Value(): Table
      reads this
    {
      Table(labels, cols, height)
    }

    ghost predicate Valid()
      reads this
    {
      WellFormed(Value())
    }

    constructor (t: Table)
      requires WellFormed(t)
      ensures Valid() && Value() == t
    {
      labels, cols, height := t.labels, t.cols, t.height;
    }

    /** `df[name] = values`. */
    method Assign(name: string, values: seq<Cell>)
      requires Valid() && |values| == height
      modifies this
      ensures Valid() && Value() == Put(old(Value()), name, values)
    {
      if name !in cols {
        labels := labels + [name];
      }
      cols := cols[name := values];
    }
  }
}
