/** Date-indexed tables and series, the shapes pandas gives the pipeline's data. */
module Frames {
  import opened Wrappers

  /** A calendar day, as a day number. */
  type Date = int

  /** One numeric cell; `None` is pandas' NaN. */
  type Cell = Option<real>

  /** A named column of a table. */
  datatype Column = Column(name: string, cells: seq<Cell>)

  /** A table indexed by date (a pandas DataFrame with numeric columns). */
  datatype Frame = Frame(index: seq<Date>, columns: seq<Column>)
  {
    /** Every column has one cell per row of the index. */
    ghost predicate Valid()
    {
      forall c :: c in columns ==> |c.cells| == |index|
    }

    /** pandas' `DataFrame.empty`: no rows or no columns. */
    predicate IsEmpty()
    {
      |index| == 0 || |columns| == 0
    }

    /** The names of the columns, in order. */
    function Names(): (names: seq<string>)
      ensures |names| == |columns|
      ensures forall i :: 0 <= i < |columns| ==> names[i] == columns[i].name
    {
      seq(|columns|, i requires 0 <= i < |columns| => columns[i].name)
    }
  }

  /** The table pandas builds with `pd.DataFrame()`. */
  const EmptyFrame: Frame := Frame([], [])

  /** A named series indexed by date (a pandas Series). */
  datatype Series = Series(name: string, index: seq<Date>, values: seq<Cell>)
  {
    ghost predicate Valid()
    {
      |values| == |index|
    }

    /** pandas' `Series.empty`: no rows. */
    predicate IsEmpty()
    {
      |index| == 0
    }
  }

  /** The positions of the columns called `name`. */
  function ColumnsNamed(columns: seq<Column>, name: string): (r: seq<nat>)
    ensures forall k :: 0 <= k < |r| ==> r[k] < |columns| && columns[r[k]].name == name
    ensures forall i :: 0 <= i < |columns| && columns[i].name == name ==> i in r
    ensures |r| <= |columns|
  {
    if |columns| == 0 then []
    else
      var rest := ColumnsNamed(columns[..|columns| - 1], name);
      if columns[|columns| - 1].name == name then rest + [|columns| - 1] else rest
  }

  /** The present values of a column, in order (pandas' `dropna`). */
  function Present(cells: seq<Cell>): (r: seq<real>)
    ensures |r| <= |cells|
    ensures forall x :: x in r <==> Some(x) in cells
    ensures |r| == 0 <==> forall i :: 0 <= i < |cells| ==> cells[i].None?
  {
    if |cells| == 0 then []
    else
      var rest := Present(cells[..|cells| - 1]);
      assert cells == cells[..|cells| - 1] + [cells[|cells| - 1]];
      match cells[|cells| - 1]
      case None => rest
      case Some(x) => rest + [x]
  }

  /** The number of missing cells (pandas' `isnull().sum()`). */
  function NullCount(cells: seq<Cell>): (n: nat)
    ensures n <= |cells|
    ensures n + |Present(cells)| == |cells|
  {
    if |cells| == 0 then 0
    else NullCount(cells[..|cells| - 1]) + (if cells[|cells| - 1].None? then 1 else 0)
  }

  function Min(a: real, b: real): real { if a <= b then a else b }

  function Max(a: real, b: real): real { if a <= b then b else a }

  /** pandas' scalar `clip(lower, upper)`; pandas swaps the two bounds when they are reversed. */
  function Clip(v: real, lower: real, upper: real): (r: real)
    ensures Min(lower, upper) <= r <= Max(lower, upper)
    ensures Min(lower, upper) <= v <= Max(lower, upper) ==> r == v
    ensures v <= Min(lower, upper) ==> r == Min(lower, upper)
    ensures v >= Max(lower, upper) ==> r == Max(lower, upper)
  {
    var lo, hi := Min(lower, upper), Max(lower, upper);
    if v < lo then lo else if v > hi then hi else v
  }

  /** `Clip` applied to one cell; a missing cell stays missing. */
  function ClipCell(c: Cell, lower: real, upper: real): (r: Cell)
    ensures r.None? <==> c.None?
    ensures r.Some? ==> Min(lower, upper) <= r.value <= Max(lower, upper)
  {
    match c
    case None => None
    case Some(v) => Some(Clip(v, lower, upper))
  }

  /** Every key is at most every later key. */
  ghost predicate SortedBy<T>(s: seq<T>, key: T -> real)
  {
    forall i, j :: 0 <= i < j < |s| ==> key(s[i]) <= key(s[j])
  }

  /** Dates strictly increasing, the invariant of a time series table. */
  ghost predicate StrictlyIncreasing(dates: seq<Date>)
  {
    forall i, j :: 0 <= i < j < |dates| ==> dates[i] < dates[j]
  }

  /** Inserts `x` before the first element with a larger key. */
  function Insert<T>(x: T, s: seq<T>, key: T -> real): (r: seq<T>)
    requires SortedBy(s, key)
    ensures multiset(r) == multiset(s) + multiset{x}
    ensures |r| == |s| + 1
    ensures SortedBy(r, key)
  {
    if |s| == 0 then [x]
    else if key(x) <= key(s[0]) then [x] + s
    else
      var tail := Insert(x, s[1..], key);
      assert s == [s[0]] + s[1..];
      InsertHeadBound(s[0], x, s[1..], tail, key);
      [s[0]] + tail
  }

  /** Every element of `tail` is `x` or from `s`, so a key below both is below `tail`. */
  lemma InsertHeadBound<T>(h: T, x: T, s: seq<T>, tail: seq<T>, key: T -> real)
    requires multiset(tail) == multiset(s) + multiset{x}
    requires key(h) <= key(x)
    requires forall y :: y in s ==> key(h) <= key(y)
    requires SortedBy(tail, key)
    ensures SortedBy([h] + tail, key)
  {
    forall i, j | 0 <= i < j < |[h] + tail| ensures key(([h] + tail)[i]) <= key(([h] + tail)[j]) {
      var y := tail[j - 1];
      assert ([h] + tail)[j] == y;
      assert y in multiset(tail);
      assert y == x || y in multiset(s);
      if i > 0 {
        assert ([h] + tail)[i] == tail[i - 1];
      }
    }
  }

  /** A stable sort by key (insertion sort), used for `sort_index` and for quantiles. */
  function SortBy<T>(s: seq<T>, key: T -> real): (r: seq<T>)
    ensures multiset(r) == multiset(s)
    ensures |r| == |s|
    ensures SortedBy(r, key)
  {
    if |s| == 0 then []
    else
      assert s == s[..|s| - 1] + [s[|s| - 1]];
      Insert(s[|s| - 1], SortBy(s[..|s| - 1], key), key)
  }

  /** The first position of `d` in `dates`. */
  function IndexOf(dates: seq<Date>, d: Date): (i: nat)
    requires d in dates
    ensures i < |dates| && dates[i] == d
    ensures forall j :: 0 <= j < i ==> dates[j] != d
  {
    if dates[0] == d then 0 else 1 + IndexOf(dates[1..], d)
  }

  /** The value a series holds on date `d`, or missing when the date is absent. */
  function ValueAt(s: Series, d: Date): (c: Cell)
    requires s.Valid()
    ensures d !in s.index ==> c.None?
    ensures d in s.index ==> c == s.values[IndexOf(s.index, d)]
  {
    if d in s.index then s.values[IndexOf(s.index, d)] else None
  }

  /** The sorted union of two date indexes (pandas' index union). */
  function MergeDates(a: seq<Date>, b: seq<Date>): (r: seq<Date>)
    ensures forall d :: d in r <==> d in a || d in b
    decreases |a| + |b|
  {
    if |a| == 0 then b
    else if |b| == 0 then a
    else if a[0] < b[0] then [a[0]] + MergeDates(a[1..], b)
    else if b[0] < a[0] then [b[0]] + MergeDates(a, b[1..])
    else [a[0]] + MergeDates(a[1..], b[1..])
  }

  /** The union of two strictly increasing indexes is strictly increasing. */
  lemma {:induction false} MergeDatesIncreasing(a: seq<Date>, b: seq<Date>)
    requires StrictlyIncreasing(a) && StrictlyIncreasing(b)
    ensures StrictlyIncreasing(MergeDates(a, b))
    decreases |a| + |b|
  {
    if |a| == 0 || |b| == 0 {
    } else if a[0] < b[0] {
      MergeDatesIncreasing(a[1..], b);
      MergeHeadBound(a[0], a[1..], b);
    } else if b[0] < a[0] {
      MergeDatesIncreasing(a, b[1..]);
      MergeHeadBound(b[0], a, b[1..]);
    } else {
      MergeDatesIncreasing(a[1..], b[1..]);
      MergeHeadBound(a[0], a[1..], b[1..]);
    }
  }

  /** A date below every date of `a` and `b` is below every date of their union. */
  lemma MergeHeadBound(x: Date, a: seq<Date>, b: seq<Date>)
    requires forall d :: d in a ==> x < d
    requires forall d :: d in b ==> x < d
    ensures StrictlyIncreasing(MergeDates(a, b)) ==> StrictlyIncreasing([x] + MergeDates(a, b))
  {
    var m := MergeDates(a, b);
    if StrictlyIncreasing(m) {
      forall i, j | 0 <= i < j < |[x] + m| ensures ([x] + m)[i] < ([x] + m)[j] {
        if i == 0 {
          assert ([x] + m)[j] == m[j - 1];
          assert m[j - 1] in m;
        }
      }
    }
  }
}
