/**
  The label cells of a report table. A row's label is split on `:` into
  parts. Shorter rows are padded on the left with blank parts until every
  row has the same number. Each column is then grouped into runs of equal
  labels: the first part of a run is marked, and its row count is the
  run's length, so the table can span that cell over the run.
*/
module ReportRows {
  import opened Strings

  datatype LabelPart = LabelPart(href: string, text: string, isFirst: bool, rowCount: nat)

  const BlankPart := LabelPart("", "", true, 1)

  /** The label split on `:`, one fresh part per piece. */
  function SplitLabel(rowLabel: string, href: string): (parts: seq<LabelPart>)
    ensures |parts| == |Split(rowLabel, ':')| >= 1
    ensures forall i :: 0 <= i < |parts| ==> parts[i].isFirst && parts[i].rowCount == 1 && parts[i].href == href
  {
    var pieces := Split(rowLabel, ':');
    seq(|pieces|, i requires 0 <= i < |pieces| => LabelPart(href, pieces[i], true, 1))
  }

  lemma SplitLabelText(rowLabel: string, href: string, i: nat)
    requires i < |Split(rowLabel, ':')|
    ensures SplitLabel(rowLabel, href)[i].text == Split(rowLabel, ':')[i]
  {
  }

  function Labels(parts: seq<LabelPart>): seq<string> {
    seq(|parts|, i requires 0 <= i < |parts| => parts[i].text)
  }

  /** Joining the parts' labels with `:` gives back the row's label. */
  lemma SplitLabelRoundTrip(rowLabel: string, href: string)
    ensures Join(Labels(SplitLabel(rowLabel, href)), ":") == rowLabel
  {
    assert Labels(SplitLabel(rowLabel, href)) == Split(rowLabel, ':');
    JoinSplit(rowLabel, ':');
  }

  function Blanks(n: nat): (b: seq<LabelPart>)
    ensures |b| == n && forall i :: 0 <= i < n ==> b[i] == BlankPart
  {
    seq(n, _ => BlankPart)
  }

  /** Prepends blank parts one at a time until there are `width`. */
  method PadLabelParts(parts: seq<LabelPart>, width: int) returns (padded: seq<LabelPart>)
    ensures |parts| >= width ==> padded == parts
    ensures |parts| < width ==> padded == Blanks(width - |parts|) + parts
  {
    padded := parts;
    while |padded| < width
      invariant |parts| >= width ==> padded == parts
      invariant |parts| < width ==> |parts| <= |padded| <= width
      invariant padded == Blanks(|padded| - |parts|) + parts
      decreases width - |padded|
    {
      padded := [BlankPart] + padded;
    }
  }

  // ---------------------------------------------------------------------------
  // Runs in one column.

  /**
    The length of the run of equal labels starting at row `r`, counting
    only rows below `k`.
  */
  function RunFrom(col: seq<LabelPart>, r: nat, k: nat): (n: nat)
    requires r < |col| && k <= |col|
    ensures n >= 1
    decreases |col| - r
  {
    if r + 1 < k && col[r + 1].text == col[r].text then 1 + RunFrom(col, r + 1, k) else 1
  }

  /** Row `r` starts a run among the rows below `k`. */
  predicate StartsRun(col: seq<LabelPart>, r: nat, k: nat)
    requires r < |col|
  {
    !(0 < r < k && col[r].text == col[r - 1].text)
  }

  /** Row `r`'s part once rows `1 .. k-1` have been compared with the row above. */
  function Spanned(col: seq<LabelPart>, r: nat, k: nat): LabelPart
    requires r < |col| && k <= |col|
  {
    var first := StartsRun(col, r, k);
    col[r].(isFirst := first, rowCount := if first then RunFrom(col, r, k) else 1)
  }

  predicate SameFrom(col: seq<LabelPart>, r: nat, k: nat)
    requires r <= k < |col|
  {
    forall t :: r < t <= k ==> col[t].text == col[t - 1].text
  }

  /** Counting one more row lengthens a run exactly when the run reaches it. */
  lemma {:induction false} RunExtend(col: seq<LabelPart>, r: nat, k: nat)
    requires r < k < |col|
    ensures RunFrom(col, r, k + 1) == RunFrom(col, r, k) + (if SameFrom(col, r, k) then 1 else 0)
    decreases k - r
  {
    if r + 1 < k && col[r + 1].text == col[r].text {
      RunExtend(col, r + 1, k);
    }
  }

  lemma RunAtOrPast(col: seq<LabelPart>, r: nat, k: nat)
    requires k <= r < |col|
    ensures RunFrom(col, r, k) == 1
  {
  }

  /** Every part of column `p` is as `Spanned` says, for rows below `k`. */
  ghost predicate ColumnDone(m: array2<LabelPart>, p: nat, col: seq<LabelPart>, k: nat)
    reads m
    requires p < m.Length1 && |col| == m.Length0 && k <= |col|
  {
    forall r :: 0 <= r < |col| ==> m[r, p] == Spanned(col, r, k)
  }

  /**
    Compares row `i` of column `p` with the row above. When they are equal
    the part stops being first, and the part heading the run above (found by
    walking back) gets one more row.
  */
  method ExtendColumn(m: array2<LabelPart>, p: nat, ghost col: seq<LabelPart>, i: nat)
    requires p < m.Length1 && |col| == m.Length0 && 1 <= i < |col|
    requires ColumnDone(m, p, col, i)
    modifies m
    ensures ColumnDone(m, p, col, i + 1)
    ensures forall r, q :: 0 <= r < m.Length0 && 0 <= q < m.Length1 && q != p ==> m[r, q] == old(m[r, q])
  {
    if m[i, p].text != m[i - 1, p].text {
      forall r | 0 <= r < |col|
        ensures Spanned(col, r, i) == Spanned(col, r, i + 1)
      {
        if r < i {
          RunExtend(col, r, i);
        }
      }
      return;
    }
    m[i, p] := m[i, p].(isFirst := false);
    var firstRi := i - 1;
    while !m[firstRi, p].isFirst
      invariant 0 <= firstRi < i
      invariant forall t :: firstRi < t <= i ==> col[t].text == col[t - 1].text
      invariant m[firstRi, p] == Spanned(col, firstRi, i)
      decreases firstRi
    {
      firstRi := firstRi - 1;
    }
    ghost var s := firstRi;
    assert StartsRun(col, s, i);
    RunExtend(col, s, i);
    m[firstRi, p] := m[firstRi, p].(rowCount := m[firstRi, p].rowCount + 1);
    forall r | 0 <= r < |col|
      ensures m[r, p] == Spanned(col, r, i + 1)
    {
      if r < s {
        RunExtend(col, r, i);
        assert !SameFrom(col, r, i) by {
          assert !(col[s].text == col[s - 1].text);
        }
      } else if s < r < i {
        assert !StartsRun(col, r, i + 1);
      } else if r > i {
        RunAtOrPast(col, r, i);
        RunAtOrPast(col, r, i + 1);
      }
    }
  }

  /** Column `p` of the table, as a sequence of rows. */
  function Column(m: array2<LabelPart>, p: nat): (col: seq<LabelPart>)
    reads m
    requires p < m.Length1
    ensures |col| == m.Length0
  {
    seq(m.Length0, r requires 0 <= r < m.Length0 reads m => m[r, p])
  }

  /**
    Marks the first part of each run of equal labels in every column and
    gives it the run's length, in place, row by row.
  */
  method ComputeRowSpans(m: array2<LabelPart>)
    requires forall r, p :: 0 <= r < m.Length0 && 0 <= p < m.Length1 ==> m[r, p].isFirst && m[r, p].rowCount == 1
    modifies m
    ensures forall p :: 0 <= p < m.Length1 ==> ColumnDone(m, p, old(Column(m, p)), m.Length0)
  {
    ghost var cols := seq(m.Length1, p requires 0 <= p < m.Length1 reads m => Column(m, p));
    assert forall p :: 0 <= p < m.Length1 ==> cols[p] == old(Column(m, p));
    if m.Length0 == 0 {
      return;
    }
    assert forall p :: 0 <= p < m.Length1 ==> ColumnDone(m, p, cols[p], 1) by {
      forall p, r | 0 <= p < m.Length1 && 0 <= r < m.Length0
        ensures m[r, p] == Spanned(cols[p], r, 1)
      {
        if r >= 1 {
          RunAtOrPast(cols[p], r, 1);
        }
      }
    }
    var rowIndex := 1;
    while rowIndex < m.Length0
      invariant 1 <= rowIndex <= m.Length0
      invariant forall p :: 0 <= p < m.Length1 ==> ColumnDone(m, p, cols[p], rowIndex)
    {
      var partIndex := 0;
      while partIndex < m.Length1
        invariant 0 <= partIndex <= m.Length1
        invariant forall p :: 0 <= p < partIndex ==> ColumnDone(m, p, cols[p], rowIndex + 1)
        invariant forall p :: partIndex <= p < m.Length1 ==> ColumnDone(m, p, cols[p], rowIndex)
      {
        ExtendColumn(m, partIndex, cols[partIndex], rowIndex);
        partIndex := partIndex + 1;
      }
      rowIndex := rowIndex + 1;
    }
  }

  // ---------------------------------------------------------------------------
  // What a finished column says.

  /** The row counts of the parts that start runs, from row `r` down. */
  function SpanTotal(col: seq<LabelPart>, r: nat): nat
    requires r <= |col|
    decreases |col| - r
  {
    if r == |col| then 0
    else (if StartsRun(col, r, |col|) then RunFrom(col, r, |col|) else 0) + SpanTotal(col, r + 1)
  }

  lemma {:induction false} SpanTotalFrom(col: seq<LabelPart>, r: nat)
    requires r <= |col|
    ensures r < |col| && !StartsRun(col, r, |col|) ==> SpanTotal(col, r) + RunFrom(col, r, |col|) == |col| - r
    ensures r == |col| || StartsRun(col, r, |col|) ==> SpanTotal(col, r) == |col| - r
    decreases |col| - r
  {
    if r < |col| {
      SpanTotalFrom(col, r + 1);
    }
  }

  /** A column once every row has been compared with the row above. */
  function Finished(col: seq<LabelPart>): (done: seq<LabelPart>)
    ensures |done| == |col|
  {
    seq(|col|, r requires 0 <= r < |col| => Spanned(col, r, |col|))
  }

  /** The sum of the row counts of the parts marked first. */
  function FirstSpans(parts: seq<LabelPart>): nat {
    if |parts| == 0 then 0
    else (if parts[0].isFirst then parts[0].rowCount else 0) + FirstSpans(parts[1..])
  }

  lemma {:induction false} FirstSpansIsSpanTotal(col: seq<LabelPart>, r: nat)
    requires r <= |col|
    ensures FirstSpans(Finished(col)[r..]) == SpanTotal(col, r)
    decreases |col| - r
  {
    if r < |col| {
      FirstSpansIsSpanTotal(col, r + 1);
      assert Finished(col)[r..][1..] == Finished(col)[r + 1..];
    }
  }

  /** In a finished column the row counts of the run heads add up to the number of rows. */
  lemma SpansCoverColumn(col: seq<LabelPart>)
    ensures FirstSpans(Finished(col)) == |col|
  {
    SpanTotalFrom(col, 0);
    FirstSpansIsSpanTotal(col, 0);
    assert Finished(col)[0..] == Finished(col);
  }

  /**
    In a finished column a part is first exactly when its label differs
    from the row above (or it is the top row); a first part counts the rows
    of its run, which all share its label, and the row after the run (if
    any) has another label.
  */
  lemma {:induction false} SpannedColumnIsRuns(col: seq<LabelPart>, r: nat)
    requires r < |col|
    ensures Spanned(col, r, |col|).isFirst <==> r == 0 || col[r].text != col[r - 1].text
    ensures Spanned(col, r, |col|).isFirst ==>
      var n := Spanned(col, r, |col|).rowCount;
      && r + n <= |col|
      && (forall t :: r <= t < r + n ==> col[t].text == col[r].text)
      && (r + n < |col| ==> col[r + n].text != col[r].text)
    decreases |col| - r
  {
    if r + 1 < |col| && col[r + 1].text == col[r].text {
      SpannedColumnIsRuns(col, r + 1);
      RunTail(col, r);
    }
  }

  /** A run that continues past `r` is one row longer than the run from `r + 1`. */
  lemma {:induction false} RunTail(col: seq<LabelPart>, r: nat)
    requires r + 1 < |col| && col[r + 1].text == col[r].text
    ensures RunFrom(col, r, |col|) == 1 + RunFrom(col, r + 1, |col|)
    ensures var n := RunFrom(col, r, |col|);
      && r + n <= |col|
      && (forall t :: r <= t < r + n ==> col[t].text == col[r].text)
      && (r + n < |col| ==> col[r + n].text != col[r].text)
    decreases |col| - r
  {
    if r + 2 < |col| && col[r + 2].text == col[r + 1].text {
      RunTail(col, r + 1);
    }
  }
}
