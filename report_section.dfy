/**
  The report section of the performance dashboard: its state reducers
  (restoring options, requesting reports, receiving reports) and the way
  its options are read from and written to the page's query string.

  Constants that live in the report-controls element (the name of the
  "create" option, the default report's name, the current milestone and the
  milestone table) are parameters here.
*/
module ReportSection {
  import opened Wrappers
  import opened Strings
  import opened ReportRows

  /** A revision as the section keeps it: a number, or text such as "latest". */
  datatype Rev = RevNumber(n: int) | RevString(s: string)

  /** A row of a received report: its label and the link to its chart. */
  datatype ReportRow = ReportRow(rowLabel: string, href: string)

  datatype ReportBody = ReportBody(rows: Option<seq<ReportRow>>, statistics: seq<string>)

  datatype Report = Report(name: string, id: int, internal: bool, owners: Option<seq<string>>, body: Option<ReportBody>)

  datatype Table =
    | PlaceholderTable(name: string)
    | TemplateTable(owners: string)
    | ReportTable(name: string, id: int, internal: bool, canEdit: bool, isEditing: bool,
                  rows: seq<seq<LabelPart>>, maxLabelParts: Option<nat>, owners: string,
                  statistics: seq<string>)

  /** A table's name; a new template has the empty name. */
  function TableName(t: Table): string {
    if t.TemplateTable? then "" else t.name
  }

  datatype SectionState = SectionState(
    selectedOptions: seq<string>,
    milestone: int,
    minRevision: Option<Rev>,
    maxRevision: Option<Rev>,
    minRevisionInput: Option<Rev>,
    maxRevisionInput: Option<Rev>,
    isLoading: bool,
    tables: seq<Table>,
    containsDefaultSection: bool)

  /** The options a section is restored from; an absent field is `undefined`. */
  datatype StateOptions = StateOptions(
    sources: seq<string>,
    milestone: Option<int>,
    minRevision: Option<Rev>,
    maxRevision: Option<Rev>)

  // ---------------------------------------------------------------------------
  // restoreState

  /**
    `restoreState`: without options the state is unchanged; with options the
    selection, milestone and both revision pairs come from them.
  */
  function RestoreState(state: SectionState, options: Option<StateOptions>, currentMilestone: int): (r: SectionState)
    ensures options.None? ==> r == state
    ensures options.Some? ==>
      && r.selectedOptions == options.value.sources
      && r.minRevision == r.minRevisionInput == options.value.minRevision
      && r.maxRevision == r.maxRevisionInput == options.value.maxRevision
      && r.milestone == (if options.value.milestone.Some? && options.value.milestone.value != 0
                         then options.value.milestone.value else currentMilestone)
      && r.tables == state.tables && r.isLoading == state.isLoading
      && r.containsDefaultSection == state.containsDefaultSection
  {
    match options
    case None => state
    case Some(o) =>
      state.(selectedOptions := o.sources,
             milestone := if o.milestone.Some? && o.milestone.value != 0 then o.milestone.value else currentMilestone,
             minRevision := o.minRevision,
             maxRevision := o.maxRevision,
             minRevisionInput := o.minRevision,
             maxRevisionInput := o.maxRevision)
  }

  // ---------------------------------------------------------------------------
  // requestReports

  /** The tables whose names are selected, in their order. */
  function Kept(tables: seq<Table>, selected: seq<string>): (kept: seq<Table>)
    ensures |kept| <= |tables|
  {
    if |tables| == 0 then []
    else
      var last := tables[|tables| - 1];
      Kept(tables[..|tables| - 1], selected) + (if TableName(last) in selected then [last] else [])
  }

  lemma {:induction false} KeptIsFilter(tables: seq<Table>, selected: seq<string>)
    ensures forall t :: t in Kept(tables, selected) <==> t in tables && TableName(t) in selected
    decreases |tables|
  {
    if |tables| > 0 {
      KeptIsFilter(tables[..|tables| - 1], selected);
      assert forall t :: t in tables <==> t in tables[..|tables| - 1] || t == tables[|tables| - 1];
    }
  }

  function NamesOf(tables: seq<Table>): set<string> {
    if |tables| == 0 then {}
    else NamesOf(tables[..|tables| - 1]) + {TableName(tables[|tables| - 1])}
  }

  lemma {:induction false} NamesOfTables(tables: seq<Table>)
    ensures forall n :: n in NamesOf(tables) <==> exists t :: t in tables && TableName(t) == n
    decreases |tables|
  {
    if |tables| > 0 {
      NamesOfTables(tables[..|tables| - 1]);
      assert forall t :: t in tables <==> t in tables[..|tables| - 1] || t == tables[|tables| - 1];
    }
  }

  /** One table per selected name without one: a new template for the create option, else a placeholder. */
  function Added(selected: seq<string>, have: set<string>, create: string, userEmail: string): seq<Table> {
    if |selected| == 0 then []
    else
      var n := selected[|selected| - 1];
      Added(selected[..|selected| - 1], have, create, userEmail)
      + (if n in have then [] else if n == create then [TemplateTable(userEmail)] else [PlaceholderTable(n)])
  }

  lemma {:induction false} AddedTables(selected: seq<string>, have: set<string>, create: string, userEmail: string)
    ensures var added := Added(selected, have, create, userEmail);
      forall t :: t in added ==>
        || (exists n :: n in selected && n !in have && n != create && t == PlaceholderTable(n))
        || (create in selected && create !in have && t == TemplateTable(userEmail))
    ensures var added := Added(selected, have, create, userEmail);
      forall n :: n in selected && n !in have ==>
        || (n == create && TemplateTable(userEmail) in added)
        || (n != create && PlaceholderTable(n) in added)
    decreases |selected|
  {
    if |selected| > 0 {
      AddedTables(selected[..|selected| - 1], have, create, userEmail);
      assert forall m :: m in selected <==> m in selected[..|selected| - 1] || m == selected[|selected| - 1];
    }
  }

  function RequestedTables(tables: seq<Table>, selected: seq<string>, create: string, userEmail: string): seq<Table> {
    var kept := Kept(tables, selected);
    kept + Added(selected, NamesOf(kept), create, userEmail)
  }

  lemma KeptStep(tables: seq<Table>, i: nat, selected: seq<string>)
    requires i < |tables|
    ensures Kept(tables[..i + 1], selected)
         == Kept(tables[..i], selected) + (if TableName(tables[i]) in selected then [tables[i]] else [])
  {
    assert tables[..i + 1][..i] == tables[..i];
  }

  lemma NamesOfStep(tables: seq<Table>, table: Table)
    ensures NamesOf(tables + [table]) == NamesOf(tables) + {TableName(table)}
  {
    assert (tables + [table])[..|tables|] == tables;
  }

  lemma AddedStep(selected: seq<string>, i: nat, have: set<string>, create: string, userEmail: string)
    requires i < |selected|
    ensures var n := selected[i];
      Added(selected[..i + 1], have, create, userEmail)
      == Added(selected[..i], have, create, userEmail)
         + (if n in have then [] else if n == create then [TemplateTable(userEmail)] else [PlaceholderTable(n)])
  {
    assert selected[..i + 1][..i] == selected[..i];
  }

  /**
    `requestReports`: keeps the tables whose names are selected, in order,
    then adds one table per selected name that has none, and marks the
    section loading.
  */
  method RequestReports(state: SectionState, create: string, userEmail: string) returns (r: SectionState)
    ensures r == state.(isLoading := true, tables := RequestedTables(state.tables, state.selectedOptions, create, userEmail))
  {
    var tables: seq<Table> := [];
    var tableNames: set<string> := {};
    var selectedNames := state.selectedOptions;
    for i := 0 to |state.tables|
      invariant tables == Kept(state.tables[..i], selectedNames)
      invariant tableNames == NamesOf(tables)
    {
      var table := state.tables[i];
      KeptStep(state.tables, i, selectedNames);
      if TableName(table) in selectedNames {
        NamesOfStep(tables, table);
        tables := tables + [table];
        tableNames := tableNames + {TableName(table)};
      }
    }
    assert state.tables[..|state.tables|] == state.tables;
    ghost var kept := tables;
    for i := 0 to |selectedNames|
      invariant tables == kept + Added(selectedNames[..i], tableNames, create, userEmail)
    {
      var name := selectedNames[i];
      AddedStep(selectedNames, i, tableNames, create, userEmail);
      if name !in tableNames {
        if name == create {
          tables := tables + [TemplateTable(userEmail)];
        } else {
          tables := tables + [PlaceholderTable(name)];
        }
      }
    }
    assert selectedNames[..|selectedNames|] == selectedNames;
    r := state.(isLoading := true, tables := tables);
  }

  /**
    After a request, every selected name has its table (the create option
    a new template), and every table is a selected one or that template.
  */
  lemma RequestedTablesMatchSelection(tables: seq<Table>, selected: seq<string>, create: string, userEmail: string)
    ensures var r := RequestedTables(tables, selected, create, userEmail);
      forall n :: n in selected ==>
        (exists t :: t in r && TableName(t) == n) || (n == create && TemplateTable(userEmail) in r)
    ensures var r := RequestedTables(tables, selected, create, userEmail);
      forall t :: t in r ==>
        TableName(t) in selected || (t == TemplateTable(userEmail) && create in selected)
  {
    var kept := Kept(tables, selected);
    var added := Added(selected, NamesOf(kept), create, userEmail);
    var r := kept + added;
    KeptIsFilter(tables, selected);
    NamesOfTables(kept);
    AddedTables(selected, NamesOf(kept), create, userEmail);
    forall n | n in selected
      ensures (exists t :: t in r && TableName(t) == n) || (n == create && TemplateTable(userEmail) in r)
    {
      if n in NamesOf(kept) {
        var t :| t in kept && TableName(t) == n;
        assert t in r;
      } else if n != create {
        assert PlaceholderTable(n) in r && TableName(PlaceholderTable(n)) == n;
      }
    }
  }

  // ---------------------------------------------------------------------------
  // receiveReports

  /** `findIndex` on the tables' names: the first match, or -1. */
  function FindIndex(tables: seq<Table>, name: string): (i: int)
    ensures -1 <= i < |tables|
    ensures i >= 0 ==> TableName(tables[i]) == name && forall j :: 0 <= j < i ==> TableName(tables[j]) != name
    ensures i == -1 ==> forall j :: 0 <= j < |tables| ==> TableName(tables[j]) != name
  {
    if |tables| == 0 then -1
    else if TableName(tables[0]) == name then 0
    else
      var i := FindIndex(tables[1..], name);
      if i == -1 then -1 else i + 1
  }

  /** `splice(start, 1)`: a negative start counts from the end; one element is removed if there is one there. */
  function SpliceOne(tables: seq<Table>, start: int): seq<Table> {
    var at := if start < 0 then (if |tables| + start < 0 then 0 else |tables| + start)
              else (if start > |tables| then |tables| else start);
    if at < |tables| then tables[..at] + tables[at + 1..] else tables
  }

  /** The label parts of each row, split on `:`. */
  function SplitRows(rows: seq<ReportRow>): (split: seq<seq<LabelPart>>)
    ensures |split| == |rows|
    ensures forall r :: 0 <= r < |rows| ==> split[r] == SplitLabel(rows[r].rowLabel, rows[r].href)
  {
    seq(|rows|, r requires 0 <= r < |rows| => SplitLabel(rows[r].rowLabel, rows[r].href))
  }

  /** The largest number of label parts; none for no rows (the maximum of nothing). */
  function MaxParts(split: seq<seq<LabelPart>>): (m: Option<nat>)
    ensures m.None? <==> |split| == 0
    ensures m.Some? ==>
      && (forall r :: 0 <= r < |split| ==> |split[r]| <= m.value)
      && (exists r :: 0 <= r < |split| && |split[r]| == m.value)
  {
    if |split| == 0 then None
    else
      var rest := MaxParts(split[..|split| - 1]);
      var last := |split[|split| - 1]|;
      if rest.Some? && rest.value >= last then Some(rest.value) else Some(last)
  }

  function Width(split: seq<seq<LabelPart>>): nat {
    MaxParts(split).GetOr(0)
  }

  /** Every row right-aligned to the width by blank parts on the left. */
  function PaddedRows(split: seq<seq<LabelPart>>): (padded: seq<seq<LabelPart>>)
    ensures |padded| == |split|
    ensures forall r :: 0 <= r < |split| ==> |padded[r]| == Width(split)
  {
    var w := Width(split);
    seq(|split|, r requires 0 <= r < |split| =>
      if |split[r]| < w then Blanks(w - |split[r]|) + split[r] else split[r])
  }

  /** Column `p` of rows that all have more than `p` parts. */
  function ColumnOf(rows: seq<seq<LabelPart>>, p: nat): (col: seq<LabelPart>)
    requires forall r :: 0 <= r < |rows| ==> p < |rows[r]|
    ensures |col| == |rows|
  {
    seq(|rows|, r requires 0 <= r < |rows| && p < |rows[r]| => rows[r][p])
  }

  /** The received rows' label parts, padded and with the runs of each column marked. */
  function LaidOut(rows: seq<ReportRow>): (laid: seq<seq<LabelPart>>)
    ensures |laid| == |rows|
    ensures forall r :: 0 <= r < |rows| ==> |laid[r]| == Width(SplitRows(rows))
  {
    var padded := PaddedRows(SplitRows(rows));
    var w := Width(SplitRows(rows));
    seq(|rows|, r requires 0 <= r < |rows| =>
      seq(w, p requires 0 <= p < w => Spanned(ColumnOf(padded, p), r, |rows|)))
  }

  /** Every row of `split` padded to the width, prepending one blank at a time. */
  method PadRows(split: seq<seq<LabelPart>>) returns (padded: seq<seq<LabelPart>>)
    ensures padded == PaddedRows(split)
  {
    var width := Width(split);
    padded := [];
    for r := 0 to |split|
      invariant padded == PaddedRows(split)[..r]
    {
      var row := PadLabelParts(split[r], width);
      padded := padded + [row];
    }
  }

  /** Every part unmarked, spanning one row. */
  predicate UnmarkedParts(rows: seq<seq<LabelPart>>) {
    forall r, p :: 0 <= r < |rows| && 0 <= p < |rows[r]| ==> rows[r][p].isFirst && rows[r][p].rowCount == 1
  }

  /** Split and padded label parts are all unmarked. */
  lemma PaddedPartsFresh(rows: seq<ReportRow>)
    ensures UnmarkedParts(PaddedRows(SplitRows(rows)))
  {
    var split := SplitRows(rows);
    var padded: seq<seq<LabelPart>> := PaddedRows(split);
    var w := Width(split);
    forall r: int, p: int | 0 <= r < |padded| && 0 <= p < |padded[r]|
      ensures padded[r][p].isFirst && padded[r][p].rowCount == 1
    {
      if |split[r]| < w {
        var blanks := Blanks(w - |split[r]|);
        assert padded[r] == blanks + split[r];
        if p >= |blanks| {
          assert padded[r][p] == split[r][p - |blanks|];
        }
      }
    }
  }

  /** Copies equal-width rows into a table, marks the runs of every column, and reads the rows back. */
  method MarkRuns(padded: seq<seq<LabelPart>>, width: nat) returns (laid: seq<seq<LabelPart>>)
    requires forall r :: 0 <= r < |padded| ==> |padded[r]| == width
    requires UnmarkedParts(padded)
    ensures |laid| == |padded|
    ensures forall r :: 0 <= r < |padded| ==>
      laid[r] == seq(width, p requires 0 <= p < width => Spanned(ColumnOf(padded, p), r, |padded|))
  {
    var m := new LabelPart[|padded|, width]((r, p) requires 0 <= r < |padded| && 0 <= p < width => padded[r][p]);
    assert forall p :: 0 <= p < width ==> Column(m, p) == ColumnOf(padded, p);
    ComputeRowSpans(m);
    laid := seq(|padded|, r requires 0 <= r < |padded| reads m =>
      seq(width, p requires 0 <= p < width reads m => m[r, p]));
    forall r | 0 <= r < |padded|
      ensures laid[r] == seq(width, p requires 0 <= p < width => Spanned(ColumnOf(padded, p), r, |padded|))
    {
      forall p | 0 <= p < width
        ensures laid[r][p] == Spanned(ColumnOf(padded, p), r, |padded|)
      {
        assert ColumnDone(m, p, ColumnOf(padded, p), |padded|);
      }
    }
  }

  /**
    Builds the rows of a received report: splits, pads each row by
    prepending blanks, then marks the runs in every column in place.
  */
  method LayOutRows(rows: seq<ReportRow>) returns (laid: seq<seq<LabelPart>>, maxLabelParts: Option<nat>)
    ensures laid == LaidOut(rows) && maxLabelParts == MaxParts(SplitRows(rows))
  {
    var split := SplitRows(rows);
    maxLabelParts := MaxParts(split);
    var padded := PadRows(split);
    PaddedPartsFresh(rows);
    laid := MarkRuns(padded, Width(split));
  }

  /** The table shown for a received report. */
  function ReceivedTable(report: Report, rows: seq<ReportRow>, statistics: seq<string>): Table {
    ReportTable(report.name, report.id, report.internal, false, false, LaidOut(rows),
                MaxParts(SplitRows(rows)), Join(report.owners.GetOr([]), ", "), statistics)
  }

  /** A report is skipped when it, its body or its rows are missing. */
  predicate Skipped(report: Option<Report>) {
    report.None? || report.value.body.None? || report.value.body.value.rows.None?
  }

  /** One report received: its placeholder goes and its table is appended. */
  function ReceiveOne(tables: seq<Table>, report: Option<Report>): seq<Table> {
    if Skipped(report) then tables
    else
      var rep := report.value;
      SpliceOne(tables, FindIndex(tables, rep.name)) + [ReceivedTable(rep, rep.body.value.rows.value, rep.body.value.statistics)]
  }

  function ReceiveAll(tables: seq<Table>, reports: seq<Option<Report>>): seq<Table> {
    if |reports| == 0 then tables
    else ReceiveOne(ReceiveAll(tables, reports[..|reports| - 1]), reports[|reports| - 1])
  }

  /** `receiveReports`: the state with each received report's table in place of its placeholder. */
  method ReceiveReports(state: SectionState, reports: seq<Option<Report>>) returns (r: SectionState)
    ensures r == state.(tables := ReceiveAll(state.tables, reports))
  {
    var tables := state.tables;
    for i := 0 to |reports|
      invariant tables == ReceiveAll(state.tables, reports[..i])
    {
      assert reports[..i + 1][..i] == reports[..i];
      var report := reports[i];
      if Skipped(report) {
        continue;
      }
      var rep := report.value;
      var placeholderIndex := FindIndex(tables, rep.name);
      tables := SpliceOne(tables, placeholderIndex);
      var rows, maxLabelParts := LayOutRows(rep.body.value.rows.value);
      tables := tables + [ReportTable(rep.name, rep.id, rep.internal, false, false, rows, maxLabelParts,
                                      Join(rep.owners.GetOr([]), ", "), rep.body.value.statistics)];
    }
    assert reports[..|reports|] == reports;
    r := state.(tables := tables);
  }

  /**
    A received report replaces the first table of its name. When there is
    none, `findIndex` gives -1 and the last table is removed instead. The
    new table comes last and cannot be edited.
  */
  lemma ReceiveOneReplaces(tables: seq<Table>, report: Option<Report>)
    requires !Skipped(report)
    ensures var r := ReceiveOne(tables, report);
      var i := FindIndex(tables, report.value.name);
      && |r| == (if |tables| == 0 then 1 else |tables|)
      && (i >= 0 ==> r[..|r| - 1] == tables[..i] + tables[i + 1..])
      && (i < 0 && |tables| > 0 ==> r[..|r| - 1] == tables[..|tables| - 1])
      && r[|r| - 1].ReportTable? && r[|r| - 1].name == report.value.name
      && !r[|r| - 1].canEdit && !r[|r| - 1].isEditing
  {
    var rep := report.value;
    var i := FindIndex(tables, rep.name);
    var rest := SpliceOne(tables, i);
    var last := ReceivedTable(rep, rep.body.value.rows.value, rep.body.value.statistics);
    SpliceOneAt(tables, i);
    ReceivedTableIsFinal(rep, rep.body.value.rows.value, rep.body.value.statistics);
    ReceiveOneIsSplicePlusTable(tables, report);
    SnocParts(rest, last);
  }

  lemma ReceiveOneIsSplicePlusTable(tables: seq<Table>, report: Option<Report>)
    requires !Skipped(report)
    ensures var rep := report.value;
      ReceiveOne(tables, report)
      == SpliceOne(tables, FindIndex(tables, rep.name)) + [ReceivedTable(rep, rep.body.value.rows.value, rep.body.value.statistics)]
  {
  }

  lemma SnocParts(rest: seq<Table>, last: Table)
    ensures var r := rest + [last];
      |r| == |rest| + 1 && r[..|r| - 1] == rest && r[|r| - 1] == last
  {
    assert (rest + [last])[..|rest|] == rest;
  }

  lemma ReceivedTableIsFinal(report: Report, rows: seq<ReportRow>, statistics: seq<string>)
    ensures var t := ReceivedTable(report, rows, statistics);
      t.ReportTable? && t.name == report.name && !t.canEdit && !t.isEditing
  {
  }

  /** `splice(i, 1)` for an index `findIndex` can give: element `i` goes, or the last one for -1. */
  lemma SpliceOneAt(tables: seq<Table>, i: int)
    requires -1 <= i < |tables|
    ensures |SpliceOne(tables, i)| == (if |tables| == 0 then 0 else |tables| - 1)
    ensures i >= 0 ==> SpliceOne(tables, i) == tables[..i] + tables[i + 1..]
    ensures i < 0 && |tables| > 0 ==> SpliceOne(tables, i) == tables[..|tables| - 1]
  {
    if i < 0 && |tables| > 0 {
      assert tables[|tables| - 1 + 1..] == [];
    }
  }

  /**
    In a received table every row has the same number of label parts, the
    row's own parts right-aligned after blanks; and in every column a part
    is first exactly when its label differs from the row above, with the row
    counts of the first parts adding up to the number of rows.
  */
  lemma LaidOutRowsAreAligned(rows: seq<ReportRow>, r: nat, p: nat)
    requires r < |rows| && p < Width(SplitRows(rows))
    ensures var laid := LaidOut(rows);
      var parts := Split(rows[r].rowLabel, ':');
      var w := Width(SplitRows(rows));
      && |parts| <= w
      && laid[r][p].text == (if p < w - |parts| then "" else parts[p - (w - |parts|)])
      && (laid[r][p].isFirst <==> r == 0 || laid[r][p].text != laid[r - 1][p].text)
  {
    LaidOutTextIsPart(rows, r, p);
    LaidOutFirstIffChanged(rows, r, p);
  }

  lemma LaidOutTextIsPart(rows: seq<ReportRow>, r: nat, p: nat)
    requires r < |rows| && p < Width(SplitRows(rows))
    ensures var parts := Split(rows[r].rowLabel, ':');
      var w := Width(SplitRows(rows));
      && |parts| <= w
      && LaidOut(rows)[r][p].text == (if p < w - |parts| then "" else parts[p - (w - |parts|)])
  {
    LaidOutCell(rows, r, p);
    PaddedPartText(rows, r, p);
  }

  /** A padded cell holds the row's own label part, right-aligned, or a blank. */
  lemma PaddedPartText(rows: seq<ReportRow>, r: nat, p: nat)
    requires r < |rows| && p < Width(SplitRows(rows))
    ensures var parts := Split(rows[r].rowLabel, ':');
      var w := Width(SplitRows(rows));
      && |parts| <= w
      && ColumnOf(PaddedRows(SplitRows(rows)), p)[r].text
         == (if p < w - |parts| then "" else parts[p - (w - |parts|)])
  {
    var split := SplitRows(rows);
    var w := Width(split);
    PaddedText(split, r, p);
    SplitRowParts(rows, r);
  }

  /** Row `r` of the split rows holds the parts of its label, in order. */
  lemma SplitRowParts(rows: seq<ReportRow>, r: nat)
    requires r < |rows|
    ensures var parts := Split(rows[r].rowLabel, ':');
      && |SplitRows(rows)[r]| == |parts|
      && forall k :: 0 <= k < |parts| ==> SplitRows(rows)[r][k].text == parts[k]
  {
    var own := SplitRows(rows)[r];
    assert own == SplitLabel(rows[r].rowLabel, rows[r].href);
    forall k | 0 <= k < |own|
      ensures own[k].text == Split(rows[r].rowLabel, ':')[k]
    {
      SplitLabelText(rows[r].rowLabel, rows[r].href, k);
    }
  }

  lemma LaidOutFirstIffChanged(rows: seq<ReportRow>, r: nat, p: nat)
    requires r < |rows| && p < Width(SplitRows(rows))
    ensures var laid := LaidOut(rows);
      laid[r][p].isFirst <==> r == 0 || laid[r][p].text != laid[r - 1][p].text
  {
    var col := ColumnOf(PaddedRows(SplitRows(rows)), p);
    LaidOutCell(rows, r, p);
    if r > 0 {
      LaidOutCell(rows, r - 1, p);
    }
    SpannedColumnIsRuns(col, r);
  }

  /** A cell of the laid-out rows is its padded column's part, spanned. */
  lemma LaidOutCell(rows: seq<ReportRow>, r: nat, p: nat)
    requires r < |rows| && p < Width(SplitRows(rows))
    ensures var col := ColumnOf(PaddedRows(SplitRows(rows)), p);
      LaidOut(rows)[r][p] == Spanned(col, r, |rows|) && LaidOut(rows)[r][p].text == col[r].text
  {
  }

  /** The text of a padded cell: blank in the padding, else the row's own part. */
  lemma PaddedText(split: seq<seq<LabelPart>>, r: nat, p: nat)
    requires r < |split| && p < Width(split)
    ensures var w := Width(split);
      && |split[r]| <= w
      && ColumnOf(PaddedRows(split), p)[r].text ==
           (if p < w - |split[r]| then "" else split[r][p - (w - |split[r]|)].text)
  {
    var w := Width(split);
    var padded := PaddedRows(split);
    assert ColumnOf(padded, p)[r] == padded[r][p];
    if |split[r]| < w {
      var blanks := Blanks(w - |split[r]|);
      assert padded[r] == blanks + split[r];
    }
  }

  lemma LaidOutSpansCoverColumns(rows: seq<ReportRow>, p: nat)
    requires p < Width(SplitRows(rows))
    ensures var laid := LaidOut(rows);
      FirstSpans(seq(|laid|, r requires 0 <= r < |laid| => laid[r][p])) == |rows|
  {
    var laid := LaidOut(rows);
    var col := ColumnOf(PaddedRows(SplitRows(rows)), p);
    assert seq(|laid|, r requires 0 <= r < |laid| => laid[r][p]) == Finished(col);
    SpansCoverColumn(col);
  }

  // ---------------------------------------------------------------------------
  // Query parameters.

  /** JavaScript's white space and line terminators, as `parseInt` skips them. */
  predicate IsJsSpace(c: char) {
    var n := c as int;
    || 0x09 <= n <= 0x0D || n == 0x20 || n == 0xA0 || n == 0x1680
    || 0x2000 <= n <= 0x200A || n == 0x2028 || n == 0x2029 || n == 0x202F
    || n == 0x205F || n == 0x3000 || n == 0xFEFF
  }

  function TrimStart(s: string): (t: string)
    ensures |t| <= |s| && (|t| > 0 ==> !IsJsSpace(t[0]))
    ensures |s| > 0 && !IsJsSpace(s[0]) ==> t == s
  {
    if |s| > 0 && IsJsSpace(s[0]) then TrimStart(s[1..]) else s
  }

  /** The longest prefix made of characters that pass `ok`. */
  function PrefixWhile(s: string, ok: char -> bool): (p: string)
    ensures |p| <= |s| && p == s[..|p|]
    ensures forall i :: 0 <= i < |p| ==> ok(p[i])
    ensures |p| < |s| ==> !ok(s[|p|])
  {
    if |s| > 0 && ok(s[0]) then [s[0]] + PrefixWhile(s[1..], ok) else ""
  }

  predicate IsHexDigit(c: char) {
    IsDigit(c) || 'a' <= c <= 'f' || 'A' <= c <= 'F'
  }

  /** The value of a hexadecimal digit character. */
  function HexDigitValue(c: char): (d: nat)
    requires IsHexDigit(c)
    ensures d < 16
  {
    if IsDigit(c) then c as int - '0' as int
    else if 'a' <= c <= 'f' then c as int - 'a' as int + 10
    else c as int - 'A' as int + 10
  }

  predicate IsRadixDigit(c: char, radix: nat) {
    IsHexDigit(c) && HexDigitValue(c) < radix
  }

  /** The value of a run of digits in the given radix. */
  function RadixValue(s: string, radix: nat): nat
    requires forall i :: 0 <= i < |s| ==> IsHexDigit(s[i])
  {
    if |s| == 0 then 0
    else radix * RadixValue(s[..|s| - 1], radix) + HexDigitValue(s[|s| - 1])
  }

  /** The longest run of decimal digits, or of hexadecimal digits after `0x`; none is NaN. */
  function ParseMagnitude(rest: string): Option<nat> {
    if |rest| >= 2 && rest[0] == '0' && (rest[1] == 'x' || rest[1] == 'X') then
      var digits := PrefixWhile(rest[2..], IsHexDigit);
      if |digits| == 0 then None else Some(RadixValue(digits, 16))
    else
      var digits := PrefixWhile(rest, IsDigit);
      if |digits| == 0 then None else Some(DigitsValue(digits))
  }

  /** An optional sign, then the magnitude. */
  function ParseSigned(t: string): Option<int> {
    var rest := if |t| > 0 && (t[0] == '-' || t[0] == '+') then t[1..] else t;
    match ParseMagnitude(rest)
    case None => None
    case Some(v) =>
      var k: int := v;
      if |t| > 0 && t[0] == '-' then Some(-k) else Some(k)
  }

  /** `parseInt(s)` with no radix: leading white space is skipped. */
  function JsParseInt(s: string): Option<int> {
    ParseSigned(TrimStart(s))
  }

  /** A JavaScript number as a comparison sees it: a real value, an infinity, or NaN. */
  datatype JsNumber = Real(r: real) | PlusInfinity | MinusInfinity | NaN

  function TrimEnd(s: string): (t: string)
    ensures |t| <= |s| && t == s[..|t|] && (|t| > 0 ==> !IsJsSpace(t[|t| - 1]))
    ensures |s| > 0 && !IsJsSpace(s[|s| - 1]) ==> t == s
  {
    if |s| > 0 && IsJsSpace(s[|s| - 1]) then TrimEnd(s[..|s| - 1]) else s
  }

  /** `m` times ten to the power `e`. */
  function Scale(m: real, e: int): real
    decreases if e >= 0 then e else -e
  {
    if e == 0 then m
    else if e > 0 then Scale(m * 10.0, e - 1)
    else Scale(m / 10.0, e + 1)
  }

  /** The `SignedInteger` of an exponent: an optional sign and one or more digits, with nothing after them. */
  function ParseExponent(t: string): Option<int> {
    var digits := if |t| > 0 && (t[0] == '+' || t[0] == '-') then t[1..] else t;
    if |digits| == 0 || PrefixWhile(digits, IsDigit) != digits then None
    else
      var v: int := DigitsValue(PrefixWhile(digits, IsDigit));
      if t[0] == '-' then Some(-v) else Some(v)
  }

  /**
    An unsigned decimal literal other than `Infinity`: digits with an
    optional fraction, or a fraction alone, then an optional exponent.
  */
  function ParseUnsignedDecimal(t: string): Option<real> {
    var whole := PrefixWhile(t, IsDigit);
    DecimalAfterWhole(whole, t[|whole|..])
  }

  /** After the whole digits: an optional point with fraction digits, then the exponent part. */
  function DecimalAfterWhole(whole: string, afterWhole: string): Option<real>
    requires forall i :: 0 <= i < |whole| ==> IsDigit(whole[i])
  {
    var hasPoint := |afterWhole| > 0 && afterWhole[0] == '.';
    var fraction := if hasPoint then PrefixWhile(afterWhole[1..], IsDigit) else "";
    var rest := if hasPoint then afterWhole[1 + |fraction|..] else afterWhole;
    DecimalWithExponent(whole, fraction, rest)
  }

  /** Nothing after the digits, or an exponent; at least one digit on either side of the point. */
  function DecimalWithExponent(whole: string, fraction: string, rest: string): Option<real>
    requires forall i :: 0 <= i < |whole| ==> IsDigit(whole[i])
    requires forall i :: 0 <= i < |fraction| ==> IsDigit(fraction[i])
  {
    var exponent :=
      if |rest| == 0 then Some(0)
      else if rest[0] == 'e' || rest[0] == 'E' then ParseExponent(rest[1..])
      else None;
    if |whole| + |fraction| == 0 || exponent.None? then None
    else
      var digits := whole + fraction;
      assert forall i :: 0 <= i < |digits| ==> IsDigit(digits[i]) by {
        assert forall i :: |whole| <= i < |digits| ==> digits[i] == fraction[i - |whole|];
      }
      Some(Scale(DigitsValue(digits) as real, exponent.value - |fraction|))
  }

  /** A decimal literal: an optional sign, then `Infinity` or an unsigned decimal; anything else is NaN. */
  function ParseDecimal(t: string): JsNumber {
    var negative := |t| > 0 && t[0] == '-';
    var body := if |t| > 0 && (t[0] == '+' || t[0] == '-') then t[1..] else t;
    SignedDecimal(negative, body)
  }

  /** `Infinity` or an unsigned decimal after a sign that has been read off. */
  function SignedDecimal(negative: bool, body: string): JsNumber {
    if body == "Infinity" then (if negative then MinusInfinity else PlusInfinity)
    else
      match ParseUnsignedDecimal(body)
      case None => NaN
      case Some(v) => Real(if negative then -v else v)
  }

  /** The radix a `0b`, `0o` or `0x` prefix announces, or 0 without one. */
  function PrefixRadix(t: string): nat {
    if |t| < 2 || t[0] != '0' then 0
    else if t[1] == 'b' || t[1] == 'B' then 2
    else if t[1] == 'o' || t[1] == 'O' then 8
    else if t[1] == 'x' || t[1] == 'X' then 16
    else 0
  }

  /**
    `ToNumber` of text: white space around it is ignored, blank text is
    zero, a radix prefix needs one or more digits of that radix and no sign,
    and whatever is not a numeric literal is NaN.
  */
  function StringToNumber(s: string): JsNumber {
    var t := TrimEnd(TrimStart(s));
    var radix := PrefixRadix(t);
    if |t| == 0 then Real(0.0)
    else if radix != 0 then
      var digits := t[2..];
      if |digits| > 0 && forall i :: 0 <= i < |digits| ==> IsRadixDigit(digits[i], radix)
      then Real(RadixValue(digits, radix) as real)
      else NaN
    else ParseDecimal(t)
  }

  /** `String(n)` for an integer. */
  function IntToString(n: int): string {
    if n < 0 then "-" + NatToString(-n) else NatToString(n)
  }

  lemma PrefixWhileAll(s: string, ok: char -> bool)
    requires forall i :: 0 <= i < |s| ==> ok(s[i])
    ensures PrefixWhile(s, ok) == s
  {
  }

  /** The digits of a number read back as that number. */
  lemma ParseMagnitudeOfDigits(n: nat)
    ensures ParseMagnitude(NatToString(n)) == Some(n)
  {
    var digits := NatToString(n);
    NatToStringRoundTrip(n);
    PrefixWhileAll(digits, IsDigit);
    assert !(|digits| >= 2 && digits[0] == '0');
  }

  /** `parseInt` reads back what `String` wrote. */
  lemma JsParseIntRoundTrip(n: int)
    ensures JsParseInt(IntToString(n)) == Some(n)
  {
    var s := IntToString(n);
    if n < 0 {
      ParseMagnitudeOfDigits(-n);
      assert s[1..] == NatToString(-n);
    } else {
      ParseMagnitudeOfDigits(n);
    }
    assert !IsJsSpace(s[0]);
    assert TrimStart(s) == s;
  }

  /** Plain digits are an unsigned decimal with their own value. */
  lemma UnsignedDecimalOfDigits(body: string)
    requires |body| > 0 && forall i :: 0 <= i < |body| ==> IsDigit(body[i])
    ensures ParseUnsignedDecimal(body) == Some(DigitsValue(body) as real)
  {
    PrefixWhileAll(body, IsDigit);
    assert body[|body|..] == "";
    assert DecimalAfterWhole(body, "") == DecimalWithExponent(body, "", "");
    assert body + "" == body;
  }

  lemma DigitsAreNotInfinity(body: string)
    requires |body| > 0 && forall i :: 0 <= i < |body| ==> IsDigit(body[i])
    ensures body != "Infinity"
  {
    assert IsDigit(body[0]);
  }

  /** Digits are a decimal literal with their value. */
  lemma DecimalOfDigits(body: string)
    requires |body| > 0 && forall i :: 0 <= i < |body| ==> IsDigit(body[i])
    ensures ParseDecimal(body) == Real(DigitsValue(body) as real)
  {
    assert body[0] != '-' && body[0] != '+';
    SignedDecimalOfDigits(false, body);
  }

  /** After a minus sign, digits are a decimal literal with their negated value. */
  lemma DecimalOfNegatedDigits(body: string)
    requires |body| > 0 && forall i :: 0 <= i < |body| ==> IsDigit(body[i])
    ensures ParseDecimal("-" + body) == Real(-(DigitsValue(body) as real))
  {
    ParseDecimalAfterMinus(body);
    SignedDecimalOfDigits(true, body);
  }

  lemma ParseDecimalAfterMinus(body: string)
    ensures ParseDecimal("-" + body) == SignedDecimal(true, body)
  {
    var t := "-" + body;
    assert t[0] == '-' && t[1..] == body;
  }

  lemma SignedDecimalOfDigits(negative: bool, body: string)
    requires |body| > 0 && forall i :: 0 <= i < |body| ==> IsDigit(body[i])
    ensures var v := DigitsValue(body) as real;
      SignedDecimal(negative, body) == Real(if negative then -v else v)
  {
    DigitsAreNotInfinity(body);
    UnsignedDecimalOfDigits(body);
    SignedDecimalOfValue(negative, body, DigitsValue(body) as real);
  }

  lemma SignedDecimalOfValue(negative: bool, body: string, v: real)
    requires body != "Infinity" && ParseUnsignedDecimal(body) == Some(v)
    ensures SignedDecimal(negative, body) == Real(if negative then -v else v)
  {
  }

  /** The text of an integer has no white space around it and no radix prefix. */
  lemma IntTextIsPlain(n: int)
    ensures var t := IntToString(n); |t| > 0 && TrimEnd(TrimStart(t)) == t && PrefixRadix(t) == 0
  {
    var t := IntToString(n);
    assert !IsJsSpace(t[0]) && TrimStart(t) == t;
    assert !IsJsSpace(t[|t| - 1]);
  }

  lemma PlainTextIsDecimal(t: string)
    requires |t| > 0 && TrimEnd(TrimStart(t)) == t && PrefixRadix(t) == 0
    ensures StringToNumber(t) == ParseDecimal(t)
  {
  }

  /** Text that `String` wrote for an integer converts back to that number. */
  lemma StringToNumberOfInt(n: int)
    ensures StringToNumber(IntToString(n)) == Real(n as real)
  {
    if n < 0 {
      var m: nat := -n;
      assert IntToString(n) == "-" + NatToString(m);
      StringToNumberOfNegative(m);
    } else {
      StringToNumberOfNat(n);
    }
  }

  lemma StringToNumberOfNat(n: nat)
    ensures StringToNumber(NatToString(n)) == Real(n as real)
  {
    var t := NatToString(n);
    IntTextIsPlain(n);
    NatToStringRoundTrip(n);
    calc {
      StringToNumber(t);
    == { PlainTextIsDecimal(t); }
      ParseDecimal(t);
    == { DecimalOfDigits(t); }
      Real(DigitsValue(t) as real);
    }
  }

  lemma StringToNumberOfNegative(m: nat)
    requires m > 0
    ensures StringToNumber("-" + NatToString(m)) == Real(-(m as real))
  {
    NatToStringRoundTrip(m);
    NegativeTextNumber(NatToString(m));
  }

  lemma NegativeTextNumber(digits: string)
    requires |digits| > 0 && forall i :: 0 <= i < |digits| ==> IsDigit(digits[i])
    ensures StringToNumber("-" + digits) == Real(-(DigitsValue(digits) as real))
  {
    NegativeTextIsPlain(digits);
    PlainTextIsDecimal("-" + digits);
    DecimalOfNegatedDigits(digits);
  }

  lemma NegativeTextIsPlain(digits: string)
    requires |digits| > 0 && forall i :: 0 <= i < |digits| ==> IsDigit(digits[i])
    ensures var t := "-" + digits; |t| > 0 && TrimEnd(TrimStart(t)) == t && PrefixRadix(t) == 0
  {
    var t := "-" + digits;
    assert t[0] == '-' && t[|t| - 1] == digits[|digits| - 1];
    assert !IsJsSpace(t[0]) && TrimStart(t) == t;
    assert !IsJsSpace(t[|t| - 1]);
  }

  /** With numeric bounds a milestone fits exactly when its revision lies in the closed range, or above the minimum when the maximum is "latest". */
  lemma FitsNumericRange(revision: int, lo: int, hi: int)
    ensures Fits(revision, RevNumber(lo), RevNumber(hi)) <==> lo <= revision <= hi
    ensures Fits(revision, RevNumber(lo), RevString("latest")) <==> lo <= revision
  {
  }

  /**
    Text that `parseInt` cannot read still compares as a number: with
    `minRev=600` and `maxRev=.5e3` the bounds are swapped, since 500 is
    below 600, and the first milestone from 500 to 600 is inferred.
  */
  lemma NumericTextBoundSwaps()
    ensures var o := NewStateOptionsFromQueryParams([("minRev", "600"), ("maxRev", ".5e3")], [(80, 450), (81, 550), (82, 650)]);
      && o.minRevision == Some(RevString(".5e3"))
      && o.maxRevision == Some(RevNumber(600))
      && o.milestone == Some(81)
  {
    var params := [("minRev", "600"), ("maxRev", ".5e3")];
    assert Get(params, "m") == None;
    MinRev600(params);
    MaxRevHalfThousand(params);
    HalfThousandBelow600();
    FirstFittingBetweenBounds();
  }

  lemma MinRev600(params: seq<(string, string)>)
    requires params == [("minRev", "600"), ("maxRev", ".5e3")]
    ensures RevisionParam(Get(params, "minRev")) == Some(RevNumber(600))
  {
    assert Get(params, "minRev") == Some("600");
    ParseInt600();
  }

  lemma MaxRevHalfThousand(params: seq<(string, string)>)
    requires params == [("minRev", "600"), ("maxRev", ".5e3")]
    ensures RevisionParam(Get(params, "maxRev")) == Some(RevString(".5e3"))
  {
    assert Get(params, "maxRev") == Some(".5e3");
    assert TrimStart(".5e3") == ".5e3";
    assert PrefixWhile(".5e3", IsDigit) == "";
  }

  lemma HalfThousandBelow600()
    ensures RevLess(RevString(".5e3"), RevNumber(600))
  {
    FivePointEThree();
  }

  lemma FirstFittingBetweenBounds()
    ensures FirstFitting([(80, 450), (81, 550), (82, 650)], RevString(".5e3"), RevNumber(600)) == Some(81)
  {
    FivePointEThree();
    var min := RevString(".5e3");
    var max := RevNumber(600);
    assert !Fits(450, min, max) && Fits(550, min, max);
    assert [(80, 450), (81, 550), (82, 650)][1..] == [(81, 550), (82, 650)];
  }

  lemma ParseInt600()
    ensures JsParseInt("600") == Some(600)
  {
    assert TrimStart("600") == "600";
    PrefixWhileAll("600", IsDigit);
    assert "600"[..2] == "60" && "60"[..1] == "6" && "6"[..0] == "";
  }

  lemma FivePointEThree()
    ensures StringToNumber(".5e3") == Real(500.0)
  {
    assert TrimStart(".5e3") == ".5e3" && TrimEnd(".5e3") == ".5e3";
    assert PrefixRadix(".5e3") == 0;
    UnsignedFivePointEThree();
    assert ".5e3" != "Infinity";
  }

  lemma UnsignedFivePointEThree()
    ensures ParseUnsignedDecimal(".5e3") == Some(500.0)
  {
    FivePointEThreeParts();
    FractionOfFivePointEThree();
    ExponentOfFivePointEThree();
  }

  /** `.5e3` has no whole part, the fraction `5` and the exponent text `3`. */
  lemma FivePointEThreeParts()
    ensures PrefixWhile(".5e3", IsDigit) == ""
    ensures ".5e3"[0..] == ".5e3" && ".5e3"[1..] == "5e3"
    ensures PrefixWhile("5e3", IsDigit) == "5"
    ensures ".5e3"[2..] == "e3" && "e3"[1..] == "3"
  {
    assert !IsDigit('.') && !IsDigit('e');
    assert "5e3"[1..] == "e3";
  }

  lemma FractionOfFivePointEThree()
    ensures DecimalAfterWhole("", ".5e3") == DecimalWithExponent("", "5", "e3")
  {
    FivePointEThreeParts();
  }

  lemma ExponentOfFivePointEThree()
    ensures DecimalWithExponent("", "5", "e3") == Some(500.0)
  {
    assert "e3"[1..] == "3";
    ExponentThree();
    assert "" + "5" == "5";
    FiveTimesHundred();
  }

  lemma ExponentThree()
    ensures ParseExponent("3") == Some(3)
  {
    PrefixWhileAll("3", IsDigit);
    assert "3"[..0] == "";
  }

  lemma FiveTimesHundred()
    ensures Scale(DigitsValue("5") as real, 2) == 500.0
  {
    assert "5"[..0] == "";
    assert Scale(50.0, 1) == 500.0;
  }

  /** `URLSearchParams.getAll`. */
  function GetAll(params: seq<(string, string)>, key: string): (values: seq<string>)
    ensures |values| <= |params|
  {
    if |params| == 0 then []
    else (if params[0].0 == key then [params[0].1] else []) + GetAll(params[1..], key)
  }

  /** `URLSearchParams.get`: the first value, or null. */
  function Get(params: seq<(string, string)>, key: string): Option<string> {
    if |params| == 0 then None
    else if params[0].0 == key then Some(params[0].1)
    else Get(params[1..], key)
  }

  /**
    `maybeInt(x) || undefined` on a query value: its integer when `parseInt`
    reads one, else the text itself; a missing value, zero or the empty text
    (all falsy) give nothing.
  */
  function RevisionParam(value: Option<string>): Option<Rev> {
    match value
    case None => None
    case Some(s) =>
      match JsParseInt(s)
      case Some(i) => if i == 0 then None else Some(RevNumber(i))
      case None => if s == "" then None else Some(RevString(s))
  }

  /** `ToNumber` of a revision. */
  function RevValue(r: Rev): JsNumber {
    match r
    case RevNumber(n) => Real(n as real)
    case RevString(s) => StringToNumber(s)
  }

  /** `a < b` on two numbers; false whenever either is NaN. */
  predicate NumberLess(a: JsNumber, b: JsNumber) {
    if a.NaN? || b.NaN? || a == b || a.PlusInfinity? || b.MinusInfinity? then false
    else if b.PlusInfinity? || a.MinusInfinity? then true
    else a.r < b.r
  }

  /** `a >= b` on two numbers: neither is NaN and `a < b` is false. */
  predicate NumberAtLeast(a: JsNumber, b: JsNumber) {
    !a.NaN? && !b.NaN? && !NumberLess(a, b)
  }

  /**
    JavaScript's `a < b` on two revisions: text against text compares code
    units; otherwise both sides are converted to numbers.
  */
  predicate RevLess(a: Rev, b: Rev) {
    if a.RevString? && b.RevString? then AtMost(a.s, b.s) && a.s != b.s
    else NumberLess(RevValue(a), RevValue(b))
  }

  lemma RevLessAsymmetric(a: Rev, b: Rev)
    ensures !(RevLess(a, b) && RevLess(b, a))
  {
    if a.RevString? && b.RevString? && RevLess(a, b) && RevLess(b, a) {
      AtMostAntisymmetric(a.s, b.s);
    }
  }

  /**
    A milestone fits the range when its revision is at least the minimum
    and, unless the maximum is "latest", at most the maximum; both tests
    compare numbers, so a bound whose value is NaN never fits.
  */
  predicate Fits(revision: int, min: Rev, max: Rev) {
    && NumberAtLeast(Real(revision as real), RevValue(min))
    && (max == RevString("latest") || NumberAtLeast(RevValue(max), Real(revision as real)))
  }

  predicate IsFirstFitting(milestones: seq<(int, int)>, i: nat, min: Rev, max: Rev)
    requires i < |milestones|
  {
    Fits(milestones[i].1, min, max) && forall j :: 0 <= j < i ==> !Fits(milestones[j].1, min, max)
  }

  /**
    The first milestone of the sequence whose revision fits the range. The
    sequence is `Object.entries` of the milestone table, which lists integer
    keys in ascending order.
  */
  function FirstFitting(milestones: seq<(int, int)>, min: Rev, max: Rev): (m: Option<int>)
    ensures m.None? ==> forall i :: 0 <= i < |milestones| ==> !Fits(milestones[i].1, min, max)
    ensures m.Some? ==> exists i :: 0 <= i < |milestones| && IsFirstFitting(milestones, i, min, max) && milestones[i].0 == m.value
  {
    if |milestones| == 0 then None
    else if Fits(milestones[0].1, min, max) then Some(milestones[0].0)
    else
      var m := FirstFitting(milestones[1..], min, max);
      if m.Some? then
        var i :| 0 <= i < |milestones[1..]| && IsFirstFitting(milestones[1..], i, min, max) && milestones[1..][i].0 == m.value;
        assert IsFirstFitting(milestones, i + 1, min, max);
        m
      else m
  }

  /** Milestone numbers strictly ascending, as `Object.entries` lists integer keys. */
  predicate AscendingMilestones(milestones: seq<(int, int)>) {
    forall i, j :: 0 <= i < j < |milestones| ==> milestones[i].0 < milestones[j].0
  }

  /**
    With the table in `Object.entries` order the inferred milestone is the
    lowest-numbered one whose revision fits, and there is none exactly when
    no milestone fits.
  */
  lemma FirstFittingIsLeast(milestones: seq<(int, int)>, min: Rev, max: Rev)
    requires AscendingMilestones(milestones)
    ensures var m := FirstFitting(milestones, min, max);
      && (m.None? <==> forall i :: 0 <= i < |milestones| ==> !Fits(milestones[i].1, min, max))
      && (m.Some? ==> exists i :: 0 <= i < |milestones| && milestones[i].0 == m.value && Fits(milestones[i].1, min, max))
      && (m.Some? ==> forall i :: 0 <= i < |milestones| && Fits(milestones[i].1, min, max) ==> m.value <= milestones[i].0)
  {
    var m := FirstFitting(milestones, min, max);
    if m.Some? {
      var k :| 0 <= k < |milestones| && IsFirstFitting(milestones, k, min, max) && milestones[k].0 == m.value;
      forall i | 0 <= i < |milestones| && Fits(milestones[i].1, min, max)
        ensures m.value <= milestones[i].0
      {
        if k < i {
          assert milestones[k].0 < milestones[i].0;
        }
      }
    }
  }

  /**
    `newStateOptionsFromQueryParams`: the selected reports, the milestone,
    and the revision range with its ends swapped when inverted; a milestone
    is inferred from the range only when none was given.
  */
  function NewStateOptionsFromQueryParams(params: seq<(string, string)>, milestones: seq<(int, int)>): StateOptions {
    var m := match Get(params, "m") case None => None case Some(s) => JsParseInt(s);
    var milestone := if m.Some? && m.value != 0 then m else None;
    var min0 := RevisionParam(Get(params, "minRev"));
    var max0 := RevisionParam(Get(params, "maxRev"));
    var swap := min0.Some? && max0.Some? && RevLess(max0.value, min0.value);
    var min := if swap then max0 else min0;
    var max := if swap then min0 else max0;
    var inferred := if milestone.None? && min.Some? && max.Some? then FirstFitting(milestones, min.value, max.value) else milestone;
    StateOptions(GetAll(params, "report"), inferred, min, max)
  }

  /** The options never hold a maximum below the minimum. */
  lemma OptionsNeverInverted(params: seq<(string, string)>, milestones: seq<(int, int)>)
    ensures var o := NewStateOptionsFromQueryParams(params, milestones);
      o.minRevision.Some? && o.maxRevision.Some? ==> !RevLess(o.maxRevision.value, o.minRevision.value)
  {
    var min0 := RevisionParam(Get(params, "minRev"));
    var max0 := RevisionParam(Get(params, "maxRev"));
    if min0.Some? && max0.Some? {
      RevLessAsymmetric(min0.value, max0.value);
    }
  }

  /** A milestone given in the query is kept; one is inferred only without it. */
  lemma MilestoneInferredOnlyWhenAbsent(params: seq<(string, string)>, milestones: seq<(int, int)>, given: string)
    requires Get(params, "m") == Some(given) && JsParseInt(given).Some? && JsParseInt(given).value != 0
    ensures NewStateOptionsFromQueryParams(params, milestones).milestone == JsParseInt(given)
  {
  }

  /** The selected options other than the create option, in order. */
  function Without(options: seq<string>, create: string): (r: seq<string>)
    ensures forall o :: o in r <==> o in options && o != create
  {
    if |options| == 0 then []
    else (if options[0] == create then [] else [options[0]]) + Without(options[1..], create)
  }

  /** `String(v)` for a revision, `"undefined"` when absent. */
  function RevText(v: Option<Rev>): string {
    match v
    case None => "undefined"
    case Some(RevNumber(n)) => IntToString(n)
    case Some(RevString(s)) => s
  }

  /** One `report` parameter per name, in order. */
  function ReportParams(names: seq<string>): (params: seq<(string, string)>)
    ensures |params| == |names|
  {
    if |names| == 0 then [] else [("report", names[0])] + ReportParams(names[1..])
  }

  predicate IsDefaultSelection(state: SectionState, defaultName: string) {
    state.containsDefaultSection && state.selectedOptions == [defaultName]
  }

  /**
    `getRouteParams`: nothing for the default section showing just the
    default report; otherwise a `report` per selected option except the
    create option, then the revision range.
  */
  function GetRouteParams(state: SectionState, create: string, defaultName: string): (params: seq<(string, string)>)
    ensures IsDefaultSelection(state, defaultName) ==> params == []
    ensures !IsDefaultSelection(state, defaultName) ==>
      |params| >= 2 && params[|params| - 2] == ("minRev", RevText(state.minRevision))
      && params[|params| - 1] == ("maxRev", RevText(state.maxRevision))
  {
    if IsDefaultSelection(state, defaultName) then []
    else
      ReportParams(Without(state.selectedOptions, create))
      + [("minRev", RevText(state.minRevision)), ("maxRev", RevText(state.maxRevision))]
  }

  lemma {:induction false} GetAllReports(names: seq<string>, tail: seq<(string, string)>)
    requires forall i :: 0 <= i < |tail| ==> tail[i].0 != "report"
    ensures GetAll(ReportParams(names) + tail, "report") == names
    decreases |names|
  {
    if |names| == 0 {
      GetAllNone(tail, "report");
      assert ReportParams(names) + tail == tail;
    } else {
      var rest := ReportParams(names[1..]) + tail;
      ReportParamsCons(names, tail);
      GetAllReports(names[1..], tail);
      GetAllOfMatch(("report", names[0]), rest);
      assert names == [names[0]] + names[1..];
    }
  }

  lemma ReportParamsCons(names: seq<string>, tail: seq<(string, string)>)
    requires |names| > 0
    ensures ReportParams(names) + tail == [("report", names[0])] + (ReportParams(names[1..]) + tail)
  {
  }

  lemma GetAllOfMatch(p: (string, string), rest: seq<(string, string)>)
    ensures GetAll([p] + rest, p.0) == [p.1] + GetAll(rest, p.0)
  {
    assert ([p] + rest)[1..] == rest;
  }

  lemma {:induction false} GetAllNone(params: seq<(string, string)>, key: string)
    requires forall i :: 0 <= i < |params| ==> params[i].0 != key
    ensures GetAll(params, key) == []
    decreases |params|
  {
    if |params| > 0 {
      GetAllNone(params[1..], key);
    }
  }

  lemma {:induction false} GetAfterReports(names: seq<string>, tail: seq<(string, string)>, key: string)
    requires key != "report"
    ensures Get(ReportParams(names) + tail, key) == Get(tail, key)
    decreases |names|
  {
    if |names| > 0 {
      GetAfterReports(names[1..], tail, key);
      assert (ReportParams(names) + tail)[1..] == ReportParams(names[1..]) + tail;
    } else {
      assert ReportParams(names) + tail == tail;
    }
  }

  /** A nonzero number written by `String` is read back as that revision. */
  lemma RevisionParamOfNumber(n: int)
    requires n != 0
    ensures RevisionParam(Some(IntToString(n))) == Some(RevNumber(n))
  {
    JsParseIntRoundTrip(n);
  }

  /**
    Reading back the route parameters of a section with a numeric, ordered,
    nonzero revision range gives its selection (less the create option) and
    the same range; the milestone is then inferred from the range.
  */
  lemma RouteParamsRoundTrip(state: SectionState, create: string, defaultName: string, milestones: seq<(int, int)>)
    requires !IsDefaultSelection(state, defaultName)
    requires state.minRevision.Some? && state.minRevision.value.RevNumber? && state.minRevision.value.n != 0
    requires state.maxRevision.Some? && state.maxRevision.value.RevNumber? && state.maxRevision.value.n != 0
    requires state.minRevision.value.n <= state.maxRevision.value.n
    ensures var o := NewStateOptionsFromQueryParams(GetRouteParams(state, create, defaultName), milestones);
      && o.sources == Without(state.selectedOptions, create)
      && o.minRevision == state.minRevision
      && o.maxRevision == state.maxRevision
      && o.milestone == FirstFitting(milestones, state.minRevision.value, state.maxRevision.value)
  {
    var names := Without(state.selectedOptions, create);
    var min := state.minRevision.value;
    var max := state.maxRevision.value;
    var tail := [("minRev", IntToString(min.n)), ("maxRev", IntToString(max.n))];
    var params := GetRouteParams(state, create, defaultName);
    assert params == ReportParams(names) + tail;
    GetAllReports(names, tail);
    GetAfterReports(names, tail, "minRev");
    GetAfterReports(names, tail, "maxRev");
    GetAfterReports(names, tail, "m");
    assert "minRev" != "m" && "maxRev" != "m" by {
      assert |"m"| == 1;
    }
    assert Get(tail[1..], "m") == Get([], "m");
    assert Get(params, "m") == None;
    assert Get(params, "minRev") == Some(IntToString(min.n));
    assert Get(params, "maxRev") == Some(IntToString(max.n));
    RevisionParamOfNumber(min.n);
    RevisionParamOfNumber(max.n);
    assert !RevLess(max, min);
  }
}
