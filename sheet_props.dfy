/**
 * What the sheet `Table.save` lays out says about the table it came from
 * (table.py): when the contiguity assertion fails, and that every cell set
 * in a row lands in exactly one column of that row.
 */
module SheetProperties {
  import opened Values
  import opened TableModel
  import opened SavePasses
  import opened Rendering
  import opened ReportTable
  import SaveProperties
  import Sorting

  // ---------------------------------------------------------------------------
  // The contiguity assertion

  /** The groups `save` leaves behind. */
  function GroupsAfterSave(s: TableState, gf: seq<string>, cf: seq<string>): Groups
    requires WellFormed(s)
  {
    var sorted := Bodies(SortedRows(s));
    PassRows(sorted, |sorted|, s.groups, gf, cf).groups
  }

  /**
   * `save` fails its assertion exactly when some recorded group skips a row
   * between its first and last member; otherwise it lays out the outline of
   * every group of more than one row.
   */
  lemma SaveFailsOnGap(s: TableState, title: string, gf: seq<string>, cf: seq<string>)
    requires WellFormed(s)
    ensures var g := GroupsAfterSave(s, gf, cf);
      var out := SaveOutcome(s, title, gf, cf);
      && out.0 == g
      && GroupsNonEmpty(g)
      && (out.1.Err? <==> exists level, v, x :: level in g && v in g[level]
                                && SetMin(g[level][v]) <= x <= SetMax(g[level][v]) && x !in g[level][v])
      && (out.1.Err? ==> out.1.error == AssertionError)
      && (out.1.Ok? ==> out.1.value.outlines == Outlines(g))
  {
    var sorted := Bodies(SortedRows(s));
    SaveProperties.PassGroupsNonEmpty(sorted, |sorted|, s.groups, gf, cf);
    var g := GroupsAfterSave(s, gf, cf);
    forall level, v | level in g && v in g[level]
      ensures IsRun(g[level][v]) <==> forall x :: SetMin(g[level][v]) <= x <= SetMax(g[level][v]) ==> x in g[level][v]
    {
      RunIsGapless(g[level][v]);
    }
  }

  /**
   * The outline of a contiguous group covers every member but the first:
   * rows `min + 1 .. max`, all of them in the group.
   */
  lemma OutlineCoversGroup(g: Groups, level: int, v: Value)
    requires GroupsNonEmpty(g) && AllRuns(g) && level in g && v in g[level] && |g[level][v]| > 1
    ensures var o := OutlineOf(g, level, v);
      && o in Outlines(g)
      && o.first - 1 in g[level][v]
      && (forall x :: o.first <= x <= o.last ==> x in g[level][v])
      && (forall x :: x in g[level][v] ==> o.first - 1 <= x <= o.last)
      && o.first <= o.last
      && (o.hidden <==> level == 3)
  {
    RunIsGapless(g[level][v]);
    assert (level, v) in Pairs(g);
  }

  // ---------------------------------------------------------------------------
  // Every cell is shown once

  /** The header row names each title once: the sort neither loses nor repeats a column. */
  lemma HeaderTitlesDistinct(s: TableState)
    requires WellFormed(s)
    ensures var hs := SortedHeaders(s);
      forall i, j :: 0 <= i < j < |hs| ==> hs[i].title != hs[j].title
  {
    var hl := HeaderList(s);
    var hs := SortedHeaders(s);
    Sorting.SortByIsPermutation(hl, HeaderScore);
    forall i, j | 0 <= i < j < |hl|
      ensures hl[i] != hl[j]
    {
      assert hl[i].title == s.headerTitles[i] && hl[j].title == s.headerTitles[j];
    }
    forall i, j | 0 <= i < j < |hs|
      ensures hs[i].title != hs[j].title
    {
      assert hs[i] in multiset(hl) && hs[j] in multiset(hl);
      var a :| 0 <= a < |hl| && hl[a] == hs[i];
      var b :| 0 <= b < |hl| && hl[b] == hs[j];
      if hs[i].title == hs[j].title {
        assert s.headerTitles[a] == s.headerTitles[b];
        assert a == b;
        TwiceInMultiset(hs, i, j);
        AtMostOnce(hl, hs[i]);
        assert false;
      }
    }
  }

  /** A title set in some row has a column in the header row. */
  lemma TitleHasColumn(s: TableState, t: string)
    requires WellFormed(s) && t in s.headers
    ensures exists k :: 0 <= k < |SortedHeaders(s)| && SortedHeaders(s)[k].title == t
  {
    var hl := HeaderList(s);
    var hs := SortedHeaders(s);
    Sorting.SortByIsPermutation(hl, HeaderScore);
    var a :| 0 <= a < |s.headerTitles| && s.headerTitles[a] == t;
    assert hl[a] in multiset(hs);
    var k :| 0 <= k < |hs| && hs[k] == hl[a];
    assert hs[k].title == t;
  }

  /**
   * Cleanup blanks title `t` in sorted row `i`: `t` is the cleanup field of
   * a level above the row's first change of label, and carries a label.
   */
  ghost predicate Blanked(s: TableState, gf: seq<string>, cf: seq<string>, i: nat, t: string)
    requires i < |SortedRows(s)|
  {
    var rows := Bodies(SortedRows(s));
    var cells := ParityRow(rows[i], i);
    var running := PassRows(rows, i, s.groups, gf, cf).running;
    exists j :: 0 <= j < SaveProperties.FirstChange(cells, running, cf, 0) && cf[j] == t && SaveProperties.Label(cells, t) != VNone
  }

  /**
   * In a saved sheet, every title set in sorted row `i` has exactly one
   * column, and that column of row `i` shows the cell: its processed value,
   * exactly, for a title outside the cleanup fields; for a cleanup field
   * (the fields distinct) the empty string when cleanup blanked the label,
   * otherwise the processed value.
   */
  lemma SheetShowsEveryCell(s: TableState, title: string, gf: seq<string>, cf: seq<string>, i: nat, t: string)
    requires WellFormed(s) && SaveOutcome(s, title, gf, cf).1.Ok?
    requires i < |SortedRows(s)| && t in SortedRows(s)[i].cells
    ensures var sh := SaveOutcome(s, title, gf, cf).1.value;
      && |sh.body| == |SortedRows(s)|
      && (forall k, k' :: 0 <= k < k' < |sh.headers| ==> sh.headers[k].title != sh.headers[k'].title)
      && (exists k :: 0 <= k < |sh.headers| && sh.headers[k].title == t
            && |sh.body[i]| == |sh.headers| && sh.body[i][k].Some?
            && (t !in cf ==> sh.body[i][k].value.value == ProcessValue(SortedRows(s)[i].cells[t].value))
            && (NoDup(cf) ==> sh.body[i][k].value.value
                              == if Blanked(s, gf, cf, i, t) then VStr("") else ProcessValue(SortedRows(s)[i].cells[t].value)))
  {
    var sh := SaveOutcome(s, title, gf, cf).1.value;
    var rs := SortedRows(s);
    HeaderTitlesDistinct(s);
    Sorting.SortByIsPermutation(s.rows, RowKey);
    assert rs[i] in multiset(s.rows);
    var a :| 0 <= a < |s.rows| && s.rows[a] == rs[i];
    assert t in s.headers;
    TitleHasColumn(s, t);
    var k :| 0 <= k < |sh.headers| && sh.headers[k].title == t;
    ColumnShowsCell(s, title, gf, cf, i, t, k);
  }

  /**
   * Column `k`, titled `t`, of sorted row `i` shows the cell of `t` in that
   * row: its processed value, or the empty string exactly where cleanup
   * blanked it.
   */
  lemma ColumnShowsCell(s: TableState, title: string, gf: seq<string>, cf: seq<string>, i: nat, t: string, k: nat)
    requires WellFormed(s) && SaveOutcome(s, title, gf, cf).1.Ok?
    requires i < |SortedRows(s)| && t in SortedRows(s)[i].cells
    requires var sh := SaveOutcome(s, title, gf, cf).1.value;
      k < |sh.headers| && sh.headers[k].title == t
    ensures var sh := SaveOutcome(s, title, gf, cf).1.value;
      && |sh.body| == |SortedRows(s)|
      && |sh.body[i]| == |sh.headers| && sh.body[i][k].Some?
      && sh.body[i][k].value.value in {ProcessValue(SortedRows(s)[i].cells[t].value), VStr("")}
      && (t !in cf ==> sh.body[i][k].value.value == ProcessValue(SortedRows(s)[i].cells[t].value))
      && (NoDup(cf) ==> sh.body[i][k].value.value
                        == if Blanked(s, gf, cf, i, t) then VStr("") else ProcessValue(SortedRows(s)[i].cells[t].value))
  {
    var sh := SaveOutcome(s, title, gf, cf).1.value;
    var sorted := Bodies(SortedRows(s));
    var pass := PassRows(sorted, |sorted|, s.groups, gf, cf);
    var cells := ParityRow(sorted[i], i);
    var running := PassRows(sorted, i, s.groups, gf, cf).running;
    SaveProperties.PassRowAt(sorted, |sorted|, s.groups, gf, cf, i);
    SaveProperties.CleanupKeepsOptions(cells, running, cf, |cf|);
    assert t in pass.rows[i];
    assert sh.body[i] == ProcessedRow(pass.rows[i], sh.headers);
    assert cells[t].value == SortedRows(s)[i].cells[t].value;
    if NoDup(cf) {
      SaveProperties.CleanupRowEffect(cells, running, cf);
      var d := SaveProperties.FirstChange(cells, running, cf, 0);
      if Blanked(s, gf, cf, i, t) {
        var j :| 0 <= j < d && cf[j] == t && SaveProperties.Label(cells, t) != VNone;
        assert pass.rows[i][t] == SaveProperties.Blank(cells[t]);
      } else if t in cf {
        var j :| 0 <= j < |cf| && cf[j] == t;
        assert pass.rows[i][t] == cells[t];
      }
    }
  }
}
