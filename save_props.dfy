/**
 * What the first loop of `Table.save` (table.py) guarantees about the
 * sorted rows: how parity is resolved, which rows end up in which outline
 * group, and which labels the hierarchical cleanup blanks.
 */
module SaveProperties {
  import opened Values
  import opened TableModel
  import opened SavePasses

  // ---------------------------------------------------------------------------
  // Row by row

  /** A row, once passed, is not touched by the rows after it. */
  lemma {:induction false} PassRowsPrefix(rows: seq<Cells>, n: nat, g: Groups, gf: seq<string>, cf: seq<string>, m: nat)
    requires m <= n <= |rows|
    ensures PassRows(rows, n, g, gf, cf).rows[..m] == PassRows(rows, m, g, gf, cf).rows
    decreases n
  {
    if n > m {
      PassRowsPrefix(rows, n - 1, g, gf, cf, m);
      var prev := PassRows(rows, n - 1, g, gf, cf);
      var next := PassRows(rows, n, g, gf, cf);
      assert next.rows[..n - 1] == prev.rows;
      assert next.rows[..m] == prev.rows[..m];
    }
  }

  /** Sorted row `i` as the pass leaves it: parity resolved, then cleaned up against the labels of rows `0..i-1`. */
  lemma PassRowAt(rows: seq<Cells>, n: nat, g: Groups, gf: seq<string>, cf: seq<string>, i: nat)
    requires i < n <= |rows|
    ensures PassRows(rows, n, g, gf, cf).rows[i]
         == CleanupLevels(ParityRow(rows[i], i), PassRows(rows, i, g, gf, cf).running, cf, |cf|).0
  {
    PassRowsPrefix(rows, n, g, gf, cf, i + 1);
    assert PassRows(rows, n, g, gf, cf).rows[i] == PassRows(rows, n, g, gf, cf).rows[..i + 1][i];
  }

  /** Cleanup only ever replaces a value by the empty string, and only of a cleanup field; keys and options stay. */
  lemma {:induction false} CleanupKeepsOptions(cells: Cells, running: seq<Value>, fields: seq<string>, n: nat)
    requires n <= |fields| == |running|
    ensures var c := CleanupLevels(cells, running, fields, n).0;
      && c.Keys == cells.Keys
      && (forall t :: t in cells && t !in fields ==> c[t] == cells[t])
      && forall t :: t in cells ==>
           c[t].options == cells[t].options && (c[t].value == cells[t].value || c[t].value == VStr(""))
  {
    if n > 0 {
      CleanupKeepsOptions(cells, running, fields, n - 1);
    }
  }

  // ---------------------------------------------------------------------------
  // Parity

  /**
   * Every cell whose `parity` option is truthy ends with `parity == i % 2`
   * for its sorted row index `i`; the options of every other cell are untouched.
   */
  lemma SaveResolvesParity(rows: seq<Cells>, n: nat, g: Groups, gf: seq<string>, cf: seq<string>, i: nat, t: string)
    requires i < n <= |rows| && t in rows[i]
    ensures var out := PassRows(rows, n, g, gf, cf).rows[i];
      var opts := rows[i][t].options;
      && t in out
      && out[t].options == if "parity" in opts && Truthy(opts["parity"]) then opts["parity" := VInt(i % 2)] else opts
  {
    PassRowAt(rows, n, g, gf, cf, i);
    CleanupKeepsOptions(ParityRow(rows[i], i), PassRows(rows, i, g, gf, cf).running, cf, |cf|);
  }

  // ---------------------------------------------------------------------------
  // Grouping

  lemma {:induction false} GroupLevelsMembers(g: Groups, fields: seq<string>, n: nat, cells: Cells, i: nat,
                                              level: int, v: Value, x: int)
    requires n <= |fields|
    ensures InGroup(GroupLevels(g, fields, n, cells, i), level, v, x) <==>
      || InGroup(g, level, v, x)
      || (x == i + 2 && 1 <= level <= n && fields[level - 1] in cells
          && cells[fields[level - 1]].value == v && Truthy(v))
  {
    if n > 0 {
      GroupLevelsMembers(g, fields, n - 1, cells, i, level, v, x);
      var f := fields[n - 1];
      if f in cells && Truthy(cells[f].value) {
        GroupAddsOneMember(GroupLevels(g, fields, n - 1, cells, i), i + 2, n, cells[f].value);
      }
    }
  }

  /**
   * After the first `n` sorted rows, sheet row `x` is in the group of value
   * `v` at level `level` exactly when it already was, or it is row `x - 2`
   * and group field number `level - 1` holds the truthy value `v` there,
   * read before that row's cleanup.
   */
  lemma {:induction false} SaveRecordsGroups(rows: seq<Cells>, n: nat, g: Groups, gf: seq<string>, cf: seq<string>,
                                             level: int, v: Value, x: int)
    requires n <= |rows|
    ensures InGroup(PassRows(rows, n, g, gf, cf).groups, level, v, x) <==>
      || InGroup(g, level, v, x)
      || (2 <= x < n + 2 && 1 <= level <= |gf| && gf[level - 1] in rows[x - 2]
          && rows[x - 2][gf[level - 1]].value == v && Truthy(v))
  {
    if n > 0 {
      SaveRecordsGroups(rows, n - 1, g, gf, cf, level, v, x);
      var prev := PassRows(rows, n - 1, g, gf, cf);
      var c := ParityRow(rows[n - 1], n - 1);
      GroupLevelsMembers(prev.groups, gf, |gf|, c, n - 1, level, v, x);
    }
  }

  lemma {:induction false} GroupLevelsNonEmpty(g: Groups, fields: seq<string>, n: nat, cells: Cells, i: nat)
    requires n <= |fields| && GroupsNonEmpty(g)
    ensures GroupsNonEmpty(GroupLevels(g, fields, n, cells, i))
  {
    if n > 0 {
      GroupLevelsNonEmpty(g, fields, n - 1, cells, i);
      var f := fields[n - 1];
      if f in cells && Truthy(cells[f].value) {
        GroupKeepsNonEmpty(GroupLevels(g, fields, n - 1, cells, i), i + 2, n, cells[f].value);
      }
    }
  }

  /** The pass never records an empty group, so `min` and `max` of every group are defined. */
  lemma {:induction false} PassGroupsNonEmpty(rows: seq<Cells>, n: nat, g: Groups, gf: seq<string>, cf: seq<string>)
    requires n <= |rows| && GroupsNonEmpty(g)
    ensures GroupsNonEmpty(PassRows(rows, n, g, gf, cf).groups)
  {
    if n > 0 {
      PassGroupsNonEmpty(rows, n - 1, g, gf, cf);
      GroupLevelsNonEmpty(PassRows(rows, n - 1, g, gf, cf).groups, gf, |gf|, ParityRow(rows[n - 1], n - 1), n - 1);
    }
  }

  // ---------------------------------------------------------------------------
  // Cleanup

  /** The label a cleanup field carries in a row: its value when truthy, otherwise None. */
  function Label(cells: Cells, f: string): (l: Value)
    ensures l != VNone <==> f in cells && Truthy(cells[f].value)
  {
    if f in cells && Truthy(cells[f].value) then cells[f].value else VNone
  }

  /** The first level from `j` on whose label is present and differs from the running one. */
  function FirstChange(cells: Cells, running: seq<Value>, fields: seq<string>, j: nat): (d: nat)
    requires |running| == |fields| && j <= |fields|
    ensures j <= d <= |fields|
    ensures forall k :: j <= k < d ==> Label(cells, fields[k]) == VNone || Label(cells, fields[k]) == running[k]
    ensures d < |fields| ==> Label(cells, fields[d]) != VNone && Label(cells, fields[d]) != running[d]
    decreases |fields| - j
  {
    if j == |fields| then j
    else if Label(cells, fields[j]) != VNone && Label(cells, fields[j]) != running[j] then j
    else FirstChange(cells, running, fields, j + 1)
  }

  /** The running labels after `n` fields of a row whose first change is at level `d`. */
  function RunningAfter(cells: Cells, running: seq<Value>, fields: seq<string>, d: nat, n: nat): (r: seq<Value>)
    requires |running| == |fields|
    ensures |r| == |fields|
  {
    seq(|fields|, j requires 0 <= j < |fields| =>
      if n <= d || j < d then running[j] else if j < n then Label(cells, fields[j]) else VNone)
  }

  function Blank(c: Cell): Cell {
    c.(value := VStr(""))
  }

  /**
   * What cleanup has done after the first `n` fields of a row, with `d` its
   * first change: keys and other fields kept, labels of levels below both
   * `n` and `d` blanked, the running labels as `RunningAfter` says.
   */
  ghost predicate CleanedUpTo(cells: Cells, running: seq<Value>, fields: seq<string>, n: nat, r: (Cells, seq<Value>))
    requires |running| == |fields| && n <= |fields|
  {
    var d := FirstChange(cells, running, fields, 0);
    && r.0.Keys == cells.Keys
    && (forall t :: t in cells && t !in fields ==> r.0[t] == cells[t])
    && (forall j :: 0 <= j < |fields| && fields[j] in cells ==>
          r.0[fields[j]] == if j < n && j < d && Label(cells, fields[j]) != VNone then Blank(cells[fields[j]]) else cells[fields[j]])
    && r.1 == RunningAfter(cells, running, fields, d, n)
  }

  lemma {:induction false} CleanupPrefix(cells: Cells, running: seq<Value>, fields: seq<string>, n: nat)
    requires NoDup(fields) && |running| == |fields| && n <= |fields|
    ensures CleanedUpTo(cells, running, fields, n, CleanupLevels(cells, running, fields, n))
  {
    var d := FirstChange(cells, running, fields, 0);
    if n == 0 {
      assert RunningAfter(cells, running, fields, d, 0) == running;
    } else {
      CleanupPrefix(cells, running, fields, n - 1);
      var r := CleanupLevels(cells, running, fields, n - 1);
      var f := fields[n - 1];
      if f in r.0 && Truthy(r.0[f].value) {
        if r.1[n - 1] != r.0[f].value {
          CleanupShowStep(cells, running, fields, n, r);
        } else {
          CleanupBlankStep(cells, running, fields, n, r);
        }
      } else {
        CleanupSkipStep(cells, running, fields, n, r);
      }
    }
  }

  /** Field `n - 1` changes the label: it is shown and resets the finer running labels. */
  lemma CleanupShowStep(cells: Cells, running: seq<Value>, fields: seq<string>, n: nat, r: (Cells, seq<Value>))
    requires NoDup(fields) && |running| == |fields| && 0 < n <= |fields|
    requires CleanedUpTo(cells, running, fields, n - 1, r)
    requires var f := fields[n - 1]; f in r.0 && Truthy(r.0[f].value) && r.1[n - 1] != r.0[f].value
    ensures var f := fields[n - 1];
      CleanedUpTo(cells, running, fields, n, (r.0, Reset(r.1[n - 1 := r.0[f].value], n)))
  {
    var d := FirstChange(cells, running, fields, 0);
    var j := n - 1;
    var f := fields[j];
    assert r.0[f] == cells[f];
    assert Label(cells, f) == r.0[f].value;
    assert j >= d;
    var want := RunningAfter(cells, running, fields, d, n);
    var got := Reset(r.1[j := r.0[f].value], n);
    forall k | 0 <= k < |fields|
      ensures got[k] == want[k]
    {
    }
    assert got == want;
  }

  /** Field `n - 1` repeats the running label: it is blanked. */
  lemma CleanupBlankStep(cells: Cells, running: seq<Value>, fields: seq<string>, n: nat, r: (Cells, seq<Value>))
    requires NoDup(fields) && |running| == |fields| && 0 < n <= |fields|
    requires CleanedUpTo(cells, running, fields, n - 1, r)
    requires var f := fields[n - 1]; f in r.0 && Truthy(r.0[f].value) && r.1[n - 1] == r.0[f].value
    ensures var f := fields[n - 1];
      CleanedUpTo(cells, running, fields, n, (r.0[f := Blank(r.0[f])], r.1))
  {
    var d := FirstChange(cells, running, fields, 0);
    var j := n - 1;
    var f := fields[j];
    assert r.0[f] == cells[f];
    assert Label(cells, f) == r.0[f].value;
    assert j < d;
    var c' := r.0[f := Blank(r.0[f])];
    forall k | 0 <= k < |fields| && fields[k] in cells
      ensures c'[fields[k]] == if k < n && k < d && Label(cells, fields[k]) != VNone then Blank(cells[fields[k]]) else cells[fields[k]]
    {
      if k != j {
        assert fields[k] != f;
      }
    }
    assert r.1 == RunningAfter(cells, running, fields, d, n);
  }

  /** Field `n - 1` carries no label: nothing changes. */
  lemma CleanupSkipStep(cells: Cells, running: seq<Value>, fields: seq<string>, n: nat, r: (Cells, seq<Value>))
    requires NoDup(fields) && |running| == |fields| && 0 < n <= |fields|
    requires CleanedUpTo(cells, running, fields, n - 1, r)
    requires var f := fields[n - 1]; !(f in r.0 && Truthy(r.0[f].value))
    ensures CleanedUpTo(cells, running, fields, n, r)
  {
    var d := FirstChange(cells, running, fields, 0);
    var f := fields[n - 1];
    assert f in r.0 ==> r.0[f] == cells[f];
    assert Label(cells, f) == VNone;
    assert r.1 == RunningAfter(cells, running, fields, d, n);
  }

  /**
   * The effect of cleanup on one row (cleanup fields distinct): with `d` the
   * first level whose label is present and differs from the running label,
   * every present label above `d` is blanked and the running labels there
   * stay; from `d` on every label is shown and becomes the running label,
   * absent ones resetting it to None. Fields outside the cleanup list are untouched.
   */
  lemma CleanupRowEffect(cells: Cells, running: seq<Value>, fields: seq<string>)
    requires NoDup(fields) && |running| == |fields|
    ensures var r := CleanupLevels(cells, running, fields, |fields|);
      var d := FirstChange(cells, running, fields, 0);
      && r.0.Keys == cells.Keys
      && (forall t :: t in cells && t !in fields ==> r.0[t] == cells[t])
      && (forall j :: 0 <= j < d ==>
            && r.1[j] == running[j]
            && (fields[j] in cells ==>
                  r.0[fields[j]] == if Label(cells, fields[j]) != VNone then Blank(cells[fields[j]]) else cells[fields[j]]))
      && (forall j :: d <= j < |fields| ==>
            && r.1[j] == Label(cells, fields[j])
            && (fields[j] in cells ==> r.0[fields[j]] == cells[fields[j]]))
  {
    CleanupPrefix(cells, running, fields, |fields|);
  }

  /** Every cleanup field of the row holds a truthy label. */
  ghost predicate FullLabels(cells: Cells, fields: seq<string>) {
    forall j :: 0 <= j < |fields| ==> Label(cells, fields[j]) != VNone
  }

  /** The two rows carry the same labels at levels `0..m-1`. */
  ghost predicate SameLabels(a: Cells, b: Cells, fields: seq<string>, m: nat)
    requires m <= |fields|
  {
    forall k :: 0 <= k < m ==> Label(a, fields[k]) == Label(b, fields[k])
  }

  /** After a row with every label present, the running labels are that row's labels. */
  lemma FullRowSetsRunning(cells: Cells, running: seq<Value>, fields: seq<string>)
    requires NoDup(fields) && |running| == |fields| && FullLabels(cells, fields)
    ensures var r := CleanupLevels(cells, running, fields, |fields|).1;
      forall j :: 0 <= j < |fields| ==> r[j] == Label(cells, fields[j])
  {
    CleanupRowEffect(cells, running, fields);
  }

  /**
   * Two consecutive rows with every label present: a label of the second row
   * is blanked exactly when it and every coarser label repeat the first row;
   * otherwise it is shown as it is.
   */
  lemma SecondRowBlanksRepeats(first: Cells, second: Cells, running: seq<Value>, fields: seq<string>, j: nat)
    requires NoDup(fields) && |running| == |fields| && j < |fields|
    requires FullLabels(first, fields) && FullLabels(second, fields)
    ensures var r1 := CleanupLevels(first, running, fields, |fields|).1;
      var c2 := CleanupLevels(second, r1, fields, |fields|).0;
      && fields[j] in c2
      && c2[fields[j]].value == if SameLabels(first, second, fields, j + 1) then VStr("") else second[fields[j]].value
  {
    var r1 := CleanupLevels(first, running, fields, |fields|).1;
    FullRowSetsRunning(first, running, fields);
    CleanupRowEffect(second, r1, fields);
    var d := FirstChange(second, r1, fields, 0);
    assert Label(second, fields[j]) != VNone;
    if !SameLabels(first, second, fields, j + 1) {
      var k :| 0 <= k < j + 1 && Label(first, fields[k]) != Label(second, fields[k]);
      assert d <= k;
    }
  }

  /** The first row shows every present label: nothing was seen before it. */
  lemma FirstRowShowsAll(cells: Cells, fields: seq<string>, j: nat)
    requires NoDup(fields) && j < |fields| && fields[j] in cells
    ensures var c := CleanupLevels(cells, seq(|fields|, _ => VNone), fields, |fields|).0;
      fields[j] in c && c[fields[j]] == cells[fields[j]]
  {
    var running := seq(|fields|, _ => VNone);
    CleanupRowEffect(cells, running, fields);
  }

  // ---------------------------------------------------------------------------
  // Cleanup across the sorted rows

  lemma ParityKeepsLabels(cells: Cells, i: nat, f: string)
    ensures Label(ParityRow(cells, i), f) == Label(cells, f)
    ensures f in cells <==> f in ParityRow(cells, i)
  {
  }

  lemma ParityKeepsFullLabels(cells: Cells, i: nat, fields: seq<string>)
    requires FullLabels(cells, fields)
    ensures FullLabels(ParityRow(cells, i), fields)
  {
    forall j | 0 <= j < |fields|
      ensures Label(ParityRow(cells, i), fields[j]) != VNone
    {
      ParityKeepsLabels(cells, i, fields[j]);
    }
  }

  /**
   * In the saved rows, when sorted rows `i - 1` and `i` both carry every
   * cleanup label, the label at level `j` of row `i` is shown blank exactly
   * when row `i` repeats row `i - 1` at levels `0..j`.
   */
  lemma SaveBlanksRepeatedLabels(rows: seq<Cells>, n: nat, g: Groups, gf: seq<string>, cf: seq<string>, i: nat, j: nat)
    requires NoDup(cf) && 1 <= i < n <= |rows| && j < |cf|
    requires FullLabels(rows[i - 1], cf) && FullLabels(rows[i], cf)
    ensures var out := PassRows(rows, n, g, gf, cf).rows[i];
      && cf[j] in out
      && out[cf[j]].value == if SameLabels(rows[i - 1], rows[i], cf, j + 1) then VStr("") else rows[i][cf[j]].value
  {
    PassRowAt(rows, n, g, gf, cf, i);
    var a := ParityRow(rows[i - 1], i - 1);
    var b := ParityRow(rows[i], i);
    ParityKeepsFullLabels(rows[i - 1], i - 1, cf);
    ParityKeepsFullLabels(rows[i], i, cf);
    var before := PassRows(rows, i - 1, g, gf, cf).running;
    SecondRowBlanksRepeats(a, b, before, cf, j);
    assert SameLabels(a, b, cf, j + 1) == SameLabels(rows[i - 1], rows[i], cf, j + 1) by {
      forall k | 0 <= k < j + 1
        ensures Label(a, cf[k]) == Label(rows[i - 1], cf[k]) && Label(b, cf[k]) == Label(rows[i], cf[k])
      {
        ParityKeepsLabels(rows[i - 1], i - 1, cf[k]);
        ParityKeepsLabels(rows[i], i, cf[k]);
      }
    }
  }

  // ---------------------------------------------------------------------------
  // Worked examples

  function Labelled(s: string): Cell {
    Cell(VStr(s), map[])
  }

  /**
   * Rows (sec, sub1), (sec, sub1), (sec, sub2) under the cleanup fields
   * (section, subsection) come out as (sec, sub1), ('', ''), ('', sub2).
   */
  lemma CleanupExample(sec: string, sub1: string, sub2: string)
    requires sec != [] && sub1 != [] && sub2 != [] && sub1 != sub2
    ensures var fields := ["section", "subsection"];
      var r0 := map["section" := Labelled(sec), "subsection" := Labelled(sub1)];
      var r2 := map["section" := Labelled(sec), "subsection" := Labelled(sub2)];
      var out := PassRows([r0, r0, r2], 3, map[], [], fields).rows;
      && "section" in out[0] && "subsection" in out[0]
      && "section" in out[1] && "subsection" in out[1]
      && "section" in out[2] && "subsection" in out[2]
      && out[0]["section"].value == VStr(sec) && out[0]["subsection"].value == VStr(sub1)
      && out[1]["section"].value == VStr("") && out[1]["subsection"].value == VStr("")
      && out[2]["section"].value == VStr("") && out[2]["subsection"].value == VStr(sub2)
  {
    CleanupExampleFirst(sec, sub1, sub2);
    CleanupExampleLater(sec, sub1, sub2, 1);
    CleanupExampleLater(sec, sub1, sub2, 2);
  }

  /** The first row of that example shows both labels. */
  lemma CleanupExampleFirst(sec: string, sub1: string, sub2: string)
    requires sec != [] && sub1 != [] && sub2 != []
    ensures var fields := ["section", "subsection"];
      var r0 := map["section" := Labelled(sec), "subsection" := Labelled(sub1)];
      var r2 := map["section" := Labelled(sec), "subsection" := Labelled(sub2)];
      var out := PassRows([r0, r0, r2], 3, map[], [], fields).rows;
      && "section" in out[0] && "subsection" in out[0]
      && out[0]["section"].value == VStr(sec) && out[0]["subsection"].value == VStr(sub1)
  {
    var fields := ["section", "subsection"];
    var r0 := map["section" := Labelled(sec), "subsection" := Labelled(sub1)];
    var r2 := map["section" := Labelled(sec), "subsection" := Labelled(sub2)];
    var rows := [r0, r0, r2];
    var first := ParityRow(r0, 0);
    assert NoDup(fields);
    assert first["section"] == r0["section"] && first["subsection"] == r0["subsection"];
    PassRowAt(rows, 3, map[], [], fields, 0);
    assert PassRows(rows, 0, map[], [], fields).running == seq(|fields|, _ => VNone);
    FirstRowShowsAll(first, fields, 0);
    FirstRowShowsAll(first, fields, 1);
  }

  /** Rows `1` and `2` of that example blank the labels they repeat. */
  lemma CleanupExampleLater(sec: string, sub1: string, sub2: string, i: nat)
    requires sec != [] && sub1 != [] && sub2 != [] && sub1 != sub2 && 1 <= i < 3
    ensures var fields := ["section", "subsection"];
      var r0 := map["section" := Labelled(sec), "subsection" := Labelled(sub1)];
      var r2 := map["section" := Labelled(sec), "subsection" := Labelled(sub2)];
      var out := PassRows([r0, r0, r2], 3, map[], [], fields).rows;
      && "section" in out[i] && "subsection" in out[i]
      && out[i]["section"].value == VStr("")
      && out[i]["subsection"].value == (if i == 1 then VStr("") else VStr(sub2))
  {
    var fields := ["section", "subsection"];
    var r0 := map["section" := Labelled(sec), "subsection" := Labelled(sub1)];
    var r2 := map["section" := Labelled(sec), "subsection" := Labelled(sub2)];
    var rows := [r0, r0, r2];
    assert NoDup(fields);
    assert FullLabels(r0, fields) && FullLabels(r2, fields);
    SaveBlanksRepeatedLabels(rows, 3, map[], [], fields, i, 0);
    SaveBlanksRepeatedLabels(rows, 3, map[], [], fields, i, 1);
    if i == 1 {
      assert SameLabels(r0, r0, fields, 2);
    } else {
      assert SameLabels(r0, r2, fields, 1);
      assert !SameLabels(r0, r2, fields, 2) by {
        assert Label(r0, fields[1]) != Label(r2, fields[1]);
      }
    }
  }

  /** A group with a gap fails the contiguity assertion of `save`. */
  lemma GapFailsAssertion()
    ensures var g: Groups := map[1 := map[VStr("A") := {2, 4}]];
      GroupsNonEmpty(g) && !AllRuns(g)
  {
    var s: set<int> := {2, 4};
    var g: Groups := map[1 := map[VStr("A") := s]];
    assert g[1][VStr("A")] == s;
    assert SetMin(s) == 2 && SetMax(s) == 4;
    assert |s| == 2;
  }
}
