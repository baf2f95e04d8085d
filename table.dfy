/**
 * The `Table` class of table.py: it collects headers, rows and outline
 * groups through `new_row`, `set` and `group`, and `save` sorts them, runs
 * the parity, grouping and cleanup passes, checks that every group is a run
 * of consecutive rows, and lays out the sheet.
 */
module ReportTable {
  import opened Values
  import opened Keys
  import opened TableModel
  import opened SavePasses
  import opened Rendering
  import SaveProperties

  /** What `save` writes: the title, the header row, one record per header for each row, and the outlines. */
  datatype Sheet = Sheet(title: string, headers: seq<Header>, body: seq<seq<Option<Cell>>>, outlines: set<Outline>)

  /** `[x[1] for x in rows]` */
  function Bodies(rows: seq<Row>): (b: seq<Cells>)
    ensures |b| == |rows| && forall i :: 0 <= i < |rows| ==> b[i] == rows[i].cells
  {
    seq(|rows|, i requires 0 <= i < |rows| => rows[i].cells)
  }

  /**
   * What `save` does to a table: the groups it leaves behind, and the sheet
   * or the failed contiguity assertion.
   */
  function SaveOutcome(s: TableState, title: string, groupFields: seq<string>, cleanupFields: seq<string>): (Groups, Result<Sheet, Error>)
    requires WellFormed(s)
  {
    var hs := SortedHeaders(s);
    var sorted := Bodies(SortedRows(s));
    var pass := PassRows(sorted, |sorted|, s.groups, groupFields, cleanupFields);
    SaveProperties.PassGroupsNonEmpty(sorted, |sorted|, s.groups, groupFields, cleanupFields);
    var body := RenderedBody(pass.rows, hs);
    (pass.groups,
     if AllRuns(pass.groups) then Ok(Sheet(title, hs, body, Outlines(pass.groups))) else Err(AssertionError))
  }

  /** Every row's records in header order. */
  function RenderedBody(rows: seq<Cells>, headers: seq<Header>): (b: seq<seq<Option<Cell>>>)
    ensures |b| == |rows|
  {
    seq(|rows|, i requires 0 <= i < |rows| => ProcessedRow(rows[i], headers))
  }

  // ---------------------------------------------------------------------------
  // The steps of the first loop of `save`, on one row

  /** `for v in row.values(): if v.get('parity'): v['parity'] = i % 2` */
  method ResolveRowParity(cells: Cells, i: nat) returns (out: Cells)
    ensures out == ParityRow(cells, i)
  {
    out := cells;
    var todo := cells.Keys;
    while todo != {}
      invariant todo <= cells.Keys && out.Keys == cells.Keys
      invariant forall t :: t in cells && t !in todo ==> out[t] == ResolveParity(cells[t], i)
      invariant forall t :: t in todo ==> out[t] == cells[t]
      decreases todo
    {
      var t := Choose(todo);
      var v := out[t];
      if "parity" in v.options && Truthy(v.options["parity"]) {
        out := out[t := v.(options := v.options["parity" := VInt(i % 2)])];
      }
      todo := todo - {t};
    }
  }

  /** The cleanup of one row against `running_header`, which it updates in place. */
  method CleanupRow(cells: Cells, running: array<Value>, fields: seq<string>) returns (out: Cells)
    requires running.Length == |fields|
    modifies running
    ensures (out, running[..]) == CleanupLevels(cells, old(running[..]), fields, |fields|)
  {
    out := cells;
    var j := 0;
    while j < |fields|
      invariant 0 <= j <= |fields|
      invariant (out, running[..]) == CleanupLevels(cells, old(running[..]), fields, j)
    {
      var f := fields[j];
      if f in out && Truthy(out[f].value) {
        if running[j] != out[f].value {
          ghost var before := running[..][j := out[f].value];
          running[j] := out[f].value;
          var k := j + 1;
          while k < |fields|
            invariant j + 1 <= k <= |fields|
            invariant forall m :: 0 <= m < running.Length ==> running[m] == if j + 1 <= m < k then VNone else before[m]
          {
            running[k] := VNone;
            k := k + 1;
          }
          assert running[..] == Reset(before, j + 1);
        } else {
          out := out[f := out[f].(value := VStr(""))];
        }
      }
      j := j + 1;
    }
  }

  /** The records of one row in header order, values processed: the render loop of `save`. */
  method ProcessRow(cells: Cells, headers: seq<Header>) returns (processed: seq<Option<Cell>>)
    ensures processed == ProcessedRow(cells, headers)
  {
    processed := [];
    var k := 0;
    while k < |headers|
      invariant 0 <= k <= |headers| && |processed| == k
      invariant forall m :: 0 <= m < k ==> processed[m] == ProcessedRow(cells, headers)[m]
    {
      var rec: Option<Cell> := None;
      if headers[k].title in cells {
        var c := cells[headers[k].title];
        rec := Some(c.(value := ProcessValue(c.value)));
      }
      processed := processed + [rec];
      k := k + 1;
    }
  }

  /**
   * The outline loop of `save`, over every recorded `(level, value)`: fails
   * the assertion on the first group that is not a run of consecutive rows,
   * and otherwise collects the outline of every group of more than one row.
   */
  method CheckGroups(g: Groups) returns (r: Result<set<Outline>, Error>)
    requires GroupsNonEmpty(g)
    ensures r.Ok? <==> AllRuns(g)
    ensures r.Ok? ==> r.value == Outlines(g)
    ensures r.Err? ==> r.error == AssertionError
  {
    var all := Pairs(g);
    var acc: set<Outline> := {};
    var todo := all;
    ghost var done: set<(int, Value)> := {};
    while todo != {}
      invariant todo <= all && done == all - todo
      invariant forall p :: p in done ==> IsRun(g[p.0][p.1])
      invariant acc == OutlinesOf(g, done)
      decreases todo
    {
      var p := Choose(todo);
      var run, outline := CheckGroup(g, p);
      if !run {
        NotAllRuns(g, p);
        return Err(AssertionError);
      }
      OutlinesOfAdd(g, done, p);
      acc := acc + outline;
      done := done + {p};
      todo := todo - {p};
    }
    AllChecked(g, done);
    r := Ok(acc);
  }

  /** The assertion on one group, and the outline it adds: none for a single row. */
  method CheckGroup(g: Groups, p: (int, Value)) returns (run: bool, outline: set<Outline>)
    requires GroupsNonEmpty(g) && p.0 in g && p.1 in g[p.0] && g[p.0][p.1] != {}
    ensures run <==> IsRun(g[p.0][p.1])
    ensures outline == if |g[p.0][p.1]| > 1 then {OutlineOf(g, p.0, p.1)} else {}
  {
    var group := g[p.0][p.1];
    var lo := SetMin(group);
    var hi := SetMax(group);
    run := |group| == hi - lo + 1;
    outline := if |group| > 1 then {Outline(lo + 1, hi, p.0, p.0 == 3)} else {};
  }

  /** One group that is not a run fails the assertion. */
  lemma NotAllRuns(g: Groups, p: (int, Value))
    requires GroupsNonEmpty(g) && p in Pairs(g) && !IsRun(g[p.0][p.1])
    ensures !AllRuns(g)
  {
  }

  /** Once every group is visited and found a run, the outlines are those of the whole table. */
  lemma AllChecked(g: Groups, done: set<(int, Value)>)
    requires GroupsNonEmpty(g) && done == Pairs(g)
    requires forall p :: p in done ==> IsRun(g[p.0][p.1])
    ensures AllRuns(g) && OutlinesOf(g, done) == Outlines(g)
  {
    assert forall level, v :: level in g && v in g[level] ==> (level, v) in done;
  }

  class Table {
    const title: string
    const groupFields: seq<string>
    const cleanupFields: seq<string>
    var headers: map<string, Header>
    var headerTitles: seq<string>
    var rows: seq<Row>
    var row: Cells
    var attached: bool
    var groups: Groups

    function State(): TableState
      reads this
    {
      TableState(headers, headerTitles, rows, row, attached, groups)
    }

    ghost predicate Valid()
      reads this
    {
      WellFormed(State())
    }

    /** `Table(title, group_fields, cleanup_fields)`; None for either field list is the empty list. */
    constructor (title: string, groupFields: seq<string>, cleanupFields: seq<string>)
      ensures Valid() && State() == EmptyState()
      ensures this.title == title && this.groupFields == groupFields && this.cleanupFields == cleanupFields
    {
      this.title := title;
      this.groupFields := groupFields;
      this.cleanupFields := cleanupFields;
      headers := map[];
      headerTitles := [];
      rows := [];
      row := map[];
      attached := false;
      groups := map[];
    }

    /** `new_row(key)` */
    method NewRow(key: Key)
      requires Valid()
      modifies this
      ensures Valid() && State() == NewRowState(old(State()), key)
    {
      NewRowAppendsOneRow(State(), key);
      row := map[];
      rows := rows + [Row(key, row)];
      attached := true;
    }

    /** `set(title, value, header_order, **options)` */
    method Set(t: string, value: Value, order: Key, options: Options)
      requires Valid()
      requires "value" !in options && "score" !in options
      modifies this
      ensures Valid() && State() == SetState(old(State()), t, value, order, options)
    {
      SetKeepsWellFormed(State(), t, value, order, options);
      row := row[t := Cell(value, options)];
      if attached {
        rows := rows[|rows| - 1 := Row(rows[|rows| - 1].key, row)];
      }
      if t !in headers {
        headers := headers[t := Header(t, order, HeaderOptions(options))];
        headerTitles := headerTitles + [t];
      }
    }

    /** `get(title)` */
    function Get(t: string): (v: Value)
      reads this
      ensures v == GetValue(State(), t)
    {
      if t in row then row[t].value else VNone
    }

    /** `group(row, level, value)` */
    method Group(r: int, level: int, value: Value)
      requires Valid()
      modifies this`groups
      ensures Valid() && groups == AddToGroup(old(groups), r, level, value)
    {
      GroupKeepsNonEmpty(groups, r, level, value);
      groups := AddToGroup(groups, r, level, value);
    }

    /** The group fields of one sorted row, recorded at levels `1..` under sheet row `i + 2`. */
    method GroupRow(c: Cells, i: nat)
      requires Valid()
      modifies this`groups
      ensures Valid() && groups == GroupLevels(old(groups), groupFields, |groupFields|, c, i)
    {
      var l := 0;
      while l < |groupFields|
        invariant 0 <= l <= |groupFields|
        invariant Valid() && groups == GroupLevels(old(groups), groupFields, l, c, i)
      {
        var f := groupFields[l];
        if f in c && Truthy(c[f].value) {
          Group(i + 2, l + 1, c[f].value);
        }
        l := l + 1;
      }
    }

    /** The first loop of `save` over the sorted row bodies: parity, grouping, cleanup. */
    method Prepass(body: seq<Cells>) returns (out: seq<Cells>)
      requires Valid()
      modifies this`groups
      ensures Valid()
      ensures out == PassRows(body, |body|, old(groups), groupFields, cleanupFields).rows
      ensures groups == PassRows(body, |body|, old(groups), groupFields, cleanupFields).groups
    {
      var running := new Value[|cleanupFields|](_ => VNone);
      assert running[..] == seq(|cleanupFields|, _ => VNone);
      out := [];
      var i := 0;
      while i < |body|
        invariant 0 <= i <= |body| && running.Length == |cleanupFields|
        invariant Valid()
        invariant out == PassRows(body, i, old(groups), groupFields, cleanupFields).rows
        invariant groups == PassRows(body, i, old(groups), groupFields, cleanupFields).groups
        invariant running[..] == PassRows(body, i, old(groups), groupFields, cleanupFields).running
      {
        ghost var st := PassRows(body, i, old(groups), groupFields, cleanupFields);
        var cleaned := PrepassRow(body[i], i, running, st);
        out := out + [cleaned];
        i := i + 1;
      }
    }

    /** One row of that loop: parity, grouping at sheet row `i + 2`, cleanup against `running`. */
    method PrepassRow(cells: Cells, i: nat, running: array<Value>, ghost st: PassState) returns (cleaned: Cells)
      requires Valid() && running.Length == |cleanupFields|
      requires st.groups == groups && st.running == running[..]
      modifies this`groups, running
      ensures Valid()
      ensures PassRow(st, cells, i, groupFields, cleanupFields) == PassState(st.rows + [cleaned], groups, running[..])
    {
      var c := ResolveRowParity(cells, i);
      GroupRow(c, i);
      cleaned := CleanupRow(c, running, cleanupFields);
    }

    /** `save(filename)`, up to the calls that write the workbook. */
    method Save() returns (result: Result<Sheet, Error>)
      requires Valid()
      modifies this`groups
      ensures Valid()
      ensures (groups, result) == SaveOutcome(old(State()), title, groupFields, cleanupFields)
    {
      var hs := SortedHeaders(State());
      var body := Bodies(SortedRows(State()));
      ghost var s0 := State();
      var out := Prepass(body);
      var sheetBody := RenderRows(out, hs);
      ghost var want := SaveOutcome(s0, title, groupFields, cleanupFields);
      assert want.0 == groups;
      var outlines := CheckGroups(groups);
      if outlines.Err? {
        assert want.1 == Err(AssertionError);
        return Err(outlines.error);
      }
      result := Ok(Sheet(title, hs, sheetBody, outlines.value));
      assert want.1 == result;
    }
  }

  /** The render loop of `save`: every row's records in header order. */
  method RenderRows(rows: seq<Cells>, headers: seq<Header>) returns (sheetBody: seq<seq<Option<Cell>>>)
    ensures sheetBody == RenderedBody(rows, headers)
  {
    sheetBody := [];
    var k := 0;
    while k < |rows|
      invariant 0 <= k <= |rows| && |sheetBody| == k
      invariant forall m :: 0 <= m < k ==> sheetBody[m] == ProcessedRow(rows[m], headers)
    {
      var processed := ProcessRow(rows[k], headers);
      sheetBody := sheetBody + [processed];
      k := k + 1;
    }
    assert forall m :: 0 <= m < |rows| ==> sheetBody[m] == RenderedBody(rows, headers)[m];
  }

  /** Making the calls of `ws` one after another on the table. */
  method Emit(table: Table, ws: seq<Write>)
    requires table.Valid() && Settable(ws)
    modifies table
    ensures table.Valid() && table.State() == ApplyWrites(old(table.State()), ws)
  {
    var i := 0;
    while i < |ws|
      invariant 0 <= i <= |ws| && table.Valid()
      invariant ApplyWrites(table.State(), ws[i..]) == ApplyWrites(old(table.State()), ws)
    {
      assert ws[i..][1..] == ws[i + 1..];
      table.Set(ws[i].title, ws[i].value, [Num(ws[i].order)], ws[i].options);
      i := i + 1;
    }
  }
}
