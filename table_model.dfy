/**
 * The data a report table accumulates before it is saved (table.py):
 * headers keyed by title, rows keyed by an opaque key, the active row, and
 * the outline groups. `TableState` is the abstract value of a `Table`
 * object; the functions below say what each of its operations does to it.
 */
module TableModel {
  import opened Values
  import opened Keys
  import Sorting

  const BG_COLOR_NAMES: string := "fabf8f"
  const BG_COLOR_HEADER: string := "95b3d7"

  /** Style options given to `set` as keyword arguments. */
  type Options = map<string, Value>

  /** A cell dictionary: `dict(value=value, **options)`. */
  datatype Cell = Cell(value: Value, options: Options)

  /** A header dictionary: its `value` is the title, `score` the order hint. */
  datatype Header = Header(title: string, score: Key, options: Options)

  type Cells = map<string, Cell>

  /** An entry of `rows`: the pair `(key, row dictionary)`. */
  datatype Row = Row(key: Key, cells: Cells)

  /** level -> group value -> sheet row numbers */
  type Groups = map<int, map<Value, set<int>>>

  datatype TableState = TableState(
    headers: map<string, Header>,
    headerTitles: seq<string>,  // the insertion order of the `headers` dictionary
    rows: seq<Row>,
    active: Cells,              // the dictionary `self.row`
    attached: bool,             // whether `self.row` is the dictionary of the last row
    groups: Groups)

  function RowKey(r: Row): Key {
    r.key
  }

  function HeaderScore(h: Header): Key {
    h.score
  }

  /** Every recorded group has at least one member. */
  ghost predicate GroupsNonEmpty(g: Groups) {
    forall level, v :: level in g && v in g[level] ==> g[level][v] != {}
  }

  /**
   * The invariant of a table: `headerTitles` lists each header once, the
   * header stored under a title carries that title, when the active row
   * belongs to `rows` it is the last one (the two names share one dictionary),
   * and every title set in any row has a header.
   */
  ghost predicate WellFormed(s: TableState) {
    && NoDup(s.headerTitles)
    && (forall t :: t in s.headers <==> t in s.headerTitles)
    && (forall t :: t in s.headers ==> s.headers[t].title == t)
    && (s.attached ==> |s.rows| > 0 && s.rows[|s.rows| - 1].cells == s.active)
    && (forall i, t :: 0 <= i < |s.rows| && t in s.rows[i].cells ==> t in s.headers)
    && (forall t :: t in s.active ==> t in s.headers)
    && GroupsNonEmpty(s.groups)
  }

  /** `Table(title, ...)` before any call. */
  function EmptyState(): (s: TableState)
    ensures WellFormed(s)
  {
    TableState(map[], [], [], map[], false, map[])
  }

  /** The options of a newly registered header: forced bold, bottom border and header fill. */
  function HeaderOptions(options: Options): (h: Options)
    ensures h.Keys == options.Keys + {"bold", "border_bottom", "background_color"}
    ensures h["bold"] == VBool(true) && h["border_bottom"] == VBool(true)
    ensures h["background_color"] == VStr(BG_COLOR_HEADER)
    ensures forall k :: k in options && k !in {"bold", "border_bottom", "background_color"} ==> h[k] == options[k]
  {
    options["bold" := VBool(true)]["border_bottom" := VBool(true)]["background_color" := VStr(BG_COLOR_HEADER)]
  }

  /** `new_row(key)` */
  function NewRowState(s: TableState, key: Key): TableState {
    s.(rows := s.rows + [Row(key, map[])], active := map[], attached := true)
  }

  /** `set(title, value, header_order, **options)` */
  function SetState(s: TableState, title: string, value: Value, order: Key, options: Options): TableState
    requires s.attached ==> |s.rows| > 0
  {
    var active := s.active[title := Cell(value, options)];
    var rows := if s.attached then s.rows[|s.rows| - 1 := Row(s.rows[|s.rows| - 1].key, active)] else s.rows;
    if title in s.headers then
      s.(rows := rows, active := active)
    else
      s.(rows := rows, active := active,
         headers := s.headers[title := Header(title, order, HeaderOptions(options))],
         headerTitles := s.headerTitles + [title])
  }

  /** `get(title)`: the active row's value, None when the title is not set in it. */
  function GetValue(s: TableState, title: string): Value {
    if title in s.active then s.active[title].value else VNone
  }

  /** `groups.setdefault(level, {}).setdefault(value, set()).add(r)` */
  function AddToGroup(g: Groups, r: int, level: int, value: Value): Groups {
    var byValue := if level in g then g[level] else map[];
    var members := if value in byValue then byValue[value] else {};
    g[level := byValue[value := members + {r}]]
  }

  function GroupState(s: TableState, r: int, level: int, value: Value): TableState {
    s.(groups := AddToGroup(s.groups, r, level, value))
  }

  /** `self.headers.values()`, in insertion order. */
  function HeaderList(s: TableState): seq<Header>
    requires WellFormed(s)
  {
    seq(|s.headerTitles|, k requires 0 <= k < |s.headerTitles| => s.headers[s.headerTitles[k]])
  }

  /** `sorted(self.headers.values(), key=lambda x: x['score'])` */
  function SortedHeaders(s: TableState): seq<Header>
    requires WellFormed(s)
  {
    Sorting.SortBy(HeaderList(s), HeaderScore)
  }

  /** `sorted(self.rows, key=lambda x: x[0])` */
  function SortedRows(s: TableState): seq<Row> {
    Sorting.SortBy(s.rows, RowKey)
  }

  ghost predicate InGroup(g: Groups, level: int, v: Value, r: int) {
    level in g && v in g[level] && r in g[level][v]
  }

  // ---------------------------------------------------------------------------
  // What each operation does

  /** `new_row` appends exactly one empty row, which becomes the active row; nothing else changes. */
  lemma NewRowAppendsOneRow(s: TableState, key: Key)
    requires WellFormed(s)
    ensures var s' := NewRowState(s, key);
      && WellFormed(s')
      && s'.rows == s.rows + [Row(key, map[])]
      && s'.headers == s.headers && s'.headerTitles == s.headerTitles && s'.groups == s.groups
      && forall t :: GetValue(s', t) == VNone
  {
  }

  /** `set` then `get` of the same title in the same row returns the value; other titles keep theirs. */
  lemma GetAfterSet(s: TableState, title: string, value: Value, order: Key, options: Options)
    requires s.attached ==> |s.rows| > 0
    ensures var s' := SetState(s, title, value, order, options);
      && GetValue(s', title) == value
      && forall t :: t != title ==> GetValue(s', t) == GetValue(s, t)
  {
    var s' := SetState(s, title, value, order, options);
    assert s'.active == s.active[title := Cell(value, options)];
    forall t | t != title
      ensures GetValue(s', t) == GetValue(s, t)
    {
      assert t in s'.active <==> t in s.active;
    }
  }

  lemma SetKeepsHeaderIndex(s: TableState, title: string, value: Value, order: Key, options: Options)
    requires WellFormed(s)
    ensures var s' := SetState(s, title, value, order, options);
      && NoDup(s'.headerTitles)
      && (forall t :: t in s'.headers <==> t in s'.headerTitles)
      && (forall t :: t in s'.headers ==> s'.headers[t].title == t)
      && s'.headers.Keys == s.headers.Keys + {title}
  {
    var s' := SetState(s, title, value, order, options);
    if title !in s.headers {
      assert title !in s.headerTitles;
      forall i, j | 0 <= i < j < |s'.headerTitles|
        ensures s'.headerTitles[i] != s'.headerTitles[j]
      {
        if j == |s.headerTitles| {
          assert s'.headerTitles[i] == s.headerTitles[i];
        }
      }
    }
  }

  lemma SetKeepsRowsCovered(s: TableState, title: string, value: Value, order: Key, options: Options)
    requires WellFormed(s)
    ensures var s' := SetState(s, title, value, order, options);
      && (s'.attached ==> |s'.rows| > 0 && s'.rows[|s'.rows| - 1].cells == s'.active)
      && (forall i, t :: 0 <= i < |s'.rows| && t in s'.rows[i].cells ==> t in s'.headers)
      && (forall t :: t in s'.active ==> t in s'.headers)
  {
    var s' := SetState(s, title, value, order, options);
    assert s'.headers.Keys == s.headers.Keys + {title};
    forall i, t | 0 <= i < |s'.rows| && t in s'.rows[i].cells
      ensures t in s'.headers
    {
      if s.attached && i == |s.rows| - 1 {
        assert s'.rows[i].cells == s'.active;
      } else {
        assert s'.rows[i] == s.rows[i];
      }
    }
  }

  lemma SetKeepsWellFormed(s: TableState, title: string, value: Value, order: Key, options: Options)
    requires WellFormed(s)
    ensures WellFormed(SetState(s, title, value, order, options))
  {
    SetKeepsHeaderIndex(s, title, value, order, options);
    SetKeepsRowsCovered(s, title, value, order, options);
  }

  /**
   * The first `set` of a title registers its header with the given order and
   * the forced header style, after every earlier header; a later `set` of
   * the same title leaves every header as it was.
   */
  lemma SetRegistersHeaderOnce(s: TableState, title: string, value: Value, order: Key, options: Options)
    requires WellFormed(s)
    ensures var s' := SetState(s, title, value, order, options);
      && WellFormed(s')
      && s'.groups == s.groups
      && (title in s.headers ==> s'.headers == s.headers && s'.headerTitles == s.headerTitles)
      && (title !in s.headers ==>
            && s'.headerTitles == s.headerTitles + [title]
            && s'.headers == s.headers[title := Header(title, order, HeaderOptions(options))])
  {
    SetKeepsWellFormed(s, title, value, order, options);
  }

  /**
   * `set` writes into the active row only: when that row is the last of
   * `rows`, only the last row changes, to the updated dictionary.
   */
  lemma SetChangesOnlyActiveRow(s: TableState, title: string, value: Value, order: Key, options: Options)
    requires WellFormed(s)
    ensures var s' := SetState(s, title, value, order, options);
      && |s'.rows| == |s.rows|
      && s'.active == s.active[title := Cell(value, options)]
      && (s.attached ==> s'.rows[..|s.rows| - 1] == s.rows[..|s.rows| - 1]
                         && s'.rows[|s.rows| - 1] == Row(s.rows[|s.rows| - 1].key, s'.active))
      && (!s.attached ==> s'.rows == s.rows)
  {
  }

  /** `group` puts `r` in the set for `(level, v)` and in no other set. */
  lemma GroupAddsOneMember(g: Groups, r: int, level: int, v: Value)
    ensures InGroup(AddToGroup(g, r, level, v), level, v, r)
    ensures forall l, w, x :: (l != level || w != v || x != r) ==>
              (InGroup(AddToGroup(g, r, level, v), l, w, x) <==> InGroup(g, l, w, x))
  {
  }

  /** Recording the same membership twice is the same as recording it once. */
  lemma GroupIdempotent(g: Groups, r: int, level: int, v: Value)
    ensures AddToGroup(AddToGroup(g, r, level, v), r, level, v) == AddToGroup(g, r, level, v)
  {
    var once := AddToGroup(g, r, level, v);
    var byValue := once[level];
    assert byValue[v] + {r} == byValue[v];
    assert byValue[v := byValue[v] + {r}] == byValue;
  }

  lemma GroupKeepsNonEmpty(g: Groups, r: int, level: int, v: Value)
    requires GroupsNonEmpty(g)
    ensures GroupsNonEmpty(AddToGroup(g, r, level, v))
  {
  }

  // ---------------------------------------------------------------------------
  // The order of columns and rows on the sheet

  /**
   * Columns come out in ascending score; columns with equal scores keep the
   * order in which their titles were first set; no column is lost or added.
   */
  lemma ColumnsFollowScore(s: TableState)
    requires WellFormed(s)
    ensures var hs := SortedHeaders(s);
      && multiset(hs) == multiset(HeaderList(s))
      && (forall i, j :: 0 <= i <= j < |hs| ==> KeyLe(hs[i].score, hs[j].score))
      && (forall k :: Sorting.WithKey(hs, HeaderScore, k) == Sorting.WithKey(HeaderList(s), HeaderScore, k))
  {
    var hs := SortedHeaders(s);
    Sorting.SortByIsPermutation(HeaderList(s), HeaderScore);
    Sorting.SortByIsSorted(HeaderList(s), HeaderScore);
    forall i, j | 0 <= i <= j < |hs|
      ensures KeyLe(hs[i].score, hs[j].score)
    {
      Sorting.SortedPairwise(hs, HeaderScore, i, j);
    }
    forall k
      ensures Sorting.WithKey(hs, HeaderScore, k) == Sorting.WithKey(HeaderList(s), HeaderScore, k)
    {
      Sorting.SortByIsStable(HeaderList(s), HeaderScore, k);
    }
  }

  /** Rows come out in ascending key; rows with equal keys keep their insertion order. */
  lemma RowsFollowKey(s: TableState)
    ensures var rs := SortedRows(s);
      && multiset(rs) == multiset(s.rows)
      && (forall i, j :: 0 <= i <= j < |rs| ==> KeyLe(rs[i].key, rs[j].key))
      && (forall k :: Sorting.WithKey(rs, RowKey, k) == Sorting.WithKey(s.rows, RowKey, k))
  {
    var rs := SortedRows(s);
    Sorting.SortByIsPermutation(s.rows, RowKey);
    Sorting.SortByIsSorted(s.rows, RowKey);
    forall i, j | 0 <= i <= j < |rs|
      ensures KeyLe(rs[i].key, rs[j].key)
    {
      Sorting.SortedPairwise(rs, RowKey, i, j);
    }
    forall k
      ensures Sorting.WithKey(rs, RowKey, k) == Sorting.WithKey(s.rows, RowKey, k)
    {
      Sorting.SortByIsStable(s.rows, RowKey, k);
    }
  }

  // ---------------------------------------------------------------------------
  // Sequences of `set` calls

  /** One `set(title, value, header_order, **options)` call with an int header order. */
  datatype Write = Write(title: string, value: Value, order: int, options: Options)

  /** Calls that do not pass `value` or `score` as a cell option, which would clash with the cell's own keys. */
  predicate Settable(ws: seq<Write>) {
    forall i :: 0 <= i < |ws| ==> "value" !in ws[i].options && "score" !in ws[i].options
  }

  /** The table after the calls `ws`, made in order; an int header order is the key `[order]`. */
  function ApplyWrites(s: TableState, ws: seq<Write>): (r: TableState)
    requires s.attached ==> |s.rows| > 0
    ensures r.attached == s.attached && |r.rows| == |s.rows|
    decreases |ws|
  {
    if ws == [] then s
    else
      var w := ws[0];
      ApplyWrites(SetState(s, w.title, w.value, [Num(w.order)], w.options), ws[1..])
  }

  /** The calls keep the table's invariant. */
  lemma {:induction false} ApplyWritesWellFormed(s: TableState, ws: seq<Write>)
    requires WellFormed(s)
    ensures WellFormed(ApplyWrites(s, ws))
    decreases |ws|
  {
    if ws != [] {
      var w := ws[0];
      SetKeepsWellFormed(s, w.title, w.value, [Num(w.order)], w.options);
      ApplyWritesWellFormed(SetState(s, w.title, w.value, [Num(w.order)], w.options), ws[1..]);
    }
  }

  /** Calls that pass neither option, one list after the other. */
  lemma SettableAppend(a: seq<Write>, b: seq<Write>)
    requires Settable(a) && Settable(b)
    ensures Settable(a + b)
  {
    forall i | 0 <= i < |a + b|
      ensures "value" !in (a + b)[i].options && "score" !in (a + b)[i].options
    {
      if i < |a| {
        assert (a + b)[i] == a[i];
      } else {
        assert (a + b)[i] == b[i - |a|];
      }
    }
  }

  /** Making `a` and then `b` is making `a + b`. */
  lemma {:induction false} ApplyWritesAppend(s: TableState, a: seq<Write>, b: seq<Write>)
    requires (s.attached ==> |s.rows| > 0) && Settable(a) && Settable(b)
    ensures Settable(a + b)
    ensures ApplyWrites(s, a + b) == ApplyWrites(ApplyWrites(s, a), b)
    decreases |a|
  {
    if a != [] {
      var w := a[0];
      assert (a + b)[1..] == a[1..] + b;
      assert (a + b)[0] == w;
      ApplyWritesAppend(SetState(s, w.title, w.value, [Num(w.order)], w.options), a[1..], b);
    } else {
      assert a + b == b;
    }
  }

  /** The value the last write of title `t` in `ws` leaves, `v` when `ws` does not write `t`. */
  function LastValue(ws: seq<Write>, t: string, v: Value): Value
    decreases |ws|
  {
    if ws == [] then v else LastValue(ws[1..], t, if ws[0].title == t then ws[0].value else v)
  }

  predicate Writes(ws: seq<Write>, t: string) {
    exists i :: 0 <= i < |ws| && ws[i].title == t
  }

  /** The writes change only the active row: the last row, when attached, becomes the active row under its own key; other rows and the groups stay. */
  lemma {:induction false} ApplyWritesKeepsRows(s: TableState, ws: seq<Write>)
    requires s.attached ==> |s.rows| > 0 && s.rows[|s.rows| - 1].cells == s.active
    ensures var r := ApplyWrites(s, ws);
      && r.groups == s.groups && r.attached == s.attached
      && r.rows == if s.attached then s.rows[|s.rows| - 1 := Row(s.rows[|s.rows| - 1].key, r.active)] else s.rows
    decreases |ws|
  {
    if ws != [] {
      var w := ws[0];
      var s1 := SetState(s, w.title, w.value, [Num(w.order)], w.options);
      ApplyWritesKeepsRows(s1, ws[1..]);
      var r := ApplyWrites(s1, ws[1..]);
      assert ApplyWrites(s, ws) == r;
      if s.attached {
        assert s1.rows == s.rows[|s.rows| - 1 := Row(s.rows[|s.rows| - 1].key, s1.active)];
        assert r.rows == s.rows[|s.rows| - 1 := Row(s.rows[|s.rows| - 1].key, r.active)];
      }
    } else if s.attached {
      assert s.rows[|s.rows| - 1] == Row(s.rows[|s.rows| - 1].key, s.active);
    }
  }

  /** A title is written by `ws` exactly when it is the first write's or written by the rest. */
  lemma WritesCons(ws: seq<Write>, t: string)
    requires ws != []
    ensures Writes(ws, t) <==> ws[0].title == t || Writes(ws[1..], t)
  {
    if Writes(ws, t) && ws[0].title != t {
      var i :| 0 <= i < |ws| && ws[i].title == t;
      assert ws[1..][i - 1] == ws[i];
    }
    if Writes(ws[1..], t) {
      var i :| 0 <= i < |ws[1..]| && ws[1..][i].title == t;
      assert ws[i + 1].title == t;
    }
  }

  /** In the active row the writes set exactly the written titles, `get` returning each one's last value. */
  lemma ApplyWritesCells(s: TableState, ws: seq<Write>)
    requires s.attached ==> |s.rows| > 0
    ensures var r := ApplyWrites(s, ws);
      && (forall t :: t in r.active <==> t in s.active || Writes(ws, t))
      && (forall t :: GetValue(r, t) == LastValue(ws, t, GetValue(s, t)))
  {
    ApplyWritesTitles(s, ws);
    ApplyWritesGets(s, ws);
  }

  lemma {:induction false} ApplyWritesTitles(s: TableState, ws: seq<Write>)
    requires s.attached ==> |s.rows| > 0
    ensures forall t :: t in ApplyWrites(s, ws).active <==> t in s.active || Writes(ws, t)
    decreases |ws|
  {
    if ws != [] {
      var w := ws[0];
      var s1 := SetState(s, w.title, w.value, [Num(w.order)], w.options);
      ApplyWritesTitles(s1, ws[1..]);
      assert s1.active == s.active[w.title := Cell(w.value, w.options)];
      assert ApplyWrites(s, ws) == ApplyWrites(s1, ws[1..]);
      forall t
        ensures Writes(ws, t) <==> t == w.title || Writes(ws[1..], t)
      {
        WritesCons(ws, t);
      }
    }
  }

  lemma {:induction false} ApplyWritesGets(s: TableState, ws: seq<Write>)
    requires s.attached ==> |s.rows| > 0
    ensures forall t :: GetValue(ApplyWrites(s, ws), t) == LastValue(ws, t, GetValue(s, t))
    decreases |ws|
  {
    if ws != [] {
      var w := ws[0];
      var s1 := SetState(s, w.title, w.value, [Num(w.order)], w.options);
      GetAfterSet(s, w.title, w.value, [Num(w.order)], w.options);
      ApplyWritesGets(s1, ws[1..]);
      assert ApplyWrites(s, ws) == ApplyWrites(s1, ws[1..]);
    }
  }

  /** The active row after the writes: each write's cell replaces the one under its title, in order. */
  function CellsAfter(a: Cells, ws: seq<Write>): Cells
    decreases |ws|
  {
    if ws == [] then a else CellsAfter(a[ws[0].title := Cell(ws[0].value, ws[0].options)], ws[1..])
  }

  /** The writes leave in the active row the cells `CellsAfter` describes. */
  lemma {:induction false} ApplyWritesActive(s: TableState, ws: seq<Write>)
    requires s.attached ==> |s.rows| > 0
    ensures ApplyWrites(s, ws).active == CellsAfter(s.active, ws)
    decreases |ws|
  {
    if ws != [] {
      var w := ws[0];
      ApplyWritesActive(SetState(s, w.title, w.value, [Num(w.order)], w.options), ws[1..]);
    }
  }

  /** Writes of distinct titles: each title holds the cell of its one write, and no other title is added. */
  lemma {:induction false} CellsAfterDistinct(a: Cells, ws: seq<Write>)
    requires forall i, j :: 0 <= i < j < |ws| ==> ws[i].title != ws[j].title
    ensures forall i :: 0 <= i < |ws| ==> ws[i].title in CellsAfter(a, ws) && CellsAfter(a, ws)[ws[i].title] == Cell(ws[i].value, ws[i].options)
    ensures forall t :: t in CellsAfter(a, ws) <==> t in a || Writes(ws, t)
    ensures forall t :: t in a && !Writes(ws, t) ==> CellsAfter(a, ws)[t] == a[t]
    decreases |ws|
  {
    if ws != [] {
      var a1 := a[ws[0].title := Cell(ws[0].value, ws[0].options)];
      CellsAfterDistinct(a1, ws[1..]);
      forall i | 1 <= i < |ws|
        ensures ws[i] == ws[1..][i - 1]
      {
      }
      forall t
        ensures Writes(ws, t) <==> t == ws[0].title || Writes(ws[1..], t)
      {
        WritesCons(ws, t);
      }
    }
  }

  /** `new_row(key)` then the writes: one row appended, holding the written cells; earlier rows and groups stay. */
  lemma RowWritten(s: TableState, key: Key, ws: seq<Write>)
    requires WellFormed(s)
    ensures var r := ApplyWrites(NewRowState(s, key), ws);
      && |r.rows| == |s.rows| + 1 && r.rows[..|s.rows|] == s.rows
      && r.rows[|s.rows|] == Row(key, CellsAfter(map[], ws))
      && r.groups == s.groups
  {
    var s0 := NewRowState(s, key);
    NewRowAppendsOneRow(s, key);
    ApplyWritesKeepsRows(s0, ws);
    ApplyWritesActive(s0, ws);
    assert s0.rows[..|s.rows|] == s.rows;
  }
}
