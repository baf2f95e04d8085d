/**
 * The passes `Table.save` makes over the sorted rows before it renders them
 * (table.py): parity resolution, outline grouping, the hierarchical cleanup
 * of repeated labels, and the contiguity check on the recorded groups.
 * Each pass is given here as a function of its inputs; the loops of
 * `ReportTable.Table.Save` are proved to compute them.
 */
module SavePasses {
  import opened Values
  import opened TableModel

  // ---------------------------------------------------------------------------
  // Parity

  /** A cell whose `parity` option is truthy gets the row index parity instead. */
  function ResolveParity(c: Cell, i: nat): Cell {
    if "parity" in c.options && Truthy(c.options["parity"])
    then c.(options := c.options["parity" := VInt(i % 2)])
    else c
  }

  function ParityRow(cells: Cells, i: nat): Cells {
    map t | t in cells :: ResolveParity(cells[t], i)
  }

  // ---------------------------------------------------------------------------
  // Grouping: field number l (0-based) records sheet row i + 2 at level l + 1

  /** The groups after the first `n` group fields of row `i` were looked at. */
  function GroupLevels(g: Groups, fields: seq<string>, n: nat, cells: Cells, i: nat): Groups
    requires n <= |fields|
  {
    if n == 0 then g
    else
      var g' := GroupLevels(g, fields, n - 1, cells, i);
      var f := fields[n - 1];
      if f in cells && Truthy(cells[f].value) then AddToGroup(g', i + 2, n, cells[f].value) else g'
  }

  // ---------------------------------------------------------------------------
  // Cleanup: `running` holds the last label seen at each level

  /** `running_header[k] = None` for every `k >= from`. */
  function Reset(running: seq<Value>, from: nat): (r: seq<Value>)
    ensures |r| == |running|
    ensures forall k :: 0 <= k < |r| ==> r[k] == if k >= from then VNone else running[k]
  {
    seq(|running|, k requires 0 <= k < |running| => if k >= from then VNone else running[k])
  }

  /** The row and the running labels after the first `n` cleanup fields of one row. */
  function CleanupLevels(cells: Cells, running: seq<Value>, fields: seq<string>, n: nat): (r: (Cells, seq<Value>))
    requires n <= |fields| == |running|
    ensures |r.1| == |running|
  {
    if n == 0 then (cells, running)
    else
      var (c, run) := CleanupLevels(cells, running, fields, n - 1);
      var j := n - 1;
      var f := fields[j];
      if f in c && Truthy(c[f].value) then
        if run[j] != c[f].value then (c, Reset(run[j := c[f].value], j + 1))
        else (c[f := c[f].(value := VStr(""))], run)
      else (c, run)
  }

  // ---------------------------------------------------------------------------
  // The first loop of `save`

  datatype PassState = PassState(rows: seq<Cells>, groups: Groups, running: seq<Value>)

  /** Resolve parity, record groups, then clean up, for one row at index `i`. */
  function PassRow(st: PassState, cells: Cells, i: nat, groupFields: seq<string>, cleanupFields: seq<string>): (r: PassState)
    requires |st.running| == |cleanupFields|
    ensures |r.running| == |cleanupFields| && |r.rows| == |st.rows| + 1
  {
    var c := ParityRow(cells, i);
    var g := GroupLevels(st.groups, groupFields, |groupFields|, c, i);
    var (c', run) := CleanupLevels(c, st.running, cleanupFields, |cleanupFields|);
    PassState(st.rows + [c'], g, run)
  }

  /** The state after the first `n` sorted rows. */
  function PassRows(rows: seq<Cells>, n: nat, groups: Groups, groupFields: seq<string>, cleanupFields: seq<string>): (r: PassState)
    requires n <= |rows|
    ensures |r.running| == |cleanupFields| && |r.rows| == n
  {
    if n == 0 then PassState([], groups, seq(|cleanupFields|, _ => VNone))
    else PassRow(PassRows(rows, n - 1, groups, groupFields, cleanupFields), rows[n - 1], n - 1, groupFields, cleanupFields)
  }

  // ---------------------------------------------------------------------------
  // The contiguity assertion and the outlines it guards

  /** `len(group) == max(group) - min(group) + 1`, the assertion of `save`. */
  predicate IsRun(g: set<int>)
    requires g != {}
  {
    |g| == SetMax(g) - SetMin(g) + 1
  }

  predicate AllRuns(g: Groups)
    requires GroupsNonEmpty(g)
  {
    forall level, v :: level in g && v in g[level] ==> IsRun(g[level][v])
  }

  /** `ws.row_dimensions.group(first, last, outline_level=level, hidden=...)` */
  datatype Outline = Outline(first: int, last: int, level: int, hidden: bool)

  /** Every `(level, value)` under which a group is recorded. */
  function Pairs(g: Groups): (ps: set<(int, Value)>)
    ensures forall level, v :: (level, v) in ps <==> level in g && v in g[level]
    ensures forall p :: p in ps ==> p.0 in g && p.1 in g[p.0]
  {
    set level, v | level in g && v in g[level] :: (level, v)
  }

  /** The outline of a group: rows `min+1..max` at its level, collapsed at level 3. */
  function OutlineOf(g: Groups, level: int, v: Value): Outline
    requires GroupsNonEmpty(g) && level in g && v in g[level]
  {
    Outline(SetMin(g[level][v]) + 1, SetMax(g[level][v]), level, level == 3)
  }

  /** Only groups of more than one row give an outline. */
  function Outlines(g: Groups): set<Outline>
    requires GroupsNonEmpty(g)
  {
    OutlinesOf(g, Pairs(g))
  }

  /** The outlines of the groups `ps` of `g`. */
  function OutlinesOf(g: Groups, ps: set<(int, Value)>): set<Outline>
    requires GroupsNonEmpty(g) && forall p :: p in ps ==> p.0 in g && p.1 in g[p.0]
  {
    set p | p in ps && |g[p.0][p.1]| > 1 :: OutlineOf(g, p.0, p.1)
  }

  /** Visiting one more group adds its outline when it has more than one row. */
  lemma OutlinesOfAdd(g: Groups, ps: set<(int, Value)>, p: (int, Value))
    requires GroupsNonEmpty(g) && forall q :: q in ps ==> q.0 in g && q.1 in g[q.0]
    requires p.0 in g && p.1 in g[p.0]
    ensures OutlinesOf(g, ps + {p}) == OutlinesOf(g, ps) + (if |g[p.0][p.1]| > 1 then {OutlineOf(g, p.0, p.1)} else {})
  {
  }

  /** The row numbers `lo..hi`. */
  function Interval(lo: int, hi: int): (s: set<int>)
    ensures forall x :: x in s <==> lo <= x <= hi
    decreases hi - lo
  {
    if lo > hi then {} else Interval(lo, hi - 1) + {hi}
  }

  lemma {:induction false} IntervalSize(lo: int, hi: int)
    requires lo <= hi + 1
    ensures |Interval(lo, hi)| == hi - lo + 1
    decreases hi - lo
  {
    if lo <= hi {
      IntervalSize(lo, hi - 1);
      assert Interval(lo, hi) == Interval(lo, hi - 1) + {hi};
    } else {
      assert Interval(lo, hi) == {};
    }
  }

  lemma {:induction false} SubsetSize(a: set<int>, b: set<int>)
    requires a <= b && |a| == |b|
    ensures a == b
  {
    if a != {} {
      var x := PickMember(a);
      SubsetSize(a - {x}, b - {x});
    }
  }

  /** The size test of `save` holds exactly when the group has no gap. */
  lemma RunIsGapless(g: set<int>)
    requires g != {}
    ensures IsRun(g) <==> forall x :: SetMin(g) <= x <= SetMax(g) ==> x in g
  {
    var lo, hi := SetMin(g), SetMax(g);
    var full := Interval(lo, hi);
    IntervalSize(lo, hi);
    assert g <= full;
    if IsRun(g) {
      SubsetSize(g, full);
    }
    if forall x :: lo <= x <= hi ==> x in g {
      assert full <= g;
      assert g == full;
    }
  }
}
