/**
 * The proposal comparison report (proposal-compare.py): which budget items
 * count as active, the report's years, the title each code is shown under
 * with the names it had before, the history years an item is compared over,
 * the per-year sums, and the cells each item's row receives.
 */
module ProposalCompare {
  import opened Values
  import opened Keys
  import opened TableModel
  import Sorting
  import opened Strings
  import Decimal
  import Rendering
  import ReportTable

  /** The first budget year the report looks at. */
  const MIN_YEAR: int := 2021

  // ---------------------------------------------------------------------------
  // nice_code

  /** `nice_code(code)`: the code without its two leading characters, `code[2:]`. */
  function NiceCode(code: string): (r: string)
    ensures |r| == if |code| >= 2 then |code| - 2 else 0
    ensures forall k :: 0 <= k < |r| ==> r[k] == code[k + 2]
  {
    if |code| >= 2 then code[2..] else []
  }

  /** Whatever two characters precede a code, `nice_code` gives the code back. */
  lemma NiceCodeDropsPrefix(prefix: string, code: string)
    requires |prefix| == 2
    ensures NiceCode(prefix + code) == code
  {
    assert (prefix + code)[2..] == code;
  }

  // ---------------------------------------------------------------------------
  // Budget rows

  /** `net_allocated or net_revised or net_executed` */
  predicate Active(netAllocated: Amount, netRevised: Amount, netExecuted: Amount) {
    AmountTruthy(netAllocated) || AmountTruthy(netRevised) || AmountTruthy(netExecuted)
  }

  /** One year of an item's `history`: its amounts and the `code:title` entries it was budgeted under. */
  datatype HistoryRecord = HistoryRecord(netAllocated: Amount, netRevised: Amount, netExecuted: Amount, codeTitles: seq<string>)

  predicate RecordActive(r: HistoryRecord) {
    Active(r.netAllocated, r.netRevised, r.netExecuted)
  }

  /** An item's `history`, keyed by the year as text, in dictionary order; a missing or None history is empty. */
  type History = seq<(string, HistoryRecord)>

  /** A row of the connected-items data. */
  datatype ConnectedItem = ConnectedItem(
    code: string,
    year: int,
    title: string,
    netAllocated: Amount,
    netRevised: Amount,
    netExecuted: Amount,
    history: History,
    hierarchy: seq<string>,   // the code of each ancestor, `h[0]` of each `hierarchy` entry
    isProposal: bool)

  /** A row of the budget data, its code already shortened by `nice_code`. */
  datatype BudgetItem = BudgetItem(code: string, year: int, title: string, netAllocated: Amount, netRevised: Amount, netExecuted: Amount)

  predicate ItemActive(it: BudgetItem) {
    Active(it.netAllocated, it.netRevised, it.netExecuted)
  }

  /** `raw_map`: budget rows by `(year, code)`. */
  type RawMap = map<(int, string), BudgetItem>

  function BudgetKey(it: BudgetItem): (int, string) {
    (it.year, it.code)
  }

  /** `dict(((row['year'], row['code']), row) for row in raw)` */
  function RawMapOf(rows: seq<BudgetItem>): (m: RawMap)
    ensures forall i :: 0 <= i < |rows| ==> BudgetKey(rows[i]) in m
    ensures forall k :: k in m ==> BudgetKey(m[k]) == k
  {
    if rows == [] then map[]
    else
      var last := rows[|rows| - 1];
      var m := RawMapOf(rows[..|rows| - 1]);
      assert forall i :: 0 <= i < |rows| - 1 ==> rows[i] == rows[..|rows| - 1][i];
      m[BudgetKey(last) := last]
  }

  /** The position of the last budget row with key `k`, or -1 when no row has it. */
  function LastWithKey(rows: seq<BudgetItem>, k: (int, string)): (i: int)
    ensures -1 <= i < |rows|
    ensures i >= 0 ==> BudgetKey(rows[i]) == k
    ensures forall j :: i < j < |rows| ==> BudgetKey(rows[j]) != k
  {
    if rows == [] then -1
    else if BudgetKey(rows[|rows| - 1]) == k then |rows| - 1
    else LastWithKey(rows[..|rows| - 1], k)
  }

  /** Under each key `raw_map` holds the last budget row with that key: later rows replace earlier ones. */
  lemma {:induction false} RawMapKeepsLast(rows: seq<BudgetItem>, k: (int, string))
    ensures k in RawMapOf(rows) <==> LastWithKey(rows, k) >= 0
    ensures k in RawMapOf(rows) ==> RawMapOf(rows)[k] == rows[LastWithKey(rows, k)]
  {
    if rows != [] && BudgetKey(rows[|rows| - 1]) != k {
      var init := rows[..|rows| - 1];
      RawMapKeepsLast(init, k);
      if LastWithKey(init, k) >= 0 {
        assert rows[LastWithKey(init, k)] == init[LastWithKey(init, k)];
      }
    }
  }

  // ---------------------------------------------------------------------------
  // check_for_active

  /** The number of leading history keys that `int()` accepts. */
  function FirstBadKey(h: History): (n: nat)
    ensures n <= |h|
    ensures forall i :: 0 <= i < n ==> Decimal.ParseInt(h[i].0).Ok?
    ensures n < |h| ==> Decimal.ParseInt(h[n].0).Err?
  {
    if h == [] || Decimal.ParseInt(h[0].0).Err? then 0
    else 1 + FirstBadKey(h[1..])
  }

  /** History entry `i` is of a year from MIN_YEAR on and has a non-zero amount. */
  predicate ActiveEntry(h: History, i: int)
    requires 0 <= i < |h|
  {
    var y := Decimal.ParseInt(h[i].0);
    y.Ok? && y.value >= MIN_YEAR && RecordActive(h[i].1)
  }

  /**
   * `check_for_active(row)`: true when the row's own amounts are non-zero, or
   * when a history year from MIN_YEAR on has non-zero amounts and comes
   * before any key `int()` refuses; a refused key reached first raises.
   */
  method CheckForActive(row: ConnectedItem) returns (r: Result<bool, Error>)
    ensures var h := row.history; var n := FirstBadKey(h);
      var found := Active(row.netAllocated, row.netRevised, row.netExecuted)
                   || exists i :: 0 <= i < n && ActiveEntry(h, i);
      && (r == Ok(true) <==> found)
      && (r.Err? <==> !found && n < |h|)
      && (r.Err? ==> r.error == ValueError)
  {
    if Active(row.netAllocated, row.netRevised, row.netExecuted) {
      return Ok(true);
    }
    var h := row.history;
    var i := 0;
    while i < |h|
      invariant 0 <= i <= FirstBadKey(h)
      invariant forall k :: 0 <= k < i ==> !ActiveEntry(h, k)
    {
      var year := Decimal.ParseInt(h[i].0);
      if year.Err? {
        return Err(ValueError);
      }
      if year.value >= MIN_YEAR && RecordActive(h[i].1) {
        assert ActiveEntry(h, i);
        return Ok(true);
      }
      i := i + 1;
    }
    return Ok(false);
  }

  // ---------------------------------------------------------------------------
  // The years of the report

  /** `max(r['year'] for r in connected)` */
  function MaxYear(rows: seq<ConnectedItem>): (m: int)
    requires rows != []
    ensures exists i :: 0 <= i < |rows| && rows[i].year == m
    ensures forall i :: 0 <= i < |rows| ==> rows[i].year <= m
  {
    if |rows| == 1 then rows[0].year
    else
      var init := rows[..|rows| - 1];
      var m := MaxYear(init);
      assert forall i :: 0 <= i < |init| ==> rows[i] == init[i];
      if rows[|rows| - 1].year > m then rows[|rows| - 1].year else m
  }

  /** `set(r['year'] for r in connected if r['is_proposal'])` */
  function ProposalYears(rows: seq<ConnectedItem>): set<int> {
    set i | 0 <= i < |rows| && rows[i].isProposal :: rows[i].year
  }

  datatype Years = Years(maxYear: int, proposalYear: int, beforeProposalYear: int)

  /**
   * The years `process_data` starts from: the latest year of any item, and
   * the one year the proposal items share and the year before it. No items
   * fail `max`; no proposal year, or more than one, raises.
   */
  function ReportYears(rows: seq<ConnectedItem>): (r: Result<Years, Error>)
    ensures r == Err(EmptySequence) <==> rows == []
    ensures r.Ok? <==> rows != [] && |ProposalYears(rows)| == 1
    ensures r.Err? && rows != [] ==> r.error == NoProposalYear
    ensures r.Ok? ==> && ProposalYears(rows) == {r.value.proposalYear}
                      && r.value.beforeProposalYear == r.value.proposalYear - 1
                      && (exists i :: 0 <= i < |rows| && rows[i].year == r.value.maxYear)
                      && (forall i :: 0 <= i < |rows| ==> rows[i].year <= r.value.maxYear)
  {
    if rows == [] then Err(EmptySequence)
    else
      var ys := ProposalYears(rows);
      if |ys| == 1 then
        var y := SetMin(ys);
        assert |ys - {y}| == 0;
        Ok(Years(MaxYear(rows), y, y - 1))
      else Err(NoProposalYear)
  }

  // ---------------------------------------------------------------------------
  // The title of each code

  /** The years in which an active budget row of `code`, under one of the keys `ks`, carries `title`. */
  function TitleYears(raw: RawMap, ks: set<(int, string)>, code: string, title: string): set<int> {
    set k | k in ks && k in raw && ItemActive(raw[k]) && raw[k].code == code && raw[k].title == title :: raw[k].year
  }

  /** `titles_for_code_aux` before its sort: code -> title -> years. */
  type TitleIndex = map<string, map<string, set<int>>>

  /** `aux` files the years of every active row among the keys `ks` under its code and title, and nothing else. */
  ghost predicate IndexesTitles(raw: RawMap, ks: set<(int, string)>, aux: TitleIndex) {
    && (forall c :: c in aux ==> aux[c] != map[])
    && (forall c, t :: c in aux && t in aux[c] ==> aux[c][t] == TitleYears(raw, ks, c, t) && aux[c][t] != {})
    && (forall c, t :: TitleYears(raw, ks, c, t) != {} ==> c in aux && t in aux[c])
  }

  /** `aux.setdefault(code, dict()).setdefault(title, set()).add(year)` for one budget row. */
  function AddTitleYear(aux: TitleIndex, item: BudgetItem): (r: TitleIndex)
    ensures r.Keys == aux.Keys + {item.code}
    ensures item.title in r[item.code]
  {
    var byTitle := if item.code in aux then aux[item.code] else map[];
    var years := if item.title in byTitle then byTitle[item.title] else {};
    aux[item.code := byTitle[item.title := years + {item.year}]]
  }

  /** Visiting one more key adds its year under its own code and title, if its row is active. */
  lemma TitleYearsStep(raw: RawMap, ks: set<(int, string)>, k: (int, string), c: string, t: string)
    requires k in raw
    ensures TitleYears(raw, ks + {k}, c, t)
            == TitleYears(raw, ks, c, t) + (if ItemActive(raw[k]) && raw[k].code == c && raw[k].title == t then {raw[k].year} else {})
  {
  }

  /** Filing one more key keeps the index exact. */
  lemma IndexStep(raw: RawMap, ks: set<(int, string)>, aux: TitleIndex, k: (int, string))
    requires IndexesTitles(raw, ks, aux) && k in raw
    ensures IndexesTitles(raw, ks + {k}, if ItemActive(raw[k]) then AddTitleYear(aux, raw[k]) else aux)
  {
    if !ItemActive(raw[k]) {
      forall c, t
        ensures TitleYears(raw, ks + {k}, c, t) == TitleYears(raw, ks, c, t)
      {
        TitleYearsStep(raw, ks, k, c, t);
      }
    } else {
      IndexFiles(raw, ks, aux, k);
      IndexCovers(raw, ks, aux, k);
    }
  }

  /** Each title the index holds after filing an active row has exactly its years. */
  lemma IndexFiles(raw: RawMap, ks: set<(int, string)>, aux: TitleIndex, k: (int, string))
    requires IndexesTitles(raw, ks, aux) && k in raw && ItemActive(raw[k])
    ensures var aux' := AddTitleYear(aux, raw[k]);
      && (forall c :: c in aux' ==> aux'[c] != map[])
      && (forall c, t :: c in aux' && t in aux'[c] ==> aux'[c][t] == TitleYears(raw, ks + {k}, c, t) && aux'[c][t] != {})
  {
    var item := raw[k];
    var aux' := AddTitleYear(aux, item);
    forall c, t | c in aux' && t in aux'[c]
      ensures aux'[c][t] == TitleYears(raw, ks + {k}, c, t) && aux'[c][t] != {}
    {
      TitleYearsStep(raw, ks, k, c, t);
      if c == item.code && t == item.title {
        if !(c in aux && t in aux[c]) {
          assert TitleYears(raw, ks, c, t) == {};
        }
      } else {
        assert aux'[c][t] == aux[c][t];
      }
    }
  }

  /** Every code and title with a year among the keys and one active row more is in the index after filing that row. */
  lemma IndexCovers(raw: RawMap, ks: set<(int, string)>, aux: TitleIndex, k: (int, string))
    requires IndexesTitles(raw, ks, aux) && k in raw && ItemActive(raw[k])
    ensures var aux' := AddTitleYear(aux, raw[k]);
      forall c, t :: TitleYears(raw, ks + {k}, c, t) != {} ==> c in aux' && t in aux'[c]
  {
    var aux' := AddTitleYear(aux, raw[k]);
    forall c, t | TitleYears(raw, ks + {k}, c, t) != {}
      ensures c in aux' && t in aux'[c]
    {
      TitleYearsStep(raw, ks, k, c, t);
    }
  }

  /**
   * The first loop over `raw_map.values()`: each row with a non-zero amount
   * adds its year to the set kept under its code and title.
   */
  method IndexTitles(raw: RawMap) returns (aux: TitleIndex)
    ensures IndexesTitles(raw, raw.Keys, aux)
  {
    aux := map[];
    var todo := raw.Keys;
    ghost var done: set<(int, string)> := {};
    while todo != {}
      invariant todo <= raw.Keys && done == raw.Keys - todo
      invariant IndexesTitles(raw, done, aux)
      decreases todo
    {
      var k := Choose(todo);
      var item := raw[k];
      IndexStep(raw, done, aux, k);
      if ItemActive(item) {
        aux := AddTitleYear(aux, item);
      }
      done := done + {k};
      todo := todo - {k};
    }
    assert done == raw.Keys;
  }

  /** Python's order on a `(year, title)` pair. */
  function YearTitleKey(e: (int, string)): Key {
    [Num(e.0), Text(e.1)]
  }

  /**
   * `v` is `sorted((max(y), t) for t, y in by_title.items())`: one entry per
   * title, holding the last year of that title, in ascending order of year
   * and then title.
   */
  ghost predicate IsTitleHistory(byTitle: map<string, set<int>>, v: seq<(int, string)>) {
    && |v| == |byTitle|
    && (forall i :: 0 <= i < |v| ==> v[i].1 in byTitle && byTitle[v[i].1] != {} && v[i].0 == SetMax(byTitle[v[i].1]))
    && (forall t :: t in byTitle ==> exists i :: 0 <= i < |v| && v[i].1 == t)
    && (forall i, j :: 0 <= i < j < |v| ==> KeyLess(YearTitleKey(v[i]), YearTitleKey(v[j])))
  }

  /** `(max(y), t) for t, y in by_title.items()`, the titles visited in the order `ts`. */
  function LatestYears(byTitle: map<string, set<int>>, ts: seq<string>): (pairs: seq<(int, string)>)
    requires forall t :: t in ts ==> t in byTitle && byTitle[t] != {}
    ensures |pairs| == |ts|
  {
    seq(|ts|, i requires 0 <= i < |ts| => (SetMax(byTitle[ts[i]]), ts[i]))
  }

  /** Sorting pairs with distinct titles leaves no two entries with the same key. */
  lemma SortedTitlesStrict(pairs: seq<(int, string)>)
    requires forall i, j :: 0 <= i < j < |pairs| ==> pairs[i].1 != pairs[j].1
    ensures var v := Sorting.SortBy(pairs, YearTitleKey);
      forall i, j :: 0 <= i < j < |v| ==> KeyLess(YearTitleKey(v[i]), YearTitleKey(v[j]))
  {
    var v := Sorting.SortBy(pairs, YearTitleKey);
    Sorting.SortByIsPermutation(pairs, YearTitleKey);
    Sorting.SortByIsSorted(pairs, YearTitleKey);
    forall i, j | 0 <= i < j < |v|
      ensures KeyLess(YearTitleKey(v[i]), YearTitleKey(v[j]))
    {
      Sorting.SortedPairwise(v, YearTitleKey, i, j);
      if YearTitleKey(v[i]) == YearTitleKey(v[j]) {
        assert YearTitleKey(v[i])[0] == YearTitleKey(v[j])[0] && YearTitleKey(v[i])[1] == YearTitleKey(v[j])[1];
        TwiceInMultiset(v, i, j);
        AtMostOnce(pairs, v[i]);
        assert false;
      }
    }
  }

  /** One entry of `titles_for_code_aux` sorted: each title with the last year it was used. */
  method TitleHistory(byTitle: map<string, set<int>>) returns (v: seq<(int, string)>)
    requires forall t :: t in byTitle ==> byTitle[t] != {}
    ensures IsTitleHistory(byTitle, v)
  {
    var ts := Enumerate(byTitle.Keys);
    var pairs := LatestYears(byTitle, ts);
    v := Sorting.SortBy(pairs, YearTitleKey);
    Sorting.SortByIsPermutation(pairs, YearTitleKey);
    Sorting.SortByLength(pairs, YearTitleKey);
    SortedTitlesStrict(pairs);
    forall i | 0 <= i < |v|
      ensures v[i].1 in byTitle && byTitle[v[i].1] != {} && v[i].0 == SetMax(byTitle[v[i].1])
    {
      assert v[i] in multiset(pairs);
    }
    forall t | t in byTitle
      ensures exists i :: 0 <= i < |v| && v[i].1 == t
    {
      var k :| 0 <= k < |ts| && ts[k] == t;
      assert pairs[k] in multiset(v);
      var i :| 0 <= i < |v| && v[i] == pairs[k];
    }
  }

  /** Every code of `hist` holds the sorted titles of its `aux` entry. */
  ghost predicate AllHistories(aux: TitleIndex, hist: map<string, seq<(int, string)>>) {
    forall c :: c in hist ==> c in aux && IsTitleHistory(aux[c], hist[c])
  }

  /** Adding the sorted titles of one more code keeps every entry sorted. */
  lemma {:induction false} HistoriesExtend(aux: TitleIndex, hist: map<string, seq<(int, string)>>, c: string, v: seq<(int, string)>)
    requires AllHistories(aux, hist) && c in aux && IsTitleHistory(aux[c], v)
    ensures AllHistories(aux, hist[c := v])
  {
    forall c' | c' in hist[c := v]
      ensures c' in aux && IsTitleHistory(aux[c'], hist[c := v][c'])
    {
      if c' != c {
        assert hist[c := v][c'] == hist[c'];
      }
    }
  }

  /** The second loop: every code's titles sorted by their last year. */
  method SortTitleHistories(aux: TitleIndex) returns (hist: map<string, seq<(int, string)>>)
    requires forall c, t :: c in aux && t in aux[c] ==> aux[c][t] != {}
    ensures hist.Keys == aux.Keys
    ensures forall c :: c in aux ==> IsTitleHistory(aux[c], hist[c])
  {
    hist := map[];
    var todo := aux.Keys;
    while todo != {}
      invariant todo <= aux.Keys && hist.Keys == aux.Keys - todo
      invariant AllHistories(aux, hist)
      decreases todo
    {
      var c := Choose(todo);
      var v := TitleHistory(aux[c]);
      HistoriesExtend(aux, hist, c, v);
      hist := hist[c := v];
      todo := todo - {c};
    }
  }

  /** `titles_for_code`: the last entry of each code's sorted titles. */
  function TitlesFor(hist: map<string, seq<(int, string)>>): (r: map<string, (int, string)>)
    requires forall c :: c in hist ==> hist[c] != []
    ensures r.Keys == hist.Keys
  {
    map c | c in hist :: hist[c][|hist[c]| - 1]
  }

  /** One entry of a rename comment: "until year y it was called t". */
  function RenameNote(e: (int, string)): string {
    "עד שנת " + Decimal.IntToString(e.0) + " נקרא " + e.1
  }

  /** The rename comment of the titles a code had before its current one, oldest first. */
  function RenameComment(earlier: seq<(int, string)>): string {
    Join(seq(|earlier|, i requires 0 <= i < |earlier| => RenameNote(earlier[i])), ", ")
  }

  /** `titles_comments_for_code`: a comment for each code that had more than one title. */
  function CommentsFor(hist: map<string, seq<(int, string)>>): (r: map<string, string>)
    ensures r.Keys == set c | c in hist && |hist[c]| > 1
  {
    map c | c in hist && |hist[c]| > 1 :: RenameComment(hist[c][..|hist[c]| - 1])
  }

  /**
   * The title shown for a code is one of its titles, the one used in the
   * latest year (between titles last used in the same year, the greater).
   */
  lemma ShownTitleIsLatest(byTitle: map<string, set<int>>, v: seq<(int, string)>)
    requires IsTitleHistory(byTitle, v) && byTitle != map[]
    ensures v != []
    ensures var shown := v[|v| - 1];
      && shown.1 in byTitle && byTitle[shown.1] != {} && shown.0 == SetMax(byTitle[shown.1])
      && forall t :: t in byTitle ==> byTitle[t] != {} && KeyLe(YearTitleKey((SetMax(byTitle[t]), t)), YearTitleKey(shown))
  {
    var t0 := PickMember(byTitle.Keys);
    TitleNotAfterShown(byTitle, v, t0);
    forall t | t in byTitle
      ensures byTitle[t] != {} && KeyLe(YearTitleKey((SetMax(byTitle[t]), t)), YearTitleKey(v[|v| - 1]))
    {
      TitleNotAfterShown(byTitle, v, t);
    }
  }

  /** Each title, with its last year, sorts no later than the last entry. */
  lemma TitleNotAfterShown(byTitle: map<string, set<int>>, v: seq<(int, string)>, t: string)
    requires IsTitleHistory(byTitle, v) && t in byTitle
    ensures v != [] && byTitle[t] != {}
    ensures KeyLe(YearTitleKey((SetMax(byTitle[t]), t)), YearTitleKey(v[|v| - 1]))
  {
    var i :| 0 <= i < |v| && v[i].1 == t;
    assert v[i] == (SetMax(byTitle[t]), t);
    if i < |v| - 1 {
      assert KeyLess(YearTitleKey(v[i]), YearTitleKey(v[|v| - 1]));
    }
  }

  /**
   * A code gets a rename comment exactly when it had more than one title; the
   * comment lists the other titles, each with the last year it was used.
   */
  lemma RenameCommentIffRenamed(byTitle: map<string, set<int>>, v: seq<(int, string)>)
    requires IsTitleHistory(byTitle, v)
    ensures |v| > 1 <==> |byTitle| > 1
    ensures forall i :: 0 <= i < |v| - 1 ==>
      && v[i].1 in byTitle && v[i].1 != v[|v| - 1].1 && v[i].0 == SetMax(byTitle[v[i].1])
  {
    forall i | 0 <= i < |v| - 1
      ensures v[i].1 != v[|v| - 1].1
    {
      assert KeyLess(YearTitleKey(v[i]), YearTitleKey(v[|v| - 1]));
      if v[i].1 == v[|v| - 1].1 {
        assert v[i] == v[|v| - 1];
        KeyLessIrreflexive(YearTitleKey(v[i]));
      }
    }
  }

  // ---------------------------------------------------------------------------
  // The years an item is compared over

  /** One entry of an item's `keys`: a year and the codes the item was budgeted under in it. */
  datatype YearCodes = YearCodes(year: int, codes: seq<string>)

  /** `x.split(':')[0]`: the text before the first colon. */
  function BeforeColon(s: string): (r: string)
    ensures |r| <= |s| && r == s[..|r|]
    ensures forall k :: 0 <= k < |r| ==> r[k] != ':'
    ensures |r| < |s| ==> s[|r|] == ':'
  {
    if s == [] || s[0] == ':' then [] else [s[0]] + BeforeColon(s[1..])
  }

  /** `[nice_code(x.split(':')[0]) for x in rec['code_titles']]` */
  function RecordCodes(r: HistoryRecord): (cs: seq<string>)
    ensures |cs| == |r.codeTitles|
  {
    seq(|r.codeTitles|, i requires 0 <= i < |r.codeTitles| => NiceCode(BeforeColon(r.codeTitles[i])))
  }

  /** `list((int(k), v) for k, v in history.items())`: the first key `int()` refuses raises. */
  function ParseHistory(h: History): (r: Result<seq<(int, HistoryRecord)>, Error>)
    ensures r.Ok? <==> FirstBadKey(h) == |h|
    ensures r.Err? ==> r.error == ValueError
    ensures r.Ok? ==> |r.value| == |h| && forall i :: 0 <= i < |h| ==> r.value[i] == (Decimal.ParseInt(h[i].0).value, h[i].1)
  {
    if h == [] then Ok([])
    else
      match Decimal.ParseInt(h[0].0)
      case Err(_) => Err(ValueError)
      case Ok(y) =>
        match ParseHistory(h[1..])
        case Err(e) => Err(e)
        case Ok(rest) => Ok([(y, h[0].1)] + rest)
  }

  /** `key=lambda x: x[0], reverse=True`: later years first, entries of one year in their old order. */
  function NewestFirstKey(e: (int, HistoryRecord)): Key {
    [Num(-e.0)]
  }

  /** In newest-first order an earlier entry's year is at least a later one's. */
  lemma NewestFirstYears(s: seq<(int, HistoryRecord)>, i: int, j: int)
    requires Sorting.SortedBy(s, NewestFirstKey) && 0 <= i <= j < |s|
    ensures s[j].0 <= s[i].0
  {
    Sorting.SortedPairwise(s, NewestFirstKey, i, j);
    SingleNumKeyOrder(-s[i].0, -s[j].0);
  }

  /** The history entries the item is compared over, as a filter: active records from MIN_YEAR on. */
  function KeptYears(s: seq<(int, HistoryRecord)>): seq<YearCodes> {
    if s == [] then []
    else
      var last := s[|s| - 1];
      KeptYears(s[..|s| - 1])
        + (if last.0 >= MIN_YEAR && RecordActive(last.1) then [YearCodes(last.0, RecordCodes(last.1))] else [])
  }

  /** Once the newest-first entries reach a year before MIN_YEAR, none after it is kept: the loop may stop there. */
  lemma {:induction false} KeptYearsStopAt(s: seq<(int, HistoryRecord)>, i: int)
    requires Sorting.SortedBy(s, NewestFirstKey) && 0 <= i < |s| && s[i].0 < MIN_YEAR
    ensures KeptYears(s) == KeptYears(s[..i])
    decreases |s|
  {
    var init := s[..|s| - 1];
    NewestFirstYears(s, i, |s| - 1);
    if i < |s| - 1 {
      assert Sorting.SortedBy(init, NewestFirstKey) by {
        assert forall k :: 0 <= k < |init| ==> init[k] == s[k];
      }
      assert init[i] == s[i];
      KeptYearsStopAt(init, i);
      assert init[..i] == s[..i];
    }
  }

  /**
   * The `keys` of one item: its own year and code first, then, newest year
   * first, each active history year from MIN_YEAR on with the codes it was
   * budgeted under. A history key `int()` refuses raises.
   */
  method HistoryKeys(year: int, code: string, history: History) returns (r: Result<seq<YearCodes>, Error>)
    ensures r.Err? <==> FirstBadKey(history) < |history|
    ensures r.Err? ==> r.error == ValueError
    ensures r.Ok? ==> r.value == [YearCodes(year, [code])] + KeptYears(Sorting.SortBy(ParseHistory(history).value, NewestFirstKey))
    ensures r == ItemKeys(year, code, history)
  {
    var keys := [YearCodes(year, [code])];
    var parsed := ParseHistory(history);
    if parsed.Err? {
      return Err(ValueError);
    }
    var sorted := Sorting.SortBy(parsed.value, NewestFirstKey);
    Sorting.SortByIsSorted(parsed.value, NewestFirstKey);
    var i := 0;
    while i < |sorted|
      invariant 0 <= i <= |sorted|
      invariant keys == [YearCodes(year, [code])] + KeptYears(sorted[..i])
    {
      var e := sorted[i];
      if e.0 < MIN_YEAR {
        KeptYearsStopAt(sorted, i);
        return Ok(keys);
      }
      if RecordActive(e.1) {
        keys := keys + [YearCodes(e.0, RecordCodes(e.1))];
      }
      assert sorted[..i + 1][..i] == sorted[..i];
      i := i + 1;
    }
    assert sorted[..i] == sorted;
    return Ok(keys);
  }

  /** The `keys` `HistoryKeys` builds, or the ValueError it raises. */
  function ItemKeys(year: int, code: string, history: History): (r: Result<seq<YearCodes>, Error>)
    ensures r.Err? <==> FirstBadKey(history) < |history|
    ensures r.Ok? ==> |r.value| >= 1 && r.value[0] == YearCodes(year, [code])
  {
    match ParseHistory(history)
    case Err(_) => Err(ValueError)
    case Ok(parsed) => Ok([YearCodes(year, [code])] + KeptYears(Sorting.SortBy(parsed, NewestFirstKey)))
  }

  /** The entry of history element `e` when it is kept. */
  predicate KeptAs(e: (int, HistoryRecord), k: YearCodes) {
    e.0 >= MIN_YEAR && RecordActive(e.1) && k == YearCodes(e.0, RecordCodes(e.1))
  }

  lemma {:induction false} KeptYearsMembers(s: seq<(int, HistoryRecord)>)
    ensures forall k :: k in KeptYears(s) <==> exists i :: 0 <= i < |s| && KeptAs(s[i], k)
  {
    if s != [] {
      var init := s[..|s| - 1];
      KeptYearsMembers(init);
      assert forall i :: 0 <= i < |init| ==> init[i] == s[i];
    }
  }

  /** Each entry's year is at most the one before it. */
  predicate YearsNewestFirst(ks: seq<YearCodes>) {
    forall i, j :: 0 <= i < j < |ks| ==> ks[j].year <= ks[i].year
  }

  lemma {:induction false} KeptYearsNewestFirst(s: seq<(int, HistoryRecord)>)
    requires Sorting.SortedBy(s, NewestFirstKey)
    ensures YearsNewestFirst(KeptYears(s))
  {
    if s != [] {
      var init := s[..|s| - 1];
      var last := s[|s| - 1];
      assert Sorting.SortedBy(init, NewestFirstKey) by {
        assert forall k :: 0 <= k < |init| ==> init[k] == s[k];
      }
      KeptYearsNewestFirst(init);
      KeptYearsMembers(init);
      var prev := KeptYears(init);
      if last.0 >= MIN_YEAR && RecordActive(last.1) {
        var ks := KeptYears(s);
        assert ks == prev + [YearCodes(last.0, RecordCodes(last.1))];
        forall i | 0 <= i < |prev|
          ensures last.0 <= prev[i].year
        {
          assert prev[i] in prev;
          var k :| 0 <= k < |init| && KeptAs(init[k], prev[i]);
          NewestFirstYears(s, k, |s| - 1);
        }
        forall i, j | 0 <= i < j < |ks|
          ensures ks[j].year <= ks[i].year
        {
          assert ks[i] == prev[i];
          if j < |prev| {
            assert ks[j] == prev[j];
          } else {
            assert ks[j].year == last.0;
            assert last.0 <= prev[i].year;
          }
        }
      } else {
        assert KeptYears(s) == prev;
      }
    }
  }

  /**
   * After the item's own entry, its `keys` list exactly the active history
   * years from MIN_YEAR on, each with the codes it was budgeted under, newest
   * year first.
   */
  lemma HistoryKeysMeaning(h: History)
    requires FirstBadKey(h) == |h|
    ensures var ks := KeptYears(Sorting.SortBy(ParseHistory(h).value, NewestFirstKey));
      && YearsNewestFirst(ks)
      && (forall k :: k in ks ==> exists i :: 0 <= i < |h| && ActiveEntry(h, i)
                                      && k == YearCodes(Decimal.ParseInt(h[i].0).value, RecordCodes(h[i].1)))
      && (forall i :: 0 <= i < |h| && ActiveEntry(h, i) ==>
                        YearCodes(Decimal.ParseInt(h[i].0).value, RecordCodes(h[i].1)) in ks)
  {
    var p := ParseHistory(h).value;
    var sorted := Sorting.SortBy(p, NewestFirstKey);
    var ks := KeptYears(sorted);
    Sorting.SortByIsSorted(p, NewestFirstKey);
    Sorting.SortByIsPermutation(p, NewestFirstKey);
    KeptYearsNewestFirst(sorted);
    forall k | k in ks
      ensures exists i :: 0 <= i < |h| && ActiveEntry(h, i)
                          && k == YearCodes(Decimal.ParseInt(h[i].0).value, RecordCodes(h[i].1))
    {
      ListedEntryKept(h, sorted, k);
    }
    forall i | 0 <= i < |h| && ActiveEntry(h, i)
      ensures YearCodes(Decimal.ParseInt(h[i].0).value, RecordCodes(h[i].1)) in ks
    {
      KeptEntryListed(h, sorted, i);
    }
  }

  /** Every kept entry of a reordering of the parsed history comes from an active history year from MIN_YEAR on. */
  lemma ListedEntryKept(h: History, sorted: seq<(int, HistoryRecord)>, k: YearCodes)
    requires FirstBadKey(h) == |h|
    requires multiset(sorted) == multiset(ParseHistory(h).value)
    requires k in KeptYears(sorted)
    ensures exists i :: 0 <= i < |h| && ActiveEntry(h, i)
                        && k == YearCodes(Decimal.ParseInt(h[i].0).value, RecordCodes(h[i].1))
  {
    var p := ParseHistory(h).value;
    KeptYearsMembers(sorted);
    var i :| 0 <= i < |sorted| && KeptAs(sorted[i], k);
    assert sorted[i] in multiset(p);
    var j :| 0 <= j < |p| && p[j] == sorted[i];
    assert ActiveEntry(h, j);
  }

  /** A kept history entry lands among the kept entries of any reordering of the parsed history. */
  lemma KeptEntryListed(h: History, sorted: seq<(int, HistoryRecord)>, i: int)
    requires FirstBadKey(h) == |h| && 0 <= i < |h| && ActiveEntry(h, i)
    requires multiset(sorted) == multiset(ParseHistory(h).value)
    ensures YearCodes(Decimal.ParseInt(h[i].0).value, RecordCodes(h[i].1)) in KeptYears(sorted)
  {
    var p := ParseHistory(h).value;
    var k := YearCodes(Decimal.ParseInt(h[i].0).value, RecordCodes(h[i].1));
    assert p[i] in multiset(sorted);
    var j :| 0 <= j < |sorted| && sorted[j] == p[i];
    assert KeptAs(sorted[j], k);
    KeptYearsMembers(sorted);
  }

  // ---------------------------------------------------------------------------
  // The sums of one year

  /**
   * The codes of `codes` that count toward one year's sums: present in the
   * budget data, not used by an earlier row or year, and each only once.
   */
  function Contributing(year: int, codes: seq<string>, raw: RawMap, used: set<(int, string)>): (cs: seq<string>)
    ensures forall c :: c in cs ==> (year, c) in raw
  {
    if codes == [] then []
    else
      var prev := Contributing(year, codes[..|codes| - 1], raw, used);
      var c := codes[|codes| - 1];
      if (year, c) !in used && (year, c) in raw && c !in prev then prev + [c] else prev
  }

  /** The contributing codes are each listed once, and they are exactly the listed codes in the data and not used yet. */
  lemma {:induction false} ContributingMeaning(year: int, codes: seq<string>, raw: RawMap, used: set<(int, string)>)
    ensures NoDup(Contributing(year, codes, raw, used))
    ensures forall c :: c in Contributing(year, codes, raw, used) <==> c in codes && (year, c) in raw && (year, c) !in used
  {
    if codes != [] {
      var init := codes[..|codes| - 1];
      ContributingMeaning(year, init, raw, used);
      assert codes == init + [codes[|codes| - 1]];
    }
  }

  /** The keys of one year's contributing codes. */
  function UsedKeys(year: int, cs: seq<string>): set<(int, string)> {
    set c | c in cs :: (year, c)
  }

  /**
   * Once a year's codes are summed, none of them counts again in that year,
   * whichever later list it appears in: each key is counted once.
   */
  lemma SummedOnce(year: int, codes: seq<string>, later: seq<string>, raw: RawMap, used: set<(int, string)>)
    ensures var cs := Contributing(year, codes, raw, used);
      forall c :: c in Contributing(year, later, raw, used + UsedKeys(year, cs)) ==> c !in cs
  {
    var cs := Contributing(year, codes, raw, used);
    ContributingMeaning(year, later, raw, used + UsedKeys(year, cs));
  }

  /** `sum = (sum or 0) + x` over the amounts that are not None: None when every amount is. */
  function SumPresent(xs: seq<Amount>): Amount {
    if xs == [] then None
    else
      var prev := SumPresent(xs[..|xs| - 1]);
      match xs[|xs| - 1]
      case None => prev
      case Some(x) => Some((if prev.Some? then prev.value else 0) + x)
  }

  /** The sum of the amounts, a missing one counting as zero. */
  function Total(xs: seq<Amount>): int {
    if xs == [] then 0
    else (if xs[0].Some? then xs[0].value else 0) + Total(xs[1..])
  }

  lemma {:induction false} TotalAppend(xs: seq<Amount>, x: Amount)
    ensures Total(xs + [x]) == Total(xs) + (if x.Some? then x.value else 0)
  {
    if xs != [] {
      assert (xs + [x])[1..] == xs[1..] + [x];
      TotalAppend(xs[1..], x);
    }
  }

  lemma {:induction false} TotalOfNone(xs: seq<Amount>)
    requires forall i :: 0 <= i < |xs| ==> xs[i].None?
    ensures Total(xs) == 0
  {
    if xs != [] {
      TotalOfNone(xs[1..]);
    }
  }

  /** A year's sum is None exactly when no code has that amount, and otherwise the total of the amounts present. */
  lemma {:induction false} SumPresentMeaning(xs: seq<Amount>)
    ensures SumPresent(xs) == if forall i :: 0 <= i < |xs| ==> xs[i].None? then None else Some(Total(xs))
  {
    if xs != [] {
      var init := xs[..|xs| - 1];
      var last := xs[|xs| - 1];
      SumPresentMeaning(init);
      assert xs == init + [last];
      TotalAppend(init, last);
      assert forall i :: 0 <= i < |init| ==> init[i] == xs[i];
      var noneBefore := forall i :: 0 <= i < |init| ==> init[i].None?;
      if last.None? {
        assert (forall i :: 0 <= i < |xs| ==> xs[i].None?) <==> noneBefore;
      } else {
        assert !(forall i :: 0 <= i < |xs| ==> xs[i].None?) by {
          assert !xs[|xs| - 1].None?;
        }
        if noneBefore {
          assert Total(init) == 0 by {
            TotalOfNone(init);
          }
        }
      }
    }
  }

  datatype AmountField = Allocated | Revised | Executed

  function AmountOf(it: BudgetItem, f: AmountField): Amount {
    match f
    case Allocated => it.netAllocated
    case Revised => it.netRevised
    case Executed => it.netExecuted
  }

  /** One amount of each contributing code's budget row. */
  function Amounts(year: int, cs: seq<string>, raw: RawMap, f: AmountField): (xs: seq<Amount>)
    requires forall c :: c in cs ==> (year, c) in raw
    ensures |xs| == |cs|
  {
    seq(|cs|, i requires 0 <= i < |cs| => AmountOf(raw[(year, cs[i])], f))
  }

  /** What the inner loop over a year's codes collects. */
  datatype YearSums = YearSums(titles: seq<string>, codes: seq<string>, sumAllocated: Amount, sumRevised: Amount, sumExecuted: Amount)

  /** The three sums of the amounts of `cs`. */
  ghost predicate SumsOf(sums: YearSums, year: int, cs: seq<string>, raw: RawMap)
    requires forall c :: c in cs ==> (year, c) in raw
  {
    && sums.codes == cs
    && |sums.titles| == |cs| && (forall i :: 0 <= i < |cs| ==> sums.titles[i] == raw[(year, cs[i])].title)
    && sums.sumAllocated == SumPresent(Amounts(year, cs, raw, Allocated))
    && sums.sumRevised == SumPresent(Amounts(year, cs, raw, Revised))
    && sums.sumExecuted == SumPresent(Amounts(year, cs, raw, Executed))
  }

  /** The amounts after one more code are the amounts before and that code's. */
  lemma AmountsAppend(year: int, cs: seq<string>, c: string, raw: RawMap, f: AmountField)
    requires forall c :: c in cs ==> (year, c) in raw
    requires (year, c) in raw
    ensures Amounts(year, cs + [c], raw, f) == Amounts(year, cs, raw, f) + [AmountOf(raw[(year, c)], f)]
  {
  }

  /** One more contributing code adds its title, its code and its amounts to the sums. */
  lemma {:induction false} SumsOfAppend(sums: YearSums, year: int, cs: seq<string>, c: string, raw: RawMap)
    requires forall c :: c in cs ==> (year, c) in raw
    requires (year, c) in raw && SumsOf(sums, year, cs, raw)
    ensures var item := raw[(year, c)];
      SumsOf(YearSums(sums.titles + [item.title], cs + [c], AddPresent(sums.sumAllocated, item.netAllocated),
                      AddPresent(sums.sumRevised, item.netRevised), AddPresent(sums.sumExecuted, item.netExecuted)),
             year, cs + [c], raw)
  {
    AmountsAppend(year, cs, c, raw, Allocated);
    AmountsAppend(year, cs, c, raw, Revised);
    AmountsAppend(year, cs, c, raw, Executed);
    forall f: AmountField
      ensures Amounts(year, cs + [c], raw, f)[..|cs|] == Amounts(year, cs, raw, f)
    {
    }
  }

  /** `(sum or 0) + x` when x is present. */
  function AddPresent(sum: Amount, x: Amount): Amount {
    if x.None? then sum else Some((if sum.Some? then sum.value else 0) + x.value)
  }

  /**
   * The loop over the codes of one entry of `keys`: each code not used yet
   * and present in the budget data adds its title, its code and its amounts,
   * and becomes used.
   */
  method SumYear(year: int, codes: seq<string>, raw: RawMap, used: set<(int, string)>)
      returns (sums: YearSums, usedAfter: set<(int, string)>)
    ensures SumsOf(sums, year, Contributing(year, codes, raw, used), raw)
    ensures usedAfter == used + UsedKeys(year, sums.codes)
  {
    var titles: seq<string> := [];
    var cs: seq<string> := [];
    var sumAllocated: Amount := None;
    var sumRevised: Amount := None;
    var sumExecuted: Amount := None;
    usedAfter := used;
    var i := 0;
    while i < |codes|
      invariant 0 <= i <= |codes|
      invariant cs == Contributing(year, codes[..i], raw, used)
      invariant SumsOf(YearSums(titles, cs, sumAllocated, sumRevised, sumExecuted), year, cs, raw)
      invariant usedAfter == used + UsedKeys(year, cs)
    {
      var c := codes[i];
      assert codes[..i + 1][..i] == codes[..i];
      if (year, c) !in usedAfter && (year, c) in raw {
        var item := raw[(year, c)];
        SumsOfAppend(YearSums(titles, cs, sumAllocated, sumRevised, sumExecuted), year, cs, c, raw);
        titles := titles + [item.title];
        cs := cs + [c];
        sumAllocated := AddPresent(sumAllocated, item.netAllocated);
        sumRevised := AddPresent(sumRevised, item.netRevised);
        sumExecuted := AddPresent(sumExecuted, item.netExecuted);
        usedAfter := usedAfter + {(year, c)};
      }
      i := i + 1;
    }
    assert codes[..i] == codes;
    sums := YearSums(titles, cs, sumAllocated, sumRevised, sumExecuted);
  }

  /** The sums of the contributing codes `cs`, as the loop over a year's codes collects them. */
  function SumsFor(year: int, cs: seq<string>, raw: RawMap): (sums: YearSums)
    requires forall c :: c in cs ==> (year, c) in raw
    ensures SumsOf(sums, year, cs, raw)
  {
    YearSums(seq(|cs|, i requires 0 <= i < |cs| => raw[(year, cs[i])].title), cs,
      SumPresent(Amounts(year, cs, raw, Allocated)),
      SumPresent(Amounts(year, cs, raw, Revised)),
      SumPresent(Amounts(year, cs, raw, Executed)))
  }

  /** The sums are determined by the contributing codes. */
  lemma SumsOfUnique(a: YearSums, b: YearSums, year: int, cs: seq<string>, raw: RawMap)
    requires forall c :: c in cs ==> (year, c) in raw
    requires SumsOf(a, year, cs, raw) && SumsOf(b, year, cs, raw)
    ensures a == b
  {
    assert a.titles == b.titles;
  }

  // ---------------------------------------------------------------------------
  // The cells of an item's row

  // The hierarchy columns

  /** The code and name column titles of the four hierarchy levels: section, area, program, regulation. */
  const CODE_TITLES: seq<string> := ["קוד סעיף", "קוד תחום", "קוד תכנית", "קוד תקנה"]
  const NAME_TITLES: seq<string> := ["שם סעיף", "שם תחום", "שם תכנית", "שם תקנה"]

  /** One entry of `code_titles`: a code, the title shown for it and its rename comment or None. */
  type CodeTitle = (string, string, Value)

  function Names(): Options {
    map["background_color" := VStr(BG_COLOR_NAMES)]
  }

  /** The eight empty hierarchy cells every row starts with. */
  function BlankHierarchy(): seq<Write> {
    [ Write(CODE_TITLES[0], VStr(""), 0, Names()), Write(NAME_TITLES[0], VStr(""), 1, Names()),
      Write(CODE_TITLES[1], VStr(""), 10, Names()), Write(NAME_TITLES[1], VStr(""), 11, Names()),
      Write(CODE_TITLES[2], VStr(""), 20, Names()), Write(NAME_TITLES[2], VStr(""), 21, Names()),
      Write(CODE_TITLES[3], VStr(""), 30, Names()), Write(NAME_TITLES[3], VStr(""), 31, Names()) ]
  }

  /** The options of a level's code cell: the names fill, in bold on the program level. */
  function LevelOptions(level: nat): Options {
    if level == 2 then Names()["bold" := VBool(true)] else Names()
  }

  /** `=\"code\"`: a formula that keeps a code's leading zeros. */
  function CodeFormula(code: string): string {
    "=\"" + code + "\""
  }

  /** The code and name cells of `code_titles[level..]`, one level at a time, up to the fourth level. */
  function LevelWrites(ct: seq<CodeTitle>, level: nat): seq<Write>
    requires level <= 4
    decreases 4 - level
  {
    if level == 4 || level >= |ct| then []
    else
      var (code, title, comment) := ct[level];
      [ Write(CODE_TITLES[level], VStr(CodeFormula(code)), 10 * level, LevelOptions(level)),
        Write(NAME_TITLES[level], VStr(title), 10 * level + 1, LevelOptions(level)["comment" := comment]) ]
      + LevelWrites(ct, level + 1)
  }

  /** The hierarchy cells of a row. */
  function HierarchyWrites(ct: seq<CodeTitle>): (ws: seq<Write>)
    ensures Settable(ws)
    ensures |ws| == 8 + 2 * (if |ct| < 4 then |ct| else 4)
  {
    LevelWritesShape(ct, 0);
    SettableAppend(BlankHierarchy(), LevelWrites(ct, 0));
    BlankHierarchy() + LevelWrites(ct, 0)
  }

  lemma {:induction false} LevelWritesShape(ct: seq<CodeTitle>, level: nat)
    requires level <= 4
    ensures Settable(LevelWrites(ct, level))
    ensures |LevelWrites(ct, level)| == 2 * (if |ct| < 4 then (if level < |ct| then |ct| - level else 0) else 4 - level)
    ensures forall w :: w in LevelWrites(ct, level) ==> 10 * level <= w.order <= 31
    decreases 4 - level
  {
    if level < 4 && level < |ct| {
      LevelWritesShape(ct, level + 1);
      var (code, title, comment) := ct[level];
      SettableAppend([ Write(CODE_TITLES[level], VStr(CodeFormula(code)), 10 * level, LevelOptions(level)),
                       Write(NAME_TITLES[level], VStr(title), 10 * level + 1, LevelOptions(level)["comment" := comment]) ],
                     LevelWrites(ct, level + 1));
    }
  }

  /**
   * Level `l` of `code_titles`, for each of the first four, is shown in that
   * level's two columns: the code as a formula and the title, with the
   * level's entry comment on the title. The eight blank cells come first,
   * so a level with no entry stays blank.
   */
  lemma HierarchyCells(ct: seq<CodeTitle>, l: nat)
    requires l < 4 && l < |ct|
    ensures var ws := HierarchyWrites(ct);
      && ws[8 + 2 * l] == Write(CODE_TITLES[l], VStr(CodeFormula(ct[l].0)), 10 * l, LevelOptions(l))
      && ws[8 + 2 * l + 1] == Write(NAME_TITLES[l], VStr(ct[l].1), 10 * l + 1, LevelOptions(l)["comment" := ct[l].2])
  {
    LevelWritesShape(ct, 0);
    LevelWritesAt(ct, 0, l);
  }

  lemma {:induction false} LevelWritesAt(ct: seq<CodeTitle>, level: nat, l: nat)
    requires level <= l < 4 && l < |ct|
    ensures |LevelWrites(ct, level)| >= 2 * (l - level) + 2
    ensures LevelWrites(ct, level)[2 * (l - level)] == Write(CODE_TITLES[l], VStr(CodeFormula(ct[l].0)), 10 * l, LevelOptions(l))
    ensures LevelWrites(ct, level)[2 * (l - level) + 1] == Write(NAME_TITLES[l], VStr(ct[l].1), 10 * l + 1, LevelOptions(l)["comment" := ct[l].2])
    decreases l - level
  {
    if level < l {
      LevelWritesAt(ct, level + 1, l);
    }
  }

  /**
   * The ancestor entries of `code_titles`: each ancestor's code shortened,
   * with the title shown for it and no comment; an ancestor without a shown
   * title raises KeyError.
   */
  function AncestorTitles(hs: seq<string>, titles: map<string, (int, string)>): (r: Result<seq<CodeTitle>, Error>)
    ensures r.Ok? <==> forall i :: 0 <= i < |hs| ==> NiceCode(hs[i]) in titles
    ensures r.Err? ==> r.error == KeyError
    ensures r.Ok? ==> |r.value| == |hs| && forall i :: 0 <= i < |hs| ==>
      NiceCode(hs[i]) in titles && r.value[i] == (NiceCode(hs[i]), titles[NiceCode(hs[i])].1, VNone)
  {
    if hs == [] then Ok([])
    else if NiceCode(hs[0]) !in titles then Err(KeyError)
    else
      match AncestorTitles(hs[1..], titles)
      case Err(e) => Err(e)
      case Ok(rest) => Ok([(NiceCode(hs[0]), titles[NiceCode(hs[0])].1, VNone)] + rest)
  }

  /** `code_titles`: the ancestors below the root, then the item itself with its rename comment or None. */
  function CodeTitles(item: ConnectedItem, titles: map<string, (int, string)>, comments: map<string, string>): (r: Result<seq<CodeTitle>, Error>)
    ensures r.Err? ==> r.error == KeyError
    ensures r.Ok? ==> |r.value| == (if item.hierarchy == [] then 0 else |item.hierarchy| - 1) + 1
    ensures r.Ok? ==> r.value[|r.value| - 1] == (item.code, item.title, if item.code in comments then VStr(comments[item.code]) else VNone)
  {
    var ancestors := if item.hierarchy == [] then [] else item.hierarchy[1..];
    match AncestorTitles(ancestors, titles)
    case Err(e) => Err(e)
    case Ok(up) => Ok(up + [(item.code, item.title, if item.code in comments then VStr(comments[item.code]) else VNone)])
  }

  // The year columns

  /** An amount in millions, `amount / 1000000`. */
  function Millions(x: int): Value {
    VReal(x as real / 1000000.0)
  }

  /** The comment of a year whose codes or titles differ from the item's own: "in year y the item was called titles - codes". */
  function NameNote(y: int, titles: string, codes: string): string {
    "בשנת " + Decimal.IntToString(y) + " הסעיף נקרא " + titles + " - " + codes
  }

  /** The options of a year's cells: bold in the latest year, banded, one decimal, and the name note when the names differ. */
  function YearOptions(y: int, sums: YearSums, code: string, title: string, maxYear: int): Options {
    var base := map["bold" := VBool(y == maxYear), "parity" := VBool(true), "number_format" := VStr("#,##0.0")];
    var codes := Join(sums.codes, ", ");
    var titles := Join(sums.titles, ", ");
    if codes != code || titles != title then base["comment" := VStr(NameNote(y, titles, codes))] else base
  }

  /** The comment of a zero allocation: the existing comment, then the approved budget, or else the executed one, when non-zero. */
  function ZeroNote(options: Options, sums: YearSums): string {
    var c := if "comment" in options && options["comment"].VStr? then options["comment"].s else "";
    var c := if c != "" then c + "\n" else c;
    if AmountTruthy(sums.sumRevised) then c + ":התקציב המאושר " + Decimal.Thousands(sums.sumRevised.value)
    else if AmountTruthy(sums.sumExecuted) then c + ":התקציב המבוצע " + Decimal.Thousands(sums.sumExecuted.value)
    else c
  }

  /** The title of year `y`'s allocated, approved and executed columns. */
  function AllocatedTitle(y: int): string {
    Decimal.IntToString(y)
  }

  function RevisedTitle(y: int): string {
    Decimal.IntToString(y) + " מאושר"
  }

  function ExecutedTitle(y: int): string {
    Decimal.IntToString(y) + " מבוצע"
  }

  /**
   * The cells of one entry of `keys`, year `y`: the allocated amount when
   * some contributing code had one, and in the year before the proposal
   * also the approved and executed amounts when present.
   */
  function YearWrites(y: int, sums: YearSums, code: string, title: string, years: Years): (ws: seq<Write>)
    ensures Settable(ws)
  {
    var options := YearOptions(y, sums, code, title, years.maxYear);
    var a, r, e := AllocatedWrites(y, sums, options, years), ApprovedWrites(y, sums, options, years), ExecutedWrites(y, sums, options, years);
    SettableAppend(a, r);
    SettableAppend(a + r, e);
    a + r + e
  }

  /** The allocated cell of year `y`; a zero allocation before the latest year carries its `ZeroNote`. */
  function AllocatedWrites(y: int, sums: YearSums, options: Options, years: Years): seq<Write> {
    if sums.sumAllocated.None? then []
    else
      var a := sums.sumAllocated.value;
      var o := if a == 0 && y != years.maxYear then options["comment" := VStr(ZeroNote(options, sums))] else options;
      [Write(AllocatedTitle(y), Millions(a), y * 100 + 1, o)]
  }

  function ApprovedWrites(y: int, sums: YearSums, options: Options, years: Years): seq<Write> {
    if y == years.beforeProposalYear && sums.sumRevised.Some?
    then [Write(RevisedTitle(y), Millions(sums.sumRevised.value), y * 100 + 2, options)] else []
  }

  function ExecutedWrites(y: int, sums: YearSums, options: Options, years: Years): seq<Write> {
    if y == years.beforeProposalYear && sums.sumExecuted.Some?
    then [Write(ExecutedTitle(y), Millions(sums.sumExecuted.value), y * 100 + 3, options)] else []
  }

  /**
   * A year's allocated column is written exactly when some contributing
   * code had an allocation, with the sum in millions; its approved and
   * executed columns only in the year before the proposal.
   */
  lemma YearCells(y: int, sums: YearSums, code: string, title: string, years: Years)
    ensures var ws := YearWrites(y, sums, code, title, years);
      && (forall w :: w in ws ==> y * 100 + 1 <= w.order <= y * 100 + 3)
      && ((exists w :: w in ws && w.title == AllocatedTitle(y)) <==> sums.sumAllocated.Some?)
      && (forall w :: w in ws && w.title == AllocatedTitle(y) ==> w.value == Millions(sums.sumAllocated.value) && w.order == y * 100 + 1)
      && ((exists w :: w in ws && w.title == RevisedTitle(y)) <==> y == years.beforeProposalYear && sums.sumRevised.Some?)
      && ((exists w :: w in ws && w.title == ExecutedTitle(y)) <==> y == years.beforeProposalYear && sums.sumExecuted.Some?)
  {
    var o := YearOptions(y, sums, code, title, years.maxYear);
    var a, r, e := AllocatedWrites(y, sums, o, years), ApprovedWrites(y, sums, o, years), ExecutedWrites(y, sums, o, years);
    var ws := YearWrites(y, sums, code, title, years);
    assert ws == a + r + e;
    TitlesDiffer(y);
    YearWriteKinds(y, sums, code, title, years);
    if sums.sumAllocated.Some? {
      assert a[0] in ws;
    }
    if y == years.beforeProposalYear && sums.sumRevised.Some? {
      assert r[0] in ws;
    }
    if y == years.beforeProposalYear && sums.sumExecuted.Some? {
      assert e[0] in ws;
    }
  }

  /** Each cell of a year is its allocated, approved or executed column, written only when that sum is present. */
  lemma YearWriteKinds(y: int, sums: YearSums, code: string, title: string, years: Years)
    ensures forall w :: w in YearWrites(y, sums, code, title, years) ==>
      || (w.title == AllocatedTitle(y) && w.order == y * 100 + 1 && sums.sumAllocated.Some? && w.value == Millions(sums.sumAllocated.value))
      || (w.title == RevisedTitle(y) && w.order == y * 100 + 2 && y == years.beforeProposalYear && sums.sumRevised.Some?)
      || (w.title == ExecutedTitle(y) && w.order == y * 100 + 3 && y == years.beforeProposalYear && sums.sumExecuted.Some?)
  {
    var o := YearOptions(y, sums, code, title, years.maxYear);
    var a, r, e := AllocatedWrites(y, sums, o, years), ApprovedWrites(y, sums, o, years), ExecutedWrites(y, sums, o, years);
    assert YearWrites(y, sums, code, title, years) == a + r + e;
    forall w | w in a + r + e
      ensures w in a || w in r || w in e
    {
    }
  }

  /** The hierarchy cells sit before every year's columns. */
  lemma HierarchyOrders(ct: seq<CodeTitle>)
    ensures forall h :: h in HierarchyWrites(ct) ==> h.order <= 31
  {
    LevelWritesShape(ct, 0);
  }

  /** A year's cells sit in the column scores of that year. */
  lemma YearOrders(y: int, sums: YearSums, code: string, title: string, years: Years)
    ensures forall w :: w in YearWrites(y, sums, code, title, years) ==> y * 100 + 1 <= w.order <= y * 100 + 3
  {
    var o := YearOptions(y, sums, code, title, years.maxYear);
    var a, r, e := AllocatedWrites(y, sums, o, years), ApprovedWrites(y, sums, o, years), ExecutedWrites(y, sums, o, years);
    assert YearWrites(y, sums, code, title, years) == a + r + e;
  }

  /** The change cells sit after the latest year's columns. */
  lemma ChangeOrders(a: Value, b: Value, c: Value, maxYear: int)
    ensures forall w :: w in ChangeWrites(a, b, c, maxYear) ==> (maxYear + 1) * 100 + 1 <= w.order <= (maxYear + 1) * 100 + 2
  {
  }

  /** The three column titles of a year are different. */
  lemma TitlesDiffer(y: int)
    ensures AllocatedTitle(y) != RevisedTitle(y) && AllocatedTitle(y) != ExecutedTitle(y) && RevisedTitle(y) != ExecutedTitle(y)
  {
    var n := |Decimal.IntToString(y)|;
    assert RevisedTitle(y)[n + 2] != ExecutedTitle(y)[n + 2];
    assert |AllocatedTitle(y)| < |RevisedTitle(y)|;
  }

  // The change columns

  const CHANGE_FROM_ORIGINAL: string := "שינוי מול מקורי 2024"
  const CHANGE_FROM_APPROVED: string := "שינוי מול מאושר 2024"

  /** The options of a change cell: not bold, banded, coloured by `color_scheme_red_green`, as a percentage. */
  function ChangeOptions(): Options {
    map["bold" := VBool(false), "parity" := VInt(1), "background_color" := VFn(RedGreen), "number_format" := VStr("0%")]
  }

  /** `(a - b) / b`, when both cells hold a number and `b > 0`. */
  function Change(a: Value, b: Value): Option<real> {
    if a.VReal? && b.VReal? && b.r > 0.0 then Some((a.r - b.r) / b.r) else None
  }

  /**
   * The change of the proposal's allocation against the allocation and the
   * approved budget of the year before, each written only when both cells
   * are there and the base is positive.
   */
  function ChangeWrites(maxAllocated: Value, beforeAllocated: Value, beforeRevised: Value, maxYear: int): (ws: seq<Write>)
    ensures Settable(ws)
  {
    (match Change(maxAllocated, beforeAllocated)
     case None => []
     case Some(x) => [Write(CHANGE_FROM_ORIGINAL, VReal(x), (maxYear + 1) * 100 + 1, ChangeOptions())])
    + (match Change(maxAllocated, beforeRevised)
       case None => []
       case Some(x) => [Write(CHANGE_FROM_APPROVED, VReal(x), (maxYear + 1) * 100 + 2, ChangeOptions())])
  }

  /**
   * A change against base `b` is coloured red exactly when the proposal is
   * more than 5% above the base, green exactly when more than 5% below it.
   */
  lemma ChangeColour(a: real, b: real)
    requires b > 0.0
    ensures var c := Rendering.Classify((a - b) / b);
      && (c == Rendering.RED <==> a > 1.05 * b)
      && (c == Rendering.GREEN <==> a < 0.95 * b)
  {
    var x := (a - b) / b;
    assert x * b == a - b;
    if x > 0.05 {
      assert x * b > 0.05 * b;
    } else {
      assert x * b <= 0.05 * b;
    }
    if x < -0.05 {
      assert x * b < -0.05 * b;
    } else {
      assert x * b >= -0.05 * b;
    }
  }

  /** The change columns appear exactly when the change can be computed, and sit after the latest year. */
  lemma ChangeCells(a: Value, b: Value, c: Value, maxYear: int)
    ensures var ws := ChangeWrites(a, b, c, maxYear);
      && (forall w :: w in ws ==> (maxYear + 1) * 100 + 1 <= w.order <= (maxYear + 1) * 100 + 2 && w.options == ChangeOptions())
      && ((exists w :: w in ws && w.title == CHANGE_FROM_ORIGINAL) <==> a.VReal? && b.VReal? && b.r > 0.0)
      && ((exists w :: w in ws && w.title == CHANGE_FROM_APPROVED) <==> a.VReal? && c.VReal? && c.r > 0.0)
  {
    var ws := ChangeWrites(a, b, c, maxYear);
    if a.VReal? && b.VReal? && b.r > 0.0 {
      assert ws[0].title == CHANGE_FROM_ORIGINAL;
    }
    if a.VReal? && c.VReal? && c.r > 0.0 {
      assert ws[|ws| - 1].title == CHANGE_FROM_APPROVED;
    }
  }

  // The column layout

  /**
   * The header scores order the columns: the hierarchy columns first, then
   * the columns of each year in ascending year order, allocated, approved
   * and executed, then the two change columns. A score `o` is the key
   * `[o]`, and keys `[o]` sort as the numbers do (`SingleNumKeyOrder`).
   */
  lemma ColumnLayout(ct: seq<CodeTitle>, y: int, sums: YearSums, y': int, sums': YearSums, code: string, title: string,
                     years: Years, a: Value, b: Value, c: Value)
    requires 1 <= y < y' <= years.maxYear
    ensures forall h, w :: h in HierarchyWrites(ct) && w in YearWrites(y, sums, code, title, years) ==> h.order < w.order
    ensures forall w, w' :: w in YearWrites(y, sums, code, title, years) && w' in YearWrites(y', sums', code, title, years) ==> w.order < w'.order
    ensures forall w', x :: w' in YearWrites(y', sums', code, title, years) && x in ChangeWrites(a, b, c, years.maxYear) ==> w'.order < x.order
  {
    HierarchyOrders(ct);
    YearOrders(y, sums, code, title, years);
    YearOrders(y', sums', code, title, years);
    ChangeOrders(a, b, c, years.maxYear);
  }

  // ---------------------------------------------------------------------------
  // The row of one item

  /** The row key `(code, year)`. */
  function RowKeyOf(item: ConnectedItem): Key {
    [Text(item.code), Num(item.year)]
  }

  /** The year cells of the entries of `keys`, in order, and the used keys after them. */
  function KeysWrites(keys: seq<YearCodes>, raw: RawMap, used: set<(int, string)>, code: string, title: string, years: Years)
    : (r: (seq<Write>, set<(int, string)>))
    ensures Settable(r.0)
    decreases |keys|
  {
    if keys == [] then ([], used)
    else
      var e := keys[0];
      var cs := Contributing(e.year, e.codes, raw, used);
      var rest := KeysWrites(keys[1..], raw, used + UsedKeys(e.year, cs), code, title, years);
      var ws := YearWrites(e.year, SumsFor(e.year, cs, raw), code, title, years);
      SettableAppend(ws, rest.0);
      (ws + rest.0, rest.1)
  }

  /**
   * The used keys only grow over an item's years, by keys of the budget data
   * that were not used before: nothing is counted twice.
   */
  lemma {:induction false} KeysUseFreshPairs(keys: seq<YearCodes>, raw: RawMap, used: set<(int, string)>, code: string, title: string, years: Years)
    ensures var after := KeysWrites(keys, raw, used, code, title, years).1;
      && used <= after
      && forall k :: k in after && k !in used ==> k in raw
    decreases |keys|
  {
    if keys != [] {
      var e := keys[0];
      var cs := Contributing(e.year, e.codes, raw, used);
      KeysUseFreshPairs(keys[1..], raw, used + UsedKeys(e.year, cs), code, title, years);
    }
  }

  /** All the cells of an item's row: hierarchy, years, then the changes computed from the row's own cells. */
  function RowWrites(item: ConnectedItem, keys: seq<YearCodes>, ct: seq<CodeTitle>, raw: RawMap, used: set<(int, string)>, years: Years)
    : (ws: seq<Write>)
    ensures Settable(ws)
  {
    var hier := HierarchyWrites(ct);
    var kw := KeysWrites(keys, raw, used, item.code, item.title, years).0;
    SettableAppend(hier, kw);
    var front := hier + kw;
    var b := years.beforeProposalYear;
    var cell := (t: string) => LastValue(front, t, VNone);
    var changes := ChangeWrites(cell(AllocatedTitle(years.maxYear)), cell(AllocatedTitle(b)), cell(RevisedTitle(b)), years.maxYear);
    SettableAppend(front, changes);
    front + changes
  }

  /** What making an item's row does to the table, and the used keys after it. */
  function RowOutcome(s: TableState, item: ConnectedItem, keys: seq<YearCodes>, ct: seq<CodeTitle>, raw: RawMap, used: set<(int, string)>, years: Years)
    : (TableState, set<(int, string)>)
  {
    (ApplyWrites(NewRowState(s, RowKeyOf(item)), RowWrites(item, keys, ct, raw, used, years)),
     KeysWrites(keys, raw, used, item.code, item.title, years).1)
  }

  /**
   * An item's row is one new row, keyed `(code, year)`, after the rows
   * before it, which stay as they were; it holds exactly the titles written,
   * each with its last written value.
   */
  lemma RowAppended(s: TableState, item: ConnectedItem, keys: seq<YearCodes>, ct: seq<CodeTitle>, raw: RawMap, used: set<(int, string)>, years: Years)
    ensures var r := RowOutcome(s, item, keys, ct, raw, used, years).0;
      var ws := RowWrites(item, keys, ct, raw, used, years);
      && |r.rows| == |s.rows| + 1 && r.rows[..|s.rows|] == s.rows
      && r.rows[|s.rows|].key == RowKeyOf(item)
      && r.groups == s.groups
      && (forall t :: t in r.rows[|s.rows|].cells <==> Writes(ws, t))
      && (forall t :: GetValue(r, t) == LastValue(ws, t, VNone))
  {
    var s0 := NewRowState(s, RowKeyOf(item));
    ApplyWritesKeepsRows(s0, RowWrites(item, keys, ct, raw, used, years));
    ApplyWritesCells(s0, RowWrites(item, keys, ct, raw, used, years));
    assert s0.rows[..|s.rows|] == s.rows;
  }

  /** The loop over an item's `keys`: each entry summed, then its year cells written. */
  method EmitYears(table: ReportTable.Table, keys: seq<YearCodes>, raw: RawMap, used: set<(int, string)>,
                   code: string, title: string, years: Years) returns (usedAfter: set<(int, string)>)
    requires table.Valid()
    modifies table
    ensures table.Valid()
    ensures table.State() == ApplyWrites(old(table.State()), KeysWrites(keys, raw, used, code, title, years).0)
    ensures usedAfter == KeysWrites(keys, raw, used, code, title, years).1
  {
    ghost var all := KeysWrites(keys, raw, used, code, title, years);
    usedAfter := used;
    var k := 0;
    while k < |keys|
      invariant 0 <= k <= |keys| && table.Valid()
      invariant ApplyWrites(table.State(), KeysWrites(keys[k..], raw, usedAfter, code, title, years).0) == ApplyWrites(old(table.State()), all.0)
      invariant KeysWrites(keys[k..], raw, usedAfter, code, title, years).1 == all.1
    {
      var e := keys[k];
      assert keys[k..][0] == e && keys[k..][1..] == keys[k + 1..];
      ghost var ws := YearWrites(e.year, SumsFor(e.year, Contributing(e.year, e.codes, raw, usedAfter), raw), code, title, years);
      ApplyWritesAppend(table.State(), ws, KeysWrites(keys[k + 1..], raw, usedAfter + UsedKeys(e.year, Contributing(e.year, e.codes, raw, usedAfter)), code, title, years).0);
      usedAfter := EmitYear(table, e, raw, usedAfter, code, title, years);
      k := k + 1;
    }
  }

  /** One entry of `keys`: its codes summed, then its year cells written. */
  method EmitYear(table: ReportTable.Table, e: YearCodes, raw: RawMap, used: set<(int, string)>, code: string, title: string, years: Years)
    returns (usedAfter: set<(int, string)>)
    requires table.Valid()
    modifies table
    ensures table.Valid()
    ensures var cs := Contributing(e.year, e.codes, raw, used);
      && table.State() == ApplyWrites(old(table.State()), YearWrites(e.year, SumsFor(e.year, cs, raw), code, title, years))
      && usedAfter == used + UsedKeys(e.year, cs)
  {
    var sums, u := SumYear(e.year, e.codes, raw, used);
    ghost var cs := Contributing(e.year, e.codes, raw, used);
    SumsOfUnique(sums, SumsFor(e.year, cs, raw), e.year, cs, raw);
    var ws := YearWrites(e.year, sums, code, title, years);
    ReportTable.Emit(table, ws);
    usedAfter := u;
  }

  /** Writing an item's row: `new_row`, the hierarchy cells, each entry of `keys` summed and written, then the changes. */
  method ItemRow(table: ReportTable.Table, item: ConnectedItem, keys: seq<YearCodes>, ct: seq<CodeTitle>, raw: RawMap,
                 used: set<(int, string)>, years: Years) returns (usedAfter: set<(int, string)>)
    requires table.Valid()
    modifies table
    ensures table.Valid()
    ensures (table.State(), usedAfter) == RowOutcome(old(table.State()), item, keys, ct, raw, used, years)
  {
    table.NewRow(RowKeyOf(item));
    ghost var s0 := table.State();
    var hier := HierarchyWrites(ct);
    ReportTable.Emit(table, hier);
    usedAfter := EmitYears(table, keys, raw, used, item.code, item.title, years);
    ghost var front := hier + KeysWrites(keys, raw, used, item.code, item.title, years).0;
    ApplyWritesAppend(s0, hier, KeysWrites(keys, raw, used, item.code, item.title, years).0);
    ApplyWritesCells(s0, front);
    var b := years.beforeProposalYear;
    var changes := ChangeWrites(table.Get(AllocatedTitle(years.maxYear)), table.Get(AllocatedTitle(b)), table.Get(RevisedTitle(b)), years.maxYear);
    ApplyWritesAppend(s0, front, changes);
    ReportTable.Emit(table, changes);
  }

  // ---------------------------------------------------------------------------
  // process_data

  const REPORT_TITLE: string := "השוואת הצעת התקציב"
  const GROUP_FIELDS: seq<string> := ["קוד סעיף", "קוד תחום", "קוד תכנית"]
  const CLEANUP_FIELDS: seq<string> := ["קוד סעיף", "שם סעיף", "קוד תחום", "שם תחום", "קוד תכנית", "שם תכנית"]

  /** Every code of the index has at least one title, so its sorted titles are not empty. */
  lemma HistoriesNonEmpty(aux: TitleIndex, hist: map<string, seq<(int, string)>>)
    requires hist.Keys == aux.Keys
    requires forall c :: c in aux ==> aux[c] != map[] && IsTitleHistory(aux[c], hist[c])
    ensures forall c :: c in hist ==> hist[c] != []
  {
    forall c | c in hist
      ensures hist[c] != []
    {
      assert |hist[c]| == |aux[c]|;
    }
  }

  // ---------------------------------------------------------------------------
  // The shown titles

  /**
   * `titles` and `comments` are those `hist`, the sorted titles of each code
   * of `aux`, gives: each code's last title is shown, and a code with more
   * than one title gets the rename comment.
   */
  ghost predicate ShownFrom(aux: TitleIndex, hist: map<string, seq<(int, string)>>,
                            titles: map<string, (int, string)>, comments: map<string, string>) {
    && hist.Keys == aux.Keys
    && AllHistories(aux, hist)
    && (forall c :: c in hist ==> hist[c] != [])
    && titles == TitlesFor(hist)
    && comments == CommentsFor(hist)
  }

  /** `titles_for_code` and `titles_comments_for_code` as the budget data `raw` determines them. */
  ghost predicate ShownFor(raw: RawMap, titles: map<string, (int, string)>, comments: map<string, string>) {
    exists aux, hist :: IndexesTitles(raw, raw.Keys, aux) && ShownFrom(aux, hist, titles, comments)
  }

  /** The index of the titles is determined by the budget data. */
  lemma IndexUnique(raw: RawMap, ks: set<(int, string)>, aux: TitleIndex, aux': TitleIndex)
    requires IndexesTitles(raw, ks, aux) && IndexesTitles(raw, ks, aux')
    ensures aux == aux'
  {
    forall c | c in aux
      ensures c in aux' && aux[c] == aux'[c]
    {
      IndexEntryUnique(raw, ks, aux, aux', c);
    }
    forall c | c in aux'
      ensures c in aux
    {
      IndexEntryUnique(raw, ks, aux', aux, c);
    }
  }

  lemma IndexEntryUnique(raw: RawMap, ks: set<(int, string)>, aux: TitleIndex, aux': TitleIndex, c: string)
    requires IndexesTitles(raw, ks, aux) && IndexesTitles(raw, ks, aux') && c in aux
    ensures c in aux' && aux[c] == aux'[c]
  {
    var t :| t in aux[c];
    assert TitleYears(raw, ks, c, t) != {};
    assert aux[c].Keys == aux'[c].Keys;
  }

  /** Strictly ascending by `YearTitleKey`. */
  predicate StrictlyAscending(v: seq<(int, string)>) {
    forall i, j :: 0 <= i < j < |v| ==> KeyLess(YearTitleKey(v[i]), YearTitleKey(v[j]))
  }

  lemma SameMembersEmpty(v: seq<(int, string)>, w: seq<(int, string)>)
    requires forall x :: x in v <==> x in w
    ensures v == [] <==> w == []
  {
    if v != [] {
      assert v[0] in w;
    }
    if w != [] {
      assert w[0] in v;
    }
  }

  /** The least member comes first. */
  lemma SameMembersHead(v: seq<(int, string)>, w: seq<(int, string)>)
    requires StrictlyAscending(v) && StrictlyAscending(w) && v != [] && w != []
    requires forall x :: x in v <==> x in w
    ensures v[0] == w[0]
  {
    assert v[0] in w;
    var j :| 0 <= j < |w| && w[j] == v[0];
    assert w[0] in v;
    var i :| 0 <= i < |v| && v[i] == w[0];
    if v[0] != w[0] {
      assert i > 0 && j > 0;
      KeyLessAsymmetric(YearTitleKey(v[0]), YearTitleKey(v[i]));
    }
  }

  /** A later member of `v` is a later member of `w`. */
  lemma SameMembersTail(v: seq<(int, string)>, w: seq<(int, string)>, x: (int, string))
    requires StrictlyAscending(v) && StrictlyAscending(w) && v != [] && w != [] && v[0] == w[0]
    requires forall y :: y in v <==> y in w
    requires x in v[1..]
    ensures x in w[1..]
  {
    var a :| 0 <= a < |v[1..]| && v[1..][a] == x;
    assert v[a + 1] == x;
    assert KeyLess(YearTitleKey(v[0]), YearTitleKey(x));
    assert x in w;
    var b :| 0 <= b < |w| && w[b] == x;
    if b == 0 {
      KeyLessIrreflexive(YearTitleKey(x));
    }
    assert w[1..][b - 1] == x;
  }

  /** Two sequences strictly ascending by `YearTitleKey` with the same members are equal. */
  lemma {:induction false} StrictlyAscendingUnique(v: seq<(int, string)>, w: seq<(int, string)>)
    requires StrictlyAscending(v) && StrictlyAscending(w)
    requires forall x :: x in v <==> x in w
    ensures v == w
    decreases |v|
  {
    SameMembersEmpty(v, w);
    if v != [] {
      SameMembersHead(v, w);
      forall x
        ensures x in v[1..] <==> x in w[1..]
      {
        if x in v[1..] {
          SameMembersTail(v, w, x);
        }
        if x in w[1..] {
          SameMembersTail(w, v, x);
        }
      }
      StrictlyAscendingUnique(v[1..], w[1..]);
      assert v == [v[0]] + v[1..] && w == [w[0]] + w[1..];
    }
  }

  /** A code's sorted titles are determined by its titles and their years. */
  lemma HistoryUnique(byTitle: map<string, set<int>>, v: seq<(int, string)>, w: seq<(int, string)>)
    requires IsTitleHistory(byTitle, v) && IsTitleHistory(byTitle, w)
    ensures v == w
  {
    forall x
      ensures x in v <==> x in w
    {
      if x in v {
        var i :| 0 <= i < |v| && v[i] == x;
        var j :| 0 <= j < |w| && w[j].1 == x.1;
      }
      if x in w {
        var j :| 0 <= j < |w| && w[j] == x;
        var i :| 0 <= i < |v| && v[i].1 == x.1;
      }
    }
    StrictlyAscendingUnique(v, w);
  }

  /** Over one index, the sorted titles are determined. */
  lemma HistoriesUnique(aux: TitleIndex, hist: map<string, seq<(int, string)>>, hist': map<string, seq<(int, string)>>)
    requires hist.Keys == aux.Keys && hist'.Keys == aux.Keys
    requires AllHistories(aux, hist) && AllHistories(aux, hist')
    ensures hist == hist'
  {
    forall c | c in hist
      ensures hist[c] == hist'[c]
    {
      HistoryUnique(aux[c], hist[c], hist'[c]);
    }
  }

  /** The budget data determines the shown titles and the rename comments. */
  lemma ShownForUnique(raw: RawMap, titles: map<string, (int, string)>, comments: map<string, string>,
                       titles': map<string, (int, string)>, comments': map<string, string>)
    requires ShownFor(raw, titles, comments) && ShownFor(raw, titles', comments')
    ensures titles == titles' && comments == comments'
  {
    var aux, hist :| IndexesTitles(raw, raw.Keys, aux) && ShownFrom(aux, hist, titles, comments);
    var aux', hist' :| IndexesTitles(raw, raw.Keys, aux') && ShownFrom(aux', hist', titles', comments');
    IndexUnique(raw, raw.Keys, aux, aux');
    HistoriesUnique(aux, hist, hist');
  }

  /**
   * `titles_for_code` and `titles_comments_for_code` from the budget data:
   * for each code the last of its sorted titles, and the rename comment of
   * each code with more than one.
   */
  method ShownTitles(raw: RawMap) returns (titles: map<string, (int, string)>, comments: map<string, string>, ghost hist: map<string, seq<(int, string)>>)
    ensures exists aux :: IndexesTitles(raw, raw.Keys, aux) && hist.Keys == aux.Keys && AllHistories(aux, hist)
    ensures hist.Keys == titles.Keys
    ensures forall c :: c in hist ==> hist[c] != [] && titles[c] == hist[c][|hist[c]| - 1]
    ensures comments == CommentsFor(hist)
    ensures ShownFor(raw, titles, comments)
  {
    var aux := IndexTitles(raw);
    var sorted := SortTitleHistories(aux);
    HistoriesNonEmpty(aux, sorted);
    titles := TitlesFor(sorted);
    comments := CommentsFor(sorted);
    hist := sorted;
    assert ShownFrom(aux, hist, titles, comments);
  }

  // ---------------------------------------------------------------------------
  // The loops of process_data

  /**
   * What the loops of `process_data` carry from item to item: the table, the
   * used `(year, code)` pairs, and, one entry per row written, the pairs
   * that row summed.
   */
  datatype Progress = Progress(table: TableState, used: set<(int, string)>, counted: seq<set<(int, string)>>)

  /**
   * One item in the loop over the items of `year`: an item of another year,
   * or whose `(year, code)` is used, is skipped; otherwise `keys` raises
   * ValueError on a bad history key, `code_titles` raises KeyError on an
   * ancestor without a title, and else the item's row is written.
   */
  function ItemOutcome(p: Progress, item: ConnectedItem, year: int, raw: RawMap, titles: map<string, (int, string)>,
                       comments: map<string, string>, ys: Years): (r: Result<Progress, Error>)
    ensures r.Err? ==> r.error in {ValueError, KeyError}
  {
    if item.year != year || (year, item.code) in p.used then Ok(p)
    else
      match ItemKeys(year, item.code, item.history)
      case Err(e) => Err(e)
      case Ok(keys) =>
        match CodeTitles(item, titles, comments)
        case Err(e) => Err(e)
        case Ok(ct) =>
          var out := RowOutcome(p.table, item, keys, ct, raw, p.used, ys);
          Ok(Progress(out.0, out.1, p.counted + [out.1 - p.used]))
  }

  lemma RowOutcomeWellFormed(s: TableState, item: ConnectedItem, keys: seq<YearCodes>, ct: seq<CodeTitle>, raw: RawMap,
                             used: set<(int, string)>, years: Years)
    requires WellFormed(s)
    ensures WellFormed(RowOutcome(s, item, keys, ct, raw, used, years).0)
  {
    NewRowAppendsOneRow(s, RowKeyOf(item));
    ApplyWritesWellFormed(NewRowState(s, RowKeyOf(item)), RowWrites(item, keys, ct, raw, used, years));
  }

  /** The loop over `items` for one year, stopping at the first item that raises. */
  function YearFold(p: Progress, year: int, items: seq<ConnectedItem>, raw: RawMap, titles: map<string, (int, string)>,
                    comments: map<string, string>, ys: Years): (r: Result<Progress, Error>)
    ensures r.Err? ==> r.error in {ValueError, KeyError}
    decreases |items|
  {
    if items == [] then Ok(p)
    else
      match ItemOutcome(p, items[0], year, raw, titles, comments, ys)
      case Err(e) => Err(e)
      case Ok(q) => YearFold(q, year, items[1..], raw, titles, comments, ys)
  }

  /** The loops keep the table well formed. */
  lemma ItemWellFormed(p: Progress, item: ConnectedItem, year: int, raw: RawMap, titles: map<string, (int, string)>,
                       comments: map<string, string>, ys: Years)
    requires WellFormed(p.table)
    ensures var r := ItemOutcome(p, item, year, raw, titles, comments, ys);
      r.Ok? ==> WellFormed(r.value.table)
  {
    if !(item.year != year || (year, item.code) in p.used) && ItemOutcome(p, item, year, raw, titles, comments, ys).Ok? {
      RowOutcomeWellFormed(p.table, item, ItemKeys(year, item.code, item.history).value, CodeTitles(item, titles, comments).value,
                           raw, p.used, ys);
    }
  }

  lemma {:induction false} YearFoldWellFormed(p: Progress, year: int, items: seq<ConnectedItem>, raw: RawMap,
                                              titles: map<string, (int, string)>, comments: map<string, string>, ys: Years)
    requires WellFormed(p.table)
    ensures var r := YearFold(p, year, items, raw, titles, comments, ys);
      r.Ok? ==> WellFormed(r.value.table)
    decreases |items|
  {
    if items != [] {
      ItemWellFormed(p, items[0], year, raw, titles, comments, ys);
      var q := ItemOutcome(p, items[0], year, raw, titles, comments, ys);
      if q.Ok? {
        YearFoldWellFormed(q.value, year, items[1..], raw, titles, comments, ys);
      }
    }
  }

  lemma {:induction false} YearsFoldWellFormed(p: Progress, year: int, items: seq<ConnectedItem>, raw: RawMap,
                                               titles: map<string, (int, string)>, comments: map<string, string>, ys: Years)
    requires WellFormed(p.table)
    ensures var r := YearsFold(p, year, items, raw, titles, comments, ys);
      r.Ok? ==> WellFormed(r.value.table)
    decreases year - MIN_YEAR + 1
  {
    if year >= MIN_YEAR {
      YearFoldWellFormed(p, year, items, raw, titles, comments, ys);
      var q := YearFold(p, year, items, raw, titles, comments, ys);
      if q.Ok? {
        YearsFoldWellFormed(q.value, year - 1, items, raw, titles, comments, ys);
      }
    }
  }

  /** The loop over the years from `year` down to MIN_YEAR, stopping at the first item that raises. */
  function YearsFold(p: Progress, year: int, items: seq<ConnectedItem>, raw: RawMap, titles: map<string, (int, string)>,
                     comments: map<string, string>, ys: Years): (r: Result<Progress, Error>)
    ensures r.Err? ==> r.error in {ValueError, KeyError}
    decreases year - MIN_YEAR + 1
  {
    if year < MIN_YEAR then Ok(p)
    else
      match YearFold(p, year, items, raw, titles, comments, ys)
      case Err(e) => Err(e)
      case Ok(q) => YearsFold(q, year - 1, items, raw, titles, comments, ys)
  }

  /**
   * `process_data` from the loaded data on, given the shown titles and
   * comments: the saved sheet, or the error raised, and the pairs each row
   * summed.
   */
  function ProcessOutcome(budget: seq<BudgetItem>, connected: seq<ConnectedItem>, titles: map<string, (int, string)>,
                          comments: map<string, string>): (Result<ReportTable.Sheet, Error>, seq<set<(int, string)>>)
  {
    match ReportYears(connected)
    case Err(e) => (Err(e), [])
    case Ok(ys) =>
      match YearsFold(Progress(EmptyState(), {}, []), ys.maxYear, connected, RawMapOf(budget), titles, comments, ys)
      case Err(e) => (Err(e), [])
      case Ok(p) =>
        YearsFoldWellFormed(Progress(EmptyState(), {}, []), ys.maxYear, connected, RawMapOf(budget), titles, comments, ys);
        (ReportTable.SaveOutcome(p.table, REPORT_TITLE, GROUP_FIELDS, CLEANUP_FIELDS).1, p.counted)
  }

  // What the loops keep

  /** Rows summing pairwise disjoint sets of pairs, none used before them, all used by now. */
  ghost predicate SeparateRows(rows: seq<set<(int, string)>>, used: set<(int, string)>, u: set<(int, string)>) {
    && (forall i, j :: 0 <= i < j < |rows| ==> rows[i] !! rows[j])
    && (forall i :: 0 <= i < |rows| ==> rows[i] !! used && rows[i] <= u)
  }

  /**
   * `q` comes from `p` by appending rows: the used pairs grow by pairs of the
   * budget data, the earlier rows and their pairs stay, and each new row has
   * its own pairs, none used before it.
   */
  ghost predicate Extends(p: Progress, q: Progress, raw: RawMap) {
    && p.used <= q.used
    && (forall k :: k in q.used && k !in p.used ==> k in raw)
    && |p.counted| <= |q.counted| && q.counted[..|p.counted|] == p.counted
    && SeparateRows(q.counted[|p.counted|..], p.used, q.used)
    && |p.table.rows| <= |q.table.rows| && q.table.rows[..|p.table.rows|] == p.table.rows
    && |q.table.rows| - |p.table.rows| == |q.counted| - |p.counted|
  }

  lemma ExtendsTransitive(p: Progress, q: Progress, r: Progress, raw: RawMap)
    requires Extends(p, q, raw) && Extends(q, r, raw)
    ensures Extends(p, r, raw)
  {
    var a := q.counted[|p.counted|..];
    var b := r.counted[|q.counted|..];
    var all := r.counted[|p.counted|..];
    assert all == a + b;
    forall i, j | 0 <= i < j < |all|
      ensures all[i] !! all[j]
    {
      if j >= |a| && i < |a| {
        assert all[i] == a[i] && a[i] <= q.used;
        assert all[j] == b[j - |a|];
      }
    }
    assert r.table.rows[..|p.table.rows|] == r.table.rows[..|q.table.rows|][..|p.table.rows|];
    assert r.counted[..|p.counted|] == r.counted[..|q.counted|][..|p.counted|];
  }

  /** One item appends at most one row, summing pairs no row summed before. */
  lemma ItemExtends(p: Progress, item: ConnectedItem, year: int, raw: RawMap, titles: map<string, (int, string)>,
                    comments: map<string, string>, ys: Years)
    ensures var r := ItemOutcome(p, item, year, raw, titles, comments, ys);
      r.Ok? ==> Extends(p, r.value, raw)
  {
    var r := ItemOutcome(p, item, year, raw, titles, comments, ys);
    if r.Ok? && !(item.year != year || (year, item.code) in p.used) {
      var keys := ItemKeys(year, item.code, item.history).value;
      var ct := CodeTitles(item, titles, comments).value;
      RowExtends(p, item, keys, ct, raw, ys);
    } else if r.Ok? {
      assert r.value.counted[|p.counted|..] == [];
    }
  }

  /** Writing an item's row appends that row and one entry of counted pairs, all fresh. */
  lemma RowExtends(p: Progress, item: ConnectedItem, keys: seq<YearCodes>, ct: seq<CodeTitle>, raw: RawMap, ys: Years)
    ensures var out := RowOutcome(p.table, item, keys, ct, raw, p.used, ys);
      Extends(p, Progress(out.0, out.1, p.counted + [out.1 - p.used]), raw)
  {
    var out := RowOutcome(p.table, item, keys, ct, raw, p.used, ys);
    RowAppended(p.table, item, keys, ct, raw, p.used, ys);
    KeysUseFreshPairs(keys, raw, p.used, item.code, item.title, ys);
    assert (p.counted + [out.1 - p.used])[|p.counted|..] == [out.1 - p.used];
  }

  lemma {:induction false} YearFoldExtends(p: Progress, year: int, items: seq<ConnectedItem>, raw: RawMap,
                                           titles: map<string, (int, string)>, comments: map<string, string>, ys: Years)
    ensures var r := YearFold(p, year, items, raw, titles, comments, ys);
      r.Ok? ==> Extends(p, r.value, raw)
    decreases |items|
  {
    if items == [] {
      assert p.counted[|p.counted|..] == [];
    } else {
      var q := ItemOutcome(p, items[0], year, raw, titles, comments, ys);
      if q.Ok? {
        ItemExtends(p, items[0], year, raw, titles, comments, ys);
        YearFoldExtends(q.value, year, items[1..], raw, titles, comments, ys);
        var r := YearFold(q.value, year, items[1..], raw, titles, comments, ys);
        if r.Ok? {
          ExtendsTransitive(p, q.value, r.value, raw);
        }
      }
    }
  }

  lemma {:induction false} YearsFoldExtends(p: Progress, year: int, items: seq<ConnectedItem>, raw: RawMap,
                                            titles: map<string, (int, string)>, comments: map<string, string>, ys: Years)
    ensures var r := YearsFold(p, year, items, raw, titles, comments, ys);
      r.Ok? ==> Extends(p, r.value, raw)
    decreases year - MIN_YEAR + 1
  {
    if year < MIN_YEAR {
      assert p.counted[|p.counted|..] == [];
    } else {
      var q := YearFold(p, year, items, raw, titles, comments, ys);
      if q.Ok? {
        YearFoldExtends(p, year, items, raw, titles, comments, ys);
        YearsFoldExtends(q.value, year - 1, items, raw, titles, comments, ys);
        var r := YearsFold(q.value, year - 1, items, raw, titles, comments, ys);
        if r.Ok? {
          ExtendsTransitive(p, q.value, r.value, raw);
        }
      }
    }
  }

  /**
   * Over a whole run of `process_data`: no `(year, code)` pair is summed
   * into two rows, every pair summed is a row of the budget data, and the
   * saved sheet has exactly one body row per row written.
   */
  lemma ProcessCounted(budget: seq<BudgetItem>, connected: seq<ConnectedItem>, titles: map<string, (int, string)>,
                       comments: map<string, string>)
    ensures var (r, counted) := ProcessOutcome(budget, connected, titles, comments);
      && (forall i, j :: 0 <= i < j < |counted| ==> counted[i] !! counted[j])
      && (forall i, k :: 0 <= i < |counted| && k in counted[i] ==> k in RawMapOf(budget))
      && (r.Ok? ==> |r.value.body| == |counted|)
  {
    var years := ReportYears(connected);
    if years.Ok? {
      var ys := years.value;
      var start := Progress(EmptyState(), {}, []);
      var raw := RawMapOf(budget);
      var out := YearsFold(start, ys.maxYear, connected, raw, titles, comments, ys);
      if out.Ok? {
        var p := out.value;
        YearsFoldExtends(start, ys.maxYear, connected, raw, titles, comments, ys);
        YearsFoldWellFormed(start, ys.maxYear, connected, raw, titles, comments, ys);
        assert p.counted[|start.counted|..] == p.counted;
        SavedRowCount(p.table);
      }
    }
  }

  /**
   * The cases of one item: skipped; raising ValueError when `keys` fails,
   * else KeyError when `code_titles` fails; or its row written as
   * `RowOutcome` says with the keys and code titles built, the pairs it
   * summed appended to `counted`.
   */
  lemma ItemOutcomeCases(p: Progress, item: ConnectedItem, year: int, raw: RawMap, titles: map<string, (int, string)>,
                         comments: map<string, string>, ys: Years)
    ensures var r := ItemOutcome(p, item, year, raw, titles, comments, ys);
      var skip := item.year != year || (year, item.code) in p.used;
      var keys := ItemKeys(year, item.code, item.history);
      var ct := CodeTitles(item, titles, comments);
      && (skip ==> r == Ok(p))
      && (r.Err? <==> !skip && (keys.Err? || ct.Err?))
      && (r.Err? ==> r.error == if keys.Err? then ValueError else KeyError)
      && (r.Ok? && !skip ==>
            var out := RowOutcome(p.table, item, keys.value, ct.value, raw, p.used, ys);
            r.value == Progress(out.0, out.1, p.counted + [out.1 - p.used]))
  {
  }

  /** The saved sheet has one body row per row of the table. */
  lemma SavedRowCount(s: TableState)
    requires WellFormed(s)
    ensures var r := ReportTable.SaveOutcome(s, REPORT_TITLE, GROUP_FIELDS, CLEANUP_FIELDS).1;
      r.Ok? ==> |r.value.body| == |s.rows|
  {
    Sorting.SortByIsPermutation(s.rows, RowKey);
    assert |multiset(SortedRows(s))| == |multiset(s.rows)|;
  }

  // The methods

  /**
   * One step of the loop over the items of `year`: an item of another year,
   * or whose `(year, code)` is used, is skipped; otherwise its `keys` and
   * `code_titles` are built, failing as they fail, and its row is written.
   */
  method AddItem(table: ReportTable.Table, item: ConnectedItem, year: int, raw: RawMap, titles: map<string, (int, string)>,
                 comments: map<string, string>, ys: Years, used: set<(int, string)>, ghost counted: seq<set<(int, string)>>)
      returns (res: Result<set<(int, string)>, Error>, ghost counted': seq<set<(int, string)>>)
    requires table.Valid()
    modifies table
    ensures table.Valid()
    ensures item.year != year || (year, item.code) in used ==> res == Ok(used) && table.State() == old(table.State())
    ensures res.Err? ==> res.error in {ValueError, KeyError} && table.State() == old(table.State())
    ensures res.Ok? ==> used <= res.value && forall k :: k in res.value && k !in used ==> k in raw
    ensures var out := ItemOutcome(Progress(old(table.State()), used, counted), item, year, raw, titles, comments, ys);
      && (res.Err? <==> out.Err?)
      && (res.Err? ==> res.error == out.error)
      && (res.Ok? ==> out.value == Progress(table.State(), res.value, counted'))
  {
    counted' := counted;
    if item.year != year || (year, item.code) in used {
      return Ok(used), counted';
    }
    var keys := HistoryKeys(year, item.code, item.history);
    if keys.Err? {
      return Err(keys.error), counted';
    }
    var ct := CodeTitles(item, titles, comments);
    if ct.Err? {
      return Err(ct.error), counted';
    }
    var u := ItemRow(table, item, keys.value, ct.value, raw, used, ys);
    KeysUseFreshPairs(keys.value, raw, used, item.code, item.title, ys);
    counted' := counted + [u - used];
    return Ok(u), counted';
  }

  /**
   * The loop over the items for one year: each item of that year whose
   * `(year, code)` is not used yet gets its row. `counted'` extends
   * `counted` with the pairs each new row summed, which were all unused
   * before it.
   */
  method YearItems(table: ReportTable.Table, year: int, connected: seq<ConnectedItem>, raw: RawMap,
                   titles: map<string, (int, string)>, comments: map<string, string>, ys: Years, used: set<(int, string)>,
                   ghost counted: seq<set<(int, string)>>)
      returns (res: Result<set<(int, string)>, Error>, ghost counted': seq<set<(int, string)>>)
    requires table.Valid()
    modifies table
    ensures table.Valid()
    ensures var out := YearFold(Progress(old(table.State()), used, counted), year, connected, raw, titles, comments, ys);
      && (res.Err? <==> out.Err?)
      && (res.Err? ==> res.error == out.error)
      && (res.Ok? ==> out.value == Progress(table.State(), res.value, counted'))
    ensures res.Err? ==> res.error in {ValueError, KeyError}
    ensures res.Ok? ==> used <= res.value && forall k :: k in res.value && k !in used ==> k in raw
    ensures res.Ok? ==> |counted| <= |counted'| && counted'[..|counted|] == counted
                        && SeparateRows(counted'[|counted|..], used, res.value)
  {
    YearFoldExtends(Progress(table.State(), used, counted), year, connected, raw, titles, comments, ys);
    res, counted' := AddItems(table, year, connected, raw, titles, comments, ys, used, counted);
  }

  /** The loop over the items from `i` on is item `i`, then the loop from `i + 1` on. */
  lemma YearFoldStep(p: Progress, year: int, items: seq<ConnectedItem>, i: nat, raw: RawMap, titles: map<string, (int, string)>,
                     comments: map<string, string>, ys: Years)
    requires i < |items|
    ensures var q := ItemOutcome(p, items[i], year, raw, titles, comments, ys);
      YearFold(p, year, items[i..], raw, titles, comments, ys)
      == if q.Err? then Err(q.error) else YearFold(q.value, year, items[i + 1..], raw, titles, comments, ys)
  {
    assert items[i..][0] == items[i] && items[i..][1..] == items[i + 1..];
  }

  /** The loop of `YearItems` over the items, in order, stopping at the first that raises. */
  method AddItems(table: ReportTable.Table, year: int, connected: seq<ConnectedItem>, raw: RawMap,
                  titles: map<string, (int, string)>, comments: map<string, string>, ys: Years, used: set<(int, string)>,
                  ghost counted: seq<set<(int, string)>>)
      returns (res: Result<set<(int, string)>, Error>, ghost counted': seq<set<(int, string)>>)
    requires table.Valid()
    modifies table
    ensures table.Valid()
    ensures var out := YearFold(Progress(old(table.State()), used, counted), year, connected, raw, titles, comments, ys);
      && (res.Err? <==> out.Err?)
      && (res.Err? ==> res.error == out.error)
      && (res.Ok? ==> out.value == Progress(table.State(), res.value, counted'))
  {
    ghost var all := YearFold(Progress(table.State(), used, counted), year, connected, raw, titles, comments, ys);
    counted' := counted;
    var u := used;
    var i := 0;
    while i < |connected|
      invariant 0 <= i <= |connected| && table.Valid()
      invariant YearFold(Progress(table.State(), u, counted'), year, connected[i..], raw, titles, comments, ys) == all
    {
      YearFoldStep(Progress(table.State(), u, counted'), year, connected, i, raw, titles, comments, ys);
      var step;
      step, counted' := AddItem(table, connected[i], year, raw, titles, comments, ys, u, counted');
      if step.Err? {
        return Err(step.error), counted';
      }
      u := step.value;
      i := i + 1;
    }
    assert connected[i..] == [];
    return Ok(u), counted';
  }

  /**
   * `process_data` from the loaded data on: the report's years, the titles
   * and rename comments, then, from the latest year down to MIN_YEAR, one
   * row for each item of that year whose `(year, code)` was not used yet,
   * and the saved sheet. `counted` holds, row by row, the `(year, code)`
   * pairs each row summed. The connected items are those `check_for_active`
   * kept.
   */
  method ProcessData(budget: seq<BudgetItem>, connected: seq<ConnectedItem>)
      returns (r: Result<ReportTable.Sheet, Error>, ghost counted: seq<set<(int, string)>>)
    ensures exists titles, comments :: ShownFor(RawMapOf(budget), titles, comments)
                                        && (r, counted) == ProcessOutcome(budget, connected, titles, comments)
    ensures connected == [] ==> r == Err(EmptySequence)
    ensures connected != [] && |ProposalYears(connected)| != 1 ==> r == Err(NoProposalYear)
    ensures r.Ok? ==> |ProposalYears(connected)| == 1 && r.value.title == REPORT_TITLE
    ensures r.Err? ==> r.error in {EmptySequence, NoProposalYear, ValueError, KeyError, AssertionError}
    ensures forall i, j :: 0 <= i < j < |counted| ==> counted[i] !! counted[j]
    ensures forall i, k :: 0 <= i < |counted| && k in counted[i] ==> k in RawMapOf(budget)
    ensures r.Ok? ==> |r.value.body| == |counted|
  {
    r, counted := Process(budget, connected);
    ghost var titles, comments :| ShownFor(RawMapOf(budget), titles, comments)
                                  && (r, counted) == ProcessOutcome(budget, connected, titles, comments);
    ProcessCounted(budget, connected, titles, comments);
    ProcessErrors(budget, connected, titles, comments);
  }

  /** The error cases of `process_data`: those of the report's years, of the items, and of `save`. */
  lemma ProcessErrors(budget: seq<BudgetItem>, connected: seq<ConnectedItem>, titles: map<string, (int, string)>,
                      comments: map<string, string>)
    ensures var r := ProcessOutcome(budget, connected, titles, comments).0;
      && (connected == [] ==> r == Err(EmptySequence))
      && (connected != [] && |ProposalYears(connected)| != 1 ==> r == Err(NoProposalYear))
      && (r.Ok? ==> |ProposalYears(connected)| == 1 && r.value.title == REPORT_TITLE)
      && (r.Err? ==> r.error in {EmptySequence, NoProposalYear, ValueError, KeyError, AssertionError})
  {
  }

  /** The steps of `process_data`, proved against `ProcessOutcome`. */
  method Process(budget: seq<BudgetItem>, connected: seq<ConnectedItem>)
      returns (r: Result<ReportTable.Sheet, Error>, ghost counted: seq<set<(int, string)>>)
    ensures exists titles, comments :: ShownFor(RawMapOf(budget), titles, comments)
                                        && (r, counted) == ProcessOutcome(budget, connected, titles, comments)
  {
    var raw := RawMapOf(budget);
    var years := ReportYears(connected);
    var titles, comments, hist := ShownTitles(raw);
    if years.Err? {
      r, counted := Err(years.error), [];
    } else {
      var ys := years.value;
      var table := new ReportTable.Table(REPORT_TITLE, GROUP_FIELDS, CLEANUP_FIELDS);
      var res;
      res, counted := AllYears(table, connected, raw, titles, comments, ys);
      if res.Err? {
        r, counted := Err(res.error), [];
      } else {
        ghost var s := table.State();
        r := table.Save();
        ProcessOutcomeSaved(budget, connected, titles, comments, ys, Progress(s, res.value, counted));
      }
    }
  }

  /** When the loops complete, `process_data` gives the saved table. */
  lemma ProcessOutcomeSaved(budget: seq<BudgetItem>, connected: seq<ConnectedItem>, titles: map<string, (int, string)>,
                            comments: map<string, string>, ys: Years, p: Progress)
    requires ReportYears(connected) == Ok(ys)
    requires YearsFold(Progress(EmptyState(), {}, []), ys.maxYear, connected, RawMapOf(budget), titles, comments, ys) == Ok(p)
    requires WellFormed(p.table)
    ensures ProcessOutcome(budget, connected, titles, comments)
            == (ReportTable.SaveOutcome(p.table, REPORT_TITLE, GROUP_FIELDS, CLEANUP_FIELDS).1, p.counted)
  {
  }

  /** The loop over the years, from the latest down to MIN_YEAR, on a new table. */
  method AllYears(table: ReportTable.Table, connected: seq<ConnectedItem>, raw: RawMap, titles: map<string, (int, string)>,
                  comments: map<string, string>, ys: Years) returns (res: Result<set<(int, string)>, Error>, ghost counted: seq<set<(int, string)>>)
    requires table.Valid() && table.State() == EmptyState()
    modifies table
    ensures table.Valid()
    ensures var out := YearsFold(Progress(EmptyState(), {}, []), ys.maxYear, connected, raw, titles, comments, ys);
      && (res.Err? <==> out.Err?)
      && (res.Err? ==> res.error == out.error)
      && (res.Ok? ==> out.value == Progress(table.State(), res.value, counted))
  {
    ghost var all := YearsFold(Progress(EmptyState(), {}, []), ys.maxYear, connected, raw, titles, comments, ys);
    counted := [];
    var used: set<(int, string)> := {};
    var year := ys.maxYear;
    while year >= MIN_YEAR
      invariant table.Valid()
      invariant YearsFold(Progress(table.State(), used, counted), year, connected, raw, titles, comments, ys) == all
      decreases year - MIN_YEAR
    {
      var step;
      step, counted := YearItems(table, year, connected, raw, titles, comments, ys, used, counted);
      if step.Err? {
        return Err(step.error), counted;
      }
      used := step.value;
      year := year - 1;
    }
    return Ok(used), counted;
  }
}
