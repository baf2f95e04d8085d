/**
 * The budget changes report (budget-changes.py): the request ids hidden in
 * the names of the finance committee's files, the per-year budget and
 * change lookups, and the table with one row per budget change, coloured
 * by committee request.
 */
module BudgetChanges {
  import opened Values
  import opened Keys
  import opened TableModel
  import opened Strings
  import Decimal
  import Rendering
  import ReportTable

  /** The budget year the report is about. */
  const YEAR: int := 2024
  /** How many earlier years get history columns. */
  const HISTORY_YEARS: int := 4
  /** The Hebrew letters, in alphabet order, that file name code points from 0x80 on stand for. */
  const CHARS: string := "אבגדהוזחטיךכלםמןנסעףפץצקרשת"

  // ---------------------------------------------------------------------------
  // first_item

  /** `first_item(items)`: the first element of a list, None for an empty list, anything else as it is. */
  function FirstItem(items: Value): (r: Value)
    ensures items.VList? ==> r == (if items.items == [] then VNone else items.items[0])
    ensures !items.VList? ==> r == items
  {
    match items
    case VList(xs) => if xs == [] then VNone else xs[0]
    case _ => items
  }

  /** A row whose committee id gives a truthy first item has a truthy committee id: an empty list or None is skipped. */
  lemma FirstItemTruthy(items: Value)
    requires Truthy(FirstItem(items))
    ensures Truthy(items)
  {
  }

  // ---------------------------------------------------------------------------
  // File names

  /** `CHARS` is the Hebrew alphabet from alef (U+05D0) to tav (U+05EA), final forms included. */
  lemma CharsAreHebrewLetters()
    ensures |CHARS| == 27
    ensures forall k :: 0 <= k < 27 ==> CHARS[k] as int == 0x5D0 + k
  {
  }

  /** A code point the decode table covers. */
  predicate Decodable(x: nat) {
    x < 0x80 + |CHARS|
  }

  /** `chr(x) if x < 0x80 else CHARS[x - 0x80]` */
  function DecodeChar(x: nat): Result<char, Error> {
    if x < 0x80 then Ok(x as char)
    else if x - 0x80 < |CHARS| then Ok(CHARS[x - 0x80])
    else Err(IndexError)
  }

  /**
   * A file name, as code points, decoded letter by letter: ASCII stays, code
   * points from 0x80 on become `CHARS[x - 0x80]`; one past the table raises
   * IndexError.
   */
  function DecodeName(codes: seq<nat>): (r: Result<string, Error>)
    ensures r.Ok? <==> forall i :: 0 <= i < |codes| ==> Decodable(codes[i])
    ensures r.Err? ==> r.error == IndexError
    ensures r.Ok? ==> |r.value| == |codes| && forall i :: 0 <= i < |codes| ==> DecodeChar(codes[i]) == Ok(r.value[i])
  {
    if forall i :: 0 <= i < |codes| ==> Decodable(codes[i]) then
      Ok(seq(|codes|, i requires 0 <= i < |codes| => DecodeChar(codes[i]).value))
    else
      var i :| 0 <= i < |codes| && !Decodable(codes[i]);
      Err(IndexError)
  }

  /** The code point a decoded letter came from. */
  function EncodeChar(c: char): nat {
    if (c as int) < 0x80 then c as int else if c as int >= 0x5D0 then c as int - 0x5D0 + 0x80 else 0
  }

  function EncodeName(s: string): (codes: seq<nat>)
    ensures |codes| == |s|
  {
    seq(|s|, i requires 0 <= i < |s| => EncodeChar(s[i]))
  }

  /** Decoding loses nothing: encoding the decoded name gives the code points back. */
  lemma DecodeNameRoundTrip(codes: seq<nat>)
    requires DecodeName(codes).Ok?
    ensures EncodeName(DecodeName(codes).value) == codes
  {
    CharsAreHebrewLetters();
    var s := DecodeName(codes).value;
    forall i | 0 <= i < |codes|
      ensures EncodeChar(s[i]) == codes[i]
    {
      assert DecodeChar(codes[i]) == Ok(s[i]);
    }
  }

  /** Every ASCII and Hebrew-letter name is the decoding of its code points. */
  lemma EncodeNameRoundTrip(s: string)
    requires forall i :: 0 <= i < |s| ==> (s[i] as int) < 0x80 || s[i] in CHARS
    ensures DecodeName(EncodeName(s)) == Ok(s)
  {
    CharsAreHebrewLetters();
    var codes := EncodeName(s);
    forall i | 0 <= i < |s|
      ensures Decodable(codes[i]) && DecodeChar(codes[i]) == Ok(s[i])
    {
      if (s[i] as int) >= 0x80 {
        var k :| 0 <= k < |CHARS| && CHARS[k] == s[i];
        assert codes[i] == 0x80 + k;
      }
    }
    assert DecodeName(codes).value == s;
  }

  // ---------------------------------------------------------------------------
  // Request ids

  /** A character of `[-\d]`; a decoded name holds no digits other than ASCII ones. */
  predicate IsRunChar(c: char) {
    c == '-' || '0' <= c <= '9'
  }

  predicate AllRunChars(s: string) {
    forall k :: 0 <= k < |s| ==> IsRunChar(s[k])
  }

  /** The length of the run of `[-\d]` characters `s` starts with. */
  function RunLength(s: string): (n: nat)
    ensures n <= |s| && forall k :: 0 <= k < n ==> IsRunChar(s[k])
    ensures n < |s| ==> !IsRunChar(s[n])
  {
    if s == [] || !IsRunChar(s[0]) then 0
    else 1 + RunLength(s[1..])
  }

  /** `re.findall(r'([-\d]+)', s)`: the maximal runs of dashes and digits, left to right. */
  function DigitRuns(s: string): (rs: seq<string>)
    ensures forall i :: 0 <= i < |rs| ==> rs[i] != [] && AllRunChars(rs[i])
    decreases |s|
  {
    if s == [] then []
    else if !IsRunChar(s[0]) then DigitRuns(s[1..])
    else
      var n := RunLength(s);
      assert AllRunChars(s[..n]);
      [s[..n]] + DigitRuns(s[n..])
  }

  function Concat(ss: seq<string>): string {
    if ss == [] then "" else ss[0] + Concat(ss[1..])
  }

  /** The `[-\d]` characters of `s`, in order. */
  function RunChars(s: string): string {
    if s == [] then "" else (if IsRunChar(s[0]) then [s[0]] else "") + RunChars(s[1..])
  }

  lemma {:induction false} RunCharsAppend(a: string, b: string)
    ensures RunChars(a + b) == RunChars(a) + RunChars(b)
  {
    if a != [] {
      assert (a + b)[1..] == a[1..] + b;
      RunCharsAppend(a[1..], b);
    } else {
      assert a + b == b;
    }
  }

  lemma {:induction false} RunCharsOfRun(s: string)
    requires AllRunChars(s)
    ensures RunChars(s) == s
  {
    if s != [] {
      RunCharsOfRun(s[1..]);
    }
  }

  /** The runs, put together, are exactly the dash and digit characters of the name: none is lost, none is added. */
  lemma {:induction false} DigitRunsCover(s: string)
    ensures Concat(DigitRuns(s)) == RunChars(s)
    decreases |s|
  {
    if s != [] {
      if !IsRunChar(s[0]) {
        DigitRunsCover(s[1..]);
      } else {
        var n := RunLength(s);
        DigitRunsCover(s[n..]);
        assert s == s[..n] + s[n..];
        RunCharsAppend(s[..n], s[n..]);
        RunCharsOfRun(s[..n]);
        assert DigitRuns(s)[1..] == DigitRuns(s[n..]);
      }
    }
  }

  /** `list(range(a, b + 1))` */
  function Range(a: int, b: int): (r: seq<int>)
    ensures |r| == if a <= b then b - a + 1 else 0
    ensures forall i :: 0 <= i < |r| ==> r[i] == a + i
  {
    seq(if a <= b then b - a + 1 else 0, i requires 0 <= i => a + i)
  }

  /** The dash-separated parts of a run, its outer dashes stripped. */
  function Parts(tok: string): seq<string> {
    Split(Strip(tok, '-'), '-')
  }

  /** Every part of a run is made of digits. */
  lemma PartsAreDigits(tok: string)
    requires AllRunChars(tok)
    ensures forall i :: 0 <= i < |Parts(tok)| ==> Decimal.AllDigits(Parts(tok)[i])
  {
    var st := Strip(tok, '-');
    var ps := Parts(tok);
    StripChars(tok, '-');
    SplitChars(st, '-');
    forall i, k | 0 <= i < |ps| && 0 <= k < |ps[i]|
      ensures Decimal.IsDigit(ps[i][k])
    {
      var x := ps[i][k];
      assert x in st && x != '-';
      var j :| 0 <= j < |tok| && tok[j] == x;
    }
  }

  /**
   * The ids the parts of a run stand for: each part read as an int (an
   * empty part, or one that is not a number, raises ValueError); exactly
   * two parts `a-b` stand for every id from `a` to `b`.
   */
  function PartsIds(ps: seq<string>): (r: Result<seq<int>, Error>)
    ensures r.Err? ==> r.error == ValueError
  {
    if exists i :: 0 <= i < |ps| && (ps[i] == [] || !Decimal.AllDigits(ps[i])) then Err(ValueError)
    else
      var ns := seq(|ps|, i requires 0 <= i < |ps| => Decimal.DigitsValue(ps[i]) as int);
      if |ns| == 2 then Ok(Range(ns[0], ns[1])) else Ok(ns)
  }

  /** The ids of one run: its outer dashes stripped, split on dashes, and read as `PartsIds` says. */
  function TokenIds(tok: string): Result<seq<int>, Error> {
    PartsIds(Parts(tok))
  }

  /** The parts of a run are numbers, so a run raises exactly when one of its parts is empty. */
  lemma RunRaisesOnEmptyPart(tok: string)
    requires AllRunChars(tok)
    ensures TokenIds(tok).Err? <==> exists i :: 0 <= i < |Parts(tok)| && Parts(tok)[i] == []
  {
    PartsAreDigits(tok);
  }

  /** A number's text is one part. */
  lemma PartsOfNumber(n: nat)
    ensures Parts(Decimal.NatToString(n)) == [Decimal.NatToString(n)]
  {
    var tok := Decimal.NatToString(n);
    StripUntouched(tok, '-');
    SplitNone(tok, '-');
  }

  /** `a-b` has the parts `a` and `b`. */
  lemma PartsOfRange(sa: string, sb: string)
    requires sa != [] && sb != [] && Decimal.AllDigits(sa) && Decimal.AllDigits(sb)
    ensures Parts(sa + "-" + sb) == [sa, sb]
  {
    var tok := sa + "-" + sb;
    RangeUnstripped(sa, sb);
    assert Parts(tok) == Split(tok, '-');
    SplitOfRange(sa, sb);
  }

  lemma SplitOfRange(sa: string, sb: string)
    requires Decimal.AllDigits(sa) && Decimal.AllDigits(sb)
    ensures Split(sa + "-" + sb, '-') == [sa, sb]
  {
    NoDashInDigits(sa);
    NoDashInDigits(sb);
    SplitFirst(sa, sb, '-');
    SplitNone(sb, '-');
  }

  lemma RangeUnstripped(sa: string, sb: string)
    requires sa != [] && sb != [] && Decimal.AllDigits(sa) && Decimal.AllDigits(sb)
    ensures Strip(sa + "-" + sb, '-') == sa + "-" + sb
  {
    var tok := sa + "-" + sb;
    assert tok[0] == sa[0] && tok[|tok| - 1] == sb[|sb| - 1];
    assert Decimal.IsDigit(sa[0]) && Decimal.IsDigit(sb[|sb| - 1]);
    StripUntouched(tok, '-');
  }

  lemma NoDashInDigits(s: string)
    requires Decimal.AllDigits(s)
    ensures '-' !in s
  {
  }

  /** The ids of one number. */
  lemma NumberIds(n: nat)
    ensures PartsIds([Decimal.NatToString(n)]) == Ok([n])
  {
    var tok := Decimal.NatToString(n);
    Decimal.NatRoundTrip(n);
    assert seq(1, i requires 0 <= i < 1 => Decimal.DigitsValue([tok][i]) as int) == [n];
  }

  /** The ids of a range. */
  lemma RangeIds(a: nat, b: nat)
    ensures PartsIds([Decimal.NatToString(a), Decimal.NatToString(b)]) == Ok(Range(a, b))
  {
    Decimal.NatRoundTrip(a);
    Decimal.NatRoundTrip(b);
  }

  /** A plain number is the one id it spells. */
  lemma TokenOfNumber(n: nat)
    ensures TokenIds(Decimal.NatToString(n)) == Ok([n])
  {
    PartsOfNumber(n);
    NumberIds(n);
  }

  /** `a-b` spells every id from `a` to `b`, in ascending order, none when `a > b`. */
  lemma TokenOfRange(a: nat, b: nat)
    ensures TokenIds(Decimal.NatToString(a) + "-" + Decimal.NatToString(b)) == Ok(Range(a, b))
  {
    PartsOfRange(Decimal.NatToString(a), Decimal.NatToString(b));
    RangeIds(a, b);
  }

  /** An empty part between two dashes, as in `1--3`, raises. */
  lemma EmptyPartRaises()
    ensures TokenIds("1--3") == Err(ValueError)
  {
    PartsOfDoubleDash();
    assert Parts("1--3")[1] == [];
  }

  lemma PartsOfDoubleDash()
    ensures Parts("1--3") == ["1", "", "3"]
  {
    StripUntouched("1--3", '-');
    assert "1--3" == "1" + "-" + "-3";
    SplitFirst("1", "-3", '-');
    SplitOfDashThree();
  }

  lemma SplitOfDashThree()
    ensures Split("-3", '-') == ["", "3"]
  {
    assert "-3" == "" + "-" + "3";
    SplitFirst("", "3", '-');
    SplitNone("3", '-');
  }

  /** The ids of the runs, in order; the first run that raises decides the error. */
  function RunsIds(runs: seq<string>): (r: Result<seq<int>, Error>)
    ensures r.Err? ==> r.error == ValueError
  {
    if runs == [] then Ok([])
    else
      match RunsIds(runs[..|runs| - 1])
      case Err(e) => Err(e)
      case Ok(xs) =>
        match TokenIds(runs[|runs| - 1])
        case Err(e) => Err(e)
        case Ok(ys) => Ok(xs + ys)
  }

  /** The ids in one file name. */
  function NameIds(codes: seq<nat>): Result<seq<int>, Error> {
    match DecodeName(codes)
    case Err(e) => Err(e)
    case Ok(name) => RunsIds(DigitRuns(name))
  }

  /** The ids in the file names, in order; the first name that raises decides the error. */
  function AllIds(names: seq<seq<nat>>): Result<seq<int>, Error> {
    if names == [] then Ok([])
    else
      match AllIds(names[..|names| - 1])
      case Err(e) => Err(e)
      case Ok(xs) =>
        match NameIds(names[|names| - 1])
        case Err(e) => Err(e)
        case Ok(ys) => Ok(xs + ys)
  }

  /** `xs` without repeats, each id where it first occurs. */
  function Dedup(xs: seq<int>): seq<int> {
    if xs == [] then []
    else
      var d := Dedup(xs[..|xs| - 1]);
      if xs[|xs| - 1] in d then d else d + [xs[|xs| - 1]]
  }

  /** The index of the first occurrence of `x` in `xs`. */
  function FirstIndex(xs: seq<int>, x: int): (i: nat)
    requires x in xs
    ensures i < |xs| && xs[i] == x && forall j :: 0 <= j < i ==> xs[j] != x
  {
    if xs[0] == x then 0 else 1 + FirstIndex(xs[1..], x)
  }

  /**
   * The deduplicated ids hold every id once, and list them in the order of
   * their first occurrences.
   */
  lemma {:induction false} DedupMeaning(xs: seq<int>)
    ensures NoDup(Dedup(xs))
    ensures forall x :: x in Dedup(xs) <==> x in xs
    ensures forall i, j :: 0 <= i < j < |Dedup(xs)| ==> FirstIndex(xs, Dedup(xs)[i]) < FirstIndex(xs, Dedup(xs)[j])
  {
    if xs != [] {
      var init := xs[..|xs| - 1];
      var x := xs[|xs| - 1];
      DedupMeaning(init);
      var d := Dedup(init);
      assert xs == init + [x];
      forall y | y in init
        ensures FirstIndex(xs, y) == FirstIndex(init, y)
      {
        FirstIndexPrefix(init, [x], y);
      }
      if x !in d {
        assert FirstIndex(xs, x) == |init| by {
          assert forall j :: 0 <= j < |init| ==> xs[j] == init[j];
        }
        forall i, j | 0 <= i < j < |Dedup(xs)|
          ensures FirstIndex(xs, Dedup(xs)[i]) < FirstIndex(xs, Dedup(xs)[j])
        {
          assert Dedup(xs)[i] == d[i];
          if j < |d| {
            assert Dedup(xs)[j] == d[j];
          }
        }
      }
    }
  }

  lemma FirstIndexPrefix(a: seq<int>, b: seq<int>, y: int)
    requires y in a
    ensures y in a + b && FirstIndex(a + b, y) == FirstIndex(a, y)
  {
    var i := FirstIndex(a, y);
    var j := FirstIndex(a + b, y);
    assert (a + b)[i] == y;
    if j < |a| {
      assert (a + b)[j] == a[j];
    }
  }

  /** `requests_ids`: every id of every file name, each once, in order of first occurrence. */
  function RequestIds(names: seq<seq<nat>>): Result<seq<int>, Error> {
    match AllIds(names)
    case Err(e) => Err(e)
    case Ok(xs) => Ok(Dedup(xs))
  }

  /** Appends each of `xs` not yet listed. */
  method AppendNew(ids: seq<int>, ghost before: seq<int>, xs: seq<int>) returns (out: seq<int>)
    requires ids == Dedup(before)
    ensures out == Dedup(before + xs)
  {
    out := ids;
    var m := 0;
    assert before + xs[..0] == before;
    while m < |xs|
      invariant 0 <= m <= |xs|
      invariant out == Dedup(before + xs[..m])
    {
      assert (before + xs[..m + 1])[..|before + xs[..m]|] == before + xs[..m];
      if xs[m] !in out {
        out := out + [xs[m]];
      }
      m := m + 1;
    }
    assert xs[..m] == xs;
  }

  /** The ids of the runs of one name, in order, or the error of the first run that raises. */
  method CollectRunIds(runs: seq<string>) returns (r: Result<seq<int>, Error>)
    ensures r == RunsIds(runs)
  {
    var found: seq<int> := [];
    var j := 0;
    while j < |runs|
      invariant 0 <= j <= |runs|
      invariant RunsIds(runs[..j]) == Ok(found)
    {
      var tok := TokenIds(runs[j]);
      RunsIdsStep(runs, j, found);
      if tok.Err? {
        return Err(ValueError);
      }
      found := found + tok.value;
      j := j + 1;
    }
    assert runs[..j] == runs;
    return Ok(found);
  }

  /**
   * The loop of `get_outstanding_requests` over the file names of the
   * archive: decode each name, find its runs, and append every id not yet
   * listed.
   */
  method ExtractRequestIds(names: seq<seq<nat>>) returns (r: Result<seq<int>, Error>)
    ensures r == RequestIds(names)
  {
    var ids: seq<int> := [];
    ghost var seen: seq<int> := [];
    var k := 0;
    while k < |names|
      invariant 0 <= k <= |names|
      invariant AllIds(names[..k]) == Ok(seen) && ids == Dedup(seen)
    {
      assert names[..k + 1][..k] == names[..k];
      var name := DecodeName(names[k]);
      if name.Err? {
        AllIdsStopAt(names, k);
        return Err(name.error);
      }
      var found := CollectRunIds(DigitRuns(name.value));
      if found.Err? {
        AllIdsStopAt(names, k);
        return Err(found.error);
      }
      ids := AppendNew(ids, seen, found.value);
      seen := seen + found.value;
      k := k + 1;
    }
    assert names[..k] == names;
    return Ok(ids);
  }

  /** One more run: it either raises, and so does the whole list, or its ids follow those before it. */
  lemma RunsIdsStep(runs: seq<string>, j: int, before: seq<int>)
    requires 0 <= j < |runs| && RunsIds(runs[..j]) == Ok(before)
    ensures TokenIds(runs[j]).Err? ==> RunsIds(runs) == Err(ValueError)
    ensures TokenIds(runs[j]).Ok? ==> RunsIds(runs[..j + 1]) == Ok(before + TokenIds(runs[j]).value)
  {
    assert runs[..j + 1][..j] == runs[..j];
    if TokenIds(runs[j]).Err? {
      RunsIdsStopAt(runs, j);
    }
  }

  /** A run that raises makes the ids of every longer list of runs raise the same, or an earlier, error. */
  lemma {:induction false} RunsIdsStopAt(runs: seq<string>, j: int)
    requires 0 <= j < |runs| && RunsIds(runs[..j]).Ok? && TokenIds(runs[j]).Err?
    ensures RunsIds(runs) == Err(TokenIds(runs[j]).error)
    decreases |runs|
  {
    if j < |runs| - 1 {
      var init := runs[..|runs| - 1];
      assert init[..j] == runs[..j] && init[j] == runs[j];
      RunsIdsStopAt(init, j);
    } else {
      assert runs[..|runs| - 1] == runs[..j];
    }
  }

  /** A name that raises makes the whole list raise: the error of the first name that fails. */
  lemma {:induction false} AllIdsStopAt(names: seq<seq<nat>>, k: int)
    requires 0 <= k < |names| && AllIds(names[..k]).Ok? && NameIds(names[k]).Err?
    ensures AllIds(names) == Err(NameIds(names[k]).error)
    decreases |names|
  {
    if k < |names| - 1 {
      var init := names[..|names| - 1];
      assert init[..k] == names[..k] && init[k] == names[k];
      AllIdsStopAt(init, k);
    } else {
      assert names[..|names| - 1] == names[..k];
    }
  }

  // ---------------------------------------------------------------------------
  // The per-year lookups

  /** A `(year, code)` key of the lookups. */
  type YearCode = (int, string)

  /**
   * `get_change_per_year_no_surplus`'s dictionary: the summed change of each
   * `(year, code)`, zero sums left out; a later row of the same key replaces
   * an earlier one, as in `dict(...)`.
   */
  function ChangeMapping(rows: seq<(YearCode, int)>): (m: map<YearCode, int>)
    ensures forall k :: k in m ==> m[k] != 0
    ensures forall k :: k in m <==> exists i :: 0 <= i < |rows| && rows[i].0 == k && rows[i].1 != 0
  {
    if rows == [] then map[]
    else
      var init := rows[..|rows| - 1];
      var m := ChangeMapping(init);
      var (k, v) := rows[|rows| - 1];
      assert forall i :: 0 <= i < |init| ==> init[i] == rows[i];
      if v != 0 then m[k := v] else m
  }

  /**
   * `get_original_budget_per_program`'s dictionary: the allocation of each
   * `(year, code)`, with allocations of 0 or None left out.
   */
  function BudgetMapping(rows: seq<(YearCode, Amount)>): (m: map<YearCode, int>)
    ensures forall k :: k in m ==> m[k] != 0
    ensures forall k :: k in m <==> exists i :: 0 <= i < |rows| && rows[i].0 == k && AmountTruthy(rows[i].1)
  {
    if rows == [] then map[]
    else
      var init := rows[..|rows| - 1];
      var m := BudgetMapping(init);
      var (k, v) := rows[|rows| - 1];
      assert forall i :: 0 <= i < |init| ==> init[i] == rows[i];
      if AmountTruthy(v) then m[k := v.value] else m
  }

  /** `get_parent_names_per_program`'s dictionary from code to title; a later row of the same code wins. */
  function NamesMapping(rows: seq<(string, string)>): (m: map<string, string>)
    ensures forall c :: c in m <==> exists i :: 0 <= i < |rows| && rows[i].0 == c
  {
    if rows == [] then map[]
    else
      var init := rows[..|rows| - 1];
      var m := NamesMapping(init);
      assert forall i :: 0 <= i < |init| ==> init[i] == rows[i];
      m[rows[|rows| - 1].0 := rows[|rows| - 1].1]
  }

  /** The row at `i` is the last one of key `k` that `ChangeMapping` keeps. */
  predicate LastKept(rows: seq<(YearCode, int)>, i: int, k: YearCode) {
    0 <= i < |rows| && rows[i].0 == k && rows[i].1 != 0
    && forall j :: i < j < |rows| && rows[j].0 == k ==> rows[j].1 == 0
  }

  /** Each kept key holds the change of its last nonzero row: later rows replace earlier ones. */
  lemma {:induction false} ChangeMappingLastWins(rows: seq<(YearCode, int)>, k: YearCode)
    requires k in ChangeMapping(rows)
    ensures exists i :: LastKept(rows, i, k) && rows[i].1 == ChangeMapping(rows)[k]
  {
    var init := rows[..|rows| - 1];
    var last := rows[|rows| - 1];
    assert forall i :: 0 <= i < |init| ==> init[i] == rows[i];
    if last.0 == k && last.1 != 0 {
      assert LastKept(rows, |rows| - 1, k);
    } else {
      ChangeMappingLastWins(init, k);
      var i :| LastKept(init, i, k) && init[i].1 == ChangeMapping(init)[k];
      assert LastKept(rows, i, k);
    }
  }

  /** The row at `i` is the last one of key `k` that `BudgetMapping` keeps. */
  predicate LastAllocated(rows: seq<(YearCode, Amount)>, i: int, k: YearCode) {
    0 <= i < |rows| && rows[i].0 == k && AmountTruthy(rows[i].1)
    && forall j :: i < j < |rows| && rows[j].0 == k ==> !AmountTruthy(rows[j].1)
  }

  /** Each kept key holds the allocation of its last row with an allocation other than 0 or None. */
  lemma {:induction false} BudgetMappingLastWins(rows: seq<(YearCode, Amount)>, k: YearCode)
    requires k in BudgetMapping(rows)
    ensures exists i :: LastAllocated(rows, i, k) && rows[i].1 == Some(BudgetMapping(rows)[k])
  {
    var init := rows[..|rows| - 1];
    var last := rows[|rows| - 1];
    if last.0 == k && AmountTruthy(last.1) {
      BudgetMappingTakes(rows);
      assert LastAllocated(rows, |rows| - 1, k);
    } else {
      BudgetMappingKeeps(rows, k);
      BudgetMappingLastWins(init, k);
      var i :| LastAllocated(init, i, k) && init[i].1 == Some(BudgetMapping(init)[k]);
      LastAllocatedExtends(rows, i, k);
    }
  }

  /** A last row with an allocation sets its key's value. */
  lemma BudgetMappingTakes(rows: seq<(YearCode, Amount)>)
    requires rows != [] && AmountTruthy(rows[|rows| - 1].1)
    ensures BudgetMapping(rows)[rows[|rows| - 1].0] == rows[|rows| - 1].1.value
  {
  }

  /** The last kept row of `k` among all rows but the last stays the last when the last row does not set `k`. */
  lemma LastAllocatedExtends(rows: seq<(YearCode, Amount)>, i: int, k: YearCode)
    requires rows != [] && LastAllocated(rows[..|rows| - 1], i, k)
    requires !(rows[|rows| - 1].0 == k && AmountTruthy(rows[|rows| - 1].1))
    ensures LastAllocated(rows, i, k) && rows[i] == rows[..|rows| - 1][i]
  {
    var init := rows[..|rows| - 1];
    assert forall j :: 0 <= j < |init| ==> init[j] == rows[j];
  }

  /** A last row of another key, or without an allocation, leaves the value of `k` as the rows before it gave it. */
  lemma BudgetMappingKeeps(rows: seq<(YearCode, Amount)>, k: YearCode)
    requires rows != [] && k in BudgetMapping(rows)
    requires !(rows[|rows| - 1].0 == k && AmountTruthy(rows[|rows| - 1].1))
    ensures k in BudgetMapping(rows[..|rows| - 1]) && BudgetMapping(rows)[k] == BudgetMapping(rows[..|rows| - 1])[k]
  {
  }

  /** The row at `i` is the last one of code `c`. */
  predicate LastNamed(rows: seq<(string, string)>, i: int, c: string) {
    0 <= i < |rows| && rows[i].0 == c && forall j :: i < j < |rows| ==> rows[j].0 != c
  }

  /** Each code holds the title of its last row. */
  lemma {:induction false} NamesMappingLastWins(rows: seq<(string, string)>, c: string)
    requires c in NamesMapping(rows)
    ensures exists i :: LastNamed(rows, i, c) && rows[i].1 == NamesMapping(rows)[c]
  {
    var init := rows[..|rows| - 1];
    var last := rows[|rows| - 1];
    assert forall i :: 0 <= i < |init| ==> init[i] == rows[i];
    if last.0 == c {
      assert LastNamed(rows, |rows| - 1, c);
    } else {
      NamesMappingLastWins(init, c);
      var i :| LastNamed(init, i, c) && init[i].1 == NamesMapping(init)[c];
      assert LastNamed(rows, i, c);
    }
  }

  /** `d.get(k, default)` */
  function GetOr<K>(d: map<K, int>, k: K, default: int): int {
    if k in d then d[k] else default
  }

  /** The lookups `construct_table` reads. */
  datatype Lookups = Lookups(changes: map<YearCode, int>, original: map<YearCode, int>, names: map<string, string>)

  function LookupsOf(changeSums: seq<(YearCode, int)>, budget: seq<(YearCode, Amount)>, parents: seq<(string, string)>): (lk: Lookups)
    ensures NoZeroAllocation(lk)
  {
    Lookups(ChangeMapping(changeSums), BudgetMapping(budget), NamesMapping(parents))
  }

  /** No allocation of the lookups is 0, so dividing by one never divides by zero. */
  ghost predicate NoZeroAllocation(lk: Lookups) {
    forall k :: k in lk.original ==> lk.original[k] != 0
  }

  // ---------------------------------------------------------------------------
  // Codes and years

  function Min(a: int, b: int): int {
    if a <= b then a else b
  }

  /** `s[i:j]` for non-negative bounds: each bound clamped to the length, empty when they cross. */
  function Slice(s: string, i: nat, j: nat): (r: string)
    ensures |r| <= |s|
  {
    var a := Min(i, |s|);
    var b := Min(j, |s|);
    if a <= b then s[a..b] else []
  }

  /** A slice is the run of characters between the clamped bounds, whatever the length of the code. */
  lemma SliceMeaning(s: string, i: nat, j: nat)
    ensures |Slice(s, i, j)| == if Min(j, |s|) >= Min(i, |s|) then Min(j, |s|) - Min(i, |s|) else 0
    ensures forall k :: 0 <= k < |Slice(s, i, j)| ==> Slice(s, i, j)[k] == s[i + k]
  {
  }

  /**
   * The code columns nest, for a code of any length: the section code
   * `[2:4]` begins the area code `[2:6]`, and the section key `[:4]` begins
   * the area key `[:6]`, which begins the program code `[:8]`.
   */
  lemma CodeSlicesNest(code: string)
    ensures IsPrefix(Slice(code, 2, 4), Slice(code, 2, 6))
    ensures IsPrefix(Slice(code, 0, 4), Slice(code, 0, 6)) && IsPrefix(Slice(code, 0, 6), Slice(code, 0, 8))
    ensures |code| >= 8 ==> Slice(code, 0, 8) == code[..8] && Slice(code, 2, 4) == code[0..4][2..]
  {
    var n := |code|;
    if n >= 4 {
      assert Slice(code, 2, 6)[..2] == Slice(code, 2, 4);
    }
    if n >= 6 {
      assert Slice(code, 0, 8)[..6] == Slice(code, 0, 6);
    }
  }

  predicate IsPrefix(a: string, b: string) {
    |a| <= |b| && b[..|a|] == a
  }

  /** `range(start, stop, -1)` */
  function RangeDown(start: int, stop: int): (r: seq<int>)
    ensures |r| == if start > stop then start - stop else 0
    ensures forall i :: 0 <= i < |r| ==> r[i] == start - i
    decreases start - stop
  {
    if start <= stop then [] else [start] + RangeDown(start - 1, stop)
  }

  /** The years of the history columns, newest first: `range(YEAR-1, YEAR-HISTORY_YEARS-1, -1)`. */
  function HistoryYears(): seq<int> {
    RangeDown(YEAR - 1, YEAR - HISTORY_YEARS - 1)
  }

  /** The history covers the four years before the report year, newest first. */
  lemma HistoryYearsAre()
    ensures HistoryYears() == [2023, 2022, 2021, 2020]
    ensures forall i, j :: 0 <= i < j < |HistoryYears()| ==> HistoryYears()[i] > HistoryYears()[j]
  {
    var h := HistoryYears();
    assert |h| == 4 && h[0] == 2023 && h[1] == 2022 && h[2] == 2021 && h[3] == 2020;
  }

  // ---------------------------------------------------------------------------
  // The row fields

  /** A colour of a field's style: a fixed code, the blue scheme of the row's request, or the red/green scheme of the cell's value. */
  datatype Paint = Fixed(code: string) | Blue | RedGreenOf

  /** The `options` of a field: text colour, background colour, and the other options as they are. */
  datatype FieldStyle = FieldStyle(color: Paint, background: Paint, extra: Options)

  /** How a field finds its value in a change row. */
  datatype FieldKey =
    | CommitteeId
    | CodeSlice(from: nat, to: nat)
    | ParentName(len: nat)
    | BudgetTitle
    | ItemDescription
    | DiffMillions
    | RequestTitle
    | ChangeTitle
    | ChangeExplanation
    | OriginalMillions(year: int)
    | DiffRatio
    | ApprovedMillions(year: int)

  /** An entry of `ROW_FIELDS`; `loose` holds the keys of the entry outside `options`, which nothing reads. */
  datatype Field = Field(title: string, key: FieldKey, style: FieldStyle, loose: Options)

  /**
   * `BLUE_SCHEME`, darkest first, held as its column of text colours and
   * its column of background colours: entry `k` of the scheme is the pair
   * `(BLUE_TEXT[k], BLUE_BACKGROUND[k])`.
   */
  const BLUE_TEXT: seq<string> := [
    "FFFFFF", "FFFFFF", "FFFFFF", "FFFFFF", "FFFFFF", "FFFFFF", "FFFFFF", "FFFFFF", "222446"]
  const BLUE_BACKGROUND: seq<string> := [
    "0d0f42", "141664", "1b1d85", "2125a6", "282cc7", "4c4fd0", "7072da", "9395e3", "b7b9ec"]

  const ORANGE_BG: FieldStyle := FieldStyle(Fixed("FFFFFF"), Fixed("FF6432"), map[])
  const LG_BG: FieldStyle := FieldStyle(Fixed("222446"), Fixed("FBFFF3"), map[])
  const DG_BG: FieldStyle := FieldStyle(Fixed("222446"), Fixed("cbf99f"), map[])
  const BLUE_BG: FieldStyle := FieldStyle(Blue, Blue, map[])
  /** The style of the requested change ratio: its background the red/green colour of the ratio. */
  const RED_GREEN_LG_BG: FieldStyle := FieldStyle(Fixed("222446"), RedGreenOf, map[])

  /**
   * `RED_GREEN_LG_BG` as written: its background is the result of calling
   * `color_scheme_red_green('FBFFF3')` when the dictionary is built.
   */
  function RedGreenStyleAsWritten(): Result<FieldStyle, Error> {
    match Rendering.ColorSchemeRedGreen(VStr("FBFFF3"))
    case Ok(c) => Ok(FieldStyle(Fixed("222446"), Fixed(c), map[]))
    case Err(e) => Err(e)
  }

  /** As written, building the styles raises: `float('FBFFF3')` is a ValueError, before any row is read. */
  lemma RedGreenStyleRaises()
    ensures RedGreenStyleAsWritten() == Err(ValueError)
  {
    Rendering.RedGreenOfColourCode();
  }

  /** `dict(style, **more)` */
  function WithOptions(st: FieldStyle, more: Options): FieldStyle {
    st.(extra := st.extra + more)
  }

  const ONE_DECIMAL: Value := VStr("#,##0.0")

  /** The title of a field that carries a year. */
  function YearTitle(prefix: string, year: int): string {
    prefix + Decimal.IntToString(year)
  }

  const ORIGINAL_PREFIX: string := "מקורי "
  const APPROVED_PREFIX: string := "מאושר מנוכה עודפים "

  /** The first fourteen fields, one per column, in column order. */
  function FixedFields(): seq<Field> {
    [ Field("מספר פנייה", CommitteeId, ORANGE_BG, map[]),
      Field("קוד סעיף", CodeSlice(2, 4), BLUE_BG, map[]),
      Field("שם סעיף", ParentName(4), BLUE_BG, map[]),
      Field("קוד תחום", CodeSlice(2, 6), BLUE_BG, map[]),
      Field("שם תחום", ParentName(6), BLUE_BG, map[]),
      Field("קוד תכנית", CodeSlice(0, 8), BLUE_BG, map[]),
      Field("שם תכנית", BudgetTitle, BLUE_BG, map[]),
      Field("הסבר לתכנית", ItemDescription, BLUE_BG, map[]),
      Field("בקשת השינוי הוצאה נטו במלש\"ח", DiffMillions, WithOptions(LG_BG, map["number_format" := ONE_DECIMAL]), map[]),
      Field("תיאור בקשה", RequestTitle, LG_BG, map[]),
      Field("שם שינוי", ChangeTitle, LG_BG, map[]),
      Field("מטרת השינוי - מדברי ההסבר", ChangeExplanation, WithOptions(LG_BG, map["align" := VStr("general")]), map[]),
      Field(YearTitle(ORIGINAL_PREFIX, YEAR), OriginalMillions(YEAR), WithOptions(DG_BG, map["number_format" := ONE_DECIMAL]), map[]),
      Field("שיעור השינוי המבוקש", DiffRatio, WithOptions(RED_GREEN_LG_BG, map["number_format" := VStr("0%")]), map[]) ]
  }

  /** The two history fields of a year as written: `number_format` beside `options`, not inside. */
  function HistoryPairAsWritten(year: int): seq<Field> {
    [ Field(YearTitle(ORIGINAL_PREFIX, year), OriginalMillions(year), DG_BG, map["number_format" := ONE_DECIMAL]),
      Field(YearTitle(APPROVED_PREFIX, year), ApprovedMillions(year), LG_BG, map["number_format" := ONE_DECIMAL]) ]
  }

  /** The two history fields of a year, their one-decimal format among the options. */
  function HistoryPair(year: int): seq<Field> {
    [ Field(YearTitle(ORIGINAL_PREFIX, year), OriginalMillions(year), WithOptions(DG_BG, map["number_format" := ONE_DECIMAL]), map[]),
      Field(YearTitle(APPROVED_PREFIX, year), ApprovedMillions(year), WithOptions(LG_BG, map["number_format" := ONE_DECIMAL]), map[]) ]
  }

  function HistoryFields(years: seq<int>): (fs: seq<Field>)
    ensures |fs| == 2 * |years|
  {
    if years == [] then [] else HistoryPair(years[0]) + HistoryFields(years[1..])
  }

  /** `ROW_FIELDS` */
  function RowFields(): seq<Field> {
    FixedFields() + HistoryFields(HistoryYears())
  }

  // ---------------------------------------------------------------------------
  // Cell values and options

  /** One entry of the change list: the columns of a change row that the table reads. */
  datatype ChangeRow = ChangeRow(
    committeeId: Value,
    budgetCode: string,
    budgetTitle: Value,
    itemDescription: Value,
    netExpenseDiff: int,
    reqTitle: Value,
    changeTitle: Value,
    changeExplanation: Value)

  /** An amount in millions: `x / 1000000`. */
  function Millions(x: int): Value {
    VReal(x as real / 1000000.0)
  }

  /** `field['key'](row)`; a parent code missing from the names raises KeyError. */
  function FieldValue(key: FieldKey, row: ChangeRow, lk: Lookups): (r: Result<Value, Error>)
    requires NoZeroAllocation(lk)
    ensures r.Err? <==> key.ParentName? && Slice(row.budgetCode, 0, key.len) !in lk.names
    ensures r.Err? ==> r.error == KeyError
  {
    var code := row.budgetCode;
    match key
    case CommitteeId => Ok(FirstItem(row.committeeId))
    case CodeSlice(a, b) => Ok(VStr(Slice(code, a, b)))
    case ParentName(n) =>
      var parent := Slice(code, 0, n);
      if parent in lk.names then Ok(VStr(lk.names[parent])) else Err(KeyError)
    case BudgetTitle => Ok(row.budgetTitle)
    case ItemDescription => Ok(row.itemDescription)
    case DiffMillions => Ok(Millions(row.netExpenseDiff))
    case RequestTitle => Ok(FirstItem(row.reqTitle))
    case ChangeTitle => Ok(FirstItem(row.changeTitle))
    case ChangeExplanation => Ok(row.changeExplanation)
    case OriginalMillions(y) => Ok(Millions(GetOr(lk.original, (y, code), 0)))
    case DiffRatio =>
      var base := GetOr(lk.original, (YEAR, code), 1);
      Ok(VReal(row.netExpenseDiff as real / base as real))
    case ApprovedMillions(y) => Ok(Millions(GetOr(lk.original, (y, code), 0) + GetOr(lk.changes, (y, code), 0)))
  }

  /** What a colour of the style becomes for a cell: called on the value when it is a function. */
  function PaintValue(p: Paint, value: Value, colorIndex: nat, background: bool): Result<Value, Error> {
    match p
    case Fixed(c) => Ok(VStr(c))
    case Blue =>
      var k := colorIndex % |BLUE_BACKGROUND|;
      Ok(VStr(if background then BLUE_BACKGROUND[k] else BLUE_TEXT[k]))
    case RedGreenOf =>
      match Rendering.ColorSchemeRedGreen(value)
      case Ok(c) => Ok(VStr(c))
      case Err(e) => Err(e)
  }

  /**
   * The options a field's cell is set with: a copy of the field's options,
   * aligned to the centre unless it has a truthy `align`, with both colours
   * resolved for the value.
   */
  function CellOptions(st: FieldStyle, value: Value, colorIndex: nat): (r: Result<Options, Error>)
    ensures r.Err? <==> PaintValue(st.color, value, colorIndex, false).Err? || PaintValue(st.background, value, colorIndex, true).Err?
    ensures r.Ok? ==> r.value.Keys == st.extra.Keys + {"align", "color", "background_color"}
    ensures r.Ok? ==> r.value["align"] == (if Rendering.Flag(st.extra, "align") then st.extra["align"] else VStr("center"))
    ensures r.Ok? ==> r.value["color"] == PaintValue(st.color, value, colorIndex, false).value
    ensures r.Ok? ==> r.value["background_color"] == PaintValue(st.background, value, colorIndex, true).value
    ensures r.Ok? ==> forall k :: k in st.extra && k !in {"align", "color", "background_color"} ==> r.value[k] == st.extra[k]
  {
    var aligned := if Rendering.Flag(st.extra, "align") then st.extra else st.extra["align" := VStr("center")];
    match PaintValue(st.color, value, colorIndex, false)
    case Err(e) => Err(e)
    case Ok(c) =>
      match PaintValue(st.background, value, colorIndex, true)
      case Err(e) => Err(e)
      case Ok(b) => Ok(aligned["color" := c]["background_color" := b])
  }

  /** The ratio cell is filled red above +5%, green below -5%, white otherwise; it never raises. */
  lemma RatioCellColour(row: ChangeRow, lk: Lookups, colorIndex: nat)
    requires NoZeroAllocation(lk)
    ensures var v := FieldValue(DiffRatio, row, lk);
      var o := CellOptions(FixedFields()[13].style, v.value, colorIndex);
      && v.Ok? && v.value.VReal? && o.Ok?
      && o.value["background_color"] == VStr(if v.value.r == 0.0 then Rendering.WHITE else Rendering.Classify(v.value.r))
      && o.value["number_format"] == VStr("0%")
      && Rendering.CellStyle(Some(Cell(v.value, o.value))).Ok?
      && Rendering.CellStyle(Some(Cell(v.value, o.value))).value.fill == Some(o.value["background_color"])
  {
    RatioStyle();
    var st := FixedFields()[13].style;
    var v := FieldValue(DiffRatio, row, lk);
    assert v.Ok? && v.value.VReal?;
    var o := CellOptions(st, v.value, colorIndex);
    assert o.Ok?;
    assert o.value["number_format"] == st.extra["number_format"];
  }

  /** The ratio field's style: the red-green scheme on light grey, in percent. */
  lemma RatioStyle()
    ensures |FixedFields()| == 14
    ensures FixedFields()[13].key == DiffRatio
    ensures FixedFields()[13].style == WithOptions(RED_GREEN_LG_BG, map["number_format" := VStr("0%")])
  {
  }

  /**
   * A cell of a field with fixed colours never raises, and the sheet shows
   * it in the field's truthy `number_format`, or else in the default format.
   */
  lemma FixedStyleFormat(st: FieldStyle, value: Value, colorIndex: nat)
    requires st.color.Fixed? && st.background.Fixed?
    ensures var o := CellOptions(st, value, colorIndex);
      && o.Ok?
      && ("number_format" in o.value <==> "number_format" in st.extra)
      && Rendering.CellStyle(Some(Cell(value, o.value))).Ok?
      && Rendering.CellStyle(Some(Cell(value, o.value))).value.numberFormat
           == if Rendering.Flag(st.extra, "number_format") then st.extra["number_format"] else VStr(Rendering.DEFAULT_NUMBER_FORMAT)
  {
    var o := CellOptions(st, value, colorIndex);
    assert o.Ok?;
    if "number_format" in st.extra {
      assert o.value["number_format"] == st.extra["number_format"];
    }
  }

  /**
   * As written, a history cell is set without `number_format`, so the sheet
   * shows it in the default whole-number format; with the format among the
   * options it shows one decimal, as the other million-valued columns do.
   */
  lemma HistoryFormat(year: int, value: Value, colorIndex: nat)
    ensures forall f :: f in HistoryPairAsWritten(year) ==>
      var o := CellOptions(f.style, value, colorIndex);
      && o.Ok? && "number_format" !in o.value
      && Rendering.CellStyle(Some(Cell(value, o.value))).Ok?
      && Rendering.CellStyle(Some(Cell(value, o.value))).value.numberFormat == VStr(Rendering.DEFAULT_NUMBER_FORMAT)
    ensures forall f :: f in HistoryPair(year) ==>
      var o := CellOptions(f.style, value, colorIndex);
      && o.Ok?
      && Rendering.CellStyle(Some(Cell(value, o.value))).Ok?
      && Rendering.CellStyle(Some(Cell(value, o.value))).value.numberFormat == ONE_DECIMAL
  {
    forall f | f in HistoryPairAsWritten(year)
      ensures var o := CellOptions(f.style, value, colorIndex);
        && o.Ok? && "number_format" !in o.value
        && Rendering.CellStyle(Some(Cell(value, o.value))).Ok?
        && Rendering.CellStyle(Some(Cell(value, o.value))).value.numberFormat == VStr(Rendering.DEFAULT_NUMBER_FORMAT)
    {
      FixedStyleFormat(f.style, value, colorIndex);
    }
    forall f | f in HistoryPair(year)
      ensures var o := CellOptions(f.style, value, colorIndex);
        && o.Ok?
        && Rendering.CellStyle(Some(Cell(value, o.value))).Ok?
        && Rendering.CellStyle(Some(Cell(value, o.value))).value.numberFormat == ONE_DECIMAL
    {
      FixedStyleFormat(f.style, value, colorIndex);
    }
  }

  // ---------------------------------------------------------------------------
  // A row's `set` calls

  /** The `set` call of field `i` for a row, or the error its value or colours raise. */
  function FieldWrite(fields: seq<Field>, i: nat, row: ChangeRow, colorIndex: nat, lk: Lookups): Result<Write, Error>
    requires i < |fields| && NoZeroAllocation(lk)
  {
    match FieldValue(fields[i].key, row, lk)
    case Err(e) => Err(e)
    case Ok(v) =>
      match CellOptions(fields[i].style, v, colorIndex)
      case Err(e) => Err(e)
      case Ok(o) => Ok(Write(fields[i].title, v, i, o))
  }

  /** Fields whose options name neither `value` nor `score`. */
  predicate FieldsSettable(fields: seq<Field>) {
    forall i :: 0 <= i < |fields| ==> "value" !in fields[i].style.extra && "score" !in fields[i].style.extra
  }

  /** The outcome of each field's `set` call for a row, in field order. */
  function FieldResults(fields: seq<Field>, row: ChangeRow, colorIndex: nat, lk: Lookups): (rs: seq<Result<Write, Error>>)
    requires NoZeroAllocation(lk)
    ensures |rs| == |fields|
    ensures forall i :: 0 <= i < |fields| ==> rs[i] == FieldWrite(fields, i, row, colorIndex, lk)
    ensures FieldsSettable(fields) ==> ResultsSettable(rs)
  {
    seq(|fields|, i requires 0 <= i < |fields| && NoZeroAllocation(lk) => FieldWrite(fields, i, row, colorIndex, lk))
  }

  /** Outcomes whose calls pass neither `value` nor `score` as an option. */
  predicate ResultsSettable(rs: seq<Result<Write, Error>>) {
    forall i :: 0 <= i < |rs| && rs[i].Ok? ==> "value" !in rs[i].value.options && "score" !in rs[i].value.options
  }

  /** The calls of outcomes `from ..`, or the error of the first that raises. */
  function Collect(rs: seq<Result<Write, Error>>, from: nat): (r: Result<seq<Write>, Error>)
    requires from <= |rs|
    ensures r.Ok? && ResultsSettable(rs) ==> Settable(r.value)
    decreases |rs| - from
  {
    if from == |rs| then Ok([])
    else
      match rs[from]
      case Err(e) => Err(e)
      case Ok(w) =>
        match Collect(rs, from + 1)
        case Err(e) => Err(e)
        case Ok(ws) => Ok([w] + ws)
  }

  /**
   * The calls succeed exactly when every outcome does; then they are the
   * outcomes in order, and otherwise the error is the first one's.
   */
  lemma {:induction false} CollectMeaning(rs: seq<Result<Write, Error>>, from: nat)
    requires from <= |rs|
    ensures var r := Collect(rs, from);
      && (r.Ok? <==> forall i :: from <= i < |rs| ==> rs[i].Ok?)
      && (r.Ok? ==> |r.value| == |rs| - from)
      && (r.Ok? ==> forall k :: 0 <= k < |r.value| ==> r.value[k] == rs[from + k].value)
      && (r.Err? ==> exists i :: from <= i < |rs| && rs[i] == Err(r.error) && forall j :: from <= j < i ==> rs[j].Ok?)
    decreases |rs| - from
  {
    if from < |rs| {
      CollectMeaning(rs, from + 1);
      var r := Collect(rs, from);
      var rest := Collect(rs, from + 1);
      if rs[from].Err? {
        assert r == Err(rs[from].error);
      } else if rest.Err? {
        assert r == Err(rest.error);
        var i :| from + 1 <= i < |rs| && rs[i] == Err(rest.error) && forall j :: from + 1 <= j < i ==> rs[j].Ok?;
        assert forall j :: from <= j < i ==> rs[j].Ok?;
      } else {
        assert r.value == [rs[from].value] + rest.value;
        forall k | 0 <= k < |r.value|
          ensures r.value[k] == rs[from + k].value
        {
          if k > 0 {
            assert r.value[k] == rest.value[k - 1];
          }
        }
      }
    }
  }

  /** Making the calls of outcomes `from ..` is making the first, then the rest. */
  lemma CollectStep(s: TableState, rs: seq<Result<Write, Error>>, from: nat)
    requires WellFormed(s) && from < |rs| && ResultsSettable(rs) && rs[from].Ok?
    ensures var w := rs[from].value;
      var r := Collect(rs, from);
      var rest := Collect(rs, from + 1);
      && (r.Ok? <==> rest.Ok?)
      && (r.Err? ==> r.error == rest.error)
      && (r.Ok? ==> ApplyWrites(s, r.value) == ApplyWrites(SetState(s, w.title, w.value, [Num(w.order)], w.options), rest.value))
  {
    var r := Collect(rs, from);
    if r.Ok? {
      assert r.value[1..] == Collect(rs, from + 1).value;
    }
  }

  /** The `set` calls of a row's fields, or the error of the first field whose value or colours raise. */
  function FieldWrites(fields: seq<Field>, row: ChangeRow, colorIndex: nat, lk: Lookups): Result<seq<Write>, Error>
    requires NoZeroAllocation(lk)
  {
    Collect(FieldResults(fields, row, colorIndex, lk), 0)
  }

  /** A field whose lookup cannot miss, coloured without its value, and whose options name neither `value` nor `score`. */
  predicate PlainField(f: Field) {
    && !f.key.ParentName? && f.style.color.Fixed? && f.style.background.Fixed?
    && "value" !in f.style.extra && "score" !in f.style.extra
  }

  lemma {:induction false} HistoryFieldsPlain(years: seq<int>)
    ensures forall i :: 0 <= i < |HistoryFields(years)| ==> PlainField(HistoryFields(years)[i])
  {
    if years != [] {
      HistoryFieldsPlain(years[1..]);
      var fs := HistoryFields(years);
      assert fs == HistoryPair(years[0]) + HistoryFields(years[1..]);
      assert PlainField(HistoryPair(years[0])[0]) && PlainField(HistoryPair(years[0])[1]);
    }
  }

  /** The twenty-two fields: the fourteen fixed ones, then eight history fields, all plain. */
  lemma RowFieldsShape()
    ensures |RowFields()| == 22
    ensures forall i :: 0 <= i < 14 ==> RowFields()[i] == FixedFields()[i]
    ensures forall i :: 14 <= i < 22 ==> PlainField(RowFields()[i])
  {
    HistoryYearsAre();
    HistoryFieldsPlain(HistoryYears());
  }

  /** The options of no field name `value` or `score`, so every call is a valid `set`. */
  lemma RowFieldsSettable()
    ensures |RowFields()| == 22 && FieldsSettable(RowFields())
  {
    RowFieldsShape();
    FixedFieldsSettable();
    forall i | 0 <= i < 22
      ensures "value" !in RowFields()[i].style.extra && "score" !in RowFields()[i].style.extra
    {
      if i < 14 {
        assert RowFields()[i] == FixedFields()[i];
      } else {
        assert PlainField(RowFields()[i]);
      }
    }
  }

  /** The options of no fixed field name `value` or `score`. */
  lemma FixedFieldsSettable()
    ensures |FixedFields()| == 14 && FieldsSettable(FixedFields())
  {
  }

  /** Fields 1 to 7, the code and name columns, are painted in the blue scheme of the row's request. */
  lemma BlueFields()
    ensures |RowFields()| == 22
    ensures forall i :: 1 <= i <= 7 ==> RowFields()[i].style == BLUE_BG
  {
    RowFieldsShape();
  }

  /** The colours of the fixed fields but the ratio are resolved without raising. */
  lemma FixedFieldPaint(i: nat, v: Result<Value, Error>, colorIndex: nat)
    requires i < 14 && i != 13 && v.Ok?
    ensures CellOptions(FixedFields()[i].style, v.value, colorIndex).Ok?
  {
  }

  /** Only the two parent-name fields look anything up by key: the section name `[:4]` and the area name `[:6]`. */
  lemma ParentNameFields()
    ensures |RowFields()| == 22
    ensures forall i :: 0 <= i < 22 && RowFields()[i].key.ParentName? ==> i == 2 || i == 4
    ensures RowFields()[2].key == ParentName(4) && RowFields()[4].key == ParentName(6)
  {
    RowFieldsShape();
  }

  /** A field's call fails exactly when it is a parent name missing from the names, with a KeyError. */
  lemma FieldWriteFails(i: nat, row: ChangeRow, colorIndex: nat, lk: Lookups)
    requires i < 22 && NoZeroAllocation(lk)
    ensures |RowFields()| == 22
    ensures var f := RowFields()[i];
      var w := FieldWrite(RowFields(), i, row, colorIndex, lk);
      && (w.Err? <==> f.key.ParentName? && Slice(row.budgetCode, 0, f.key.len) !in lk.names)
      && (w.Err? ==> w.error == KeyError)
  {
    RowFieldsShape();
    var fs := RowFields();
    var v := FieldValue(fs[i].key, row, lk);
    if v.Ok? {
      if i == 13 {
        RatioCellColour(row, lk, colorIndex);
      } else if i < 14 {
        FixedFieldPaint(i, v, colorIndex);
      } else {
        FixedStyleFormat(fs[i].style, v.value, colorIndex);
      }
    }
    PaintedFieldWrite(fs, i, row, colorIndex, lk);
  }

  /** A field whose colours resolve for its value fails exactly as its value does. */
  lemma PaintedFieldWrite(fields: seq<Field>, i: nat, row: ChangeRow, colorIndex: nat, lk: Lookups)
    requires i < |fields| && NoZeroAllocation(lk)
    requires var v := FieldValue(fields[i].key, row, lk);
      v.Ok? ==> CellOptions(fields[i].style, v.value, colorIndex).Ok?
    ensures var w := FieldWrite(fields, i, row, colorIndex, lk);
      var v := FieldValue(fields[i].key, row, lk);
      && (w.Err? <==> v.Err?)
      && (w.Err? ==> w.error == v.error)
  {
  }

  /** A row's calls fail exactly when a parent code of its budget code has no name: a KeyError. */
  lemma RowWritesFail(row: ChangeRow, colorIndex: nat, lk: Lookups)
    requires NoZeroAllocation(lk)
    ensures var r := FieldWrites(RowFields(), row, colorIndex, lk);
      && (r.Err? <==> Slice(row.budgetCode, 0, 4) !in lk.names || Slice(row.budgetCode, 0, 6) !in lk.names)
      && (r.Err? ==> r.error == KeyError)
  {
    FieldResultsFail(row, colorIndex, lk);
    CollectTwoFailures(FieldResults(RowFields(), row, colorIndex, lk), 2, 4);
  }

  /** Outcomes of which only those at `a` and `b` can fail, with a KeyError, collect to a KeyError exactly when one of the two fails. */
  lemma CollectTwoFailures(rs: seq<Result<Write, Error>>, a: nat, b: nat)
    requires a < b < |rs|
    requires forall i :: 0 <= i < |rs| && i != a && i != b ==> rs[i].Ok?
    requires forall i :: 0 <= i < |rs| && rs[i].Err? ==> rs[i].error == KeyError
    ensures Collect(rs, 0).Err? <==> rs[a].Err? || rs[b].Err?
    ensures Collect(rs, 0).Err? ==> Collect(rs, 0).error == KeyError
  {
    CollectMeaning(rs, 0);
  }

  /** Of a row's field outcomes, exactly the two parent names can fail, each with a KeyError when its prefix has no name. */
  lemma FieldResultsFail(row: ChangeRow, colorIndex: nat, lk: Lookups)
    requires NoZeroAllocation(lk)
    ensures var rs := FieldResults(RowFields(), row, colorIndex, lk);
      && |rs| == 22
      && (forall i :: 0 <= i < 22 && i != 2 && i != 4 ==> rs[i].Ok?)
      && (rs[2].Err? <==> Slice(row.budgetCode, 0, 4) !in lk.names)
      && (rs[4].Err? <==> Slice(row.budgetCode, 0, 6) !in lk.names)
      && (forall i :: 0 <= i < 22 && rs[i].Err? ==> rs[i].error == KeyError)
  {
    ParentNameFields();
    forall i | 0 <= i < 22
      ensures var w := FieldWrite(RowFields(), i, row, colorIndex, lk);
        && (w.Err? <==> RowFields()[i].key.ParentName? && Slice(row.budgetCode, 0, RowFields()[i].key.len) !in lk.names)
        && (w.Err? ==> w.error == KeyError)
    {
      FieldWriteFails(i, row, colorIndex, lk);
    }
  }

  // ---------------------------------------------------------------------------
  // The colour index

  /** The rows `construct_table` does not skip: those whose first committee id is truthy. */
  function KeptRows(rows: seq<ChangeRow>): (kept: seq<ChangeRow>)
    ensures |kept| <= |rows|
    ensures forall j :: 0 <= j < |kept| ==> Truthy(FirstItem(kept[j].committeeId))
  {
    if rows == [] then []
    else
      var last := rows[|rows| - 1];
      KeptRows(rows[..|rows| - 1]) + (if Truthy(FirstItem(last.committeeId)) then [last] else [])
  }

  /** The request of each kept row. */
  function KeptIds(rows: seq<ChangeRow>): (ids: seq<Value>)
    ensures |ids| == |KeptRows(rows)|
    ensures forall j :: 0 <= j < |ids| ==> ids[j] == FirstItem(KeptRows(rows)[j].committeeId) && Truthy(ids[j])
  {
    var kept := KeptRows(rows);
    seq(|kept|, j requires 0 <= j < |kept| => FirstItem(kept[j].committeeId))
  }

  /**
   * The loop's `(committee_id, color_index)` after the rows: a skipped row
   * changes nothing; a kept row becomes the current request, and the index
   * moves on when it follows a different request.
   */
  function ColorScan(rows: seq<ChangeRow>): (Value, nat) {
    if rows == [] then (VNone, 0)
    else ScanStep(ColorScan(rows[..|rows| - 1]), rows[|rows| - 1])
  }

  /** The last kept request and the colour index after one more row. */
  function ScanStep(scan: (Value, nat), row: ChangeRow): (Value, nat) {
    var (committee, colorIndex) := scan;
    var id := FirstItem(row.committeeId);
    if !Truthy(id) then (committee, colorIndex)
    else (id, if Truthy(committee) && committee != id then colorIndex + 1 else colorIndex)
  }

  /** The number of places where the request changes between one kept row and the next. */
  function Changes(ids: seq<Value>): nat {
    |set j | 0 <= j < |ids| - 1 && ChangeAt(ids, j)|
  }

  /** The request changes between kept rows `j` and `j + 1`. */
  predicate ChangeAt(ids: seq<Value>, j: int) {
    0 <= j < |ids| - 1 && ids[j] != ids[j + 1]
  }

  lemma ChangesSnoc(ids: seq<Value>, x: Value)
    ensures Changes(ids + [x]) == Changes(ids) + (if ids != [] && ids[|ids| - 1] != x then 1 else 0)
  {
    var xs := ids + [x];
    var before := set j | 0 <= j < |ids| - 1 && ChangeAt(ids, j);
    var after := set j | 0 <= j < |xs| - 1 && ChangeAt(xs, j);
    assert forall j :: 0 <= j < |ids| - 1 ==> (ChangeAt(xs, j) <==> ChangeAt(ids, j));
    if ids != [] && ids[|ids| - 1] != x {
      assert after == before + {|ids| - 1};
    } else {
      assert after == before;
    }
  }

  /**
   * The colour index of the loop counts the changes of request between
   * consecutive kept rows, and the current request is the last kept one.
   */
  lemma {:induction false} ColorIndexCountsChanges(rows: seq<ChangeRow>)
    ensures ColorScan(rows).1 == Changes(KeptIds(rows))
    ensures ColorScan(rows).0 == if KeptIds(rows) == [] then VNone else KeptIds(rows)[|KeptIds(rows)| - 1]
  {
    if rows != [] {
      var init := rows[..|rows| - 1];
      var id := FirstItem(rows[|rows| - 1].committeeId);
      ColorIndexCountsChanges(init);
      if Truthy(id) {
        assert KeptIds(rows) == KeptIds(init) + [id];
        ChangesSnoc(KeptIds(init), id);
      } else {
        assert KeptIds(rows) == KeptIds(init);
      }
    }
  }

  /** The blue colours of a kept row: entry `Changes % 9` of the scheme. */
  function BlueOf(colorIndex: nat): (string, string) {
    var k := colorIndex % |BLUE_BACKGROUND|;
    (BLUE_TEXT[k], BLUE_BACKGROUND[k])
  }

  // ---------------------------------------------------------------------------
  // construct_table

  const REPORT_TITLE: string := "שינויים לשנה השוטפת"

  /** A request id as the first part of a row key. */
  function IdAtom(id: Value): Atom {
    match id
    case VInt(i) => Num(i)
    case VStr(s) => Text(s)
    case _ => Text("")
  }

  /** `row_key = (committee_id, row['budget_code'])` */
  function RowKeyOf(id: Value, code: string): Key {
    [IdAtom(id), Text(code)]
  }

  /** `new_row(row_key)` on table state `s`, then the calls of the fields; or the error of the first that raises. */
  function RowAdded(s: TableState, fields: seq<Field>, row: ChangeRow, id: Value, colorIndex: nat, lk: Lookups): (r: Result<TableState, Error>)
    requires WellFormed(s) && FieldsSettable(fields) && NoZeroAllocation(lk)
    ensures r.Ok? ==> WellFormed(r.value)
  {
    match FieldWrites(fields, row, colorIndex, lk)
    case Err(e) => Err(e)
    case Ok(ws) =>
      NewRowAppendsOneRow(s, RowKeyOf(id, row.budgetCode));
      ApplyWritesWellFormed(NewRowState(s, RowKeyOf(id, row.budgetCode)), ws);
      Ok(ApplyWrites(NewRowState(s, RowKeyOf(id, row.budgetCode)), ws))
  }

  /** The table after the loop over `rows` with the given fields, or the error of the first kept row whose calls raise. */
  function TableAfter(fields: seq<Field>, rows: seq<ChangeRow>, lk: Lookups): (r: Result<TableState, Error>)
    requires FieldsSettable(fields) && NoZeroAllocation(lk)
    ensures r.Ok? ==> WellFormed(r.value)
  {
    if rows == [] then Ok(EmptyState())
    else NextTable(fields, TableAfter(fields, rows[..|rows| - 1], lk), rows[|rows| - 1], ColorScan(rows).1, lk)
  }

  /** One pass of the loop: an earlier error stays, a row with a falsy request id is skipped, any other row is added. */
  function NextTable(fields: seq<Field>, before: Result<TableState, Error>, row: ChangeRow, colorIndex: nat, lk: Lookups): (r: Result<TableState, Error>)
    requires FieldsSettable(fields) && NoZeroAllocation(lk)
    requires before.Ok? ==> WellFormed(before.value)
    ensures r.Ok? ==> WellFormed(r.value)
  {
    match before
    case Err(e) => Err(e)
    case Ok(s) =>
      var id := FirstItem(row.committeeId);
      if !Truthy(id) then Ok(s) else RowAdded(s, fields, row, id, colorIndex, lk)
  }

  /** The table `construct_table` builds from `rows`, before `save`. */
  function Report(rows: seq<ChangeRow>, lk: Lookups): Result<TableState, Error>
    requires NoZeroAllocation(lk)
  {
    RowFieldsSettable();
    TableAfter(RowFields(), rows, lk)
  }

  /** The `set` calls of the fields for one row: each value, then its options, then the call. */
  method EmitFields(t: ReportTable.Table, fields: seq<Field>, row: ChangeRow, colorIndex: nat, lk: Lookups) returns (r: Result<(), Error>)
    requires t.Valid() && FieldsSettable(fields) && NoZeroAllocation(lk)
    modifies t
    ensures t.Valid()
    ensures r.Ok? <==> FieldWrites(fields, row, colorIndex, lk).Ok?
    ensures r.Err? ==> r.error == FieldWrites(fields, row, colorIndex, lk).error
    ensures r.Ok? ==> t.State() == ApplyWrites(old(t.State()), FieldWrites(fields, row, colorIndex, lk).value)
  {
    ghost var rs := FieldResults(fields, row, colorIndex, lk);
    ghost var all := Collect(rs, 0);
    var i := 0;
    while i < |fields|
      invariant 0 <= i <= |fields| && t.Valid()
      invariant all.Ok? <==> Collect(rs, i).Ok?
      invariant all.Err? ==> all.error == Collect(rs, i).error
      invariant all.Ok? ==> ApplyWrites(t.State(), Collect(rs, i).value) == ApplyWrites(old(t.State()), all.value)
    {
      ghost var before := t.State();
      var done := EmitField(t, fields, i, row, colorIndex, lk);
      if done.Err? {
        return done;
      }
      CollectStep(before, rs, i);
      i := i + 1;
    }
    return Ok(());
  }

  /** One field of a row: its value, then its options, then the `set` call. */
  method EmitField(t: ReportTable.Table, fields: seq<Field>, i: nat, row: ChangeRow, colorIndex: nat, lk: Lookups) returns (r: Result<(), Error>)
    requires t.Valid() && i < |fields| && FieldsSettable(fields) && NoZeroAllocation(lk)
    modifies t
    ensures t.Valid()
    ensures var w := FieldWrite(fields, i, row, colorIndex, lk);
      && (r.Ok? <==> w.Ok?)
      && (r.Err? ==> r.error == w.error)
      && (r.Ok? ==> t.State() == SetState(old(t.State()), w.value.title, w.value.value, [Num(i)], w.value.options))
      && (r.Err? ==> t.State() == old(t.State()))
  {
    var value := FieldValue(fields[i].key, row, lk);
    if value.Err? {
      return Err(value.error);
    }
    var options := CellOptions(fields[i].style, value.value, colorIndex);
    if options.Err? {
      return Err(options.error);
    }
    t.Set(fields[i].title, value.value, [Num(i)], options.value);
    return Ok(());
  }

  /** The kept-row branch of the loop: `new_row(row_key)`, then the calls of the fields. */
  method AddRow(t: ReportTable.Table, fields: seq<Field>, row: ChangeRow, colorIndex: nat, lk: Lookups) returns (r: Result<(), Error>)
    requires t.Valid() && FieldsSettable(fields) && NoZeroAllocation(lk) && Truthy(FirstItem(row.committeeId))
    modifies t
    ensures t.Valid()
    ensures var after := NextTable(fields, Ok(old(t.State())), row, colorIndex, lk);
      && (r.Ok? <==> after.Ok?)
      && (r.Err? ==> r.error == after.error)
      && (r.Ok? ==> t.State() == after.value)
  {
    t.NewRow(RowKeyOf(FirstItem(row.committeeId), row.budgetCode));
    r := EmitFields(t, fields, row, colorIndex, lk);
  }

  /** The colour index after one more row: a kept row of another request than the last kept one moves it on. */
  lemma ColorScanSnoc(rows: seq<ChangeRow>, k: nat)
    requires k < |rows|
    ensures ColorScan(rows[..k + 1]) == ScanStep(ColorScan(rows[..k]), rows[k])
  {
    assert rows[..k + 1][..k] == rows[..k];
  }

  /** A row whose request id is falsy leaves the table as it is. */
  lemma NextTableSkips(fields: seq<Field>, s: TableState, row: ChangeRow, colorIndex: nat, lk: Lookups)
    requires FieldsSettable(fields) && NoZeroAllocation(lk) && WellFormed(s) && !Truthy(FirstItem(row.committeeId))
    ensures NextTable(fields, Ok(s), row, colorIndex, lk) == Ok(s)
  {
  }

  /** The table after one more row: a skipped row leaves it, a kept row is added to it. */
  lemma TableAfterSnoc(fields: seq<Field>, rows: seq<ChangeRow>, k: nat, lk: Lookups)
    requires k < |rows| && FieldsSettable(fields) && NoZeroAllocation(lk)
    ensures TableAfter(fields, rows[..k + 1], lk) == NextTable(fields, TableAfter(fields, rows[..k], lk), rows[k], ColorScan(rows[..k + 1]).1, lk)
  {
    assert rows[..k + 1][..k] == rows[..k];
  }

  /** Once a row raises, the loop over any longer list raises the same error. */
  lemma {:induction false} TableAfterStaysFailed(fields: seq<Field>, rows: seq<ChangeRow>, k: nat, lk: Lookups)
    requires k <= |rows| && FieldsSettable(fields) && NoZeroAllocation(lk) && TableAfter(fields, rows[..k], lk).Err?
    ensures TableAfter(fields, rows, lk) == TableAfter(fields, rows[..k], lk)
    decreases |rows| - k
  {
    if k < |rows| {
      TableAfterSnoc(fields, rows, k, lk);
      TableAfterStaysFailed(fields, rows, k + 1, lk);
    } else {
      assert rows[..k] == rows;
    }
  }

  /** The loop of `construct_table` over the change rows, on table `t`. */
  method AddRows(t: ReportTable.Table, fields: seq<Field>, changes: seq<ChangeRow>, lk: Lookups) returns (r: Result<(), Error>)
    requires t.Valid() && t.State() == EmptyState() && FieldsSettable(fields) && NoZeroAllocation(lk)
    modifies t
    ensures t.Valid()
    ensures r.Ok? <==> TableAfter(fields, changes, lk).Ok?
    ensures r.Err? ==> r.error == TableAfter(fields, changes, lk).error
    ensures r.Ok? ==> t.State() == TableAfter(fields, changes, lk).value
  {
    var committee := VNone;
    var colorIndex := 0;
    var k := 0;
    while k < |changes|
      invariant 0 <= k <= |changes|
      invariant (committee, colorIndex) == ColorScan(changes[..k])
      invariant TableAfter(fields, changes[..k], lk) == Ok(t.State())
    {
      ColorScanSnoc(changes, k);
      TableAfterSnoc(fields, changes, k, lk);
      var done;
      committee, colorIndex, done := NextRow(t, fields, changes[k], committee, colorIndex, lk);
      if done.Err? {
        TableAfterStaysFailed(fields, changes, k + 1, lk);
        return done;
      }
      k := k + 1;
    }
    assert changes[..k] == changes;
    return Ok(());
  }

  /** One pass of the loop: skip a row with a falsy request id; otherwise move the colour index on a change of request and add the row. */
  method NextRow(t: ReportTable.Table, fields: seq<Field>, row: ChangeRow, committee: Value, colorIndex: nat, lk: Lookups)
    returns (committee': Value, colorIndex': nat, r: Result<(), Error>)
    requires t.Valid() && FieldsSettable(fields) && NoZeroAllocation(lk)
    modifies t
    ensures t.Valid()
    ensures (committee', colorIndex') == ScanStep((committee, colorIndex), row)
    ensures var after := NextTable(fields, Ok(old(t.State())), row, colorIndex', lk);
      && (r.Ok? <==> after.Ok?)
      && (r.Err? ==> r.error == after.error)
      && (r.Ok? ==> t.State() == after.value)
  {
    committee', colorIndex' := committee, colorIndex;
    var id := FirstItem(row.committeeId);
    if !Truthy(id) {
      return committee', colorIndex', Ok(());
    }
    if Truthy(committee) && committee != id {
      colorIndex' := colorIndex + 1;
    }
    committee' := id;
    r := AddRow(t, fields, row, colorIndex', lk);
  }

  /** One pass of the loop, spelled out: an earlier error stays, a skipped row changes nothing, a kept row's calls raise or add its row. */
  lemma NextTableMeaning(fields: seq<Field>, before: Result<TableState, Error>, row: ChangeRow, colorIndex: nat, lk: Lookups)
    requires FieldsSettable(fields) && NoZeroAllocation(lk)
    requires before.Ok? ==> WellFormed(before.value)
    ensures var r := NextTable(fields, before, row, colorIndex, lk);
      var id := FirstItem(row.committeeId);
      var ws := FieldWrites(fields, row, colorIndex, lk);
      && (before.Err? ==> r == before)
      && (before.Ok? && !Truthy(id) ==> r == before)
      && (before.Ok? && Truthy(id) && ws.Err? ==> r == Err(ws.error))
      && (before.Ok? && Truthy(id) && ws.Ok? ==> r == Ok(ApplyWrites(NewRowState(before.value, RowKeyOf(id, row.budgetCode)), ws.value)))
  {
  }

  /** A row whose section `[:4]` or area `[:6]` has no name among the parents. */
  predicate MissingParent(row: ChangeRow, lk: Lookups) {
    Slice(row.budgetCode, 0, 4) !in lk.names || Slice(row.budgetCode, 0, 6) !in lk.names
  }

  /**
   * Building the table fails exactly when some kept row's section or area
   * has no name, and then with a KeyError.
   */
  lemma {:induction false} ReportFails(rows: seq<ChangeRow>, lk: Lookups)
    requires NoZeroAllocation(lk)
    ensures var r := Report(rows, lk);
      && (r.Err? <==> exists j :: 0 <= j < |rows| && KeptMissing(rows, j, lk))
      && (r.Err? ==> r.error == KeyError)
  {
    RowFieldsSettable();
    if rows == [] {
      assert Report(rows, lk) == Ok(EmptyState());
    } else {
      var init := rows[..|rows| - 1];
      var last := rows[|rows| - 1];
      ReportFails(init, lk);
      ReportFailsStep(rows, lk);
      AnyKeptMissingSnoc(rows, init, lk);
    }
  }

  /** One more row makes the table fail when it is kept and misses a parent name, and otherwise keeps its outcome. */
  lemma {:induction false} ReportFailsStep(rows: seq<ChangeRow>, lk: Lookups)
    requires NoZeroAllocation(lk) && rows != []
    ensures var r0 := Report(rows[..|rows| - 1], lk);
      var r := Report(rows, lk);
      var last := rows[|rows| - 1];
      && (r.Err? <==> r0.Err? || KeptMissing(rows, |rows| - 1, lk))
      && (r.Err? ==> (r0.Err? && r == r0) || r.error == KeyError)
  {
    RowFieldsSettable();
    var init := rows[..|rows| - 1];
    var last := rows[|rows| - 1];
    var r0 := Report(init, lk);
    assert Report(rows, lk) == NextTable(RowFields(), r0, last, ColorScan(rows).1, lk);
    NextTableMeaning(RowFields(), r0, last, ColorScan(rows).1, lk);
    RowWritesFail(last, ColorScan(rows).1, lk);
  }

  /** Some row of `rows` is kept and misses a parent name exactly when one before the last does, or the last does. */
  lemma {:induction false} AnyKeptMissingSnoc(rows: seq<ChangeRow>, init: seq<ChangeRow>, lk: Lookups)
    requires rows != [] && init == rows[..|rows| - 1]
    ensures (exists j :: 0 <= j < |rows| && KeptMissing(rows, j, lk))
        <==> (exists j :: 0 <= j < |init| && KeptMissing(init, j, lk)) || KeptMissing(rows, |rows| - 1, lk)
  {
    forall j | 0 <= j < |init|
      ensures KeptMissing(rows, j, lk) == KeptMissing(init, j, lk)
    {
      assert rows[j] == init[j];
    }
  }

  /** Row `j` is kept and its section or area has no name. */
  predicate KeptMissing(rows: seq<ChangeRow>, j: int, lk: Lookups) {
    0 <= j < |rows| && Truthy(FirstItem(rows[j].committeeId)) && MissingParent(rows[j], lk)
  }

  /**
   * The rows of the table built from `rows`: one per kept row, in order,
   * each as `RowMadeAt` says.
   */
  ghost predicate RowsOf(fields: seq<Field>, rows: seq<ChangeRow>, lk: Lookups, s: TableState)
    requires NoZeroAllocation(lk)
  {
    && |s.rows| == |KeptRows(rows)|
    && s.groups == map[]
    && forall j :: 0 <= j < |KeptRows(rows)| ==> RowMadeAt(fields, rows, lk, s, j)
  }

  /**
   * Table row `j` is made from kept row `j`: keyed by its request and
   * budget code, holding the cells of its calls made with the colour index
   * of the request changes up to that row.
   */
  ghost predicate RowMadeAt(fields: seq<Field>, rows: seq<ChangeRow>, lk: Lookups, s: TableState, j: nat)
    requires NoZeroAllocation(lk)
  {
    var kept := KeptRows(rows);
    var ids := KeptIds(rows);
    && j < |kept| && j < |s.rows|
    && FieldWrites(fields, kept[j], Changes(ids[..j + 1]), lk).Ok?
    && s.rows[j] == Row(RowKeyOf(ids[j], kept[j].budgetCode), CellsAfter(map[], FieldWrites(fields, kept[j], Changes(ids[..j + 1]), lk).value))
  }

  lemma {:induction false} TableRows(fields: seq<Field>, rows: seq<ChangeRow>, lk: Lookups)
    requires FieldsSettable(fields) && NoZeroAllocation(lk) && TableAfter(fields, rows, lk).Ok?
    ensures RowsOf(fields, rows, lk, TableAfter(fields, rows, lk).value)
  {
    if rows != [] {
      var init := rows[..|rows| - 1];
      var last := rows[|rows| - 1];
      assert TableAfter(fields, rows, lk) == NextTable(fields, TableAfter(fields, init, lk), last, ColorScan(rows).1, lk);
      NextTableMeaning(fields, TableAfter(fields, init, lk), last, ColorScan(rows).1, lk);
      TableRows(fields, init, lk);
      if Truthy(FirstItem(last.committeeId)) {
        RowsOfKept(fields, rows, lk, TableAfter(fields, init, lk).value);
      } else {
        RowsOfSkipped(fields, rows, lk, TableAfter(fields, init, lk).value);
      }
    }
  }

  /** A skipped row leaves the table of the rows before it the table of all of them. */
  lemma {:induction false} RowsOfSkipped(fields: seq<Field>, rows: seq<ChangeRow>, lk: Lookups, s: TableState)
    requires NoZeroAllocation(lk)
    requires rows != [] && !Truthy(FirstItem(rows[|rows| - 1].committeeId))
    requires RowsOf(fields, rows[..|rows| - 1], lk, s)
    ensures RowsOf(fields, rows, lk, s)
  {
    var init := rows[..|rows| - 1];
    assert KeptRows(rows) == KeptRows(init);
    assert KeptIds(rows) == KeptIds(init);
    forall j | 0 <= j < |KeptRows(rows)|
      ensures RowMadeAt(fields, rows, lk, s, j)
    {
      assert RowMadeAt(fields, init, lk, s, j);
    }
  }

  /** Adding a kept row to the table of the rows before it gives the table of all of them. */
  lemma {:induction false} RowsOfKept(fields: seq<Field>, rows: seq<ChangeRow>, lk: Lookups, s0: TableState)
    requires FieldsSettable(fields) && NoZeroAllocation(lk) && WellFormed(s0)
    requires rows != [] && Truthy(FirstItem(rows[|rows| - 1].committeeId))
    requires RowsOf(fields, rows[..|rows| - 1], lk, s0)
    requires FieldWrites(fields, rows[|rows| - 1], ColorScan(rows).1, lk).Ok?
    ensures var last := rows[|rows| - 1];
      RowsOf(fields, rows, lk, ApplyWrites(NewRowState(s0, RowKeyOf(FirstItem(last.committeeId), last.budgetCode)),
                                            FieldWrites(fields, last, ColorScan(rows).1, lk).value))
  {
    var last := rows[|rows| - 1];
    var key := RowKeyOf(FirstItem(last.committeeId), last.budgetCode);
    RowWritten(s0, key, FieldWrites(fields, last, ColorScan(rows).1, lk).value);
    RowsOfAppended(fields, rows, lk, s0, ApplyWrites(NewRowState(s0, key), FieldWrites(fields, last, ColorScan(rows).1, lk).value));
  }

  /** A table that adds the last kept row's row, and nothing else, to the table of the rows before it is the table of all of them. */
  lemma {:induction false} RowsOfAppended(fields: seq<Field>, rows: seq<ChangeRow>, lk: Lookups, s0: TableState, s: TableState)
    requires NoZeroAllocation(lk)
    requires rows != [] && Truthy(FirstItem(rows[|rows| - 1].committeeId))
    requires RowsOf(fields, rows[..|rows| - 1], lk, s0)
    requires FieldWrites(fields, rows[|rows| - 1], ColorScan(rows).1, lk).Ok?
    requires |s.rows| == |s0.rows| + 1 && s.rows[..|s0.rows|] == s0.rows && s.groups == s0.groups
    requires var last := rows[|rows| - 1];
      s.rows[|s0.rows|] == Row(RowKeyOf(FirstItem(last.committeeId), last.budgetCode),
                               CellsAfter(map[], FieldWrites(fields, last, ColorScan(rows).1, lk).value))
    ensures RowsOf(fields, rows, lk, s)
  {
    var init := rows[..|rows| - 1];
    KeptSnoc(rows);
    forall j | 0 <= j < |KeptRows(rows)|
      ensures RowMadeAt(fields, rows, lk, s, j)
    {
      if j < |KeptRows(init)| {
        assert s.rows[j] == s.rows[..|s0.rows|][j];
        RowMadeEarlier(fields, rows, lk, s0, s, j);
      } else {
        RowMadeLast(fields, rows, lk, s);
      }
    }
  }

  /** The kept rows and requests of rows ending in a kept row: those before it, then it. */
  lemma {:induction false} KeptSnoc(rows: seq<ChangeRow>)
    requires rows != [] && Truthy(FirstItem(rows[|rows| - 1].committeeId))
    ensures KeptRows(rows) == KeptRows(rows[..|rows| - 1]) + [rows[|rows| - 1]]
    ensures KeptIds(rows) == KeptIds(rows[..|rows| - 1]) + [FirstItem(rows[|rows| - 1].committeeId)]
  {
  }

  /** A row made before the last kept row stays as it was. */
  lemma {:induction false} RowMadeEarlier(fields: seq<Field>, rows: seq<ChangeRow>, lk: Lookups, s0: TableState, s: TableState, j: nat)
    requires NoZeroAllocation(lk)
    requires rows != [] && Truthy(FirstItem(rows[|rows| - 1].committeeId))
    requires RowMadeAt(fields, rows[..|rows| - 1], lk, s0, j)
    requires j < |s.rows| && s.rows[j] == s0.rows[j]
    ensures RowMadeAt(fields, rows, lk, s, j)
  {
    var init := rows[..|rows| - 1];
    KeptSnoc(rows);
    assert KeptRows(rows)[j] == KeptRows(init)[j];
    assert KeptIds(rows)[..j + 1] == KeptIds(init)[..j + 1];
  }

  /** The row added for the last kept row is made from it, with the colour index of all the rows. */
  lemma {:induction false} RowMadeLast(fields: seq<Field>, rows: seq<ChangeRow>, lk: Lookups, s: TableState)
    requires NoZeroAllocation(lk)
    requires rows != [] && Truthy(FirstItem(rows[|rows| - 1].committeeId))
    requires FieldWrites(fields, rows[|rows| - 1], ColorScan(rows).1, lk).Ok?
    requires |s.rows| == |KeptRows(rows[..|rows| - 1])| + 1
    requires var last := rows[|rows| - 1];
      s.rows[|s.rows| - 1] == Row(RowKeyOf(FirstItem(last.committeeId), last.budgetCode),
                                  CellsAfter(map[], FieldWrites(fields, last, ColorScan(rows).1, lk).value))
    ensures RowMadeAt(fields, rows, lk, s, |s.rows| - 1)
  {
    KeptSnoc(rows);
    ColorIndexCountsChanges(rows);
    var ids := KeptIds(rows);
    assert ids[..|ids|] == ids;
  }

  /**
   * `construct_table` as written: the style table, built before any row is
   * read, calls `color_scheme_red_green('FBFFF3')`; only when that succeeded
   * would the rows be written and saved.
   */
  function ConstructTableAsWritten(changeSums: seq<(YearCode, int)>, budget: seq<(YearCode, Amount)>, parents: seq<(string, string)>,
                                   changes: seq<ChangeRow>): Result<ReportTable.Sheet, Error>
  {
    match RedGreenStyleAsWritten()
    case Err(e) => Err(e)
    case Ok(_) =>
      match Report(changes, LookupsOf(changeSums, budget, parents))
      case Err(e) => Err(e)
      case Ok(s) => ReportTable.SaveOutcome(s, REPORT_TITLE, [], []).1
  }

  /** As written, `construct_table` raises ValueError whatever its input. */
  lemma ConstructTableRaises(changeSums: seq<(YearCode, int)>, budget: seq<(YearCode, Amount)>, parents: seq<(string, string)>,
                             changes: seq<ChangeRow>)
    ensures ConstructTableAsWritten(changeSums, budget, parents, changes) == Err(ValueError)
  {
    RedGreenStyleRaises();
  }

  /**
   * `construct_table`, with the ratio style corrected, from the lookups' source rows and the change rows on:
   * one table row per kept change row, keyed by its request and budget code,
   * its cells the twenty-two fields; then `save`.
   */
  method ConstructTable(changeSums: seq<(YearCode, int)>, budget: seq<(YearCode, Amount)>, parents: seq<(string, string)>,
                        changes: seq<ChangeRow>) returns (r: Result<ReportTable.Sheet, Error>)
    ensures var lk := LookupsOf(changeSums, budget, parents);
      r == match Report(changes, lk)
        case Err(e) => Err(e)
        case Ok(s) => ReportTable.SaveOutcome(s, REPORT_TITLE, [], []).1
  {
    var lk := LookupsOf(changeSums, budget, parents);
    RowFieldsSettable();
    var t := new ReportTable.Table(REPORT_TITLE, [], []);
    var done := AddRows(t, RowFields(), changes, lk);
    if done.Err? {
      return Err(done.error);
    }
    r := t.Save();
  }
}
