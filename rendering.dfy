/**
 * The value and style decisions table.py makes when it writes the sheet:
 * `process_value`, the fill and number format `append_cells` picks for a
 * cell, `color_scheme_red_green`, and the column width rule of `save`.
 */
module Rendering {
  import opened Values
  import opened TableModel
  import Decimal

  // ---------------------------------------------------------------------------
  // process_value

  /**
   * `process_value`: None becomes the empty string, an int (a bool included,
   * as Python's `bool` is an `int`) its decimal text; other values stay.
   */
  function ProcessValue(v: Value): (r: Value)
    ensures v == VNone ==> r == VStr("")
    ensures v.VInt? ==> r.VStr? && Decimal.ParseInt(r.s) == Ok(v.i)
    ensures v.VBool? ==> r == VStr(if v.b then "True" else "False")
    ensures !v.VNone? && !v.VInt? && !v.VBool? ==> r == v
  {
    match v
    case VNone => VStr("")
    case VBool(b) => VStr(if b then "True" else "False")
    case VInt(i) => Decimal.IntRoundTrip(i); VStr(Decimal.IntToString(i))
    case _ => v
  }

  /** An integer is written as its decimal text with a minus sign exactly when it is negative. */
  lemma ProcessedIntSign(i: int)
    ensures ProcessValue(VInt(i)).VStr?
    ensures var s := ProcessValue(VInt(i)).s; s != [] && (i < 0 <==> s[0] == '-')
  {
  }

  /** The record shown in the column of each header: the row's cell with its value processed, or None. */
  function ProcessedRow(cells: Cells, headers: seq<Header>): (r: seq<Option<Cell>>)
    ensures |r| == |headers|
  {
    seq(|headers|, k requires 0 <= k < |headers| =>
      if headers[k].title in cells
      then Some(cells[headers[k].title].(value := ProcessValue(cells[headers[k].title].value)))
      else None)
  }

  // ---------------------------------------------------------------------------
  // color_scheme_red_green

  /** The position of the first `.` in `s`, or `|s|` when there is none. */
  function DotAt(s: string): (p: nat)
    ensures p <= |s|
    ensures forall k :: 0 <= k < p ==> s[k] != '.'
    ensures p < |s| ==> s[p] == '.'
  {
    if s == [] then 0
    else if s[0] == '.' then 0
    else 1 + DotAt(s[1..])
  }

  /** `float(s)` for the plain decimal spellings `[+-]digits`, `[+-]digits.digits`, `[+-]digits.` and `[+-].digits`. */
  function ParseDecimal(s: string): (r: Result<real, Error>)
  {
    var neg := s != [] && s[0] == '-';
    var body := if s != [] && (s[0] == '-' || s[0] == '+') then s[1..] else s;
    var p := DotAt(body);
    var whole := body[..p];
    var frac := if p < |body| then body[p + 1..] else [];
    if Decimal.AllDigits(whole) && Decimal.AllDigits(frac) && (whole != [] || frac != []) then
      var m := Decimal.DigitsValue(whole) as real + Decimal.DigitsValue(frac) as real / Pow10(|frac|) as real;
      Ok(if neg then -m else m)
    else Err(ValueError)
  }

  function Pow10(n: nat): (p: nat)
    ensures p >= 1
  {
    if n == 0 then 1 else 10 * Pow10(n - 1)
  }

  /** `float(value)` of a cell value. */
  function ToFloat(v: Value): Result<real, Error> {
    match v
    case VNone => Err(TypeError)
    case VBool(b) => Ok(if b then 1.0 else 0.0)
    case VInt(i) => Ok(i as real)
    case VReal(r) => Ok(r)
    case VStr(s) => ParseDecimal(s)
    case VList(_) => Err(TypeError)
    case VFn(_) => Err(TypeError)
  }

  const RED: string := "FF0000"
  const GREEN: string := "00FF00"
  const WHITE: string := "FFFFFF"

  /** The thresholds of `color_scheme_red_green` on a number: above 0.05 red, below -0.05 green. */
  function Classify(x: real): (c: string)
    ensures c == RED <==> x > 0.05
    ensures c == GREEN <==> x < -0.05
    ensures c == WHITE <==> -0.05 <= x <= 0.05
  {
    if x > 0.05 then RED else if x < -0.05 then GREEN else WHITE
  }

  /** `color_scheme_red_green(value)` */
  function ColorSchemeRedGreen(v: Value): (r: Result<string, Error>)
    ensures !Truthy(v) ==> r == Ok(WHITE)
    ensures Truthy(v) ==> r == match ToFloat(v) { case Ok(x) => Ok(Classify(x)) case Err(e) => Err(e) }
  {
    if !Truthy(v) then Ok(WHITE)
    else
      match ToFloat(v)
      case Ok(x) => Ok(Classify(x))
      case Err(e) => Err(e)
  }

  /** Green, white, red in ascending order of value. */
  function Rank(c: string): int {
    if c == GREEN then 0 else if c == WHITE then 1 else 2
  }

  /** A larger change is never coloured on the greener side of a smaller one. */
  lemma ClassifyMonotone(x: real, y: real)
    requires x <= y
    ensures Rank(Classify(x)) <= Rank(Classify(y))
  {
  }

  /** Negating the change swaps red and green and keeps white. */
  lemma ClassifySymmetric(x: real)
    ensures Classify(-x) == (if Classify(x) == RED then GREEN else if Classify(x) == GREEN then RED else WHITE)
  {
  }

  /** The text `process_value` makes of an int reads back as the same number. */
  lemma ParseDecimalOfInt(i: int)
    ensures ParseDecimal(Decimal.IntToString(i)) == Ok(i as real)
  {
    var s := Decimal.IntToString(i);
    var n: nat := if i < 0 then -i else i;
    var body := Decimal.NatToString(n);
    assert body == if i < 0 then s[1..] else s;
    assert DotAt(body) == |body|;
    assert body[..|body|] == body;
    Decimal.NatRoundTrip(n);
  }

  /** Colouring the written text of an int gives the colour of the int itself. */
  lemma RedGreenOfProcessedInt(i: int)
    ensures ColorSchemeRedGreen(ProcessValue(VInt(i))) == ColorSchemeRedGreen(VInt(i))
  {
    ParseDecimalOfInt(i);
  }

  /** A value that is not a number, such as a colour code, makes `float` raise a ValueError. */
  lemma RedGreenOfColourCode()
    ensures ColorSchemeRedGreen(VStr("FBFFF3")) == Err(ValueError)
  {
    var s := "FBFFF3";
    assert DotAt(s) == |s| by {
      assert forall k :: 0 <= k < |s| ==> s[k] != '.';
    }
    assert s[..|s|] == s;
    assert !Decimal.IsDigit(s[0]);
  }

  lemma RedGreenExamples()
    ensures ColorSchemeRedGreen(VReal(0.10)) == Ok(RED)
    ensures ColorSchemeRedGreen(VReal(-0.10)) == Ok(GREEN)
    ensures ColorSchemeRedGreen(VReal(0.02)) == Ok(WHITE)
    ensures ColorSchemeRedGreen(VInt(0)) == Ok(WHITE)
  {
  }

  // ---------------------------------------------------------------------------
  // The style decisions of append_cells

  const NO_RECORD_FILL: string := "cccccc"
  const PLAIN_FILL: string := "CAE9F5"
  const DEFAULT_NUMBER_FORMAT: string := "#,##0"

  datatype Style = Style(numberFormat: Value, bold: bool, borderBottom: bool, fill: Option<Value>, comment: Option<Value>)

  predicate Flag(o: Options, k: string) {
    k in o && Truthy(o[k])
  }

  /**
   * The style of one sheet cell: a missing record stands for a grey-filled
   * empty cell; a truthy `background_color` fills with that colour, or with
   * what a colour function makes of the shown value; otherwise a cell
   * without a truthy `parity` gets the plain fill and one with it none.
   */
  function CellStyle(rec: Option<Cell>): Result<Style, Error> {
    var shown := if rec.Some? then rec.value.value else VStr("");
    var o: Options := if rec.Some? then rec.value.options else map["background_color" := VStr(NO_RECORD_FILL)];
    var fill: Result<Option<Value>, Error> :=
      if Flag(o, "background_color") then
        if o["background_color"].VFn? then
          match ColorSchemeRedGreen(shown)
          case Ok(c) => Ok(Some(VStr(c)))
          case Err(e) => Err(e)
        else Ok(Some(o["background_color"]))
      else if !Flag(o, "parity") then Ok(Some(VStr(PLAIN_FILL)))
      else Ok(None);
    match fill
    case Err(e) => Err(e)
    case Ok(f) =>
      Ok(Style(
        if Flag(o, "number_format") then o["number_format"] else VStr(DEFAULT_NUMBER_FORMAT),
        Flag(o, "bold"),
        Flag(o, "border_bottom"),
        f,
        if Flag(o, "comment") then Some(o["comment"]) else None))
  }

  /** An absent record is a grey cell in the default number format. */
  lemma MissingRecordStyle()
    ensures CellStyle(None) == Ok(Style(VStr(DEFAULT_NUMBER_FORMAT), false, false, Some(VStr(NO_RECORD_FILL)), None))
  {
  }

  /**
   * A cell without a background colour whose `parity` option became `i % 2`
   * is plain-filled exactly on the even rows and unfilled on the odd ones,
   * so banding alternates.
   */
  lemma ParityBanding(c: Cell, i: nat)
    requires !Flag(c.options, "background_color")
    ensures var s := CellStyle(Some(c.(options := c.options["parity" := VInt(i % 2)])));
      s.Ok? && (s.value.fill == Some(VStr(PLAIN_FILL)) <==> i % 2 == 0) && (s.value.fill == None <==> i % 2 == 1)
  {
  }

  /** A cell styled by the red/green function is filled by the sign and size of its value. */
  lemma RedGreenFill(c: Cell, x: real)
    requires Flag(c.options, "background_color") && c.options["background_color"] == VFn(RedGreen)
    requires c.value == VReal(x)
    ensures CellStyle(Some(c)).Ok?
    ensures CellStyle(Some(c)).value.fill == Some(VStr(if x == 0.0 then WHITE else Classify(x)))
  {
  }

  // ---------------------------------------------------------------------------
  // Column width

  function MaxOf(s: seq<nat>): (m: nat)
    requires s != []
    ensures m in s && forall k :: 0 <= k < |s| ==> s[k] <= m
  {
    if |s| == 1 then s[0]
    else
      var m := MaxOf(s[..|s| - 1]);
      assert forall k :: 0 <= k < |s| - 1 ==> s[k] == s[..|s| - 1][k];
      if s[|s| - 1] > m then s[|s| - 1] else m
  }

  /** `min((max_length + 2) * 1.0, 175/7)` over the text lengths of a column. */
  function ColumnWidth(lengths: seq<nat>): (w: real)
    requires lengths != []
    ensures w <= 25.0
    ensures forall k :: 0 <= k < |lengths| ==> w >= (lengths[k] + 2) as real || w == 25.0
    ensures w == 25.0 <==> exists k :: 0 <= k < |lengths| && (lengths[k] + 2) as real >= 25.0
    ensures w < 25.0 ==> exists k :: 0 <= k < |lengths| && w == (lengths[k] + 2) as real
  {
    var m := MaxOf(lengths);
    var wide := (m + 2) as real;
    if wide < 175.0 / 7.0 then wide else 175.0 / 7.0
  }
}
