/** The string operations the report scripts use: `sep.join`, `str.split` and `str.strip` of one character. */
module Strings {
  /** `sep.join(parts)` */
  function Join(parts: seq<string>, sep: string): string {
    if parts == [] then ""
    else if |parts| == 1 then parts[0]
    else parts[0] + sep + Join(parts[1..], sep)
  }

  /** The index of the first `c` in `s`, or `|s|` when there is none. */
  function IndexOf(s: string, c: char): (n: nat)
    ensures n <= |s|
    ensures forall k :: 0 <= k < n ==> s[k] != c
    ensures n < |s| ==> s[n] == c
  {
    if s == [] || s[0] == c then 0 else 1 + IndexOf(s[1..], c)
  }

  /** `s.split(sep)`: the pieces between the separators, `['']` for the empty string. */
  function Split(s: string, sep: char): (parts: seq<string>)
    ensures parts != []
    ensures forall i, k :: 0 <= i < |parts| && 0 <= k < |parts[i]| ==> parts[i][k] != sep
    decreases |s|
  {
    var n := IndexOf(s, sep);
    if n == |s| then [s]
    else [s[..n]] + Split(s[n + 1..], sep)
  }

  /** The pieces hold only characters of the string. */
  lemma {:induction false} SplitChars(s: string, sep: char)
    ensures forall i, k :: 0 <= i < |Split(s, sep)| && 0 <= k < |Split(s, sep)[i]| ==> Split(s, sep)[i][k] in s
    decreases |s|
  {
    var n := IndexOf(s, sep);
    if n < |s| {
      var rest := s[n + 1..];
      SplitChars(rest, sep);
      var ps := Split(s, sep);
      assert ps == [s[..n]] + Split(rest, sep);
      forall i, k | 0 <= i < |ps| && 0 <= k < |ps[i]|
        ensures ps[i][k] in s
      {
        if i == 0 {
          assert ps[i][k] == s[k];
        } else {
          assert ps[i][k] in rest;
          var j :| 0 <= j < |rest| && rest[j] == ps[i][k];
          assert s[n + 1 + j] == rest[j];
        }
      }
    }
  }

  /** Joining the pieces with the separator gives the string back. */
  lemma {:induction false} SplitJoin(s: string, sep: char)
    ensures Join(Split(s, sep), [sep]) == s
    decreases |s|
  {
    var n := IndexOf(s, sep);
    if n < |s| {
      var rest := s[n + 1..];
      var ps := Split(rest, sep);
      SplitJoin(rest, sep);
      assert Split(s, sep) == [s[..n]] + ps;
      assert ([s[..n]] + ps)[1..] == ps;
      assert Join([s[..n]] + ps, [sep]) == s[..n] + [sep] + Join(ps, [sep]);
      assert s == s[..n] + [sep] + rest;
    }
  }

  /** Positions `lo` up to `hi` of `s` all hold `c`. */
  predicate AllAre(s: string, lo: int, hi: int, c: char)
    requires 0 <= lo && hi <= |s|
  {
    forall k :: lo <= k < hi ==> s[k] == c
  }

  /** How many copies of `c` `s` starts with: `s.lstrip(c)` is `s[Leading(s, c):]`. */
  function Leading(s: string, c: char): (n: nat)
    ensures n <= |s| && AllAre(s, 0, n, c) && (n == |s| || s[n] != c)
    decreases |s|
  {
    if s == [] || s[0] != c then 0
    else
      var n := Leading(s[1..], c);
      assert forall k :: 1 <= k < n + 1 ==> s[k] == s[1..][k - 1];
      n + 1
  }

  /** How many copies of `c` `s` ends with: `s.rstrip(c)` is `s[:len(s) - Trailing(s, c)]`. */
  function Trailing(s: string, c: char): (n: nat)
    ensures n <= |s| && AllAre(s, |s| - n, |s|, c) && (n == |s| || s[|s| - 1 - n] != c)
    decreases |s|
  {
    if s == [] || s[|s| - 1] != c then 0
    else
      var init := s[..|s| - 1];
      var n := Trailing(init, c);
      assert forall k :: |init| - n <= k < |init| ==> s[k] == init[k];
      n + 1
  }

  /**
   * `s.strip(c)`: the middle of `s` left after removing every leading and
   * trailing `c`; it neither starts nor ends with `c`.
   */
  function Strip(s: string, c: char): (r: string)
    ensures var i := Leading(s, c);
      && i + |r| <= |s| && r == s[i..i + |r|] && AllAre(s, 0, i, c) && AllAre(s, i + |r|, |s|, c)
    ensures r == [] || (r[0] != c && r[|r| - 1] != c)
  {
    var i := Leading(s, c);
    if i == |s| then [] else s[i..|s| - Trailing(s, c)]
  }

  /** A string that neither starts nor ends with `c` is its own strip. */
  lemma StripUntouched(s: string, c: char)
    requires s == [] || (s[0] != c && s[|s| - 1] != c)
    ensures Strip(s, c) == s
  {
    assert Leading(s, c) == 0;
    if s != [] {
      assert Trailing(s, c) == 0;
      assert s[0..|s|] == s;
    }
  }

  /** A string without the separator is one piece. */
  lemma SplitNone(s: string, sep: char)
    requires sep !in s
    ensures Split(s, sep) == [s]
  {
    assert IndexOf(s, sep) == |s|;
  }

  /** A string is split at its first separator. */
  lemma SplitFirst(a: string, b: string, sep: char)
    requires sep !in a
    ensures Split(a + [sep] + b, sep) == [a] + Split(b, sep)
  {
    var s := a + [sep] + b;
    assert IndexOf(s, sep) == |a| by {
      assert s[|a|] == sep;
      assert forall k :: 0 <= k < |a| ==> s[k] == a[k];
    }
    assert s[..|a|] == a && s[|a| + 1..] == b;
  }

  /** The strip holds only characters of the string. */
  lemma StripChars(s: string, c: char)
    ensures forall k :: 0 <= k < |Strip(s, c)| ==> Strip(s, c)[k] in s
  {
    var r := Strip(s, c);
    var i := Leading(s, c);
    forall k | 0 <= k < |r|
      ensures r[k] in s
    {
      assert r[k] == s[i + k];
    }
  }
}
