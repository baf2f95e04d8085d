/** The Python values the report scripts pass around, with Python's truthiness. */
module Values {

  datatype Option<+T> = None | Some(value: T)

  datatype Result<+T, +E> = Ok(value: T) | Err(error: E)

  /** The exceptions a report run can end with. */
  datatype Error =
    | AssertionError   // `assert` in Table.save
    | IndexError       // indexing past the end of a list or string
    | ValueError       // `int(...)` / `float(...)` of a string that is not a number
    | KeyError         // `d[k]` with `k` missing
    | TypeError        // arithmetic on None
    | NoProposalYear   // the explicit `raise Exception(...)` of the proposal report
    | EmptySequence    // `max()` of an empty sequence

  /** A style callable that may stand in a cell option instead of a literal colour. */
  datatype StyleFn = RedGreen

  /** A Python value as stored in a cell or read from a data row. */
  datatype Value =
    | VNone
    | VBool(b: bool)
    | VInt(i: int)
    | VReal(r: real)
    | VStr(s: string)
    | VList(items: seq<Value>)
    | VFn(f: StyleFn)

  /** Python's truth test: None, False, zero, and empty strings and lists are false. */
  predicate Truthy(v: Value) {
    match v
    case VNone => false
    case VBool(b) => b
    case VInt(i) => i != 0
    case VReal(r) => r != 0.0
    case VStr(s) => s != []
    case VList(xs) => xs != []
    case VFn(_) => true
  }

  /** An integer amount that may be missing (None). */
  type Amount = Option<int>

  /** Truthiness of an amount: present and non-zero. */
  predicate AmountTruthy(a: Amount) {
    a.Some? && a.value != 0
  }

  /** A sequence without repeated elements. */
  predicate NoDup<T(==)>(s: seq<T>) {
    forall i, j :: 0 <= i < j < |s| ==> s[i] != s[j]
  }

  /** Some member of a non-empty set (for proofs). */
  lemma PickMember<T>(s: set<T>) returns (x: T)
    requires s != {}
    ensures x in s
  {
    x :| x in s;
  }

  /** Some member of a non-empty set: the next key a loop over a dictionary visits. */
  method Choose<T>(s: set<T>) returns (x: T)
    requires s != {}
    ensures x in s
  {
    x :| x in s;
  }

  /** The members of a set in some order, each once: the order a loop over a dictionary visits its keys. */
  method Enumerate<T>(s: set<T>) returns (xs: seq<T>)
    ensures |xs| == |s| && NoDup(xs)
    ensures forall x :: x in xs <==> x in s
  {
    xs := [];
    var todo := s;
    while todo != {}
      invariant todo <= s
      invariant forall x :: x in xs <==> x in s && x !in todo
      invariant NoDup(xs) && |xs| + |todo| == |s|
      decreases todo
    {
      var x := Choose(todo);
      xs := xs + [x];
      todo := todo - {x};
    }
  }

  // ---------------------------------------------------------------------------
  // `min` and `max` of a non-empty set of integers

  lemma {:induction false} HasSmallest(g: set<int>)
    requires g != {}
    ensures exists m :: m in g && forall y :: y in g ==> m <= y
  {
    var x := PickMember(g);
    if g != {x} {
      var rest := g - {x};
      HasSmallest(rest);
      var m :| m in rest && forall y :: y in rest ==> m <= y;
      var least := if x < m then x else m;
      forall y | y in g
        ensures least <= y
      {
        if y != x {
          assert y in rest;
        }
      }
      assert least in g;
    } else {
      assert forall y :: y in g ==> x <= y;
    }
  }

  lemma {:induction false} HasLargest(g: set<int>)
    requires g != {}
    ensures exists m :: m in g && forall y :: y in g ==> y <= m
  {
    var x := PickMember(g);
    if g != {x} {
      var rest := g - {x};
      HasLargest(rest);
      var m :| m in rest && forall y :: y in rest ==> y <= m;
      var most := if x > m then x else m;
      forall y | y in g
        ensures y <= most
      {
        if y != x {
          assert y in rest;
        }
      }
      assert most in g;
    } else {
      assert forall y :: y in g ==> y <= x;
    }
  }

  function SetMin(g: set<int>): (m: int)
    requires g != {}
    ensures m in g && forall y :: y in g ==> m <= y
  {
    HasSmallest(g);
    var m :| m in g && forall y :: y in g ==> m <= y; m
  }

  function SetMax(g: set<int>): (m: int)
    requires g != {}
    ensures m in g && forall y :: y in g ==> y <= m
  {
    HasLargest(g);
    var m :| m in g && forall y :: y in g ==> y <= m; m
  }


  // ---------------------------------------------------------------------------
  // Counting in multisets

  /** A sequence without repeats holds each value at most once. */
  lemma {:induction false} AtMostOnce<T>(l: seq<T>, x: T)
    requires forall i, j :: 0 <= i < j < |l| ==> l[i] != l[j]
    ensures multiset(l)[x] <= 1
  {
    if l != [] {
      var init := l[..|l| - 1];
      AtMostOnce(init, x);
      assert l == init + [l[|l| - 1]];
      if l[|l| - 1] == x {
        assert x !in init;
      }
    }
  }

  /** A value at two positions is counted at least twice. */
  lemma TwiceInMultiset<T>(l: seq<T>, i: nat, j: nat)
    requires i < j < |l| && l[i] == l[j]
    ensures multiset(l)[l[i]] >= 2
  {
    assert l == l[..j] + [l[j]] + l[j + 1..];
    assert l[..j][i] == l[i];
    assert l[i] in multiset(l[..j]);
  }

}
