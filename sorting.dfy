/**
 * Python's ordering of strings and `sorted(...)` over a set of strings.
 *
 * Python compares strings by code point, a proper prefix being smaller.
 * `sorted(xs, key=str.lower)` orders by the lower-cased form; where two
 * distinct strings have the same lower-cased form Python keeps the set's
 * iteration order, which depends on string hashing.  The model breaks such
 * ties by code-point order instead, so every sort here is determined.
 */
module Sorting {
  import opened Text

  /** Python's `a < b` on strings. */
  predicate LexLess(a: string, b: string)
  {
    if |a| == 0 then |b| > 0
    else if |b| == 0 then false
    else a[0] < b[0] || (a[0] == b[0] && LexLess(a[1..], b[1..]))
  }

  datatype Order = CodePoint | CaseInsensitive

  /** The strict order `sorted` produces under each key. */
  predicate Less(o: Order, a: string, b: string)
  {
    match o
    case CodePoint => LexLess(a, b)
    case CaseInsensitive =>
      LexLess(Lower(a), Lower(b)) || (Lower(a) == Lower(b) && LexLess(a, b))
  }

  lemma {:induction false} LexIrreflexive(a: string)
    ensures !LexLess(a, a)
  {
    if |a| > 0 {
      LexIrreflexive(a[1..]);
    }
  }

  lemma {:induction false} LexTransitive(a: string, b: string, c: string)
    requires LexLess(a, b) && LexLess(b, c)
    ensures LexLess(a, c)
  {
    if |a| > 0 && |b| > 0 && |c| > 0 && a[0] == b[0] == c[0] {
      LexTransitive(a[1..], b[1..], c[1..]);
    }
  }

  lemma {:induction false} LexTotal(a: string, b: string)
    requires a != b
    ensures LexLess(a, b) || LexLess(b, a)
  {
    if |a| > 0 && |b| > 0 && a[0] == b[0] {
      assert a == [a[0]] + a[1..] && b == [b[0]] + b[1..];
      LexTotal(a[1..], b[1..]);
    }
  }

  lemma LexAsymmetric(a: string, b: string)
    requires LexLess(a, b)
    ensures !LexLess(b, a)
  {
    if LexLess(b, a) {
      LexTransitive(a, b, a);
      LexIrreflexive(a);
    }
  }

  lemma LessIrreflexive(o: Order, a: string)
    ensures !Less(o, a, a)
  {
    LexIrreflexive(a);
    LexIrreflexive(Lower(a));
  }

  lemma LessTransitive(o: Order, a: string, b: string, c: string)
    requires Less(o, a, b) && Less(o, b, c)
    ensures Less(o, a, c)
  {
    match o
    case CodePoint => LexTransitive(a, b, c);
    case CaseInsensitive =>
      if LexLess(Lower(a), Lower(b)) && LexLess(Lower(b), Lower(c)) {
        LexTransitive(Lower(a), Lower(b), Lower(c));
      } else if Lower(a) == Lower(b) && Lower(b) == Lower(c) {
        LexTransitive(a, b, c);
      }
  }

  lemma LessTotal(o: Order, a: string, b: string)
    requires a != b
    ensures Less(o, a, b) || Less(o, b, a)
  {
    LexTotal(a, b);
    if Lower(a) != Lower(b) {
      LexTotal(Lower(a), Lower(b));
    }
  }

  /** Every earlier element is smaller: sorted and free of duplicates. */
  predicate StrictlySorted(o: Order, xs: seq<string>)
  {
    forall i, j :: 0 <= i < j < |xs| ==> Less(o, xs[i], xs[j])
  }

  /** Insert `x` in front of the first element it is smaller than. */
  function Insert(o: Order, x: string, xs: seq<string>): seq<string>
  {
    if |xs| == 0 then [x]
    else if Less(o, x, xs[0]) then [x] + xs
    else [xs[0]] + Insert(o, x, xs[1..])
  }

  lemma {:induction false} InsertElements(o: Order, x: string, xs: seq<string>)
    ensures forall y :: y in Insert(o, x, xs) <==> y == x || y in xs
    ensures |Insert(o, x, xs)| == |xs| + 1
  {
    if |xs| > 0 && !Less(o, x, xs[0]) {
      InsertElements(o, x, xs[1..]);
      assert xs == [xs[0]] + xs[1..];
    }
  }

  lemma {:induction false} InsertSorted(o: Order, x: string, xs: seq<string>)
    requires StrictlySorted(o, xs) && x !in xs
    ensures StrictlySorted(o, Insert(o, x, xs))
  {
    if |xs| == 0 {
    } else if Less(o, x, xs[0]) {
      var r := [x] + xs;
      forall i, j | 0 <= i < j < |r|
        ensures Less(o, r[i], r[j])
      {
        if i == 0 && j > 1 {
          LessTransitive(o, x, xs[0], xs[j - 1]);
        }
      }
    } else {
      InsertSorted(o, x, xs[1..]);
      InsertElements(o, x, xs[1..]);
      LessTotal(o, x, xs[0]);
      var t := Insert(o, x, xs[1..]);
      var r := [xs[0]] + t;
      assert Insert(o, x, xs) == r;
      forall i, j | 0 <= i < j < |r|
        ensures Less(o, r[i], r[j])
      {
        if i == 0 {
          assert r[j] == t[j - 1];
          assert r[j] in t;
          if r[j] != x {
            var k :| 0 <= k < |xs[1..]| && xs[1..][k] == r[j];
            assert xs[k + 1] == r[j];
          }
        } else {
          assert r[i] == t[i - 1] && r[j] == t[j - 1];
        }
      }
    }
  }

  /** Every finite set of strings has a strictly sorted listing. */
  lemma {:induction false} SortedExists(o: Order, s: set<string>)
    ensures exists xs :: StrictlySorted(o, xs) && forall x :: x in xs <==> x in s
    decreases |s|
  {
    if s == {} {
      assert StrictlySorted(o, []);
    } else {
      var x :| x in s;
      SortedExists(o, s - {x});
      var xs :| StrictlySorted(o, xs) && forall y :: y in xs <==> y in s - {x};
      InsertSorted(o, x, xs);
      InsertElements(o, x, xs);
    }
  }

  /** The listing `sorted` gives of a set: the one strictly sorted sequence of its elements. */
  ghost function SortedOf(o: Order, s: set<string>): (xs: seq<string>)
    ensures StrictlySorted(o, xs) && forall x :: x in xs <==> x in s
  {
    SortedExists(o, s);
    var xs :| StrictlySorted(o, xs) && forall x :: x in xs <==> x in s;
    xs
  }

  /** `sorted(s, key=...)` for a set of strings. */
  method SortSet(o: Order, s: set<string>) returns (xs: seq<string>)
    ensures StrictlySorted(o, xs)
    ensures forall x :: x in xs <==> x in s
    ensures xs == SortedOf(o, s)
  {
    xs := [];
    var rest := s;
    while rest != {}
      invariant StrictlySorted(o, xs)
      invariant rest <= s
      invariant forall x :: x in xs <==> x in s - rest
      decreases |rest|
    {
      var x :| x in rest;
      InsertSorted(o, x, xs);
      InsertElements(o, x, xs);
      xs := Insert(o, x, xs);
      rest := rest - {x};
    }
    SortedUnique(o, xs, SortedOf(o, s));
  }

  /** Two strictly sorted sequences with the same elements are equal. */
  lemma {:induction false} SortedUnique(o: Order, xs: seq<string>, ys: seq<string>)
    requires StrictlySorted(o, xs) && StrictlySorted(o, ys)
    requires forall x :: x in xs <==> x in ys
    ensures xs == ys
  {
    if |xs| > 0 {
      assert xs[0] in ys;
    }
    if |ys| > 0 {
      assert ys[0] in xs;
    }
    if |xs| > 0 && |ys| > 0 {
      if xs[0] != ys[0] {
        var a, b := xs[0], ys[0];
        assert a in ys;
        var i :| 0 <= i < |ys| && ys[i] == a;
        assert b in xs;
        var j :| 0 <= j < |xs| && xs[j] == b;
        assert Less(o, b, a);
        assert Less(o, a, b);
        LessTransitive(o, a, b, a);
        LessIrreflexive(o, a);
      }
      forall x
        ensures x in xs[1..] <==> x in ys[1..]
      {
        if x in xs[1..] {
          var i :| 0 <= i < |xs[1..]| && xs[1..][i] == x;
          assert Less(o, xs[0], xs[i + 1]);
          LessIrreflexive(o, x);
          assert x in ys;
          var k :| 0 <= k < |ys| && ys[k] == x;
          assert k != 0;
          assert ys[1..][k - 1] == x;
        }
        if x in ys[1..] {
          var i :| 0 <= i < |ys[1..]| && ys[1..][i] == x;
          assert Less(o, ys[0], ys[i + 1]);
          LessIrreflexive(o, x);
          assert x in xs;
          var k :| 0 <= k < |xs| && xs[k] == x;
          assert k != 0;
          assert xs[1..][k - 1] == x;
        }
      }
      SortedUnique(o, xs[1..], ys[1..]);
      assert xs == [xs[0]] + xs[1..] && ys == [ys[0]] + ys[1..];
    }
  }
}
