/** The order `Array.prototype.sort()` uses when it is given no comparator:
    strings compared code unit by code unit, a proper prefix first. A `char`
    here stands for one UTF-16 code unit. */
module StringOrder {
  import opened Collections

  /** `a < b` on strings. Nothing is below the empty string, and no string
      is below itself. */
  predicate Less(a: string, b: string)
    ensures Less(a, b) ==> |b| > 0 && a != b
    decreases |a|
  {
    |b| > 0 && (|a| == 0 || a[0] < b[0] || (a[0] == b[0] && Less(a[1..], b[1..])))
  }

  lemma {:induction false} LessIrreflexive(a: string)
    ensures !Less(a, a)
    decreases |a|
  {
    if |a| > 0 {
      LessIrreflexive(a[1..]);
    }
  }

  /** A proper prefix comes first. */
  lemma {:induction false} LessPrefix(a: string, b: string)
    requires |a| < |b| && a == b[..|a|]
    ensures Less(a, b)
    decreases |a|
  {
    if |a| > 0 {
      LessPrefix(a[1..], b[1..]);
    }
  }

  lemma {:induction false} LessTransitive(a: string, b: string, c: string)
    requires Less(a, b) && Less(b, c)
    ensures Less(a, c)
    decreases |a|
  {
    if |a| > 0 && a[0] == b[0] && b[0] == c[0] {
      LessTransitive(a[1..], b[1..], c[1..]);
    }
  }

  /** Two different strings are always comparable. */
  lemma {:induction false} LessTotal(a: string, b: string)
    requires a != b
    ensures Less(a, b) || Less(b, a)
    decreases |a|
  {
    if |a| > 0 && |b| > 0 && a[0] == b[0] {
      assert a == [a[0]] + a[1..] && b == [b[0]] + b[1..];
      LessTotal(a[1..], b[1..]);
    }
  }

  lemma LessAsymmetric(a: string, b: string)
    requires Less(a, b)
    ensures !Less(b, a)
  {
    if Less(b, a) {
      LessTransitive(a, b, a);
      LessIrreflexive(a);
    }
  }

  /** Comparing two strings whose first parts have the same length: the first
      parts decide, and only when they are equal do the second parts. */
  lemma {:induction false} LessConcat(a1: string, a2: string, b1: string, b2: string)
    requires |a1| == |b1|
    ensures Less(a1 + a2, b1 + b2) <==> Less(a1, b1) || (a1 == b1 && Less(a2, b2))
    decreases |a1|
  {
    if |a1| > 0 {
      assert (a1 + a2)[1..] == a1[1..] + a2;
      assert (b1 + b2)[1..] == b1[1..] + b2;
      LessConcat(a1[1..], a2, b1[1..], b2);
      assert a1 == [a1[0]] + a1[1..] && b1 == [b1[0]] + b1[1..];
    } else {
      assert a1 + a2 == a2 && b1 + b2 == b2;
    }
  }

  /** No element is smaller than one before it. */
  predicate Sorted(s: seq<string>) {
    forall i, j :: 0 <= i < j < |s| ==> !Less(s[j], s[i])
  }

  /** Every element is smaller than every one after it. */
  predicate StrictlyAscending(s: seq<string>) {
    forall i, j :: 0 <= i < j < |s| ==> Less(s[i], s[j])
  }

  /** Puts `x` in front of the first element that is not smaller than it. */
  function Insert(x: string, s: seq<string>): (r: seq<string>)
    ensures multiset(r) == multiset(s) + multiset{x}
    ensures Distinct(s) && x !in s ==> Distinct(r)
  {
    if s == [] || !Less(s[0], x) then
      if Distinct(s) && x !in s then DistinctCons(x, s); [x] + s else [x] + s
    else
      var r' := Insert(x, s[1..]);
      assert s == [s[0]] + s[1..];
      if Distinct(s) && x !in s then
        assert s[0] !in multiset(r');
        DistinctCons(s[0], r');
        [s[0]] + r'
      else
        [s[0]] + r'
  }

  lemma {:induction false} InsertKeepsOrder(x: string, s: seq<string>)
    requires Sorted(s)
    ensures Sorted(Insert(x, s))
    decreases |s|
  {
    if s == [] || !Less(s[0], x) {
      forall j | 0 <= j < |s|
        ensures !Less(s[j], x)
      {
        var y := s[j];
        if Less(y, x) {
          if y != s[0] {
            LessTotal(y, s[0]);
            LessTransitive(s[0], y, x);
          }
        }
      }
      SortedCons(x, s);
    } else {
      InsertKeepsOrder(x, s[1..]);
      var r' := Insert(x, s[1..]);
      forall j | 0 <= j < |r'|
        ensures !Less(r'[j], s[0])
      {
        assert r'[j] in multiset(r');
        if r'[j] == x {
          LessAsymmetric(s[0], x);
        } else {
          assert r'[j] in multiset(s[1..]);
          var k :| 0 <= k < |s[1..]| && s[1..][k] == r'[j];
          assert s[k + 1] == r'[j];
        }
      }
      SortedCons(s[0], r');
    }
  }

  /** An element no later one is smaller than keeps a sorted list sorted. */
  lemma SortedCons(y: string, t: seq<string>)
    requires Sorted(t)
    requires forall j :: 0 <= j < |t| ==> !Less(t[j], y)
    ensures Sorted([y] + t)
  {
    assert forall i :: 0 < i <= |t| ==> ([y] + t)[i] == t[i - 1];
  }

  /** The labels' sort: an insertion sort, which for distinct strings gives the
      one strictly ascending arrangement any correct sort gives. */
  function SortStrings(s: seq<string>): (r: seq<string>)
    ensures multiset(r) == multiset(s)
    ensures Sorted(r)
  {
    if s == [] then []
    else
      var t := SortStrings(s[..|s| - 1]);
      assert s == s[..|s| - 1] + [s[|s| - 1]];
      InsertKeepsOrder(s[|s| - 1], t);
      Insert(s[|s| - 1], t)
  }

  /** Sorting distinct strings lists each of them exactly once, ascending. */
  lemma {:induction false} SortDistinct(s: seq<string>)
    requires Distinct(s)
    ensures Distinct(SortStrings(s))
    ensures StrictlyAscending(SortStrings(s))
    decreases |s|
  {
    var r := SortStrings(s);
    if s != [] {
      var p := s[..|s| - 1];
      SortDistinct(p);
      var x := s[|s| - 1];
      assert x !in multiset(SortStrings(p));
    }
    forall i, j | 0 <= i < j < |r|
      ensures Less(r[i], r[j])
    {
      LessTotal(r[i], r[j]);
    }
  }

  /** A strictly ascending sequence is determined by its elements. */
  lemma {:induction false} AscendingUnique(a: seq<string>, b: seq<string>)
    requires StrictlyAscending(a) && StrictlyAscending(b)
    requires forall x :: x in a <==> x in b
    ensures a == b
    decreases |a|
  {
    if a == [] {
      if b != [] {
        HeadIn(b);
        assert false;
      }
    } else {
      assert a[0] in b;
      assert b != [];
      var k :| 0 <= k < |b| && b[k] == a[0];
      assert b[0] in a;
      var m :| 0 <= m < |a| && a[m] == b[0];
      if k != 0 && m != 0 {
        LessAsymmetric(a[0], b[0]);
      }
      forall x
        ensures x in a[1..] <==> x in b[1..]
      {
        if x in a[1..] {
          var k :| 1 <= k < |a| && a[k] == x;
          LessIrreflexive(x);
          assert x in b;
        }
        if x in b[1..] {
          var k :| 1 <= k < |b| && b[k] == x;
          LessIrreflexive(x);
          assert x in a;
        }
      }
      AscendingUnique(a[1..], b[1..]);
      assert a == [a[0]] + a[1..] && b == [b[0]] + b[1..];
    }
  }
}
