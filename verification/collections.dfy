/** Sequence helpers: element-wise mapping, collecting optional values,
    distinctness, and the facts that make a computation depend only on the
    multiset of its input. */
module Collections {
  import opened Results

  /** `s.map(f)`. */
  function Map<A, B>(f: A -> B, s: seq<A>): (r: seq<B>)
    ensures |r| == |s|
    ensures forall i :: 0 <= i < |s| ==> r[i] == f(s[i])
  {
    if s == [] then [] else [f(s[0])] + Map(f, s[1..])
  }

  /** No element occurs twice. */
  predicate Distinct<T(==)>(s: seq<T>) {
    forall i, j :: 0 <= i < j < |s| ==> s[i] != s[j]
  }

  /** All the values, if none is missing; otherwise nothing. */
  function Collect<T>(os: seq<Option<T>>): (r: Option<seq<T>>)
    ensures r.Some? <==> forall i :: 0 <= i < |os| ==> os[i].Some?
    ensures r.Some? ==> |r.value| == |os| && forall i :: 0 <= i < |os| ==> os[i] == Some(r.value[i])
  {
    if os == [] then Some([])
    else match os[0]
      case None => None
      case Some(x) =>
        match Collect(os[1..])
        case None => None
        case Some(xs) => Some([x] + xs)
  }

  lemma MapConcat<A, B>(f: A -> B, a: seq<A>, b: seq<A>)
    ensures Map(f, a + b) == Map(f, a) + Map(f, b)
  {
  }

  /** Mapping a permutation gives a permutation. */
  lemma {:induction false} MapPermutation<A, B>(f: A -> B, a: seq<A>, b: seq<A>)
    requires multiset(a) == multiset(b)
    ensures multiset(Map(f, a)) == multiset(Map(f, b))
    decreases |a|, 1
  {
    if a == [] {
      assert |multiset(b)| == 0;
      assert b == [];
    } else {
      MapPermutationStep(f, a, b);
    }
  }

  /** The inductive step of `MapPermutation`: take the first element of `a`
      out of `b` and compare the rest. */
  lemma {:induction false} MapPermutationStep<A, B>(f: A -> B, a: seq<A>, b: seq<A>)
    requires a != [] && multiset(a) == multiset(b)
    ensures multiset(Map(f, a)) == multiset(Map(f, b))
    decreases |a|, 0
  {
    assert a[0] in multiset(b);
    var j :| 0 <= j < |b| && b[j] == a[0];
    var rest := b[..j] + b[j + 1..];
    RemoveMatching(a, b, j);
    MapPermutation(f, a[1..], rest);
    MapRemoveAt(f, b, j);
    MapCons(f, a, multiset(Map(f, rest)));
  }

  /** Taking the first element of `a` out of a permutation `b` of it leaves a
      permutation of the rest of `a`. */
  lemma RemoveMatching<A>(a: seq<A>, b: seq<A>, j: nat)
    requires a != [] && multiset(a) == multiset(b) && j < |b| && b[j] == a[0]
    ensures multiset(a[1..]) == multiset(b[..j] + b[j + 1..])
  {
    var m := multiset(a) - multiset{a[0]};
    assert multiset(b[..j] + b[j + 1..]) == m by {
      RemoveAtMultiset(b, j);
    }
    assert multiset(a[1..]) == m by {
      assert a == [a[0]] + a[1..];
    }
  }

  lemma MapCons<A, B>(f: A -> B, a: seq<A>, tail: multiset<B>)
    requires a != [] && multiset(Map(f, a[1..])) == tail
    ensures multiset(Map(f, a)) == tail + multiset{f(a[0])}
  {
    assert Map(f, a) == [f(a[0])] + Map(f, a[1..]);
  }

  lemma RemoveAtMultiset<T>(s: seq<T>, j: nat)
    requires j < |s|
    ensures multiset(s[..j] + s[j + 1..]) == multiset(s) - multiset{s[j]}
  {
    assert s == s[..j] + ([s[j]] + s[j + 1..]);
  }

  /** Mapping a sequence with one element taken out. */
  lemma MapRemoveAt<A, B>(f: A -> B, s: seq<A>, j: nat)
    requires j < |s|
    ensures multiset(Map(f, s)) == multiset(Map(f, s[..j] + s[j + 1..])) + multiset{f(s[j])}
  {
    var p, q := s[..j], s[j + 1..];
    assert s == p + ([s[j]] + q) by {
      assert s == s[..j] + s[j..];
      assert s[j..] == [s[j]] + q;
    }
    MapSplice(f, p, s[j], q);
    MapConcat(f, p, q);
    SpliceMultiset(Map(f, p), f(s[j]), Map(f, q));
  }

  lemma MapSplice<A, B>(f: A -> B, p: seq<A>, x: A, q: seq<A>)
    ensures Map(f, p + ([x] + q)) == Map(f, p) + ([f(x)] + Map(f, q))
  {
    MapConcat(f, p, [x] + q);
    MapConcat(f, [x], q);
  }

  lemma SpliceMultiset<T>(a: seq<T>, x: T, b: seq<T>)
    ensures multiset(a + ([x] + b)) == multiset(a + b) + multiset{x}
  {
  }

  /** The collected values occur exactly as often as their `Some` wrappers. */
  lemma {:induction false} CollectOccurrences<T>(os: seq<Option<T>>, x: T)
    requires Collect(os).Some?
    ensures multiset(Collect(os).value)[x] == multiset(os)[Some(x)]
  {
    if os != [] {
      CollectOccurrences(os[1..], x);
      assert os == [os[0]] + os[1..];
      assert Collect(os).value == [os[0].value] + Collect(os[1..]).value;
    }
  }

  /** Collecting a permutation either fails for both or gives a permutation. */
  lemma CollectPermutation<T>(a: seq<Option<T>>, b: seq<Option<T>>)
    requires multiset(a) == multiset(b)
    ensures Collect(a).Some? <==> Collect(b).Some?
    ensures Collect(a).Some? ==> multiset(Collect(a).value) == multiset(Collect(b).value)
  {
    assert None in a <==> None in b by {
      assert None in a <==> None in multiset(a);
      assert None in b <==> None in multiset(b);
    }
    assert Collect(a).Some? <==> None !in a by {
      if None in a { var i :| 0 <= i < |a| && a[i] == None; }
    }
    assert Collect(b).Some? <==> None !in b by {
      if None in b { var i :| 0 <= i < |b| && b[i] == None; }
    }
    if Collect(a).Some? {
      forall x
        ensures multiset(Collect(a).value)[x] == multiset(Collect(b).value)[x]
      {
        CollectOccurrences(a, x);
        CollectOccurrences(b, x);
      }
    }
  }

  /** In a sequence without repeats each element occurs once. */
  lemma {:induction false} DistinctOccursOnce<T>(s: seq<T>, x: T)
    requires Distinct(s) && x in s
    ensures multiset(s)[x] == 1
  {
    assert s == [s[0]] + s[1..];
    if s[0] == x {
      assert forall k :: 1 <= k < |s| ==> s[k] != x;
      assert x !in multiset(s[1..]);
    } else {
      DistinctOccursOnce(s[1..], x);
    }
  }

  /** A new element in front keeps a sequence free of repeats. */
  lemma DistinctCons<T>(x: T, s: seq<T>)
    requires Distinct(s) && x !in s
    ensures Distinct([x] + s)
  {
  }

  /** A non-empty sequence contains its first element. */
  lemma HeadIn<T>(s: seq<T>)
    ensures s != [] ==> s[0] in s
  {
  }

  /** The position of the first `x` in `s`, or `|s|` when there is none. */
  function IndexOf<T(==)>(s: seq<T>, x: T): (i: nat)
    ensures i <= |s|
    ensures i < |s| <==> x in s
    ensures i < |s| ==> s[i] == x
    ensures forall p :: 0 <= p < i ==> s[p] != x
  {
    if s == [] || s[0] == x then 0
    else
      var i := IndexOf(s[1..], x);
      assert forall p :: 0 < p <= i ==> s[p] == s[1..][p - 1];
      1 + i
  }

  /** `a` is `b` with some elements left out, the rest in their order. */
  predicate IsSubsequence<T(==)>(a: seq<T>, b: seq<T>)
    decreases |b|
  {
    a == [] || (b != [] && ((a[0] == b[0] && IsSubsequence(a[1..], b[1..])) || IsSubsequence(a, b[1..])))
  }
}
