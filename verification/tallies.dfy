/** A plain JavaScript object used as a counter, as in
    `acc[k] = (acc[k] || 0) + 1`: the keys in the order they were first
    stored (the order `Object.keys` lists non-index keys in) and the number
    stored under each. */
module Tallies {
  import opened Collections

  datatype Tally<K> = Tally(keys: seq<K>, count: map<K, nat>)

  /** `acc[k] || 0`. */
  function CountOf<K>(t: Tally<K>, k: K): nat {
    if k in t.count then t.count[k] else 0
  }

  /** `acc[k] = (acc[k] || 0) + 1`: a new key is appended to the key order. */
  function Bump<K>(t: Tally<K>, k: K): Tally<K> {
    Tally(if k in t.count then t.keys else t.keys + [k], t.count[k := CountOf(t, k) + 1])
  }

  /** `ks.reduce((acc, k) => { acc[k] = (acc[k] || 0) + 1; return acc; }, {})`. */
  function TallyOf<K(!new)>(ks: seq<K>): (t: Tally<K>)
    ensures Distinct(t.keys)
    ensures forall k :: k in t.keys <==> k in ks
    ensures forall k :: k in t.count <==> k in ks
    ensures forall k :: k in t.count ==> t.count[k] == multiset(ks)[k] >= 1
  {
    if ks == [] then Tally([], map[])
    else
      var last := ks[|ks| - 1];
      assert ks == ks[..|ks| - 1] + [last];
      Bump(TallyOf(ks[..|ks| - 1]), last)
  }

  /** `acc[k] || 0` after the reduce is how often `k` occurs. */
  lemma CountOfTally<K(!new)>(ks: seq<K>, k: K)
    ensures CountOf(TallyOf(ks), k) == multiset(ks)[k]
  {
  }

  /** The counts depend only on the multiset of keys, not on their order. */
  lemma TallyPermutation<K(!new)>(a: seq<K>, b: seq<K>)
    requires multiset(a) == multiset(b)
    ensures TallyOf(a).count == TallyOf(b).count
  {
    assert forall k :: k in a <==> k in b by {
      forall k ensures k in a <==> k in b {
        assert k in a <==> k in multiset(a);
        assert k in b <==> k in multiset(b);
      }
    }
  }

  /** The sum of the counts `m` holds for the keys `ds`. */
  function Total<K>(ds: seq<K>, m: map<K, nat>): nat
    requires forall d :: d in ds ==> d in m
  {
    if ds == [] then 0 else m[ds[0]] + Total(ds[1..], m)
  }

  /** The sum, over the keys `ds`, of how often each occurs in `ks`. */
  ghost function Occurrences<K>(ds: seq<K>, ks: seq<K>): nat {
    if ds == [] then 0 else multiset(ks)[ds[0]] + Occurrences(ds[1..], ks)
  }

  lemma {:induction false} TotalOfTally<K(!new)>(ds: seq<K>, ks: seq<K>)
    requires forall d :: d in ds ==> d in TallyOf(ks).count
    ensures Total(ds, TallyOf(ks).count) == Occurrences(ds, ks)
  {
    if ds != [] {
      TotalOfTally(ds[1..], ks);
    }
  }

  /** How many of `ks` are among `ds`. */
  ghost function CountIn<K>(ks: seq<K>, ds: seq<K>): nat {
    if ks == [] then 0 else (if ks[0] in ds then 1 else 0) + CountIn(ks[1..], ds)
  }

  lemma {:induction false} OccurrencesCons<K>(ds: seq<K>, x: K, ks: seq<K>)
    ensures Occurrences(ds, [x] + ks) == Occurrences(ds, ks) + multiset(ds)[x]
  {
    if ds != [] {
      OccurrencesCons(ds[1..], x, ks);
      assert ds == [ds[0]] + ds[1..];
    }
  }

  /** Summed over keys without repeats, the occurrence counts of `ks` add up
      to the number of elements of `ks` that are among those keys. */
  lemma {:induction false} OccurrencesCountIn<K>(ds: seq<K>, ks: seq<K>)
    requires Distinct(ds)
    ensures Occurrences(ds, ks) == CountIn(ks, ds)
    decreases |ks|
  {
    if ks == [] {
      OccurrencesOfNothing(ds);
    } else {
      assert ks == [ks[0]] + ks[1..];
      OccurrencesCountIn(ds, ks[1..]);
      OccurrencesCons(ds, ks[0], ks[1..]);
      if ks[0] in ds {
        DistinctOccursOnce(ds, ks[0]);
      } else {
        assert ks[0] !in multiset(ds);
      }
    }
  }

  lemma {:induction false} CountInAll<K>(ks: seq<K>, ds: seq<K>)
    requires forall k :: k in ks ==> k in ds
    ensures CountIn(ks, ds) == |ks|
  {
    if ks != [] {
      CountInAll(ks[1..], ds);
    }
  }

  /** Summed over keys that list each tallied key once, the counts add up to
      the number of keys tallied. */
  lemma OccurrencesCoverAll<K>(ds: seq<K>, ks: seq<K>)
    requires Distinct(ds)
    requires forall k :: k in ks ==> k in ds
    ensures Occurrences(ds, ks) == |ks|
  {
    OccurrencesCountIn(ds, ks);
    CountInAll(ks, ds);
  }

  /** Summed over the keys of a tally, its counts give the number of keys
      tallied. */
  lemma TallyTotal<K(!new)>(ks: seq<K>)
    ensures forall d :: d in TallyOf(ks).keys ==> d in TallyOf(ks).count
    ensures Total(TallyOf(ks).keys, TallyOf(ks).count) == |ks|
  {
    var t := TallyOf(ks);
    TotalOfTally(t.keys, ks);
    OccurrencesCoverAll(t.keys, ks);
  }

  lemma {:induction false} OccurrencesOfNothing<K>(ds: seq<K>)
    ensures Occurrences(ds, []) == 0
  {
    if ds != [] {
      OccurrencesOfNothing(ds[1..]);
    }
  }
}
