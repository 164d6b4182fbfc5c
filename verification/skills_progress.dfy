/** The aggregation behind the skills-progress dashboard: records are
    bucketed by the UTC calendar date they were gained on, the distinct date
    keys are sorted into chart labels, a running total over the labels gives
    the cumulative series, and a three-bar histogram counts the records at
    proficiency 0, 1 and 2. */
module SkillsProgress {
  import opened Results
  import opened Collections
  import opened StringOrder
  import opened IsoDate
  import opened Tallies

  /** What `new Date(record.dateGained)` yields, as far as `toISOString`
      reads it: an invalid date, or a time value on some UTC calendar day. */
  datatype Instant = InvalidDate | Utc(date: CivilDate)

  /** One "skill gained" record as the skills endpoint returns it. */
  datatype SkillRecord = SkillRecord(skill: string, proficiency: int, dateGained: Instant)

  /** The `RangeError` `toISOString` throws for an invalid date; it aborts
      the whole aggregation. */
  datatype DateError = InvalidTimeValue

  /** What the page hands to its two charts: the line chart's labels and
      series, and the bar chart's three counts. */
  datatype Charts = Charts(labels: seq<DateKey>, cumulative: seq<nat>, proficiency: seq<nat>)

  /** A record's date key, or nothing when `toISOString` would throw. */
  function KeyOf(r: SkillRecord): Option<DateKey> {
    match r.dateGained
    case InvalidDate => None
    case Utc(d) => Some(FormatDate(d))
  }

  function LevelOf(r: SkillRecord): int {
    r.proficiency
  }

  /** The number of records whose date key is `k`. */
  function RecordsOn(rs: seq<SkillRecord>, k: DateKey): nat {
    multiset(Map(KeyOf, rs))[Some(k)]
  }

  /** The number of records at proficiency level `p`. */
  function RecordsAt(rs: seq<SkillRecord>, p: int): nat {
    multiset(Map(LevelOf, rs))[p]
  }

  predicate AllDatesValid(rs: seq<SkillRecord>) {
    forall i :: 0 <= i < |rs| ==> rs[i].dateGained.Utc?
  }

  /** The key of every record, failing as soon as one date is invalid. */
  function DateKeys(rs: seq<SkillRecord>): (r: Result<seq<DateKey>, DateError>)
    ensures r.Success? <==> AllDatesValid(rs)
    ensures r.Success? ==> |r.value| == |rs|
    ensures r.Success? ==> forall i :: 0 <= i < |rs| ==> r.value[i] == FormatDate(rs[i].dateGained.date)
  {
    KeysPresentIffValid(rs);
    match Collect(Map(KeyOf, rs))
    case None => Failure(InvalidTimeValue)
    case Some(ks) => Success(ks)
  }

  lemma KeysPresentIffValid(rs: seq<SkillRecord>)
    ensures Collect(Map(KeyOf, rs)).Some? <==> AllDatesValid(rs)
  {
    var os := Map(KeyOf, rs);
    assert forall i :: 0 <= i < |rs| ==> (os[i].Some? <==> rs[i].dateGained.Utc?);
  }

  /** Each key occurs among the keys as often as there are records on it. */
  lemma DateKeyOccurrences(rs: seq<SkillRecord>)
    requires AllDatesValid(rs)
    ensures forall k :: multiset(DateKeys(rs).value)[k] == RecordsOn(rs, k)
  {
    forall k
      ensures multiset(DateKeys(rs).value)[k] == RecordsOn(rs, k)
    {
      CollectOccurrences(Map(KeyOf, rs), k);
    }
  }

  /** `aggregatedData`: the number of records per date key, with the keys in
      the order they were first met. */
  function DateBuckets(rs: seq<SkillRecord>): (r: Result<Tally<DateKey>, DateError>)
    ensures r.Success? <==> AllDatesValid(rs)
    ensures r.Success? ==> Distinct(r.value.keys)
    ensures r.Success? ==> forall k :: k in r.value.keys <==> k in r.value.count
    ensures r.Success? ==> forall k :: k in r.value.count <==> RecordsOn(rs, k) >= 1
    ensures r.Success? ==> forall k :: k in r.value.count ==> r.value.count[k] == RecordsOn(rs, k)
  {
    var ks :- DateKeys(rs);
    DateKeyOccurrences(rs);
    assert forall k :: k in ks <==> k in multiset(ks);
    Success(TallyOf(ks))
  }

  /** Every record lands in exactly one bucket: the counts add up to the
      number of records. */
  lemma BucketsCountEveryRecord(rs: seq<SkillRecord>)
    requires AllDatesValid(rs)
    ensures var t := DateBuckets(rs).value;
      (forall k :: k in t.keys ==> k in t.count) && Total(t.keys, t.count) == |rs|
  {
    TallyTotal(DateKeys(rs).value);
  }

  /** A key has records exactly when some record was gained on it. */
  lemma RecordsOnPositive(rs: seq<SkillRecord>, k: DateKey)
    ensures RecordsOn(rs, k) >= 1 <==> exists i :: 0 <= i < |rs| && KeyOf(rs[i]) == Some(k)
  {
    var os := Map(KeyOf, rs);
    assert Some(k) in multiset(os) <==> Some(k) in os;
  }

  /** The `cumulativeData` running sum: `acc` plus the counts so far, one
      entry per date. */
  function RunningTotals(ds: seq<DateKey>, m: map<DateKey, nat>, acc: nat): (r: seq<nat>)
    requires forall d :: d in ds ==> d in m
    ensures |r| == |ds|
    ensures forall i :: 0 <= i < |ds| ==> r[i] == acc + Total(ds[..i + 1], m)
    ensures (forall d :: d in ds ==> m[d] >= 1) ==> forall i :: 0 <= i < |ds| ==> acc < r[i]
    ensures (forall d :: d in ds ==> m[d] >= 1) ==> forall i, j :: 0 <= i < j < |ds| ==> r[i] < r[j]
  {
    if ds == [] then []
    else
      var next := acc + m[ds[0]];
      var rest := RunningTotals(ds[1..], m, next);
      assert forall i :: 0 < i < |ds| ==> ds[..i + 1][1..] == ds[1..][..i];
      assert Total(ds[..1], m) == m[ds[0]];
      [next] + rest
  }

  /** The bar chart's data: `proficiencyData[p] || 0` for p = 0, 1, 2. */
  function ProficiencyHistogram(rs: seq<SkillRecord>): (h: seq<nat>)
    ensures h == [RecordsAt(rs, 0), RecordsAt(rs, 1), RecordsAt(rs, 2)]
  {
    var t := TallyOf(Map(LevelOf, rs));
    LevelCounts(rs);
    [CountOf(t, 0), CountOf(t, 1), CountOf(t, 2)]
  }

  lemma LevelCounts(rs: seq<SkillRecord>)
    ensures CountOf(TallyOf(Map(LevelOf, rs)), 0) == RecordsAt(rs, 0)
    ensures CountOf(TallyOf(Map(LevelOf, rs)), 1) == RecordsAt(rs, 1)
    ensures CountOf(TallyOf(Map(LevelOf, rs)), 2) == RecordsAt(rs, 2)
  {
    CountOfTally(Map(LevelOf, rs), 0);
    CountOfTally(Map(LevelOf, rs), 1);
    CountOfTally(Map(LevelOf, rs), 2);
  }

  /** Everything the page computes from the fetched records. */
  function Dashboard(rs: seq<SkillRecord>): (r: Result<Charts, DateError>)
    ensures r.Success? <==> AllDatesValid(rs)
    ensures r.Success? ==> StrictlyAscending(r.value.labels)
    ensures r.Success? ==> forall k :: k in r.value.labels <==> RecordsOn(rs, k) >= 1
    ensures r.Success? ==> |r.value.cumulative| == |r.value.labels|
    ensures r.Success? ==> r.value.proficiency == [RecordsAt(rs, 0), RecordsAt(rs, 1), RecordsAt(rs, 2)]
  {
    var t :- DateBuckets(rs);
    var labels := SortStrings(t.keys);
    SortDistinct(t.keys);
    assert forall k :: k in labels <==> k in t.keys by {
      forall k
        ensures k in labels <==> k in t.keys
      {
        assert k in labels <==> k in multiset(labels);
        assert k in t.keys <==> k in multiset(t.keys);
      }
    }
    Success(Charts(labels, RunningTotals(labels, t.count, 0), ProficiencyHistogram(rs)))
  }

  /** The number of records whose date key is not after `k` in the labels'
      string order. */
  ghost function RecordsThrough(rs: seq<SkillRecord>, k: DateKey): nat {
    if rs == [] then 0
    else (if KeyOf(rs[0]).Some? && !Less(k, KeyOf(rs[0]).value) then 1 else 0) + RecordsThrough(rs[1..], k)
  }

  lemma {:induction false} StrictlyAscendingPrefixDistinct(ls: seq<DateKey>, n: nat)
    requires StrictlyAscending(ls) && n <= |ls|
    ensures Distinct(ls[..n])
  {
    forall i, j | 0 <= i < j < n
      ensures ls[..n][i] != ls[..n][j]
    {
      LessIrreflexive(ls[i]);
    }
  }

  /** Among records whose keys all are labels, the number on the first
      `i + 1` labels is the number not after label `i`. */
  lemma {:induction false} FirstLabelsAreThoseNotAfter(rs: seq<SkillRecord>, labels: seq<DateKey>, i: nat)
    requires AllDatesValid(rs)
    requires StrictlyAscending(labels) && i < |labels|
    requires forall j :: 0 <= j < |rs| ==> KeyOf(rs[j]).value in labels
    ensures CountIn(DateKeys(rs).value, labels[..i + 1]) == RecordsThrough(rs, labels[i])
  {
    var ks := DateKeys(rs).value;
    assert forall j :: 0 <= j < |ks| ==> ks[j] == KeyOf(rs[j]).value;
    FirstLabelsHoldKeysNotAfter(ks, labels, i);
    RecordsThroughKeys(rs, labels[i]);
  }

  /** How many of the keys `ks` are not after `k`. */
  ghost function KeysThrough(ks: seq<DateKey>, k: DateKey): nat {
    if ks == [] then 0 else (if !Less(k, ks[0]) then 1 else 0) + KeysThrough(ks[1..], k)
  }

  lemma {:induction false} RecordsThroughKeys(rs: seq<SkillRecord>, k: DateKey)
    requires AllDatesValid(rs)
    ensures RecordsThrough(rs, k) == KeysThrough(DateKeys(rs).value, k)
    decreases |rs|
  {
    if rs != [] {
      assert DateKeys(rs[1..]).value == DateKeys(rs).value[1..];
      RecordsThroughKeys(rs[1..], k);
    }
  }

  /** Of keys that all are labels, those among the first `i + 1` labels
      are exactly those not after label `i`. */
  lemma {:induction false} FirstLabelsHoldKeysNotAfter(ks: seq<DateKey>, labels: seq<DateKey>, i: nat)
    requires StrictlyAscending(labels) && i < |labels|
    requires forall j :: 0 <= j < |ks| ==> ks[j] in labels
    ensures CountIn(ks, labels[..i + 1]) == KeysThrough(ks, labels[i])
    decreases |ks|
  {
    if ks != [] {
      FirstLabelsHoldKeysNotAfter(ks[1..], labels, i);
      var x := ks[0];
      var j :| 0 <= j < |labels| && labels[j] == x;
      if j <= i {
        assert x in labels[..i + 1];
        if j < i {
          LessAsymmetric(x, labels[i]);
        } else {
          LessIrreflexive(x);
        }
      } else {
        assert x !in labels[..i + 1] by {
          forall m | 0 <= m <= i
            ensures labels[m] != x
          {
            LessIrreflexive(x);
          }
        }
      }
    }
  }

  /** How `Dashboard` builds its labels and series from the date keys. */
  lemma DashboardParts(rs: seq<SkillRecord>)
    requires AllDatesValid(rs)
    ensures var ks, t, c := DateKeys(rs).value, DateBuckets(rs).value, Dashboard(rs).value;
      && t == TallyOf(ks)
      && c.labels == SortStrings(t.keys)
      && c.cumulative == RunningTotals(c.labels, t.count, 0)
      && c.proficiency == ProficiencyHistogram(rs)
      && StrictlyAscending(c.labels)
      && (forall k :: k in c.labels <==> k in ks)
  {
    var ks, t, c := DateKeys(rs).value, DateBuckets(rs).value, Dashboard(rs).value;
    DateKeyOccurrences(rs);
    forall k
      ensures k in c.labels <==> k in ks
    {
      assert k in ks <==> k in multiset(ks);
    }
  }

  /** Summing the tallied counts over the first `i + 1` labels counts the
      records not after label `i`. */
  lemma {:induction false} LabelPrefixTotal(rs: seq<SkillRecord>, labels: seq<DateKey>, i: nat)
    requires AllDatesValid(rs)
    requires StrictlyAscending(labels) && i < |labels|
    requires forall k :: k in labels <==> k in DateKeys(rs).value
    ensures forall d :: d in labels[..i + 1] ==> d in TallyOf(DateKeys(rs).value).count
    ensures Total(labels[..i + 1], TallyOf(DateKeys(rs).value).count) == RecordsThrough(rs, labels[i])
  {
    var ks := DateKeys(rs).value;
    var ds := labels[..i + 1];
    assert forall d :: d in ds ==> d in labels;
    TotalOfTally(ds, ks);
    StrictlyAscendingPrefixDistinct(labels, i + 1);
    OccurrencesCountIn(ds, ks);
    forall j | 0 <= j < |rs|
      ensures KeyOf(rs[j]).value in labels
    {
      assert ks[j] == KeyOf(rs[j]).value;
    }
    FirstLabelsAreThoseNotAfter(rs, labels, i);
  }

  /** `cumulativeData[i]` is the sum of the bucket counts of the first
      `i + 1` sorted dates, which is the number of records gained on or
      before the `i`-th date. */
  lemma SeriesCountsRecordsSoFar(rs: seq<SkillRecord>)
    requires AllDatesValid(rs)
    ensures var c, t := Dashboard(rs).value, DateBuckets(rs).value;
      forall i :: 0 <= i < |c.labels| ==>
        && c.cumulative[i] == Total(c.labels[..i + 1], t.count)
        && c.cumulative[i] == RecordsThrough(rs, c.labels[i])
  {
    var c, t := Dashboard(rs).value, DateBuckets(rs).value;
    DashboardParts(rs);
    forall i | 0 <= i < |c.labels|
      ensures c.cumulative[i] == Total(c.labels[..i + 1], t.count)
      ensures c.cumulative[i] == RecordsThrough(rs, c.labels[i])
    {
      LabelPrefixTotal(rs, c.labels, i);
    }
  }

  /** The series climbs with every date and is empty exactly when there are
      no records. */
  lemma SeriesShape(rs: seq<SkillRecord>)
    requires AllDatesValid(rs)
    ensures var c := Dashboard(rs).value;
      && (forall i, j :: 0 <= i < j < |c.cumulative| ==> c.cumulative[i] < c.cumulative[j])
      && (rs == [] <==> c.labels == [])
  {
    var c, ks := Dashboard(rs).value, DateKeys(rs).value;
    DashboardParts(rs);
    if rs != [] {
      assert ks[0] in c.labels;
    } else {
      assert ks == [];
    }
  }

  /** The last entry of the series is the number of records. */
  lemma SeriesEndsAtRecordCount(rs: seq<SkillRecord>)
    requires AllDatesValid(rs) && rs != []
    ensures var c := Dashboard(rs).value;
      |c.cumulative| > 0 && c.cumulative[|c.cumulative| - 1] == |rs|
  {
    var c, ks := Dashboard(rs).value, DateKeys(rs).value;
    DashboardParts(rs);
    assert ks[0] in c.labels;
    AllLabelsTotal(ks, c.labels);
    LastRunningTotal(c.labels, TallyOf(ks).count);
  }

  lemma LastRunningTotal(ds: seq<DateKey>, m: map<DateKey, nat>)
    requires forall d :: d in ds ==> d in m
    requires ds != []
    ensures RunningTotals(ds, m, 0)[|ds| - 1] == Total(ds, m)
  {
    assert ds[..|ds|] == ds;
  }

  /** Summed over all labels, the tallied counts give the number of keys. */
  lemma AllLabelsTotal(ks: seq<DateKey>, labels: seq<DateKey>)
    requires StrictlyAscending(labels)
    requires forall k :: k in labels <==> k in ks
    ensures forall d :: d in labels ==> d in TallyOf(ks).count
    ensures Total(labels, TallyOf(ks).count) == |ks|
  {
    TotalOfTally(labels, ks);
    StrictlyAscendingPrefixDistinct(labels, |labels|);
    assert labels[..|labels|] == labels;
    OccurrencesCoverAll(labels, ks);
  }

  /** The three bars never count more than all records, and count them all
      exactly when every proficiency is 0, 1 or 2. */
  lemma HistogramTotal(rs: seq<SkillRecord>)
    ensures var h := ProficiencyHistogram(rs);
      && h[0] + h[1] + h[2] <= |rs|
      && (h[0] + h[1] + h[2] == |rs| <==> forall i :: 0 <= i < |rs| ==> 0 <= rs[i].proficiency <= 2)
  {
    var ls := Map(LevelOf, rs);
    LevelsTotal(ls);
  }

  lemma {:induction false} LevelsTotal(ls: seq<int>)
    ensures multiset(ls)[0] + multiset(ls)[1] + multiset(ls)[2] <= |ls|
    ensures multiset(ls)[0] + multiset(ls)[1] + multiset(ls)[2] == |ls| <==> forall i :: 0 <= i < |ls| ==> 0 <= ls[i] <= 2
  {
    if ls != [] {
      assert ls == [ls[0]] + ls[1..];
      LevelsTotal(ls[1..]);
      if !(0 <= ls[0] <= 2) {
        assert ls[0] != 0 && ls[0] != 1 && ls[0] != 2;
      }
      assert (forall i :: 0 <= i < |ls| ==> 0 <= ls[i] <= 2)
         <==> 0 <= ls[0] <= 2 && forall i :: 0 <= i < |ls[1..]| ==> 0 <= ls[1..][i] <= 2;
    }
  }

  /** Both charts depend only on which records there are, not on the order
      the endpoint returned them in. */
  lemma DashboardPermutationInvariant(a: seq<SkillRecord>, b: seq<SkillRecord>)
    requires multiset(a) == multiset(b)
    ensures Dashboard(a) == Dashboard(b)
  {
    MapPermutation(KeyOf, a, b);
    MapPermutation(LevelOf, a, b);
    CollectPermutation(Map(KeyOf, a), Map(KeyOf, b));
    assert ProficiencyHistogram(a) == ProficiencyHistogram(b);
    assert DateKeys(a).Success? <==> DateKeys(b).Success?;
    if AllDatesValid(a) {
      LabelsAndCountsAgree(a, b);
      DashboardParts(a);
      DashboardParts(b);
    }
  }

  lemma LabelsAndCountsAgree(a: seq<SkillRecord>, b: seq<SkillRecord>)
    requires multiset(Map(KeyOf, a)) == multiset(Map(KeyOf, b))
    requires AllDatesValid(a) && AllDatesValid(b)
    ensures Dashboard(a).value.labels == Dashboard(b).value.labels
    ensures DateBuckets(a).value.count == DateBuckets(b).value.count
  {
    var ka, kb := DateKeys(a).value, DateKeys(b).value;
    KeysAgree(a, b);
    TallyPermutation(ka, kb);
    DashboardParts(a);
    DashboardParts(b);
    AscendingUnique(Dashboard(a).value.labels, Dashboard(b).value.labels);
  }

  lemma KeysAgree(a: seq<SkillRecord>, b: seq<SkillRecord>)
    requires multiset(Map(KeyOf, a)) == multiset(Map(KeyOf, b))
    requires AllDatesValid(a) && AllDatesValid(b)
    ensures multiset(DateKeys(a).value) == multiset(DateKeys(b).value)
    ensures forall k :: k in DateKeys(a).value <==> k in DateKeys(b).value
  {
    var ka, kb := DateKeys(a).value, DateKeys(b).value;
    DateKeyOccurrences(a);
    DateKeyOccurrences(b);
    assert multiset(ka) == multiset(kb);
    forall k
      ensures k in ka <==> k in kb
    {
      assert k in ka <==> k in multiset(ka);
      assert k in kb <==> k in multiset(kb);
    }
  }

  /** No records: no labels, no series, three zero bars. */
  lemma EmptyInput()
    ensures Dashboard([]) == Success(Charts([], [], [0, 0, 0]))
  {
    DashboardParts([]);
  }

  /** When every date lies in the years 0 through 9999, the labels are in
      chronological order. */
  lemma LabelsChronological(rs: seq<SkillRecord>)
    requires forall i :: 0 <= i < |rs| ==> rs[i].dateGained.Utc? && 0 <= rs[i].dateGained.date.year <= 9999
    ensures Dashboard(rs).Success?
    ensures Chronological(Dashboard(rs).value.labels)
  {
    var ls := Dashboard(rs).value.labels;
    KeysChronological(rs, ls);
  }

  /** Every key reads back as a date, and the dates come in chronological order. */
  ghost predicate Chronological(ls: seq<DateKey>) {
    && (forall i :: 0 <= i < |ls| ==> ParseDateKey(ls[i]).Some?)
    && (forall i, j :: 0 <= i < j < |ls| ==> Before(ParseDateKey(ls[i]).value, ParseDateKey(ls[j]).value))
  }

  lemma KeysChronological(rs: seq<SkillRecord>, ls: seq<DateKey>)
    requires forall i :: 0 <= i < |rs| ==> rs[i].dateGained.Utc? && 0 <= rs[i].dateGained.date.year <= 9999
    requires StrictlyAscending(ls)
    requires forall k :: k in ls ==> RecordsOn(rs, k) >= 1
    ensures Chronological(ls)
  {
    KeysParse(rs, ls);
    KeysOrdered(rs, ls);
  }

  lemma KeysParse(rs: seq<SkillRecord>, ls: seq<DateKey>)
    requires forall k :: k in ls ==> RecordsOn(rs, k) >= 1
    ensures forall i :: 0 <= i < |ls| ==> ParseDateKey(ls[i]).Some?
  {
    forall i | 0 <= i < |ls|
      ensures ParseDateKey(ls[i]).Some?
    {
      var d := DateOf(rs, ls[i]);
      ParseFormatRoundTrip(d);
    }
  }

  lemma KeysOrdered(rs: seq<SkillRecord>, ls: seq<DateKey>)
    requires forall i :: 0 <= i < |rs| ==> rs[i].dateGained.Utc? && 0 <= rs[i].dateGained.date.year <= 9999
    requires StrictlyAscending(ls)
    requires forall k :: k in ls ==> RecordsOn(rs, k) >= 1
    requires forall i :: 0 <= i < |ls| ==> ParseDateKey(ls[i]).Some?
    ensures forall i, j :: 0 <= i < j < |ls| ==> Before(ParseDateKey(ls[i]).value, ParseDateKey(ls[j]).value)
  {
    forall i, j | 0 <= i < j < |ls|
      ensures Before(ParseDateKey(ls[i]).value, ParseDateKey(ls[j]).value)
    {
      var d1, d2 := DateOf(rs, ls[i]), DateOf(rs, ls[j]);
      assert ParseDateKey(ls[i]) == Some(d1) by {
        ParseFormatRoundTrip(d1);
      }
      assert ParseDateKey(ls[j]) == Some(d2) by {
        ParseFormatRoundTrip(d2);
      }
      assert 0 <= d1.year <= 9999 && 0 <= d2.year <= 9999;
      FourDigitYearsSortChronologically(d1, d2);
    }
  }

  /** The date of the first record on key `k`, or 1970-01-01 when there is none. */
  function DateOf(rs: seq<SkillRecord>, k: DateKey): (d: CivilDate)
    ensures RecordsOn(rs, k) >= 1 ==> FormatDate(d) == k
    ensures RecordsOn(rs, k) >= 1 ==> exists p :: 0 <= p < |rs| && rs[p].dateGained == Utc(d)
  {
    var i := IndexOf(Map(KeyOf, rs), Some(k));
    if i < |rs| then rs[i].dateGained.date
    else
      RecordsOnPositive(rs, k);
      Ymd(1970, 1, 1)
  }
}
