/** The climatology aggregator: one pass over a location's hourly
    observations that folds every record into the bucket of its
    (month, day, hour), the year dropped, keeping running sums of the three
    measurements and a sample count per bucket. */
module Climatology {
  import opened Calendar

  /** One hourly observation (or one synthesised profile hour): a timestamp
      and the three measurements. */
  datatype HourlyRecord = HourlyRecord(time: Timestamp, temperature: real, windSpeed: real, precipitation: real)

  /** A bucket's running sums. */
  datatype Sums = Sums(temperature: real, wind: real, precip: real)

  /** The sums a bucket starts from when its key is first seen. */
  const NoSums: Sums := Sums(0.0, 0.0, 0.0)

  function AddRecord(s: Sums, r: HourlyRecord): Sums {
    Sums(s.temperature + r.temperature, s.wind + r.windSpeed, s.precip + r.precipitation)
  }

  function Plus(a: Sums, b: Sums): Sums {
    Sums(a.temperature + b.temperature, a.wind + b.wind, a.precip + b.precip)
  }

  function BucketOf(r: HourlyRecord): Key {
    KeyOf(r.time)
  }

  /** Reference definition: the number of records of `data` that fall into
      bucket `k`. */
  function CountOf(data: seq<HourlyRecord>, k: Key): nat
    decreases |data|
  {
    if data == [] then 0
    else CountOf(data[..|data| - 1], k) + (if BucketOf(data[|data| - 1]) == k then 1 else 0)
  }

  /** Reference definition: the measurements of the records of `data` that
      fall into bucket `k`, added up in scan order. */
  function SumOf(data: seq<HourlyRecord>, k: Key): Sums
    decreases |data|
  {
    if data == [] then NoSums
    else
      var s := SumOf(data[..|data| - 1], k);
      if BucketOf(data[|data| - 1]) == k then AddRecord(s, data[|data| - 1]) else s
  }

  /** The keys some record of `data` falls into. */
  function KeysOf(data: seq<HourlyRecord>): set<Key> {
    set r | r in data :: BucketOf(r)
  }

  /** A bucket has samples exactly when some record has its key. */
  lemma {:induction false} CountPositiveIffPresent(data: seq<HourlyRecord>, k: Key)
    ensures CountOf(data, k) > 0 <==> k in KeysOf(data)
    decreases |data|
  {
    if data != [] {
      var p := data[..|data| - 1];
      assert data == p + [data[|data| - 1]];
      CountPositiveIffPresent(p, k);
      assert KeysOf(data) == KeysOf(p) + {BucketOf(data[|data| - 1])};
    }
  }

  /** A key no record has accumulates nothing. */
  lemma {:induction false} EmptyBucketHasNoSums(data: seq<HourlyRecord>, k: Key)
    requires CountOf(data, k) == 0
    ensures SumOf(data, k) == NoSums
    decreases |data|
  {
    if data != [] {
      EmptyBucketHasNoSums(data[..|data| - 1], k);
    }
  }

  lemma {:induction false} CountsPositive(data: seq<HourlyRecord>)
    ensures forall k :: k in KeysOf(data) ==> CountOf(data, k) >= 1
  {
    forall k | k in KeysOf(data)
      ensures CountOf(data, k) >= 1
    {
      CountPositiveIffPresent(data, k);
    }
  }

  /** The sample-count map the aggregation pass builds (`count_groups`). */
  function CountsMap(data: seq<HourlyRecord>): (m: map<Key, nat>)
    ensures m.Keys == KeysOf(data)
    ensures forall k :: k in m ==> m[k] >= 1
  {
    CountsPositive(data);
    map k | k in KeysOf(data) :: CountOf(data, k)
  }

  /** The running-sums map the aggregation pass builds (`hourly_groups`). */
  function SumsMap(data: seq<HourlyRecord>): (m: map<Key, Sums>)
    ensures m.Keys == KeysOf(data)
  {
    map k | k in KeysOf(data) :: SumOf(data, k)
  }

  /** The aggregation pass of both forecast handlers: `hourly_groups` and
      `count_groups` hold, for every key some record has and no other, the
      bucket's sums and its sample count. */
  method Aggregate(data: seq<HourlyRecord>) returns (sums: map<Key, Sums>, counts: map<Key, nat>)
    ensures sums == SumsMap(data) && counts == CountsMap(data)
  {
    sums, counts := map[], map[];
    for i := 0 to |data|
      invariant sums.Keys == counts.Keys
      invariant forall k :: k in counts <==> CountOf(data[..i], k) > 0
      invariant forall k :: k in counts ==> counts[k] == CountOf(data[..i], k) && sums[k] == SumOf(data[..i], k)
    {
      var entry := data[i];
      var key := BucketOf(entry);
      assert data[..i + 1][..i] == data[..i];
      if key !in sums {
        EmptyBucketHasNoSums(data[..i], key);
        sums := sums[key := NoSums];
        counts := counts[key := 0];
      }
      sums := sums[key := AddRecord(sums[key], entry)];
      counts := counts[key := counts[key] + 1];
    }
    assert data[..|data|] == data;
    forall k
      ensures k in counts <==> k in KeysOf(data)
    {
      CountPositiveIffPresent(data, k);
    }
  }

  /** Aggregating two batches of records one after the other gives the
      bucket-wise totals of the two. */
  lemma {:induction false} AggregateConcat(s: seq<HourlyRecord>, t: seq<HourlyRecord>, k: Key)
    ensures CountOf(s + t, k) == CountOf(s, k) + CountOf(t, k)
    ensures SumOf(s + t, k) == Plus(SumOf(s, k), SumOf(t, k))
    decreases |t|
  {
    if t == [] {
      assert s + t == s;
    } else {
      var q, y := t[..|t| - 1], t[|t| - 1];
      var st := s + t;
      assert st[..|st| - 1] == s + q && st[|st| - 1] == y;
      AggregateConcat(s, q, k);
      assert CountOf(st, k) == CountOf(s + q, k) + (if BucketOf(y) == k then 1 else 0);
      assert CountOf(t, k) == CountOf(q, k) + (if BucketOf(y) == k then 1 else 0);
      assert SumOf(st, k) == (if BucketOf(y) == k then AddRecord(SumOf(s + q, k), y) else SumOf(s + q, k));
      assert SumOf(t, k) == (if BucketOf(y) == k then AddRecord(SumOf(q, k), y) else SumOf(q, k));
    }
  }

  lemma {:induction false} RemoveAtMultiset(t: seq<HourlyRecord>, j: int)
    requires 0 <= j < |t|
    ensures multiset(t[..j] + t[j + 1..]) == multiset(t) - multiset{t[j]}
  {
    assert t == t[..j] + [t[j]] + t[j + 1..];
    assert multiset(t) == multiset(t[..j]) + multiset{t[j]} + multiset(t[j + 1..]);
  }

  lemma {:induction false} PlusSwap(a: Sums, b: Sums, c: Sums)
    ensures Plus(Plus(a, b), c) == Plus(Plus(a, c), b)
  {
  }

  /** Taking one record out of a batch takes exactly its contribution out of
      its bucket. */
  lemma {:induction false} RemoveOneBuckets(a: seq<HourlyRecord>, x: HourlyRecord, b: seq<HourlyRecord>, k: Key)
    ensures CountOf(a + [x] + b, k) == CountOf(a + b, k) + CountOf([x], k)
    ensures SumOf(a + [x] + b, k) == Plus(SumOf(a + b, k), SumOf([x], k))
  {
    var ax := a + [x];
    AggregateConcat(a, [x], k);
    AggregateConcat(ax, b, k);
    AggregateConcat(a, b, k);
    var sa, sx, sb := SumOf(a, k), SumOf([x], k), SumOf(b, k);
    assert SumOf(ax + b, k) == Plus(SumOf(ax, k), sb);
    assert SumOf(ax, k) == Plus(sa, sx);
    assert SumOf(a + b, k) == Plus(sa, sb);
    PlusSwap(sa, sx, sb);
  }

  /** The order in which the store returns the records does not change any
      bucket. */
  lemma {:induction false} AggregatePermutation(s: seq<HourlyRecord>, t: seq<HourlyRecord>, k: Key)
    requires multiset(s) == multiset(t)
    ensures CountOf(s, k) == CountOf(t, k)
    ensures SumOf(s, k) == SumOf(t, k)
    decreases |s|
  {
    if s == [] {
      assert |t| == |multiset(t)| == 0;
    } else {
      var x := s[|s| - 1];
      var p := s[..|s| - 1];
      assert s == p + [x];
      assert multiset(p) == multiset(s) - multiset{x};
      assert x in multiset(t);
      var j :| 0 <= j < |t| && t[j] == x;
      RemoveAtMultiset(t, j);
      AggregatePermutation(p, t[..j] + t[j + 1..], k);
      assert t == t[..j] + [x] + t[j + 1..];
      RemoveOneBuckets(t[..j], x, t[j + 1..], k);
      AggregateConcat(p, [x], k);
    }
  }

  /** Two records of the same (month, day, hour) with the same measurements,
      whatever their years. */
  predicate SameSlot(a: HourlyRecord, b: HourlyRecord) {
    && BucketOf(a) == BucketOf(b)
    && a.temperature == b.temperature
    && a.windSpeed == b.windSpeed
    && a.precipitation == b.precipitation
  }

  /** Records that differ only in their years fill the same buckets: the year
      is dropped from the key. */
  lemma {:induction false} AggregateIgnoresYear(s: seq<HourlyRecord>, t: seq<HourlyRecord>, k: Key)
    requires |s| == |t|
    requires forall j :: 0 <= j < |s| ==> SameSlot(s[j], t[j])
    ensures CountOf(s, k) == CountOf(t, k)
    ensures SumOf(s, k) == SumOf(t, k)
    decreases |s|
  {
    if s != [] {
      AggregateIgnoresYear(s[..|s| - 1], t[..|t| - 1], k);
    }
  }
}
