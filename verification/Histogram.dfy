/**
 The logarithmic histogram of pkg/metrics/vm/vm_histogram.go: 27 decades of 18
 buckets, each decade allocated on its first hit. Floating point is idealised
 to real numbers; bucket bounds are compared exactly through 18th powers, since
 (log10 v + 9) * 18 >= n says v^18 >= 10^(n - 162).
 */
module Histogram {

  const BUCKETS_PER_DECIMAL: nat := 18
  const DECIMAL_BUCKETS_COUNT: nat := 27
  const BUCKETS_COUNT: nat := 486

  /** An argument of Update. */
  datatype Value = NaN | Num(v: real)

  datatype Bucket = Lower | In(index: nat) | Upper

  // ---------------------------------------------------------------- bucket choice

  function Pow(x: real, n: nat): real {
    if n == 0 then 1.0 else x * Pow(x, n - 1)
  }

  function Pow10(k: int): real
    decreases if k < 0 then -k else k
  {
    if k == 0 then 1.0 else if k > 0 then 10.0 * Pow10(k - 1) else Pow10(k + 1) / 10.0
  }

  lemma {:induction false} Pow10Next(k: int)
    ensures 0.0 < Pow10(k) && Pow10(k + 1) == 10.0 * Pow10(k)
    decreases if k < 0 then -k else k
  {
    if k < 0 {
      Pow10Next(k + 1);
    } else if k > 0 {
      Pow10Next(k - 1);
    }
  }

  lemma {:induction false} Pow10Less(j: int, k: int)
    requires j < k
    ensures 0.0 < Pow10(j) < Pow10(k)
    decreases k - j
  {
    Pow10Next(j);
    if j + 1 < k {
      Pow10Less(j + 1, k);
    }
  }

  lemma {:induction false} PowMono(x: real, y: real, n: nat)
    requires 0.0 <= x < y
    ensures 0.0 <= Pow(x, n) <= Pow(y, n)
    ensures n > 0 ==> Pow(x, n) < Pow(y, n)
  {
    if n > 0 {
      PowMono(x, y, n - 1);
      PowPositive(y, n - 1);
      var p, q := Pow(x, n - 1), Pow(y, n - 1);
      MulMono(x, y, p, q);
    }
  }

  lemma {:induction false} PowPositive(x: real, n: nat)
    requires 0.0 < x
    ensures 0.0 < Pow(x, n)
  {
    if n > 0 {
      PowPositive(x, n - 1);
    }
  }

  lemma MulMono(x: real, y: real, p: real, q: real)
    requires 0.0 <= x < y && 0.0 <= p <= q && 0.0 < q
    ensures 0.0 <= x * p < y * q
  {
    assert x * p <= x * q;
    assert x * q < y * q;
  }

  /** The 18th power of the lower bound of bucket n. */
  function Bound(n: int): real {
    Pow10(n - 162)
  }

  /** uint(bucketIdx): the last bound at or below w. */
  function FloorIndex(w: real, n: nat): (i: nat)
    requires Bound(0) <= w
    ensures i <= n && Bound(i) <= w && (i < n ==> w < Bound(i + 1))
  {
    if n == 0 || Bound(n) <= w then n else FloorIndex(w, n - 1)
  }

  /** The branches of Update on bucketIdx. */
  function BucketOf(v: real): Bucket
    requires v >= 0.0
  {
    var w := Pow(v, 18);
    if w < Bound(0) then Lower
    else if w >= Bound(BUCKETS_COUNT) then Upper
    else
      var idx := FloorIndex(w, BUCKETS_COUNT - 1);
      if w == Bound(idx) && idx > 0 then In(idx - 1) else In(idx)
  }

  /** The range of a bucket, start excluded and end included; 10^-9 is let into bucket 0. */
  ghost predicate InRange(w: real, i: int) {
    Bound(i) < w <= Bound(i + 1) || (i == 0 && w == Bound(0))
  }

  lemma RangeUnique(w: real, i: int, j: int)
    requires 0 <= i && 0 <= j && InRange(w, i) && InRange(w, j)
    ensures i == j
  {
    if i < j {
      Pow10Less(-162, j - 162);
      if i + 1 < j {
        Pow10Less(i + 1 - 162, j - 162);
      }
    } else if j < i {
      Pow10Less(-162, i - 162);
      if j + 1 < i {
        Pow10Less(j + 1 - 162, i - 162);
      }
    }
  }

  lemma ChosenRange(v: real)
    requires v >= 0.0 && BucketOf(v).In?
    ensures BucketOf(v).index < BUCKETS_COUNT && InRange(Pow(v, 18), BucketOf(v).index)
  {
    var w := Pow(v, 18);
    var idx: int := FloorIndex(w, BUCKETS_COUNT - 1);
    Pow10Next(idx - 162);
    Pow10Next(idx - 163);
  }

  /**
   Bucket choice is exact: v goes to bucket i when it lies in the half-open
   range (start, end] of that bucket, except that 10^-9 itself goes to bucket 0
   and 10^18 itself to the upper bucket.
   */
  lemma BucketExact(v: real, i: nat)
    requires v >= 0.0
    ensures var w := Pow(v, 18);
      && (BucketOf(v) == Lower <==> w < Bound(0))
      && (BucketOf(v) == Upper <==> w >= Bound(BUCKETS_COUNT))
      && (BucketOf(v) == In(i) <==> i < BUCKETS_COUNT && w < Bound(BUCKETS_COUNT) && InRange(w, i))
  {
    var w := Pow(v, 18);
    Pow10Less(-162, BUCKETS_COUNT - 162);
    if BucketOf(v).In? {
      ChosenRange(v);
      if InRange(w, i) {
        RangeUnique(w, i, BucketOf(v).index);
      }
    } else if i > 0 {
      Pow10Less(-162, i - 162);
    }
  }

  // ---------------------------------------------------------------- the bounds in numbers

  lemma {:induction false} Pow10Add(j: int, k: nat)
    ensures Pow10(j + k) == Pow10(j) * Pow10(k)
  {
    if k > 0 {
      Pow10Add(j, k - 1);
      Pow10Next(j + k - 1);
      Pow10Next(k - 1);
      Distribute(Pow10(j), Pow10(k - 1));
    }
  }

  lemma Distribute(a: real, b: real)
    ensures 10.0 * (a * b) == a * (10.0 * b)
  {
  }

  lemma {:induction false} Pow10AddAny(j: int, k: int)
    ensures Pow10(j + k) == Pow10(j) * Pow10(k)
    decreases if k < 0 then -k else 0
  {
    if k >= 0 {
      Pow10Add(j, k);
    } else {
      Pow10AddAny(j, k + 1);
      Pow10Next(j + k);
      Pow10Next(k);
      Distribute(Pow10(j), Pow10(k));
    }
  }

  lemma {:induction false} PowOfTen(k: int, n: nat)
    ensures Pow(Pow10(k), n) == Pow10(n * k)
  {
    if n > 0 {
      var m := (n - 1) * k;
      OneMoreTime(k, n);
      PowOfTen(k, n - 1);
      Pow10AddAny(k, m);
    }
  }

  lemma OneMoreTime(k: int, n: nat)
    requires n > 0
    ensures n * k == k + (n - 1) * k
  {
  }

  /** Comparing the 18th powers is comparing the numbers. */
  lemma ComparePow(u: real, v: real)
    requires 0.0 <= u && 0.0 <= v
    ensures u < v <==> Pow(u, 18) < Pow(v, 18)
  {
    if u < v {
      PowMono(u, v, 18);
    } else if v < u {
      PowMono(v, u, 18);
    }
  }

  /** Powers of ten as decimal numbers. */
  lemma TenToThe()
    ensures Pow10(9) == 1_000_000_000.0 && Pow10(18) == 1_000_000_000_000_000_000.0
    ensures Pow10(-9) * 1_000_000_000.0 == 1.0 && Pow10(0) == 1.0
  {
    assert Pow10(1) == 10.0 * Pow10(0);
    assert Pow10(3) == 1000.0 by {
      Pow10Add(1, 1);
      Pow10Add(2, 1);
    }
    Pow10Add(3, 3);
    Pow10Add(6, 3);
    Pow10Add(9, 9);
    Pow10Add(-9, 9);
  }

  /**
   The bounds in numbers: below 10^-9 and from 10^18 on a value goes to the two
   outer buckets; in between it goes to bucket i exactly if its 18th power lies in
   (10^(i - 162), 10^(i - 161)], so that the ranges of neighbours differ by a
   factor of 10 there; 10^-9 itself goes to bucket 0.
   */
  lemma BucketBounds(v: real, i: nat)
    requires v >= 0.0
    ensures BucketOf(v) == Lower <==> v < Pow10(-9)
    ensures BucketOf(v) == Upper <==> v >= Pow10(18)
    ensures BucketOf(v) == In(i) <==>
      i < 486 && ((i == 0 && v == Pow10(-9)) || (v < Pow10(18) && Pow10(i - 162) < Pow(v, 18) <= Pow10(i - 161)))
  {
    BucketExact(v, i);
    OuterBounds(v);
    LowestValue(v);
    Pow10Less(-9, 18);
    assert InRange(Pow(v, 18), i) <==> (Pow10(i - 162) < Pow(v, 18) <= Pow10(i - 161) || (i == 0 && v == Pow10(-9)));
  }

  lemma LowestValue(v: real)
    requires v >= 0.0
    ensures Pow(v, 18) == Bound(0) <==> v == Pow10(-9)
  {
    PowOfTen(-9, 18);
    Pow10Next(-9);
    ComparePow(v, Pow10(-9));
    ComparePow(Pow10(-9), v);
  }

  lemma OuterBounds(v: real)
    requires v >= 0.0
    ensures Pow(v, 18) < Bound(0) <==> v < Pow10(-9)
    ensures Pow(v, 18) < Bound(BUCKETS_COUNT) <==> v < Pow10(18)
  {
    PowOfTen(-9, 18);
    PowOfTen(18, 18);
    Pow10Next(-9);
    Pow10Less(-9, 18);
    ComparePow(v, Pow10(-9));
    ComparePow(v, Pow10(18));
  }

  /** Each power of ten is the upper end of a bucket, 18 buckets apart, but for the first and the last. */
  lemma TenBuckets(k: int)
    requires -9 <= k <= 18
    ensures Pow10(k) > 0.0
    ensures BucketOf(Pow10(k)) ==
      if k == -9 then In(0) else if k == 18 then Upper else In((k + 9) * 18 - 1)
  {
    Pow10Next(k);
    if k == -9 || k == 18 {
      BucketBounds(Pow10(k), 0);
      Pow10Less(-9, 18);
    } else {
      InnerTen(k);
    }
  }

  lemma InnerTen(k: int)
    requires -9 < k < 18
    ensures Pow10(k) >= 0.0 && BucketOf(Pow10(k)) == In((k + 9) * 18 - 1)
  {
    var i: int := (k + 9) * 18 - 1;
    Pow10Next(k);
    Pow10Less(k, 18);
    PowOfTen(k, 18);
    Pow10Less(i - 162, i - 161);
    BucketBounds(Pow10(k), i);
  }

  /** In decimal numbers: the two boundary cases, and where 1 goes. */
  lemma DecimalBuckets(v: real)
    requires v * 1_000_000_000.0 == 1.0
    ensures BucketOf(v) == In(0)
    ensures BucketOf(1_000_000_000_000_000_000.0) == Upper
    ensures BucketOf(1.0) == In(161) && BucketOf(1_000_000_000.0) == In(323)
  {
    TenToThe();
    TenBuckets(-9);
    TenBuckets(0);
    TenBuckets(9);
    TenBuckets(18);
    assert v == Pow10(-9);
  }

  function Rank(b: Bucket): int {
    match b case Lower => -1 case In(i) => i case Upper => BUCKETS_COUNT
  }

  /** Larger values never go to an earlier bucket, and every index is in range. */
  lemma BucketMonotone(u: real, v: real)
    requires 0.0 <= u <= v
    ensures -1 <= Rank(BucketOf(u)) <= Rank(BucketOf(v)) <= BUCKETS_COUNT
    ensures BucketOf(u).In? ==> BucketOf(u).index < BUCKETS_COUNT
  {
    if u < v {
      PowMono(u, v, 18);
    }
    if BucketOf(u).In? {
      ChosenRange(u);
    }
    if BucketOf(v).In? {
      ChosenRange(v);
    }
    if BucketOf(u).In? && BucketOf(v).In? {
      var i: int, j: int := BucketOf(u).index, BucketOf(v).index;
      if j < i {
        Pow10Less(-162, i - 162);
        if j + 1 < i {
          Pow10Less(j + 1 - 162, i - 162);
        }
      }
    }
  }

  // ---------------------------------------------------------------- the flat histogram

  datatype Flat = Flat(lower: nat, counts: seq<nat>, upper: nat, sum: real)

  function Empty(): Flat {
    Flat(0, seq(BUCKETS_COUNT, _ => 0), 0, 0.0)
  }

  predicate Accepted(x: Value) {
    x.Num? && x.v >= 0.0
  }

  predicate Shaped(f: Flat) {
    |f.counts| == BUCKETS_COUNT
  }

  function Updated(f: Flat, x: Value): (r: Flat)
    requires Shaped(f)
    ensures Shaped(r)
  {
    if !Accepted(x) then f
    else
      var b := BucketOf(x.v);
      BucketMonotone(x.v, x.v);
      Flat(if b.Lower? then f.lower + 1 else f.lower,
           if b.In? then f.counts[b.index := f.counts[b.index] + 1] else f.counts,
           if b.Upper? then f.upper + 1 else f.upper,
           f.sum + x.v)
  }

  function Merged(f: Flat, g: Flat): (r: Flat)
    requires Shaped(f) && Shaped(g)
    ensures Shaped(r)
  {
    Flat(f.lower + g.lower,
         seq(BUCKETS_COUNT, i requires 0 <= i < BUCKETS_COUNT => f.counts[i] + g.counts[i]),
         f.upper + g.upper,
         f.sum + g.sum)
  }

  /** The flat histogram of a list of updates. */
  function Observed(xs: seq<Value>): (r: Flat)
    ensures Shaped(r)
  {
    if xs == [] then Empty() else Updated(Observed(xs[..|xs| - 1]), xs[|xs| - 1])
  }

  /** How many of the updates fell into the bucket. */
  function Hits(xs: seq<Value>, b: Bucket): nat {
    if xs == [] then 0
    else
      var x := xs[|xs| - 1];
      Hits(xs[..|xs| - 1], b) + (if Accepted(x) && BucketOf(x.v) == b then 1 else 0)
  }

  function AcceptedSum(xs: seq<Value>): real {
    if xs == [] then 0.0
    else AcceptedSum(xs[..|xs| - 1]) + (if Accepted(xs[|xs| - 1]) then xs[|xs| - 1].v else 0.0)
  }

  /** Every counter is the number of updates in its bucket, and the sum is exact. */
  lemma {:induction false} ObservedCounts(xs: seq<Value>)
    ensures var f := Observed(xs);
      && f.lower == Hits(xs, Lower) && f.upper == Hits(xs, Upper) && f.sum == AcceptedSum(xs)
      && forall i :: 0 <= i < BUCKETS_COUNT ==> f.counts[i] == Hits(xs, In(i))
  {
    if xs != [] {
      ObservedCounts(xs[..|xs| - 1]);
      var x := xs[|xs| - 1];
      if Accepted(x) {
        BucketMonotone(x.v, x.v);
      }
    }
  }

  /** One value: NaN and negative values leave no trace, any other one counts once in its bucket and in the sum. */
  lemma ObservedOne(x: Value, b: Bucket)
    ensures var f := Observed([x]);
      if x.NaN? || x.v < 0.0 then f == Empty()
      else f.sum == x.v && Hits([x], b) == (if b == BucketOf(x.v) then 1 else 0) && AcceptedCount([x]) == 1
  {
    assert [x][..0] == [];
  }

  lemma MergedEmpty(f: Flat)
    requires Shaped(f)
    ensures Merged(f, Empty()) == f
  {
    assert Merged(f, Empty()).counts == f.counts;
  }

  lemma MergedUpdated(f: Flat, g: Flat, x: Value)
    requires Shaped(f) && Shaped(g)
    ensures Merged(f, Updated(g, x)) == Updated(Merged(f, g), x)
  {
    assert Merged(f, Updated(g, x)).counts == Updated(Merged(f, g), x).counts;
  }

  lemma MergedCommutes(f: Flat, g: Flat)
    requires Shaped(f) && Shaped(g)
    ensures Merged(f, g) == Merged(g, f)
  {
    assert Merged(f, g).counts == Merged(g, f).counts;
  }

  /** Merging two histograms is observing the updates of both. */
  lemma {:induction false} MergeObserves(xs: seq<Value>, ys: seq<Value>)
    ensures Merged(Observed(xs), Observed(ys)) == Observed(xs + ys)
  {
    if ys == [] {
      assert xs + ys == xs;
      MergedEmpty(Observed(xs));
    } else {
      var zs, init := xs + ys, ys[..|ys| - 1];
      assert zs[..|zs| - 1] == xs + init;
      MergeObserves(xs, init);
      MergedUpdated(Observed(xs), Observed(init), ys[|ys| - 1]);
    }
  }

  lemma Removed(a: seq<Value>, x: Value, b: seq<Value>)
    ensures multiset(a + ([x] + b)) - multiset{x} == multiset(a + b)
  {
    assert multiset(a + ([x] + b)) == multiset(a) + multiset{x} + multiset(b);
    assert multiset(a + b) == multiset(a) + multiset(b);
  }

  lemma SameRest(init: seq<Value>, x: Value, a: seq<Value>, b: seq<Value>)
    requires multiset(init + [x]) == multiset(a + ([x] + b))
    ensures multiset(init) == multiset(a + b)
  {
    Removed(init, x, []);
    assert init + ([x] + []) == init + [x] && init + [] == init;
    Removed(a, x, b);
  }

  /** The histogram does not depend on the order of the updates. */
  lemma {:induction false} OrderFree(xs: seq<Value>, ys: seq<Value>)
    requires multiset(xs) == multiset(ys)
    ensures Observed(xs) == Observed(ys)
  {
    if xs == [] {
      assert |multiset(ys)| == 0;
    } else {
      var n := |xs| - 1;
      assert xs[n] in multiset(xs) && xs[n] in multiset(ys);
      var k :| 0 <= k < |ys| && ys[k] == xs[n];
      var a, b := ys[..k], ys[k + 1..];
      assert ys == a + ([xs[n]] + b) && xs == xs[..n] + [xs[n]];
      SameRest(xs[..n], xs[n], a, b);
      OrderFree(xs[..n], a + b);
      SwapObserves(a, xs[n], b);
    }
  }

  lemma SwapObserves(a: seq<Value>, x: Value, b: seq<Value>)
    ensures Observed(a + ([x] + b)) == Updated(Observed(a + b), x)
  {
    MergeObserves(a, [x] + b);
    MergeObserves([x], b);
    MergedCommutes(Observed([x]), Observed(b));
    MergeObserves(b, [x]);
    MergeObserves(a, b + [x]);
    assert a + (b + [x]) == (a + b) + [x];
    assert ((a + b) + [x])[..|a + b|] == a + b;
  }

  // ---------------------------------------------------------------- visiting

  /** The non-zero counters from index i on. */
  function NonZero(counts: seq<nat>, i: nat): seq<(Bucket, nat)>
    requires i <= |counts|
    decreases |counts| - i
  {
    if i == |counts| then []
    else (if counts[i] > 0 then [(In(i), counts[i])] else []) + NonZero(counts, i + 1)
  }

  function Visited(f: Flat): seq<(Bucket, nat)> {
    (if f.lower > 0 then [(Lower, f.lower)] else []) + NonZero(f.counts, 0) +
    (if f.upper > 0 then [(Upper, f.upper)] else [])
  }

  function Total(rows: seq<(Bucket, nat)>): nat {
    if rows == [] then 0 else Total(rows[..|rows| - 1]) + rows[|rows| - 1].1
  }

  function CountOf(f: Flat, b: Bucket): nat
    requires Shaped(f)
  {
    match b case Lower => f.lower case Upper => f.upper case In(i) => if i < BUCKETS_COUNT then f.counts[i] else 0
  }

  ghost predicate RowsFrom(rows: seq<(Bucket, nat)>, counts: seq<nat>, i: nat) {
    && (forall k :: 0 <= k < |rows| ==> RowOk(rows[k], counts, i))
    && (forall k, l :: 0 <= k < l < |rows| ==> Rank(rows[k].0) < Rank(rows[l].0))
    && (forall j :: i <= j < |counts| && counts[j] > 0 ==> (In(j), counts[j]) in rows)
  }

  predicate RowOk(row: (Bucket, nat), counts: seq<nat>, i: nat) {
    row.0.In? && i <= row.0.index < |counts| && row.1 == counts[row.0.index] > 0
  }

  lemma {:induction false} NonZeroRows(counts: seq<nat>, i: nat)
    requires i <= |counts|
    ensures RowsFrom(NonZero(counts, i), counts, i)
    decreases |counts| - i
  {
    if i < |counts| {
      NonZeroRows(counts, i + 1);
      var rest := NonZero(counts, i + 1);
      if counts[i] > 0 {
        RowsCons(rest, counts, i);
      } else {
        RowsSkip(rest, counts, i);
        assert [] + rest == rest;
      }
    }
  }

  lemma RowsSkip(rest: seq<(Bucket, nat)>, counts: seq<nat>, i: nat)
    requires i < |counts| && counts[i] == 0 && RowsFrom(rest, counts, i + 1)
    ensures RowsFrom(rest, counts, i)
  {
    forall k | 0 <= k < |rest|
      ensures RowOk(rest[k], counts, i)
    {
      assert RowOk(rest[k], counts, i + 1);
    }
  }

  lemma RowsCons(rest: seq<(Bucket, nat)>, counts: seq<nat>, i: nat)
    requires i < |counts| && counts[i] > 0 && RowsFrom(rest, counts, i + 1)
    ensures RowsFrom([(In(i), counts[i])] + rest, counts, i)
  {
    var rows := [(In(i), counts[i])] + rest;
    forall k | 0 <= k < |rows|
      ensures RowOk(rows[k], counts, i)
    {
      if k > 0 {
        assert rows[k] == rest[k - 1] && RowOk(rest[k - 1], counts, i + 1);
      }
    }
    forall k, l | 0 <= k < l < |rows|
      ensures Rank(rows[k].0) < Rank(rows[l].0)
    {
      assert rows[l] == rest[l - 1] && RowOk(rest[l - 1], counts, i + 1);
      if k > 0 {
        assert rows[k] == rest[k - 1];
      }
    }
    forall j | i <= j < |counts| && counts[j] > 0
      ensures (In(j), counts[j]) in rows
    {
      if j == i {
        assert rows[0] in rows;
      } else {
        assert (In(j), counts[j]) in rest;
      }
    }
  }

  /** Every non-empty bucket is visited once, with its counter, in increasing order of its range. */
  lemma VisitedRows(f: Flat)
    requires Shaped(f)
    ensures var rows := Visited(f);
      && (forall k :: 0 <= k < |rows| ==> rows[k].1 == CountOf(f, rows[k].0) > 0)
      && (forall k, l :: 0 <= k < l < |rows| ==> Rank(rows[k].0) < Rank(rows[l].0))
      && (forall b :: CountOf(f, b) > 0 ==> (b, CountOf(f, b)) in rows)
  {
    NonZeroRows(f.counts, 0);
    VisitedCounts(f);
    VisitedRise(f);
    forall b | CountOf(f, b) > 0
      ensures (b, CountOf(f, b)) in Visited(f)
    {
      VisitedHas(f, b);
    }
  }

  lemma VisitedCounts(f: Flat)
    requires Shaped(f) && RowsFrom(NonZero(f.counts, 0), f.counts, 0)
    ensures forall k :: 0 <= k < |Visited(f)| ==> Visited(f)[k].1 == CountOf(f, Visited(f)[k].0) > 0
  {
    var rows, mid := Visited(f), NonZero(f.counts, 0);
    forall k | 0 <= k < |rows|
      ensures rows[k].1 == CountOf(f, rows[k].0) > 0
    {
      var m := if f.lower > 0 then k - 1 else k;
      if 0 <= m < |mid| {
        assert rows[k] == mid[m] && RowOk(mid[m], f.counts, 0);
      }
    }
  }

  lemma VisitedRise(f: Flat)
    requires Shaped(f) && RowsFrom(NonZero(f.counts, 0), f.counts, 0)
    ensures forall k, l :: 0 <= k < l < |Visited(f)| ==> Rank(Visited(f)[k].0) < Rank(Visited(f)[l].0)
  {
    var mid := NonZero(f.counts, 0);
    forall k | 0 <= k < |mid|
      ensures 0 <= Rank(mid[k].0) < BUCKETS_COUNT
    {
      assert RowOk(mid[k], f.counts, 0);
    }
    RowsAround(if f.lower > 0 then [(Lower, f.lower)] else [], mid, if f.upper > 0 then [(Upper, f.upper)] else []);
  }

  lemma VisitedHas(f: Flat, b: Bucket)
    requires Shaped(f) && RowsFrom(NonZero(f.counts, 0), f.counts, 0) && CountOf(f, b) > 0
    ensures (b, CountOf(f, b)) in Visited(f)
  {
    var low := if f.lower > 0 then [(Lower, f.lower)] else [];
    var high := if f.upper > 0 then [(Upper, f.upper)] else [];
    var row := (b, CountOf(f, b));
    assert b.Lower? ==> low[0] == row;
    assert b.Upper? ==> high[0] == row;
    assert row in low || row in NonZero(f.counts, 0) || row in high;
  }

  /** Rows of rising rank with one below and one above stay so. */
  lemma RowsAround(low: seq<(Bucket, nat)>, mid: seq<(Bucket, nat)>, high: seq<(Bucket, nat)>)
    requires |low| <= 1 && |high| <= 1
    requires (|low| == 1 ==> low[0].0.Lower?) && (|high| == 1 ==> high[0].0.Upper?)
    requires forall k :: 0 <= k < |mid| ==> 0 <= Rank(mid[k].0) < BUCKETS_COUNT
    requires forall k, l :: 0 <= k < l < |mid| ==> Rank(mid[k].0) < Rank(mid[l].0)
    ensures var rows := low + mid + high;
      forall k, l :: 0 <= k < l < |rows| ==> Rank(rows[k].0) < Rank(rows[l].0)
  {
    var rows, n := low + mid + high, |low|;
    assert forall k :: 0 <= k < n ==> rows[k] == low[k];
    assert forall k :: n <= k < n + |mid| ==> rows[k] == mid[k - n];
    assert forall k :: n + |mid| <= k < |rows| ==> rows[k] == high[k - n - |mid|];
  }

  lemma {:induction false} TotalAppend(a: seq<(Bucket, nat)>, b: seq<(Bucket, nat)>)
    ensures Total(a + b) == Total(a) + Total(b)
  {
    if b == [] {
      assert a + b == a;
    } else {
      var ab := a + b;
      assert ab[..|ab| - 1] == a + b[..|b| - 1];
      TotalAppend(a, b[..|b| - 1]);
    }
  }

  lemma TotalOne(b: Bucket, n: nat)
    ensures Total([(b, n)]) == n
  {
    assert [(b, n)][..0] == [];
  }

  /** Raising one counter raises the total by one. */
  lemma {:induction false} NonZeroRaised(counts: seq<nat>, i: nat, at: nat)
    requires i <= |counts| && at < |counts|
    ensures Total(NonZero(counts[at := counts[at] + 1], i)) == Total(NonZero(counts, i)) + (if i <= at then 1 else 0)
    decreases |counts| - i
  {
    if i < |counts| {
      var raised := counts[at := counts[at] + 1];
      NonZeroRaised(counts, i + 1, at);
      TotalAppend(if counts[i] > 0 then [(In(i), counts[i])] else [], NonZero(counts, i + 1));
      TotalAppend(if raised[i] > 0 then [(In(i), raised[i])] else [], NonZero(raised, i + 1));
      TotalOne(In(i), counts[i]);
      TotalOne(In(i), raised[i]);
    }
  }

  lemma VisitedTotal(f: Flat)
    ensures Total(Visited(f)) == f.lower + Total(NonZero(f.counts, 0)) + f.upper
  {
    var low := if f.lower > 0 then [(Lower, f.lower)] else [];
    var high := if f.upper > 0 then [(Upper, f.upper)] else [];
    TotalAppend(low + NonZero(f.counts, 0), high);
    TotalAppend(low, NonZero(f.counts, 0));
    TotalOne(Lower, f.lower);
    TotalOne(Upper, f.upper);
  }

  function AcceptedCount(xs: seq<Value>): nat {
    if xs == [] then 0 else AcceptedCount(xs[..|xs| - 1]) + (if Accepted(xs[|xs| - 1]) then 1 else 0)
  }

  lemma {:induction false} NonZeroEmpty(i: nat)
    requires i <= BUCKETS_COUNT
    ensures NonZero(Empty().counts, i) == []
    decreases BUCKETS_COUNT - i
  {
    if i < BUCKETS_COUNT {
      NonZeroEmpty(i + 1);
    }
  }

  lemma TotalStep(f: Flat, x: Value)
    requires Shaped(f)
    ensures Total(Visited(Updated(f, x))) == Total(Visited(f)) + (if Accepted(x) then 1 else 0)
  {
    VisitedTotal(f);
    VisitedTotal(Updated(f, x));
    if Accepted(x) {
      BucketMonotone(x.v, x.v);
      if BucketOf(x.v).In? {
        NonZeroRaised(f.counts, 0, BucketOf(x.v).index);
      }
    }
  }

  /** The visited counters add up to the number of accepted updates. */
  lemma {:induction false} TotalIsAccepted(xs: seq<Value>)
    ensures Total(Visited(Observed(xs))) == AcceptedCount(xs)
  {
    if xs == [] {
      VisitedTotal(Empty());
      NonZeroEmpty(0);
    } else {
      TotalIsAccepted(xs[..|xs| - 1]);
      TotalStep(Observed(xs[..|xs| - 1]), xs[|xs| - 1]);
    }
  }

  lemma {:induction false} HitsInRange(xs: seq<Value>, b: Bucket)
    requires Hits(xs, b) > 0
    ensures b.In? ==> b.index < BUCKETS_COUNT
  {
    var n := |xs| - 1;
    if Accepted(xs[n]) && BucketOf(xs[n].v) == b {
      BucketMonotone(xs[n].v, xs[n].v);
    } else {
      HitsInRange(xs[..n], b);
    }
  }

  /** The visited rows are the buckets that were hit, with the number of hits. */
  lemma RowsAreHits(xs: seq<Value>)
    ensures forall b, n: nat :: (b, n) in Visited(Observed(xs)) <==> n == Hits(xs, b) > 0
  {
    var f := Observed(xs);
    var rows := Visited(f);
    ObservedCounts(xs);
    VisitedRows(f);
    forall b, n: nat
      ensures (b, n) in rows <==> n == Hits(xs, b) > 0
    {
      if Hits(xs, b) > 0 {
        HitsInRange(xs, b);
        assert CountOf(f, b) == Hits(xs, b);
      }
      if (b, n) in rows {
        var k :| 0 <= k < |rows| && rows[k] == (b, n);
        assert CountOf(f, b) == n > 0;
      }
    }
  }

  // ---------------------------------------------------------------- the lazy two-level object

  /**
   decimalBuckets is the pointer array inside the struct; the blocks it points to
   are objects of their own. seen lists the updates since the last Reset.
   */
  class VmHistogram {
    var decimalBuckets: seq<array?<nat>>
    var lower: nat
    var upper: nat
    var sum: real
    ghost var seen: seq<Value>

    ghost function Blocks(): set<array<nat>>
      reads this
    {
      set b: array<nat> | b in decimalBuckets
    }

    /** 27 slots, full-sized blocks, no block in two slots. */
    ghost predicate Shape()
      reads this
    {
      && |decimalBuckets| == DECIMAL_BUCKETS_COUNT
      && (forall d :: 0 <= d < DECIMAL_BUCKETS_COUNT && decimalBuckets[d] != null ==>
            decimalBuckets[d].Length == BUCKETS_PER_DECIMAL)
      && (forall d, e :: 0 <= d < e < DECIMAL_BUCKETS_COUNT && decimalBuckets[d] != null ==>
            decimalBuckets[d] != decimalBuckets[e])
    }

    /** The counter of a flat bucket; a missing block counts nothing. */
    ghost function Counter(i: nat): nat
      requires Shape() && i < BUCKETS_COUNT
      reads this, Blocks()
    {
      var block := decimalBuckets[i / BUCKETS_PER_DECIMAL];
      if block == null then 0 else assert block in Blocks(); block[i % BUCKETS_PER_DECIMAL]
    }

    ghost function View(): (f: Flat)
      requires Shape()
      reads this, Blocks()
      ensures |f.counts| == BUCKETS_COUNT
    {
      Flat(lower,
           seq(BUCKETS_COUNT, i requires 0 <= i < BUCKETS_COUNT && Shape() reads this, Blocks() => Counter(i)),
           upper, sum)
    }

    /** The object refines the flat histogram of everything it has seen. */
    ghost predicate Valid()
      reads this, Blocks()
    {
      Shape() && View() == Observed(seen)
    }

    constructor ()
      ensures Valid() && seen == [] && Blocks() == {}
    {
      decimalBuckets := seq(DECIMAL_BUCKETS_COUNT, _ => null);
      lower, upper, sum, seen := 0, 0, 0.0, [];
      new;
      assert View().counts == Empty().counts;
    }

    /** One more hit in a flat bucket, its decade allocated if need be. */
    method Hit(idx: nat)
      requires Shape() && idx < BUCKETS_COUNT
      modifies this`decimalBuckets, Blocks()
      ensures Shape() && fresh(Blocks() - old(Blocks()))
      ensures View() == old(View()).(counts := old(View()).counts[idx := old(View()).counts[idx] + 1])
    {
      var decimalBucketIdx := idx / BUCKETS_PER_DECIMAL;
      var offset := idx % BUCKETS_PER_DECIMAL;
      ghost var was := View().counts;
      var db := decimalBuckets[decimalBucketIdx];
      if db == null {
        db := new nat[BUCKETS_PER_DECIMAL](_ => 0);
        decimalBuckets := decimalBuckets[decimalBucketIdx := db];
      }
      assert decimalBuckets[decimalBucketIdx] == db && db in Blocks();
      db[offset] := db[offset] + 1;
      assert forall i :: 0 <= i < BUCKETS_COUNT ==> Counter(i) == was[i] + (if i == idx then 1 else 0);
      assert View().counts == was[idx := was[idx] + 1];
    }

    method Update(x: Value)
      requires Valid()
      modifies this, Blocks()
      ensures Valid() && seen == old(seen) + [x]
      ensures fresh(Blocks() - old(Blocks()))
    {
      assert (seen + [x])[..|seen|] == seen;
      if x.NaN? || x.v < 0.0 {
        See(x);
        return;
      }
      ghost var f := View();
      Count(x.v);
      assert View() == Updated(f, x);
      See(x);
    }

    /** The branches on the bucket of an accepted value. */
    method Count(v: real)
      requires Shape() && v >= 0.0
      modifies this`decimalBuckets, this`lower, this`upper, this`sum, Blocks()
      ensures Shape() && View() == Updated(old(View()), Num(v))
      ensures fresh(Blocks() - old(Blocks()))
    {
      ghost var b := BucketOf(v);
      BucketMonotone(v, v);
      var w := Pow(v, 18);
      if w < Bound(0) {
        assert b == Lower;
        AddTo(1, 0, v);
      } else if w >= Bound(BUCKETS_COUNT) {
        assert b == Upper;
        AddTo(0, 1, v);
      } else {
        var idx := FloorIndex(w, BUCKETS_COUNT - 1);
        if w == Bound(idx) && idx > 0 {
          idx := idx - 1;
        }
        assert b == In(idx);
        AddTo(0, 0, v);
        Hit(idx);
      }
    }

    method AddTo(low: nat, high: nat, v: real)
      requires Shape()
      modifies this`lower, this`upper, this`sum
      ensures Shape() && Blocks() == old(Blocks())
      ensures View() == old(View()).(lower := old(lower) + low, upper := old(upper) + high, sum := old(sum) + v)
    {
      ghost var f := View();
      lower, upper, sum := lower + low, upper + high, sum + v;
      assert View().counts == f.counts;
    }

    ghost method See(x: Value)
      requires Shape() && View() == Updated(Observed(seen), x)
      modifies this`seen
      ensures Valid() && seen == old(seen) + [x] && View() == old(View())
    {
      assert (seen + [x])[..|seen|] == seen;
      ghost var f := View();
      seen := seen + [x];
      assert View().counts == f.counts;
    }

    method Reset()
      requires Valid()
      modifies this, Blocks()
      ensures Valid() && seen == [] && Blocks() == old(Blocks())
    {
      for d := 0 to DECIMAL_BUCKETS_COUNT
        invariant Shape() && decimalBuckets == old(decimalBuckets)
        invariant forall i: nat :: i < d * BUCKETS_PER_DECIMAL ==> Counter(i) == 0
      {
        if decimalBuckets[d] == null {
          continue;
        }
        ClearBlock(d);
      }
      ZeroTotals();
    }

    method ZeroTotals()
      requires Shape() && forall i: nat :: i < BUCKETS_COUNT ==> Counter(i) == 0
      modifies this`lower, this`upper, this`sum, this`seen
      ensures Valid() && seen == [] && Blocks() == old(Blocks())
    {
      ghost var counts := View().counts;
      assert counts == Empty().counts by {
        assert forall i: nat :: i < BUCKETS_COUNT ==> counts[i] == Counter(i);
      }
      lower, upper, sum, seen := 0, 0, 0.0, [];
      assert View().counts == counts;
    }

    method ClearBlock(d: nat)
      requires Shape() && d < DECIMAL_BUCKETS_COUNT && decimalBuckets[d] != null
      modifies decimalBuckets[d]
      ensures Shape()
      ensures forall i: nat :: i < BUCKETS_COUNT ==>
        Counter(i) == if i / BUCKETS_PER_DECIMAL == d then 0 else old(Counter(i))
    {
      var db := decimalBuckets[d];
      for i := 0 to db.Length
        invariant forall j :: 0 <= j < i ==> db[j] == 0
      {
        db[i] := 0;
      }
    }

    /** The receiver takes over the counters of src; a histogram cannot be merged into itself (its lock is held). */
    method Merge(src: VmHistogram)
      requires this != src && Valid() && src.Valid() && Blocks() !! src.Blocks()
      modifies this, Blocks()
      ensures Valid() && seen == old(seen) + src.seen
      ensures src.Valid() && src.View() == old(src.View())
      ensures Blocks() !! src.Blocks() && fresh(Blocks() - old(Blocks()))
    {
      ghost var f, g := View(), src.View();
      lower := lower + src.lower;
      upper := upper + src.upper;
      sum := sum + src.sum;
      for d := 0 to DECIMAL_BUCKETS_COUNT
        invariant Shape() && src.Shape() && src.View() == g
        invariant Blocks() !! src.Blocks() && fresh(Blocks() - old(Blocks()))
        invariant lower == f.lower + g.lower && upper == f.upper + g.upper && sum == f.sum + g.sum
        invariant seen == old(seen)
        invariant forall i: nat :: i < BUCKETS_COUNT ==>
          Counter(i) == f.counts[i] + (if i < d * BUCKETS_PER_DECIMAL then g.counts[i] else 0)
      {
        MergeBlock(src, d, f, g);
      }
      assert View().counts == Merged(f, g).counts;
      MergeObserves(seen, src.seen);
      Take(seen + src.seen);
    }

    /** One turn of the loop of a merge. */
    method MergeBlock(src: VmHistogram, d: nat, ghost f: Flat, ghost g: Flat)
      requires this != src && Shape() && src.Shape() && Blocks() !! src.Blocks() && d < DECIMAL_BUCKETS_COUNT
      requires src.View() == g && Shaped(f)
      requires forall i: nat :: i < BUCKETS_COUNT ==>
        Counter(i) == f.counts[i] + (if i < d * BUCKETS_PER_DECIMAL then g.counts[i] else 0)
      modifies this`decimalBuckets, Blocks()
      ensures Shape() && src.Shape() && src.View() == g
      ensures Blocks() !! src.Blocks() && fresh(Blocks() - old(Blocks()))
      ensures forall i: nat :: i < BUCKETS_COUNT ==>
        Counter(i) == f.counts[i] + (if i < (d + 1) * BUCKETS_PER_DECIMAL then g.counts[i] else 0)
    {
      var dbSrc := src.decimalBuckets[d];
      assert forall i: nat :: i < BUCKETS_COUNT ==> g.counts[i] == src.Counter(i);
      if dbSrc != null {
        assert dbSrc in src.Blocks();
        AddBlock(d, dbSrc);
        assert src.View().counts == g.counts;
      }
    }

    ghost method Take(xs: seq<Value>)
      requires Shape() && View() == Observed(xs)
      modifies this`seen
      ensures Valid() && seen == xs && View() == old(View())
    {
      ghost var f := View();
      seen := xs;
      assert View().counts == f.counts;
    }

    method AddBlock(d: nat, dbSrc: array<nat>)
      requires Shape() && d < DECIMAL_BUCKETS_COUNT
      requires dbSrc.Length == BUCKETS_PER_DECIMAL && dbSrc !in Blocks()
      modifies this`decimalBuckets, Blocks()
      ensures Shape() && fresh(Blocks() - old(Blocks()))
      ensures forall i: nat :: i < BUCKETS_COUNT ==>
        Counter(i) == old(Counter(i)) + (if i / BUCKETS_PER_DECIMAL == d then dbSrc[i % BUCKETS_PER_DECIMAL] else 0)
    {
      var dbDst := decimalBuckets[d];
      ghost var was := View().counts;
      if dbDst == null {
        dbDst := new nat[BUCKETS_PER_DECIMAL](_ => 0);
        decimalBuckets := decimalBuckets[d := dbDst];
      }
      assert decimalBuckets[d] == dbDst && dbDst in Blocks();
      assert forall i: nat :: i < BUCKETS_COUNT ==> Counter(i) == was[i];
      label start:
      for j := 0 to dbSrc.Length
        modifies dbDst
        invariant forall k :: 0 <= k < j ==> dbDst[k] == old@start(dbDst[k]) + dbSrc[k]
        invariant forall k :: j <= k < dbDst.Length ==> dbDst[k] == old@start(dbDst[k])
      {
        dbDst[j] := dbDst[j] + dbSrc[j];
      }
      assert forall i: nat :: i < BUCKETS_COUNT ==>
        Counter(i) == was[i] + (if i / BUCKETS_PER_DECIMAL == d then dbSrc[i % BUCKETS_PER_DECIMAL] else 0);
    }

    /** The rows of one allocated block. */
    method VisitBlock(rows: seq<(Bucket, nat)>, d: nat, ghost counts: seq<nat>) returns (more: seq<(Bucket, nat)>)
      requires Shape() && counts == View().counts && d < DECIMAL_BUCKETS_COUNT && decimalBuckets[d] != null
      ensures more + NonZero(counts, (d + 1) * BUCKETS_PER_DECIMAL) == rows + NonZero(counts, d * BUCKETS_PER_DECIMAL)
    {
      var db := decimalBuckets[d];
      var first := d * BUCKETS_PER_DECIMAL;
      more := rows;
      forall o: nat | o < BUCKETS_PER_DECIMAL
        ensures counts[first + o] == db[o]
      {
        assert counts[first + o] == Counter(first + o);
      }
      for offset := 0 to BUCKETS_PER_DECIMAL
        invariant more + NonZero(counts, first + offset) == rows + NonZero(counts, first)
      {
        NonZeroNext(more, counts, first + offset);
        if db[offset] > 0 {
          more := more + [(In(first + offset), db[offset])];
        }
      }
    }

    /** The buckets that the callback of the source receives, in its order. */
    method VisitNonZeroBuckets() returns (rows: seq<(Bucket, nat)>)
      requires Valid()
      ensures rows == Visited(View())
    {
      rows := [];
      if lower > 0 {
        rows := rows + [(Lower, lower)];
      }
      ghost var head := rows;
      ghost var f := View();
      ghost var counts := f.counts;
      for d := 0 to DECIMAL_BUCKETS_COUNT
        invariant rows + NonZero(counts, d * BUCKETS_PER_DECIMAL) == head + NonZero(counts, 0)
      {
        var db := decimalBuckets[d];
        if db == null {
          SkipZeros(counts, d * BUCKETS_PER_DECIMAL, (d + 1) * BUCKETS_PER_DECIMAL);
          continue;
        }
        rows := VisitBlock(rows, d, counts);
      }
      assert rows + [] == rows;
      assert head + NonZero(counts, 0) + [] == head + NonZero(counts, 0);
      if upper > 0 {
        rows := rows + [(Upper, upper)];
      }
      assert View().counts == f.counts;
      assert rows == Visited(f);
    }

    /** MarshalTo and ExportTimeSeries: the buckets, and sum and count unless the histogram is empty. */
    method MarshalTo() returns (rows: seq<(Bucket, nat)>, totals: seq<(real, nat)>)
      requires Valid()
      ensures rows == Visited(Observed(seen))
      ensures totals == if AcceptedCount(seen) > 0 then [(AcceptedSum(seen), AcceptedCount(seen))] else []
    {
      var countTotal := 0;
      rows := VisitNonZeroBuckets();
      assert View() == Observed(seen);
      for i := 0 to |rows|
        invariant countTotal == Total(rows[..i])
      {
        assert rows[..i + 1][..i] == rows[..i];
        countTotal := countTotal + rows[i].1;
      }
      assert rows[..|rows|] == rows;
      TotalIsAccepted(seen);
      ObservedCounts(seen);
      totals := [];
      if countTotal > 0 {
        totals := [(sum, countTotal)];
      }
    }
  }

  lemma NonZeroNext(rows: seq<(Bucket, nat)>, counts: seq<nat>, i: nat)
    requires i < |counts|
    ensures rows + NonZero(counts, i) ==
      (if counts[i] > 0 then rows + [(In(i), counts[i])] else rows) + NonZero(counts, i + 1)
  {
  }

  lemma {:induction false} SkipZeros(counts: seq<nat>, i: nat, j: nat)
    requires i <= j <= |counts| && forall k :: i <= k < j ==> counts[k] == 0
    ensures NonZero(counts, i) == NonZero(counts, j)
    decreases j - i
  {
    if i < j {
      SkipZeros(counts, i + 1, j);
    }
  }
}
