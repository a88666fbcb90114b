/**
 * The aggregation over all classified lines of an upload (the `forEach`
 * that fills `bucketCounts`, `bucketValues` and `totalValue` in server.js).
 *
 * A line contributes when its bucket is truthy (not null and not the empty
 * string) and `find` locates that bucket in the catalog: its bucket's count
 * goes up by one and the entry's unit value is added both to the bucket's
 * value and to the total. Every other line leaves the report unchanged.
 * Values are exact reals, so the sums carry no rounding.
 */
module Aggregation {
  import opened Wrappers
  import opened Catalog
  import opened Matching

  /** The response body: counts and values per bucket, and the total value. */
  datatype Report = Report(counts: map<string, nat>, values: map<string, real>, total: real)

  const EmptyReport := Report(map[], map[], 0.0)

  /** The line takes part in the aggregation, under bucket `b`. */
  predicate Counted(catalog: seq<Entry>, res: LineResult, b: string)
  {
    res.bucket == Some(b) && b != [] && Find(catalog, b).Some?
  }

  /** The line takes part in the aggregation, under some bucket. */
  predicate Contributes(catalog: seq<Entry>, res: LineResult)
  {
    res.bucket.Some? && Counted(catalog, res, res.bucket.value)
  }

  function CountOr0(m: map<string, nat>, b: string): nat
  {
    if b in m then m[b] else 0
  }

  function ValueOr0(m: map<string, real>, b: string): real
  {
    if b in m then m[b] else 0.0
  }

  /** Counting one more item of bucket `b`, worth `v`. */
  function Bump(rep: Report, b: string, v: real): Report
  {
    Report(rep.counts[b := CountOr0(rep.counts, b) + 1],
           rep.values[b := ValueOr0(rep.values, b) + v],
           rep.total + v)
  }

  /**
   * One iteration of the `forEach` body: the result's own bucket, when it is
   * counted, gains one item and its unit value; every other bucket keeps its
   * count and value; the total grows by the result's contribution.
   */
  function Step(catalog: seq<Entry>, rep: Report, res: LineResult): (r: Report)
    ensures forall b :: CountOr0(r.counts, b) == CountOr0(rep.counts, b) + (if Counted(catalog, res, b) then 1 else 0)
    ensures forall b ::
      ValueOr0(r.values, b) == ValueOr0(rep.values, b) + (if Counted(catalog, res, b) then UnitValue(catalog, b) else 0.0)
    ensures r.total == rep.total + Contribution(catalog, res)
  {
    if Contributes(catalog, res) then Bump(rep, res.bucket.value, UnitValue(catalog, res.bucket.value))
    else rep
  }

  /**
   * The report after the `forEach` has visited every result, in order: the
   * two maps have the same buckets as keys, and every bucket present has
   * been counted at least once.
   */
  function Aggregate(catalog: seq<Entry>, results: seq<LineResult>): (r: Report)
    ensures r.counts.Keys == r.values.Keys
    ensures forall b :: b in r.counts ==> r.counts[b] >= 1
  {
    if results == [] then EmptyReport
    else Step(catalog, Aggregate(catalog, results[..|results| - 1]), results[|results| - 1])
  }

  /** Number of results counted under bucket `b`. */
  function Count(catalog: seq<Entry>, results: seq<LineResult>, b: string): nat
  {
    if results == [] then 0
    else Count(catalog, results[..|results| - 1], b)
         + (if Counted(catalog, results[|results| - 1], b) then 1 else 0)
  }

  /** What one result adds to the total. */
  function Contribution(catalog: seq<Entry>, res: LineResult): real
  {
    if Contributes(catalog, res) then UnitValue(catalog, res.bucket.value) else 0.0
  }

  /** The sum, over all results, of what each adds to the total. */
  function ValueSum(catalog: seq<Entry>, results: seq<LineResult>): real
  {
    if results == [] then 0.0
    else ValueSum(catalog, results[..|results| - 1]) + Contribution(catalog, results[|results| - 1])
  }

  /** The value sum of a concatenation is the sum of the parts' value sums. */
  lemma {:induction false} ValueSumAppend(catalog: seq<Entry>, a: seq<LineResult>, b: seq<LineResult>)
    ensures ValueSum(catalog, a + b) == ValueSum(catalog, a) + ValueSum(catalog, b)
    decreases |b|
  {
    if b == [] {
      assert a + b == a;
    } else {
      var front := b[..|b| - 1];
      ValueSumAppend(catalog, a, front);
      assert (a + b)[..|a + b| - 1] == a + front;
    }
  }

  // ---------------------------------------------------------------------
  // Sum of the values of a map over a set of its keys.

  ghost function Pick(keys: set<string>): (k: string)
    requires keys != {}
    ensures k in keys
  {
    var k :| k in keys; k
  }

  ghost function SumOver(m: map<string, real>, keys: set<string>): real
    requires keys <= m.Keys
    decreases keys
  {
    if keys == {} then 0.0
    else var k := Pick(keys); m[k] + SumOver(m, keys - {k})
  }

  /** The sum of all values of a map. */
  ghost function SumValues(m: map<string, real>): real
  {
    SumOver(m, m.Keys)
  }

  /** The sum does not depend on which key is taken out first. */
  lemma {:induction false} SumOverRemove(m: map<string, real>, keys: set<string>, k: string)
    requires keys <= m.Keys && k in keys
    ensures SumOver(m, keys) == m[k] + SumOver(m, keys - {k})
    decreases keys
  {
    var p := Pick(keys);
    if p != k {
      SumOverRemove(m, keys - {p}, k);
      SumOverRemove(m, keys - {k}, p);
      assert keys - {p} - {k} == keys - {k} - {p};
    }
  }

  /** Changing the value at a key outside `keys` does not change the sum over `keys`. */
  lemma {:induction false} SumOverFrame(m: map<string, real>, keys: set<string>, k: string, v: real)
    requires keys <= m.Keys && k !in keys
    ensures SumOver(m[k := v], keys) == SumOver(m, keys)
    decreases keys
  {
    if keys != {} {
      var p := Pick(keys);
      SumOverFrame(m, keys - {p}, k, v);
    }
  }

  /** Adding `d` at key `k`, present or not, adds `d` to the sum of all values. */
  lemma SumValuesAdd(m: map<string, real>, k: string, d: real)
    ensures SumValues(m[k := ValueOr0(m, k) + d]) == SumValues(m) + d
  {
    var m' := m[k := ValueOr0(m, k) + d];
    if k in m {
      assert m'.Keys == m.Keys;
      SumOverRemove(m', m.Keys, k);
      SumOverRemove(m, m.Keys, k);
      SumOverFrame(m, m.Keys - {k}, k, ValueOr0(m, k) + d);
    } else {
      assert m'.Keys - {k} == m.Keys;
      SumOverRemove(m', m'.Keys, k);
      SumOverFrame(m, m.Keys, k, d);
    }
  }

  // ---------------------------------------------------------------------
  // Properties of the aggregation.

  /**
   * `bucketCounts[b]` is the number of results counted under `b`; buckets
   * no result is counted under are absent, so every present count is >= 1.
   */
  lemma {:induction false} AggregateCounts(catalog: seq<Entry>, results: seq<LineResult>)
    ensures forall b :: b in Aggregate(catalog, results).counts <==> Count(catalog, results, b) > 0
    ensures forall b :: b in Aggregate(catalog, results).counts ==>
      Aggregate(catalog, results).counts[b] == Count(catalog, results, b) >= 1
  {
    if results != [] {
      AggregateCounts(catalog, results[..|results| - 1]);
    }
  }

  /** `n` items worth `u` each, added up one by one. */
  function Times(n: nat, u: real): real
  {
    if n == 0 then 0.0 else Times(n - 1, u) + u
  }

  lemma {:induction false} TimesIsProduct(n: nat, u: real)
    ensures Times(n, u) == n as real * u
  {
    if n > 0 {
      TimesIsProduct(n - 1, u);
      assert n as real * u == (n - 1) as real * u + u;
    }
  }

  /** After the loop, a bucket's value is its count times its unit value. */
  lemma ValueIsProduct(catalog: seq<Entry>, rep: Report, b: string)
    requires ValuesMatchCounts(catalog, rep) && b in rep.counts
    ensures Find(catalog, b).Some?
    ensures rep.values[b] == rep.counts[b] as real * UnitValue(catalog, b)
  {
    ValueIsTimes(catalog, rep, b);
    TimesValueIsProduct(catalog, rep, b);
  }

  lemma ValueIsTimes(catalog: seq<Entry>, rep: Report, b: string)
    requires ValuesMatchCounts(catalog, rep) && b in rep.counts
    ensures b in rep.values && Find(catalog, b).Some?
    ensures rep.values[b] == Times(rep.counts[b], UnitValue(catalog, b))
  {
  }

  lemma TimesValueIsProduct(catalog: seq<Entry>, rep: Report, b: string)
    requires b in rep.counts && b in rep.values && Find(catalog, b).Some?
    requires rep.values[b] == Times(rep.counts[b], UnitValue(catalog, b))
    ensures rep.values[b] == rep.counts[b] as real * UnitValue(catalog, b)
  {
    TimesIsProduct(rep.counts[b], UnitValue(catalog, b));
  }

  /**
   * The values map has the keys of the counts map, and each value is the
   * bucket's count times the unit value of the catalog entry `find` gives.
   */
  predicate ValuesMatchCounts(catalog: seq<Entry>, rep: Report)
  {
    && rep.values.Keys == rep.counts.Keys
    && forall b :: b in rep.values ==>
         Find(catalog, b).Some? && rep.values[b] == Times(rep.counts[b], UnitValue(catalog, b))
  }

  lemma StepKeepsValuesMatchCounts(catalog: seq<Entry>, rep: Report, res: LineResult)
    requires ValuesMatchCounts(catalog, rep)
    ensures ValuesMatchCounts(catalog, Step(catalog, rep, res))
  {
    if Contributes(catalog, res) {
      var b := res.bucket.value;
      var u := UnitValue(catalog, b);
      var next := Bump(rep, b, u);
      assert next.values.Keys == next.counts.Keys;
      forall k | k in next.values
        ensures Find(catalog, k).Some? && next.values[k] == Times(next.counts[k], UnitValue(catalog, k))
      {
        if k != b {
          assert next.values[k] == rep.values[k] && next.counts[k] == rep.counts[k];
        }
      }
    }
  }

  /**
   * `bucketValues` has the same keys as `bucketCounts`, and the value of a
   * bucket is its count times the unit value of the first catalog entry of
   * that bucket.
   */
  lemma {:induction false} AggregateValues(catalog: seq<Entry>, results: seq<LineResult>)
    ensures ValuesMatchCounts(catalog, Aggregate(catalog, results))
  {
    if results != [] {
      var front := results[..|results| - 1];
      AggregateValues(catalog, front);
      StepKeepsValuesMatchCounts(catalog, Aggregate(catalog, front), results[|results| - 1]);
    }
  }

  /**
   * `totalValue` is the sum of the unit values of all contributing results,
   * and equals the sum of `bucketValues` over all its keys.
   */
  lemma {:induction false} AggregateTotal(catalog: seq<Entry>, results: seq<LineResult>)
    ensures Aggregate(catalog, results).total == ValueSum(catalog, results)
    ensures Aggregate(catalog, results).total == SumValues(Aggregate(catalog, results).values)
  {
    if results != [] {
      var front := results[..|results| - 1];
      AggregateTotal(catalog, front);
      var prev := Aggregate(catalog, front);
      var res := results[|results| - 1];
      if Contributes(catalog, res) {
        SumValuesAdd(prev.values, res.bucket.value, UnitValue(catalog, res.bucket.value));
      }
    }
  }

  /** Two results of the same recognised bucket: count 2, value and total twice the unit value. */
  lemma AggregateTwiceSameBucket(catalog: seq<Entry>, x: LineResult, y: LineResult)
    requires Contributes(catalog, x) && y.bucket == x.bucket
    ensures var b := x.bucket.value; var u := UnitValue(catalog, b);
      Aggregate(catalog, [x, y]) == Report(map[b := 2], map[b := 2.0 * u], 2.0 * u)
  {
    var b, u := x.bucket.value, UnitValue(catalog, x.bucket.value);
    assert [x, y][..1] == [x] && [x][..0] == [];
    var once := Bump(EmptyReport, b, u);
    assert Aggregate(catalog, [x]) == once;
    assert once.counts == map[b := 1] && once.values == map[b := u];
    var twice := Bump(once, b, u);
    assert Aggregate(catalog, [x, y]) == twice;
    assert twice.counts == map[b := 2] && twice.values == map[b := 2.0 * u];
  }

  /**
   * The results that pass the guards, each kept as often as it occurs:
   * only these matter, as dropping every other result leaves the report
   * unchanged.
   */
  function Contributing(catalog: seq<Entry>, results: seq<LineResult>): (r: seq<LineResult>)
    ensures forall k :: 0 <= k < |r| ==> Contributes(catalog, r[k])
    ensures multiset(r) <= multiset(results)
    ensures forall x :: Contributes(catalog, x) ==> multiset(r)[x] == multiset(results)[x]
  {
    if results == [] then []
    else
      var front := results[..|results| - 1];
      var last := results[|results| - 1];
      assert results == front + [last];
      Contributing(catalog, front) + (if Contributes(catalog, last) then [last] else [])
  }

  lemma {:induction false} AggregateIgnoresOthers(catalog: seq<Entry>, results: seq<LineResult>)
    ensures Aggregate(catalog, Contributing(catalog, results)) == Aggregate(catalog, results)
  {
    if results != [] {
      var front := results[..|results| - 1];
      var last := results[|results| - 1];
      AggregateIgnoresOthers(catalog, front);
      if Contributes(catalog, last) {
        var c := Contributing(catalog, front) + [last];
        assert c[..|c| - 1] == Contributing(catalog, front);
      } else {
        assert Contributing(catalog, results) == Contributing(catalog, front);
        assert Aggregate(catalog, results) == Aggregate(catalog, front);
      }
    }
  }

  /** Updates of two different keys of a map can be done in either order. */
  lemma UpdatesCommute<V>(m: map<string, V>, a: string, x: V, b: string, y: V)
    requires a != b
    ensures m[a := x][b := y] == m[b := y][a := x]
  {
  }

  /** Counting two items gives the same report in either order. */
  lemma BumpCommutes(rep: Report, a: string, u: real, b: string, v: real)
    ensures Bump(Bump(rep, a, u), b, v) == Bump(Bump(rep, b, v), a, u)
  {
    if a != b {
      UpdatesCommute(rep.counts, a, CountOr0(rep.counts, a) + 1, b, CountOr0(rep.counts, b) + 1);
      UpdatesCommute(rep.values, a, ValueOr0(rep.values, a) + u, b, ValueOr0(rep.values, b) + v);
    }
  }

  /** Two results can be taken in either order. */
  lemma StepCommutes(catalog: seq<Entry>, rep: Report, x: LineResult, y: LineResult)
    ensures Step(catalog, Step(catalog, rep, x), y) == Step(catalog, Step(catalog, rep, y), x)
  {
    if Contributes(catalog, x) && Contributes(catalog, y) {
      BumpCommutes(rep, x.bucket.value, UnitValue(catalog, x.bucket.value),
                   y.bucket.value, UnitValue(catalog, y.bucket.value));
    }
  }

  /** A result may be moved to the end without changing the report. */
  lemma {:induction false} MoveToEnd(catalog: seq<Entry>, s: seq<LineResult>, x: LineResult, t: seq<LineResult>)
    ensures Aggregate(catalog, s + [x] + t) == Aggregate(catalog, s + t + [x])
    decreases |t|
  {
    if t == [] {
      assert s + [x] + t == s + t + [x];
    } else {
      var t', z := t[..|t| - 1], t[|t| - 1];
      MoveToEnd(catalog, s, x, t');
      var l := s + [x] + t;
      assert l[..|l| - 1] == s + [x] + t' && l[|l| - 1] == z;
      var l2 := s + t' + [x];
      assert l2[..|l2| - 1] == s + t';
      var l3 := s + t + [x];
      assert l3[..|l3| - 1] == s + t;
      var l4 := s + t;
      assert l4[..|l4| - 1] == s + t' && l4[|l4| - 1] == z;
      StepCommutes(catalog, Aggregate(catalog, s + t'), x, z);
    }
  }

  /** Taking one occurrence of `y` out of two equal multisets leaves equal multisets. */
  lemma RemoveOccurrence(front: seq<LineResult>, y: LineResult, b: seq<LineResult>, i: nat)
    requires multiset(front + [y]) == multiset(b)
    requires i < |b| && b[i] == y
    ensures multiset(front) == multiset(b[..i] + b[i + 1..])
  {
    assert b == b[..i] + [y] + b[i + 1..];
    assert multiset(front) == multiset(front + [y]) - multiset{y};
    assert multiset(b[..i] + b[i + 1..]) == multiset(b) - multiset{y};
  }

  /** The report does not depend on the order of the results. */
  lemma {:induction false} AggregatePermutation(catalog: seq<Entry>, a: seq<LineResult>, b: seq<LineResult>)
    requires multiset(a) == multiset(b)
    ensures Aggregate(catalog, a) == Aggregate(catalog, b)
    decreases |a|
  {
    if a == [] {
      assert |multiset(b)| == 0;
    } else {
      var front, y := a[..|a| - 1], a[|a| - 1];
      assert a == front + [y];
      assert y in multiset(b);
      var i :| 0 <= i < |b| && b[i] == y;
      var s, t := b[..i], b[i + 1..];
      assert b == s + [y] + t;
      MoveToEnd(catalog, s, y, t);
      RemoveOccurrence(front, y, b, i);
      AggregatePermutation(catalog, front, s + t);
      var l := s + t + [y];
      assert l[..|l| - 1] == s + t;
    }
  }

  // ---------------------------------------------------------------------
  // The loop itself.

  /**
   * The `forEach` over the flattened results: two maps and an accumulator
   * updated result by result.
   */
  method AggregateResults(catalog: seq<Entry>, results: seq<LineResult>)
    returns (bucketCounts: map<string, nat>, bucketValues: map<string, real>, totalValue: real)
    ensures Report(bucketCounts, bucketValues, totalValue) == Aggregate(catalog, results)
    ensures forall b :: b in bucketCounts ==> bucketCounts[b] == Count(catalog, results, b) >= 1
    ensures ValuesMatchCounts(catalog, Report(bucketCounts, bucketValues, totalValue))
    ensures totalValue == ValueSum(catalog, results) == SumValues(bucketValues)
  {
    bucketCounts, bucketValues, totalValue := map[], map[], 0.0;
    for i := 0 to |results|
      invariant Report(bucketCounts, bucketValues, totalValue) == Aggregate(catalog, results[..i])
    {
      var bucket := results[i].bucket;
      if bucket.Some? && bucket.value != [] {
        var found := Find(catalog, bucket.value);
        if found.Some? {
          var b, v := bucket.value, catalog[found.value].value;
          bucketCounts := bucketCounts[b := (if b in bucketCounts then bucketCounts[b] else 0) + 1];
          bucketValues := bucketValues[b := (if b in bucketValues then bucketValues[b] else 0.0) + v];
          totalValue := totalValue + v;
        }
      }
      assert results[..i + 1][..i] == results[..i];
    }
    assert results[..|results|] == results;
    AggregateCounts(catalog, results);
    AggregateValues(catalog, results);
    AggregateTotal(catalog, results);
  }
}
