/** The reports page's per-metric averages over a set of entries, stated
    exactly: each average is the pair (sum, count), read as the quotient
    sum / count, and zero over no entries. */
module Aggregation {
  import opened Journal

  /** `entries.reduce((sum, entry) => sum + entry.<m>, 0)`: the running sum
      from the first entry to the last. */
  function Sum(entries: seq<Entry>, m: Metric): (s: int)
    ensures entries == [] ==> s == 0
    ensures |entries| == 1 ==> s == entries[0].Value(m)
  {
    if entries == [] then 0
    else Sum(entries[..|entries| - 1], m) + entries[|entries| - 1].Value(m)
  }

  /** An exact average: the rational number total / count. */
  datatype Mean = Mean(total: int, count: nat) {
    /** The average is a well-formed quotient. */
    predicate Valid() { count > 0 }

    /** The average equals the integer `v`. */
    predicate Is(v: int) { Valid() && total == v * count }
  }

  /** The initial value of each field of the averages: the number zero. */
  const Zero := Mean(0, 1)

  /** One average per metric, as the reports page shows them. */
  datatype Averages = Averages(sleep: Mean, stress: Mean, symptoms: Mean, mood: Mean, engagement: Mean) {
    function Of(m: Metric): Mean {
      match m
      case Sleep => sleep
      case Stress => stress
      case Symptoms => symptoms
      case Mood => mood
      case Engagement => engagement
    }
  }

  /** The average of metric `m` that the reports page states for `entries`. */
  function MeanOf(entries: seq<Entry>, m: Metric): (mean: Mean)
    ensures mean.Valid()
    ensures entries == [] ==> mean.Is(0)
    ensures entries != [] ==> mean.count == |entries|
  {
    if entries == [] then Zero else Mean(Sum(entries, m), |entries|)
  }

  /** The averages object of the reports page: created with every field zero,
      and, when there are entries, each field overwritten in turn with the sum
      of that metric over the entries divided by their number. */
  method ComputeAverages(entries: seq<Entry>) returns (averages: Averages)
    ensures forall m :: averages.Of(m) == MeanOf(entries, m)
    ensures entries == [] ==> forall m :: averages.Of(m).Is(0)
  {
    var totalEntries := |entries|;
    averages := Averages(Zero, Zero, Zero, Zero, Zero);
    if totalEntries > 0 {
      averages := averages.(sleep := Mean(Sum(entries, Sleep), totalEntries));
      averages := averages.(stress := Mean(Sum(entries, Stress), totalEntries));
      averages := averages.(symptoms := Mean(Sum(entries, Symptoms), totalEntries));
      averages := averages.(mood := Mean(Sum(entries, Mood), totalEntries));
      averages := averages.(engagement := Mean(Sum(entries, Engagement), totalEntries));
    }
    assert forall m :: averages.Of(m) == MeanOf(entries, m) by {
      forall m ensures averages.Of(m) == MeanOf(entries, m) {
        match m
        case Sleep =>
        case Stress =>
        case Symptoms =>
        case Mood =>
        case Engagement =>
      }
    }
  }

  /** Summing is additive over concatenation: the sum over a log made of two
      runs is the sum over the first run plus the sum over the second. */
  lemma {:induction false} SumConcat(a: seq<Entry>, b: seq<Entry>, m: Metric)
    ensures Sum(a + b, m) == Sum(a, m) + Sum(b, m)
    decreases |b|
  {
    if b == [] {
      assert a + b == a;
    } else {
      var b' := b[..|b| - 1];
      assert (a + b)[..|a + b| - 1] == a + b';
      SumConcat(a, b', m);
    }
  }

  /** When every entry's value of `m` lies in [lo, hi], the sum over n
      entries lies in [lo * n, hi * n]. */
  lemma {:induction false} SumBounds(entries: seq<Entry>, m: Metric, lo: int, hi: int)
    requires forall i :: 0 <= i < |entries| ==> lo <= entries[i].Value(m) <= hi
    ensures lo * |entries| <= Sum(entries, m) <= hi * |entries|
  {
    if entries != [] {
      var n := |entries| - 1;
      var init := entries[..n];
      assert forall i :: 0 <= i < |init| ==> init[i] == entries[i];
      SumBounds(init, m, lo, hi);
      var v := entries[n].Value(m);
      assert Sum(entries, m) == Sum(init, m) + v;
      assert lo <= v <= hi;
      assert lo * (n + 1) == lo * n + lo && hi * (n + 1) == hi * n + hi;
    }
  }

  /** Over a non-empty set of entries whose values of `m` all lie in [lo, hi],
      the average of `m` lies in [lo, hi] too; when they all equal `v`, the
      average is exactly `v`. */
  lemma MeanBounds(entries: seq<Entry>, m: Metric, lo: int, hi: int)
    requires entries != []
    requires forall i :: 0 <= i < |entries| ==> lo <= entries[i].Value(m) <= hi
    ensures var mean := MeanOf(entries, m);
      lo * mean.count <= mean.total <= hi * mean.count
    ensures lo == hi ==> MeanOf(entries, m).Is(lo)
  {
    SumBounds(entries, m, lo, hi);
  }

  /** Adding one entry adds its value to the sum and one to the count. */
  lemma MeanAfterAppend(entries: seq<Entry>, e: Entry, m: Metric)
    ensures MeanOf(entries + [e], m) == Mean(Sum(entries, m) + e.Value(m), |entries| + 1)
  {
  }

  function Abs(x: int): nat { if x < 0 then -x else x }

  /** Rounding a non-negative a / c to tenths, halves up: q tenths with
      10a - qc in [-c/2, c/2). */
  lemma RoundHalfUp(a: nat, c: nat)
    requires c > 0
    ensures var q := (20 * a + c) / (2 * c);
      -(c as int) <= 2 * (10 * a - q * c) < c
  {
    var n, d := 20 * a + c, 2 * c;
    var q, r := n / d, n % d;
    assert n == d * q + r && 0 <= r < d;
    assert d * q == 2 * (q * c);
  }

  /** The average rounded to one decimal place, as a whole number of tenths:
      the nearest multiple of a tenth, a tie going away from zero, which is
      how `toFixed(1)` rounds an exactly representable quotient. */
  function Tenths(mean: Mean): (t: int)
    requires mean.Valid()
    ensures 2 * Abs(10 * mean.total - t * mean.count) <= mean.count
    ensures 2 * Abs(10 * mean.total - t * mean.count) == mean.count ==>
      Abs(t * mean.count) > Abs(10 * mean.total)
  {
    var a, c := Abs(mean.total), mean.count;
    var q := (20 * a + c) / (2 * c);
    RoundHalfUp(a, c);
    var t := if mean.total < 0 then -q else q;
    assert t * c == if mean.total < 0 then -(q * c) else q * c;
    t
  }

  /** The average of sleep values 4, 6 and 8 is exactly 6, shown as 6.0. */
  lemma SleepAverageExample(a: Entry, b: Entry, c: Entry)
    requires a.sleep == 4 && b.sleep == 6 && c.sleep == 8
    ensures MeanOf([a, b, c], Sleep).Is(6)
    ensures Tenths(MeanOf([a, b, c], Sleep)) == 60
  {
    assert [a, b, c][..2] == [a, b];
    assert [a, b][..1] == [a];
    assert [a][..0] == [];
    assert Sum([a], Sleep) == 4;
    assert Sum([a, b], Sleep) == 10;
    assert Sum([a, b, c], Sleep) == 18;
  }
}
