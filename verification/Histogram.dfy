/**
 The histogram that the load test prints (src/tools/Fig.LoadTest/LoadTestRunner.cs:141-185).
 Divisions and roundings are exact here; the range of the samples is taken to fit an integer.
 */
module Histogram {

  const TICKS_PER_MS := 10000

  /** `Math.Round(ms, AwayFromZero)` of a number of ticks. */
  function RoundMs(ticks: int): (ms: int)
    ensures -10000 <= 2 * (ms * 10000 - ticks) <= 10000
    ensures 2 * (ms * 10000 - ticks) == 10000 ==> ticks > 0
    ensures 2 * (ms * 10000 - ticks) == -10000 ==> ticks < 0
  {
    if ticks >= 0 then (ticks + TICKS_PER_MS / 2) / TICKS_PER_MS
    else -((-ticks + TICKS_PER_MS / 2) / TICKS_PER_MS)
  }

  /** The smallest number whose square is at least n. */
  function CeilingSqrt(n: nat): (k: nat)
    ensures n <= k * k && (k == 0 || (k - 1) * (k - 1) < n)
  {
    if n == 0 then 0
    else
      var k := CeilingSqrt(n - 1);
      if n <= k * k then k else k + 1
  }

  const FEWEST_BINS := 5
  const MOST_BINS := 50

  function GetAutoBinCount(sampleCount: nat): (bins: nat)
    ensures 5 <= bins <= 50
    ensures 5 < bins ==> (bins - 1) * (bins - 1) < sampleCount
    ensures bins < 50 ==> sampleCount <= bins * bins
  {
    var bins := CeilingSqrt(sampleCount);
    SquareGrows(bins, sampleCount);
    if bins < FEWEST_BINS then FEWEST_BINS else if bins > MOST_BINS then MOST_BINS else bins
  }

  lemma SquareGrows(k: nat, n: nat)
    requires n <= k * k && (k == 0 || (k - 1) * (k - 1) < n)
    ensures k < FEWEST_BINS ==> n <= FEWEST_BINS * FEWEST_BINS
    ensures k > MOST_BINS ==> (MOST_BINS - 1) * (MOST_BINS - 1) < n
  {
    if k < FEWEST_BINS {
      assert k * k <= FEWEST_BINS * FEWEST_BINS;
    }
    if k > MOST_BINS {
      assert (k - 1) * (k - 1) >= MOST_BINS * MOST_BINS;
    }
  }

  /** `Math.Ceiling(a / b)`. */
  function CeilingDiv(a: int, b: int): (q: int)
    requires b > 0
    ensures (q - 1) * b < a <= q * b
  {
    (a + b - 1) / b
  }

  lemma ProductMonotone(x: int, y: int, b: int)
    requires b > 0
    ensures x <= y ==> x * b <= y * b
  {
  }

  lemma ProductOrder(x: int, y: int, b: int)
    requires b > 0 && x * b < y * b
    ensures x < y
  {
    ProductMonotone(y, x, b);
  }

  /** Bins that are wide enough for the chosen number do not become more. */
  lemma BinsFit(range: int, binCount: int, binWidth: int)
    requires range > 0 && binCount > 0 && binWidth > 0 && range <= binWidth * binCount
    ensures CeilingDiv(range, binWidth) <= binCount
  {
    var q := CeilingDiv(range, binWidth);
    assert (q - 1) * binWidth < binCount * binWidth;
    ProductOrder(q - 1, binCount, binWidth);
  }

  /** The index of a value in the range is in bounds, and the value lies in its bin. */
  lemma IndexInBounds(offset: int, range: int, binWidth: int)
    requires binWidth > 0 && 0 <= offset < range
    ensures 0 <= offset / binWidth < CeilingDiv(range, binWidth)
    ensures offset / binWidth * binWidth <= offset < offset / binWidth * binWidth + binWidth
  {
    var index, q := offset / binWidth, CeilingDiv(range, binWidth);
    assert offset == index * binWidth + offset % binWidth;
    assert index * binWidth < q * binWidth;
    ProductOrder(index, q, binWidth);
  }

  /** Bins of one width do not overlap. */
  lemma BinIsUnique(offset: int, i: int, j: int, binWidth: int)
    requires binWidth > 0
    requires i * binWidth <= offset < i * binWidth + binWidth
    requires j * binWidth <= offset < j * binWidth + binWidth
    ensures i == j
  {
    assert i * binWidth < (j + 1) * binWidth && j * binWidth < (i + 1) * binWidth;
    ProductOrder(i, j + 1, binWidth);
    ProductOrder(j, i + 1, binWidth);
  }

  // ----- counting

  function Rounded(samplesTicks: seq<int>): (samplesMs: seq<int>)
    ensures |samplesMs| == |samplesTicks|
    ensures forall i :: 0 <= i < |samplesTicks| ==> samplesMs[i] == RoundMs(samplesTicks[i])
  {
    seq(|samplesTicks|, i requires 0 <= i < |samplesTicks| => RoundMs(samplesTicks[i]))
  }

  /** How many samples lie in bin i, counted from the smallest sample. */
  function InBin(samples: seq<int>, min: int, binWidth: int, i: int): nat
  {
    if samples == [] then 0
    else
      var last := samples[|samples| - 1];
      InBin(samples[..|samples| - 1], min, binWidth, i)
      + if min + i * binWidth <= last <= min + i * binWidth + binWidth - 1 then 1 else 0
  }

  function Sum(bins: seq<int>): int {
    if bins == [] then 0 else Sum(bins[..|bins| - 1]) + bins[|bins| - 1]
  }

  lemma {:induction false} SumUpdate(bins: seq<int>, i: nat, x: int)
    requires i < |bins|
    ensures Sum(bins[i := x]) == Sum(bins) + x - bins[i]
  {
    var n := |bins| - 1;
    if i < n {
      SumUpdate(bins[..n], i, x);
      assert bins[i := x][..n] == bins[..n][i := x];
    } else {
      assert bins[i := x][..n] == bins[..n];
    }
  }

  lemma {:induction false} SumZero(bins: seq<int>)
    requires forall i :: 0 <= i < |bins| ==> bins[i] == 0
    ensures Sum(bins) == 0
  {
    if bins != [] {
      SumZero(bins[..|bins| - 1]);
    }
  }

  ghost predicate IsMin(samples: seq<int>, min: int) {
    min in samples && forall x :: x in samples ==> min <= x
  }

  ghost predicate IsMax(samples: seq<int>, max: int) {
    max in samples && forall x :: x in samples ==> x <= max
  }

  method MinMax(samples: seq<int>) returns (min: int, max: int)
    requires samples != []
    ensures IsMin(samples, min) && IsMax(samples, max)
  {
    min, max := samples[0], samples[0];
    for i := 1 to |samples|
      invariant min in samples && max in samples
      invariant forall k :: 0 <= k < i ==> min <= samples[k] <= max
    {
      if samples[i] < min {
        min := samples[i];
      }
      if samples[i] > max {
        max := samples[i];
      }
    }
  }

  /** The counts after the first k samples. */
  ghost predicate Counted(bins: seq<int>, samples: seq<int>, min: int, binWidth: int, k: nat) {
    && k <= |samples| && Sum(bins) == k
    && forall i :: 0 <= i < |bins| ==> bins[i] == InBin(samples[..k], min, binWidth, i)
  }

  lemma CountNext(bins: seq<int>, samples: seq<int>, min: int, binWidth: int, k: nat, at: nat)
    requires binWidth > 0 && Counted(bins, samples, min, binWidth, k) && k < |samples| && at < |bins|
    requires at * binWidth <= samples[k] - min < at * binWidth + binWidth
    ensures Counted(bins[at := bins[at] + 1], samples, min, binWidth, k + 1)
  {
    SumUpdate(bins, at, bins[at] + 1);
    assert samples[..k + 1][..k] == samples[..k];
    var bins' := bins[at := bins[at] + 1];
    forall i | 0 <= i < |bins'| ensures bins'[i] == InBin(samples[..k + 1], min, binWidth, i) {
      assert bins[i] == InBin(samples[..k], min, binWidth, i);
      if i != at && i * binWidth <= samples[k] - min < i * binWidth + binWidth {
        BinIsUnique(samples[k] - min, i, at, binWidth);
      }
    }
  }

  /** The loop over the samples. */
  method FillBins(samples: seq<int>, min: int, max: int, binWidth: int) returns (counts: seq<int>)
    requires samples != [] && IsMin(samples, min) && IsMax(samples, max) && binWidth > 0
    ensures |counts| == CeilingDiv(max - min + 1, binWidth)
    ensures Counted(counts, samples, min, binWidth, |samples|)
  {
    var range := max - min + 1;
    assert CeilingDiv(range, binWidth) >= 0 by {
      IndexInBounds(0, range, binWidth);
    }
    var bins := new int[CeilingDiv(range, binWidth)](_ => 0);
    SumZero(bins[..]);
    assert samples[..0] == [];
    for k := 0 to |samples|
      invariant Counted(bins[..], samples, min, binWidth, k)
    {
      var value := samples[k];
      assert value in samples;
      IndexInBounds(value - min, range, binWidth);
      var index := (value - min) / binWidth;
      CountNext(bins[..], samples, min, binWidth, k, index);
      bins[index] := bins[index] + 1;
    }
    counts := bins[..];
  }

  /** The bins from the smallest sample on cover the range, and the last one is needed. */
  ghost predicate Covers(samples: seq<int>, min: int, binWidth: int, bins: nat) {
    && (forall x :: x in samples ==> min <= x < min + bins * binWidth)
    && exists x :: x in samples && min + (bins - 1) * binWidth <= x
  }

  lemma RangeCovered(samples: seq<int>, min: int, max: int, binWidth: int)
    requires IsMin(samples, min) && IsMax(samples, max) && binWidth > 0
    ensures CeilingDiv(max - min + 1, binWidth) > 0 && Covers(samples, min, binWidth, CeilingDiv(max - min + 1, binWidth))
  {
    assert min <= max;
    IndexInBounds(0, max - min + 1, binWidth);
    var bins := CeilingDiv(max - min + 1, binWidth);
    assert max in samples && min + (bins - 1) * binWidth <= max;
  }

  /** So many bins of the width cover the range, and no fewer units would do. */
  ghost predicate IsLeastWidth(samples: seq<int>, min: int, binWidth: int, binCount: int) {
    exists max :: IsMax(samples, max) && (binWidth - 1) * binCount < max - min + 1 <= binWidth * binCount
  }

  lemma WidthIsLeast(samples: seq<int>, min: int, max: int, binWidth: int, binCount: int)
    requires IsMax(samples, max) && (binWidth - 1) * binCount < max - min + 1 <= binWidth * binCount
    ensures IsLeastWidth(samples, min, binWidth, binCount)
  {
  }

  /** `PrintHistogram`, up to the printing: the smallest value, the width of the bins and their
      counts; None of them for no samples. There are at most as many bins as chosen, of the least
      width for which so many cover the range; each counts exactly the samples between its start
      and its end; together they cover all samples, and their counts add up to the number of
      samples. */
  method PrintHistogram(samplesTicks: seq<int>) returns (minMs: int, binWidth: int, bins: seq<int>)
    ensures samplesTicks == [] ==> bins == []
    ensures samplesTicks != [] ==>
      var samples := Rounded(samplesTicks);
      && IsMin(samples, minMs) && binWidth >= 1
      && 0 < |bins| <= GetAutoBinCount(|samples|)
      && Sum(bins) == |samples|
      && (forall i :: 0 <= i < |bins| ==> bins[i] == InBin(samples, minMs, binWidth, i))
      && Covers(samples, minMs, binWidth, |bins|)
      && IsLeastWidth(samples, minMs, binWidth, GetAutoBinCount(|samples|))
  {
    minMs, binWidth, bins := 0, 1, [];
    if |samplesTicks| == 0 {
      return;
    }
    var samplesMs := Round(samplesTicks);
    var maxMs;
    minMs, maxMs := MinMax(samplesMs);
    assert samplesMs[0] in samplesMs;
    var range := if maxMs - minMs + 1 > 1 then maxMs - minMs + 1 else 1;
    var binCount := GetAutoBinCount(|samplesMs|);
    binWidth := CeilingDiv(range, binCount);
    if binWidth < 1 {
      binWidth := 1;
    }
    BinsFit(range, binCount, binWidth);
    bins := FillBins(samplesMs, minMs, maxMs, binWidth);
    assert samplesMs[..|samplesMs|] == samplesMs;
    RangeCovered(samplesMs, minMs, maxMs, binWidth);
    WidthIsLeast(samplesMs, minMs, maxMs, binWidth, binCount);
  }

  method Round(samplesTicks: seq<int>) returns (samplesMs: seq<int>)
    ensures samplesMs == Rounded(samplesTicks)
  {
    var samples := new int[|samplesTicks|];
    for i := 0 to |samplesTicks|
      invariant forall k :: 0 <= k < i ==> samples[k] == RoundMs(samplesTicks[k])
    {
      samples[i] := RoundMs(samplesTicks[i]);
    }
    samplesMs := samples[..];
  }
}
