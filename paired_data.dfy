/** The generation driver `get_paired_data`: derive the largest difference from
    the buckets, check the configuration, look for cached pickles, and
    otherwise make the configured number of passes over the differences
    0..maxDiff, extracting and accumulating pairs and labels, then dump them. */
module PairedData {
  import opened Wrappers
  import opened TimeBuckets
  import opened FrameDifferences
  import opened PairSampling
  import opened CacheName

  /** Why generation stops: `NoTimes` is numpy's `ValueError` on stacking or
      maximising no times; `ConfigAssertion` is the source's assert;
      `NonIntegerMaxDiff` is the `TypeError` of `range` on the float maximum
      numpy computes once some bucket is an empty list; `Lookup` is a
      `KeyError` of the extraction. */
  datatype GenerationError =
    | NoTimes
    | ConfigAssertion
    | NonIntegerMaxDiff
    | Lookup(e: LookupError)

  /** The pickles on disk, by file name: pairs and labels. */
  datatype Disk<F> = Disk(xs: map<string, seq<StackPair<F>>>, ys: map<string, seq<nat>>)

  /** Everything one extraction call of the generation loop depends on. The
      index sampler stands for `np.random.seed(1337)` followed by
      `np.random.choice(len, size)`: reseeded on every call, it is a function
      of the number of candidates and of the sample size alone. */
  datatype Generation<F> = Generation(
    data: seq<seq<F>>, n: int, table: map<int, seq<Candidate>>, bt: map<int, nat>,
    k: int, numPairs: nat, sample: (nat, nat) -> seq<nat>)

  /** `np.hstack(time_buckets)`: all times, bucket after bucket. */
  function AllTimes(buckets: seq<seq<int>>): (times: seq<int>)
    ensures forall t :: t in times <==> Listed(buckets, t)
    decreases |buckets|
  {
    if buckets == [] then []
    else AllTimes(buckets[..|buckets| - 1]) + buckets[|buckets| - 1]
  }

  /** `.max()` of a non-empty array. */
  function MaxTime(times: seq<int>): (m: int)
    requires |times| > 0
    ensures m in times
    ensures forall i :: 0 <= i < |times| ==> times[i] <= m
    decreases |times|
  {
    if |times| == 1 then times[0]
    else
      var rest := MaxTime(times[1..]);
      if times[0] >= rest then times[0] else rest
  }

  /** Some bucket is an empty list (numpy then stacks the times as floats). */
  predicate HasEmptyBucket(buckets: seq<seq<int>>)
  {
    exists i :: 0 <= i < |buckets| && buckets[i] == []
  }

  /** The sampler returns `size` indices below `len` whenever `len > 0`. */
  ghost predicate SamplerInRange(sample: (nat, nat) -> seq<nat>)
  {
    forall len: nat, size: nat :: len > 0 ==>
      |sample(len, size)| == size && IndicesInRange(sample(len, size), len)
  }

  /** The first difference in from..maxDiff that has no bucket. */
  function FirstUncovered(bt: map<int, nat>, from: int, maxDiff: int): (r: Option<int>)
    ensures r.None? ==> forall d :: from <= d <= maxDiff ==> d in bt
    ensures r.Some? ==> from <= r.value <= maxDiff && r.value !in bt
    ensures r.Some? ==> forall d :: from <= d < r.value ==> d in bt
    decreases maxDiff - from + 1
  {
    if from > maxDiff then None
    else if from !in bt then Some(from)
    else FirstUncovered(bt, from + 1, maxDiff)
  }

  /** A difference without a bucket, preceded only by differences with one, is
      the first one missing. */
  lemma FirstUncoveredIs(bt: map<int, nat>, d: int, maxDiff: int)
    requires 0 <= d <= maxDiff && d !in bt
    requires forall e :: 0 <= e < d ==> e in bt
    ensures FirstUncovered(bt, 0, maxDiff) == Some(d)
  {
    var m := FirstUncovered(bt, 0, maxDiff);
    assert m.Some?;
    assert !(m.value < d) && !(d < m.value);
  }

  /** The extraction loops run at least once per call. */
  predicate Extracts<F>(g: Generation<F>)
  {
    |g.data| > 0 && g.numPairs > 0
  }

  /** The candidates of difference `d` exist and fit in the videos. */
  predicate CandidateReady<F>(g: Generation<F>, d: int)
  {
    d in g.table && |g.table[d]| > 0 && CandidatesFit(g.table[d], g.n, g.k)
  }

  /** The indices drawn for difference `d`. */
  function Indices<F>(g: Generation<F>, d: int): seq<nat>
    requires d in g.table
  {
    g.sample(|g.table[d]|, g.numPairs)
  }

  /** The extraction at difference `d` succeeds and stays inside the videos. */
  predicate BatchReady<F>(g: Generation<F>, d: int)
  {
    && CandidateReady(g, d)
    && |Indices(g, d)| == g.numPairs
    && IndicesInRange(Indices(g, d), |g.table[d]|)
    && (Extracts(g) ==> d in g.bt)
  }

  /** Every extraction of a pass succeeds. */
  predicate AllReady<F>(g: Generation<F>, maxDiff: int)
  {
    forall d :: 0 <= d <= maxDiff ==> BatchReady(g, d)
  }

  /** `count` copies of one label. */
  function Labels(count: nat, bucket: nat): seq<nat>
  {
    seq(count, _ => bucket)
  }

  /** What the extraction at difference `d` returns. */
  function BatchAt<F>(g: Generation<F>, d: int): Samples<F>
    requires Rectangular(g.data, g.n) && BatchReady(g, d)
  {
    Samples(
      AllVideoPairs(g.data, g.n, g.table[d], Indices(g, d), g.k),
      Labels(|g.data| * g.numPairs, if d in g.bt then g.bt[d] else 0))
  }

  /** The batches of the differences 0..upTo-1, in order. */
  function PassBatches<F>(g: Generation<F>, upTo: int): Samples<F>
    requires Rectangular(g.data, g.n)
    requires forall d :: 0 <= d < upTo ==> BatchReady(g, d)
    decreases upTo
  {
    if upTo <= 0 then Samples([], [])
    else
      var before := PassBatches(g, upTo - 1);
      var batch := BatchAt(g, upTo - 1);
      Samples(before.X + batch.X, before.y + batch.y)
  }

  /** The pairs array of a pass after the differences below `upTo` when
      `k <= 0`: the last batch, or what the pass started with. */
  function LastBatchX<F>(g: Generation<F>, upTo: int, start: seq<StackPair<F>>): seq<StackPair<F>>
    requires Rectangular(g.data, g.n)
    requires upTo > 0 ==> BatchReady(g, upTo - 1)
  {
    if upTo > 0 then BatchAt(g, upTo - 1).X else start
  }

  /** `p` copies of `s`, one after the other. */
  function Repeat<T>(s: seq<T>, p: int): seq<T>
    decreases p
  {
    if p <= 0 then [] else Repeat(s, p - 1) + s
  }

  /** The arrays after `passes` passes. Each pass draws the same indices, so
      every pass appends the same batches. The labels accumulate with
      `np.append`. The pairs accumulate with `np.vstack` only while the array
      built so far has elements; with `k <= 0` every stack is empty, so the
      array is replaced on every step and keeps only the last batch. */
  function Generated<F>(g: Generation<F>, maxDiff: int, passes: int): Samples<F>
    requires Rectangular(g.data, g.n)
    requires passes > 0 ==> AllReady(g, maxDiff)
  {
    if passes <= 0 then Samples([], [])
    else
      var pass := PassBatches(g, maxDiff + 1);
      var X := if g.k > 0 then Repeat(pass.X, passes)
               else if maxDiff >= 0 then BatchAt(g, maxDiff).X
               else [];
      Samples(X, Repeat(pass.y, passes))
  }

  /** The sampler gives difference `d` as many in-range indices as asked. */
  lemma SampledIndicesReady<F>(g: Generation<F>, d: int)
    requires SamplerInRange(g.sample) && CandidateReady(g, d)
    ensures |Indices(g, d)| == g.numPairs && IndicesInRange(Indices(g, d), |g.table[d]|)
  {
  }

  /** Once the assertion holds and the bucket table has every difference the
      loops look up, every extraction of the generation succeeds. */
  lemma GenerationReady<F>(g: Generation<F>, maxDiff: int)
    requires SamplerInRange(g.sample)
    requires g.table == CandidateTable(g.n, maxDiff, g.k) && maxDiff <= g.n - g.k
    requires Extracts(g) ==> forall d :: 0 <= d <= maxDiff ==> d in g.bt
    ensures AllReady(g, maxDiff)
  {
    forall d | 0 <= d <= maxDiff
      ensures BatchReady(g, d)
    {
      AssertGuaranteesCandidates(g.n, maxDiff, g.k, d);
      TableCandidatesFit(g.n, maxDiff, g.k, d);
      SampledIndicesReady(g, d);
    }
  }

  /** The candidates of every difference 0..maxDiff are ready once the
      assertion holds. */
  lemma CandidatesReady<F>(g: Generation<F>, maxDiff: int)
    requires g.table == CandidateTable(g.n, maxDiff, g.k) && maxDiff <= g.n - g.k
    ensures forall d :: 0 <= d <= maxDiff ==> CandidateReady(g, d)
  {
    forall d | 0 <= d <= maxDiff
      ensures CandidateReady(g, d)
    {
      AssertGuaranteesCandidates(g.n, maxDiff, g.k, d);
      TableCandidatesFit(g.n, maxDiff, g.k, d);
    }
  }

  /** When every extraction is ready, no difference lacks a bucket. */
  lemma CoveredWhenReady<F>(g: Generation<F>, maxDiff: int)
    requires AllReady(g, maxDiff) && Extracts(g)
    ensures FirstUncovered(g.bt, 0, maxDiff).None?
  {
    forall d | 0 <= d <= maxDiff
      ensures d in g.bt
    {
      assert BatchReady(g, d);
    }
  }

  /** What one extraction call returns is the batch of its difference. */
  lemma ExtractionIsBatch<F>(g: Generation<F>, d: int, res: Samples<F>)
    requires Rectangular(g.data, g.n) && BatchReady(g, d)
    requires res.X == AllVideoPairs(g.data, g.n, g.table[d], Indices(g, d), g.k)
    requires |res.y| == |g.data| * |Indices(g, d)|
    requires forall e :: 0 <= e < |res.y| ==> d in g.bt && res.y[e] == g.bt[d]
    ensures res == BatchAt(g, d)
  {
  }

  /** One more difference: the labels grow by its batch, and so do the pairs
      when `k > 0`; with `k <= 0` the pairs become its batch. */
  lemma PassStep<F>(g: Generation<F>, d: int, X0: seq<StackPair<F>>, y0: seq<nat>,
                    X: seq<StackPair<F>>, y: seq<nat>)
    requires Rectangular(g.data, g.n)
    requires d >= 0 && forall e :: 0 <= e <= d ==> BatchReady(g, e)
    requires y == y0 + PassBatches(g, d).y
    requires g.k > 0 ==> X == X0 + PassBatches(g, d).X
    requires g.k <= 0 ==> X == LastBatchX(g, d, X0)
    ensures y + BatchAt(g, d).y == y0 + PassBatches(g, d + 1).y
    ensures var X' := if |X| > 0 && g.k > 0 then X + BatchAt(g, d).X else BatchAt(g, d).X;
      (g.k > 0 ==> X' == X0 + PassBatches(g, d + 1).X) &&
      (g.k <= 0 ==> X' == LastBatchX(g, d + 1, X0))
  {
  }

  /** One more pass appends one pass of labels, and of pairs when `k > 0`;
      with `k <= 0` the pairs are those of the last difference. */
  lemma GeneratedStep<F>(g: Generation<F>, maxDiff: int, i: int)
    requires Rectangular(g.data, g.n) && AllReady(g, maxDiff) && i >= 0
    ensures Generated(g, maxDiff, i + 1).y == Generated(g, maxDiff, i).y + PassBatches(g, maxDiff + 1).y
    ensures g.k > 0 ==>
      Generated(g, maxDiff, i + 1).X == Generated(g, maxDiff, i).X + PassBatches(g, maxDiff + 1).X
    ensures g.k <= 0 ==>
      Generated(g, maxDiff, i + 1).X == if maxDiff >= 0 then BatchAt(g, maxDiff).X else []
  {
    var pass := PassBatches(g, maxDiff + 1);
    assert Repeat(pass.y, i + 1) == Repeat(pass.y, i) + pass.y;
    assert Repeat(pass.X, i + 1) == Repeat(pass.X, i) + pass.X;
  }

  /** What `get_paired_data` returns, with the disk after it. */
  function PairedDataSpec<F>(
    filename: string, timeBuckets: seq<seq<int>>, data: seq<seq<F>>, numTotalFrames: int,
    numPasses: int, numPairs: nat, k: int, force: bool, disk: Disk<F>,
    sample: (nat, nat) -> seq<nat>)
    : Result<(Samples<F>, Disk<F>), GenerationError>
    requires Rectangular(data, numTotalFrames) && SamplerInRange(sample)
  {
    var times := AllTimes(timeBuckets);
    if times == [] then Failure(NoTimes)
    else
      var maxDiff := MaxTime(times);
      if !(maxDiff <= numTotalFrames - k) then Failure(ConfigAssertion)
      else
        var names := CacheFileNames(filename);
        if !force && names.0 in disk.xs && names.1 in disk.ys then
          Success((Samples(disk.xs[names.0], disk.ys[names.1]), disk))
        else if HasEmptyBucket(timeBuckets) then Failure(NonIntegerMaxDiff)
        else
          var bt := BucketTable(timeBuckets);
          var missing := FirstUncovered(bt, 0, maxDiff);
          if numPasses > 0 && |data| > 0 && numPairs > 0 && missing.Some? then
            Failure(Lookup(MissingBucket(missing.value)))
          else
            var g := Generation(data, numTotalFrames, CandidateTable(numTotalFrames, maxDiff, k), bt, k, numPairs, sample);
            var s := if numPasses <= 0 then Samples([], [])
                     else (GenerationReady(g, maxDiff); Generated(g, maxDiff, numPasses));
            Success((s, Disk(disk.xs[names.0 := s.X], disk.ys[names.1 := s.y])))
  }

  /** The driver. The data are the loaded videos of `numTotalFrames` frames each
      and `disk` the pickles already present. */
  method GetPairedData<F>(
    filename: string, timeBuckets: seq<seq<int>>, data: seq<seq<F>>, numTotalFrames: int,
    numPassesForGeneration: int, numPairsPerExample: nat, numFramesInStack: int, force: bool,
    disk: Disk<F>, sample: (nat, nat) -> seq<nat>)
    returns (r: Result<(Samples<F>, Disk<F>), GenerationError>)
    requires Rectangular(data, numTotalFrames) && SamplerInRange(sample)
    ensures r == PairedDataSpec(filename, timeBuckets, data, numTotalFrames, numPassesForGeneration,
                                numPairsPerExample, numFramesInStack, force, disk, sample)
  {
    var n, k, numPairs := numTotalFrames, numFramesInStack, numPairsPerExample;
    var times := AllTimes(timeBuckets);
    if times == [] {
      return Failure(NoTimes);
    }
    var maxFrameDiff := MaxTime(times);
    if !(maxFrameDiff <= n - k) {
      return Failure(ConfigAssertion);
    }
    var names := CacheFileNames(filename);
    if !force && names.0 in disk.xs && names.1 in disk.ys {
      return Success((Samples(disk.xs[names.0], disk.ys[names.1]), disk));
    }
    var timeBucketsDict := GetTimeBucketsDict(timeBuckets);
    if HasEmptyBucket(timeBuckets) {
      return Failure(NonIntegerMaxDiff);
    }
    var differencesDict := GetFrameDifferencesDict(n, maxFrameDiff, k);
    ghost var g := Generation(data, n, differencesDict, timeBucketsDict, k, numPairs, sample);
    CandidatesReady(g, maxFrameDiff);
    var generated := GenerationLoop(data, n, maxFrameDiff, numPassesForGeneration, numPairs, k,
                                    differencesDict, timeBucketsDict, sample);
    if generated.Failure? {
      return Failure(Lookup(generated.error));
    }
    var X, y := generated.value.X, generated.value.y;
    return Success((Samples(X, y), Disk(disk.xs[names.0 := X], disk.ys[names.1 := y])));
  }

  /** The pass loop of the driver. A missing bucket stops the first pass at
      the first difference without one. */
  method GenerationLoop<F>(
    data: seq<seq<F>>, ghost n: int, maxFrameDiff: int, numPassesForGeneration: int,
    numPairs: nat, k: int, differencesDict: map<int, seq<Candidate>>,
    timeBucketsDict: map<int, nat>, sample: (nat, nat) -> seq<nat>)
    returns (r: Result<Samples<F>, LookupError>)
    requires Rectangular(data, n) && SamplerInRange(sample)
    requires forall d :: 0 <= d <= maxFrameDiff ==>
      CandidateReady(Generation(data, n, differencesDict, timeBucketsDict, k, numPairs, sample), d)
    ensures
      var g := Generation(data, n, differencesDict, timeBucketsDict, k, numPairs, sample);
      var missing := FirstUncovered(timeBucketsDict, 0, maxFrameDiff);
      if numPassesForGeneration > 0 && Extracts(g) && missing.Some? then
        r == Failure(MissingBucket(missing.value))
      else
        (numPassesForGeneration > 0 ==> AllReady(g, maxFrameDiff)) &&
        r == Success(Generated(g, maxFrameDiff, numPassesForGeneration))
  {
    ghost var g := Generation(data, n, differencesDict, timeBucketsDict, k, numPairs, sample);
    var X: seq<StackPair<F>> := [];
    var y: seq<nat> := [];
    var i := 0;
    while i < numPassesForGeneration
      invariant 0 <= i
      invariant i <= if numPassesForGeneration >= 0 then numPassesForGeneration else 0
      invariant i > 0 ==> AllReady(g, maxFrameDiff)
      invariant Samples(X, y) == Generated(g, maxFrameDiff, i)
    {
      var pass := GeneratePass(data, n, maxFrameDiff, numPairs, k, differencesDict, timeBucketsDict, sample, X, y);
      if pass.Failure? {
        return pass;
      }
      GeneratedStep(g, maxFrameDiff, i);
      X, y := pass.value.X, pass.value.y;
      i := i + 1;
    }
    if numPassesForGeneration > 0 && Extracts(g) {
      CoveredWhenReady(g, maxFrameDiff);
    }
    return Success(Samples(X, y));
  }

  /** One extraction of a pass: draw the indices for `difference` and extract
      its batch, which fails only on a missing bucket. */
  method ExtractBatch<F>(
    data: seq<seq<F>>, ghost n: int, difference: int, numPairs: nat, k: int,
    differencesDict: map<int, seq<Candidate>>, timeBucketsDict: map<int, nat>,
    sample: (nat, nat) -> seq<nat>)
    returns (r: Result<Samples<F>, LookupError>)
    requires Rectangular(data, n) && SamplerInRange(sample)
    requires CandidateReady(Generation(data, n, differencesDict, timeBucketsDict, k, numPairs, sample), difference)
    ensures
      var g := Generation(data, n, differencesDict, timeBucketsDict, k, numPairs, sample);
      && (r.Failure? <==> Extracts(g) && difference !in timeBucketsDict)
      && (r.Failure? ==> r.error == MissingBucket(difference))
      && (r.Success? ==> BatchReady(g, difference) && r.value == BatchAt(g, difference))
  {
    ghost var g := Generation(data, n, differencesDict, timeBucketsDict, k, numPairs, sample);
    SampledIndicesReady(g, difference);
    var idxPairs := sample(|differencesDict[difference]|, numPairs);
    r := GetSamplesAtDifference(data, n, difference, differencesDict, idxPairs, k, timeBucketsDict);
    if r.Success? {
      ExtractionIsBatch(g, difference, r.value);
    }
  }

  /** One pass: for each difference 0..maxFrameDiff, extract the batch, stack
      its pairs onto `X` (or replace `X` while it has no elements) and append
      its labels to `y`. The indices of each extraction are drawn here, right
      after the candidate lookup, rather than inside the extraction as in the
      source. */
  method GeneratePass<F>(
    data: seq<seq<F>>, ghost n: int, maxFrameDiff: int,
    numPairs: nat, k: int, differencesDict: map<int, seq<Candidate>>,
    timeBucketsDict: map<int, nat>, sample: (nat, nat) -> seq<nat>,
    X0: seq<StackPair<F>>, y0: seq<nat>)
    returns (r: Result<Samples<F>, LookupError>)
    requires Rectangular(data, n) && SamplerInRange(sample)
    requires forall d :: 0 <= d <= maxFrameDiff ==>
      CandidateReady(Generation(data, n, differencesDict, timeBucketsDict, k, numPairs, sample), d)
    ensures
      var g := Generation(data, n, differencesDict, timeBucketsDict, k, numPairs, sample);
      var missing := FirstUncovered(timeBucketsDict, 0, maxFrameDiff);
      if Extracts(g) && missing.Some? then
        r == Failure(MissingBucket(missing.value))
      else
        AllReady(g, maxFrameDiff) &&
        r.Success? &&
        r.value.y == y0 + PassBatches(g, maxFrameDiff + 1).y &&
        (k > 0 ==> r.value.X == X0 + PassBatches(g, maxFrameDiff + 1).X) &&
        (k <= 0 ==> r.value.X == LastBatchX(g, maxFrameDiff + 1, X0))
  {
    ghost var g := Generation(data, n, differencesDict, timeBucketsDict, k, numPairs, sample);
    var X, y := X0, y0;
    var difference := 0;
    while difference < maxFrameDiff + 1
      invariant 0 <= difference <= if maxFrameDiff + 1 >= 0 then maxFrameDiff + 1 else 0
      invariant forall e :: 0 <= e < difference ==> BatchReady(g, e)
      invariant Extracts(g) ==> forall e :: 0 <= e < difference ==> e in timeBucketsDict
      invariant y == y0 + PassBatches(g, difference).y
      invariant k > 0 ==> X == X0 + PassBatches(g, difference).X
      invariant k <= 0 ==> X == LastBatchX(g, difference, X0)
    {
      assert CandidateReady(g, difference);
      var res := ExtractBatch(data, n, difference, numPairs, k, differencesDict, timeBucketsDict, sample);
      if res.Failure? {
        FirstUncoveredIs(timeBucketsDict, difference, maxFrameDiff);
        return Failure(res.error);
      }
      PassStep(g, difference, X0, y0, X, y);
      X := if |X| > 0 && k > 0 then X + res.value.X else res.value.X;
      y := y + res.value.y;
      difference := difference + 1;
    }
    if maxFrameDiff + 1 < 0 {
      assert PassBatches(g, maxFrameDiff + 1) == PassBatches(g, difference);
    }
    if Extracts(g) {
      CoveredWhenReady(g, maxFrameDiff);
    }
    return Success(Samples(X, y));
  }
}
