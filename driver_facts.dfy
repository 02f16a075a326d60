/** What `get_paired_data` promises as a whole: the configuration assertion
    comes before the cache, a run that generates saves what it returns under
    the two cache names, a later unforced run returns exactly that, and a
    generated result has the expected totals and class labels. */
module DriverFacts {
  import opened Wrappers
  import opened TimeBuckets
  import opened PairSampling
  import opened CacheName
  import opened PairedData
  import opened GenerationOrder

  /** The pickles for `filename` are both on disk. */
  predicate Cached<F>(filename: string, disk: Disk<F>)
  {
    var names := CacheFileNames(filename);
    names.0 in disk.xs && names.1 in disk.ys
  }

  /** A failing configuration assertion fails the call whatever the cache
      holds: the check comes before the cache lookup. */
  lemma AssertBeforeCache<F>(
    filename: string, timeBuckets: seq<seq<int>>, data: seq<seq<F>>, n: int,
    numPasses: int, numPairs: nat, k: int, force: bool, disk: Disk<F>,
    sample: (nat, nat) -> seq<nat>)
    requires Rectangular(data, n) && SamplerInRange(sample)
    requires AllTimes(timeBuckets) != [] && MaxTime(AllTimes(timeBuckets)) > n - k
    ensures PairedDataSpec(filename, timeBuckets, data, n, numPasses, numPairs, k, force, disk, sample)
      == Failure(ConfigAssertion)
  {
  }

  /** An unforced call with both pickles present returns them and leaves the
      disk alone, once the configuration checks pass. */
  lemma CacheHit<F>(
    filename: string, timeBuckets: seq<seq<int>>, data: seq<seq<F>>, n: int,
    numPasses: int, numPairs: nat, k: int, disk: Disk<F>,
    sample: (nat, nat) -> seq<nat>)
    requires Rectangular(data, n) && SamplerInRange(sample)
    requires AllTimes(timeBuckets) != [] && MaxTime(AllTimes(timeBuckets)) <= n - k
    requires Cached(filename, disk)
    ensures
      var names := CacheFileNames(filename);
      PairedDataSpec(filename, timeBuckets, data, n, numPasses, numPairs, k, false, disk, sample)
        == Success((Samples(disk.xs[names.0], disk.ys[names.1]), disk))
  {
  }

  /** Every successful call leaves its result on disk under the cache names:
      a call that generates saves it, a cache hit found it there. */
  lemma ResultIsOnDisk<F>(
    filename: string, timeBuckets: seq<seq<int>>, data: seq<seq<F>>, n: int,
    numPasses: int, numPairs: nat, k: int, force: bool, disk: Disk<F>,
    sample: (nat, nat) -> seq<nat>)
    requires Rectangular(data, n) && SamplerInRange(sample)
    requires PairedDataSpec(filename, timeBuckets, data, n, numPasses, numPairs, k, force, disk, sample).Success?
    ensures
      var (s, after) := PairedDataSpec(filename, timeBuckets, data, n, numPasses, numPairs, k, force, disk, sample).value;
      var names := CacheFileNames(filename);
      Cached(filename, after) && after.xs[names.0] == s.X && after.ys[names.1] == s.y
  {
  }

  /** The cache round trip: after a successful call, an unforced call with the
      same file name, buckets and stack size returns the same samples and
      leaves the disk as it is. The cache names depend on the file name alone,
      so the number of passes and of pairs of the second call play no part. */
  lemma {:induction false} CacheRoundTrip<F>(
    filename: string, timeBuckets: seq<seq<int>>, data: seq<seq<F>>, n: int,
    numPasses: int, numPairs: nat, k: int, force: bool, disk: Disk<F>,
    sample: (nat, nat) -> seq<nat>, numPasses2: int, numPairs2: nat)
    requires Rectangular(data, n) && SamplerInRange(sample)
    requires PairedDataSpec(filename, timeBuckets, data, n, numPasses, numPairs, k, force, disk, sample).Success?
    ensures
      var (s, after) := PairedDataSpec(filename, timeBuckets, data, n, numPasses, numPairs, k, force, disk, sample).value;
      PairedDataSpec(filename, timeBuckets, data, n, numPasses2, numPairs2, k, false, after, sample)
        == Success((s, after))
  {
    var (s, after) := PairedDataSpec(filename, timeBuckets, data, n, numPasses, numPairs, k, force, disk, sample).value;
    ResultIsOnDisk(filename, timeBuckets, data, n, numPasses, numPairs, k, force, disk, sample);
    CacheHit(filename, timeBuckets, data, n, numPasses2, numPairs2, k, after, sample);
  }

  /** A forced call does not depend on what the disk holds: it fails or
      generates the same samples for any two disks. */
  lemma ForcedIgnoresDisk<F>(
    filename: string, timeBuckets: seq<seq<int>>, data: seq<seq<F>>, n: int,
    numPasses: int, numPairs: nat, k: int, disk1: Disk<F>, disk2: Disk<F>,
    sample: (nat, nat) -> seq<nat>)
    requires Rectangular(data, n) && SamplerInRange(sample)
    ensures
      var r1 := PairedDataSpec(filename, timeBuckets, data, n, numPasses, numPairs, k, true, disk1, sample);
      var r2 := PairedDataSpec(filename, timeBuckets, data, n, numPasses, numPairs, k, true, disk2, sample);
      r1.Success? == r2.Success? &&
      (r1.Failure? ==> r1.error == r2.error) &&
      (r1.Success? ==> r1.value.0 == r2.value.0)
  {
  }

  /** A call that generates returns
      `max(numPasses, 0) * (maxDiff + 1) * |videos| * numPairs` labels, each a
      bucket index in range, and as many pairs when the stacks are not
      empty. */
  lemma FreshGeneration<F>(
    filename: string, timeBuckets: seq<seq<int>>, data: seq<seq<F>>, n: int,
    numPasses: int, numPairs: nat, k: int, force: bool, disk: Disk<F>,
    sample: (nat, nat) -> seq<nat>)
    requires Rectangular(data, n) && SamplerInRange(sample)
    requires force || !Cached(filename, disk)
    requires PairedDataSpec(filename, timeBuckets, data, n, numPasses, numPairs, k, force, disk, sample).Success?
    ensures AllTimes(timeBuckets) != []
    ensures
      var s := PairedDataSpec(filename, timeBuckets, data, n, numPasses, numPairs, k, force, disk, sample).value.0;
      var passes := if numPasses > 0 then numPasses else 0;
      && |s.y| == passes * DiffCount(MaxTime(AllTimes(timeBuckets))) * (|data| * numPairs)
      && (k > 0 ==> |s.X| == |s.y|)
      && (forall x :: x in s.y ==> x < |timeBuckets|)
  {
    var times := AllTimes(timeBuckets);
    var maxDiff := MaxTime(times);
    var bt := BucketTable(timeBuckets);
    var g := Generation(data, n, FrameDifferences.CandidateTable(n, maxDiff, k), bt, k, numPairs, sample);
    var s := PairedDataSpec(filename, timeBuckets, data, n, numPasses, numPairs, k, force, disk, sample).value.0;
    if numPasses > 0 {
      GenerationReady(g, maxDiff);
      assert s == Generated(g, maxDiff, numPasses);
      GenerationTotals(g, maxDiff, numPasses);
      forall x | x in s.y
        ensures x < |timeBuckets|
      {
        GeneratedLabelsAreClasses(g, maxDiff, numPasses, timeBuckets, x);
      }
    }
  }
}
