/** The time-bucket table of `get_time_buckets_dict`: a map from every time
    difference listed in some bucket to the 0-based index of a bucket that
    lists it. */
module TimeBuckets {

  /** The table after the buckets of `buckets` have been processed in order.
      Later buckets overwrite earlier ones (map union is right-biased). */
  function BucketTable(buckets: seq<seq<int>>): map<int, nat>
    decreases |buckets|
  {
    if buckets == [] then map[]
    else BucketTable(buckets[..|buckets| - 1]) + BucketEntries(buckets[|buckets| - 1], |buckets| - 1)
  }

  /** Every time of one bucket, mapped to that bucket's index. */
  function BucketEntries(bucket: seq<int>, idx: nat): map<int, nat>
  {
    map t | t in bucket :: idx
  }

  /** Some bucket lists time `t`. */
  predicate Listed(buckets: seq<seq<int>>, t: int)
  {
    exists i :: 0 <= i < |buckets| && t in buckets[i]
  }

  /** No two buckets share a time. */
  predicate Disjoint(buckets: seq<seq<int>>)
  {
    forall i, j, t :: 0 <= i < j < |buckets| && t in buckets[i] ==> t !in buckets[j]
  }

  /** Builds the table with the two nested loops of the source: the inner loop
      assigns the current bucket index to each of the bucket's times. */
  method GetTimeBucketsDict(timeBuckets: seq<seq<int>>) returns (bucketsDict: map<int, nat>)
    ensures bucketsDict == BucketTable(timeBuckets)
  {
    bucketsDict := map[];
    var bucketIdx := 0;
    while bucketIdx < |timeBuckets|
      invariant 0 <= bucketIdx <= |timeBuckets|
      invariant bucketsDict == BucketTable(timeBuckets[..bucketIdx])
    {
      var bucket := timeBuckets[bucketIdx];
      ghost var before := bucketsDict;
      var j := 0;
      while j < |bucket|
        invariant 0 <= j <= |bucket|
        invariant bucketsDict == before + BucketEntries(bucket[..j], bucketIdx)
      {
        assert bucket[..j + 1] == bucket[..j] + [bucket[j]];
        bucketsDict := bucketsDict[bucket[j] := bucketIdx];
        j := j + 1;
      }
      assert bucket[..j] == bucket;
      assert timeBuckets[..bucketIdx + 1][..bucketIdx] == timeBuckets[..bucketIdx];
      bucketIdx := bucketIdx + 1;
    }
    assert timeBuckets[..bucketIdx] == timeBuckets;
  }

  /** The keys are exactly the times listed in some bucket; each time maps to a
      bucket index in range, that bucket lists it, and no later bucket does:
      the last bucket listing a time wins. */
  lemma {:induction false} BucketTableLastWins(buckets: seq<seq<int>>, t: int)
    ensures t in BucketTable(buckets) <==> Listed(buckets, t)
    ensures t in BucketTable(buckets) ==>
      var i := BucketTable(buckets)[t];
      i < |buckets| && t in buckets[i] &&
      forall j :: i < j < |buckets| ==> t !in buckets[j]
    decreases |buckets|
  {
    if buckets != [] {
      var init := buckets[..|buckets| - 1];
      var last := |buckets| - 1;
      BucketTableLastWins(init, t);
      if t in buckets[last] {
        assert Listed(buckets, t);
      } else {
        if Listed(buckets, t) {
          var i :| 0 <= i < |buckets| && t in buckets[i];
          assert i < last && init[i] == buckets[i];
          assert Listed(init, t);
        }
        if Listed(init, t) {
          var i :| 0 <= i < |init| && t in init[i];
          assert buckets[i] == init[i];
        }
      }
    }
  }

  /** Every value of the table is a bucket index in [0, |buckets|). */
  lemma BucketTableRange(buckets: seq<seq<int>>)
    ensures forall t :: t in BucketTable(buckets) ==> BucketTable(buckets)[t] < |buckets|
  {
    forall t | t in BucketTable(buckets)
      ensures BucketTable(buckets)[t] < |buckets|
    {
      BucketTableLastWins(buckets, t);
    }
  }

  /** With disjoint buckets, each listed time maps to the one bucket listing it. */
  lemma BucketTableDisjoint(buckets: seq<seq<int>>, i: int, t: int)
    requires Disjoint(buckets)
    requires 0 <= i < |buckets| && t in buckets[i]
    ensures t in BucketTable(buckets) && BucketTable(buckets)[t] == i
  {
    BucketTableLastWins(buckets, t);
  }

  /** The buckets configured by the training script: 0, 1, 2, 3-4, 5-10 and
      11-19. */
  function TrainingBuckets(): seq<seq<int>>
  {
    [[0], [1], [2], [3, 4], seq(6, i => 5 + i), seq(9, i => 11 + i)]
  }

  /** For the training configuration every difference 0..19 is in the table and
      maps to the bucket that lists it. */
  lemma TrainingBucketsCover(d: int)
    requires 0 <= d <= 19
    ensures d in BucketTable(TrainingBuckets())
    ensures BucketTable(TrainingBuckets())[d] ==
      if d <= 2 then d else if d <= 4 then 3 else if d <= 10 then 4 else 5
  {
    var b := TrainingBuckets();
    assert Disjoint(b) by {
      forall i, j, t | 0 <= i < j < |b| && t in b[i]
        ensures t !in b[j]
      {
        if t in b[j] {
          var p :| 0 <= p < |b[i]| && b[i][p] == t;
          var q :| 0 <= q < |b[j]| && b[j][q] == t;
        }
      }
    }
    var i := if d <= 2 then d else if d <= 4 then 3 else if d <= 10 then 4 else 5;
    if d <= 2 { assert b[i][0] == d; }
    else if d <= 4 { assert b[i][d - 3] == d; }
    else if d <= 10 { assert b[i][d - 5] == d; }
    else { assert b[i][d - 11] == d; }
    BucketTableDisjoint(b, i, d);
  }
}
