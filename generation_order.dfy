/** Totals and order of what the generation loop of `get_paired_data`
    produces: every pass lists the differences 0..maxDiff in order, each as one
    batch of videos times drawn indices, and the passes repeat. */
module GenerationOrder {
  import opened TimeBuckets
  import opened PairSampling
  import opened PairedData

  /** Entries one extraction call produces: one per video and drawn index. */
  function BatchSize<F>(g: Generation<F>): nat
  {
    |g.data| * g.numPairs
  }

  /** Number of differences one pass visits: `len(range(maxDiff + 1))`. */
  function DiffCount(maxDiff: int): nat
  {
    if maxDiff >= 0 then maxDiff + 1 else 0
  }

  lemma {:induction false} RepeatLength<T>(s: seq<T>, p: int)
    requires p >= 0
    ensures |Repeat(s, p)| == p * |s|
    decreases p
  {
    if p > 0 {
      RepeatLength(s, p - 1);
      assert p * |s| == (p - 1) * |s| + |s|;
    }
  }

  /** Entry `j` of copy `q` sits at `q * |s| + j`. */
  lemma {:induction false} RepeatAt<T>(s: seq<T>, p: int, q: int, j: int)
    requires 0 <= q < p && 0 <= j < |s|
    ensures q * |s| + j < |Repeat(s, p)|
    ensures Repeat(s, p)[q * |s| + j] == s[j]
    decreases p
  {
    RepeatLength(s, p - 1);
    assert p * |s| == (p - 1) * |s| + |s|;
    assert Repeat(s, p) == Repeat(s, p - 1) + s;
    if q < p - 1 {
      RepeatAt(s, p - 1, q, j);
    }
  }

  /** In copies of `D` blocks of `M` entries, entry `e` of block `d` of copy
      `q` sits at `(q * D + d) * M + e`. */
  lemma RepeatBlockAt<T>(s: seq<T>, p: int, D: nat, M: nat, q: int, d: int, e: int)
    requires |s| == D * M
    requires 0 <= q < p && 0 <= d < D && 0 <= e < M
    ensures d * M + e < |s|
    ensures 0 <= (q * D + d) * M + e < |Repeat(s, p)|
    ensures Repeat(s, p)[(q * D + d) * M + e] == s[d * M + e]
  {
    BlockIndex(q, D, M, d, e);
    RepeatAt(s, p, q, d * M + e);
  }

  /** Entry `e` of block `d` of copy `q` is entry `d * M + e` of that copy. */
  lemma BlockIndex(q: int, D: nat, M: nat, d: int, e: int)
    requires 0 <= q && 0 <= d < D && 0 <= e < M
    ensures d * M + e < D * M
    ensures 0 <= (q * D + d) * M + e == q * (D * M) + (d * M + e)
  {
    assert d * M + e < (d + 1) * M <= D * M;
    assert (q * D + d) * M == q * (D * M) + d * M;
    assert 0 <= q * (D * M);
  }

  /** `p` copies of `D` blocks of `M` entries have `p * D * M` entries. */
  lemma RepeatBlocksLength<T>(s: seq<T>, p: int, D: nat, M: nat)
    requires |s| == D * M && p >= 0
    ensures |Repeat(s, p)| == p * D * M
  {
    RepeatLength(s, p);
    assert p * (D * M) == p * D * M;
  }

  /** Every element of a repetition is an element of the repeated sequence. */
  lemma {:induction false} RepeatMembers<T>(s: seq<T>, p: int, x: T)
    requires x in Repeat(s, p)
    ensures x in s
    decreases p
  {
    if p > 0 {
      assert Repeat(s, p) == Repeat(s, p - 1) + s;
      if x !in s {
        RepeatMembers(s, p - 1, x);
      }
    }
  }

  /** One extraction yields `BatchSize` pairs and as many labels, all equal to
      the bucket of its difference. */
  lemma BatchShape<F>(g: Generation<F>, d: int)
    requires Rectangular(g.data, g.n) && BatchReady(g, d)
    ensures |BatchAt(g, d).X| == BatchSize(g) && |BatchAt(g, d).y| == BatchSize(g)
    ensures BatchSize(g) > 0 ==> d in g.bt
    ensures forall e :: 0 <= e < BatchSize(g) ==> BatchAt(g, d).y[e] == g.bt[d]
  {
    AllVideoPairsLength(g.data, g.n, g.table[d], Indices(g, d), g.k);
  }

  /** A pass over the differences below `upTo` has `upTo` batches of pairs and
      of labels. */
  lemma {:induction false} PassBatchesLength<F>(g: Generation<F>, upTo: int)
    requires Rectangular(g.data, g.n)
    requires upTo >= 0 && forall d :: 0 <= d < upTo ==> BatchReady(g, d)
    ensures |PassBatches(g, upTo).X| == upTo * BatchSize(g)
    ensures |PassBatches(g, upTo).y| == upTo * BatchSize(g)
    decreases upTo
  {
    if upTo > 0 {
      PassBatchesLength(g, upTo - 1);
      BatchShape(g, upTo - 1);
      assert upTo * BatchSize(g) == (upTo - 1) * BatchSize(g) + BatchSize(g);
    }
  }

  /** Entry `e` of the batch of difference `d` sits at `d * BatchSize + e` of
      the pass: the batches come in the order of their differences. */
  lemma {:induction false} PassBatchesAt<F>(g: Generation<F>, upTo: int, d: int, e: int)
    requires Rectangular(g.data, g.n)
    requires forall x :: 0 <= x < upTo ==> BatchReady(g, x)
    requires 0 <= d < upTo && 0 <= e < BatchSize(g)
    ensures d * BatchSize(g) + e < |PassBatches(g, upTo).y| == |PassBatches(g, upTo).X|
    ensures |BatchAt(g, d).X| == BatchSize(g)
    ensures PassBatches(g, upTo).X[d * BatchSize(g) + e] == BatchAt(g, d).X[e]
    ensures d in g.bt && PassBatches(g, upTo).y[d * BatchSize(g) + e] == g.bt[d]
    decreases upTo
  {
    var M := BatchSize(g);
    PassBatchesLength(g, upTo - 1);
    BatchShape(g, upTo - 1);
    BatchShape(g, d);
    assert upTo * M == (upTo - 1) * M + M;
    if d < upTo - 1 {
      PassBatchesAt(g, upTo - 1, d, e);
    }
  }

  /** Every label of a pass is the bucket of some visited difference. */
  lemma {:induction false} PassLabelsAreBuckets<F>(g: Generation<F>, upTo: int, x: nat)
    requires Rectangular(g.data, g.n)
    requires forall d :: 0 <= d < upTo ==> BatchReady(g, d)
    requires x in PassBatches(g, upTo).y
    ensures exists d :: 0 <= d < upTo && d in g.bt && g.bt[d] == x
    decreases upTo
  {
    var last := upTo - 1;
    if x in BatchAt(g, last).y {
      BatchShape(g, last);
      var e :| 0 <= e < |BatchAt(g, last).y| && BatchAt(g, last).y[e] == x;
      assert last in g.bt && g.bt[last] == x;
    } else {
      PassLabelsAreBuckets(g, last, x);
    }
  }

  /** The generation totals: `passes * (maxDiff + 1) * |videos| * numPairs`
      labels, and as many pairs whenever the stacks are not empty. */
  lemma GenerationTotals<F>(g: Generation<F>, maxDiff: int, passes: int)
    requires Rectangular(g.data, g.n) && passes > 0 && AllReady(g, maxDiff)
    ensures |Generated(g, maxDiff, passes).y| == passes * DiffCount(maxDiff) * BatchSize(g)
    ensures g.k > 0 ==> |Generated(g, maxDiff, passes).X| == |Generated(g, maxDiff, passes).y|
  {
    var pass := PassBatches(g, DiffCount(maxDiff));
    assert pass == PassBatches(g, maxDiff + 1);
    PassBatchesLength(g, DiffCount(maxDiff));
    RepeatBlocksLength(pass.y, passes, DiffCount(maxDiff), BatchSize(g));
    if g.k > 0 {
      RepeatBlocksLength(pass.X, passes, DiffCount(maxDiff), BatchSize(g));
    }
  }

  /** The label order: pass `q`, difference `d`, entry `e` sits at
      `(q * (maxDiff + 1) + d) * BatchSize + e` and is the bucket of `d`. */
  lemma GeneratedLabelAt<F>(g: Generation<F>, maxDiff: int, passes: int, q: int, d: int, e: int)
    requires Rectangular(g.data, g.n) && passes > 0 && AllReady(g, maxDiff)
    requires 0 <= q < passes && 0 <= d <= maxDiff && 0 <= e < BatchSize(g)
    ensures 0 <= (q * (maxDiff + 1) + d) * BatchSize(g) + e < |Generated(g, maxDiff, passes).y|
    ensures d in g.bt && Generated(g, maxDiff, passes).y[(q * (maxDiff + 1) + d) * BatchSize(g) + e] == g.bt[d]
  {
    var pass := PassBatches(g, maxDiff + 1);
    PassBatchesAt(g, maxDiff + 1, d, e);
    PassBatchesLength(g, maxDiff + 1);
    RepeatBlockAt(pass.y, passes, maxDiff + 1, BatchSize(g), q, d, e);
  }

  /** The pair order: with non-empty stacks, entry `e` of the batch of
      difference `d` in pass `q` sits at `(q * (maxDiff + 1) + d) * BatchSize + e`;
      `BatchPairAt` says which pair that entry is. */
  lemma GeneratedBatchEntry<F>(g: Generation<F>, maxDiff: int, passes: int, q: int, d: int, e: int)
    requires Rectangular(g.data, g.n) && passes > 0 && AllReady(g, maxDiff) && g.k > 0
    requires 0 <= q < passes && 0 <= d <= maxDiff && 0 <= e < BatchSize(g)
    ensures BatchReady(g, d) && e < |BatchAt(g, d).X|
    ensures 0 <= (q * (maxDiff + 1) + d) * BatchSize(g) + e < |Generated(g, maxDiff, passes).X|
    ensures Generated(g, maxDiff, passes).X[(q * (maxDiff + 1) + d) * BatchSize(g) + e] == BatchAt(g, d).X[e]
  {
    var pass := PassBatches(g, maxDiff + 1);
    PassBatchesAt(g, maxDiff + 1, d, e);
    PassBatchesLength(g, maxDiff + 1);
    RepeatBlockAt(pass.X, passes, maxDiff + 1, BatchSize(g), q, d, e);
  }

  /** The pair of stacks of video `v` at the candidate drawn at `j` for
      difference `d`. */
  function DrawnPair<F>(g: Generation<F>, d: int, v: int, j: int): StackPair<F>
    requires Rectangular(g.data, g.n) && BatchReady(g, d)
    requires 0 <= v < |g.data| && 0 <= j < g.numPairs
  {
    PairAt(g.data[v], g.table[d][Indices(g, d)[j]], g.k)
  }

  /** Entry `v * numPairs + j` of a batch is the pair of stacks of video `v`
      at the candidate drawn at `j`. */
  lemma BatchPairAt<F>(g: Generation<F>, d: int, v: int, j: int)
    requires Rectangular(g.data, g.n) && BatchReady(g, d)
    requires 0 <= v < |g.data| && 0 <= j < g.numPairs
    ensures v * g.numPairs + j < BatchSize(g) == |BatchAt(g, d).X|
    ensures BatchAt(g, d).X[v * g.numPairs + j] == DrawnPair(g, d, v, j)
  {
    AllVideoPairsAt(g.data, g.n, g.table[d], Indices(g, d), g.k, v, j);
  }

  /** Every generated label is the class of a difference 0..maxDiff, hence a
      bucket index in range when the table comes from `buckets`. */
  lemma GeneratedLabelsAreClasses<F>(g: Generation<F>, maxDiff: int, passes: int, buckets: seq<seq<int>>, x: nat)
    requires Rectangular(g.data, g.n) && passes > 0 && AllReady(g, maxDiff)
    requires g.bt == BucketTable(buckets)
    requires x in Generated(g, maxDiff, passes).y
    ensures exists d :: 0 <= d <= maxDiff && d in g.bt && g.bt[d] == x
    ensures x < |buckets|
  {
    var pass := PassBatches(g, maxDiff + 1);
    RepeatMembers(pass.y, passes, x);
    PassLabelsAreBuckets(g, maxDiff + 1, x);
    BucketTableRange(buckets);
  }

  /** With empty stacks (`k <= 0`) every pairs array has no element, so the
      accumulated pairs are replaced at each step: only the last batch is left,
      and with more than one batch there are fewer pairs than labels. */
  lemma EmptyStacksKeepLastBatch<F>(g: Generation<F>, maxDiff: int, passes: int)
    requires Rectangular(g.data, g.n) && passes > 0 && AllReady(g, maxDiff) && g.k <= 0
    ensures |Generated(g, maxDiff, passes).X| == if maxDiff >= 0 then BatchSize(g) else 0
    ensures passes * DiffCount(maxDiff) > 1 && BatchSize(g) > 0 ==>
      |Generated(g, maxDiff, passes).X| < |Generated(g, maxDiff, passes).y|
  {
    GenerationTotals(g, maxDiff, passes);
    if maxDiff >= 0 {
      BatchShape(g, maxDiff);
    }
    if passes * DiffCount(maxDiff) > 1 && BatchSize(g) > 0 {
      MoreThanOneBlock(passes * DiffCount(maxDiff), BatchSize(g));
    }
  }

  /** More than one block of `M > 0` entries has more than `M` entries. */
  lemma MoreThanOneBlock(c: int, M: int)
    requires c > 1 && M > 0
    ensures c * M > M
  {
    assert c * M == (c - 1) * M + M;
  }
}
