/** Pair extraction of `get_samples_at_difference`: for every video and every
    chosen candidate index, the two stacks of frames ending at the candidate's
    last frames, labelled with the bucket of the difference. The random choice
    of indices is an input. */
module PairSampling {
  import opened Wrappers
  import opened FrameDifferences

  /** One sample: the frame stack ending at the first last-frame and the one
      ending at the second. */
  datatype StackPair<F> = StackPair(first: seq<F>, second: seq<F>)

  /** The two arrays the pipeline returns: pairs `X` and bucket labels `y`. */
  datatype Samples<F> = Samples(X: seq<StackPair<F>>, y: seq<nat>)

  /** The `KeyError`s the extraction can raise. */
  datatype LookupError = MissingDifference(difference: int) | MissingBucket(difference: int)

  /** All videos have `n` frames, as the rows of one numpy array do. */
  predicate Rectangular<F>(data: seq<seq<F>>, n: int)
  {
    forall v :: 0 <= v < |data| ==> |data[v]| == n
  }

  /** Every chosen index picks an existing candidate. */
  predicate IndicesInRange(idxPairs: seq<nat>, count: nat)
  {
    forall j :: 0 <= j < |idxPairs| ==> idxPairs[j] < count
  }

  /** `list(range(last - k + 1, last + 1))`: empty when `k <= 0`. */
  function FrameIndices(last: int, k: int): seq<int>
  {
    seq(if k > 0 then k else 0, i => last - k + 1 + i)
  }

  /** The frames of a stack of `k` ending at `last` lie in 0..n-1. */
  predicate StackFits(n: int, last: int, k: int)
  {
    k <= 0 || (0 <= last - k + 1 && last <= n - 1)
  }

  /** Both stacks of every candidate lie in 0..n-1. */
  predicate CandidatesFit(candidates: seq<Candidate>, n: int, k: int)
  {
    forall c :: 0 <= c < |candidates| ==>
      StackFits(n, candidates[c].0, k) && StackFits(n, candidates[c].1, k)
  }

  /** numpy fancy indexing `row[indices]` with in-range indices. */
  function Gather<F>(row: seq<F>, indices: seq<int>): (frames: seq<F>)
    requires forall i :: 0 <= i < |indices| ==> 0 <= indices[i] < |row|
    ensures |frames| == |indices|
    ensures forall i :: 0 <= i < |indices| ==> frames[i] == row[indices[i]]
  {
    if indices == [] then [] else [row[indices[0]]] + Gather(row, indices[1..])
  }

  /** The stack of `k` frames ending at frame `last`. */
  function Stack<F>(row: seq<F>, last: int, k: int): seq<F>
    requires StackFits(|row|, last, k)
  {
    Gather(row, FrameIndices(last, k))
  }

  /** The sample for one candidate of one video. */
  function PairAt<F>(row: seq<F>, candidate: Candidate, k: int): StackPair<F>
    requires StackFits(|row|, candidate.0, k) && StackFits(|row|, candidate.1, k)
  {
    StackPair(Stack(row, candidate.0, k), Stack(row, candidate.1, k))
  }

  /** The samples of one video, one per chosen index, in order. */
  function VideoPairs<F>(row: seq<F>, candidates: seq<Candidate>, idxPairs: seq<nat>, k: int): seq<StackPair<F>>
    requires IndicesInRange(idxPairs, |candidates|) && CandidatesFit(candidates, |row|, k)
  {
    seq(|idxPairs|, j requires 0 <= j < |idxPairs| => PairAt(row, candidates[idxPairs[j]], k))
  }

  /** The samples of all videos: videos are the outer loop, and every video
      uses the same chosen indices. */
  function AllVideoPairs<F>(data: seq<seq<F>>, n: int, candidates: seq<Candidate>, idxPairs: seq<nat>, k: int)
    : seq<StackPair<F>>
    requires Rectangular(data, n)
    requires IndicesInRange(idxPairs, |candidates|) && CandidatesFit(candidates, n, k)
    decreases |data|
  {
    if data == [] then []
    else (AllVideoPairs(data[..|data| - 1], n, candidates, idxPairs, k)
          + VideoPairs(data[|data| - 1], candidates, idxPairs, k))
  }

  /** Extracts the samples at `difference`. A difference missing from the
      candidate table is a `KeyError` straight away; a difference missing from
      the bucket table is one only once the loops reach their first
      (video, index) step, so it passes unnoticed when there are no videos or
      no indices. */
  method GetSamplesAtDifference<F>(
    data: seq<seq<F>>, ghost n: int, difference: int,
    differencesDict: map<int, seq<Candidate>>, idxPairs: seq<nat>,
    numFramesInStack: int, timeBucketsDict: map<int, nat>)
    returns (r: Result<Samples<F>, LookupError>)
    requires Rectangular(data, n)
    requires difference in differencesDict ==>
      IndicesInRange(idxPairs, |differencesDict[difference]|) &&
      CandidatesFit(differencesDict[difference], n, numFramesInStack)
    ensures difference !in differencesDict ==> r == Failure(MissingDifference(difference))
    ensures difference in differencesDict && |data| > 0 && |idxPairs| > 0 && difference !in timeBucketsDict ==>
      r == Failure(MissingBucket(difference))
    ensures difference in differencesDict && (|data| == 0 || |idxPairs| == 0 || difference in timeBucketsDict) ==>
      r.Success? &&
      r.value.X == AllVideoPairs(data, n, differencesDict[difference], idxPairs, numFramesInStack) &&
      |r.value.y| == |data| * |idxPairs| &&
      forall e :: 0 <= e < |r.value.y| ==>
        difference in timeBucketsDict && r.value.y[e] == timeBucketsDict[difference]
  {
    if difference !in differencesDict {
      return Failure(MissingDifference(difference));
    }
    var k := numFramesInStack;
    var candidates := differencesDict[difference];
    var videoPairs: seq<StackPair<F>> := [];
    var y: seq<nat> := [];
    ghost var bucketLabel := if difference in timeBucketsDict then timeBucketsDict[difference] else 0;
    var v := 0;
    while v < |data|
      invariant 0 <= v <= |data|
      invariant videoPairs == AllVideoPairs(data[..v], n, candidates, idxPairs, k)
      invariant |y| == v * |idxPairs|
      invariant |y| > 0 ==> difference in timeBucketsDict
      invariant forall e :: 0 <= e < |y| ==> y[e] == bucketLabel
    {
      var row := data[v];
      var j := 0;
      while j < |idxPairs|
        invariant 0 <= j <= |idxPairs|
        invariant videoPairs ==
          AllVideoPairs(data[..v], n, candidates, idxPairs, k) + VideoPairs(row, candidates, idxPairs[..j], k)
        invariant |y| == v * |idxPairs| + j
        invariant |y| > 0 ==> difference in timeBucketsDict
        invariant forall e :: 0 <= e < |y| ==> y[e] == bucketLabel
      {
        var (target1Last, target2Last) := candidates[idxPairs[j]];
        var target1Frames := FrameIndices(target1Last, k);
        var target2Frames := FrameIndices(target2Last, k);
        VideoPairsStep(row, candidates, idxPairs, k, j);
        videoPairs := videoPairs + [StackPair(Gather(row, target1Frames), Gather(row, target2Frames))];
        if difference !in timeBucketsDict {
          return Failure(MissingBucket(difference));
        }
        var bucket := timeBucketsDict[difference];
        y := y + [bucket];
        j := j + 1;
      }
      assert idxPairs[..j] == idxPairs;
      AllVideoPairsStep(data, n, candidates, idxPairs, k, v);
      assert |y| == (v + 1) * |idxPairs| by {
        assert (v + 1) * |idxPairs| == v * |idxPairs| + |idxPairs|;
      }
      v := v + 1;
    }
    assert data[..v] == data;
    return Success(Samples(videoPairs, y));
  }

  /** One more chosen index adds its pair at the end of a video's samples. */
  lemma VideoPairsStep<F>(row: seq<F>, candidates: seq<Candidate>, idxPairs: seq<nat>, k: int, j: int)
    requires IndicesInRange(idxPairs, |candidates|) && CandidatesFit(candidates, |row|, k)
    requires 0 <= j < |idxPairs|
    ensures VideoPairs(row, candidates, idxPairs[..j + 1], k)
      == VideoPairs(row, candidates, idxPairs[..j], k) + [PairAt(row, candidates[idxPairs[j]], k)]
  {
  }

  /** One more video adds its samples at the end. */
  lemma AllVideoPairsStep<F>(data: seq<seq<F>>, n: int, candidates: seq<Candidate>, idxPairs: seq<nat>, k: int, v: int)
    requires Rectangular(data, n)
    requires IndicesInRange(idxPairs, |candidates|) && CandidatesFit(candidates, n, k)
    requires 0 <= v < |data|
    ensures AllVideoPairs(data[..v + 1], n, candidates, idxPairs, k)
      == AllVideoPairs(data[..v], n, candidates, idxPairs, k) + VideoPairs(data[v], candidates, idxPairs, k)
  {
    assert data[..v + 1][..v] == data[..v];
  }

  /** A stack is the `k` consecutive frames of the video ending at `last`
      (nothing when `k <= 0`). */
  lemma StackIsContiguous<F>(row: seq<F>, last: int, k: int)
    requires StackFits(|row|, last, k)
    ensures k > 0 ==> Stack(row, last, k) == row[last - k + 1 .. last + 1]
    ensures k > 0 ==> |Stack(row, last, k)| == k && Stack(row, last, k)[k - 1] == row[last]
    ensures k <= 0 ==> Stack(row, last, k) == []
  {
  }

  /** The extraction output has |data| * |idxPairs| entries, and the entry of
      video `v` and chosen index `j` sits at `v * |idxPairs| + j` and holds the
      stacks of candidate `idxPairs[j]` cut from video `v`. */
  lemma {:induction false} AllVideoPairsAt<F>(
    data: seq<seq<F>>, n: int, candidates: seq<Candidate>, idxPairs: seq<nat>, k: int, v: int, j: int)
    requires Rectangular(data, n)
    requires IndicesInRange(idxPairs, |candidates|) && CandidatesFit(candidates, n, k)
    requires 0 <= v < |data| && 0 <= j < |idxPairs|
    ensures |AllVideoPairs(data, n, candidates, idxPairs, k)| == |data| * |idxPairs|
    ensures v * |idxPairs| + j < |data| * |idxPairs|
    ensures AllVideoPairs(data, n, candidates, idxPairs, k)[v * |idxPairs| + j]
      == PairAt(data[v], candidates[idxPairs[j]], k)
    decreases |data|
  {
    AllVideoPairsLength(data, n, candidates, idxPairs, k);
    var m := |idxPairs|;
    var init := data[..|data| - 1];
    AllVideoPairsLength(init, n, candidates, idxPairs, k);
    assert |init| * m + m == |data| * m;
    assert v * m + j < |data| * m by {
      assert v * m <= (|data| - 1) * m;
    }
    if v < |data| - 1 {
      AllVideoPairsAt(init, n, candidates, idxPairs, k, v, j);
      assert init[v] == data[v];
    } else {
      assert v * m + j == |init| * m + j;
    }
  }

  /** The output of the extraction has one entry per video and chosen index. */
  lemma {:induction false} AllVideoPairsLength<F>(
    data: seq<seq<F>>, n: int, candidates: seq<Candidate>, idxPairs: seq<nat>, k: int)
    requires Rectangular(data, n)
    requires IndicesInRange(idxPairs, |candidates|) && CandidatesFit(candidates, n, k)
    ensures |AllVideoPairs(data, n, candidates, idxPairs, k)| == |data| * |idxPairs|
    decreases |data|
  {
    if data != [] {
      AllVideoPairsLength(data[..|data| - 1], n, candidates, idxPairs, k);
      assert (|data| - 1) * |idxPairs| + |idxPairs| == |data| * |idxPairs|;
    }
  }

  /** Every candidate of the table fits in a video of `n` frames, so the
      extraction never indexes outside the videos. */
  lemma TableCandidatesFit(n: int, maxDiff: int, k: int, d: int)
    requires d in CandidateTable(n, maxDiff, k)
    ensures CandidatesFit(CandidateTable(n, maxDiff, k)[d], n, k)
  {
    var cands := CandidateTable(n, maxDiff, k)[d];
    forall c | 0 <= c < |cands|
      ensures StackFits(n, cands[c].0, k) && StackFits(n, cands[c].1, k)
    {
      CandidatePairBounds(n, maxDiff, k, d, c);
    }
  }
}
