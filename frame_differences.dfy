/** The candidate table of `get_frame_differences_dict`: for each time
    difference, the (start, end) last-frame pairs of a video that are exactly
    that far apart and leave room for a stack of frames ending at each. */
module FrameDifferences {

  /** A candidate: the last frame of the first stack and of the second stack. */
  type Candidate = (int, int)

  /** Reference definition: the pairs at difference `diff`, in the order the
      source's while loop appends them. The first start is `k - 1`, the last
      end is `n - 1`. */
  function PairsAtDifference(n: int, diff: int, k: int): seq<Candidate>
  {
    var count := n - k - diff + 1;
    seq(if count > 0 then count else 0, i => (k - 1 + i, k - 1 + diff + i))
  }

  /** The table restricted to the differences below `upTo`: a key exists only
      when at least one pair fits. */
  function CandidatesBelow(n: int, upTo: int, k: int): map<int, seq<Candidate>>
  {
    map d | 0 <= d < upTo && d <= n - k :: PairsAtDifference(n, d, k)
  }

  /** The whole table for differences 0..maxDiff. */
  function CandidateTable(n: int, maxDiff: int, k: int): map<int, seq<Candidate>>
  {
    CandidatesBelow(n, maxDiff + 1, k)
  }

  /** Builds the table as the source does: for each difference a while loop
      walks a window of fixed width forward and appends each pair through
      `setdefault`, so a key appears only once a pair has been appended. */
  method GetFrameDifferencesDict(numTotalFrames: int, maxFrameDiff: int, numFramesInStack: int)
    returns (differencesDict: map<int, seq<Candidate>>)
    ensures differencesDict == CandidateTable(numTotalFrames, maxFrameDiff, numFramesInStack)
  {
    var n, k := numTotalFrames, numFramesInStack;
    differencesDict := map[];
    var diff := 0;
    while diff < maxFrameDiff + 1
      invariant 0 <= diff
      invariant diff <= if maxFrameDiff + 1 >= 0 then maxFrameDiff + 1 else 0
      invariant differencesDict == CandidatesBelow(n, diff, k)
    {
      ghost var before := differencesDict;
      ghost var pairs := PairsAtDifference(n, diff, k);
      var startFrame := k - 1;
      var endFrame := startFrame + diff;
      while endFrame <= n - 1
        invariant endFrame == startFrame + diff
        invariant k - 1 <= startFrame
        invariant startFrame - (k - 1) <= |pairs|
        invariant startFrame - (k - 1) < |pairs| <==> endFrame <= n - 1
        invariant differencesDict ==
          if startFrame == k - 1 then before
          else before[diff := pairs[..startFrame - (k - 1)]]
        decreases n - endFrame
      {
        var soFar := if diff in differencesDict then differencesDict[diff] else [];
        assert pairs[startFrame - (k - 1)] == (startFrame, endFrame);
        assert pairs[..startFrame - (k - 1) + 1] == pairs[..startFrame - (k - 1)] + [(startFrame, endFrame)];
        differencesDict := differencesDict[diff := soFar + [(startFrame, endFrame)]];
        startFrame := startFrame + 1;
        endFrame := endFrame + 1;
      }
      assert pairs[..|pairs|] == pairs;
      assert differencesDict == CandidatesBelow(n, diff + 1, k);
      diff := diff + 1;
    }
    if maxFrameDiff + 1 < 0 {
      assert differencesDict.Keys == {};
      assert CandidateTable(n, maxFrameDiff, k).Keys == {};
    }
  }

  /** Every stored pair is exactly its key apart, starts no earlier than
      `k - 1` and ends no later than `n - 1`; so for `k >= 1` both stacks of
      `k` frames lie inside the video's frames 0..n-1. */
  lemma CandidatePairBounds(n: int, maxDiff: int, k: int, d: int, c: int)
    requires d in CandidateTable(n, maxDiff, k)
    requires 0 <= c < |CandidateTable(n, maxDiff, k)[d]|
    ensures var (start, end) := CandidateTable(n, maxDiff, k)[d][c];
      end - start == d && k - 1 <= start && end <= n - 1 &&
      (k >= 1 ==> 0 <= start - k + 1 && 0 <= end - k + 1 && start <= n - 1)
  {
  }

  /** Keys are the differences 0..maxDiff for which a pair fits; the list for
      `d` has max(0, n - k - d + 1) pairs whose starts run k - 1, k, k + 1, ...
      without gaps. */
  lemma CandidateListShape(n: int, maxDiff: int, k: int, d: int)
    ensures d in CandidateTable(n, maxDiff, k) <==> 0 <= d <= maxDiff && n - k - d + 1 > 0
    ensures d in CandidateTable(n, maxDiff, k) ==>
      var pairs := CandidateTable(n, maxDiff, k)[d];
      |pairs| == n - k - d + 1 &&
      forall c :: 0 <= c < |pairs| ==> pairs[c].0 == k - 1 + c
  {
  }

  /** The source's assertion `maxDiff <= n - k` makes every lookup of a
      difference 0..maxDiff succeed with a non-empty list, so choosing an index
      among the candidates is always possible. */
  lemma AssertGuaranteesCandidates(n: int, maxDiff: int, k: int, d: int)
    requires maxDiff <= n - k
    requires 0 <= d <= maxDiff
    ensures d in CandidateTable(n, maxDiff, k)
    ensures |CandidateTable(n, maxDiff, k)[d]| > 0
  {
  }
}
