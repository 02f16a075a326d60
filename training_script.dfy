/** The call of `get_paired_data` in the training script: the file
    `mnist_test_seq.npy` (Moving MNIST, videos of 20 frames), the six training
    buckets, one pass and one pair per video, no forced regeneration. The call
    leaves `num_frames_in_stack` at its default of 2 although the script
    defines a stack size of 1. */
module TrainingScript {
  import opened Wrappers
  import opened TimeBuckets
  import opened PairSampling
  import opened PairedData
  import opened DriverFacts

  /** Frames per Moving MNIST video. */
  const VideoFrames := 20

  /** Default `num_frames_in_stack` of `get_paired_data`. */
  const DefaultStack := 2

  /** `NUM_FRAMES_IN_STACK` of the training script. */
  const ScriptStack := 1

  /** The call as the script makes it. */
  function ScriptCall<F>(data: seq<seq<F>>, disk: Disk<F>, sample: (nat, nat) -> seq<nat>)
    : Result<(Samples<F>, Disk<F>), GenerationError>
    requires Rectangular(data, VideoFrames) && SamplerInRange(sample)
  {
    PairedDataSpec("mnist_test_seq.npy", TrainingBuckets(), data, VideoFrames, 1, 1, DefaultStack, false, disk, sample)
  }

  /** The call with the script's own stack size passed on. */
  function IntendedCall<F>(data: seq<seq<F>>, disk: Disk<F>, sample: (nat, nat) -> seq<nat>)
    : Result<(Samples<F>, Disk<F>), GenerationError>
    requires Rectangular(data, VideoFrames) && SamplerInRange(sample)
  {
    PairedDataSpec("mnist_test_seq.npy", TrainingBuckets(), data, VideoFrames, 1, 1, ScriptStack, false, disk, sample)
  }

  /** No training time exceeds 19. */
  lemma TrainingTimesBound(t: int)
    requires Listed(TrainingBuckets(), t)
    ensures t <= 19
  {
    var b := TrainingBuckets();
    var i :| 0 <= i < |b| && t in b[i];
  }

  /** The largest training difference is 19, and no training bucket is
      empty. */
  lemma TrainingMaximum()
    ensures AllTimes(TrainingBuckets()) != []
    ensures MaxTime(AllTimes(TrainingBuckets())) == 19
    ensures !HasEmptyBucket(TrainingBuckets())
  {
    var b := TrainingBuckets();
    assert b[5][8] == 19;
    assert Listed(b, 19);
    var times := AllTimes(b);
    assert 19 in times;
    var m := MaxTime(times);
    TrainingTimesBound(m);
    var p :| 0 <= p < |times| && times[p] == 19;
    assert times[p] <= m;
    assert forall i :: 0 <= i < |b| ==> |b[i]| > 0;
  }

  /** As written, the call always fails the configuration assertion: stacks
      of two frames leave room for differences up to 18 only, and the check
      comes before the cache, so even cached pickles are never reached. */
  lemma ScriptCallFails<F>(data: seq<seq<F>>, disk: Disk<F>, sample: (nat, nat) -> seq<nat>)
    requires Rectangular(data, VideoFrames) && SamplerInRange(sample)
    ensures ScriptCall(data, disk, sample) == Failure(ConfigAssertion)
  {
    TrainingMaximum();
    AssertBeforeCache("mnist_test_seq.npy", TrainingBuckets(), data, VideoFrames, 1, 1, DefaultStack, false, disk, sample);
  }

  /** With stacks of one frame the call succeeds. Without cached pickles it
      generates one pair per video and difference 0..19, labelled with the
      training classes 0..5, and saves them. */
  lemma IntendedCallSucceeds<F>(data: seq<seq<F>>, disk: Disk<F>, sample: (nat, nat) -> seq<nat>)
    requires Rectangular(data, VideoFrames) && SamplerInRange(sample)
    ensures IntendedCall(data, disk, sample).Success?
    ensures !Cached("mnist_test_seq.npy", disk) ==>
      var s := IntendedCall(data, disk, sample).value.0;
      |s.X| == |s.y| == 20 * |data| && forall x :: x in s.y ==> x < 6
  {
    TrainingMaximum();
    var bt := BucketTable(TrainingBuckets());
    forall d | 0 <= d <= 19
      ensures d in bt
    {
      TrainingBucketsCover(d);
    }
    assert FirstUncovered(bt, 0, 19).None?;
    if !Cached("mnist_test_seq.npy", disk) {
      FreshGeneration("mnist_test_seq.npy", TrainingBuckets(), data, VideoFrames, 1, 1, ScriptStack, false, disk, sample);
    }
  }
}
