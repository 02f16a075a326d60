# Moving MNIST frame-pair generation, modelled in Dafny

This project models the index logic of `capstone_project/preprocessing.py`. That module turns Moving MNIST videos into a supervised data set. Each sample is a pair of short stacks of consecutive frames from one video, labelled with the class ("time bucket") of the time gap between the stacks.

The model covers these parts of the source:

- **Bucket table** (`get_time_buckets_dict`): maps every listed time difference to the index of its bucket. It is module `TimeBuckets`, an imperative method with nested loops, proved equal to a recursive reference table.
- **Candidate table** (`get_frame_differences_dict`): for every difference `d` in `0..max_frame_diff`, the `(start, end)` last-frame pairs `d` apart that leave room for a stack. It is module `FrameDifferences`, the source's `while`/`setdefault` loop proved equal to a closed form.
- **Pair extraction** (`get_samples_at_difference`): the drawn candidate indices become pairs of frame stacks and labels, with videos as the outer loop. It is module `PairSampling`. The drawn indices are an input.
- **Generation driver** (`get_paired_data`): derives the largest difference from the buckets and checks the configuration assertion. It then looks for the two cached pickles, generates the pairs otherwise, and "saves" them.
  - Module `CacheName` covers the cache base name and file names.
  - Module `PairedData` holds a specification function of the whole call and the imperative pass/difference loops proved against it.
  - Module `GenerationOrder` holds the totals and the order of the generated pairs and labels.
  - Module `DriverFacts` holds the properties of the whole call, including the cache round trip.
- **Data set and split sizes** (`MovingMNISTDataset`, and the size arithmetic of `generate_dataloader`): module `Dataset`.
- **The training script's call** (`main.py`): module `TrainingScript` models the one call of `get_paired_data` in `main.py`, with its constants.

Frames are an opaque type parameter `F`. A video is a `seq<F>`, and the loaded data is a sequence of videos of equal length (`Rectangular`).

The disk holding the pickles is a value `Disk`: two maps from file name to the stored pairs or labels. Saving is a map update and returns the new disk.

`np.random.seed(1337)` followed by `np.random.choice(len, size)` is a sampler function `sample(len, size)`. It is reseeded on every call, so it depends only on its arguments, and every pass draws the same indices for a difference. `SamplerInRange` states what `choice` guarantees: `size` indices below `len` whenever `len > 0`.

Behaviour of the code that the model keeps as written:

- **Times that are listed twice or not at all.** Buckets are not required to partition the differences. A time listed in several buckets gets the last bucket's index. A difference in `0..max_frame_diff` with no bucket raises `KeyError`, but only once an extraction runs its inner loop: it needs at least one video and one pair per video.
- **No times or an empty bucket.** With no times at all, `np.hstack`/`.max()` raise `ValueError` (`NoTimes`), before the assertion. An empty bucket makes numpy stack the times as floats, so `range(max_frame_diff + 1)` raises `TypeError` (`NonIntegerMaxDiff`). That happens only after the cache lookup.
- **Empty stacks.** With `num_frames_in_stack <= 0` every stack is empty, so `X.size` stays 0. Each step then replaces `X` instead of stacking onto it: `X` keeps only the last batch, while `y` keeps every label (`EmptyStacksKeepLastBatch`).

## Model

| member | source | states |
|---|---|---|
| TimeBuckets.GetTimeBucketsDict | capstone_project/preprocessing.py:22-35 | the nested loops build exactly the table of the buckets processed in order, later buckets overwriting earlier ones |
| TimeBuckets.BucketTableLastWins | capstone_project/preprocessing.py:28-33 | a time is a key iff some bucket lists it; its value is a bucket index in range, that bucket lists the time, and no later bucket does |
| TimeBuckets.BucketTableRange | capstone_project/preprocessing.py:28-33 | every value of the table is a bucket index in `[0, len(time_buckets))` |
| TimeBuckets.BucketTableDisjoint | capstone_project/preprocessing.py:30-33 | with pairwise disjoint buckets every listed time maps to the one bucket listing it |
| TimeBuckets.TrainingBucketsCover | main.py:46 | for the training buckets every difference 0..19 is a key, mapped to classes 0, 1, 2, 3 (3-4), 4 (5-10) and 5 (11-19) |
| FrameDifferences.GetFrameDifferencesDict | capstone_project/preprocessing.py:37-54 | the loop with `setdefault(...).append` builds exactly the closed-form candidate table |
| FrameDifferences.CandidatePairBounds | capstone_project/preprocessing.py:47-52 | every stored pair is exactly its key apart, starts at or after `k-1` and ends at or before `n-1`, so for `k >= 1` both stacks lie inside the video |
| FrameDifferences.CandidateListShape | capstone_project/preprocessing.py:45-52 | key `d` exists iff `0 <= d <= max_frame_diff` and a pair fits; its list has `n-k-d+1` pairs whose starts are `k-1, k, k+1, ...` without gaps |
| FrameDifferences.AssertGuaranteesCandidates | capstone_project/preprocessing.py:84-87 | under the assertion every difference `0..max_frame_diff` has a non-empty candidate list, so lookup and index choice succeed |
| PairSampling.Gather | capstone_project/preprocessing.py:72 | fancy indexing `row[frames]` has one frame per index, each the frame at that index |
| PairSampling.StackIsContiguous | capstone_project/preprocessing.py:70-71 | `FrameIndices`, which models the index range, and `Stack` give the `k` consecutive frames ending at the given last frame, and nothing for `k <= 0` |
| PairSampling.GetSamplesAtDifference | capstone_project/preprocessing.py:56-76 | `KeyError` for a missing difference, and for a missing bucket exactly when the inner loop runs; otherwise the pairs of every video and drawn index in loop order, `len(data) * num_pairs` labels, each the bucket of the difference |
| PairSampling.AllVideoPairsAt | capstone_project/preprocessing.py:67-74 | entry `v * num_pairs + j` is the pair of video `v` at candidate `idx_pairs[j]`: videos are the outer loop and reuse the same indices |
| PairSampling.AllVideoPairsLength | capstone_project/preprocessing.py:67-74 | an extraction yields `len(data) * len(idx_pairs)` pairs |
| PairSampling.TableCandidatesFit | capstone_project/preprocessing.py:70-72 | every candidate of the table gives two stacks inside the video |
| CacheName.SplitDots | capstone_project/preprocessing.py:89 | `split('.')` gives at least one segment and no segment holds a dot |
| CacheName.JoinSplit | capstone_project/preprocessing.py:89 | joining the split segments with dots gives the name back |
| CacheName.CacheBaseNameDropsLastSegment | capstone_project/preprocessing.py:89 | `CacheBaseName`, which models the split-and-join, is the file name up to its last dot, and empty when there is no dot |
| CacheName.CacheFileNames | capstone_project/preprocessing.py:89-91 | the pairs and the labels pickles have different names |
| PairedData.AllTimes | capstone_project/preprocessing.py:84 | `np.hstack` of the buckets holds exactly the listed times |
| PairedData.MaxTime | capstone_project/preprocessing.py:84 | `.max()` is one of the times and no time exceeds it |
| PairedData.FirstUncovered | capstone_project/preprocessing.py:105-106 | the first difference whose bucket lookup fails: none missing, or that one missing and all before it present |
| PairedData.GetPairedData | capstone_project/preprocessing.py:78-114 | the whole call equals `PairedDataSpec`: `NoTimes`, the assertion, the cache hit, the `TypeError` of an empty bucket, the first missing bucket, or the generated arrays saved under both cache names |
| PairedData.GenerationLoop | capstone_project/preprocessing.py:102-109 | the pass loop fails at the first difference without a bucket, or returns `Generated`, in which every pass repeats the same batches |
| PairedData.ExtractBatch | capstone_project/preprocessing.py:63-65 | drawing the indices for a difference with a candidate list and extracting at them fails exactly when extraction runs and the bucket is missing, and otherwise returns that difference's batch |
| PairedData.GeneratePass | capstone_project/preprocessing.py:105-108 | one pass appends the batches of differences `0..max_frame_diff` in order to `y`, and to `X` when stacks are non-empty; with empty stacks `X` becomes the last batch |
| PairedData.GenerationReady | capstone_project/preprocessing.py:84-87 | after the assertion, with a bucket for every difference, every extraction of the generation succeeds |
| PairedData.PassStep | capstone_project/preprocessing.py:107-108 | one more difference extends the labels by its batch, and extends or replaces the pairs as `X.size` decides |
| PairedData.GeneratedStep | capstone_project/preprocessing.py:103-108 | one more pass appends one whole pass of labels, and of pairs for non-empty stacks |
| GenerationOrder.PassBatchesAt | capstone_project/preprocessing.py:105-108 | within a pass, entry `e` of the batch of difference `d` sits at `d * len(data) * num_pairs + e`, labelled with the bucket of `d` |
| GenerationOrder.GenerationTotals | capstone_project/preprocessing.py:102-108 | `passes * (max_frame_diff + 1) * len(data) * num_pairs` labels, and as many pairs when the stacks are non-empty |
| GenerationOrder.GeneratedLabelAt | capstone_project/preprocessing.py:103-108 | the label at `(q * (max_frame_diff + 1) + d) * len(data) * num_pairs + e` is the bucket of `d`: labels are grouped by difference, repeated per pass |
| GenerationOrder.GeneratedBatchEntry | capstone_project/preprocessing.py:103-108 | for non-empty stacks, entry `e` of the batch of difference `d` in pass `q` is the pair at `(q * (max_frame_diff + 1) + d) * len(data) * num_pairs + e` |
| GenerationOrder.BatchPairAt | capstone_project/preprocessing.py:67-72 | entry `v * num_pairs + j` of the batch of a difference is the stack pair of video `v` at the candidate drawn at `j` |
| GenerationOrder.GeneratedLabelsAreClasses | capstone_project/preprocessing.py:105-108 | every generated label is the bucket of a difference `0..max_frame_diff`, hence a class index below `len(time_buckets)` |
| GenerationOrder.EmptyStacksKeepLastBatch | capstone_project/preprocessing.py:107 | with empty stacks only the last batch of pairs is left, fewer than the labels once there are two batches |
| DriverFacts.AssertBeforeCache | capstone_project/preprocessing.py:84-92 | a failing assertion fails the call whatever is cached, since it is checked first |
| DriverFacts.CacheHit | capstone_project/preprocessing.py:92-98 | an unforced call finding both pickles returns their contents and leaves the disk alone |
| DriverFacts.ResultIsOnDisk | capstone_project/preprocessing.py:110-112 | after any successful call the returned pairs and labels are on disk under the two cache names |
| DriverFacts.CacheRoundTrip | capstone_project/preprocessing.py:89-98 | after a successful call, an unforced call with the same name, buckets and stack size returns the same samples, whatever its pass and pair counts |
| DriverFacts.ForcedIgnoresDisk | capstone_project/preprocessing.py:92 | a forced call fails or generates the same samples whatever the disk holds |
| DriverFacts.FreshGeneration | capstone_project/preprocessing.py:99-114 | a generating call returns `max(passes, 0) * (max_frame_diff + 1) * len(data) * num_pairs` labels, each below `len(time_buckets)`, and as many pairs for non-empty stacks |
| TrainingScript.TrainingMaximum | main.py:46 | the largest training time is 19 and no training bucket is empty |
| TrainingScript.ScriptCallFails | main.py:49 | as written, the script's call always fails the assertion |
| TrainingScript.IntendedCallSucceeds | main.py:44-49 | with the script's stack size of 1 the call succeeds; without cached pickles it yields `20 * len(data)` pairs and labels, all classes below 6 |
| Dataset.MovingMNISTDataset.Len | capstone_project/preprocessing.py:124-131 | the length is the number of labels; when there are as many pairs as labels every index in `-len..len-1` yields an item, and every index outside that range raises `IndexError` |
| Dataset.MovingMNISTDataset.GetItem | capstone_project/preprocessing.py:123-128 | succeeds iff the index is valid for both pairs and labels, counting negative indices from the end; the pairs' `IndexError` comes first; the item is the pair's two stacks and the label at the index modulo each length |
| Dataset.GetItemInRange | capstone_project/preprocessing.py:123-131 | with as many pairs as labels every index below the length returns that pair and label, and `i - len` returns the same item |
| Dataset.ShortPairsFail | capstone_project/preprocessing.py:123-131 | with fewer pairs than labels an index below the length raises `IndexError` |
| Dataset.FloorDiv | capstone_project/preprocessing.py:146 | the result is the floor of the exact quotient, for either sign of the divisor |
| Dataset.Split | capstone_project/preprocessing.py:146-149 | `ZeroDivisionError` iff `test_size == 1`; otherwise train + val + test equals the data set length, and test is the floor of `test_size * len` |
| Dataset.SplitInRange | capstone_project/preprocessing.py:146-149 | with `0 <= test_size < 1` and `0 <= val_size <= 1 - test_size` all three sizes lie in `0..len` |

## Left out

- `main.py` beyond its one call of `get_paired_data`: argument parsing, the networks, training, evaluation and plotting hold no index logic.
- `load_data` and `imshow`: loading and swapping axes are file I/O and reshaping. The loaded videos are a parameter, and `data.shape[1]` is their common length.
- Logging and `print`: they have no effect on the results.
- `os.path.join` with the project and data directories: the cache files are keyed by their file name alone.
- `load_object` and `save_object` (pickle): the disk is a value, and saving is a map update.
- `np.random.seed`/`np.random.choice`: they are a sampler parameter, assumed to return `size` indices below `len`.
  - `choice` on zero candidates raises `ValueError`. The assertion rules that out.
- `PairSampling.GetSamplesAtDifference`: it takes the drawn indices as an input, and the driver draws them right before the call.
- `PairSampling.GetSamplesAtDifference`: it requires every candidate's stacks to lie inside the video. Numpy would wrap negative frame indices, but candidates from the table never produce them (`TableCandidatesFit`).
- `PairedData.GetPairedData`: `num_pairs_per_example` is a natural number. Numpy's `ValueError` for a negative sample size is not modelled.
- `PairedData.GetPairedData`: whether `X.size` is non-zero is taken as "some pair and non-empty stacks", which assumes frames of non-zero size.
- Pixel content, image shape and numpy dtypes are not modelled. The labels come back as floats from `np.append` and are modelled as natural numbers.
- `Dataset.Split`: `test_size` and `val_size` are exact fractions. Float rounding of the products and quotients before `np.floor` is not modelled.
- `torch.from_numpy`, `random_split` and the `DataLoader`s: these are framework calls and shuffling. `random_split`'s own checks of the sizes are not modelled.
- `Dataset.MovingMNISTDataset.GetItem`: only integer indices are modelled, not slices or tensor indices. The unused `transforms` argument is dropped.

## Findings

| source | as written | input that shows it | evidently intended | confidence | as-written member | corrected member |
|---|---|---|---|---|---|---|
| main.py:49 | the training script calls `get_paired_data` without `num_frames_in_stack`, so the default stack of 2 frames applies although the script defines `NUM_FRAMES_IN_STACK = 1` (main.py:44) | the 20-frame Moving MNIST videos with the training buckets: the largest time 19 exceeds 20 - 2, so the assertion at capstone_project/preprocessing.py:85 fails before the cache is consulted | pass the script's stack size of 1, for which 19 <= 20 - 1 holds and generation succeeds | medium, not executed (the frame count 20 comes from the data file, not the source) | TrainingScript.ScriptCallFails | TrainingScript.IntendedCallSucceeds |
