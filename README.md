# squeezeDet training driver — a verified model of its core logic

`src/train.py` trains squeezeDet-style detectors. It extends them with mask
parameterizations of 4 or 8 values per anchor and with edge-adhesion flags. Most of the
file drives TensorFlow, OpenCV, threads and files. This project models the
self-contained logic inside it and proves properties of that model in Dafny.

- **Anchor-label assembly** (`_load_data`). Each batch of annotations is walked image by
  image. The first annotation of each `(image, anchor)` pair wins; later ones are counted
  as discarded. The walk builds the parallel sparse index and value lists, which are then
  scattered into the dense feed tensors `[BATCH, ANCHORS, ·]`.
  - `anchor_assembly.dfy` holds the loop, as a method with nested loops.
  - `assembly_properties.dfy` holds its specification and theorems.
  - `dense_feed.dfy` and `dense_theorems.dfy` hold the scatter into zero tensors and what
    it yields.
- **Per-image anchor extraction** (summary step). For each image, the distinct anchors of
  its edge-index rows, in first-occurrence order, and the edge flags gathered there.
  - `anchor_extraction.dfy` holds the slot-by-slot loop.
  - `extraction_theorems.dfy` connects it to the batch and records the finding below.
- **Plot threshold filter** (`_viz_prediction_result`). It keeps the detections whose
  probability is strictly above the plot threshold, in order and aligned. See
  `prediction_filter.dfy`.
- **Training-loop control.** Each step's kind (summary, queue-fed or inline-fed), the
  throughput log, the checkpoint condition, the coordinator's early stop, and the
  validation batch count and loop. See `training_loop.dfy`.
- **Restore plan.** Checkpoint-step parsing, the choice between no, full and partial
  restore, the variable filter and the global-step reset. See `checkpoint_restore.dfy`.
- **Start-up checks.** The dataset, mask and net checks in program order, and the per-net
  set-up of training mode, learning rate and pretrained model. See `startup_config.dfy`.

`common.dfy` holds `Option`, `Result`, a concatenation defined from the end, and block and
arithmetic lemmas.

Modelling choices:
- `imdb.read_batch()` returns several parallel lists, one entry per annotation. The model
  takes them zipped into one `Annotation` record per annotation (label, anchor, delta,
  box, edge flags), as an input value.
- `sparse_to_dense` lives in `utils/util`, which is not part of this model. It is modelled
  as "start from zeros, then write value `k` at index `k`, in order". Its callers must
  supply as many values as indices, all inside the shape; `FeedableFromBatch` proves this
  whenever each annotation fits the configured shape.
- The coordinator's `should_stop()` is an input: the first step at which it answers yes,
  if any. After that it keeps answering yes.
- Python's `int()` is modelled as an optional sign followed by one or more ASCII digits.
  Anything else is a `ValueError`, which stops the program: `Err` in the model.

## Model

| member | source | states |
|---|---|---|
| AnchorAssembly.Assemble | src/train.py:276-297 | The nested loop over images and annotations ends in exactly the state obtained by applying the one-annotation step to every annotation in image-then-annotation order. |
| AssemblyProperties.FoldDescribes | src/train.py:281-297 | After any prefix of the annotations, the state comes from the annotations that are first of their pair (an independent definition). The seen set is the set of pairs that occurred. Every list holds the kept annotations' entries in order. The label counter counts every annotation, and kept plus discarded equals that count. |
| AssemblyTheorems.KeptShape | src/train.py:284-288 | There are no more kept annotations than annotations. Their pairs are pairwise distinct. Every pair that occurs is kept. Every kept annotation comes from the input. |
| AssemblyTheorems.FirstInImageIsFirstOfPair | src/train.py:281-285 | An annotation is the first of its pair in the whole batch exactly when no earlier annotation of its own image has the same anchor. |
| AssemblyTheorems.Counting | src/train.py:278-297 | `num_labels` is the total number of annotations and equals the mask count plus `num_discarded_labels`. The mask entries are pairwise distinct and are exactly the seen set. There is one label entry per mask entry and `P` index entries per mask entry. When every vector has length `P`, each value list has length `P` times the mask count. |
| FirstWinsTheorems.FirstAt | src/train.py:282-284 | The position of the first annotation of an image with a given anchor. |
| FirstWinsTheorems.FirstWins | src/train.py:284-295 | Take any annotation in the batch. Its pair is recorded, and it is recorded no later than this annotation. Every mask slot holding that pair carries the label of the first annotation with that pair. With uniform vectors, its delta, box and edge blocks are that first annotation's vectors. |
| FirstWinsTheorems.Alignment | src/train.py:286-295 | Slot `k` of the label list has the pair of mask entry `k`. Block `k` of the bounding-box indices and block `k` of the edge indices are that pair's `P` triples. |
| DenseFeed.ScatterDistinct | src/train.py:321-338 | Scattering distinct, in-bound indices writes each value at its index and leaves every other entry as it was. |
| DenseFeed.ReshapeScatter | src/train.py:320-324 | The mask is a `[BATCH, ANCHORS]` `sparse_to_dense` of the mask indices, reshaped to `[BATCH, ANCHORS, 1]`. Reshaping that two-dimensional scatter equals scattering the indices `(i, a, 0)` into the reshaped tensor. |
| DenseFeed.BuildFeed | src/train.py:318-339 | Each of the five dense tensors has the shape its placeholder declares. Their entries are given by `DenseTheorems.DenseMask`, `DenseLabels`, `DenseDeltas`, `DenseBoxValues` and `DenseEdges`. |
| DenseTheorems.FeedableFromBatch | src/train.py:318-339 | Suppose every annotation's anchor is below `ANCHORS`, its class below `CLASSES`, its vectors of length `P`, and the batch no larger than `BATCH`. Then every scatter gets in-bound, pairwise distinct indices and as many values as indices. |
| DenseTheorems.DenseMask | src/train.py:320-324 | The dense mask is 1.0 at `(i, a, 0)` exactly when some annotation of image `i` targets anchor `a`, and 0.0 elsewhere. |
| DenseTheorems.DenseLabels | src/train.py:331-334 | The label tensor is 1.0 at `(i, a, c)` exactly when anchor `a` of image `i` is targeted and `c` is the class of its first annotation, and 0.0 elsewhere. |
| DenseTheorems.DenseDeltas | src/train.py:325-327 | At `(i, a, t)` the box-delta tensor holds the `t`-th delta of the first annotation targeting anchor `a` in image `i`, or 0.0 when no annotation targets it. |
| DenseTheorems.DenseBoxValues | src/train.py:328-330 | At `(i, a, t)` the box tensor holds the `t`-th box value of the first annotation targeting the anchor, or 0.0 when no annotation targets it. |
| DenseTheorems.DenseEdges | src/train.py:336-338 | The edge-adhesion tensor is true at `(i, a, t)` exactly when the anchor is targeted and the first annotation's `t`-th edge value is nonzero. |
| AnchorExtraction.UniqueAnchors | src/train.py:455-458 | The anchors listed for an image are the values of its anchor column at the first-occurrence positions, in ascending order of position. |
| AnchorExtraction.UniqueInOrderMeaning | src/train.py:457-458 | That list has no value twice and holds exactly the values of the column. Of two listed values, the one listed first occurs first in the column. |
| AnchorExtraction.FirstOccurrencesMeaning | src/train.py:457 | The sorted indices `unique` returns are exactly the first-occurrence positions, in ascending order. |
| AnchorExtraction.ExtractPerImage | src/train.py:453-461 | Slot `id` of the result, for every image `id < BATCH`, holds that image's distinct anchors in first-occurrence order. It also holds the edge-flag rows gathered at those anchors, all of which lie inside the tensor. |
| ExtractionTheorems.ExtractionMatchesBatch | src/train.py:453-461 | Suppose the extraction reads the edge-index list the assembly built, with `P >= 1`. Then each image's anchors are the mask's anchors of that image, in order. These are the distinct anchors of that image's annotations, in first-occurrence order. |
| ExtractionTheorems.EdgeIndicesEmpty | src/train.py:294-295 | With `P >= 1` the edge-index list is empty exactly when the batch carries no annotation. |
| ExtractionTheorems.ExtractAsWritten | src/train.py:453-461 | The extraction loop as written. When it succeeds it yields one slot per image. `AsWrittenFailsIffImageWithoutAnchors` states when it fails and what it yields otherwise. |
| ExtractionTheorems.AsWrittenFailsIffImageWithoutAnchors | src/train.py:453-461 | The extraction as written fails exactly when some image has no edge-index row. Otherwise it yields the same slots as the corrected loop. |
| ExtractionTheorems.ImageWithoutAnnotationsBreaksExtraction | src/train.py:458-461 | Take a batch of two images, the second without annotations, under any mask parameterization (4 and 8 among them). Its edge-index list is not empty. Yet the extraction as written fails on image 1, which has no anchors. |
| ExtractionTheorems.EmptyBatchBreaksExtraction | src/train.py:455 | A batch without annotations gives an empty edge-index list, and the extraction as written fails taking its first column. |
| PredictionFilter.KeepIndices | src/train.py:146-147 | The kept positions are in range, strictly ascending, and each has probability strictly above the threshold. Every such position is kept. |
| PredictionFilter.ThresholdFilter | src/train.py:146-151 | The three output lists have equal length. Entry `k` of each is the entry of its input list at the `k`-th kept position, so boxes, probabilities and classes stay aligned. |
| FilterTheorems.FilterCount | src/train.py:146-151 | The filter keeps as many detections as there are probabilities above the threshold, and every kept probability is above it. |
| FilterTheorems.FilterIdempotent | src/train.py:146-151 | Filtering the filtered detections again with the same threshold changes nothing. |
| FilterTheorems.KeepIndicesComplete | src/train.py:146-147 | The set of kept positions is the set of positions whose probability exceeds the threshold. |
| TrainingLoop.ModZeroIsMultiple | src/train.py:580 | For a nonzero cadence, the source's `step % d == 0` test holds exactly when `step` is a multiple of `d`, whatever the signs. |
| TrainingLoop.Event | src/train.py:430-580 | A step is a summary step exactly on multiples of the summary cadence. Otherwise it is queue-fed when producer threads exist and inline-fed when they do not. It logs throughput exactly on multiples of 10. It checkpoints exactly on multiples of the checkpoint cadence and on step `max_steps - 1`. |
| TrainingLoop.EndStep | src/train.py:421-426 | The end step is never below `glb_step`, and no step before it is stopped. Below `max_steps`, the end step is the one at which the coordinator asks to stop. So with no stop request and `glb_step < max_steps`, the loop ends at `max_steps`. |
| TrainingLoop.Schedule | src/train.py:421-426 | The events of the steps that run. `LoopTheorems.ScheduleSteps`, `CheckpointCoverage`, `CheckpointExactly` and `StopTruncates` state which steps these are and what each one does. |
| TrainingLoop.RunLoop | src/train.py:421-583 | In a run where no step raises, the loop produces one event per step, from `glb_step` up to the end step, in order. |
| TrainingLoop.NumBatches | src/train.py:485-490 | `num_of_batches` batches of `B` hold all `V` samples, and one batch fewer would not. |
| TrainingLoop.ValidationPass | src/train.py:482-504 | The validation loop processes batches `1 .. num_of_batches` in order, and visualises only batch 1 (none when there are no batches). |
| LoopTheorems.ScheduleSteps | src/train.py:421 | The steps that run are consecutive from `glb_step` and stay below `max_steps`. None run when `glb_step >= max_steps`. All `max_steps - glb_step` of them run when there is no stop. |
| LoopTheorems.CheckpointCoverage | src/train.py:580-583 | In a run where no step raises, with no stop and `glb_step < max_steps`, every multiple of the checkpoint cadence in range is checkpointed, and so is the last step `max_steps - 1`. |
| LoopTheorems.CheckpointExactly | src/train.py:580 | A scheduled step checkpoints exactly when it is a multiple of the cadence or the last step. |
| LoopTheorems.StopTruncates | src/train.py:421-426 | A stop request only cuts the run short. It yields a prefix of the unstopped run, ending at the step where the stop is first seen. |
| LoopTheorems.NumBatchesIsCeiling | src/train.py:485-491 | `n` batches hold all samples exactly when `n >= num_of_batches`, so the count is `ceil(V / B)`. |
| LoopTheorems.NumBatchesExample | src/train.py:485-490 | `V = 10, B = 4` gives 3 batches, `V = 8` gives 2, `V = 0` gives 0. |
| CheckpointRestore.LastAfter | src/train.py:375 | `split(sep)[-1]` is a suffix free of `sep`, and it is preceded by `sep` unless it is the whole string. |
| CheckpointRestore.FirstBefore | src/train.py:376 | `split('/')[0]` is a prefix free of `/`, and it is followed by `/` unless it is the whole string. |
| CheckpointRestore.NatToString | src/train.py:583 | The step suffix the saver writes is a non-empty string of decimal digits whose value is the step, with no leading zero unless the step is 0. Together these fix it as `str(step)`. |
| CheckpointRestore.PartialVarList | src/train.py:379 | The partial saver's list holds exactly the variables whose name does not contain the last layer's name. |
| CheckpointRestore.PlanOf | src/train.py:373-386 | Nothing is restored exactly when there is no checkpoint path. The restore is partial exactly when there is a checkpoint, the mask parameterization is 8 and a bounding-box checkpoint is requested. A partial restore resets the step exactly when `warm_restart_lr != -1.0`. |
| CheckpointRestore.StepOfPath | src/train.py:375 | The step printed on restore: `int()` of the text after the last `-` of the last `/` component. `RestoreTheorems.StepOfCheckpointPath` states that it recovers the step of every path the saver writes. |
| RestoreTheorems.StepOfCheckpointPath | src/train.py:375 | Whatever the training directory, the step printed on restore from `<train_dir>/model.ckpt-<step>` is the step it was saved at (lines 581-583). |
| RestoreTheorems.ParseNatString | src/train.py:375 | `int(str(n)) == n` for every non-negative `n`. |
| RestoreTheorems.NoCheckpointUnchanged | src/train.py:387-389 | Without a checkpoint the session, and with it the global step, is unchanged. |
| CheckpointRestore.Restore | src/train.py:373-389 | A restore that succeeds keeps the session's set of variables. `RestoreTheorems.NoCheckpointUnchanged`, `RestoreFails`, `RestoredWeights` and `RestoredGlobalStep` state its outcome in each case. |
| RestoreTheorems.RestoreFails | src/train.py:373-386 | The restore stops the program exactly when there is a checkpoint and either its step suffix is not an integer or a selected variable is missing from it. |
| RestoreTheorems.RestoredWeights | src/train.py:377-386 | After a restore, the session has the same variables. A full restore gives each the checkpoint's value. A partial restore does so for exactly the variables whose name does not contain the last layer's name, and the others keep their values. |
| RestoreTheorems.RestoredGlobalStep | src/train.py:377-389 | Without a checkpoint the global step is unchanged. After a full restore it is the checkpoint's, never a reset. A partial restore with a warm-restart rate resets it to 0. A partial restore without one gives the checkpoint's value, unless the step variable's name contains the last layer's name. |
| RestoreTheorems.PartialListMatchesPlan | src/train.py:379 | The partial saver's variable list and the partial plan select the same variables. |
| RestoreTheorems.SaveRestoreRoundTrip | src/train.py:384-386 | Saving a session at a step and restoring it in full from the written path gives the same session back. |
| StartupConfig.ParseDataset | src/train.py:162 | A dataset name is accepted exactly when it is `KITTI` or `CITYSCAPE`, and then it is named back as given. |
| StartupConfig.ParseNet | src/train.py:170-171 | A net name is accepted exactly when it is one of the four architectures, and then it is named back as given. |
| StartupConfig.Validate | src/train.py:162-172 | The checks run in program order: an unsupported dataset fails first, then a mask other than 4 or 8, then an unsupported net. On success the configuration carries the given names and mask. |
| StartupConfig.SetUp | src/train.py:173-217 | Training mode is on. The learning rate is the warm-restart rate when it is not -1.0 and the configured one otherwise. VGG16 loads no pretrained model and keeps its configured path; every other net takes the path flag and keeps the configured load setting. |
| ConfigTheorems.ValidateAcceptsExactly | src/train.py:162-172 | The checks accept exactly the supported dataset names, the masks 4 and 8, and the supported net names. |
| ConfigTheorems.ValidateRoundTrip | src/train.py:162-172 | Every supported configuration, written out by name, is accepted as itself. |
| ConfigTheorems.DatasetNameIsCaseSensitive | src/train.py:162 | The lower-case `kitti` is rejected as an unsupported dataset. |

## Findings

| source | as written | input that shows it | evidently intended | confidence | as-written member | corrected member |
|---|---|---|---|---|---|---|
| src/train.py:455 | `np.asarray(edge_ids)[:,0]` takes a column of the edge-index list | a batch in which no image has an annotation: the list is empty, `np.asarray([])` is one-dimensional and the column index raises `IndexError`. The bare `except:` at lines 593-598 turns that into `sys.exit(0)`, so the run ends at that step reporting success, with no later checkpoint | an image without rows gets an empty slot | medium, not executed | ExtractionTheorems.EmptyBatchBreaksExtraction | AnchorExtraction.ExtractPerImage |
| src/train.py:458-461 | `np.asarray([...])` of an image's first-occurrence anchors is used as an index array | a batch of two images whose second has no annotation: that image's anchor array is empty with numpy's default float dtype, which numpy refuses as an index with `IndexError`. The bare `except:` at lines 593-598 turns that into `sys.exit(0)`, so the run ends at that step reporting success, with no later checkpoint | an image without rows gets an empty slot | medium, not executed | ExtractionTheorems.ImageWithoutAnnotationsBreaksExtraction | AnchorExtraction.ExtractPerImage |

The as-written behaviour is `ExtractionTheorems.ExtractAsWritten`. `AsWrittenFailsIffImageWithoutAnchors` states that it fails exactly when some image has no edge-index row. Otherwise its slots coincide with those of `AnchorExtraction.ExtractPerImage`, the corrected loop, which gives such an image an empty slot. The rest of the model, `ExtractionMatchesBatch` included, is about the corrected loop.

## Left out

- TensorFlow graph, session, queue and threads are not modelled: `sess.run`, the FIFO queue and the enqueue threads, savers, summaries and the coordinator. The shutdown sequence (close the queue, request stop, join) is not modelled either. Its stop request enters only as the `stopAt` input of `RunLoop`.
- Drawing with OpenCV (`_draw_box`), `bgr_to_rgb`, the model's own `filter_prediction` and the decoding helpers are left out. This is rendering and code that is not part of this model. The threshold filter takes `filter_prediction`'s output as its input.
- The file writes to `model_metrics.txt`, `training_metrics.txt` and `validation_metrics.txt`, and all printing, are left out as I/O.
- Floating-point work is left out: the validation loss means and standard deviations, the NaN divergence assertion and the images-per-second timing. These are floating-point numerics and wall-clock time.
- The configuration and model constructors (`kitti_*_config`, `cityscape_*_config`, `SqueezeDet`, …), `imdb.read_batch` and the datasets are external. Their results enter as input values (`ModelConfig` defaults, the raw batch).
- `sparse_to_dense` is in `utils/util`, which is not part of this model. The model assumes it writes value `k` at index `k` into zeros.
- The equality assertions between the fed edge tensor and the model's output (lines 451, 512) are left out. They compare with a tensor computed by TensorFlow.
- `TrainingLoop.Event`, `TrainingLoop.RunLoop`: require nonzero summary and checkpoint cadences. A zero cadence raises `ZeroDivisionError` at the first step, which the model does not represent.
- `TrainingLoop.NumBatches`, `TrainingLoop.ValidationPass`: require a positive batch size. A zero batch size raises `ZeroDivisionError`.
- `CheckpointRestore.ParseInt`: does not accept the surrounding whitespace, underscores between digits or non-ASCII digits that Python's `int()` also accepts.
- `CheckpointRestore.Restore`: a missing variable is reported as the set of missing names. The order and wording of TensorFlow's error are not modelled, and neither is a shape mismatch between session and checkpoint.
- `AnchorExtraction.ExtractPerImage`: requires each image's rows to name anchors in `0 .. n-1` of the gathered tensor. An anchor at or past `n` would make numpy raise `IndexError`. A negative anchor would be wrapped around by numpy, and the model excludes it as well.
- `TrainingLoop.RunLoop`, `LoopTheorems.CheckpointCoverage`: the schedule assumes that no step raises. The whole loop sits in the `try:` of line 420. An exception in a step body ends the run at that step, through the bare `except:` of lines 593-598, which closes the queue, stops, joins and exits with status 0. The exception may be the extraction failure of the Findings, the NaN assertion of line 561 or the 60-second time-out of the queue-fed `sess.run` (lines 418, 550-552). Each of these is raised before that step's throughput log (line 565) and its checkpoint (lines 580-583), so that step and every later one write no checkpoint.
- Process exit (`sys.exit(0)` on interrupt or error) and `CUDA_VISIBLE_DEVICES` are process control, out of scope.
- An empty validation set (`V = 0`) makes the loss statistics index an empty array. That code is floating-point work left out above, so no finding is claimed for it.
