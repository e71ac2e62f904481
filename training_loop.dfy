/**
 * Control of the training loop: the steps `glb_step .. max_steps - 1` in order, stopped early
 * when the coordinator asks; what each step does (summary step, queue-fed step or inline-fed
 * step), whether it logs throughput and whether it writes a checkpoint; and the validation
 * pass of a summary step, which runs one batch per `ceil(V / B)`.
 */
module TrainingLoop {
  import opened Common

  datatype StepKind = Summary | QueueFed | InlineFed

  /** What one step of the loop does, as far as control is concerned. */
  datatype StepEvent = StepEvent(step: int, kind: StepKind, logsThroughput: bool, checkpoints: bool)

  /** The flags and configuration values the loop reads. */
  datatype LoopConfig = LoopConfig(maxSteps: int, summaryStep: int, checkpointStep: int, numThreads: int)

  /** Both cadences divide; a zero cadence makes the first step fail with a division by zero. */
  predicate ValidCadence(cfg: LoopConfig)
  {
    cfg.summaryStep != 0 && cfg.checkpointStep != 0
  }

  /** `m` is an integer multiple of `d`. */
  ghost predicate MultipleOf(m: int, d: int)
  {
    exists q :: Times(q, d) == m
  }

  function Times(q: int, d: int): int
  {
    q * d
  }

  /** Python's `m % d == 0` is divisibility, whatever the signs. */
  lemma ModZeroIsMultiple(m: int, d: int)
    requires d != 0
    ensures m % d == 0 <==> MultipleOf(m, d)
  {
    if m % d == 0 {
      assert Times(m / d, d) == m;
    }
    if MultipleOf(m, d) {
      var q :| Times(q, d) == m;
      ModOfMultiple(q, d);
    }
  }

  lemma ModOfMultiple(q: int, d: int)
    requires d != 0
    ensures (q * d) % d == 0
  {
    var m := q * d;
    var r := m % d;
    var x := q - m / d;
    assert d * x == r by {
      assert m == d * (m / d) + r;
    }
    ProductAwayFromZero(d, x);
  }

  /** A nonzero multiple of `d` is at least `|d|` away from zero. */
  lemma ProductAwayFromZero(d: int, x: int)
    requires d != 0
    ensures x == 0 || d * x >= Abs(d) || d * x <= -Abs(d)
  {
    if x >= 1 && d > 0 {
      MulMonotone(d, 1, x);
    } else if x <= -1 && d > 0 {
      MulMonotone(d, 1, -x);
      assert d * x == -(d * -x);
    } else if x >= 1 && d < 0 {
      MulMonotone(-d, 1, x);
      assert d * x == -(-d * x);
    } else if x <= -1 && d < 0 {
      MulMonotone(-d, 1, -x);
      assert d * x == -d * -x;
    }
  }

  function Abs(d: int): int
  {
    if d < 0 then -d else d
  }

  function KindOf(step: int, cfg: LoopConfig): StepKind
    requires ValidCadence(cfg)
  {
    if step % cfg.summaryStep == 0 then Summary
    else if cfg.numThreads > 0 then QueueFed
    else InlineFed
  }

  /** The control decisions of one step: a summary step on every multiple of the summary
      cadence; otherwise the step is fed from the queue when producer threads exist and
      loads its batch inline when they do not; throughput is logged on multiples of ten; a
      checkpoint is written on multiples of the checkpoint cadence and on the last step. */
  function Event(step: int, cfg: LoopConfig): (e: StepEvent)
    requires ValidCadence(cfg)
    ensures e.step == step
    ensures e.kind == Summary <==> MultipleOf(step, cfg.summaryStep)
    ensures e.kind == QueueFed <==> !MultipleOf(step, cfg.summaryStep) && cfg.numThreads > 0
    ensures e.kind == InlineFed <==> !MultipleOf(step, cfg.summaryStep) && cfg.numThreads <= 0
    ensures e.logsThroughput <==> MultipleOf(step, 10)
    ensures e.checkpoints <==> MultipleOf(step, cfg.checkpointStep) || step + 1 == cfg.maxSteps
  {
    ModZeroIsMultiple(step, cfg.summaryStep);
    ModZeroIsMultiple(step, 10);
    ModZeroIsMultiple(step, cfg.checkpointStep);
    StepEvent(step, KindOf(step, cfg), step % 10 == 0, step % cfg.checkpointStep == 0 || step + 1 == cfg.maxSteps)
  }

  /** The coordinator's answer to `should_stop()` at the top of `step`: once it has asked to
      stop (at `stopAt`) it keeps asking. */
  predicate StopRequested(stopAt: Option<int>, step: int)
  {
    stopAt.Some? && stopAt.value <= step
  }

  /** The first step that does not run: the loop's end, or the step at which the coordinator
      asks to stop, whichever comes first. */
  function EndStep(glb: int, cfg: LoopConfig, stopAt: Option<int>): (r: int)
    ensures glb <= r
    ensures r <= cfg.maxSteps || r == glb
    ensures forall s :: glb <= s < r ==> !StopRequested(stopAt, s)
    ensures glb <= r < cfg.maxSteps ==> StopRequested(stopAt, r)
  {
    if glb >= cfg.maxSteps then glb
    else if stopAt.Some? && stopAt.value <= glb then glb
    else if stopAt.Some? && stopAt.value < cfg.maxSteps then stopAt.value
    else cfg.maxSteps
  }

  /** The steps that run, with their decisions, in order. */
  function Schedule(glb: int, cfg: LoopConfig, stopAt: Option<int>): seq<StepEvent>
    requires ValidCadence(cfg)
  {
    var n := EndStep(glb, cfg, stopAt) - glb;
    seq(if n < 0 then 0 else n, k => Event(glb + k, cfg))
  }

  /** The loop of lines 421-583: one event per step until the end or a stop request. */
  method RunLoop(glb: int, cfg: LoopConfig, stopAt: Option<int>) returns (trace: seq<StepEvent>)
    requires ValidCadence(cfg)
    ensures trace == Schedule(glb, cfg, stopAt)
  {
    trace := [];
    var step := glb;
    while step < cfg.maxSteps
      invariant glb <= step
      invariant step <= cfg.maxSteps || step == glb
      invariant forall s :: glb <= s < step ==> !StopRequested(stopAt, s)
      invariant trace == seq(step - glb, k => Event(glb + k, cfg))
      decreases cfg.maxSteps - step
    {
      if StopRequested(stopAt, step) {
        break;
      }
      trace := trace + [Event(step, cfg)];
      step := step + 1;
    }
    assert step == EndStep(glb, cfg, stopAt);
  }

  /** Number of validation batches for `v` samples in batches of `b`. */
  function NumBatches(v: nat, b: int): (n: nat)
    requires b > 0
    ensures n * b >= v && (n - 1) * b < v
  {
    if v % b > 0 then v / b + 1 else v / b
  }

  /** The validation loop of lines 482-504: `batch_nr` counts 1, 2, ... and the loop leaves as
      soon as it passes the number of batches; only batch 1 is visualised. */
  method ValidationPass(v: nat, b: int) returns (processed: seq<nat>, visualised: seq<nat>)
    requires b > 0
    ensures processed == seq(NumBatches(v, b), k => k + 1)
    ensures visualised == if NumBatches(v, b) > 0 then [1] else []
  {
    processed := [];
    visualised := [];
    var batchNr := 0;
    while true
      invariant 0 <= batchNr <= NumBatches(v, b)
      invariant processed == seq(batchNr, k => k + 1)
      invariant visualised == if batchNr > 0 then [1] else []
      decreases NumBatches(v, b) - batchNr
    {
      batchNr := batchNr + 1;
      var numOfBatches := if v % b > 0 then v / b + 1 else v / b;
      if batchNr > numOfBatches {
        break;
      }
      if batchNr == 1 {
        visualised := visualised + [batchNr];
      }
      processed := processed + [batchNr];
    }
  }
}

module LoopTheorems {
  import opened Common
  import opened TrainingLoop

  /** The schedule runs the consecutive steps from `glb_step`, none when `glb_step` is already
      at or past `max_steps`. */
  lemma ScheduleSteps(glb: int, cfg: LoopConfig, stopAt: Option<int>)
    requires ValidCadence(cfg)
    ensures var t := Schedule(glb, cfg, stopAt);
      (forall k :: 0 <= k < |t| ==> t[k] == Event(glb + k, cfg) && glb <= t[k].step < cfg.maxSteps)
    ensures glb >= cfg.maxSteps ==> Schedule(glb, cfg, stopAt) == []
    ensures stopAt.None? && glb < cfg.maxSteps ==> |Schedule(glb, cfg, stopAt)| == cfg.maxSteps - glb
  {
  }

  /** Without a stop request and with `glb_step < max_steps`, every multiple of the checkpoint
      cadence in range is checkpointed, and so is the last step `max_steps - 1`. */
  lemma CheckpointCoverage(glb: int, cfg: LoopConfig)
    requires ValidCadence(cfg) && glb < cfg.maxSteps
    ensures var t := Schedule(glb, cfg, None);
      && (forall s :: glb <= s < cfg.maxSteps && MultipleOf(s, cfg.checkpointStep) ==>
            0 <= s - glb < |t| && t[s - glb].step == s && t[s - glb].checkpoints)
      && |t| > 0 && t[|t| - 1].step == cfg.maxSteps - 1 && t[|t| - 1].checkpoints
  {
    var t := Schedule(glb, cfg, None);
    forall s | glb <= s < cfg.maxSteps && MultipleOf(s, cfg.checkpointStep)
      ensures 0 <= s - glb < |t| && t[s - glb].step == s && t[s - glb].checkpoints
    {
      assert t[s - glb] == Event(s, cfg);
    }
    assert t[|t| - 1] == Event(cfg.maxSteps - 1, cfg);
  }

  /** A checkpoint is written at exactly the scheduled steps that are a multiple of the
      checkpoint cadence or the last step. */
  lemma CheckpointExactly(glb: int, cfg: LoopConfig, stopAt: Option<int>, k: nat)
    requires ValidCadence(cfg) && k < |Schedule(glb, cfg, stopAt)|
    ensures var e := Schedule(glb, cfg, stopAt)[k];
      e.checkpoints <==> MultipleOf(e.step, cfg.checkpointStep) || e.step == cfg.maxSteps - 1
  {
    assert Schedule(glb, cfg, stopAt)[k] == Event(glb + k, cfg);
  }

  /** A stop request only truncates: the steps that run are a prefix of those that would
      have run without it, cut at the step where the coordinator first asks to stop. */
  lemma StopTruncates(glb: int, cfg: LoopConfig, s: int)
    requires ValidCadence(cfg)
    ensures Schedule(glb, cfg, Some(s)) <= Schedule(glb, cfg, None)
    ensures glb <= s < cfg.maxSteps ==> |Schedule(glb, cfg, Some(s))| == s - glb
  {
  }

  /** The batch count is `ceil(V / B)`: the least count whose batches hold all samples. */
  lemma NumBatchesIsCeiling(v: nat, b: int, n: nat)
    requires b > 0
    ensures n * b >= v <==> n >= NumBatches(v, b)
  {
    var c := NumBatches(v, b);
    if n >= c {
      MulMonotone(b, c, n);
    } else {
      MulMonotone(b, n, c - 1);
    }
  }

  lemma NumBatchesExample()
    ensures NumBatches(10, 4) == 3 && NumBatches(8, 4) == 2 && NumBatches(0, 4) == 0
  {
  }
}
