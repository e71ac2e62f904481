/**
 * The restore decision before training: read the step out of the checkpoint path (the text
 * after the last `-` of the last `/` component, parsed as a Python integer); restore nothing
 * without a checkpoint; otherwise restore every variable, or, for an eight-point mask with a
 * bounding-box checkpoint, every variable whose name does not contain the last layer's name,
 * and then reset the global step when a warm-restart learning rate is given.
 */
module CheckpointRestore {
  import opened Common

  /** `s.split(sep)[-1]`: the text after the last `sep`, or all of `s` when there is none. */
  function LastAfter(s: string, sep: char): (r: string)
    ensures sep !in r
    ensures |r| <= |s| && r == s[|s| - |r|..]
    ensures |r| < |s| ==> s[|s| - |r| - 1] == sep
  {
    if s == [] then []
    else
      var n := |s| - 1;
      if s[n] == sep then []
      else
        var r0 := LastAfter(s[..n], sep);
        assert s[n - |r0|..] == s[..n][n - |r0|..] + [s[n]];
        r0 + [s[n]]
  }

  /** `s.split(sep)[0]`: the text before the first `sep`, or all of `s` when there is none. */
  function FirstBefore(s: string, sep: char): (r: string)
    ensures sep !in r
    ensures |r| <= |s| && r == s[..|r|]
    ensures |r| < |s| ==> s[|r|] == sep
  {
    if s == [] then []
    else if s[0] == sep then []
    else [s[0]] + FirstBefore(s[1..], sep)
  }

  predicate IsDigit(c: char)
  {
    '0' <= c <= '9'
  }

  function DigitValue(c: char): nat
    requires IsDigit(c)
  {
    c as int - '0' as int
  }

  /** The value of a string of decimal digits. */
  function DigitsValue(ds: string): nat
    requires forall k :: 0 <= k < |ds| ==> IsDigit(ds[k])
  {
    if ds == [] then 0
    else
      var n := |ds| - 1;
      10 * DigitsValue(ds[..n]) + DigitValue(ds[n])
  }

  /** Python's `int(t)` on a str: an optional sign followed by one or more decimal digits;
      anything else raises `ValueError` (here `None`). */
  function ParseInt(t: string): (r: Option<int>)
    ensures r.Some? ==> |t| > 0
  {
    var signed := |t| > 0 && (t[0] == '+' || t[0] == '-');
    var sign := if signed then t[0] else '+';
    var digits := if signed then t[1..] else t;
    if |digits| > 0 && forall k :: 0 <= k < |digits| ==> IsDigit(digits[k]) then
      Some(if sign == '-' then -(DigitsValue(digits) as int) else DigitsValue(digits))
    else None
  }

  /** The step printed when a checkpoint is found (line 375). */
  function StepOfPath(path: string): Option<int>
  {
    ParseInt(LastAfter(LastAfter(path, '/'), '-'))
  }

  /** `str(n)` for a non-negative integer. */
  function NatToString(n: nat): (r: string)
    ensures |r| > 0 && forall k :: 0 <= k < |r| ==> IsDigit(r[k])
    ensures DigitsValue(r) == n
    ensures r[0] == '0' ==> n == 0
  {
    if n < 10 then [('0' as int + n) as char]
    else
      var r := NatToString(n / 10) + [('0' as int + n % 10) as char];
      assert r[..|r| - 1] == NatToString(n / 10);
      r
  }

  /** `os.path.join(dir, name)` for a name without `/`. */
  function Join(dir: string, name: string): string
  {
    if dir == [] || dir[|dir| - 1] == '/' then dir + name else dir + "/" + name
  }

  /** The path the saver writes for `step` (lines 581-583): `<train_dir>/model.ckpt-<step>`. */
  function CheckpointPath(trainDir: string, step: nat): string
  {
    Join(trainDir, "model.ckpt") + "-" + NatToString(step)
  }

  /** `sub in s` on Python strings. */
  predicate Contains(s: string, sub: string)
  {
    exists i | 0 <= i <= |s| - |sub| :: OccursAt(s, sub, i)
  }

  predicate OccursAt(s: string, sub: string, i: int)
  {
    0 <= i <= |s| - |sub| && s[i..i + |sub|] == sub
  }

  /** The variables of the partial saver, in graph order (line 379). */
  function PartialVarList(names: seq<string>, lastLayer: string): (r: seq<string>)
    ensures forall n :: n in r <==> n in names && !Contains(n, lastLayer)
    ensures |r| <= |names|
  {
    if names == [] then []
    else
      var n := |names| - 1;
      PartialVarList(names[..n], lastLayer) + (if Contains(names[n], lastLayer) then [] else [names[n]])
  }

  /** The variables of the graph: weight tensors by name, and the global step. */
  datatype Session = Session(weights: map<string, seq<real>>, globalStep: int)

  /** What the checkpoint file holds: the saved weights and the saved global step. */
  datatype Checkpoint = Checkpoint(weights: map<string, seq<real>>, globalStep: int)

  datatype RestoreFlags = RestoreFlags(maskParameterization: int, boundingBoxCheckpoint: bool, warmRestartLr: real)

  datatype Plan = NoRestore | FullRestore | PartialRestore(resetStep: bool)

  datatype RestoreError =
    | BadStepSuffix(path: string)     // `int()` raises ValueError on the printed step
    | MissingVariables(names: set<string>)   // the saver finds these variables missing from the checkpoint

  /** `ckpt and ckpt.model_checkpoint_path`: a checkpoint state with a non-empty path. */
  predicate HasCheckpoint(path: Option<string>)
  {
    path.Some? && path.value != []
  }

  function PlanOf(path: Option<string>, flags: RestoreFlags): (plan: Plan)
    ensures plan.NoRestore? <==> !HasCheckpoint(path)
    ensures plan.PartialRestore? <==> HasCheckpoint(path) && flags.maskParameterization == 8 && flags.boundingBoxCheckpoint
    ensures plan.PartialRestore? ==> (plan.resetStep <==> flags.warmRestartLr != -1.0)
  {
    if !HasCheckpoint(path) then NoRestore
    else if flags.maskParameterization == 8 && flags.boundingBoxCheckpoint then PartialRestore(flags.warmRestartLr != -1.0)
    else FullRestore
  }

  /** The weights a restore takes from the checkpoint. */
  function Selected(s: Session, plan: Plan, lastLayer: string): set<string>
  {
    match plan
    case NoRestore => {}
    case FullRestore => s.weights.Keys
    case PartialRestore(_) => set n | n in s.weights && !Contains(n, lastLayer)
  }

  /** Lines 373-389: the session after the restore, or the error that stops the program.
      The last layer's name is the first `/` component of the prediction tensor's name; the
      global step is one more variable, named `globalStepName`. */
  function Restore(s: Session, ckpt: Checkpoint, path: Option<string>, flags: RestoreFlags,
                   predsName: string, globalStepName: string): (r: Result<Session, RestoreError>)
    ensures r.Ok? ==> r.value.weights.Keys == s.weights.Keys
  {
    var plan := PlanOf(path, flags);
    var lastLayer := FirstBefore(predsName, '/');
    if plan.NoRestore? then Ok(s)
    else if StepOfPath(path.value).None? then Err(BadStepSuffix(path.value))
    else
      var sel := Selected(s, plan, lastLayer);
      if !(sel <= ckpt.weights.Keys) then Err(MissingVariables(sel - ckpt.weights.Keys))
      else Ok(Apply(s, ckpt, plan, lastLayer, globalStepName))
  }

  /** The session once the selected variables are read from the checkpoint. */
  function Apply(s: Session, ckpt: Checkpoint, plan: Plan, lastLayer: string, globalStepName: string): (r: Session)
    requires !plan.NoRestore? && Selected(s, plan, lastLayer) <= ckpt.weights.Keys
    ensures r.weights.Keys == s.weights.Keys
  {
    var sel := Selected(s, plan, lastLayer);
    var weights := map n | n in s.weights :: if n in sel then ckpt.weights[n] else s.weights[n];
    var restoresStep := plan.FullRestore? || !Contains(globalStepName, lastLayer);
    var step := if restoresStep then ckpt.globalStep else s.globalStep;
    Session(weights, if plan.PartialRestore? && plan.resetStep then 0 else step)
  }
}

module RestoreTheorems {
  import opened Common
  import opened CheckpointRestore

  lemma {:induction false} LastAfterSuffix(s: string, sep: char, t: string)
    requires sep !in t
    ensures LastAfter(s + [sep] + t, sep) == t
  {
    if t == [] {
      assert s + [sep] + t == s + [sep];
    } else {
      var n := |t| - 1;
      var u := s + [sep] + t;
      assert u[..|u| - 1] == s + [sep] + t[..n];
      LastAfterSuffix(s, sep, t[..n]);
      assert t[..n] + [t[n]] == t;
    }
  }

  lemma LastAfterNone(s: string, sep: char)
    requires sep !in s
    ensures LastAfter(s, sep) == s
  {
  }

  /** Decimal printing and `int()` parsing are inverse on the non-negative integers. */
  lemma ParseNatString(n: nat)
    ensures ParseInt(NatToString(n)) == Some(n)
  {
  }

  /** The last path component of a joined path is the joined name. */
  lemma LastAfterJoin(dir: string, name: string)
    requires '/' !in name
    ensures LastAfter(Join(dir, name), '/') == name
  {
    if dir == [] {
      LastAfterNone(name, '/');
    } else if dir[|dir| - 1] == '/' {
      var pre := dir[..|dir| - 1];
      assert Join(dir, name) == pre + ['/'] + name;
      LastAfterSuffix(pre, '/', name);
    } else {
      assert Join(dir, name) == dir + ['/'] + name;
      LastAfterSuffix(dir, '/', name);
    }
  }

  /** The last path component of a checkpoint path is the file name the saver chose. */
  lemma CheckpointFileName(trainDir: string, step: nat)
    ensures LastAfter(CheckpointPath(trainDir, step), '/') == "model.ckpt-" + NatToString(step)
  {
    var digits := NatToString(step);
    var last := "model.ckpt-" + digits;
    assert '/' !in digits by {
      assert forall k :: 0 <= k < |digits| ==> IsDigit(digits[k]);
    }
    assert '/' !in last;
    assert CheckpointPath(trainDir, step) == Join(trainDir, last);
    LastAfterJoin(trainDir, last);
  }

  /** The text after the last `-` of a checkpoint file name is the printed step. */
  lemma StepOfFileName(step: nat)
    ensures LastAfter("model.ckpt-" + NatToString(step), '-') == NatToString(step)
  {
    var digits := NatToString(step);
    assert '-' !in digits by {
      assert forall k :: 0 <= k < |digits| ==> IsDigit(digits[k]);
    }
    assert "model.ckpt-" + digits == "model.ckpt" + ['-'] + digits;
    LastAfterSuffix("model.ckpt", '-', digits);
  }

  /** The saver's path round trip: the step printed on restore is the step the checkpoint
      was saved at, whatever the training directory is called. */
  lemma StepOfCheckpointPath(trainDir: string, step: nat)
    ensures StepOfPath(CheckpointPath(trainDir, step)) == Some(step)
  {
    CheckpointFileName(trainDir, step);
    StepOfFileName(step);
    ParseNatString(step);
  }

  /** Without a checkpoint nothing is restored: the session, and with it the global step,
      is unchanged. */
  lemma NoCheckpointUnchanged(s: Session, ckpt: Checkpoint, path: Option<string>, flags: RestoreFlags,
                              predsName: string, gsName: string)
    requires !HasCheckpoint(path)
    ensures Restore(s, ckpt, path, flags, predsName, gsName) == Ok(s)
  {
  }

  /** A restore fails exactly when there is a checkpoint and either its step suffix is not an
      integer or one of the selected variables is missing from it. */
  lemma RestoreFails(s: Session, ckpt: Checkpoint, path: Option<string>, flags: RestoreFlags,
                     predsName: string, gsName: string)
    ensures var plan := PlanOf(path, flags);
      Restore(s, ckpt, path, flags, predsName, gsName).Err? <==>
        HasCheckpoint(path) &&
        (StepOfPath(path.value).None? || !(Selected(s, plan, FirstBefore(predsName, '/')) <= ckpt.weights.Keys))
  {
  }

  /** On success the variables are the session's own; each takes the checkpoint's value when
      the plan selects it and keeps its value otherwise. A full restore selects all of them,
      a partial restore exactly those whose name does not contain the last layer's name. */
  lemma RestoredWeights(s: Session, ckpt: Checkpoint, path: Option<string>, flags: RestoreFlags,
                        predsName: string, gsName: string)
    requires Restore(s, ckpt, path, flags, predsName, gsName).Ok?
    ensures var r := Restore(s, ckpt, path, flags, predsName, gsName).value;
      var lastLayer := FirstBefore(predsName, '/');
      var plan := PlanOf(path, flags);
      && r.weights.Keys == s.weights.Keys
      && (plan.NoRestore? ==> r == s)
      && (plan.FullRestore? ==> forall n :: n in s.weights ==> r.weights[n] == ckpt.weights[n])
      && (plan.PartialRestore? ==> forall n :: n in s.weights ==>
            r.weights[n] == if Contains(n, lastLayer) then s.weights[n] else ckpt.weights[n])
  {
  }

  /** The global step after the restore: unchanged without a checkpoint, the checkpoint's
      after a full restore (never reset), zero after a partial restore with a warm-restart
      rate, and otherwise the checkpoint's unless the step's own name contains the last
      layer's name. */
  lemma RestoredGlobalStep(s: Session, ckpt: Checkpoint, path: Option<string>, flags: RestoreFlags,
                           predsName: string, gsName: string)
    requires Restore(s, ckpt, path, flags, predsName, gsName).Ok?
    ensures var r := Restore(s, ckpt, path, flags, predsName, gsName).value;
      var plan := PlanOf(path, flags);
      && (plan.NoRestore? ==> r.globalStep == s.globalStep)
      && (plan.FullRestore? ==> r.globalStep == ckpt.globalStep)
      && (plan.PartialRestore? && flags.warmRestartLr != -1.0 ==> r.globalStep == 0)
      && (plan.PartialRestore? && flags.warmRestartLr == -1.0 ==>
            r.globalStep == if Contains(gsName, FirstBefore(predsName, '/')) then s.globalStep else ckpt.globalStep)
  {
    var plan := PlanOf(path, flags);
    if !plan.NoRestore? {
      var lastLayer := FirstBefore(predsName, '/');
      assert Selected(s, plan, lastLayer) <= ckpt.weights.Keys;
      assert Restore(s, ckpt, path, flags, predsName, gsName).value == Apply(s, ckpt, plan, lastLayer, gsName);
    }
  }

  /** The partial saver's variable list and the partial plan select the same variables. */
  lemma PartialListMatchesPlan(s: Session, names: seq<string>, lastLayer: string)
    requires forall n :: n in names <==> n in s.weights
    ensures forall n :: n in PartialVarList(names, lastLayer) <==> n in Selected(s, PartialRestore(false), lastLayer)
  {
  }

  /** Saving a session at `step` and restoring it in full from the written path gives the
      session back. */
  lemma SaveRestoreRoundTrip(s: Session, trainDir: string, step: nat, flags: RestoreFlags,
                             predsName: string, gsName: string)
    requires !(flags.maskParameterization == 8 && flags.boundingBoxCheckpoint)
    ensures Restore(s, Checkpoint(s.weights, s.globalStep), Some(CheckpointPath(trainDir, step)), flags, predsName, gsName) == Ok(s)
  {
    var path := CheckpointPath(trainDir, step);
    assert StepOfPath(path).Some? by {
      StepOfCheckpointPath(trainDir, step);
    }
    assert HasCheckpoint(Some(path)) by {
      assert |path| >= |NatToString(step)| > 0;
    }
    ApplyOwnSnapshot(s, FirstBefore(predsName, '/'), gsName);
  }

  lemma ApplyOwnSnapshot(s: Session, lastLayer: string, gsName: string)
    ensures Apply(s, Checkpoint(s.weights, s.globalStep), FullRestore, lastLayer, gsName) == s
  {
    var r := Apply(s, Checkpoint(s.weights, s.globalStep), FullRestore, lastLayer, gsName);
    assert r.weights == s.weights;
  }
}
