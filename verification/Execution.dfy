/** Running command trees, after `src/execution.c` and `execute_task_with_timestamp` of `src/erraid.c`. */
module Execution {
  import opened Bytes
  import opened Commands
  import opened Buffers

  /** One thing the daemon starts: a simple command, or the processes of a pipeline. */
  datatype Event = Ran(argv: seq<CString>) | Piped(stages: seq<Command>)

  /** What the system answers: the raw bytes of both outputs and the exit code, or a failed start. */
  datatype Outcome = Broken | Finished(out: seq<byte>, err: seq<byte>, exit: uint16)

  /** The environment may answer differently each time, depending on everything started before. */
  type Oracle = (seq<Event>, Event) -> Outcome

  datatype Result = Error | Done(out: seq<byte>, err: seq<byte>, exit: uint16)

  /** A result together with everything started so far. */
  datatype Execution = Execution(result: Result, trace: seq<Event>)

  const NO_EXIT: uint16 := 255

  // ---------- reference semantics ----------

  /** `build_exec_argv` succeeds. */
  predicate Runnable(argv: seq<CString>) { argv != [] && [] !in argv }

  function EvalSimple(o: Oracle, argv: seq<CString>, trace: seq<Event>): Execution {
    if !Runnable(argv) then Execution(Error, trace) else
    var answer := o(trace, Ran(argv));
    var after := trace + [Ran(argv)];
    if answer.Broken? then Execution(Error, after)
    else Execution(Done(Capture(answer.out), Capture(answer.err), answer.exit), after)
  }

  /** A pipeline starts all its stages at once; its error output is never captured. */
  function EvalPipeline(o: Oracle, stages: seq<Command>, trace: seq<Event>): Execution {
    if |stages| < 2 then Execution(Error, trace) else
    var answer := o(trace, Piped(stages));
    var after := trace + [Piped(stages)];
    if answer.Broken? then Execution(Error, after)
    else Execution(Done(Capture(answer.out), [], answer.exit), after)
  }

  /** The meaning of a tree: every combination is run as its own type says. */
  function Eval(o: Oracle, c: Command, trace: seq<Event>): Execution
    decreases c, 0
  {
    if c.cmds == [] then EvalSimple(o, c.argv, trace)
    else if c.ty == PL then EvalPipeline(o, c.cmds, trace)
    else if c.ty == IF then
      if !(2 <= |c.cmds| <= 3) then Execution(Error, trace) else
      var condition := Eval(o, c.cmds[0], trace);
      if condition.result.Error? then condition
      else if condition.result.exit == 0 then Eval(o, c.cmds[1], condition.trace)
      else if |c.cmds| == 3 then Eval(o, c.cmds[2], condition.trace)
      else condition
    else EvalAll(o, c.cmds, trace, [], [], NO_EXIT)
  }

  /** A sequence: the outputs are concatenated, the last exit code counts, an error stops everything. */
  function EvalAll(o: Oracle, cs: seq<Command>, trace: seq<Event>,
                   out: seq<byte>, err: seq<byte>, exit: uint16): Execution
    decreases cs, 1
  {
    if cs == [] then Execution(Done(Capture(out), Capture(err), exit), trace) else
    var first := Eval(o, cs[0], trace);
    if first.result.Error? then first
    else EvalAll(o, cs[1..], first.trace, out + first.result.out, err + first.result.err, first.result.exit)
  }

  // ---------- normalisation ----------

  /** Below a sequence, pipelines and conditionals become sequences. */
  function Flatten(c: Command): Command
    decreases c, 0
  {
    if c.cmds == [] then c
    else Command(if c.ty == PL || c.ty == IF then SQ else c.ty, c.argv, FlattenAll(c.cmds))
  }

  function FlattenAll(cs: seq<Command>): (r: seq<Command>)
    ensures |r| == |cs|
    ensures forall i | 0 <= i < |cs| :: r[i] == Flatten(cs[i])
    decreases cs, 1
  {
    if cs == [] then [] else [Flatten(cs[0])] + FlattenAll(cs[1..])
  }

  /** The tree the executor really runs: sequences are flattened, wherever dispatch reaches them. */
  function Normalise(c: Command): Command
    decreases c, 0
  {
    if c.cmds == [] || c.ty == PL then c
    else if c.ty == IF then Command(c.ty, c.argv, NormaliseAll(c.cmds))
    else Flatten(c)
  }

  function NormaliseAll(cs: seq<Command>): (r: seq<Command>)
    ensures |r| == |cs|
    ensures forall i | 0 <= i < |cs| :: r[i] == Normalise(cs[i])
    decreases cs, 1
  {
    if cs == [] then [] else [Normalise(cs[0])] + NormaliseAll(cs[1..])
  }

  /** No pipeline and no conditional in the tree, itself included. */
  predicate OnlySequences(c: Command) {
    c.cmds != [] ==> c.ty != PL && c.ty != IF && forall d | d in c.cmds :: OnlySequences(d)
  }

  /** No pipeline and no conditional below a sequence that dispatch reaches. */
  predicate Normal(c: Command) {
    if c.cmds == [] || c.ty == PL then true
    else if c.ty == IF then forall d | d in c.cmds :: Normal(d)
    else OnlySequences(c)
  }

  lemma {:induction false} FlattenIdentity(c: Command)
    ensures Flatten(c) == c <==> OnlySequences(c)
  {
    forall d | d in c.cmds ensures Flatten(d) == d <==> OnlySequences(d) {
      FlattenIdentity(d);
    }
    if c.cmds != [] {
      if forall d | d in c.cmds :: OnlySequences(d) {
        assert FlattenAll(c.cmds) == c.cmds;
      } else {
        var i :| 0 <= i < |c.cmds| && !OnlySequences(c.cmds[i]);
        assert FlattenAll(c.cmds)[i] != c.cmds[i];
      }
    }
  }

  /** Normalising changes a tree exactly when it has a pipeline or a conditional below a sequence. */
  lemma {:induction false} NormaliseIdentity(c: Command)
    ensures Normalise(c) == c <==> Normal(c)
  {
    forall d | d in c.cmds ensures Normalise(d) == d <==> Normal(d) {
      NormaliseIdentity(d);
    }
    FlattenIdentity(c);
    if c.cmds != [] && c.ty == IF {
      if forall d | d in c.cmds :: Normal(d) {
        assert NormaliseAll(c.cmds) == c.cmds;
      } else {
        var i :| 0 <= i < |c.cmds| && !Normal(c.cmds[i]);
        assert NormaliseAll(c.cmds)[i] != c.cmds[i];
      }
    }
  }

  lemma {:induction false} FlattenedIsOnlySequences(c: Command)
    ensures OnlySequences(Flatten(c))
  {
    forall i | 0 <= i < |c.cmds| ensures OnlySequences(Flatten(c.cmds[i])) {
      FlattenedIsOnlySequences(c.cmds[i]);
    }
  }

  lemma {:induction false} NormalisedIsNormal(c: Command)
    ensures Normal(Normalise(c))
  {
    FlattenedIsOnlySequences(c);
    forall i | 0 <= i < |c.cmds| ensures Normal(Normalise(c.cmds[i])) {
      NormalisedIsNormal(c.cmds[i]);
    }
  }

  lemma NormaliseIdempotent(c: Command)
    ensures Normalise(Normalise(c)) == Normalise(c)
  {
    NormalisedIsNormal(c);
    NormaliseIdentity(Normalise(c));
  }

  // ---------- the executor ----------

  class Executor {
    const oracle: Oracle
    var trace: seq<Event>

    constructor (oracle: Oracle)
      ensures this.oracle == oracle && trace == []
    {
      this.oracle := oracle;
      trace := [];
    }

    /** `execute_simple_command`. */
    method ExecuteSimple(c: Command) returns (r: Result)
      requires c.cmds == []
      modifies this
      ensures Execution(r, trace) == EvalSimple(oracle, c.argv, old(trace))
    {
      if !Runnable(c.argv) { return Error; }
      var answer := oracle(trace, Ran(c.argv));
      trace := trace + [Ran(c.argv)];
      if answer.Broken? { return Error; }
      var out := CaptureOutput(answer.out);
      var err := CaptureOutput(answer.err);
      r := Done(out, err, answer.exit);
    }

    /** `execute_pipeline_command`, seen from its result. */
    method ExecutePipeline(c: Command) returns (r: Result)
      modifies this
      ensures Execution(r, trace) == EvalPipeline(oracle, c.cmds, old(trace))
    {
      if |c.cmds| < 2 { return Error; }
      var answer := oracle(trace, Piped(c.cmds));
      trace := trace + [Piped(c.cmds)];
      if answer.Broken? { return Error; }
      var out := CaptureOutput(answer.out);
      r := Done(out, [], answer.exit);
    }

    /** `execute_sequence_command`: sub-commands that are combinations are run as sequences. */
    method ExecuteSequence(c: Command) returns (r: Result)
      requires c.cmds != []
      modifies this
      ensures Execution(r, trace) == EvalAll(oracle, FlattenAll(c.cmds), old(trace), [], [], NO_EXIT)
      decreases c
    {
      hide Eval, Flatten, EvalSimple, Capture, IsCapacity, OnlySequences;
      var outBuf := new Buffer();
      var errBuf := new Buffer();
      var lastExit := NO_EXIT;
      ghost var flat := FlattenAll(c.cmds);
      ghost var whole := EvalAll(oracle, flat, trace, [], [], NO_EXIT);
      for i := 0 to |c.cmds|
        invariant fresh(outBuf) && fresh(outBuf.data) && outBuf.Valid()
        invariant fresh(errBuf) && fresh(errBuf.data) && errBuf.Valid()
        invariant outBuf != errBuf && outBuf.data != errBuf.data
        invariant whole == EvalAll(oracle, flat[i..], trace, outBuf.Contents(), errBuf.Contents(), lastExit)
      {
        var sub := c.cmds[i];
        ghost var before := trace;
        var result;
        if sub.cmds != [] {
          result := ExecuteSequence(sub);
        } else {
          result := ExecuteSimple(sub);
        }
        EvalFlattened(oracle, sub, before);
        assert flat[i..][1..] == flat[i + 1..];
        if result.Error? { return Error; }
        AppendBoth(outBuf, errBuf, result);
        lastExit := result.exit;
      }
      var out := outBuf.MoveToOutput();
      var err := errBuf.MoveToOutput();
      r := Done(out, err, lastExit);
    }

    /** The dispatch on the type, as the conditional executor and the top level do it. */
    method Dispatch(c: Command) returns (r: Result)
      modifies this
      ensures Execution(r, trace) == Eval(oracle, Normalise(c), old(trace))
      decreases c, 1
    {
      hide EvalSimple, EvalPipeline, EvalAll;
      if c.cmds != [] {
        if c.ty == PL {
          r := ExecutePipeline(c);
        } else if c.ty == IF {
          r := ExecuteConditional(c);
        } else {
          r := ExecuteSequence(c);
          EvalFlattened(oracle, c, old(trace));
        }
      } else {
        r := ExecuteSimple(c);
      }
    }

    /** `execute_conditional_command`. */
    method ExecuteConditional(c: Command) returns (r: Result)
      requires c.cmds != [] && c.ty == IF
      modifies this
      ensures Execution(r, trace) == Eval(oracle, Normalise(c), old(trace))
      decreases c, 0
    {
      hide EvalSimple, EvalPipeline, EvalAll;
      if |c.cmds| < 2 || |c.cmds| > 3 { return Error; }
      assert NormaliseAll(c.cmds)[0] == Normalise(c.cmds[0]);
      var condition := Dispatch(c.cmds[0]);
      if condition.Error? { return Error; }
      if condition.exit == 0 {
        assert NormaliseAll(c.cmds)[1] == Normalise(c.cmds[1]);
        r := Dispatch(c.cmds[1]);
      } else if |c.cmds| >= 3 {
        assert NormaliseAll(c.cmds)[2] == Normalise(c.cmds[2]);
        r := Dispatch(c.cmds[2]);
      } else {
        r := condition;
      }
    }
  }

  /** What one sub-command printed, appended to the outputs of its sequence. */
  method AppendBoth(outBuf: Buffer, errBuf: Buffer, r: Result)
    requires r.Done? && outBuf.Valid() && errBuf.Valid()
    requires outBuf != errBuf && outBuf.data != errBuf.data
    modifies outBuf, outBuf.data, errBuf, errBuf.data
    ensures outBuf.Valid() && outBuf.Contents() == old(outBuf.Contents()) + r.out
    ensures errBuf.Valid() && errBuf.Contents() == old(errBuf.Contents()) + r.err
    ensures outBuf.data == old(outBuf.data) || fresh(outBuf.data)
    ensures errBuf.data == old(errBuf.data) || fresh(errBuf.data)
    ensures outBuf.data != errBuf.data
  {
    hide IsCapacity;
    outBuf.Append(r.out);
    errBuf.Append(r.err);
  }

  /** One pipe read to its end into a buffer, and the buffer handed over. */
  method CaptureOutput(raw: seq<byte>) returns (out: seq<byte>)
    ensures out == Capture(raw)
  {
    hide IsCapacity;
    var buf := new Buffer();
    var fd := new Stream(raw);
    ReadIntoBuffer(fd, buf);
    assert [] + raw == raw;
    out := buf.MoveToOutput();
  }

  lemma EvalFlattened(o: Oracle, c: Command, trace: seq<Event>)
    ensures Eval(o, Flatten(c), trace) ==
      if c.cmds == [] then EvalSimple(o, c.argv, trace) else EvalAll(o, FlattenAll(c.cmds), trace, [], [], NO_EXIT)
  {
  }

  // ---------- when flattening is visible ----------

  /** Every leaf can be started and every pipeline and conditional has a usable arity. */
  predicate Executable(c: Command) {
    if c.cmds == [] then Runnable(c.argv)
    else
      && (c.ty == PL ==> 2 <= |c.cmds|)
      && (c.ty == IF ==> 2 <= |c.cmds| <= 3)
      && forall d | d in c.cmds :: Executable(d)
  }

  /** An environment without output whose n-th command exits with `f(n)`. */
  function Script(f: nat -> uint16): Oracle {
    (trace, event) => Finished([], [], f(|trace|))
  }

  /** How many commands a tree starts when all of them exit with 0 (`ok`), or all with 1. */
  function Count(c: Command, ok: bool): (n: nat)
    ensures n > 0
    decreases c, 0
  {
    if c.cmds == [] || c.ty == PL then 1
    else if c.ty == IF then
      Count(c.cmds[0], ok) +
      (if ok && |c.cmds| >= 2 then Count(c.cmds[1], ok) else if !ok && |c.cmds| >= 3 then Count(c.cmds[2], ok) else 0)
    else CountAll(c.cmds, ok)
  }

  function CountAll(cs: seq<Command>, ok: bool): (n: nat)
    ensures cs != [] ==> n > 0
    decreases cs, 1
  {
    if cs == [] then 0 else Count(cs[0], ok) + CountAll(cs[1..], ok)
  }

  function ExitOf(ok: bool): uint16 { if ok then 0 else 1 }

  function Always(ok: bool): nat -> uint16 { j => ExitOf(ok) }

  /** `f` answers `ok` to the commands number `from` to `to` - 1. */
  ghost predicate Steady(f: nat -> uint16, from: nat, to: nat, ok: bool) {
    forall j: nat | from <= j < to :: f(j) == ExitOf(ok)
  }

  lemma {:induction false} SteadyRun(f: nat -> uint16, c: Command, trace: seq<Event>, ok: bool)
    requires Executable(c)
    requires Steady(f, |trace|, |trace| + Count(c, ok), ok)
    ensures var e := Eval(Script(f), c, trace);
      && e.result == Done([], [], ExitOf(ok)) && |e.trace| == |trace| + Count(c, ok)
      && e == Eval(Script(Always(ok)), c, trace)
    decreases c, 0
  {
    if c.cmds == [] || c.ty == PL {
    } else if c.ty == IF {
      SteadyRun(f, c.cmds[0], trace, ok);
      var after := Eval(Script(f), c.cmds[0], trace).trace;
      if ok {
        SteadyRun(f, c.cmds[1], after, ok);
      } else if |c.cmds| == 3 {
        SteadyRun(f, c.cmds[2], after, ok);
      }
    } else {
      SteadyRunAll(f, c.cmds, trace, ok, NO_EXIT);
    }
  }

  lemma {:induction false} SteadyRunAll(f: nat -> uint16, cs: seq<Command>, trace: seq<Event>, ok: bool, exit: uint16)
    requires forall d | d in cs :: Executable(d)
    requires Steady(f, |trace|, |trace| + CountAll(cs, ok), ok)
    requires cs == [] ==> exit == ExitOf(ok)
    ensures var e := EvalAll(Script(f), cs, trace, [], [], exit);
      && e.result == Done([], [], ExitOf(ok)) && |e.trace| == |trace| + CountAll(cs, ok)
      && e == EvalAll(Script(Always(ok)), cs, trace, [], [], exit)
    decreases cs, 1
  {
    hide Eval, Executable;
    if cs == [] {
    } else {
      SteadyRun(f, cs[0], trace, ok);
      var nothing: seq<byte> := [];
      assert nothing + nothing == nothing;
      SteadyRunAll(f, cs[1..], Eval(Script(f), cs[0], trace).trace, ok, ExitOf(ok));
    }
  }

  lemma {:induction false} FlattenedExecutable(c: Command)
    requires Executable(c)
    ensures Executable(Flatten(c))
  {
    forall i | 0 <= i < |c.cmds| ensures Executable(Flatten(c.cmds[i])) {
      FlattenedExecutable(c.cmds[i]);
    }
  }

  lemma {:induction false} NormalisedExecutable(c: Command)
    requires Executable(c)
    ensures Executable(Normalise(c))
  {
    FlattenedExecutable(c);
    forall i | 0 <= i < |c.cmds| ensures Executable(Normalise(c.cmds[i])) {
      NormalisedExecutable(c.cmds[i]);
    }
  }

  /** With failing commands, flattening can only start more of them, and does wherever it changes something. */
  lemma {:induction false} FlattenCounts(c: Command)
    requires Executable(c)
    ensures Count(c, false) <= Count(Flatten(c), false)
    ensures !OnlySequences(c) ==> Count(c, false) < Count(Flatten(c), false)
    decreases c, 0
  {
    if c.cmds == [] {
    } else {
      FlattenCountsAll(c.cmds);
      if c.ty == IF {
        var flat := FlattenAll(c.cmds);
        FlattenCounts(c.cmds[0]);
        FlattenCounts(c.cmds[1]);
        assert CountAll(flat, false)
            == Count(flat[0], false) + (Count(flat[1], false) + CountAll(flat[2..], false)) by {
          assert flat[1..][1..] == flat[2..];
        }
        if |c.cmds| == 3 {
          FlattenCounts(c.cmds[2]);
          assert flat[2..][0] == flat[2];
        }
      } else if c.ty == PL {
        AtLeastOneEach(FlattenAll(c.cmds));
      }
    }
  }

  lemma {:induction false} AtLeastOneEach(cs: seq<Command>)
    ensures CountAll(cs, false) >= |cs|
  {
    if cs == [] {
    } else {
      AtLeastOneEach(cs[1..]);
    }
  }

  lemma {:induction false} FlattenCountsAll(cs: seq<Command>)
    requires forall d | d in cs :: Executable(d)
    ensures CountAll(cs, false) <= CountAll(FlattenAll(cs), false)
    ensures (exists d | d in cs :: !OnlySequences(d)) ==> CountAll(cs, false) < CountAll(FlattenAll(cs), false)
    decreases cs, 1
  {
    hide Count, Flatten, OnlySequences, Executable;
    if cs == [] {
    } else {
      FlattenCounts(cs[0]);
      FlattenCountsAll(cs[1..]);
      assert FlattenAll(cs) == [Flatten(cs[0])] + FlattenAll(cs[1..]);
    }
  }

  lemma {:induction false} NormaliseCounts(c: Command)
    requires Executable(c)
    ensures Count(c, false) <= Count(Normalise(c), false)
  {
    FlattenCounts(c);
    if c.cmds != [] && c.ty == IF {
      NormaliseCounts(c.cmds[0]);
      assert NormaliseAll(c.cmds)[0] == Normalise(c.cmds[0]);
      if |c.cmds| == 3 {
        NormaliseCounts(c.cmds[2]);
        assert NormaliseAll(c.cmds)[2] == Normalise(c.cmds[2]);
      }
    }
  }

  /** An environment that tells the tree from its normal form, and only fails once it has. */
  ghost predicate Separates(f: nat -> uint16, c: Command, trace: seq<Event>) {
    var e, e' := Eval(Script(f), c, trace), Eval(Script(f), Normalise(c), trace);
    && e.result == Done([], [], 1) && e'.result == Done([], [], 1)
    && |trace| <= |e.trace| < |e'.trace|
    && forall j: nat | |e.trace| <= j :: f(j) == 1
  }

  /** The answers of `v` before position `n`, and of `f` from there on. */
  function Switch(v: uint16, n: nat, f: nat -> uint16): nat -> uint16 {
    j => if j < n then v else f(j)
  }

  lemma {:induction false} Separation(c: Command, trace: seq<Event>) returns (f: nat -> uint16)
    requires Executable(c) && !Normal(c)
    ensures Separates(f, c, trace)
    decreases c
  {
    hide Eval, Executable, Count;
    if c.ty != IF {
      f := j => 1;
      SequenceSeparates(f, c, trace);
    } else if !Normal(c.cmds[0]) {
      assert Executable(c.cmds[0]) by { ChildExecutable(c, 0); }
      f := Separation(c.cmds[0], trace);
      ConditionSeparates(f, c, trace);
    } else {
      ChildExecutable(c, 0);
      var i := if !Normal(c.cmds[1]) then 1 else 2;
      ArityOfIf(c);
      ChildExecutable(c, i);
      var n := |trace| + Count(c.cmds[0], i == 1);
      var after := Eval(Script(Always(i == 1)), c.cmds[0], trace).trace;
      SteadyRun(Always(i == 1), c.cmds[0], trace, i == 1);
      var rest := Separation(c.cmds[i], after);
      f := Switch(ExitOf(i == 1), n, rest);
      BranchSeparates(f, rest, c, i, trace, after);
    }
  }

  lemma ChildExecutable(c: Command, i: nat)
    requires Executable(c) && i < |c.cmds|
    ensures Executable(c.cmds[i])
  {
  }

  lemma ArityOfIf(c: Command)
    requires Executable(c) && c.ty == IF && c.cmds != []
    ensures 2 <= |c.cmds| <= 3
  {
  }

  lemma SequenceSeparates(f: nat -> uint16, c: Command, trace: seq<Event>)
    requires Executable(c) && !Normal(c) && c.ty != IF
    requires forall j: nat :: f(j) == 1
    ensures Separates(f, c, trace)
  {
    hide Eval, Executable, Count, Flatten;
    FlattenCounts(c);
    FlattenedExecutable(c);
    SteadyRun(f, c, trace, false);
    SteadyRun(f, Flatten(c), trace, false);
  }

  lemma EvalIf(o: Oracle, c: Command, trace: seq<Event>)
    requires c.ty == IF && 2 <= |c.cmds| <= 3
    ensures Eval(o, c, trace) ==
      var condition := Eval(o, c.cmds[0], trace);
      if condition.result.Error? then condition
      else if condition.result.exit == 0 then Eval(o, c.cmds[1], condition.trace)
      else if |c.cmds| == 3 then Eval(o, c.cmds[2], condition.trace)
      else condition
    ensures Normalise(c).ty == IF && |Normalise(c).cmds| == |c.cmds|
    ensures forall i | 0 <= i < |c.cmds| :: Normalise(c).cmds[i] == Normalise(c.cmds[i])
  {
  }

  /** A difference in the condition survives whatever the failing commands after it do. */
  lemma ConditionSeparates(f: nat -> uint16, c: Command, trace: seq<Event>)
    requires Executable(c) && c.ty == IF && c.cmds != []
    requires Separates(f, c.cmds[0], trace)
    ensures Separates(f, c, trace)
  {
    hide Eval, Executable, Count, Normalise;
    ArityOfIf(c);
    var e, e' := Eval(Script(f), c.cmds[0], trace), Eval(Script(f), Normalise(c.cmds[0]), trace);
    EvalIf(Script(f), c, trace);
    EvalIf(Script(f), Normalise(c), trace);
    if |c.cmds| == 3 {
      ChildExecutable(c, 2);
      NormalisedExecutable(c.cmds[2]);
      NormaliseCounts(c.cmds[2]);
      SteadyRun(f, c.cmds[2], e.trace, false);
      SteadyRun(f, Normalise(c.cmds[2]), e'.trace, false);
    }
  }

  /** With an unchanged condition, the environment can be made to reach the branch that differs. */
  lemma BranchSeparates(f: nat -> uint16, rest: nat -> uint16, c: Command, i: nat, trace: seq<Event>, after: seq<Event>)
    requires Executable(c) && c.ty == IF && 1 <= i < |c.cmds| <= 3
    requires Normal(c.cmds[0])
    requires after == Eval(Script(Always(i == 1)), c.cmds[0], trace).trace
    requires |after| == |trace| + Count(c.cmds[0], i == 1)
    requires f == Switch(ExitOf(i == 1), |after|, rest)
    requires Separates(rest, c.cmds[i], after)
    ensures Separates(f, c, trace)
  {
    hide Eval, Executable, Count, Normalise, Normal;
    EvalIf(Script(f), c, trace);
    EvalIf(Script(f), Normalise(c), trace);
    NormaliseIdentity(c.cmds[0]);
    ChildExecutable(c, 0);
    SteadyRun(f, c.cmds[0], trace, i == 1);
    AgreeFrom(f, rest, c.cmds[i], after);
    AgreeFrom(f, rest, Normalise(c.cmds[i]), after);
  }

  /** Only the answers from the start of a run on can matter to it. */
  lemma {:induction false} AgreeFrom(f: nat -> uint16, g: nat -> uint16, c: Command, trace: seq<Event>)
    requires forall j: nat | |trace| <= j :: f(j) == g(j)
    ensures Eval(Script(f), c, trace) == Eval(Script(g), c, trace)
    ensures |trace| <= |Eval(Script(f), c, trace).trace|
    decreases c, 0
  {
    if c.cmds == [] || c.ty == PL {
    } else if c.ty == IF {
      if 2 <= |c.cmds| <= 3 {
        AgreeFrom(f, g, c.cmds[0], trace);
        var after := Eval(Script(f), c.cmds[0], trace).trace;
        AgreeFrom(f, g, c.cmds[1], after);
        if |c.cmds| == 3 {
          AgreeFrom(f, g, c.cmds[2], after);
        }
      }
    } else {
      AgreeFromAll(f, g, c.cmds, trace, [], [], NO_EXIT);
    }
  }

  lemma {:induction false} AgreeFromAll(f: nat -> uint16, g: nat -> uint16, cs: seq<Command>, trace: seq<Event>,
                                        out: seq<byte>, err: seq<byte>, exit: uint16)
    requires forall j: nat | |trace| <= j :: f(j) == g(j)
    ensures EvalAll(Script(f), cs, trace, out, err, exit) == EvalAll(Script(g), cs, trace, out, err, exit)
    ensures |trace| <= |EvalAll(Script(f), cs, trace, out, err, exit).trace|
    decreases cs, 1
  {
    hide Eval;
    if cs == [] {
    } else {
      AgreeFrom(f, g, cs[0], trace);
      var first := Eval(Script(f), cs[0], trace);
      if !first.result.Error? {
        AgreeFromAll(f, g, cs[1..], first.trace, out + first.result.out, err + first.result.err, first.result.exit);
      }
    }
  }

  /** A tree with no pipeline and no conditional below a sequence is given its meaning in every environment. */
  lemma ExecutorIsFaithful(o: Oracle, c: Command, trace: seq<Event>)
    requires Normal(c)
    ensures Eval(o, Normalise(c), trace) == Eval(o, c, trace)
  {
    NormaliseIdentity(c);
  }

  /**
   The executor, which runs the normal form, gives an executable tree its meaning in every environment
   exactly when the tree has no pipeline and no conditional below a sequence.
   */
  lemma ExecutorIsFaithfulIff(c: Command)
    requires Executable(c)
    ensures Normal(c) <==>
      forall o: Oracle, trace: seq<Event> :: Eval(o, Normalise(c), trace) == Eval(o, c, trace)
  {
    hide Eval, Executable;
    NormaliseIdentity(c);
    if !Normal(c) {
      var f := Separation(c, []);
      assert Eval(Script(f), Normalise(c), []) != Eval(Script(f), c, []);
    }
  }

  // ---------- instances ----------

  const A: seq<CString> := [[0x61]]
  const B: seq<CString> := [[0x62]]

  function Simple(argv: seq<CString>): Command { Command(SI, argv, []) }

  /** "if a then b", alone and inside a sequence. */
  const CONDITIONAL: Command := Command(IF, [], [Simple(A), Simple(B)])
  const CONDITIONAL_IN_SEQUENCE: Command := Command(SQ, [], [CONDITIONAL])

  function Failing(trace: seq<Event>): Execution { Execution(Done([], [], 1), trace) }

  lemma SimpleFails(argv: seq<CString>, trace: seq<Event>)
    requires Runnable(argv)
    ensures Eval(Script(Always(false)), Simple(argv), trace) == Failing(trace + [Ran(argv)])
  {
  }

  /** Two failing commands one after the other, inside a sequence. */
  lemma BothFail(c: Command, d: Command, trace: seq<Event>, mid: seq<Event>, end: seq<Event>)
    requires Eval(Script(Always(false)), c, trace) == Failing(mid)
    requires Eval(Script(Always(false)), d, mid) == Failing(end)
    ensures Eval(Script(Always(false)), Command(SQ, [], [c]), trace) == Failing(mid)
    ensures Eval(Script(Always(false)), Command(SQ, [], [c, d]), trace) == Failing(end)
  {
    var o := Script(Always(false));
    var nothing: seq<byte> := [];
    assert nothing + nothing == nothing;
    assert [c][1..] == [] && [c, d][1..] == [d] && [d][1..] == [];
    assert EvalAll(o, [], mid, [], [], 1) == Failing(mid) && EvalAll(o, [], end, [], [], 1) == Failing(end);
    assert EvalAll(o, [d], mid, [], [], 1) == Failing(end);
  }

  lemma NormalisedConditional()
    ensures !Normal(CONDITIONAL_IN_SEQUENCE)
    ensures Normalise(CONDITIONAL_IN_SEQUENCE) == Command(SQ, [], [Command(SQ, [], [Simple(A), Simple(B)])])
  {
    assert CONDITIONAL in CONDITIONAL_IN_SEQUENCE.cmds;
    assert CONDITIONAL.cmds != [] && CONDITIONAL.ty == IF;
    assert !OnlySequences(CONDITIONAL);
    assert !OnlySequences(CONDITIONAL_IN_SEQUENCE);
    assert Flatten(Simple(A)) == Simple(A) && Flatten(Simple(B)) == Simple(B);
    assert FlattenAll([Simple(A), Simple(B)]) == [Simple(A), Simple(B)];
    assert Flatten(CONDITIONAL) == Command(SQ, [], [Simple(A), Simple(B)]);
    assert FlattenAll([CONDITIONAL]) == [Flatten(CONDITIONAL)];
  }

  /** When all commands fail, "if a then b" should start a only; inside a sequence the executor starts both. */
  lemma ConditionalInSequence()
    ensures !Normal(CONDITIONAL_IN_SEQUENCE)
    ensures Eval(Script(Always(false)), CONDITIONAL_IN_SEQUENCE, []).trace == [Ran(A)]
    ensures Eval(Script(Always(false)), Normalise(CONDITIONAL_IN_SEQUENCE), []).trace == [Ran(A), Ran(B)]
  {
    hide Eval, Normalise, Normal;
    NormalisedConditional();
    assert [] + [Ran(A)] == [Ran(A)] && [Ran(A)] + [Ran(B)] == [Ran(A), Ran(B)];
    SimpleFails(A, []);
    SimpleFails(B, [Ran(A)]);
    EvalIf(Script(Always(false)), CONDITIONAL, []);
    BothFail(CONDITIONAL, Simple(B), [], [Ran(A)], [Ran(A), Ran(B)]);
    BothFail(Simple(A), Simple(B), [], [Ran(A)], [Ran(A), Ran(B)]);
    var flat := Command(SQ, [], [Simple(A), Simple(B)]);
    SimpleFails(B, [Ran(A), Ran(B)]);
    BothFail(flat, Simple(B), [], [Ran(A), Ran(B)], [Ran(A), Ran(B)] + [Ran(B)]);
  }

  /** A command with an empty later argument: it is stored, but cannot be started. */
  const UNUSABLE: Command := Simple([[0x61], []])
  const NEVER_STARTED: Command := Command(SQ, [], [UNUSABLE, CONDITIONAL])

  lemma UnusableFirst(o: Oracle, cs: seq<Command>, trace: seq<Event>)
    requires cs != [] && cs[0] == UNUSABLE
    ensures Eval(o, Command(SQ, [], cs), trace) == Execution(Error, trace)
  {
    assert UNUSABLE.argv[1] == [];
    assert !Runnable(UNUSABLE.argv);
    assert Eval(o, UNUSABLE, trace) == Execution(Error, trace);
    assert EvalAll(o, cs, trace, [], [], NO_EXIT) == Execution(Error, trace);
  }

  lemma StoredAlthoughUnusable(f: Format)
    requires !f.Kinded?
    ensures WellFormed(f, NEVER_STARTED)
  {
    assert WellFormed(f, Simple(A)) && WellFormed(f, Simple(B)) && WellFormed(f, UNUSABLE);
    assert WellFormed(f, CONDITIONAL);
  }

  /**
   Why the converse needs trees that can be executed: what stands behind a command that cannot be started
   is never reached, so a conditional there makes no difference.
   */
  lemma UnreachedConditional(o: Oracle, trace: seq<Event>)
    ensures WellFormed(OnDisk, NEVER_STARTED) && WellFormed(Listed, NEVER_STARTED)
    ensures !Executable(NEVER_STARTED) && !Normal(NEVER_STARTED)
    ensures Eval(o, Normalise(NEVER_STARTED), trace) == Eval(o, NEVER_STARTED, trace) == Execution(Error, trace)
  {
    hide Eval, WellFormed;
    StoredAlthoughUnusable(OnDisk);
    StoredAlthoughUnusable(Listed);
    assert UNUSABLE in NEVER_STARTED.cmds && CONDITIONAL in NEVER_STARTED.cmds && UNUSABLE.argv[1] == [];
    assert !Executable(UNUSABLE) && !OnlySequences(CONDITIONAL);
    assert FlattenAll(NEVER_STARTED.cmds)[0] == Flatten(UNUSABLE) == UNUSABLE;
    assert Normalise(NEVER_STARTED) == Command(SQ, [], FlattenAll(NEVER_STARTED.cmds));
    UnusableFirst(o, NEVER_STARTED.cmds, trace);
    UnusableFirst(o, FlattenAll(NEVER_STARTED.cmds), trace);
  }
}
