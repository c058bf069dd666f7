/** What trees of sequences start and hand over, compared with their simple commands one after the other. */
module Outputs {
  import opened Bytes
  import opened Commands
  import opened Buffers
  import opened Execution

  // ---------- what a sequence does ----------

  /** The leaves of a tree, left to right. */
  function Leaves(c: Command): seq<seq<CString>>
    decreases c, 0
  {
    if c.cmds == [] then [c.argv] else LeavesOf(c.cmds)
  }

  function LeavesOf(cs: seq<Command>): seq<seq<CString>>
    decreases cs, 1
  {
    if cs == [] then [] else Leaves(cs[0]) + LeavesOf(cs[1..])
  }

  /** Running a list of simple commands one after the other, with nothing trimmed between them. */
  function Replay(o: Oracle, leaves: seq<seq<CString>>, trace: seq<Event>,
                  out: seq<byte>, err: seq<byte>, exit: uint16): Execution
  {
    if leaves == [] then Execution(Done(out, err, exit), trace) else
    var first := EvalSimple(o, leaves[0], trace);
    if first.result.Error? then first
    else Replay(o, leaves[1..], first.trace, out + first.result.out, err + first.result.err, first.result.exit)
  }

  /** No simple command's output, once captured, still ends with a NUL. */
  ghost predicate CleanAnswers(o: Oracle) {
    forall trace, argv :: Runnable(argv) && o(trace, Ran(argv)).Finished? ==>
      Clean(Capture(o(trace, Ran(argv)).out)) && Clean(Capture(o(trace, Ran(argv)).err))
  }

  predicate Clean(bs: seq<byte>) { Capture(bs) == bs }

  lemma CleanConcat(a: seq<byte>, b: seq<byte>)
    requires Clean(a) && Clean(b)
    ensures Clean(a + b)
  {
    if b == [] {
      assert a + b == a;
    }
  }

  lemma {:induction false} ReplayConcat(o: Oracle, a: seq<seq<CString>>, b: seq<seq<CString>>, trace: seq<Event>,
                                        out: seq<byte>, err: seq<byte>, exit: uint16)
    ensures Replay(o, a + b, trace, out, err, exit) ==
      var first := Replay(o, a, trace, out, err, exit);
      if first.result.Error? then first
      else Replay(o, b, first.trace, first.result.out, first.result.err, first.result.exit)
  {
    hide EvalSimple;
    if a == [] {
      assert a + b == b;
    } else {
      assert (a + b)[1..] == a[1..] + b;
      var first := EvalSimple(o, a[0], trace);
      if !first.result.Error? {
        ReplayConcat(o, a[1..], b, first.trace, out + first.result.out, err + first.result.err, first.result.exit);
      }
    }
  }

  /** What was printed and the code that ended before do not change what comes next. */
  lemma {:induction false} ReplayShift(o: Oracle, leaves: seq<seq<CString>>, trace: seq<Event>,
                                       out: seq<byte>, err: seq<byte>, exit: uint16)
    requires leaves != []
    ensures Replay(o, leaves, trace, out, err, exit) ==
      var alone := Replay(o, leaves, trace, [], [], NO_EXIT);
      if alone.result.Error? then alone
      else Execution(Done(out + alone.result.out, err + alone.result.err, alone.result.exit), alone.trace)
  {
    hide EvalSimple;
    var first := EvalSimple(o, leaves[0], trace);
    if !first.result.Error? {
      var o1, e1 := first.result.out, first.result.err;
      assert [] + o1 == o1 && [] + e1 == e1;
      if leaves[1..] != [] {
        ReplayShift(o, leaves[1..], first.trace, out + o1, err + e1, first.result.exit);
        ReplayShift(o, leaves[1..], first.trace, o1, e1, first.result.exit);
        var alone := Replay(o, leaves[1..], first.trace, [], [], NO_EXIT);
        if !alone.result.Error? {
          assert out + o1 + alone.result.out == out + (o1 + alone.result.out);
          assert err + e1 + alone.result.err == err + (e1 + alone.result.err);
        }
      }
    }
  }

  lemma {:induction false} HasLeaves(c: Command)
    ensures Leaves(c) != []
    decreases c
  {
    if c.cmds == [] {
    } else {
      HasLeaves(c.cmds[0]);
    }
  }

  /** Two executions that differ in the bytes of their outputs at most. */
  predicate SameCourse(e: Execution, e': Execution) {
    && e.trace == e'.trace
    && (e.result.Error? <==> e'.result.Error?)
    && (e.result.Done? ==> e.result.exit == e'.result.exit)
  }

  /**
   A tree of sequences only, however deep, starts exactly its leaves from left to right, stops at the
   first that cannot be started, and ends with the exit code of the last. This holds in every
   environment.
   */
  lemma {:induction false} SequencesStartTheirLeaves(o: Oracle, c: Command, trace: seq<Event>)
    requires OnlySequences(c)
    ensures SameCourse(Eval(o, c, trace), Replay(o, Leaves(c), trace, [], [], NO_EXIT))
    decreases c, 0
  {
    if c.cmds == [] {
      hide Capture;
      assert Leaves(c)[1..] == [];
    } else {
      StartedOneByOne(o, c.cmds, trace, NO_EXIT, [], [], [], []);
    }
  }

  lemma {:induction false} StartedOneByOne(o: Oracle, cs: seq<Command>, trace: seq<Event>, exit: uint16,
                                           out: seq<byte>, err: seq<byte>, out': seq<byte>, err': seq<byte>)
    requires forall d | d in cs :: OnlySequences(d)
    ensures SameCourse(EvalAll(o, cs, trace, out, err, exit), Replay(o, LeavesOf(cs), trace, out', err', exit))
    decreases cs, 1
  {
    hide Eval, EvalSimple, Leaves, OnlySequences, Capture;
    if cs == [] {
    } else {
      SequencesStartTheirLeaves(o, cs[0], trace);
      HasLeaves(cs[0]);
      ReplayShift(o, Leaves(cs[0]), trace, out', err', exit);
      ReplayConcat(o, Leaves(cs[0]), LeavesOf(cs[1..]), trace, out', err', exit);
      var first := Eval(o, cs[0], trace);
      var replayed := Replay(o, Leaves(cs[0]), trace, out', err', exit);
      if !first.result.Error? {
        StartedOneByOne(o, cs[1..], first.trace, first.result.exit, out + first.result.out, err + first.result.err,
                        replayed.result.out, replayed.result.err);
      }
    }
  }

  /** Where no captured output ends with a NUL, the outputs are those of the leaves, concatenated. */
  lemma {:induction false} SequencesRunTheirLeaves(o: Oracle, c: Command, trace: seq<Event>)
    requires OnlySequences(c) && CleanAnswers(o)
    ensures Eval(o, c, trace) == Replay(o, Leaves(c), trace, [], [], NO_EXIT)
    ensures var r := Eval(o, c, trace).result; r.Done? ==> Clean(r.out) && Clean(r.err)
    decreases c, 0
  {
    if c.cmds == [] {
      hide Capture;
      var first := EvalSimple(o, c.argv, trace);
      assert Leaves(c)[1..] == [];
      if first.result.Done? {
        assert [] + first.result.out == first.result.out && [] + first.result.err == first.result.err;
      }
    } else {
      LeafByLeaf(o, c.cmds, trace, [], [], NO_EXIT);
    }
  }

  lemma {:induction false} LeafByLeaf(o: Oracle, cs: seq<Command>, trace: seq<Event>,
                                      out: seq<byte>, err: seq<byte>, exit: uint16)
    requires forall d | d in cs :: OnlySequences(d)
    requires CleanAnswers(o) && Clean(out) && Clean(err)
    ensures EvalAll(o, cs, trace, out, err, exit) == Replay(o, LeavesOf(cs), trace, out, err, exit)
    ensures var r := EvalAll(o, cs, trace, out, err, exit).result; r.Done? ==> Clean(r.out) && Clean(r.err)
    decreases cs, 1
  {
    hide Eval, EvalSimple, Leaves, OnlySequences, CleanAnswers, Capture;
    if cs == [] {
    } else {
      SequencesRunTheirLeaves(o, cs[0], trace);
      HasLeaves(cs[0]);
      ReplayShift(o, Leaves(cs[0]), trace, out, err, exit);
      ReplayConcat(o, Leaves(cs[0]), LeavesOf(cs[1..]), trace, out, err, exit);
      var first := Eval(o, cs[0], trace);
      if !first.result.Error? {
        CleanConcat(out, first.result.out);
        CleanConcat(err, first.result.err);
        LeafByLeaf(o, cs[1..], first.trace, out + first.result.out, err + first.result.err, first.result.exit);
      }
    }
  }

  /** A sequence of one simple command. */
  function Wrapped(argv: seq<CString>): Command { Command(SQ, [], [Command(SI, argv, [])]) }

  lemma WrappedRun(o: Oracle, argv: seq<CString>, trace: seq<Event>)
    requires Runnable(argv) && o(trace, Ran(argv)).Finished?
    ensures OnlySequences(Wrapped(argv)) && Leaves(Wrapped(argv)) == [argv]
    ensures var answer := o(trace, Ran(argv));
      && Replay(o, [argv], trace, [], [], NO_EXIT).result == Done(Capture(answer.out), Capture(answer.err), answer.exit)
      && Eval(o, Wrapped(argv), trace).result ==
           Done(Capture(Capture(answer.out)), Capture(Capture(answer.err)), answer.exit)
  {
    hide Capture;
    var leaf := Command(SI, argv, []);
    var first := EvalSimple(o, argv, trace);
    assert [] + first.result.out == first.result.out && [] + first.result.err == first.result.err;
    assert LeavesOf([leaf]) == [argv] + LeavesOf([]);
    assert EvalAll(o, [leaf], trace, [], [], NO_EXIT)
        == EvalAll(o, [], first.trace, first.result.out, first.result.err, first.result.exit);
    assert [argv][1..] == [];
  }

  /**
   Every level of a sequence hands its outputs over through a buffer that drops a trailing NUL. The
   outputs of all trees of sequences are those of their leaves exactly in the environments where no
   captured output of a simple command ends with a NUL.
   */
  lemma OutputsAreThoseOfTheLeavesIff(o: Oracle)
    ensures CleanAnswers(o) <==>
      forall c: Command, trace: seq<Event> | OnlySequences(c) ::
        Eval(o, c, trace) == Replay(o, Leaves(c), trace, [], [], NO_EXIT)
  {
    hide Eval, Replay, Capture, Leaves, OnlySequences, Runnable;
    if CleanAnswers(o) {
      forall c: Command, trace: seq<Event> | OnlySequences(c)
        ensures Eval(o, c, trace) == Replay(o, Leaves(c), trace, [], [], NO_EXIT)
      {
        SequencesRunTheirLeaves(o, c, trace);
      }
    } else {
      var trace, argv :| Runnable(argv) && o(trace, Ran(argv)).Finished? &&
        !(Clean(Capture(o(trace, Ran(argv)).out)) && Clean(Capture(o(trace, Ran(argv)).err)));
      WrappedRun(o, argv, trace);
      assert Eval(o, Wrapped(argv), trace) != Replay(o, Leaves(Wrapped(argv)), trace, [], [], NO_EXIT);
    }
  }

  /** A command that prints "a", NUL, NUL: alone it loses one NUL, and inside a sequence both. */
  lemma NulsLostInSequence(argv: seq<CString>, trace: seq<Event>)
    requires Runnable(argv)
    ensures var o: Oracle := (trace, event) => Finished([0x61, 0, 0], [], 0);
      && Eval(o, Command(SI, argv, []), trace).result == Done([0x61, 0], [], 0)
      && Eval(o, Wrapped(argv), trace).result == Done([0x61], [], 0)
  {
    var o: Oracle := (trace, event) => Finished([0x61, 0, 0], [], 0);
    WrappedRun(o, argv, trace);
    assert Capture([0x61, 0, 0]) == [0x61, 0];
    assert Capture([0x61, 0]) == [0x61];
  }

  // ---------- the exact output of a command ----------

  predicate EndsInNul(bs: seq<byte>) { bs != [] && bs[|bs| - 1] == 0 }

  /** No simple command prints a last NUL. */
  ghost predicate NoNulAtEnd(o: Oracle) {
    forall trace, argv :: Runnable(argv) && o(trace, Ran(argv)).Finished? ==>
      !EndsInNul(o(trace, Ran(argv)).out) && !EndsInNul(o(trace, Ran(argv)).err)
  }

  /** A simple command with the bytes it really printed. */
  function RawSimple(o: Oracle, argv: seq<CString>, trace: seq<Event>): Execution {
    if !Runnable(argv) then Execution(Error, trace) else
    var answer := o(trace, Ran(argv));
    Execution(if answer.Broken? then Error else Done(answer.out, answer.err, answer.exit), trace + [Ran(argv)])
  }

  /** A list of simple commands with all the bytes they really printed, one after the other. */
  function RawReplay(o: Oracle, leaves: seq<seq<CString>>, trace: seq<Event>,
                     out: seq<byte>, err: seq<byte>, exit: uint16): Execution
  {
    if leaves == [] then Execution(Done(out, err, exit), trace) else
    var first := RawSimple(o, leaves[0], trace);
    if first.result.Error? then first
    else RawReplay(o, leaves[1..], first.trace, out + first.result.out, err + first.result.err, first.result.exit)
  }

  lemma NothingTrimmed(o: Oracle)
    requires NoNulAtEnd(o)
    ensures CleanAnswers(o)
    ensures forall argv, trace :: RawSimple(o, argv, trace) == EvalSimple(o, argv, trace)
  {
  }

  lemma {:induction false} NothingLost(o: Oracle, leaves: seq<seq<CString>>, trace: seq<Event>,
                                       out: seq<byte>, err: seq<byte>, exit: uint16)
    requires forall argv, trace :: RawSimple(o, argv, trace) == EvalSimple(o, argv, trace)
    ensures RawReplay(o, leaves, trace, out, err, exit) == Replay(o, leaves, trace, out, err, exit)
  {
    hide RawSimple, EvalSimple;
    if leaves == [] {
    } else {
      var first := EvalSimple(o, leaves[0], trace);
      assert RawSimple(o, leaves[0], trace) == first;
      if !first.result.Error? {
        NothingLost(o, leaves[1..], first.trace, out + first.result.out, err + first.result.err, first.result.exit);
      }
    }
  }

  lemma AloneRun(o: Oracle, argv: seq<CString>, trace: seq<Event>)
    requires Runnable(argv) && o(trace, Ran(argv)).Finished?
    ensures var answer := o(trace, Ran(argv));
      && OnlySequences(Command(SI, argv, [])) && Leaves(Command(SI, argv, [])) == [argv]
      && Eval(o, Command(SI, argv, []), trace).result == Done(Capture(answer.out), Capture(answer.err), answer.exit)
      && RawReplay(o, [argv], trace, [], [], NO_EXIT).result == Done(answer.out, answer.err, answer.exit)
  {
    hide Capture;
    var answer := o(trace, Ran(argv));
    assert [argv][1..] == [];
    assert [] + answer.out == answer.out && [] + answer.err == answer.err;
  }

  /**
   The documented promise: what is handed over is exactly what the commands printed. For all trees of
   sequences, single commands included, it holds exactly in the environments where no simple command
   prints a last NUL.
   */
  lemma ExactOutputIff(o: Oracle)
    ensures NoNulAtEnd(o) <==>
      forall c: Command, trace: seq<Event> | OnlySequences(c) ::
        Eval(o, c, trace) == RawReplay(o, Leaves(c), trace, [], [], NO_EXIT)
  {
    hide Eval, Replay, RawReplay, RawSimple, EvalSimple, Leaves, OnlySequences, Runnable, CleanAnswers;
    if NoNulAtEnd(o) {
      NothingTrimmed(o);
      forall c: Command, trace: seq<Event> | OnlySequences(c)
        ensures Eval(o, c, trace) == RawReplay(o, Leaves(c), trace, [], [], NO_EXIT)
      {
        SequencesRunTheirLeaves(o, c, trace);
        NothingLost(o, Leaves(c), trace, [], [], NO_EXIT);
      }
    } else {
      var trace, argv :| Runnable(argv) && o(trace, Ran(argv)).Finished? &&
        (EndsInNul(o(trace, Ran(argv)).out) || EndsInNul(o(trace, Ran(argv)).err));
      AloneRun(o, argv, trace);
      assert Eval(o, Command(SI, argv, []), trace) != RawReplay(o, [argv], trace, [], [], NO_EXIT);
    }
  }

  /** A command that prints "a" and a NUL: the NUL is lost. */
  lemma LastNulLost(argv: seq<CString>, trace: seq<Event>)
    requires Runnable(argv)
    ensures var o: Oracle := (trace, event) => Finished([0x61, 0], [], 0);
      Eval(o, Command(SI, argv, []), trace).result == Done([0x61], [], 0)
  {
    assert Capture([0x61, 0]) == [0x61];
  }

  // ---------- what is started ----------

  /**
   The argument lists in the events, in order: one for a simple command, those of all stages for a
   pipeline. (A stage that is itself a combination is forked too, but ends with 127 in the code.)
   */
  function Started(events: seq<Event>): seq<seq<CString>> {
    if events == [] then [] else
    (match events[0] case Ran(argv) => [argv] case Piped(stages) => LeavesOf(stages)) + Started(events[1..])
  }

  /** No conditional outside of the pipelines. */
  predicate Unconditional(c: Command) {
    c.cmds == [] || c.ty == PL || (c.ty != IF && forall d | d in c.cmds :: Unconditional(d))
  }

  ghost predicate NeverBroken(o: Oracle) { forall trace, event :: o(trace, event).Finished? }

  lemma {:induction false} StartedConcat(a: seq<Event>, b: seq<Event>)
    ensures Started(a + b) == Started(a) + Started(b)
  {
    hide LeavesOf;
    if a == [] {
      assert a + b == b;
    } else {
      assert (a + b)[1..] == a[1..] + b;
      StartedConcat(a[1..], b);
    }
  }

  /** What one event more starts. */
  lemma StartedNext(trace: seq<Event>, event: Event)
    ensures Started((trace + [event])[|trace|..]) ==
      match event case Ran(argv) => [argv] case Piped(stages) => LeavesOf(stages)
  {
    hide LeavesOf;
    assert (trace + [event])[|trace|..] == [event];
  }

  /** The execution ends, and has started exactly these commands since `trace`. */
  ghost predicate HasStarted(e: Execution, trace: seq<Event>, leaves: seq<seq<CString>>) {
    e.result.Done? && trace <= e.trace && Started(e.trace[|trace|..]) == leaves
  }

  /**
   A tree of sequences and pipelines, in an environment where each start succeeds, starts exactly its
   leaves from left to right: each simple command, and all the stages of each pipeline.
   */
  lemma {:induction false} StartsItsLeaves(o: Oracle, c: Command, trace: seq<Event>)
    requires NeverBroken(o) && Executable(c) && Unconditional(c)
    ensures HasStarted(Eval(o, c, trace), trace, Leaves(c))
    decreases c, 0
  {
    hide LeavesOf, Capture;
    if c.cmds == [] {
      StartedNext(trace, Ran(c.argv));
    } else if c.ty == PL {
      StartedNext(trace, Piped(c.cmds));
    } else {
      StartsAllLeaves(o, c.cmds, trace, [], [], NO_EXIT);
    }
  }

  lemma {:induction false} StartsAllLeaves(o: Oracle, cs: seq<Command>, trace: seq<Event>,
                                           out: seq<byte>, err: seq<byte>, exit: uint16)
    requires NeverBroken(o) && forall d | d in cs :: Executable(d) && Unconditional(d)
    ensures HasStarted(EvalAll(o, cs, trace, out, err, exit), trace, LeavesOf(cs))
    decreases cs, 1
  {
    hide Eval, NeverBroken, Leaves, Executable, Unconditional, Capture;
    if cs == [] {
    } else {
      StartsItsLeaves(o, cs[0], trace);
      var first := Eval(o, cs[0], trace);
      StartsAllLeaves(o, cs[1..], first.trace, out + first.result.out, err + first.result.err, first.result.exit);
      StartedInTwoParts(first, EvalAll(o, cs, trace, out, err, exit), trace, Leaves(cs[0]), LeavesOf(cs[1..]));
    }
  }

  lemma {:induction false} FlattenKeepsLeaves(c: Command)
    ensures Leaves(Flatten(c)) == Leaves(c)
    decreases c, 0
  {
    if c.cmds == [] {
    } else {
      FlattenKeepsAll(c.cmds);
    }
  }

  lemma {:induction false} FlattenKeepsAll(cs: seq<Command>)
    ensures LeavesOf(FlattenAll(cs)) == LeavesOf(cs)
    decreases cs, 1
  {
    hide Leaves, Flatten;
    if cs == [] {
    } else {
      FlattenKeepsLeaves(cs[0]);
      FlattenKeepsAll(cs[1..]);
      assert FlattenAll(cs)[1..] == FlattenAll(cs[1..]);
    }
  }

  lemma {:induction false} SequencesAreUnconditional(c: Command)
    requires OnlySequences(c)
    ensures Unconditional(c)
  {
    forall d | d in c.cmds ensures c.cmds != [] ==> Unconditional(d) {
      SequencesAreUnconditional(d);
    }
  }

  /**
   The executor starts every leaf of a tree, in order, unless the tree itself is a conditional. The
   branches of a conditional below a sequence are therefore all started.
   */
  lemma ExecutorStartsItsLeaves(o: Oracle, c: Command, trace: seq<Event>)
    requires NeverBroken(o) && Executable(c) && (c.cmds != [] ==> c.ty != IF)
    ensures HasStarted(Eval(o, Normalise(c), trace), trace, Leaves(c))
  {
    hide Eval, Leaves, HasStarted, NeverBroken, Executable, OnlySequences;
    NormalisedExecutable(c);
    FlattenKeepsLeaves(c);
    FlattenedIsOnlySequences(c);
    SequencesAreUnconditional(Flatten(c));
    StartsItsLeaves(o, Normalise(c), trace);
  }

  /**
   A conditional starts the leaves of its condition and then those of the branch that the exit code
   selects, which is the first for 0 and the second, if there is one, for any other. It ends as what was
   run last.
   */
  lemma ConditionalStarts(o: Oracle, c: Command, trace: seq<Event>)
    requires NeverBroken(o) && Executable(c) && c.ty == IF && c.cmds != []
    requires forall d | d in c.cmds :: d.cmds != [] ==> d.ty != IF
    ensures var e, condition := Eval(o, Normalise(c), trace), Eval(o, Normalise(c.cmds[0]), trace);
      && condition.result.Done?
      && if condition.result.exit != 0 && |c.cmds| == 2 then
           e == condition && HasStarted(e, trace, Leaves(c.cmds[0]))
         else
           var branch := c.cmds[if condition.result.exit == 0 then 1 else 2];
           && HasStarted(e, trace, Leaves(c.cmds[0]) + Leaves(branch))
           && e.result == Eval(o, Normalise(branch), condition.trace).result
  {
    hide Eval, Leaves, HasStarted, NeverBroken, Executable, Normalise;
    ArityOfIf(c);
    ChildExecutable(c, 0);
    ExecutorStartsItsLeaves(o, c.cmds[0], trace);
    EvalIf(o, c, trace);
    EvalIf(o, Normalise(c), trace);
    var condition := Eval(o, Normalise(c.cmds[0]), trace);
    Ended(condition, trace, Leaves(c.cmds[0]));
    if condition.result.exit == 0 || |c.cmds| == 3 {
      var i := if condition.result.exit == 0 then 1 else 2;
      ChildExecutable(c, i);
      ExecutorStartsItsLeaves(o, c.cmds[i], condition.trace);
      Ended(Eval(o, Normalise(c), trace), condition.trace, Leaves(c.cmds[i]));
      StartedInTwoParts(condition, Eval(o, Normalise(c), trace), trace, Leaves(c.cmds[0]), Leaves(c.cmds[i]));
    }
  }

  lemma Ended(e: Execution, trace: seq<Event>, leaves: seq<seq<CString>>)
    requires HasStarted(e, trace, leaves)
    ensures e.result.Done? && trace <= e.trace
  {
  }

  lemma StartedInTwoParts(first: Execution, last: Execution, trace: seq<Event>,
                          a: seq<seq<CString>>, b: seq<seq<CString>>)
    requires HasStarted(first, trace, a) && HasStarted(last, first.trace, b)
    ensures HasStarted(last, trace, a + b)
  {
    StartedConcat(first.trace[|trace|..], last.trace[|first.trace|..]);
    assert last.trace[|trace|..] == first.trace[|trace|..] + last.trace[|first.trace|..];
  }

  /** All but a trailing NUL, as it is handed over. */
  function WithoutLastNul(bs: seq<byte>): seq<byte> { if EndsInNul(bs) then bs[..|bs| - 1] else bs }

  /**
   A pipeline of two commands or more asks the environment about exactly its sub-commands, and ends
   with the exit code and the output of that answer; its error output is empty.
   */
  lemma PipelineRun(o: Oracle, c: Command, trace: seq<Event>)
    requires c.ty == PL && |c.cmds| >= 2
    ensures var e, answer := Eval(o, Normalise(c), trace), o(trace, Piped(c.cmds));
      && e.trace == trace + [Piped(c.cmds)]
      && (answer.Broken? ==> e.result == Error)
      && (answer.Finished? ==> e.result == Done(WithoutLastNul(answer.out), [], answer.exit))
  {
  }

  /** A simple command is started with its whole argument list, and hands over both outputs. */
  lemma SimpleRun(o: Oracle, c: Command, trace: seq<Event>)
    requires c.cmds == [] && Runnable(c.argv)
    ensures var e, answer := Eval(o, Normalise(c), trace), o(trace, Ran(c.argv));
      && e.trace == trace + [Ran(c.argv)]
      && (answer.Broken? ==> e.result == Error)
      && (answer.Finished? ==>
            e.result == Done(WithoutLastNul(answer.out), WithoutLastNul(answer.err), answer.exit))
  {
  }

  /** What cannot be started: an empty argument list or argument, or a pipeline of one command. */
  lemma NotStarted(o: Oracle, c: Command, trace: seq<Event>)
    requires if c.cmds == [] then c.argv == [] || [] in c.argv else c.ty == PL && |c.cmds| == 1
    ensures Eval(o, Normalise(c), trace) == Execution(Error, trace)
  {
  }
}
