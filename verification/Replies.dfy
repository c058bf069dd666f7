/** What the replies tell a client about its tasks, over whole runs of the daemon. */
module Replies {
  import opened Bytes
  import opened Commands
  import opened Protocol
  import opened Store
  import opened TaskTree
  import opened Daemon
  import opened Identifiers
  import Execution
  import Outputs
  import Runs

  // ---------- a task along a run ----------

  /** No request of the run concerns the id. Executions of the task may be among the steps. */
  ghost predicate Stays(w: World, steps: seq<Step>, id: uint64)
    decreases |steps|
  {
    steps == [] ||
    ((steps[0].Executed? || !Runs.Concerns(w, steps[0], id)) && Stays(Next(w, steps[0]), steps[1..], id))
  }

  /** The step records a run of the task. */
  predicate IsRunOf(s: Step, id: uint64) { s.Executed? && s.id == id }

  /** The runs of the task among the steps, in order. */
  function RunsIn(steps: seq<Step>, id: uint64): seq<Run> {
    if steps == [] then [] else
    (if IsRunOf(steps[0], id) then [steps[0].run] else []) + RunsIn(steps[1..], id)
  }

  /** The outputs of the last of these runs, or `before` if there is none. */
  function LastOutputs(steps: seq<Step>, id: uint64, before: Option<(seq<byte>, seq<byte>)>)
    : Option<(seq<byte>, seq<byte>)>
  {
    if steps == [] then before else
    LastOutputs(steps[1..], id, if IsRunOf(steps[0], id) then Some((steps[0].output, steps[0].errors)) else before)
  }

  /** What one step makes of the record of a live task that it does not remove or issue again. */
  lemma RecordStep(w: World, s: Step, id: uint64)
    requires id in w.tasks && (s.Executed? || !Runs.Concerns(w, s, id))
    ensures id in Next(w, s).tasks
    ensures var r := w.tasks[id];
      Next(w, s).tasks[id] ==
        if IsRunOf(s, id) then Record(r.timing, r.cmd, r.runs + [s.run], Some((s.output, s.errors))) else r
  {
    hide NextId, FirstRepeat, Combined, ValidArguments;
  }

  lemma AbsentStaysAbsent(w: World, s: Step, id: uint64)
    requires id !in w.tasks && (s.Executed? || !Runs.Concerns(w, s, id))
    ensures id !in Next(w, s).tasks
  {
    hide Runs.Concerns, After;
    if s.Asked? {
      Runs.OthersUntouched(w, s, id);
    }
  }

  /** A live task keeps its timing and tree, and its history grows by exactly its runs. */
  lemma {:induction false} RecordAlong(w: World, steps: seq<Step>, id: uint64)
    requires Stays(w, steps, id) && id in w.tasks
    ensures var w', r := NextAll(w, steps), w.tasks[id];
      && id in w'.tasks
      && w'.tasks[id] ==
           Record(r.timing, r.cmd, r.runs + RunsIn(steps, id), LastOutputs(steps, id, r.outputs))
    decreases |steps|
  {
    hide Next, Runs.Concerns, RunsIn, LastOutputs, IsRunOf;
    var r := w.tasks[id];
    if steps == [] {
      NothingRun(r, steps, id);
    } else {
      RecordStep(w, steps[0], id);
      FirstRun(r, steps, id);
      RecordAlong(Next(w, steps[0]), steps[1..], id);
    }
  }

  /** Without a step nothing is added, and the first step adds its run if it is one of the task. */
  lemma NothingRun(r: Record, steps: seq<Step>, id: uint64)
    requires steps == []
    ensures r.runs + RunsIn(steps, id) == r.runs && LastOutputs(steps, id, r.outputs) == r.outputs
  {
  }

  lemma FirstRun(r: Record, steps: seq<Step>, id: uint64)
    requires steps != []
    ensures var s, rest := steps[0], steps[1..];
      if IsRunOf(s, id) then
        && r.runs + RunsIn(steps, id) == r.runs + [s.run] + RunsIn(rest, id)
        && LastOutputs(steps, id, r.outputs) == LastOutputs(rest, id, Some((s.output, s.errors)))
      else
        && r.runs + RunsIn(steps, id) == r.runs + RunsIn(rest, id)
        && LastOutputs(steps, id, r.outputs) == LastOutputs(rest, id, r.outputs)
  {
    hide RunsIn, LastOutputs;
    RunsUnfold(steps, id);
    OutputsUnfold(steps, id, r.outputs);
  }

  lemma RunsUnfold(steps: seq<Step>, id: uint64)
    requires steps != []
    ensures RunsIn(steps, id) == (if IsRunOf(steps[0], id) then [steps[0].run] else []) + RunsIn(steps[1..], id)
  {
  }

  lemma OutputsUnfold(steps: seq<Step>, id: uint64, before: Option<(seq<byte>, seq<byte>)>)
    requires steps != []
    ensures LastOutputs(steps, id, before) ==
      LastOutputs(steps[1..], id, if IsRunOf(steps[0], id) then Some((steps[0].output, steps[0].errors)) else before)
  {
  }

  lemma {:induction false} AbsentAlong(w: World, steps: seq<Step>, id: uint64)
    requires Stays(w, steps, id) && id !in w.tasks
    ensures id !in NextAll(w, steps).tasks
    decreases |steps|
  {
    hide Next, Runs.Concerns;
    if steps == [] {
    } else {
      AbsentStaysAbsent(w, steps[0], id);
      AbsentAlong(Next(w, steps[0]), steps[1..], id);
    }
  }

  // ---------- the replies about one task ----------

  /** The two kinds of error, as the client receives them. */
  const NOT_FOUND_BYTES: seq<byte> := [0x45, 0x52, 0x4e, 0x46]
  const NOT_RUN_BYTES: seq<byte> := [0x45, 0x52, 0x4e, 0x52]

  lemma ErrorBytes()
    ensures EncodeResponse(NotFound()) == NOT_FOUND_BYTES
    ensures EncodeResponse(Response(ANSTYPE_ERROR, 0, Failure(NOT_RUN))) == NOT_RUN_BYTES
  {
    assert BE(0x45, 1) == [0x45] && BE(0x4e, 1) == [0x4e];
    assert BE(0x4552, 2) == [0x45, 0x52] && BE(0x4e46, 2) == [0x4e, 0x46] && BE(0x4e52, 2) == [0x4e, 0x52];
  }

  predicate SaysNotFound(r: Response) { EncodeResponse(r) == NOT_FOUND_BYTES }

  predicate SaysNotRun(r: Response) { EncodeResponse(r) == NOT_RUN_BYTES }

  /** The four requests about the history and the outputs of a task, and its removal. */
  function Queries(id: uint64): set<Request> { {Times(id), Stdout(id), Stderr(id), Remove(id)} }

  lemma UnknownTask(w: World, id: uint64, req: Request, r: Response)
    requires id !in w.tasks && req in Queries(id) && Answers(w, req, r)
    ensures SaysNotFound(r)
  {
    hide EncodeResponse;
    ErrorBytes();
  }

  /** The task `t` is in the list, and nothing else has its id. */
  ghost predicate ListedOnce(tasks: seq<Task>, t: Task) {
    exists i :: 0 <= i < |tasks| && tasks[i] == t && forall j | 0 <= j < |tasks| && j != i :: tasks[j].id != t.id
  }

  lemma LiveIsListed(w: World, id: uint64, r: Response)
    requires Answers(w, ListTasks, r) && id in w.tasks && w.tasks[id].cmd.Some?
    ensures r.anstype == ANSTYPE_OK && r.opcode == LIST && r.body.Listing?
    ensures ListedOnce(r.body.tasks, Protocol.Task(id, w.tasks[id].timing, w.tasks[id].cmd.value))
  {
    var tasks := r.body.tasks;
    assert IsUsable(w, id);
    var t :| t in tasks && t.id == id;
    var i :| 0 <= i < |tasks| && tasks[i] == t;
    assert IsLoaded(w, tasks[i]);
  }

  /** The history is the whole list of runs, and the outputs come back by the request that asks for them. */
  lemma LiveIsReported(w: World, id: uint64, times: Response, out: Response, err: Response)
    requires id in w.tasks
    requires Answers(w, Times(id), times) && Answers(w, Stdout(id), out) && Answers(w, Stderr(id), err)
    ensures times == Response(ANSTYPE_OK, TIMES_EXITCODES, History(w.tasks[id].runs))
    ensures match w.tasks[id].outputs
      case None => SaysNotRun(out) && SaysNotRun(err)
      case Some(both) =>
        && out == Response(ANSTYPE_OK, STDOUT, Captured(both.0))
        && err == Response(ANSTYPE_OK, STDERR, Captured(both.1))
  {
    hide EncodeResponse;
    ErrorBytes();
  }

  // ---------- the life of a task ----------

  /**
   CREATE succeeds exactly on a list whose first argument is not empty, as far as the counts fit 32
   bits; otherwise nothing changes.
   */
  lemma CreateReply(w: World, timing: Timing, argv: seq<CString>, r: Response)
    requires Answers(w, Create(timing, argv), r)
    requires Fits32(|argv|) && forall s | s in argv :: Fits32(|s|)
    ensures if argv != [] && argv[0] != [] then r.anstype == ANSTYPE_OK && r.opcode == CREATE && r.body.Created?
      else SaysNotFound(r) && After(w, Create(timing, argv)) == w
  {
    hide NextId, EncodeResponse;
    ErrorBytes();
  }

  /**
   From the reply to CREATE on, as long as no request concerns its id, the task is listed exactly once,
   with its timing and its whole command; its history is the list of its runs in order; and its outputs
   are those of the last run, or NOT_RUN before the first.
   */
  lemma LifeOfTask(w: World, timing: Timing, argv: seq<CString>, id: uint64, steps: seq<Step>,
                   created: Response, listed: Response, times: Response, out: Response, err: Response)
    requires Answers(w, Create(timing, argv), created) && created.body == Created(id)
    requires Stays(After(w, Create(timing, argv)), steps, id)
    requires var w' := NextAll(After(w, Create(timing, argv)), steps);
      && Answers(w', ListTasks, listed) && Answers(w', Times(id), times)
      && Answers(w', Stdout(id), out) && Answers(w', Stderr(id), err)
    ensures listed.body.Listing? && ListedOnce(listed.body.tasks, Protocol.Task(id, timing, Command(SI, argv, [])))
    ensures times == Response(ANSTYPE_OK, TIMES_EXITCODES, History(RunsIn(steps, id)))
    ensures match LastOutputs(steps, id, None)
      case None => SaysNotRun(out) && SaysNotRun(err)
      case Some(both) =>
        && out == Response(ANSTYPE_OK, STDOUT, Captured(both.0))
        && err == Response(ANSTYPE_OK, STDERR, Captured(both.1))
  {
    hide NextId, Stays, NextAll, Answers, SaysNotRun, ListedOnce;
    var w1 := After(w, Create(timing, argv));
    var w' := NextAll(w1, steps);
    CreatedRecord(w, timing, argv, id, created);
    RecordAlong(w1, steps, id);
    assert [] + RunsIn(steps, id) == RunsIn(steps, id);
    LiveIsListed(w', id, listed);
    LiveIsReported(w', id, times, out, err);
  }

  lemma CreatedRecord(w: World, timing: Timing, argv: seq<CString>, id: uint64, created: Response)
    requires Answers(w, Create(timing, argv), created) && created.body == Created(id)
    ensures var w1 := After(w, Create(timing, argv));
      id in w1.tasks && w1.tasks[id] == Record(timing, Some(Command(SI, argv, [])), [], None)
  {
    hide NextId;
  }

  /** Executing what the listing shows for a created task starts that command once, with all its arguments. */
  lemma CreatedIsExecuted(w: World, timing: Timing, argv: seq<CString>, id: uint64, steps: seq<Step>,
                          created: Response, listed: Response, t: Task,
                          o: Execution.Oracle, trace: seq<Execution.Event>)
    requires Answers(w, Create(timing, argv), created) && created.body == Created(id)
    requires Stays(After(w, Create(timing, argv)), steps, id)
    requires Answers(NextAll(After(w, Create(timing, argv)), steps), ListTasks, listed)
    requires t in listed.body.tasks && t.id == id && Execution.Runnable(argv)
    ensures t.timing == timing
    ensures Execution.Eval(o, Execution.Normalise(t.cmd), trace).trace == trace + [Execution.Ran(argv)]
  {
    hide NextId, Stays, NextAll, Execution.Runnable, After, Execution.Eval, Execution.Normalise;
    var w1 := After(w, Create(timing, argv));
    CreatedRecord(w, timing, argv, id, created);
    RecordAlong(w1, steps, id);
    assert IsLoaded(NextAll(w1, steps), t);
    Outputs.SimpleRun(o, Command(SI, argv, []), trace);
  }

  // ---------- the outputs of a run ----------

  /**
   What an execution hands over is what the client is told, whatever happens to other tasks in between:
   the output by STDOUT, the error output by STDERR, and time and exit code as the last pair of TIMES.
   */
  lemma RunIsReported(w: World, id: uint64, time: int64, output: seq<byte>, errors: seq<byte>, exit: uint16,
                      steps: seq<Step>, times: Response, out: Response, err: Response)
    requires id in w.tasks
    requires var w1 := AfterExecution(w, id, time, Execution.Done(output, errors, exit));
      Stays(w1, steps, id) && RunsIn(steps, id) == [] &&
      var w' := NextAll(w1, steps);
      Answers(w', Times(id), times) && Answers(w', Stdout(id), out) && Answers(w', Stderr(id), err)
    ensures out == Response(ANSTYPE_OK, STDOUT, Captured(output))
    ensures err == Response(ANSTYPE_OK, STDERR, Captured(errors))
    ensures times == Response(ANSTYPE_OK, TIMES_EXITCODES, History(w.tasks[id].runs + [Run.Run(time, exit)]))
  {
    hide Stays, NextAll, Answers;
    var w1 := AfterExecution(w, id, time, Execution.Done(output, errors, exit));
    RecordAlong(w1, steps, id);
    NoRunsNoOutputs(steps, id, w1.tasks[id].outputs);
    assert w1.tasks[id].runs + [] == w1.tasks[id].runs;
    LiveIsReported(NextAll(w1, steps), id, times, out, err);
  }

  lemma {:induction false} NoRunsNoOutputs(steps: seq<Step>, id: uint64, before: Option<(seq<byte>, seq<byte>)>)
    requires RunsIn(steps, id) == []
    ensures LastOutputs(steps, id, before) == before
  {
    if steps == [] {
    } else {
      NoRunsNoOutputs(steps[1..], id, before);
    }
  }

  /** For a simple command these are the two outputs of the process, each without a last NUL. */
  lemma SimpleRunIsReported(w: World, id: uint64, time: int64, o: Execution.Oracle, argv: seq<CString>,
                            trace: seq<Execution.Event>, steps: seq<Step>,
                            times: Response, out: Response, err: Response)
    requires id in w.tasks && Execution.Runnable(argv) && o(trace, Execution.Ran(argv)).Finished?
    requires var e := Execution.Eval(o, Execution.Normalise(Command(SI, argv, [])), trace);
      var w1 := AfterExecution(w, id, time, e.result);
      Stays(w1, steps, id) && RunsIn(steps, id) == [] &&
      var w' := NextAll(w1, steps);
      Answers(w', Times(id), times) && Answers(w', Stdout(id), out) && Answers(w', Stderr(id), err)
    ensures var answer := o(trace, Execution.Ran(argv));
      && out == Response(ANSTYPE_OK, STDOUT, Captured(Outputs.WithoutLastNul(answer.out)))
      && err == Response(ANSTYPE_OK, STDERR, Captured(Outputs.WithoutLastNul(answer.err)))
      && times == Response(ANSTYPE_OK, TIMES_EXITCODES, History(w.tasks[id].runs + [Run.Run(time, answer.exit)]))
  {
    hide Stays, NextAll, Answers, Execution.Eval, Execution.Normalise, Execution.Runnable, AfterExecution;
    hide Outputs.WithoutLastNul;
    var answer := o(trace, Execution.Ran(argv));
    Outputs.SimpleRun(o, Command(SI, argv, []), trace);
    RunIsReported(w, id, time, Outputs.WithoutLastNul(answer.out), Outputs.WithoutLastNul(answer.err), answer.exit,
                  steps, times, out, err);
  }

  /** A run that could not be started leaves no trace. */
  lemma FailedRunChangesNothing(w: World, id: uint64, time: int64)
    ensures AfterExecution(w, id, time, Execution.Error) == w
  {
  }

  // ---------- COMBINE and REMOVE ----------

  /**
   COMBINE succeeds exactly on a non-empty list of distinct live ids. Unless the type is SI, the new id
   is then listed once, with the given timing and type and the trees of the listed tasks in the order of
   the request, as long as no request concerns it.
   */
  lemma CombineThenList(w: World, timing: Timing, ty: uint16, ids: seq<uint64>, id: uint64, steps: seq<Step>,
                        created: Response, listed: Response)
    requires Answers(w, Combine(timing, ty, ids), created) && created.body == Created(id)
    requires ty != SI && forall k | k in ids && k in w.tasks :: w.tasks[k].cmd.Some?
    requires Stays(After(w, Combine(timing, ty, ids)), steps, id)
    requires Answers(NextAll(After(w, Combine(timing, ty, ids)), steps), ListTasks, listed)
    ensures listed.body.Listing?
    ensures exists t ::
      && ListedOnce(listed.body.tasks, t)
      && t.id == id && t.timing == timing && t.cmd.ty == ty && t.cmd.argv == [] && |t.cmd.cmds| == |ids|
      && forall k | 0 <= k < |ids| :: ids[k] in w.tasks && w.tasks[ids[k]].cmd == Some(t.cmd.cmds[k])
  {
    hide NextId, FirstRepeat, Stays, NextAll, ListedOnce;
    var w1 := After(w, Combine(timing, ty, ids));
    var cmds := CmdsOf(w.tasks, ids);
    assert None !in cmds by {
      forall k | 0 <= k < |cmds| ensures cmds[k].Some? {
        assert ids[k] in w.tasks;
      }
    }
    var c := Command(ty, [], Values(cmds));
    assert w1.tasks[id] == NewRecord(timing, Some(c));
    RecordAlong(w1, steps, id);
    LiveIsListed(NextAll(w1, steps), id, listed);
    assert ListedOnce(listed.body.tasks, Protocol.Task(id, timing, c));
  }

  lemma CombineReply(w: World, timing: Timing, ty: uint16, ids: seq<uint64>, r: Response)
    requires Answers(w, Combine(timing, ty, ids), r)
    ensures
      if ids != [] && (forall k | k in ids :: k in w.tasks) && forall i, j | 0 <= i < j < |ids| :: ids[i] != ids[j]
      then r.anstype == ANSTYPE_OK && r.opcode == COMBINE && r.body.Created?
      else SaysNotFound(r)
  {
    hide NextId, EncodeResponse, FirstRepeat;
    ErrorBytes();
    if forall i, j | 0 <= i < j < |ids| :: ids[i] != ids[j] {
      FirstRepeatIs(ids, |ids|);
    } else {
      assert FirstRepeat(ids) < |ids|;
    }
  }

  /** The consumed tasks are gone, and the others are listed as before. */
  lemma CombinedAreGone(w: World, timing: Timing, ty: uint16, ids: seq<uint64>, id: uint64,
                        created: Response, before: Response, after: Response)
    requires w.dir && HasRoom(w)
    requires Answers(w, Combine(timing, ty, ids), created) && created.body == Created(id)
    requires Answers(w, ListTasks, before)
    requires Answers(After(w, Combine(timing, ty, ids)), ListTasks, after)
    ensures forall t | t in after.body.tasks :: t.id !in ids
    ensures forall t: Task | t.id != id && t.id !in ids :: t in before.body.tasks <==> t in after.body.tasks
  {
    hide NextId, FirstRepeat, Combined;
    NextIdIsFresh(w);
    assert ids[..FirstRepeat(ids)] == ids;
    var w1 := After(w, Combine(timing, ty, ids));
    forall t: Task | t.id != id && t.id !in ids ensures t in before.body.tasks <==> t in after.body.tasks {
      ListedIffLoaded(w, before.body.tasks, t);
      ListedIffLoaded(w1, after.body.tasks, t);
    }
  }

  lemma ListedIffLoaded(w: World, tasks: seq<Task>, t: Task)
    requires IsListing(w, tasks)
    ensures t in tasks <==> IsLoaded(w, t)
  {
    if IsLoaded(w, t) {
      var u :| u in tasks && u.id == t.id;
      assert IsLoaded(w, u);
    }
  }

  /**
   REMOVE succeeds exactly on a live task. From then on, until a request issues the id again, the task is
   not listed and everything asked about it is answered with NOT_FOUND, also a second REMOVE.
   */
  lemma GoneOnceRemoved(w: World, id: uint64, steps: seq<Step>, removed: Response,
                        req: Request, r: Response, listed: Response)
    requires Answers(w, Remove(id), removed)
    requires Stays(After(w, Remove(id)), steps, id) && req in Queries(id)
    requires var w' := NextAll(After(w, Remove(id)), steps); Answers(w', req, r) && Answers(w', ListTasks, listed)
    ensures if id in w.tasks then removed == Response(ANSTYPE_OK, REMOVE, Protocol.Done) else SaysNotFound(removed)
    ensures SaysNotFound(r)
    ensures forall t | t in listed.body.tasks :: t.id != id
  {
    hide Stays, NextAll, SaysNotFound;
    var w1 := After(w, Remove(id));
    AbsentAlong(w1, steps, id);
    UnknownTask(NextAll(w1, steps), id, req, r);
    if id !in w.tasks {
      UnknownTask(w, id, Remove(id), removed);
    }
    forall t | t in listed.body.tasks ensures t.id != id {
      assert IsLoaded(NextAll(w1, steps), t);
    }
  }

  // ---------- the ids in the replies ----------

  lemma {:induction false} IssuedConcat(w: World, a: seq<Step>, b: seq<Step>)
    ensures Issued(w, a + b) == Issued(w, a) + Issued(NextAll(w, a), b)
    decreases |a|
  {
    hide Next, Creates, NextId;
    if a == [] {
      assert a + b == b;
    } else {
      assert (a + b)[1..] == a[1..] + b;
      IssuedConcat(Next(w, a[0]), a[1..], b);
    }
  }

  /** A reply that names an id names the one that was issued to the new task. */
  lemma CreatedIdIsIssued(w: World, steps: seq<Step>, req: Request, r: Response)
    requires Answers(NextAll(w, steps), req, r) && r.body.Created?
    ensures Issued(w, steps + [Asked(req)]) == Issued(w, steps) + [r.body.id]
  {
    hide NextId, NextAll, FirstRepeat;
    IssuedConcat(w, steps, [Asked(req)]);
    var w' := NextAll(w, steps);
    assert Creates(w', Asked(req));
    assert [Asked(req)][1..] == [];
  }

  /**
   Two replies of one run from an empty installation name different ids, the later one the larger,
   unless the largest live id, other than 0, was removed before a later creation.
   */
  lemma LaterIdIsLarger(steps: seq<Step>, req: Request, r: Response, more: seq<Step>, req': Request, r': Response)
    requires var run := steps + [Asked(req)] + more;
      && Answers(NextAll(START, steps), req, r) && r.body.Created?
      && Answers(NextAll(START, run), req', r') && r'.body.Created?
      && RoomAlong(START, run + [Asked(req')])
      && !exists i: nat, j: nat :: LosesAt(START, run + [Asked(req')], i, j)
    ensures r.body.id < r'.body.id
  {
    hide NextAll, Answers, RoomAlong, LosesAt, Issued;
    var first, run := steps + [Asked(req)], steps + [Asked(req)] + more;
    CreatedIdIsIssued(START, steps, req, r);
    IssuedConcat(START, first, more);
    CreatedIdIsIssued(START, run, req', r');
    IdsIncrease(run + [Asked(req')]);
    var ids := Issued(START, run + [Asked(req')]);
    var k := |Issued(START, steps)|;
    assert ids[k] == r.body.id && ids[|ids| - 1] == r'.body.id && k < |ids| - 1;
  }
}
