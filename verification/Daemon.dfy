/**
 The daemon's answers to its clients, after `handle_request`, `execute_task_with_timestamp` and
 `daemon_loop` of `src/erraid.c`, as a refinement of operations on a plain map of tasks.
 */
module Daemon {
  import opened Bytes
  import opened Commands
  import opened Protocol
  import opened Store
  import opened TaskTree
  import Execution

  // ---------- the abstract daemon ----------

  function NotFound(): Response { Response(ANSTYPE_ERROR, 0, Failure(NOT_FOUND)) }

  function Success(op: uint16, body: Body): Response { Response(ANSTYPE_OK, op, body) }

  /** The simple command that CREATE stores. */
  function SimpleCommand(argv: seq<CString>): Command { Command(SI, argv, []) }

  /** What a request does to the tasks. */
  ghost function After(w: World, req: Request): World {
    match req
    case Create(timing, argv) =>
      if !ValidArguments(argv) then w
      else World(true, w.tasks[NextId(w) := NewRecord(timing, Some(SimpleCommand(argv)))])
    case Remove(id) => World(w.dir, w.tasks - {id})
    case Combine(timing, ty, ids) => Combination(w, ids, ty, timing)
    case _ => w
  }

  /** COMBINE succeeds on a non-empty list of distinct live ids. */
  ghost predicate CanCombine(w: World, ids: seq<uint64>) {
    ids != [] && (forall id | id in ids :: id in w.tasks) && FirstRepeat(ids) == |ids|
  }

  /** The reply a client is entitled to. Only the order of a listing is left open. */
  ghost predicate Answers(w: World, req: Request, r: Response) {
    match req
    case ListTasks => r.body.Listing? && r == Success(LIST, r.body) && IsListing(w, r.body.tasks)
    case Terminate => r == Success(TERMINATE, Done)
    case Create(_, argv) => r == if ValidArguments(argv) then Success(CREATE, Created(NextId(w))) else NotFound()
    case Combine(_, _, ids) => r == if CanCombine(w, ids) then Success(COMBINE, Created(NextId(w))) else NotFound()
    case Remove(id) => r == if id in w.tasks then Success(REMOVE, Done) else NotFound()
    case Times(id) => r == if id in w.tasks then Success(TIMES_EXITCODES, History(w.tasks[id].runs)) else NotFound()
    case Stdout(id) => r == OutputAnswer(w, STDOUT, id)
    case Stderr(id) => r == OutputAnswer(w, STDERR, id)
  }

  /** NOT_FOUND for an unknown task, NOT_RUN for a task that never ran, else the last output. */
  ghost function OutputAnswer(w: World, op: uint16, id: uint64): Response {
    if id !in w.tasks then NotFound()
    else if w.tasks[id].outputs.None? then Response(ANSTYPE_ERROR, 0, Failure(NOT_RUN))
    else Success(op, Captured(if op == STDOUT then w.tasks[id].outputs.value.0 else w.tasks[id].outputs.value.1))
  }

  // ---------- the daemon ----------

  class Erraid {
    const store: TaskStore
    const executor: Execution.Executor
    var stop: bool

    ghost predicate Valid()
      reads this, store
    {
      store.Valid()
    }

    constructor (oracle: Execution.Oracle)
      ensures Valid() && fresh(store) && fresh(executor) && !stop
      ensures store.View() == World(false, map[])
      ensures executor.oracle == oracle && executor.trace == []
    {
      store := new TaskStore();
      executor := new Execution.Executor(oracle);
      stop := false;
    }

    /** One request, from its arrival to its reply: `handle_request`. */
    method HandleRequest(req: Request) returns (r: Response)
      requires Valid() && HasRoom(store.View())
      requires req.Create? ==> forall s | s in req.argv :: Fits32(|s|)
      requires req.Create? ==> Fits32(|req.argv|)
      requires req.Combine? ==> Fits32(|req.ids|)
      modifies this, store
      ensures Valid()
      ensures store.View() == After(old(store.View()), req)
      ensures Answers(old(store.View()), req, r)
      ensures stop == (old(stop) || req.Terminate?)
    {
      match req {
        case ListTasks =>
          var tasks := store.LoadAllTasks();
          r := Success(LIST, Listing(tasks));
        case Times(id) => r := HandleTimes(id);
        case Stdout(id) => r := HandleOutput(STDOUT, id);
        case Stderr(id) => r := HandleOutput(STDERR, id);
        case Terminate =>
          stop := true;
          r := Success(TERMINATE, Done);
        case Create(timing, argv) => r := HandleCreate(timing, argv);
        case Remove(id) =>
          var removed := store.RemoveTask(id);
          r := if removed then Success(REMOVE, Done) else NotFound();
        case Combine(timing, ty, ids) =>
          var ok, newId := store.CombineTasks(ids, ty, timing);
          r := if ok then Success(COMBINE, Created(newId)) else NotFound();
      }
    }

    method HandleCreate(timing: Timing, argv: seq<CString>) returns (r: Response)
      requires Valid() && HasRoom(store.View())
      requires Fits32(|argv|) && forall s | s in argv :: Fits32(|s|)
      modifies store
      ensures Valid()
      ensures store.View() == After(old(store.View()), Create(timing, argv))
      ensures Answers(old(store.View()), Create(timing, argv), r)
    {
      hide NextId, SavedTask, ValidTask, RecordOf;
      if |argv| < 1 || argv[0] == [] { return NotFound(); }
      ghost var before := store.View();
      var id := store.GenerateTaskId();
      NextIdIsFresh(before);
      if !before.dir { store.TasksNeedDir(); }
      var t := Task.Task(id, timing, SimpleCommand(argv));
      var saved := store.SaveTaskToDir(t);
      r := if saved then Success(CREATE, Created(id)) else NotFound();
    }

    method HandleTimes(id: uint64) returns (r: Response)
      requires Valid()
      ensures Answers(store.View(), Times(id), r)
    {
      var found := store.TaskExists(id);
      if !found { return NotFound(); }
      var errnoIsBenign: bool := *;
      var runs := store.ReadExecutionLogs(id, errnoIsBenign);
      r := if runs.None? then NotFound() else Success(TIMES_EXITCODES, History(runs.value));
    }

    method HandleOutput(op: uint16, id: uint64) returns (r: Response)
      requires Valid()
      requires op == STDOUT || op == STDERR
      ensures r == OutputAnswer(store.View(), op, id)
    {
      var found := store.TaskExists(id);
      if !found { return NotFound(); }
      var outcome := store.ReadStream(id, if op == STDOUT then OUT else ERR);
      match outcome {
        case Missing => r := Response(ANSTYPE_ERROR, 0, Failure(NOT_RUN));
        case Broken => r := NotFound();
        case Contents(data) => r := Success(op, Captured(data));
      }
    }

    /**
     `execute_task_with_timestamp`: runs the tree and, unless that failed, records the run under the
     given time. The executor runs the normal form of the tree.
     */
    method ExecuteTask(id: uint64, cmd: Command, time: int64) returns (ok: bool)
      requires Valid()
      modifies store, executor
      ensures Valid()
      ensures var e := Execution.Eval(executor.oracle, Execution.Normalise(cmd), old(executor.trace));
        && executor.trace == e.trace
        && (ok <==> e.result.Done?)
        && store.View() == AfterExecution(old(store.View()), id, time, e.result)
    {
      hide Execution.Eval, Execution.Normalise;
      var result := executor.Dispatch(cmd);
      if result.Error? { return false; }
      store.RecordRun(id, Run.Run(time, result.exit), result.out, result.err);
      ok := true;
    }
  }

  /** A run that could not be started leaves no trace in the store. */
  ghost function AfterExecution(w: World, id: uint64, time: int64, result: Execution.Result): World {
    if result.Error? then w else AfterRun(w, id, Run.Run(time, result.exit), result.out, result.err)
  }

  // ---------- NOT_RUN ----------

  /** The two ways of not having run agree: an empty history and no recorded output. */
  ghost predicate Coherent(w: World) {
    forall id | id in w.tasks :: w.tasks[id].runs == [] <==> w.tasks[id].outputs.None?
  }

  /** Everything that changes the tasks. */
  datatype Step = Asked(req: Request) | Executed(id: uint64, run: Run, output: seq<byte>, errors: seq<byte>)

  ghost function Next(w: World, s: Step): World {
    match s
    case Asked(req) => After(w, req)
    case Executed(id, run, output, errors) => AfterRun(w, id, run, output, errors)
  }

  ghost function NextAll(w: World, steps: seq<Step>): World
    decreases |steps|
  {
    if steps == [] then w else NextAll(Next(w, steps[0]), steps[1..])
  }

  const START := World(false, map[])

  lemma StepCoherent(w: World, s: Step)
    requires Coherent(w)
    ensures Coherent(Next(w, s))
  {
    hide NextId, Combined, FirstRepeat, ValidArguments;
  }

  lemma {:induction false} RunCoherent(w: World, steps: seq<Step>)
    requires Coherent(w)
    ensures Coherent(NextAll(w, steps))
    decreases |steps|
  {
    hide Next, Coherent;
    if steps == [] {
    } else {
      StepCoherent(w, steps[0]);
      RunCoherent(Next(w, steps[0]), steps[1..]);
    }
  }

  /**
   After any run of the daemon, a client that asks for the output of a task is told NOT_RUN exactly
   when the task is alive and its history is empty.
   */
  lemma NotRunExactly(steps: seq<Step>, id: uint64, op: uint16)
    requires op == STDOUT || op == STDERR
    ensures var w := NextAll(START, steps);
      OutputAnswer(w, op, id).body == Failure(NOT_RUN) <==> id in w.tasks && w.tasks[id].runs == []
  {
    RunCoherent(START, steps);
  }
}
