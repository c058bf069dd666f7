/** Properties of whole runs of the daemon: conservation of commands, usable tasks, readable replies. */
module Runs {
  import opened Bytes
  import opened Commands
  import opened Protocol
  import opened Store
  import opened TaskTree
  import opened Daemon
  import opened Identifiers
  import Execution
  import Outputs
  import Transport

  // ---------- conservation of commands ----------

  type Leaf = seq<CString>

  ghost function RecordLeaves(r: Record): multiset<Leaf> {
    if r.cmd.None? then multiset{} else multiset(Outputs.Leaves(r.cmd.value))
  }

  ghost function Pick<K(!new), V>(m: map<K, V>): K
    requires m != map[]
  {
    var k :| k in m; k
  }

  /** All the simple commands of all the tasks, with their multiplicities. */
  ghost function AllLeaves(tasks: map<uint64, Record>): multiset<Leaf>
    decreases |tasks|
  {
    if tasks == map[] then multiset{} else
    var k := Pick(tasks);
    RecordLeaves(tasks[k]) + AllLeaves(tasks - {k})
  }

  lemma {:induction false} LeavesWithout(tasks: map<uint64, Record>, k: uint64)
    requires k in tasks
    ensures AllLeaves(tasks) == RecordLeaves(tasks[k]) + AllLeaves(tasks - {k})
    decreases |tasks|
  {
    hide RecordLeaves;
    var p := Pick(tasks);
    if p != k {
      LeavesWithout(tasks - {p}, k);
      LeavesWithout(tasks - {k}, p);
      assert tasks - {p} - {k} == tasks - {k} - {p};
    }
  }

  lemma LeavesWith(tasks: map<uint64, Record>, k: uint64, r: Record)
    requires k !in tasks
    ensures AllLeaves(tasks[k := r]) == RecordLeaves(r) + AllLeaves(tasks)
  {
    hide RecordLeaves, AllLeaves;
    LeavesWithout(tasks[k := r], k);
    assert tasks[k := r] - {k} == tasks;
  }

  ghost function ListedLeaves(tasks: map<uint64, Record>, ids: seq<uint64>): multiset<Leaf>
    requires forall id | id in ids :: id in tasks
  {
    if ids == [] then multiset{} else RecordLeaves(tasks[ids[0]]) + ListedLeaves(tasks, ids[1..])
  }

  lemma {:induction false} LeavesWithoutAll(all: map<uint64, Record>, tasks: map<uint64, Record>, ids: seq<uint64>)
    requires forall id | id in ids :: id in tasks && id in all && tasks[id] == all[id]
    requires forall i, j | 0 <= i < j < |ids| :: ids[i] != ids[j]
    ensures AllLeaves(tasks) == ListedLeaves(all, ids) + AllLeaves(tasks - ToSet(ids))
  {
    hide RecordLeaves, AllLeaves;
    if ids == [] {
      assert tasks - ToSet(ids) == tasks;
    } else {
      LeavesWithout(tasks, ids[0]);
      LeavesWithoutAll(all, tasks - {ids[0]}, ids[1..]);
      assert ToSet(ids) == {ids[0]} + ToSet(ids[1..]);
      assert tasks - {ids[0]} - ToSet(ids[1..]) == tasks - ToSet(ids);
    }
  }

  lemma UsableParts(tasks: map<uint64, Record>, ids: seq<uint64>)
    requires forall id | id in ids :: id in tasks && tasks[id].cmd.Some?
    ensures None !in CmdsOf(tasks, ids)
  {
    var cmds := CmdsOf(tasks, ids);
    forall i | 0 <= i < |cmds| ensures cmds[i].Some? {
      assert ids[i] in ids;
    }
  }

  /** One more part in front. */
  lemma OneMorePart(tasks: map<uint64, Record>, ids: seq<uint64>)
    requires ids != [] && forall id | id in ids :: id in tasks && tasks[id].cmd.Some?
    ensures None !in CmdsOf(tasks, ids) && None !in CmdsOf(tasks, ids[1..])
    ensures multiset(Outputs.LeavesOf(Values(CmdsOf(tasks, ids)))) ==
      RecordLeaves(tasks[ids[0]]) + multiset(Outputs.LeavesOf(Values(CmdsOf(tasks, ids[1..]))))
  {
    hide Outputs.Leaves;
    UsableParts(tasks, ids);
    UsableParts(tasks, ids[1..]);
    var cmds := CmdsOf(tasks, ids);
    assert cmds[1..] == CmdsOf(tasks, ids[1..]);
    assert Values(cmds) == [tasks[ids[0]].cmd.value] + Values(cmds[1..]);
    var a, b := Outputs.Leaves(tasks[ids[0]].cmd.value), Outputs.LeavesOf(Values(cmds[1..]));
    assert Outputs.LeavesOf(Values(cmds)) == a + b;
    assert multiset(a + b) == multiset(a) + multiset(b);
  }

  /** The leaves of a combination are those of its parts. */
  lemma {:induction false} CombinedLeaves(tasks: map<uint64, Record>, ids: seq<uint64>)
    requires forall id | id in ids :: id in tasks && tasks[id].cmd.Some?
    ensures None !in CmdsOf(tasks, ids)
    ensures multiset(Outputs.LeavesOf(Values(CmdsOf(tasks, ids)))) == ListedLeaves(tasks, ids)
  {
    hide RecordLeaves, CmdsOf;
    UsableParts(tasks, ids);
    if ids == [] {
      assert CmdsOf(tasks, ids) == [] by { NoParts(tasks); }
    } else {
      OneMorePart(tasks, ids);
      CombinedLeaves(tasks, ids[1..]);
    }
  }

  lemma NoParts(tasks: map<uint64, Record>)
    ensures CmdsOf(tasks, []) == []
  {
  }

  /** A usable task has a simple command. */
  lemma SomeLeaf(tasks: map<uint64, Record>, ids: seq<uint64>)
    requires ids != [] && forall id | id in ids :: id in tasks && tasks[id].cmd.Some?
    ensures ListedLeaves(tasks, ids) != multiset{}
  {
    hide Outputs.Leaves;
    Outputs.HasLeaves(tasks[ids[0]].cmd.value);
    assert Outputs.Leaves(tasks[ids[0]].cmd.value)[0] in RecordLeaves(tasks[ids[0]]);
  }

  /**
   A successful COMBINE of usable tasks consumes them for one fresh task that holds their trees in
   request order, and no simple command of the store is lost or duplicated, exactly when the
   requested type is not SI. With SI the reply is still a success, but the new task cannot be
   loaded and the commands are gone.
   */
  lemma CombineConserves(w: World, ids: seq<uint64>, ty: uint16, timing: Timing)
    requires CanCombine(w, ids) && w.dir && HasRoom(w)
    requires forall id | id in ids :: w.tasks[id].cmd.Some?
    ensures var w' := After(w, Combine(timing, ty, ids));
      && NextId(w) !in w.tasks
      && w'.tasks.Keys == (w.tasks.Keys - ToSet(ids)) + {NextId(w)}
      && (forall id | id in w.tasks && id !in ids :: w'.tasks[id] == w.tasks[id])
      && w'.tasks[NextId(w)] == NewRecord(timing, Combined(ty, CmdsOf(w.tasks, ids)))
      && (ty != SI <==> w'.tasks[NextId(w)].cmd == Some(Command(ty, [], Values(CmdsOf(w.tasks, ids)))))
      && (ty != SI <==> AllLeaves(w'.tasks) == AllLeaves(w.tasks))
  {
    hide NextId, AllLeaves, FirstRepeat, Outputs.LeavesOf, Values, RecordLeaves;
    NextIdIsFresh(w);
    CombinedLeaves(w.tasks, ids);
    SomeLeaf(w.tasks, ids);
    var record := NewRecord(timing, Combined(ty, CmdsOf(w.tasks, ids)));
    assert ids[..FirstRepeat(ids)] == ids;
    var rest := w.tasks - ToSet(ids);
    assert After(w, Combine(timing, ty, ids)).tasks == rest[NextId(w) := record];
    LeavesWith(rest, NextId(w), record);
    DistinctIds(ids);
    LeavesWithoutAll(w.tasks, w.tasks, ids);
    LeavesOfCombination(w.tasks, ids, ty, record);
    if ty == SI {
      NoLeafGained(AllLeaves(rest), ListedLeaves(w.tasks, ids));
    }
  }

  lemma LeavesOfCombination(tasks: map<uint64, Record>, ids: seq<uint64>, ty: uint16, record: Record)
    requires ids != [] && forall id | id in ids :: id in tasks && tasks[id].cmd.Some?
    requires record.cmd == Combined(ty, CmdsOf(tasks, ids))
    ensures RecordLeaves(record) == if ty == SI then multiset{} else ListedLeaves(tasks, ids)
  {
    hide Outputs.LeavesOf, Values, ListedLeaves;
    CombinedLeaves(tasks, ids);
    if ty != SI {
      assert Values(CmdsOf(tasks, ids)) != [];
    }
  }

  lemma DistinctIds(ids: seq<uint64>)
    requires FirstRepeat(ids) == |ids|
    ensures forall i, j | 0 <= i < j < |ids| :: ids[i] != ids[j]
  {
  }

  lemma NoLeafGained(kept: multiset<Leaf>, lost: multiset<Leaf>)
    requires lost != multiset{}
    ensures multiset{} + kept != lost + kept
  {
    var x :| x in lost;
    assert (lost + kept)[x] > kept[x];
  }

  /**
   A COMBINE that is answered with an error has still changed the store exactly when all the listed ids
   are live and one is repeated.
   */
  lemma FailedCombineChangesIff(w: World, ids: seq<uint64>, ty: uint16, timing: Timing)
    requires HasRoom(w) && (w.tasks != map[] ==> w.dir) && !CanCombine(w, ids)
    ensures After(w, Combine(timing, ty, ids)) != w <==>
      ids != [] && (forall id | id in ids :: id in w.tasks) && FirstRepeat(ids) < |ids|
  {
    hide NextId, FirstRepeat, Combined;
    if ids != [] && forall id | id in ids :: id in w.tasks {
      assert ids[0] in w.tasks;
      NextIdIsFresh(w);
      assert NextId(w) in After(w, Combine(timing, ty, ids)).tasks;
    }
  }

  // ---------- what stays as it was ----------

  ghost predicate AllUsable(w: World) { forall id | id in w.tasks :: w.tasks[id].cmd.Some? }

  /** The request that creates a task nobody can load. */
  ghost predicate CombinesAsSimple(w: World, s: Step) {
    Creates(w, s) && s.req.Combine? && s.req.ty == SI
  }

  /** Every stored task stays loadable, exactly as long as nobody combines tasks with the type SI. */
  lemma StepUsable(w: World, s: Step)
    requires AllUsable(w)
    ensures AllUsable(Next(w, s)) <==> !CombinesAsSimple(w, s)
  {
    hide NextId, FirstRepeat, Values;
    if Creates(w, s) && s.req.Combine? {
      var cmds := CmdsOf(w.tasks, s.req.ids);
      assert None !in cmds by {
        forall i | 0 <= i < |cmds| ensures cmds[i].Some? {
          assert s.req.ids[i] in w.tasks;
        }
      }
      assert Next(w, s).tasks[NextId(w)].cmd == Combined(s.req.ty, cmds);
    }
  }

  lemma BeforeNext(w: World, steps: seq<Step>, i: nat)
    requires i < |steps|
    ensures Before(w, steps, i + 1) == Next(Before(w, steps, i), steps[i])
  {
    hide Next;
    assert steps[..i + 1] == steps[..i] + [steps[i]];
    NextAllSnoc(w, steps[..i], steps[i]);
  }

  lemma NothingUnusable()
    ensures AllUsable(START)
  {
  }

  /**
   Over every run from an empty installation, every stored task is loadable at every moment exactly
   if no step combines tasks with the type SI.
   */
  lemma RunUsableIff(steps: seq<Step>)
    ensures (forall i: nat | i <= |steps| :: AllUsable(Before(START, steps, i))) <==>
      forall i: nat | i < |steps| :: !CombinesAsSimple(Before(START, steps, i), steps[i])
  {
    hide Next, Before, AllUsable, CombinesAsSimple;
    if forall i: nat | i < |steps| :: !CombinesAsSimple(Before(START, steps, i), steps[i]) {
      BeforeNothing(START, steps);
      assert AllUsable(START) by { NothingUnusable(); }
      for i := 0 to |steps|
        invariant forall j: nat | j <= i :: AllUsable(Before(START, steps, j))
      {
        BeforeNext(START, steps, i);
        StepUsable(Before(START, steps, i), steps[i]);
      }
    } else {
      var i: nat :| i < |steps| && CombinesAsSimple(Before(START, steps, i), steps[i]);
      if AllUsable(Before(START, steps, i)) {
        BeforeNext(START, steps, i);
        StepUsable(Before(START, steps, i), steps[i]);
      }
    }
  }

  /** The task a step is about. */
  ghost predicate Concerns(w: World, s: Step, id: uint64) {
    match s
    case Executed(k, _, _, _) => id == k
    case Asked(Remove(k)) => id == k
    case Asked(Combine(_, _, ids)) => id in ids || (Creates(w, s) && id == NextId(w))
    case _ => Creates(w, s) && id == NextId(w)
  }

  /** A step leaves every other task exactly as it was, present or not. */
  lemma OthersUntouched(w: World, s: Step, id: uint64)
    requires !Concerns(w, s, id)
    ensures id in Next(w, s).tasks <==> id in w.tasks
    ensures id in w.tasks ==> Next(w, s).tasks[id] == w.tasks[id]
  {
    hide NextId, FirstRepeat, Combined, ValidArguments;
  }

  // ---------- replies the client can read ----------

  /** Every tree in the store is one that the LIST format carries faithfully. */
  ghost predicate Listable(w: World) {
    forall id | id in w.tasks && w.tasks[id].cmd.Some? :: WellFormed(Listed, w.tasks[id].cmd.value)
  }

  ghost predicate Received(s: Step) { s.Asked? ==> Acceptable(s.req) }

  lemma {:induction false} StepListable(w: World, s: Step)
    requires Listable(w) && Received(s)
    ensures Listable(Next(w, s))
  {
    hide NextId, FirstRepeat;
    if s.Asked? && s.req.Combine? && Creates(w, s) {
      CombinationListable(w, s.req.ids, s.req.ty);
    }
  }

  lemma CombinationListable(w: World, ids: seq<uint64>, ty: uint16)
    requires Listable(w) && 1 <= |ids| <= MAX_COMBINED
    requires forall id | id in ids :: id in w.tasks
    ensures var cmd := Combined(ty, CmdsOf(w.tasks, ids)); cmd.Some? ==> WellFormed(Listed, cmd.value)
  {
    var cmds := CmdsOf(w.tasks, ids);
    if ty != SI && None !in cmds {
      forall i | 0 <= i < |ids| ensures WellFormed(Listed, Values(cmds)[i]) {
        assert ids[i] in w.tasks;
        assert cmds[i] in cmds;
      }
    }
  }

  lemma {:induction false} RunListable(w: World, steps: seq<Step>)
    requires Listable(w) && forall s | s in steps :: Received(s)
    ensures Listable(NextAll(w, steps))
    decreases |steps|
  {
    hide Next, Listable, Received;
    if steps == [] {
    } else {
      StepListable(w, steps[0]);
      RunListable(Next(w, steps[0]), steps[1..]);
    }
  }

  /** The reply as the client stores it: an error carries the client's own operation code. */
  function Seen(op: uint16, r: Response): Response {
    if r.anstype == ANSTYPE_ERROR then r.(opcode := op) else r
  }

  /**
   The daemon marks each success with the code of the request, so the client, which decodes by the
   code it sent, recovers the reply whenever it respects the client's limits.
   */
  lemma ClientSeesAnswer(w: World, req: Request, r: Response)
    requires Answers(w, req, r) && Postable(r) && WithinLimits(r)
    ensures DecodeResponse(req.Opcode(), EncodeResponse(r)) == Got(Seen(req.Opcode(), r), [])
  {
    hide DecodeResponse, EncodeResponse, WithinLimits, Postable, NextId, IsListing;
    var op := req.Opcode();
    assert EncodeResponse(r) + [] == EncodeResponse(r);
    if r.anstype == ANSTYPE_ERROR {
      ErrorRoundTrip(op, r.opcode, r.body.code, []);
    } else {
      assert r.opcode == op;
      ResponseRoundTrip(r, []);
    }
  }

  /**
   Whatever the daemon was asked before, a listing reaches the client intact exactly when it has
   fewer than 10000 tasks: the trees themselves are never an obstacle.
   */
  lemma ListingIsReadable(steps: seq<Step>, r: Response)
    requires forall s | s in steps :: Received(s)
    requires Answers(NextAll(START, steps), ListTasks, r) && Fits32(|r.body.tasks|)
    ensures DecodeResponse(LIST, EncodeResponse(r)) == Got(r, []) <==> |r.body.tasks| < TASKS_BOUND
  {
    hide DecodeResponse, EncodeResponse, WellFormed, Writable, NextAll;
    var w := NextAll(START, steps);
    RunListable(START, steps);
    forall t | t in r.body.tasks ensures WellFormed(Listed, t.cmd) && Writable(Listed, t.cmd) {
      assert IsLoaded(w, t);
      WellFormedIsWritable(Listed, t.cmd);
    }
    assert EncodeResponse(r) + [] == EncodeResponse(r);
    ResponseRoundTrip(r, []);
  }

  // ---------- the request loop ----------

  const MAX_DAEMON_ITERATIONS := 1000000

  function Steps(reqs: seq<Request>): seq<Step> {
    seq(|reqs|, i requires 0 <= i < |reqs| => Asked(reqs[i]))
  }

  /** How many requests are served: up to the first TERMINATE, and no more than the iteration limit. */
  function Served(reqs: seq<Request>, budget: nat): (n: nat)
    ensures n <= |reqs|
  {
    if reqs == [] || budget == 0 then 0
    else if reqs[0].Terminate? then 1
    else 1 + Served(reqs[1..], budget - 1)
  }

  /** All that is waiting is served, unless the limit is reached or TERMINATE stops the daemon first. */
  lemma {:induction false} ServedMeaning(reqs: seq<Request>, budget: nat)
    ensures var n := Served(reqs, budget);
      && n <= |reqs| && n <= budget
      && (forall i | 0 <= i < n - 1 :: !reqs[i].Terminate?)
      && (n == |reqs| || n == budget || (n > 0 && reqs[n - 1].Terminate?))
  {
    if reqs == [] || budget == 0 {
    } else {
      ServedMeaning(reqs[1..], budget - 1);
    }
  }

  ghost predicate AllAnswered(w: World, reqs: seq<Request>, replies: seq<Response>)
    decreases |reqs|
  {
    |replies| == |reqs| &&
    (reqs == [] || (Answers(w, reqs[0], replies[0]) && AllAnswered(After(w, reqs[0]), reqs[1..], replies[1..])))
  }

  /** TERMINATE is the last request that is served, and stops the daemon. */
  predicate StopsAt(reqs: seq<Request>, stop: bool) {
    && (forall i | 0 <= i < |reqs| - 1 :: !reqs[i].Terminate?)
    && (stop <==> reqs != [] && reqs[|reqs| - 1].Terminate?)
  }

  /** The beginning of `handle_request`: bytes that are no request are dropped without a reply. */
  method HandleNext(d: Erraid, pipe: Stream) returns (req: Option<Request>, replies: seq<Response>)
    requires d.Valid() && HasRoom(d.store.View())
    modifies d, d.store, pipe
    ensures d.Valid()
    ensures req.Some? <==> DecodeRequest(old(pipe.data)).Got?
    ensures req.Some? ==> DecodeRequest(old(pipe.data)) == Got(req.value, pipe.data) && Acceptable(req.value)
    ensures req.Some? ==> |replies| == 1 && Answers(old(d.store.View()), req.value, replies[0])
    ensures req.None? ==> replies == []
    ensures d.store.View() == if req.Some? then After(old(d.store.View()), req.value) else old(d.store.View())
    ensures d.stop == (old(d.stop) || (req.Some? && req.value.Terminate?))
  {
    hide DecodeRequest, After, Answers, Acceptable, HasRoom;
    replies := [];
    req := Transport.ReceiveRequest(pipe);
    if req.None? { return; }
    ReceivedIsAcceptable(old(pipe.data));
    AcceptableFits(req.value);
    var reply := d.HandleRequest(req.value);
    replies := [reply];
  }

  /**
   `daemon_loop`, from bytes to effects, on any bytes at all: `reqs` is any front of the pipe that
   consists of requests, possibly none. What is served are valid requests, each with its answer, and
   the store ends up as the plain map would. The requests in front are served first, in order; if
   nothing follows them, they are all that is served.
   */
  method DaemonLoop(d: Erraid, pipe: Stream, ghost reqs: seq<Request>, ghost rest: seq<byte>)
    returns (replies: seq<Response>, ghost served: seq<Request>)
    requires d.Valid() && !d.stop && RoomFor(d.store.View(), MAX_DAEMON_ITERATIONS)
    requires pipe.data == EncodeMany(EncodeRequest, reqs) + rest && forall r | r in reqs :: Acceptable(r)
    modifies d, d.store, pipe
    ensures d.Valid() && StopsAt(served, d.stop) && forall r | r in served :: Acceptable(r)
    ensures d.store.View() == NextAll(old(d.store.View()), Steps(served))
    ensures AllAnswered(old(d.store.View()), served, replies)
    ensures var front := reqs[..Served(reqs, MAX_DAEMON_ITERATIONS)];
      front <= served && (rest == [] ==> served == front)
  {
    hide EncodeRequest, EncodeMany, DecodeRequest, After, Answers, NextAll, AllAnswered, Served, Acceptable, Steps;
    hide InFront, StopsAt, HasRoom, RoomFor, ValidTasks, TaskMap;
    replies, served := [], [];
    ghost var start := d.store.View();
    var iterations := 0;
    NothingServed(start);
    ghost var i := StartInFront(reqs, rest);
    while !d.stop && iterations < MAX_DAEMON_ITERATIONS && pipe.data != []
      invariant d.Valid() && iterations <= MAX_DAEMON_ITERATIONS
      invariant RoomFor(d.store.View(), MAX_DAEMON_ITERATIONS - iterations)
      invariant StopsAt(served, d.stop) && forall r | r in served :: Acceptable(r)
      invariant d.store.View() == NextAll(start, Steps(served)) && AllAnswered(start, served, replies)
      invariant InFront(reqs, rest, served, iterations, pipe.data, d.stop, i)
      decreases MAX_DAEMON_ITERATIONS - iterations
    {
      ghost var bytes, before := pipe.data, d.store.View();
      RoomShrinks(before, MAX_DAEMON_ITERATIONS - iterations);
      var req, reply := HandleNext(d, pipe);
      i := TurnInFront(reqs, rest, served, iterations, bytes, i, req, pipe.data);
      iterations := iterations + 1;
      if req.Some? {
        StepTakesRoom(before, Asked(req.value), MAX_DAEMON_ITERATIONS - iterations);
        OneMoreServed(start, served, req.value, replies, reply[0]);
        replies, served := replies + [reply[0]], served + [req.value];
      }
    }
    EndInFront(reqs, rest, served, iterations, pipe.data, d.stop, i);
  }

  /** The loop has served the first `i` requests of the front, and nothing else while there are more. */
  ghost predicate InFront(reqs: seq<Request>, rest: seq<byte>, served: seq<Request>, turns: nat,
                          data: seq<byte>, stop: bool, i: nat) {
    && i <= |reqs| && reqs[..i] <= served && turns <= MAX_DAEMON_ITERATIONS
    && (i < |reqs| || rest == [] ==>
          |served| == i == turns && data == EncodeMany(EncodeRequest, reqs[i..]) + rest)
    && Served(reqs, MAX_DAEMON_ITERATIONS) ==
         if i == |reqs| || stop then i else i + Served(reqs[i..], MAX_DAEMON_ITERATIONS - i)
  }

  lemma StartInFront(reqs: seq<Request>, rest: seq<byte>) returns (i: nat)
    ensures InFront(reqs, rest, [], 0, EncodeMany(EncodeRequest, reqs) + rest, false, i)
  {
    i := 0;
    assert reqs[0..] == reqs && reqs[..0] == [];
  }

  lemma TurnInFront(reqs: seq<Request>, rest: seq<byte>, served: seq<Request>, turns: nat, data: seq<byte>, i: nat,
                    req: Option<Request>, data': seq<byte>) returns (i': nat)
    requires InFront(reqs, rest, served, turns, data, false, i) && turns < MAX_DAEMON_ITERATIONS && data != []
    requires forall r | r in reqs :: Acceptable(r)
    requires req.Some? <==> DecodeRequest(data).Got?
    requires req.Some? ==> DecodeRequest(data) == Got(req.value, data')
    ensures InFront(reqs, rest, if req.Some? then served + [req.value] else served, turns + 1, data',
                    req.Some? && req.value.Terminate?, i')
  {
    hide EncodeRequest, DecodeRequest, EncodeMany, Served, Acceptable;
    i' := i;
    if i == |reqs| {
      assert EncodeMany(EncodeRequest, reqs[i..]) == [] by { EncodeManyNothing(reqs[i..]); }
    } else {
      FrontOfPipe(reqs, rest, i);
      ServedStep(reqs, i, MAX_DAEMON_ITERATIONS - i);
      assert reqs[..i + 1] == reqs[..i] + [reqs[i]];
      assert served == reqs[..i];
      i' := i + 1;
    }
  }

  lemma EndInFront(reqs: seq<Request>, rest: seq<byte>, served: seq<Request>, turns: nat,
                   data: seq<byte>, stop: bool, i: nat)
    requires InFront(reqs, rest, served, turns, data, stop, i)
    requires stop || turns == MAX_DAEMON_ITERATIONS || data == []
    ensures var front := reqs[..Served(reqs, MAX_DAEMON_ITERATIONS)];
      front <= served && (rest == [] ==> served == front)
  {
    hide EncodeRequest, EncodeMany, Served;
    if !stop && i < |reqs| {
      FrontNotEmpty(reqs[i..], rest);
      NoBudget(reqs[i..]);
    }
  }

  /** The same from an empty installation, where the id counter cannot overflow. */
  method FreshDaemon(oracle: Execution.Oracle, pipe: Stream, ghost reqs: seq<Request>, ghost rest: seq<byte>)
    returns (d: Erraid, replies: seq<Response>, ghost served: seq<Request>)
    requires pipe.data == EncodeMany(EncodeRequest, reqs) + rest && forall r | r in reqs :: Acceptable(r)
    modifies pipe
    ensures fresh(d) && d.Valid() && StopsAt(served, d.stop) && forall r | r in served :: Acceptable(r)
    ensures d.store.View() == NextAll(START, Steps(served)) && AllAnswered(START, served, replies)
    ensures var front := reqs[..Served(reqs, MAX_DAEMON_ITERATIONS)];
      front <= served && (rest == [] ==> served == front)
  {
    hide Acceptable, AllAnswered, NextAll, Served, EncodeMany, EncodeRequest;
    d := new Erraid(oracle);
    replies, served := DaemonLoop(d, pipe, reqs, rest);
  }

  /** Whatever bytes arrive, a request that is received can be handled. */
  lemma ReceivedIsAcceptable(bs: seq<byte>)
    requires DecodeRequest(bs).Got?
    ensures Acceptable(DecodeRequest(bs).value)
  {
    hide DecodeTiming, DecodeArguments, ValidArguments;
  }

  lemma AcceptableFits(r: Request)
    requires Acceptable(r)
    ensures r.Create? ==> Fits32(|r.argv|) && forall s | s in r.argv :: Fits32(|s|)
    ensures r.Combine? ==> Fits32(|r.ids|)
  {
  }

  lemma RoomShrinks(w: World, n: nat)
    requires RoomFor(w, n) && n > 0
    ensures HasRoom(w) && RoomFor(w, n - 1)
  {
  }

  lemma NothingServed(w: World)
    ensures w == NextAll(w, Steps([])) && AllAnswered(w, [], []) && StopsAt([], false)
  {
    assert Steps([]) == [];
  }

  /** The front of a non-empty queue is a request, and the reader takes exactly that one. */
  lemma QueueFront(left: seq<Request>, rest: seq<byte>)
    requires left != [] && forall r | r in left :: Acceptable(r)
    ensures DecodeRequest(EncodeMany(EncodeRequest, left) + rest)
         == Got(left[0], EncodeMany(EncodeRequest, left[1..]) + rest)
  {
    hide EncodeRequest, DecodeRequest, Acceptable;
    AcceptableIsSendable(left[0]);
    var behind := EncodeMany(EncodeRequest, left[1..]) + rest;
    RequestRoundTrip(left[0], behind);
    assert EncodeMany(EncodeRequest, left) + rest == EncodeRequest(left[0]) + behind;
  }

  lemma FrontOfPipe(reqs: seq<Request>, rest: seq<byte>, i: nat)
    requires i < |reqs| && forall r | r in reqs :: Acceptable(r)
    ensures DecodeRequest(EncodeMany(EncodeRequest, reqs[i..]) + rest)
         == Got(reqs[i], EncodeMany(EncodeRequest, reqs[i + 1..]) + rest)
  {
    hide EncodeRequest, DecodeRequest, Acceptable;
    QueueFront(reqs[i..], rest);
    assert reqs[i..][1..] == reqs[i + 1..];
  }

  lemma EncodeManyNothing(left: seq<Request>)
    requires left == []
    ensures EncodeMany(EncodeRequest, left) == []
  {
  }

  lemma FrontNotEmpty(left: seq<Request>, rest: seq<byte>)
    requires left != []
    ensures EncodeMany(EncodeRequest, left) + rest != []
  {
    assert |EncodeRequest(left[0])| > 0;
  }

  lemma ServedStep(reqs: seq<Request>, i: nat, budget: nat)
    requires i < |reqs| && budget > 0
    ensures Served(reqs[i..], budget) == 1 + (if reqs[i].Terminate? then 0 else Served(reqs[i + 1..], budget - 1))
    ensures i + 1 == |reqs| ==> Served(reqs[i + 1..], budget - 1) == 0
  {
    assert reqs[i..][1..] == reqs[i + 1..];
  }

  lemma NoBudget(left: seq<Request>)
    ensures Served(left, 0) == 0
  {
  }

  lemma OneMoreServed(start: World, served: seq<Request>, req: Request, replies: seq<Response>, reply: Response)
    requires AllAnswered(start, served, replies) && Answers(NextAll(start, Steps(served)), req, reply)
    ensures NextAll(start, Steps(served + [req])) == After(NextAll(start, Steps(served)), req)
    ensures AllAnswered(start, served + [req], replies + [reply])
    ensures StopsAt(served, false) ==> StopsAt(served + [req], req.Terminate?)
  {
    hide After, NextAll, AllAnswered, Answers;
    assert Steps(served + [req]) == Steps(served) + [Asked(req)];
    NextAllSnoc(start, Steps(served), Asked(req));
    OneMoreAnswer(start, served, replies, req, reply);
  }

  lemma {:induction false} NextAllSnoc(w: World, steps: seq<Step>, s: Step)
    ensures NextAll(w, steps + [s]) == Next(NextAll(w, steps), s)
    decreases |steps|
  {
    hide Next;
    if steps == [] {
      assert steps + [s] == [s];
    } else {
      assert (steps + [s])[1..] == steps[1..] + [s];
      NextAllSnoc(Next(w, steps[0]), steps[1..], s);
    }
  }

  lemma {:induction false} OneMoreAnswer(start: World, served: seq<Request>, replies: seq<Response>,
                                         req: Request, reply: Response)
    requires AllAnswered(start, served, replies)
    requires Answers(NextAll(start, Steps(served)), req, reply)
    ensures AllAnswered(start, served + [req], replies + [reply])
    decreases |served|
  {
    hide After, Answers;
    if served == [] {
      assert Steps(served) == [];
      assert (served + [req])[1..] == [] && (replies + [reply])[1..] == [];
    } else {
      assert (served + [req])[1..] == served[1..] + [req];
      assert (replies + [reply])[1..] == replies[1..] + [reply];
      assert Steps(served)[1..] == Steps(served[1..]);
      OneMoreAnswer(After(start, served[0]), served[1..], replies[1..], req, reply);
    }
  }
}
