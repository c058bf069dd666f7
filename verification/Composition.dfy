/**
 The scheduler's copies of the tasks beside the store: requests, reloads and executions in any order. A
 copy keeps being executed under its id until the next reload, whatever has become of that id since.
 */
module Composition {
  import opened Bytes
  import opened Commands
  import opened Protocol
  import opened Store
  import opened TaskTree
  import opened Daemon
  import opened Identifiers
  import Execution

  /** A request is served, the scheduler reloads its copies, or a copy is executed and recorded. */
  datatype Event =
    | Arrives(req: Request)
    | Reloads(tasks: seq<Task>)
    | Executes(slot: nat, time: int64, result: Execution.Result)

  /**
   The store and the copies, with a history: `count` numbers the creations of tasks, `born` and `copied`
   say which creation each live task and each copy comes from, and `made` says for every recorded run of
   a live task which creation's tree was executed.
   */
  datatype System = System(
    world: World,
    count: nat,
    born: map<uint64, nat>,
    cached: seq<Task>,
    copied: seq<nat>,
    made: map<uint64, seq<nat>>)

  const EMPTY: System := System(START, 0, map[], [], [], map[])

  ghost predicate CreatesId(s: System, e: Event, id: uint64) {
    e.Arrives? && Creates(s.world, Asked(e.req)) && id == NextId(s.world)
  }

  ghost function BornAfter(s: System, e: Event, w: World): map<uint64, nat> {
    map id | id in w.tasks :: if CreatesId(s, e, id) || id !in s.born then s.count else s.born[id]
  }

  ghost function MadeAfter(s: System, e: Event, w: World): map<uint64, seq<nat>> {
    map id | id in w.tasks :: if CreatesId(s, e, id) || id !in s.made then [] else s.made[id]
  }

  /** The copies that a reload makes. */
  ghost function Copies(s: System, tasks: seq<Task>): (r: seq<nat>)
    ensures |r| == |tasks|
  {
    seq(|tasks|, k requires 0 <= k < |tasks| => if tasks[k].id in s.born then s.born[tasks[k].id] else 0)
  }

  /** The execution of a copy leaves a run with a live task of that id. */
  predicate Records(s: System, e: Event) {
    e.Executes? && e.slot < |s.cached| && e.result.Done? && s.cached[e.slot].id in s.world.tasks
  }

  ghost function Happens(s: System, e: Event): System {
    match e
    case Arrives(req) =>
      var w := After(s.world, req);
      var creates := Creates(s.world, Asked(req));
      System(w, if creates then s.count + 1 else s.count, BornAfter(s, e, w), s.cached, s.copied, MadeAfter(s, e, w))
    case Reloads(tasks) => s.(cached := tasks, copied := Copies(s, tasks))
    case Executes(slot, time, result) =>
      if Records(s, e) && slot < |s.copied| && s.cached[slot].id in s.made then
        var id := s.cached[slot].id;
        s.(world := AfterExecution(s.world, id, time, result), made := s.made[id := s.made[id] + [s.copied[slot]]])
      else s
  }

  /** A reload lists the usable tasks of the store, in any order. */
  ghost predicate Possible(s: System, e: Event) { e.Reloads? ==> IsListing(s.world, e.tasks) }

  ghost function At(s: System, events: seq<Event>, i: nat): System
    requires i <= |events|
  {
    if i == 0 then s else Happens(At(s, events, i - 1), events[i - 1])
  }

  ghost predicate AllPossible(s: System, events: seq<Event>) {
    forall i: nat | i < |events| :: Possible(At(s, events, i), events[i])
  }

  // ---------- the histories fit ----------

  /** A copy of a task that is still the live one has its tree. */
  ghost predicate CopiesFit(s: System)
    requires |s.copied| == |s.cached| && s.born.Keys == s.world.tasks.Keys
  {
    forall k | 0 <= k < |s.cached| ::
      s.cached[k].id in s.world.tasks && s.copied[k] == s.born[s.cached[k].id] ==>
        s.world.tasks[s.cached[k].id].cmd == Some(s.cached[k].cmd)
  }

  ghost predicate Sound(s: System) {
    && s.born.Keys == s.world.tasks.Keys && s.made.Keys == s.world.tasks.Keys
    && |s.copied| == |s.cached|
    && (forall id | id in s.born :: s.born[id] < s.count)
    && (forall k | 0 <= k < |s.copied| :: s.copied[k] < s.count)
    && (forall id | id in s.made :: |s.made[id]| == |s.world.tasks[id].runs|)
    && CopiesFit(s)
  }

  lemma SurvivorsKeep(w: World, req: Request, id: uint64)
    requires id in After(w, req).tasks && !(Creates(w, Asked(req)) && id == NextId(w))
    ensures id in w.tasks && After(w, req).tasks[id] == w.tasks[id]
  {
    hide NextId, Combined, FirstRepeat, ValidArguments;
  }

  lemma NewTaskHasNoRuns(w: World, req: Request)
    requires Creates(w, Asked(req))
    ensures NextId(w) in After(w, req).tasks && After(w, req).tasks[NextId(w)].runs == []
  {
    hide NextId, Combined, FirstRepeat, ValidArguments;
  }

  /** What a request does to the histories of each task it leaves. */
  lemma ArrivalHistory(s: System, req: Request, id: uint64)
    requires Sound(s) && id in After(s.world, req).tasks
    ensures var e, w := Arrives(req), After(s.world, req);
      && id in BornAfter(s, e, w) && id in MadeAfter(s, e, w)
      && (CreatesId(s, e, id) ==>
           BornAfter(s, e, w)[id] == s.count && MadeAfter(s, e, w)[id] == [] && w.tasks[id].runs == [])
      && (!CreatesId(s, e, id) ==>
           && id in s.world.tasks && w.tasks[id] == s.world.tasks[id]
           && BornAfter(s, e, w)[id] == s.born[id] && MadeAfter(s, e, w)[id] == s.made[id])
  {
    hide After, NextId, Creates, CopiesFit;
    if CreatesId(s, Arrives(req), id) {
      NewTaskHasNoRuns(s.world, req);
    } else {
      SurvivorsKeep(s.world, req, id);
    }
  }

  lemma ArrivalSound(s: System, req: Request)
    requires Sound(s)
    ensures Sound(Happens(s, Arrives(req)))
  {
    hide After, NextId, Creates, BornAfter, MadeAfter, CreatesId;
    var e, w := Arrives(req), After(s.world, req);
    var s' := Happens(s, e);
    forall id | id in w.tasks
      ensures id in s'.born && id in s'.made && |s'.made[id]| == |w.tasks[id].runs|
      ensures s'.born[id] < s'.count
    {
      ArrivalHistory(s, req, id);
      if CreatesId(s, e, id) {
        OneMoreCreation(s, e, id);
      }
    }
    HistoryKeys(s, e, w);
    forall k | 0 <= k < |s.cached| && s.cached[k].id in w.tasks && s.copied[k] == s'.born[s.cached[k].id]
      ensures w.tasks[s.cached[k].id].cmd == Some(s.cached[k].cmd)
    {
      ArrivalHistory(s, req, s.cached[k].id);
    }
  }

  lemma OneMoreCreation(s: System, e: Event, id: uint64)
    requires CreatesId(s, e, id)
    ensures e.Arrives? && Creates(s.world, Asked(e.req))
  {
  }

  lemma HistoryKeys(s: System, e: Event, w: World)
    ensures BornAfter(s, e, w).Keys == w.tasks.Keys && MadeAfter(s, e, w).Keys == w.tasks.Keys
  {
    hide CreatesId;
  }

  lemma ReloadSound(s: System, tasks: seq<Task>)
    requires Sound(s) && IsListing(s.world, tasks)
    ensures Sound(Happens(s, Reloads(tasks)))
    ensures forall k | 0 <= k < |tasks| ::
      tasks[k].id in s.born && Happens(s, Reloads(tasks)).copied[k] == s.born[tasks[k].id]
  {
    forall k | 0 <= k < |tasks|
      ensures tasks[k].id in s.born && s.world.tasks[tasks[k].id].cmd == Some(tasks[k].cmd)
    {
      assert IsLoaded(s.world, tasks[k]);
    }
  }

  lemma ExecutionSound(s: System, e: Event)
    requires Sound(s) && e.Executes?
    ensures Sound(Happens(s, e))
  {
  }

  lemma StepSound(s: System, e: Event)
    requires Sound(s) && Possible(s, e)
    ensures Sound(Happens(s, e))
  {
    hide Happens, Sound, IsListing;
    match e
    case Arrives(req) => ArrivalSound(s, req);
    case Reloads(tasks) => ReloadSound(s, tasks);
    case Executes(_, _, _) => ExecutionSound(s, e);
  }

  lemma {:induction false} RunSound(s: System, events: seq<Event>, i: nat)
    requires Sound(s) && AllPossible(s, events) && i <= |events|
    ensures Sound(At(s, events, i))
  {
    hide Sound, Happens, Possible;
    if i == 0 {
    } else {
      RunSound(s, events, i - 1);
      StepSound(At(s, events, i - 1), events[i - 1]);
    }
  }

  // ---------- runs of the own tree ----------

  /** Every recorded run of every live task comes from the tree of that very task. */
  ghost predicate AllOwn(s: System) {
    forall id, i | id in s.made && id in s.born && 0 <= i < |s.made[id]| :: s.made[id][i] == s.born[id]
  }

  /** A copy is executed although its id belongs to another task by now. */
  ghost predicate Foreign(s: System, e: Event)
    requires Sound(s)
  {
    Records(s, e) && s.copied[e.slot] != s.born[s.cached[e.slot].id]
  }

  lemma StepOwn(s: System, e: Event)
    requires Sound(s) && Possible(s, e) && AllOwn(s)
    ensures AllOwn(Happens(s, e)) <==> !Foreign(s, e)
  {
    hide After, NextId, Creates, IsListing;
    var s' := Happens(s, e);
    match e
    case Arrives(req) =>
      forall id | id in s'.made && !CreatesId(s, e, id)
        ensures id in s.made && s'.made[id] == s.made[id] && s'.born[id] == s.born[id]
      {
        SurvivorsKeep(s.world, req, id);
      }
    case Reloads(tasks) =>
    case Executes(slot, _, _) =>
      if Records(s, e) {
        var id := s.cached[slot].id;
        assert s'.made[id][|s.made[id]|] == s.copied[slot];
        assert forall i | 0 <= i < |s.made[id]| :: s'.made[id][i] == s.made[id][i];
      }
  }

  // ---------- ids issued again since the last reload ----------

  /** Between the last reload and the event number `j`, some request has issued `id`. */
  ghost predicate IssuedSinceReload(s: System, events: seq<Event>, j: nat, id: uint64)
    requires j <= |events|
  {
    exists i: nat :: i < j && CreatesId(At(s, events, i), events[i], id) && NoReloadBetween(events, i, j)
  }

  ghost predicate NoReloadBetween(events: seq<Event>, i: nat, j: nat)
    requires j <= |events|
  {
    forall m | i < m < j :: !events[m].Reloads?
  }

  /** A copy is out of date exactly if its id, alive, was issued since the last reload. */
  ghost predicate CopiesTraced(s: System, events: seq<Event>, j: nat)
    requires j <= |events| && Sound(At(s, events, j))
  {
    var now := At(s, events, j);
    forall k | 0 <= k < |now.cached| && now.cached[k].id in now.world.tasks ::
      now.copied[k] != now.born[now.cached[k].id] <==> IssuedSinceReload(s, events, j, now.cached[k].id)
  }

  lemma IssuedStep(s: System, events: seq<Event>, j: nat, id: uint64)
    requires j < |events|
    ensures IssuedSinceReload(s, events, j + 1, id) <==>
      CreatesId(At(s, events, j), events[j], id) || (!events[j].Reloads? && IssuedSinceReload(s, events, j, id))
  {
    hide CreatesId, At;
    if CreatesId(At(s, events, j), events[j], id) {
      assert NoReloadBetween(events, j, j + 1);
    }
    if !events[j].Reloads? && IssuedSinceReload(s, events, j, id) {
      var i: nat :| i < j && CreatesId(At(s, events, i), events[i], id) && NoReloadBetween(events, i, j);
      assert NoReloadBetween(events, i, j + 1);
    }
    if i: nat :| i < j && CreatesId(At(s, events, i), events[i], id) && NoReloadBetween(events, i, j + 1) {
      assert NoReloadBetween(events, i, j);
    }
  }

  lemma StepTraced(s: System, events: seq<Event>, j: nat)
    requires j < |events| && Sound(At(s, events, j)) && Possible(At(s, events, j), events[j])
    requires Sound(At(s, events, j + 1))
    requires CopiesTraced(s, events, j)
    ensures CopiesTraced(s, events, j + 1)
  {
    hide After, NextId, Creates, IsListing, IssuedSinceReload;
    var now, e, next := At(s, events, j), events[j], At(s, events, j + 1);
    assert next == Happens(now, e);
    forall k | 0 <= k < |next.cached| && next.cached[k].id in next.world.tasks
      ensures next.copied[k] != next.born[next.cached[k].id] <==>
        IssuedSinceReload(s, events, j + 1, next.cached[k].id)
    {
      var id := next.cached[k].id;
      IssuedStep(s, events, j, id);
      match e
      case Arrives(req) =>
        if !CreatesId(now, e, id) {
          SurvivorsKeep(now.world, req, id);
        }
      case Reloads(tasks) => ReloadSound(now, tasks);
      case Executes(_, _, _) =>
    }
  }

  lemma {:induction false} RunTraced(s: System, events: seq<Event>, j: nat)
    requires Sound(s) && AllPossible(s, events) && j <= |events| && s.cached == []
    ensures Sound(At(s, events, j)) && CopiesTraced(s, events, j)
  {
    hide Sound, Happens, Possible, CopiesTraced;
    RunSound(s, events, j);
    if j == 0 {
      assert CopiesTraced(s, events, 0) by { NothingTraced(s, events); }
    } else {
      RunSound(s, events, j - 1);
      RunTraced(s, events, j - 1);
      StepTraced(s, events, j - 1);
    }
  }

  lemma NothingTraced(s: System, events: seq<Event>)
    requires Sound(s) && s.cached == []
    ensures CopiesTraced(s, events, 0)
  {
  }

  /**
   The event number `j` executes a copy and records the run with a live task, although the id was issued
   again after the copy was made.
   */
  ghost predicate ExecutesReissued(s: System, events: seq<Event>, j: nat) {
    && j < |events| && Records(At(s, events, j), events[j])
    && IssuedSinceReload(s, events, j, At(s, events, j).cached[events[j].slot].id)
  }

  lemma EmptyIsSound()
    ensures Sound(EMPTY) && AllOwn(EMPTY)
  {
  }

  lemma ForeignIff(events: seq<Event>, j: nat)
    requires AllPossible(EMPTY, events) && j < |events|
    ensures Sound(At(EMPTY, events, j))
    ensures Foreign(At(EMPTY, events, j), events[j]) <==> ExecutesReissued(EMPTY, events, j)
  {
    hide Happens, Possible, IssuedSinceReload, AllOwn;
    EmptyIsSound();
    RunTraced(EMPTY, events, j);
  }

  /**
   Over every run of requests, reloads and executions from an empty installation: at every moment all
   recorded runs of all live tasks come from their own trees, exactly if no copy is executed after its id
   was issued again since the last reload.
   */
  lemma RunsAreOwnIff(events: seq<Event>)
    requires AllPossible(EMPTY, events)
    ensures (forall i: nat | i <= |events| :: AllOwn(At(EMPTY, events, i))) <==>
      !exists j: nat :: ExecutesReissued(EMPTY, events, j)
  {
    hide Sound, Happens, Possible, AllOwn, ExecutesReissued, Foreign;
    EmptyIsSound();
    if j: nat :| ExecutesReissued(EMPTY, events, j) {
      assert j < |events| by { ReissuedInRange(events, j); }
      ForeignIff(events, j);
      if AllOwn(At(EMPTY, events, j)) {
        StepOwn(At(EMPTY, events, j), events[j]);
        assert !AllOwn(At(EMPTY, events, j + 1));
      }
    } else {
      for i := 0 to |events|
        invariant forall j: nat | j <= i :: AllOwn(At(EMPTY, events, j))
      {
        ForeignIff(events, i);
        StepOwn(At(EMPTY, events, i), events[i]);
      }
    }
  }

  lemma ReissuedInRange(events: seq<Event>, j: nat)
    requires ExecutesReissued(EMPTY, events, j)
    ensures j < |events|
  {
  }

  /** Any other execution that is recorded is of the tree that the store holds under that id. */
  lemma OwnTreeExecuted(events: seq<Event>, j: nat)
    requires AllPossible(EMPTY, events) && j < |events|
    requires Records(At(EMPTY, events, j), events[j]) && !ExecutesReissued(EMPTY, events, j)
    ensures var s := At(EMPTY, events, j);
      var task := s.cached[events[j].slot];
      s.world.tasks[task.id].cmd == Some(task.cmd)
  {
    hide Happens, Possible, IssuedSinceReload;
    ForeignIff(events, j);
  }

  // ---------- an instance ----------

  function Ready(timing: Timing, argv: seq<CString>): Record { NewRecord(timing, Some(SimpleCommand(argv))) }

  function CopyOf(id: uint64, timing: Timing, argv: seq<CString>): Task { Task.Task(id, timing, SimpleCommand(argv)) }

  /** Two tasks are created and copied, the second is removed, and another gets its id. */
  function Renumbering(timing: Timing): seq<Event> {
    [Arrives(Create(timing, Execution.A)), Arrives(Create(timing, Execution.B)),
     Reloads([CopyOf(0, timing, Execution.A), CopyOf(1, timing, Execution.B)]),
     Arrives(Remove(1)), Arrives(Create(timing, Execution.A))]
  }

  function Renumbered(timing: Timing): System {
    System(World(true, map[0 := Ready(timing, Execution.A), 1 := Ready(timing, Execution.A)]), 3, map[0 := 0, 1 := 2],
           [CopyOf(0, timing, Execution.A), CopyOf(1, timing, Execution.B)], [0, 1], map[0 := [], 1 := []])
  }

  lemma NextIds(timing: Timing, r: Record)
    ensures NextId(START) == 0 && NextId(World(true, map[0 := r])) == 1
  {
    NextIdIsUnique(START, 0);
    assert IsMaxKey(map[0 := r].Keys, 0);
    NextIdIsUnique(World(true, map[0 := r]), 1);
  }

  lemma Creation(s: System, timing: Timing, argv: seq<CString>, id: uint64)
    requires Sound(s) && ValidArguments(argv) && NextId(s.world) == id && id !in s.world.tasks
    ensures Happens(s, Arrives(Create(timing, argv))) ==
      System(World(true, s.world.tasks[id := Ready(timing, argv)]), s.count + 1, s.born[id := s.count],
             s.cached, s.copied, s.made[id := []])
  {
    hide NextId, ValidArguments, BornAfter, MadeAfter, CopiesFit;
    CreationHistories(s, timing, argv, id, World(true, s.world.tasks[id := Ready(timing, argv)]));
  }

  lemma CreationHistories(s: System, timing: Timing, argv: seq<CString>, id: uint64, w: World)
    requires s.born.Keys == s.world.tasks.Keys && s.made.Keys == s.world.tasks.Keys
    requires ValidArguments(argv) && NextId(s.world) == id && id !in s.world.tasks
    requires w.tasks.Keys == s.world.tasks.Keys + {id}
    ensures BornAfter(s, Arrives(Create(timing, argv)), w) == s.born[id := s.count]
    ensures MadeAfter(s, Arrives(Create(timing, argv)), w) == s.made[id := []]
  {
    hide NextId, ValidArguments;
    var e := Arrives(Create(timing, argv));
    assert forall k :: CreatesId(s, e, k) <==> k == id;
  }

  lemma Removal(s: System, id: uint64)
    requires Sound(s) && id in s.world.tasks
    ensures Happens(s, Arrives(Remove(id))) ==
      s.(world := World(s.world.dir, s.world.tasks - {id}), born := s.born - {id}, made := s.made - {id})
  {
    var s' := Happens(s, Arrives(Remove(id)));
    assert s'.born == s.born - {id};
    assert s'.made == s.made - {id};
  }

  lemma TwoCreated(timing: Timing)
    ensures var w := World(true, map[0 := Ready(timing, Execution.A), 1 := Ready(timing, Execution.B)]);
      At(EMPTY, Renumbering(timing), 2) == System(w, 2, map[0 := 0, 1 := 1], [], [], map[0 := [], 1 := []])
    ensures Sound(At(EMPTY, Renumbering(timing), 2))
    ensures Sound(At(EMPTY, Renumbering(timing), 1))
  {
    hide NextId, Sound, Happens;
    NextIds(timing, Ready(timing, Execution.A));
    assert [0x61] != [] && [0x62] != [];
    EmptyIsSound();
    var events := Renumbering(timing);
    Creation(EMPTY, timing, Execution.A, 0);
    ArrivalSound(EMPTY, events[0].req);
    var s1 := System(World(true, map[0 := Ready(timing, Execution.A)]), 1, map[0 := 0], [], [], map[0 := []]);
    assert map[][0 := Ready(timing, Execution.A)] == s1.world.tasks;
    assert At(EMPTY, events, 0) == EMPTY;
    assert At(EMPTY, events, 1) == s1;
    Creation(s1, timing, Execution.B, 1);
    ArrivalSound(s1, events[1].req);
    assert map[0 := Ready(timing, Execution.A)][1 := Ready(timing, Execution.B)]
        == map[0 := Ready(timing, Execution.A), 1 := Ready(timing, Execution.B)];
    assert At(EMPTY, events, 2) == Happens(s1, events[1]);
  }

  lemma RenumberingEnds(timing: Timing)
    ensures At(EMPTY, Renumbering(timing), 5) == Renumbered(timing) && AllPossible(EMPTY, Renumbering(timing))
    ensures Sound(Renumbered(timing))
  {
    hide NextId, Sound, Happens;
    TwoCreated(timing);
    var events := Renumbering(timing);
    var a, b := Ready(timing, Execution.A), Ready(timing, Execution.B);
    var copies := [CopyOf(0, timing, Execution.A), CopyOf(1, timing, Execution.B)];
    var s2 := At(EMPTY, events, 2);
    assert IsListing(s2.world, copies) by { CopiesAreListing(timing); }
    ReloadSound(s2, copies);
    var s3 := s2.(cached := copies, copied := [0, 1]);
    assert Happens(s2, events[2]) == s3 by { CopiesMade(s2, copies); }
    RenumberingRest(timing, copies, s3);
  }

  lemma RenumberingRest(timing: Timing, copies: seq<Task>, s3: System)
    requires s3 == At(EMPTY, Renumbering(timing), 2).(cached := copies, copied := [0, 1]) && Sound(s3)
    requires At(EMPTY, Renumbering(timing), 3) == s3
    requires copies == [CopyOf(0, timing, Execution.A), CopyOf(1, timing, Execution.B)]
    ensures At(EMPTY, Renumbering(timing), 5) == Renumbered(timing) && Sound(Renumbered(timing))
  {
    hide NextId, Sound, Happens;
    TwoCreated(timing);
    var events := Renumbering(timing);
    var a, b := Ready(timing, Execution.A), Ready(timing, Execution.B);
    Removal(s3, 1);
    ArrivalSound(s3, events[3].req);
    var s4 := System(World(true, map[0 := a]), 2, map[0 := 0], copies, [0, 1], map[0 := []]);
    assert s3.world.tasks - {1} == s4.world.tasks && s3.born - {1} == s4.born && s3.made - {1} == s4.made;
    assert At(EMPTY, events, 4) == s4;
    NextIds(timing, a);
    assert [0x61] != [];
    Creation(s4, timing, Execution.A, 1);
    ArrivalSound(s4, events[4].req);
    assert map[0 := a][1 := a] == map[0 := a, 1 := a];
    assert At(EMPTY, events, 5) == Renumbered(timing);
  }

  lemma CopiesAreListing(timing: Timing)
    ensures IsListing(World(true, map[0 := Ready(timing, Execution.A), 1 := Ready(timing, Execution.B)]),
                      [CopyOf(0, timing, Execution.A), CopyOf(1, timing, Execution.B)])
  {
    var ts := [CopyOf(0, timing, Execution.A), CopyOf(1, timing, Execution.B)];
    assert ts[0].id == 0 && ts[1].id == 1 && ts[0] in ts && ts[1] in ts;
  }

  lemma CopiesMade(s: System, copies: seq<Task>)
    requires |copies| == 2 && copies[0].id == 0 && copies[1].id == 1
    requires s.born == map[0 := 0, 1 := 1]
    ensures Happens(s, Reloads(copies)) == s.(cached := copies, copied := [0, 1])
  {
    assert Copies(s, copies) == [0, 1];
  }

  /** The same state after an execution of the second copy. */
  function RanElsewhere(timing: Timing, run: Run, out: seq<byte>, err: seq<byte>): System {
    var ran := Record(timing, Some(SimpleCommand(Execution.A)), [run], Some((out, err)));
    Renumbered(timing).(
      world := World(true, map[0 := Ready(timing, Execution.A), 1 := ran]),
      made := map[0 := [], 1 := [1]])
  }

  /** CREATE a, CREATE b, a reload, REMOVE 1, CREATE a: the next run of the copy of b is recorded for task 1, now a. */
  lemma RunUnderAnotherTask(timing: Timing, time: int64, out: seq<byte>, err: seq<byte>, exit: uint16)
    ensures At(EMPTY, Renumbering(timing), 5) == Renumbered(timing) && AllPossible(EMPTY, Renumbering(timing))
    ensures Renumbered(timing).cached[1] == CopyOf(1, timing, Execution.B)
    ensures Happens(Renumbered(timing), Executes(1, time, Execution.Result.Done(out, err, exit)))
         == RanElsewhere(timing, Run.Run(time, exit), out, err)
    ensures !AllOwn(RanElsewhere(timing, Run.Run(time, exit), out, err))
  {
    hide Happens, AllPossible, At, AllOwn;
    RenumberingEnds(timing);
    OneExecution(timing, time, out, err, exit);
    OtherTree(timing, Run.Run(time, exit), out, err);
  }

  lemma OneExecution(timing: Timing, time: int64, out: seq<byte>, err: seq<byte>, exit: uint16)
    ensures Happens(Renumbered(timing), Executes(1, time, Execution.Result.Done(out, err, exit)))
         == RanElsewhere(timing, Run.Run(time, exit), out, err)
  {
    var s := Renumbered(timing);
    var e := Executes(1, time, Execution.Result.Done(out, err, exit));
    assert s.cached[1].id == 1 && Records(s, e);
    var w := AfterExecution(s.world, 1, time, e.result);
    assert s.world.tasks[1].runs + [Run.Run(time, exit)] == [Run.Run(time, exit)];
    assert w == RanElsewhere(timing, Run.Run(time, exit), out, err).world;
    var one: seq<nat> := [1];
    assert s.made[1] == [] && s.copied[1] == 1 && s.made[1] + [s.copied[1]] == one;
    assert s.made[1 := one] == map[0 := [], 1 := one];
  }

  lemma OtherTree(timing: Timing, run: Run, out: seq<byte>, err: seq<byte>)
    ensures !AllOwn(RanElsewhere(timing, run, out, err))
  {
    var s := RanElsewhere(timing, run, out, err);
    assert s.made[1][0] == 1 && s.born[1] == 2;
  }
}
