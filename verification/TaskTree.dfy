/** The operations of `src/task_tree.c` on the tasks directory, proved against the plain map of `Store`. */
module TaskTree {
  import opened Bytes
  import opened Commands
  import opened Serialization
  import opened Text
  import opened Disk
  import opened Store
  import Protocol

  /** The record of a task that was just created. */
  function NewRecord(timing: Timing, cmd: Option<Command>): Record {
    Record(timing, cmd, [], None)
  }

  // ---------- freshly written task directories ----------

  lemma TimingReadsBack(t: Timing)
    ensures DecodeTiming(EncodeTiming(t)) == Got(t, [])
  {
    Commands.TimingRoundTrip(t, []);
    assert EncodeTiming(t) + [] == EncodeTiming(t);
  }

  lemma FreshTask(timing: Timing, cmd: Entries)
    ensures var node := Dir(map[TIMING := File(EncodeTiming(timing)), CMD := Dir(cmd)]);
      ValidTask(node) && RecordOf(node) == NewRecord(timing, Load(Dir(cmd)))
  {
    hide EncodeTiming, DecodeTiming, Load;
    TimingReadsBack(timing);
  }

  /** The `cmd` directory `combine_tasks` builds: a type, a count nobody reads, and numbered copies. */
  function CombinedDir(ty: uint16, n: nat, children: seq<Node>): Entries {
    CombinedHead(ty, n) + Numbered(children)
  }

  function CombinedHead(ty: uint16, n: nat): Entries {
    map["type" := File(BE(ty, 2)), "nbcmds" := File(BE(n, 4))]
  }

  function Numbered(children: seq<Node>): Entries {
    if children == [] then map[]
    else Numbered(children[..|children| - 1])[Decimal(|children| - 1) := children[|children| - 1]]
  }

  lemma {:induction false} NumberedAt(children: seq<Node>)
    ensures forall k: nat | k < |children| ::
      Decimal(k) in Numbered(children) && Numbered(children)[Decimal(k)] == children[k]
  {
    hide Decimal;
    if children == [] {
    } else {
      var n := |children| - 1;
      NumberedAt(children[..n]);
      forall k: nat | k < |children|
        ensures Decimal(k) in Numbered(children) && Numbered(children)[Decimal(k)] == children[k]
      {
        if k < n {
          DistinctNames(k, n);
          assert Numbered(children[..n])[Decimal(k)] == children[..n][k];
        }
      }
    }
  }

  ghost predicate IsNumeralBelow(name: string, n: nat) {
    AllDigits(name) && exists k: nat | k < n :: name == Decimal(k)
  }

  lemma {:induction false} NumberedOnly(children: seq<Node>, name: string)
    requires name in Numbered(children)
    ensures IsNumeralBelow(name, |children|)
  {
    hide Decimal;
    var n := |children| - 1;
    DecimalRoundTrip(n);
    if name != Decimal(n) {
      NumberedOnly(children[..n], name);
      var k: nat :| k < n && name == Decimal(k);
    }
  }

  /** What a combination of several trees means: nothing for the type SI, or if one is unusable. */
  function Combined(ty: uint16, cmds: seq<Option<Command>>): Option<Command> {
    if ty == SI || None in cmds then None else Some(Command(ty, [], Values(cmds)))
  }

  function Values(cmds: seq<Option<Command>>): (r: seq<Command>)
    requires None !in cmds
    ensures |r| == |cmds| && forall k | 0 <= k < |r| :: r[k] == cmds[k].value
  {
    if cmds == [] then [] else [cmds[0].value] + Values(cmds[1..])
  }

  /** The two fixed names and the numerals below the number of children make up the directory. */
  lemma CombinedDirNames(ty: uint16, n: nat, children: seq<Node>)
    ensures ReadType(CombinedDir(ty, n, children)) == Some(ty)
    ensures "argv" !in CombinedDir(ty, n, children)
    ensures NumberedUpTo(CombinedDir(ty, n, children), |children|)
    ensures forall k: nat | k < |children| :: CombinedDir(ty, n, children)[Decimal(k)] == children[k]
  {
    hide Decimal, Numbered, BE, DecodeUint16, CombinedHead, AllDigits, IsNumeralBelow, NumberedUpTo;
    var head, numbered := CombinedHead(ty, n), Numbered(children);
    HeadNames(ty, n);
    FixedNames();
    NumberedAt(children);
    forall name | name in numbered ensures IsNumeralBelow(name, |children|) && AllDigits(name) {
      NumberedOnly(children, name);
      NumeralHasDigits(name, |children|);
    }
    assert head["type"] == File(BE(ty, 2)) by { HeadType(ty, n); }
    TypeReadsBack(ty);
    NumberedDir(head, numbered, |children|);
  }

  lemma NumeralHasDigits(name: string, n: nat)
    ensures IsNumeralBelow(name, n) ==> AllDigits(name)
  {
  }

  lemma FixedNames()
    ensures !AllDigits("type") && !AllDigits("nbcmds") && !AllDigits("argv")
  {
    assert !IsDigit("type"[0]) && !IsDigit("nbcmds"[0]) && !IsDigit("argv"[0]);
  }

  lemma HeadType(ty: uint16, n: nat)
    ensures "type" in CombinedHead(ty, n) && CombinedHead(ty, n)["type"] == File(BE(ty, 2))
  {
  }

  lemma NumberedDir(head: Entries, numbered: Entries, n: nat)
    requires forall name | name in head :: !AllDigits(name)
    requires forall k: nat | k < n :: Decimal(k) in numbered
    requires forall name | name in numbered :: IsNumeralBelow(name, n)
    ensures NumberedUpTo(head + numbered, n)
  {
    hide Decimal, AllDigits;
  }

  /** Loading the combined directory gives the node with the trees in request order. */
  lemma CombinedLoads(ty: uint16, n: nat, children: seq<Node>, cmds: seq<Option<Command>>)
    requires 0 < |children| == |cmds| && Fits32(|children|)
    requires forall k | 0 <= k < |children| :: children[k].Dir? && Load(children[k]) == cmds[k]
    ensures Load(Dir(CombinedDir(ty, n, children))) == Combined(ty, cmds)
  {
    hide Decimal, CombinedDir, ReadType, NumberedUpTo, LoadChildren, ChildCount, Values;
    var dir := CombinedDir(ty, n, children);
    CombinedDirNames(ty, n, children);
    CountNumbered(dir, |children|);
    NumberedNames(dir, |children|);
    assert ty == SI ==> ReadArgv(dir) == None;
    if None in cmds {
      var k :| 0 <= k < |cmds| && cmds[k] == None;
      if LoadChildren(Dir(dir), 0, |children|).Some? {
        LoadedChild(Dir(dir), 0, |children|, k);
      }
    } else {
      var values := Values(cmds);
      LoadNumbered(Dir(dir), values, 0);
      assert values[0..] == values;
    }
  }

  // ---------- the store ----------

  /** Where the tree of a live task is. */
  lemma CommandOf(fs: Entries, id: uint64)
    requires ValidTasks(fs) && id in TaskMap(fs)
    ensures Decimal(id) in fs && fs[Decimal(id)].Dir?
    ensures CMD in fs[Decimal(id)].entries && fs[Decimal(id)].entries[CMD].Dir?
    ensures Load(fs[Decimal(id)].entries[CMD]) == TaskMap(fs)[id].cmd
  {
    hide Decimal, Load, TaskMap;
    TaskMapAt(fs, id);
  }

  datatype ReadOutcome = Contents(data: seq<byte>) | Missing | Broken

  /** The effect of writing one file of a task directory. */
  function WriteIn(fs: Entries, id: uint64, file: string, data: seq<byte>): Entries {
    var name := Decimal(id);
    fs[name := Dir(SubEntries(fs, name)[file := File(data)])]
  }

  /** What `save_task_to_dir` leaves in the tasks directory when it succeeds, whatever was there before. */
  function SavedTask(fs: Entries, t: Task): Option<Entries> {
    var name := Decimal(t.id);
    if !DirSlot(fs, name) || !FileSlot(SubEntries(fs, name), TIMING) then None else
    var e := SubEntries(fs, name)[TIMING := File(EncodeTiming(t.timing))];
    if !DirSlot(e, CMD) then None else
    var cmd := SaveInto(SubEntries(e, CMD), t.cmd);
    if cmd.None? then None else Some(fs[name := Dir(e[CMD := Dir(cmd.value)])])
  }

  lemma SavedFreshTask(fs: Entries, t: Task)
    requires ValidTasks(fs) && Decimal(t.id) !in fs
    requires Representable(t.cmd) && WellFormed(OnDisk, t.cmd)
    ensures SavedTask(fs, t).Some? && ValidTasks(SavedTask(fs, t).value)
    ensures TaskMap(SavedTask(fs, t).value) == TaskMap(fs)[t.id := NewRecord(t.timing, Some(t.cmd))]
  {
    hide Decimal, WellFormed, Representable, TaskMap, EncodeTiming, SaveInto, ValidTask;
    StorableIfWellFormed(t.cmd);
    SaveLoadRoundTrip(t.cmd);
    var cmd := SaveInto(map[], t.cmd).value;
    var node := Dir(map[TIMING := File(EncodeTiming(t.timing)), CMD := Dir(cmd)]);
    assert SubEntries(fs, Decimal(t.id)) == map[];
    var e: Entries := map[TIMING := File(EncodeTiming(t.timing))];
    assert SubEntries(e, CMD) == map[];
    assert e[CMD := Dir(cmd)] == node.entries;
    FreshTask(t.timing, cmd);
    UpdateTask(fs, t.id, node);
  }

  function FileData(e: Entries, file: string): seq<byte> { if IsFile(e, file) then e[file].data else [] }

  /** The position of the first id that already occurred before it, or the length of the list. */
  function FirstRepeat(ids: seq<uint64>): (j: nat)
    ensures j <= |ids|
    ensures forall a, b | 0 <= a < b < j :: ids[a] != ids[b]
    ensures j < |ids| ==> ids[j] in ids[..j]
  {
    if ids == [] then 0 else
    var last := |ids| - 1;
    var j := FirstRepeat(ids[..last]);
    if j < last then j else if ids[last] in ids[..last] then last else |ids|
  }

  class TaskStore {
    /** The entries of `tasks`, or nothing while that directory does not exist. */
    var tasks: Option<Entries>

    function Fs(): Entries
      reads this
    {
      if tasks.None? then map[] else tasks.value
    }

    ghost predicate Valid()
      reads this
    {
      ValidTasks(Fs())
    }

    ghost function View(): World
      requires Valid()
      reads this
    {
      World(tasks.Some?, TaskMap(Fs()))
    }

    constructor ()
      ensures Valid() && View() == World(false, map[])
    {
      tasks := None;
      new;
      assert TaskMap(map[]) == map[];
    }

    /** `stat` on the task directory. */
    method TaskExists(id: uint64) returns (found: bool)
      requires Valid()
      ensures found <==> id in View().tasks
    {
      TaskMapAt(Fs(), id);
      found := Decimal(id) in Fs() && Fs()[Decimal(id)].Dir?;
    }

    method LoadTaskFromDir(id: uint64) returns (r: Option<Task>)
      requires Valid()
      ensures r.Some? <==> id in View().tasks && View().tasks[id].cmd.Some?
      ensures r.Some? ==> r.value == Protocol.Task(id, View().tasks[id].timing, View().tasks[id].cmd.value)
    {
      hide Decimal, Load;
      TaskMapAt(Fs(), id);
      var name := Decimal(id);
      if name !in Fs() || Fs()[name].File? { return None; }
      var e := Fs()[name].entries;
      var timing := ReadTimingFile(e);
      if timing.None? || CMD !in e { return None; }
      var cmd := LoadCommandFromDir(e[CMD]);
      if cmd.None? { return None; }
      r := Some(Protocol.Task(id, timing.value, cmd.value));
    }

    /** `save_task_to_dir`. Into a fresh directory it makes the task loadable and changes nothing else. */
    method SaveTaskToDir(t: Task) returns (ok: bool)
      requires Representable(t.cmd)
      modifies this
      ensures ok <==> SavedTask(old(Fs()), t).Some?
      ensures ok ==> tasks == SavedTask(old(Fs()), t)
      ensures old(Valid()) && old(t.id !in View().tasks) && WellFormed(OnDisk, t.cmd) ==>
        ok && Valid() && View() == World(true, old(View().tasks)[t.id := NewRecord(t.timing, Some(t.cmd))])
    {
      hide Decimal, WellFormed, Representable, TaskMap, EncodeTiming, SaveInto;
      var fs, name := Fs(), Decimal(t.id);
      if old(Valid()) { TaskMapAt(fs, t.id); }
      if old(Valid()) && old(t.id !in View().tasks) && WellFormed(OnDisk, t.cmd) { SavedFreshTask(fs, t); }
      if !DirSlot(fs, name) || !FileSlot(SubEntries(fs, name), TIMING) { return false; }
      var timingFile := new Stream([]);
      WriteTiming(timingFile, t.timing);
      assert timingFile.data == EncodeTiming(t.timing);
      var e := SubEntries(fs, name)[TIMING := File(timingFile.data)];
      if !DirSlot(e, CMD) { return false; }
      var cmd := SaveCommandToDir(SubEntries(e, CMD), t.cmd);
      if cmd.None? { return false; }
      tasks := Some(fs[name := Dir(e[CMD := Dir(cmd.value)])]);
      ok := true;
    }

    /** `generate_task_id`: a scan of the names in any order, or a new directory and the id 0. */
    method GenerateTaskId() returns (id: uint64)
      requires Valid()
      modifies this
      ensures Valid() && View() == old(View()).(dir := true)
      ensures id == NextId(old(View()))
    {
      hide TaskMap, ValidTask, MaxOf, NameValue, Decimal;
      ghost var before := View();
      if tasks.None? {
        tasks := Some(map[]);
        id := 0;
      } else {
        var max := ScanMax(tasks.value.Keys, NameValue);
        ScannedMax(tasks.value);
        id := (max + 1) % ID_LIMIT;
        assert IsNextId(before, id);
      }
      NextIdIsUnique(before, id);
    }

    /** `remove_task`. */
    method RemoveTask(id: uint64) returns (ok: bool)
      requires Valid()
      modifies this
      ensures Valid()
      ensures ok <==> id in old(View()).tasks
      ensures View() == World(old(View()).dir, old(View()).tasks - {id})
    {
      TaskMapAt(Fs(), id);
      if Decimal(id) !in Fs() || Fs()[Decimal(id)].File? {
        assert View().tasks - {id} == View().tasks;
        return false;
      }
      DeleteTask(Fs(), id);
      tasks := Some(Fs() - {Decimal(id)});
      ok := true;
    }

    /** The loop of `cp -r` commands; the numbered names are free in the fresh directory. */
    method CopyTrees(ids: seq<uint64>, ty: uint16) returns (dir: Entries, ghost children: seq<Node>)
      requires Valid()
      requires forall id | id in ids :: id in View().tasks
      ensures |children| == |ids|
      ensures forall i | 0 <= i < |ids| :: children[i].Dir? && Load(children[i]) == View().tasks[ids[i]].cmd
      ensures dir == CombinedDir(ty, |ids|, children)
    {
      hide Decimal, Load, CombinedDir, BE, TaskMap, ValidTask, RecordOf;
      dir := map["type" := File(BE(ty, 2)), "nbcmds" := File(BE(|ids|, 4))];
      children := [];
      assert dir == CombinedDir(ty, |ids|, []) by { NoChildren(ty, |ids|); }
      for i := 0 to |ids|
        invariant |children| == i
        invariant forall k | 0 <= k < i :: children[k].Dir? && Load(children[k]) == View().tasks[ids[k]].cmd
        invariant dir == CombinedDir(ty, |ids|, children)
      {
        assert ids[i] in View().tasks;
        CommandOf(Fs(), ids[i]);
        var src := Fs()[Decimal(ids[i])].entries[CMD];
        OneMoreChild(ty, |ids|, children, src);
        dir := CopyRecursively(dir, Decimal(i), src);
        children := children + [src];
      }
    }

    /** The loop of removals, which stops at the first id that is gone. */
    method RemoveAll(ids: seq<uint64>) returns (ok: bool)
      requires Valid()
      requires forall id | id in ids :: id in View().tasks
      modifies this
      ensures Valid()
      ensures ok <==> FirstRepeat(ids) == |ids|
      ensures View() == World(old(View()).dir, old(View()).tasks - ToSet(ids[..FirstRepeat(ids)]))
    {
      hide TaskMap, Decimal, FirstRepeat, ToSet, ValidTask;
      ghost var before := View();
      RemovedNone(before.tasks);
      for i := 0 to |ids|
        invariant Valid()
        invariant View() == World(before.dir, before.tasks - ToSet(ids[..i]))
        invariant forall a, b | 0 <= a < b < i :: ids[a] != ids[b]
      {
        RemovedOneMore(before.tasks, ids, i);
        var removed := RemoveTask(ids[i]);
        if !removed {
          FirstRepeatIs(ids, i);
          return false;
        }
      }
      FirstRepeatIs(ids, |ids|);
      ok := true;
    }

    /**
     `combine_tasks`. It fails at once unless there is an id and all exist. Otherwise the new task
     is created, whatever the type, and the listed tasks are removed one by one: with a repeated id
     the call fails after everything before the repetition is gone.
     */
    method CombineTasks(ids: seq<uint64>, ty: uint16, timing: Timing) returns (ok: bool, newId: uint64)
      requires Valid() && HasRoom(View()) && Fits32(|ids|)
      modifies this
      ensures Valid()
      ensures ok <==> ids != [] && (forall id | id in ids :: id in old(View()).tasks) && FirstRepeat(ids) == |ids|
      ensures View() == Combination(old(View()), ids, ty, timing)
      ensures ok ==> newId == NextId(old(View()))
    {
      hide Decimal, Load, CombinedDir, EncodeTiming, TaskMap, NextId, ValidTask;
      newId := 0;
      if ids == [] { return false, newId; }
      ghost var before := View();
      for i := 0 to |ids|
        invariant forall k | 0 <= k < i :: ids[k] in before.tasks
        modifies {}
      {
        var found := TaskExists(ids[i]);
        if !found { return false, newId; }
      }
      assert ids[0] in before.tasks;
      TasksNeedDir();
      newId := GenerateTaskId();
      NextIdIsFresh(before);
      assert View() == before;
      var cmdDir, children := CopyTrees(ids, ty);
      var timingFile := new Stream([]);
      WriteTiming(timingFile, timing);
      assert timingFile.data == EncodeTiming(timing);
      ghost var cmds := CmdsOf(before.tasks, ids);
      CombinedLoads(ty, |ids|, children, cmds);
      FreshTask(timing, cmdDir);
      TaskMapAt(Fs(), newId);
      var node := Dir(map[TIMING := File(timingFile.data), CMD := Dir(cmdDir)]);
      UpdateTask(Fs(), newId, node);
      tasks := Some(Fs()[Decimal(newId) := node]);
      ghost var created := View();
      assert created.tasks == before.tasks[newId := NewRecord(timing, Combined(ty, cmds))];
      ok := RemoveAll(ids);
      RemoveOthers(before.tasks, newId, NewRecord(timing, Combined(ty, cmds)), ids[..FirstRepeat(ids)]);
    }

    lemma TasksNeedDir()
      requires Valid()
      ensures forall id | id in View().tasks :: View().dir
    {
      hide Decimal, ValidTask, RecordOf;
    }

    // ---------- runs ----------

    /** `append_execution_log`. */
    method AppendExecutionLog(id: uint64, run: Run) returns (ok: bool)
      modifies this
      ensures ok <==> old(CanWrite(id, LOG))
      ensures var before := FileData(SubEntries(old(Fs()), Decimal(id)), LOG);
        tasks == if ok then Some(WriteIn(old(Fs()), id, LOG, before + Protocol.EncodeRun(run))) else old(tasks)
    {
      hide Decimal, BE;
      if !CanWrite(id, LOG) { return false; }
      var file := new Stream(FileData(SubEntries(Fs(), Decimal(id)), LOG));
      ghost var before := file.data;
      file.WriteUint64(Unsigned(run.time));
      file.WriteUint16(run.exit);
      assert file.data == before + Protocol.EncodeRun(run);
      tasks := Some(WriteIn(Fs(), id, LOG, file.data));
      ok := true;
    }

    /** `save_stdout` and `save_stderr`. */
    method SaveStream(id: uint64, file: string, output: seq<byte>) returns (ok: bool)
      modifies this
      ensures ok <==> old(CanWrite(id, file))
      ensures tasks == if ok then Some(WriteIn(old(Fs()), id, file, output)) else old(tasks)
    {
      if !CanWrite(id, file) { return false; }
      tasks := Some(WriteIn(Fs(), id, file, output));
      ok := true;
    }

    /** `open` with `O_CREAT` inside the task directory. */
    predicate CanWrite(id: uint64, file: string)
      reads this
    {
      Decimal(id) in Fs() && Fs()[Decimal(id)].Dir? && FileSlot(Fs()[Decimal(id)].entries, file)
    }

    /** What a finished run leaves behind: nothing if the task was removed meanwhile. */
    method RecordRun(id: uint64, run: Run, output: seq<byte>, errors: seq<byte>)
      requires Valid()
      modifies this
      ensures Valid()
      ensures View() == AfterRun(old(View()), id, run, output, errors)
    {
      hide Decimal, TaskMap, WriteIn, ValidTask, FileSlot;
      ghost var fs := Fs();
      TaskMapAt(fs, id);
      if Decimal(id) in fs {
        RunWritten(fs, id, run, output, errors);
      }
      var _ := AppendExecutionLog(id, run);
      var _ := SaveStream(id, OUT, output);
      var _ := SaveStream(id, ERR, errors);
      if Decimal(id) in fs {
        ghost var node := WriteRun(fs[Decimal(id)], run, output, errors);
        UpdateTask(fs, id, node);
      }
    }

    /** `read_execution_logs`. */
    method ReadExecutionLogs(id: uint64, benign: bool) returns (r: Option<seq<Run>>)
      requires Valid()
      ensures r == Some(if id in View().tasks then View().tasks[id].runs else [])
    {
      hide Decimal, TaskMap, DecodeLog, Load;
      TaskMapAt(Fs(), id);
      var e := SubEntries(Fs(), Decimal(id));
      if LOG !in e { return Some([]); }
      var fd := new Stream(e[LOG].data);
      r := ReadLogEntries(fd, benign);
    }

    /** `read_stdout` and `read_stderr`. */
    method ReadStream(id: uint64, file: string) returns (r: ReadOutcome)
      requires Valid()
      requires file == OUT || file == ERR
      ensures id in View().tasks && View().tasks[id].outputs.Some? ==>
        r == Contents(if file == OUT then View().tasks[id].outputs.value.0 else View().tasks[id].outputs.value.1)
      ensures !(id in View().tasks && View().tasks[id].outputs.Some?) ==> r == Missing
    {
      hide Decimal, TaskMap, DecodeLog, Load;
      TaskMapAt(Fs(), id);
      var e := SubEntries(Fs(), Decimal(id));
      if file !in e { return Missing; }
      if e[file].Dir? { return Broken; }
      r := Contents(e[file].data);
    }

    // ---------- listing ----------

    /** `load_all_tasks`: the names are visited in an arbitrary order, unusable tasks are skipped. */
    method LoadAllTasks() returns (r: seq<Task>)
      requires Valid()
      ensures IsListing(View(), r)
    {
      hide Decimal, TaskMap, ValidTask, NameValue;
      r := [];
      if tasks.None? {
        assert forall id: uint64 :: id !in View().tasks by {
          forall id: uint64 { TaskMapAt(Fs(), id); }
        }
        return;
      }
      var todo := tasks.value.Keys;
      while todo != {}
        invariant todo <= tasks.value.Keys
        invariant forall t | t in r :: Decimal(t.id) in tasks.value.Keys - todo && IsLoaded(View(), t)
        invariant forall id: uint64 | Decimal(id) in tasks.value.Keys - todo ::
          IsUsable(View(), id) ==> exists t | t in r :: t.id == id
        invariant forall i, j | 0 <= i < j < |r| :: r[i].id != r[j].id
      {
        var name :| name in todo;
        todo := todo - {name};
        ghost var me: uint64 :| name == Decimal(me);
        CanonicalName(me);
        if IsNumber(name) {
          var id := NameValue(name);
          var t := LoadTaskFromDir(id);
          forall k: uint64 | Decimal(k) == name ensures k == id {
            DecimalInjective(k, id);
          }
          if t.Some? {
            r := r + [t.value];
            assert t.value in r;
          }
        }
      }
      forall id: uint64 | id in View().tasks ensures Decimal(id) in tasks.value.Keys {
        TaskMapAt(Fs(), id);
      }
    }
  }

  // ---------- what the operations do to the abstract store ----------

  function ToSet(ids: seq<uint64>): set<uint64> { set id | id in ids }

  ghost function CmdsOf(tasks: map<uint64, Record>, ids: seq<uint64>): seq<Option<Command>>
    requires forall id | id in ids :: id in tasks
  {
    seq(|ids|, i requires 0 <= i < |ids| => tasks[ids[i]].cmd)
  }

  ghost function Combination(w: World, ids: seq<uint64>, ty: uint16, timing: Timing): World {
    if ids == [] || exists id | id in ids :: id !in w.tasks then w else
    var record := NewRecord(timing, Combined(ty, CmdsOf(w.tasks, ids)));
    World(true, (w.tasks - ToSet(ids[..FirstRepeat(ids)]))[NextId(w) := record])
  }

  function AfterRun(w: World, id: uint64, run: Run, output: seq<byte>, errors: seq<byte>): World {
    if id !in w.tasks then w else
    w.(tasks := w.tasks[id := w.tasks[id].(runs := w.tasks[id].runs + [run], outputs := Some((output, errors)))])
  }

  predicate IsUsable(w: World, id: uint64) { id in w.tasks && w.tasks[id].cmd.Some? }

  predicate IsLoaded(w: World, t: Task) {
    IsUsable(w, t.id) && t == Protocol.Task(t.id, w.tasks[t.id].timing, w.tasks[t.id].cmd.value)
  }

  /** A list of exactly the usable tasks, each once, in any order. */
  ghost predicate IsListing(w: World, ts: seq<Task>) {
    && (forall i, j | 0 <= i < j < |ts| :: ts[i].id != ts[j].id)
    && (forall t | t in ts :: IsLoaded(w, t))
    && (forall id: uint64 | IsUsable(w, id) :: exists t | t in ts :: t.id == id)
  }

  /** `cp -r src dst`: into `dst` if that is a directory already. */
  function CopyRecursively(dir: Entries, dst: string, src: Node): Entries {
    if dst in dir && dir[dst].Dir? then dir[dst := Dir(dir[dst].entries[CMD := src])] else dir[dst := src]
  }

  lemma NoChildren(ty: uint16, n: nat)
    ensures CombinedDir(ty, n, []) == map["type" := File(BE(ty, 2)), "nbcmds" := File(BE(n, 4))]
  {
  }

  lemma OneMoreChild(ty: uint16, n: nat, children: seq<Node>, child: Node)
    ensures CopyRecursively(CombinedDir(ty, n, children), Decimal(|children|), child)
         == CombinedDir(ty, n, children + [child])
  {
    hide Decimal, Numbered, CombinedHead;
    NextNumberIsFree(children);
    NumberedSnoc(children, child);
    assert Decimal(|children|) !in CombinedHead(ty, n) by { HeadNames(ty, n); }
    AddThenUpdate(CombinedHead(ty, n), Numbered(children), Decimal(|children|), child);
  }

  lemma HeadNames(ty: uint16, n: nat)
    ensures CombinedHead(ty, n).Keys == {"type", "nbcmds"}
  {
  }

  lemma AddThenUpdate(a: Entries, b: Entries, name: string, node: Node)
    ensures (a + b)[name := node] == a + b[name := node]
  {
  }

  lemma NumberedSnoc(children: seq<Node>, child: Node)
    ensures Numbered(children + [child]) == Numbered(children)[Decimal(|children|) := child]
  {
    hide Decimal;
    var all := children + [child];
    assert all[..|all| - 1] == children && all[|all| - 1] == child;
  }

  lemma NextNumberIsFree(children: seq<Node>)
    ensures Decimal(|children|) !in Numbered(children)
    ensures Decimal(|children|) != "type" && Decimal(|children|) != "nbcmds"
  {
    hide Decimal, Numbered;
    NumberedAt(children);
    if Decimal(|children|) in Numbered(children) {
      NumberedOnly(children, Decimal(|children|));
    }
    DecimalRoundTrip(|children|);
    assert !IsDigit("type"[0]) && !IsDigit("nbcmds"[0]);
    forall k: nat | k < |children| ensures Decimal(k) != Decimal(|children|) {
      DistinctNames(k, |children|);
    }
  }

  lemma FirstRepeatIs(ids: seq<uint64>, j: nat)
    requires j <= |ids|
    requires forall a, b | 0 <= a < b < j :: ids[a] != ids[b]
    requires j < |ids| ==> ids[j] in ids[..j]
    ensures FirstRepeat(ids) == j
  {
    var k := FirstRepeat(ids);
    if k < j {
      assert false;
    }
    if j < k {
      assert false;
    }
  }

  lemma RemovedNone(tasks: map<uint64, Record>)
    ensures tasks - ToSet([]) == tasks
  {
  }

  lemma RemovedOneMore(tasks: map<uint64, Record>, ids: seq<uint64>, i: nat)
    requires i < |ids| && ids[i] in tasks
    ensures tasks - ToSet(ids[..i]) - {ids[i]} == tasks - ToSet(ids[..i + 1])
    ensures ids[i] in tasks - ToSet(ids[..i]) <==> ids[i] !in ids[..i]
    ensures ids[i] in ids[..i] ==> tasks - ToSet(ids[..i]) - {ids[i]} == tasks - ToSet(ids[..i])
    ensures ids[i] !in ids[..i] ==> forall a | 0 <= a < i :: ids[a] != ids[i]
  {
    assert ToSet(ids[..i + 1]) == ToSet(ids[..i]) + {ids[i]};
    assert forall a | 0 <= a < i :: ids[a] in ids[..i];
  }

  lemma RemoveOthers(tasks: map<uint64, Record>, newId: uint64, record: Record, ids: seq<uint64>)
    requires newId !in ids
    ensures tasks[newId := record] - ToSet(ids) == (tasks - ToSet(ids))[newId := record]
  {
  }

  /** The node of a task after the three files of a run were written. */
  function WriteRun(node: Node, run: Run, output: seq<byte>, errors: seq<byte>): Node
    requires node.Dir?
  {
    var log := FileData(node.entries, LOG) + Protocol.EncodeRun(run);
    Dir(node.entries[LOG := File(log)][OUT := File(output)][ERR := File(errors)])
  }

  lemma RunRecorded(node: Node, run: Run, output: seq<byte>, errors: seq<byte>)
    requires ValidTask(node)
    ensures ValidTask(WriteRun(node, run, output, errors))
    ensures RecordOf(WriteRun(node, run, output, errors)) ==
      RecordOf(node).(runs := RecordOf(node).runs + [run], outputs := Some((output, errors)))
  {
    hide Load, DecodeTiming, DecodeLog, Protocol.EncodeRun;
    LogEntryLength(run);
    AppendedLog(FileData(node.entries, LOG), run);
    EmptyLog();
  }

  lemma EmptyLog()
    ensures DecodeLog([]) == []
  {
  }

  lemma RunWritten(fs: Entries, id: uint64, run: Run, output: seq<byte>, errors: seq<byte>)
    requires Decimal(id) in fs && ValidTask(fs[Decimal(id)])
    ensures var name := Decimal(id);
      && FileSlot(fs[name].entries, LOG)
      && var fs1 := WriteIn(fs, id, LOG, FileData(SubEntries(fs, name), LOG) + Protocol.EncodeRun(run));
      && name in fs1 && fs1[name].Dir? && FileSlot(fs1[name].entries, OUT)
      && var fs2 := WriteIn(fs1, id, OUT, output);
      && name in fs2 && fs2[name].Dir? && FileSlot(fs2[name].entries, ERR)
      && WriteIn(fs2, id, ERR, errors) == fs[name := WriteRun(fs[name], run, output, errors)]
      && ValidTask(WriteRun(fs[name], run, output, errors))
      && RecordOf(WriteRun(fs[name], run, output, errors)) ==
           RecordOf(fs[name]).(runs := RecordOf(fs[name]).runs + [run], outputs := Some((output, errors)))
  {
    hide Decimal, Load, DecodeTiming, DecodeLog, Protocol.EncodeRun, RecordOf;
    RunRecorded(fs[Decimal(id)], run, output, errors);
  }

  // ---------- reading a log ----------

  function Zip(times: seq<int64>, exits: seq<uint16>): seq<Run>
    requires |times| == |exits|
  {
    seq(|times|, i requires 0 <= i < |times| => Protocol.Run(times[i], exits[i]))
  }

  /**
   What `read_execution_logs` makes of a file. A lone timestamp at the end is dropped; any other
   incomplete entry ends the list too, but only if `errno` happens to hold a benign value.
   */
  function LogOutcome(data: seq<byte>, benign: bool): Option<seq<Run>> {
    if |data| % 10 == 0 || |data| % 10 == 8 || benign then Some(DecodeLog(data)) else None
  }

  /**
   A log of whole pairs and less than one more is read as those pairs. Only when eight of the ten bytes of
   the next are there, or none, is it certain to be read.
   */
  lemma LogCases(runs: seq<Run>, tail: seq<byte>, benign: bool)
    requires |tail| < 10
    ensures LogOutcome(EncodeMany(Protocol.EncodeRun, runs) + tail, benign) ==
      if |tail| == 0 || |tail| == 8 || benign then Some(runs) else None
  {
    hide DecodeLog;
    LogRoundTrip(runs, tail);
  }

  lemma LogStep(data: seq<byte>)
    ensures DecodeInt64(data).Got? <==> |data| >= 8
    ensures |data| >= 8 ==> DecodeInt64(data).rest == data[8..]
    ensures |data| >= 8 ==> (DecodeUint16(data[8..]).Got? <==> |data| >= 10)
    ensures |data| >= 10 ==> DecodeUint16(data[8..]).rest == data[10..]
    ensures DecodeLog(data) ==
      if |data| < 10 then []
      else [Protocol.Run(DecodeInt64(data).value, DecodeUint16(data[8..]).value)] + DecodeLog(data[10..])
  {
    hide Value, BE;
  }

  /** `realloc` to twice the size. */
  method Doubled<T>(a: array<T>, filler: T) returns (b: array<T>)
    ensures fresh(b) && b.Length == 2 * a.Length
    ensures b[..a.Length] == a[..]
  {
    b := new T[2 * a.Length](i => filler);
    for i := 0 to a.Length
      invariant b[..i] == a[..i]
    {
      b[i] := a[i];
    }
  }

  /** What is left of a log when the reading loop stops. */
  lemma LogEnds(data: seq<byte>, left: seq<byte>, count: nat, benign: bool)
    requires |data| == |left| + 10 * count && |left| < 10
    ensures DecodeLog(left) == []
    ensures LogOutcome(data, benign) == if left == [] || |left| == 8 || benign then Some(DecodeLog(data)) else None
  {
    assert |data| % 10 == |left|;
  }

  /** Stores one more pair, in arrays twice as long if the old ones are full. */
  method PushRun(times: array<int64>, exits: array<uint16>, count: nat, run: Run)
    returns (times': array<int64>, exits': array<uint16>)
    requires count <= times.Length == exits.Length && times.Length > 0
    modifies times, exits
    ensures times' == times || fresh(times')
    ensures exits' == exits || fresh(exits')
    ensures count + 1 <= times'.Length == exits'.Length
    ensures Zip(times'[..count + 1], exits'[..count + 1]) == old(Zip(times[..count], exits[..count])) + [run]
  {
    times', exits' := times, exits;
    if count == times.Length {
      times' := Doubled(times, 0);
      exits' := Doubled(exits, 0);
    }
    times'[count] := run.time;
    exits'[count] := run.exit;
    assert times'[..count + 1] == old(times[..count]) + [run.time];
    assert exits'[..count + 1] == old(exits[..count]) + [run.exit];
  }

  /** One turn of the reading loop: a pair, or the way the file ends. */
  method ReadPair(fd: Stream) returns (pair: Option<Run>, atEnd: bool)
    modifies fd
    ensures pair.Some? <==> |old(fd.data)| >= 10
    ensures pair.Some? ==> |old(fd.data)| == |fd.data| + 10
    ensures pair.Some? ==> DecodeLog(old(fd.data)) == [pair.value] + DecodeLog(fd.data)
    ensures pair.None? ==> (atEnd <==> |old(fd.data)| == 0 || |old(fd.data)| == 8)
  {
    hide DecodeUint16, DecodeInt64, DecodeLog;
    LogStep(fd.data);
    atEnd := fd.data == [];
    var time := fd.ReadInt64();
    if time.None? { return None, atEnd; }
    atEnd := fd.data == [];
    var exit := fd.ReadUint16();
    if exit.None? { return None, atEnd; }
    pair := Some(Protocol.Run(time.value, exit.value));
  }

  /** The reading loop, into two arrays that double when full. */
  method ReadLogEntries(fd: Stream, benign: bool) returns (r: Option<seq<Run>>)
    modifies fd
    ensures r == LogOutcome(old(fd.data), benign)
  {
    hide DecodeLog, LogOutcome, Zip;
    var times := new int64[8](i => 0);
    var exits := new uint16[8](i => 0);
    var count := 0;
    ghost var start := fd.data;
    assert [] + DecodeLog(start) == DecodeLog(start);
    assert Zip(times[..0], exits[..0]) == [] by { EmptyZip(); }
    while true
      invariant count <= times.Length == exits.Length && times.Length > 0
      invariant fresh(times) && fresh(exits)
      invariant |start| == |fd.data| + 10 * count
      invariant DecodeLog(start) == Zip(times[..count], exits[..count]) + DecodeLog(fd.data)
      decreases |fd.data|
    {
      ghost var seen := Zip(times[..count], exits[..count]);
      if |fd.data| < 10 {
        LogEnds(start, fd.data, count, benign);
        assert seen + [] == seen;
      }
      var pair, atEnd := ReadPair(fd);
      if pair.None? {
        return if atEnd || benign then Some(Zip(times[..count], exits[..count])) else None;
      }
      times, exits := PushRun(times, exits, count, pair.value);
      count := count + 1;
      assert seen + ([pair.value] + DecodeLog(fd.data)) == seen + [pair.value] + DecodeLog(fd.data);
    }
  }

  lemma EmptyZip()
    ensures Zip([], []) == []
  {
  }

  lemma {:induction false} StorableIfWellFormed(c: Command)
    requires WellFormed(OnDisk, c)
    ensures Storable(c)
  {
    forall d | d in c.cmds ensures c.ty != SI ==> Storable(d) {
      if c.ty != SI {
        StorableIfWellFormed(d);
      }
    }
  }
}
