/** The directory `tasks` with one numbered sub-directory per task, after `src/task_tree.c`. */
module Store {
  import opened Bytes
  import opened Commands
  import opened Text
  import opened Disk
  import Protocol

  type Task = Protocol.Task
  type Run = Protocol.Run

  const ID_LIMIT := 0x1_0000_0000_0000_0000

  /** What is remembered about a task. `cmd` is missing when the `cmd` directory cannot be loaded. */
  datatype Record = Record(
    timing: Timing,
    cmd: Option<Command>,
    runs: seq<Run>,
    outputs: Option<(seq<byte>, seq<byte>)>)

  /** The abstract store: whether `tasks` exists, and a plain map from ids to records. */
  datatype World = World(dir: bool, tasks: map<uint64, Record>)

  // ---------- one task directory ----------

  const TIMING := "timing"
  const CMD := "cmd"
  const LOG := "times-exitcodes"
  const OUT := "stdout"
  const ERR := "stderr"

  predicate IsFile(e: Entries, name: string) { name in e && e[name].File? }

  function ReadTimingFile(e: Entries): Option<Timing> {
    if IsFile(e, TIMING) && DecodeTiming(e[TIMING].data).Got?
    then Some(DecodeTiming(e[TIMING].data).value) else None
  }

  /** The pairs of a log, ten bytes each; an incomplete last pair is dropped. */
  function DecodeLog(data: seq<byte>): seq<Run> {
    if |data| < 10 then [] else
    var pair := Protocol.DecodeRun(data);
    assert pair.Got?;
    [pair.value] + DecodeLog(data[10..])
  }

  /** The state every task directory is left in by the daemon. */
  predicate ValidTask(node: Node) {
    && node.Dir?
    && ReadTimingFile(node.entries).Some?
    && CMD in node.entries && node.entries[CMD].Dir?
    && (LOG in node.entries ==>
         && IsFile(node.entries, LOG)
         && node.entries[LOG].data != [] && |node.entries[LOG].data| % 10 == 0)
    && (OUT in node.entries <==> LOG in node.entries)
    && (ERR in node.entries <==> LOG in node.entries)
    && (OUT in node.entries ==> IsFile(node.entries, OUT) && IsFile(node.entries, ERR))
  }

  function LogOf(e: Entries): seq<Run> { if IsFile(e, LOG) then DecodeLog(e[LOG].data) else [] }

  function OutputsOf(e: Entries): Option<(seq<byte>, seq<byte>)> {
    if IsFile(e, OUT) && IsFile(e, ERR) then Some((e[OUT].data, e[ERR].data)) else None
  }

  ghost function RecordOf(node: Node): Record
    requires ValidTask(node)
  {
    Record(ReadTimingFile(node.entries).value, Load(node.entries[CMD]), LogOf(node.entries), OutputsOf(node.entries))
  }

  // ---------- the whole directory ----------

  /** The daemon's own directories: canonical numerals naming task directories. */
  ghost predicate ValidTasks(fs: Entries) {
    forall name | name in fs :: (exists id: uint64 :: name == Decimal(id)) && ValidTask(fs[name])
  }

  ghost function TaskMap(fs: Entries): map<uint64, Record>
    requires ValidTasks(fs)
  {
    map id: uint64 | 0 <= id < ID_LIMIT && Decimal(id) in fs :: RecordOf(fs[Decimal(id)])
  }

  lemma TaskMapAt(fs: Entries, k: uint64)
    requires ValidTasks(fs)
    ensures k in TaskMap(fs) <==> Decimal(k) in fs
    ensures k in TaskMap(fs) ==>
      fs[Decimal(k)].Dir? && ValidTask(fs[Decimal(k)]) && TaskMap(fs)[k] == RecordOf(fs[Decimal(k)])
  {
    hide Decimal, RecordOf;
  }

  /** Writing one task directory changes one record. */
  lemma UpdateTask(fs: Entries, id: uint64, node: Node)
    requires ValidTasks(fs) && ValidTask(node)
    ensures ValidTasks(fs[Decimal(id) := node])
    ensures TaskMap(fs[Decimal(id) := node]) == TaskMap(fs)[id := RecordOf(node)]
  {
    hide Decimal, ValidTask, RecordOf, TaskMap;
    var fs' := fs[Decimal(id) := node];
    assert ValidTasks(fs');
    var m, m' := TaskMap(fs), TaskMap(fs');
    forall k: uint64
      ensures k in m' <==> k == id || k in m
      ensures k in m' ==> m'[k] == m[id := RecordOf(node)][k]
    {
      TaskMapAt(fs, k);
      TaskMapAt(fs', k);
      if k != id {
        DistinctNames(k, id);
      }
    }
  }

  /** Deleting one task directory deletes one record. */
  lemma DeleteTask(fs: Entries, id: uint64)
    requires ValidTasks(fs)
    ensures ValidTasks(fs - {Decimal(id)})
    ensures TaskMap(fs - {Decimal(id)}) == TaskMap(fs) - {id}
  {
    hide Decimal, ValidTask, RecordOf, TaskMap;
    var fs' := fs - {Decimal(id)};
    assert ValidTasks(fs');
    var m, m' := TaskMap(fs), TaskMap(fs');
    forall k: uint64
      ensures k in m' <==> k != id && k in m
      ensures k in m' ==> m'[k] == m[k]
    {
      TaskMapAt(fs, k);
      TaskMapAt(fs', k);
      if k != id {
        DistinctNames(k, id);
      }
    }
  }

  // ---------- identifiers ----------

  ghost predicate IsMaxKey(keys: set<uint64>, m: nat) {
    && (forall k | k in keys :: k <= m)
    && (m == 0 || exists k | k in keys :: k == m)
  }

  /** The id the next task gets: 0 if the directory is missing, else one more than the largest. */
  ghost predicate IsNextId(w: World, id: uint64) {
    if !w.dir then id == 0
    else exists m: nat :: IsMaxKey(w.tasks.Keys, m) && id == (m + 1) % ID_LIMIT
  }

  lemma {:induction false} SomeMaxKey(keys: set<uint64>) returns (m: uint64)
    ensures IsMaxKey(keys, m)
  {
    if keys == {} {
      m := 0;
    } else {
      var k :| k in keys;
      var rest := SomeMaxKey(keys - {k});
      assert forall x | x in keys :: x == k || x in keys - {k};
      m := if k > rest then k else rest;
    }
  }

  ghost function NextId(w: World): (id: uint64)
    ensures IsNextId(w, id)
  {
    if !w.dir then 0 else
    assert exists m: nat :: IsMaxKey(w.tasks.Keys, m) && m < ID_LIMIT by {
      var m := SomeMaxKey(w.tasks.Keys);
    }
    var m: nat :| IsMaxKey(w.tasks.Keys, m) && m < ID_LIMIT;
    (m + 1) % ID_LIMIT
  }

  lemma NextIdIsUnique(w: World, id: uint64)
    requires IsNextId(w, id)
    ensures id == NextId(w)
  {
  }

  /** No 64-bit overflow of the id counter. */
  ghost predicate HasRoom(w: World) { ID_LIMIT - 1 !in w.tasks }

  /** As long as the counter does not overflow, the next id is above every live id. */
  lemma NextIdIsFresh(w: World)
    requires HasRoom(w)
    ensures w.dir ==> forall k | k in w.tasks :: k < NextId(w)
    ensures w.dir ==> 0 < NextId(w)
  {
    if w.dir {
      assert IsNextId(w, NextId(w));
      var m: nat :| IsMaxKey(w.tasks.Keys, m) && NextId(w) == (m + 1) % ID_LIMIT;
      if m != 0 {
        var k :| k in w.tasks.Keys && k == m;
        assert k != ID_LIMIT - 1;
      }
    }
  }

  /** The scan of directory names and the maximum over ids agree. */
  lemma ScannedMax(fs: Entries)
    requires ValidTasks(fs)
    ensures IsMaxKey(TaskMap(fs).Keys, MaxOf(fs.Keys, NameValue))
  {
    hide Decimal, ValidTask, RecordOf, MaxOf, NameValue;
    var m := MaxOf(fs.Keys, NameValue);
    forall id: uint64 ensures NameValue(Decimal(id)) == id {
      CanonicalName(id);
    }
    forall k | k in TaskMap(fs).Keys ensures k <= m {
      assert Decimal(k) in fs.Keys;
    }
    if m != 0 {
      var name :| name in fs.Keys && NameValue(name) == m;
      var id: uint64 :| name == Decimal(id);
      assert id in TaskMap(fs).Keys;
    }
  }

  lemma CanonicalName(id: uint64)
    ensures IsNumber(Decimal(id)) && NameValue(Decimal(id)) == id
  {
    DecimalRoundTrip(id);
  }

  // ---------- logs ----------

  lemma LogEntryLength(r: Run)
    ensures |Protocol.EncodeRun(r)| == 10
  {
  }

  /** Appending an entry behind whole entries appends it to the history. */
  lemma {:induction false} AppendedLog(data: seq<byte>, r: Run)
    requires |data| % 10 == 0
    ensures DecodeLog(data + Protocol.EncodeRun(r)) == DecodeLog(data) + [r]
  {
    hide Protocol.EncodeRun, Protocol.DecodeRun;
    var entry := Protocol.EncodeRun(r);
    LogEntryLength(r);
    if data == [] {
      Protocol.RunRoundTrip(r, []);
      assert data + entry == entry + [];
      assert (entry + [])[10..] == [];
    } else {
      AppendedLog(data[10..], r);
      LogPrefix(data, entry);
      assert (data + entry)[10..] == data[10..] + entry;
    }
  }

  lemma LogPrefix(data: seq<byte>, tail: seq<byte>)
    requires |data| >= 10
    ensures Protocol.DecodeRun(data).Got? && Protocol.DecodeRun(data + tail).Got?
    ensures Protocol.DecodeRun(data + tail).value == Protocol.DecodeRun(data).value
  {
    UintExtension(8, data, tail);
    UintExtension(2, data[8..], tail);
  }

  /** The runs recorded by any number of appends to an empty file are read back in order. */
  lemma {:induction false} LogRoundTrip(runs: seq<Run>, tail: seq<byte>)
    requires |tail| < 10
    ensures DecodeLog(EncodeMany(Protocol.EncodeRun, runs) + tail) == runs
    ensures |EncodeMany(Protocol.EncodeRun, runs)| == 10 * |runs|
  {
    hide Protocol.EncodeRun, Protocol.DecodeRun;
    if runs == [] {
      assert EncodeMany(Protocol.EncodeRun, runs) + tail == tail;
    } else {
      LogRoundTrip(runs[1..], tail);
      var entry, rest := Protocol.EncodeRun(runs[0]), EncodeMany(Protocol.EncodeRun, runs[1..]) + tail;
      LogEntryLength(runs[0]);
      assert EncodeMany(Protocol.EncodeRun, runs) + tail == entry + rest;
      Protocol.RunRoundTrip(runs[0], rest);
      assert (entry + rest)[10..] == rest;
      assert runs == [runs[0]] + runs[1..];
    }
  }
}
