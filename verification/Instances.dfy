/** Concrete inputs on which the code does something else than what is said of it. */
module Instances {
  import opened Bytes
  import opened Commands
  import opened Protocol
  import opened Store
  import opened TaskTree
  import opened Daemon
  import Execution
  import Outputs
  import Runs

  const A := Execution.A

  function Simple(argv: seq<CString>): Command { Execution.Simple(argv) }

  // ---------- COMBINE ----------

  /** The store after one CREATE of the command a. */
  function OneTask(timing: Timing): World { World(true, map[0 := NewRecord(timing, Some(Simple(A)))]) }

  lemma OneTaskCreated(timing: Timing)
    ensures After(START, Create(timing, A)) == OneTask(timing)
    ensures NextId(OneTask(timing)) == 1
  {
    hide NextId;
    assert [0x61] != [];
    NextIdIsUnique(START, 0);
    var w := OneTask(timing);
    assert IsMaxKey(w.tasks.Keys, 0);
    NextIdIsUnique(w, 1);
  }

  lemma RepeatAtOne(ids: seq<uint64>)
    requires ids == [0, 0]
    ensures FirstRepeat(ids) == 1
  {
    assert ids[..1][0] == ids[1];
    FirstRepeatIs(ids, 1);
  }

  /** CREATE, then COMBINE of task 0 with the type SI: a success, and the only command is gone. */
  lemma CombinedAsSimple(timing: Timing)
    ensures var w, req := OneTask(timing), Combine(timing, SI, [0]);
      && CanCombine(w, [0])
      && After(w, req) == World(true, map[1 := NewRecord(timing, None)])
      && Runs.AllLeaves(w.tasks) == multiset{A}
      && Runs.AllLeaves(After(w, req).tasks) == multiset{}
  {
    hide NextId, FirstRepeat;
    OneTaskCreated(timing);
    FirstRepeatIs([0], 1);
    var w := OneTask(timing);
    var lost := NewRecord(timing, None);
    assert w.tasks - ToSet([0]) == map[];
    assert After(w, Combine(timing, SI, [0])).tasks == map[1 := lost];
    assert Outputs.Leaves(Simple(A)) == [A];
    OnlyLeaves(0, w.tasks[0]);
    OnlyLeaves(1, lost);
  }

  lemma OnlyLeaves(id: uint64, r: Record)
    ensures Runs.AllLeaves(map[id := r]) == Runs.RecordLeaves(r)
  {
    hide Runs.RecordLeaves;
    Runs.LeavesWith(map[], id, r);
    assert map[][id := r] == map[id := r];
  }

  /** COMBINE of task 0 with itself: an error, although task 0 is gone and task 1 holds its command twice. */
  lemma CombinedWithItself(timing: Timing, r: Response)
    requires Answers(OneTask(timing), Combine(timing, SQ, [0, 0]), r)
    ensures r == NotFound()
    ensures After(OneTask(timing), Combine(timing, SQ, [0, 0])) ==
      World(true, map[1 := NewRecord(timing, Some(Command(SQ, [], [Simple(A), Simple(A)])))])
  {
    hide NextId, FirstRepeat, Values;
    OneTaskCreated(timing);
    RepeatAtOne([0, 0]);
    var w, ids := OneTask(timing), [0, 0];
    assert ids[..1] == [0];
    assert w.tasks - ToSet(ids[..1]) == map[];
    var cmds := CmdsOf(w.tasks, ids);
    assert cmds == [Some(Simple(A)), Some(Simple(A))];
    assert Values(cmds) == [Simple(A), Simple(A)];
  }

  // ---------- the LIST format ----------

  /** A node with arguments but another type than SI: it is written, and the reader refuses it. */
  const ARGUMENTS_OF_SQ: Command := Command(SQ, A, [])

  lemma RefusedByTheListReader()
    ensures Writable(Listed, ARGUMENTS_OF_SQ)
    ensures Decode(Listed, Encode(Listed, ARGUMENTS_OF_SQ)).Fail?
  {
    hide BE, DecodeUint16, DecodeUint32;
    var bytes := Encode(Listed, ARGUMENTS_OF_SQ);
    assert [0x61] != [];
    assert EncodeMany(EncodeString, A) == EncodeString(A[0]) + EncodeMany(EncodeString, A[1..]);
    assert A[1..] == [];
    var tail: seq<byte> := [0, 1, 0x61];
    assert BE(1, 4) == [0, 0] + [0, 1] by { OneInFour(); }
    var bs2 := [0, 0] + tail;
    var bs1 := BE(1, 4) + bs2;
    assert EncodeString(A[0]) == BE(1, 4) + [0x61];
    assert bytes == BE(SQ, 2) + bs1;
    Uint16RoundTrip(SQ, bs1);
    Uint32RoundTrip(1, bs2);
    assert BE(0, 2) == [0, 0] by { ZeroInTwo(); }
    Uint16RoundTrip(0, tail);
    ChildCutShort(bs2, tail);
    OneChildFails(bytes, bs1, bs2);
  }

  lemma OneInFour()
    ensures BE(1, 4) == [0, 0, 0, 1]
  {
    assert BE(0, 2) == [0, 0];
  }

  lemma ZeroInTwo()
    ensures BE(0, 2) == [0, 0]
  {
  }

  /** A sub-command whose type is 0 needs four bytes for its count. */
  lemma ChildCutShort(bs: seq<byte>, tail: seq<byte>)
    requires DecodeUint16(bs) == Got(0, tail) && |tail| == 3
    ensures Decode(Listed, bs).Fail?
  {
  }

  lemma OneChildFails(bs: seq<byte>, bs1: seq<byte>, bs2: seq<byte>)
    requires DecodeUint16(bs) == Got(SQ, bs1) && DecodeUint32(bs1) == Got(1, bs2) && Decode(Listed, bs2).Fail?
    ensures Decode(Listed, bs).Fail?
  {
    assert DecodeAll(Listed, 1, bs2).Fail?;
  }

  // A tree of type SI with one sub-command: it is written, and read as another tree. The type and half of
  // the argument count of the sub-command are taken for the length of a string.

  const LONG: CString := seq(256, i => 1)
  const ARGUMENTS: seq<CString> := seq(257, i => LONG)
  const SUB_COMMAND: Command := Command(1, ARGUMENTS, [])
  const SI_WITH_SUB_COMMAND: Command := Command(SI, [], [SUB_COMMAND])

  lemma {:induction false} LongStrings(ss: seq<CString>)
    requires forall s | s in ss :: |s| == 256
    ensures |EncodeMany(EncodeString, ss)| == 260 * |ss|
  {
    if ss == [] {
    } else {
      LongStrings(ss[1..]);
    }
  }

  /** The first byte of the length of a short string. */
  lemma StartsWithNul(ss: seq<CString>)
    requires ss != [] && |ss[0]| < 0x100_0000
    ensures EncodeMany(EncodeString, ss) != [] && EncodeMany(EncodeString, ss)[0] == 0
  {
    hide EncodeMany;
    Limits();
    assert Limit(3) == 0x100_0000;
    MostSignificantFirst(|ss[0]|, 3, 0, |ss[0]|);
    assert EncodeString(ss[0])[0] == 0;
    assert EncodeMany(EncodeString, ss) == EncodeString(ss[0]) + EncodeMany(EncodeString, ss[1..]) by { OneFirst(ss); }
  }

  lemma OneFirst(ss: seq<CString>)
    requires ss != []
    ensures EncodeMany(EncodeString, ss) == EncodeString(ss[0]) + EncodeMany(EncodeString, ss[1..])
  {
  }

  /** The bytes 0 1 0 0 1 1, a NUL, and enough more, as a string. */
  lemma ReadAsString(strings: seq<byte>)
    requires |strings| >= 0x1_0000 && strings[0] == 0
    ensures DecodeString([0, 1, 0, 0] + ([1, 1] + strings)).Got?
    ensures DecodeString([0, 1, 0, 0] + ([1, 1] + strings)).value == [1, 1]
    ensures |DecodeString([0, 1, 0, 0] + ([1, 1] + strings)).rest| == |strings| - 0xfffe
  {
    hide BE, DecodeUint32, CStr;
    var bs := [1, 1] + strings;
    assert BE(0x1_0000, 4) == [0, 1, 0, 0] by { LengthBytes(); }
    Uint32RoundTrip(0x1_0000, bs);
    FirstTwo(bs[..0x1_0000]);
  }

  lemma LengthBytes()
    ensures BE(0x1_0000, 4) == [0, 1, 0, 0]
    ensures BE(1, 2) == [0, 1] && BE(257, 4) == [0, 0, 1, 1]
  {
    assert BE(1, 2) == [0, 1] by { assert BE(0, 1) == [0]; }
    assert BE(0x100, 3) == [0, 1, 0];
  }

  lemma FirstTwo(raw: seq<byte>)
    requires |raw| > 2 && raw[0] == 1 && raw[1] == 1 && raw[2] == 0
    ensures CStr(raw) == [1, 1]
  {
    assert raw[1..][0] == 1 && raw[1..][1..][0] == 0;
    assert CStr(raw[1..][1..]) == [];
    assert CStr(raw[1..]) == [1];
  }

  lemma SubCommandBytes(strings: seq<byte>, bs: seq<byte>)
    requires strings == EncodeMany(EncodeString, ARGUMENTS) && bs == [0, 1, 0, 0] + ([1, 1] + strings)
    ensures EncodeAll(Listed, [SUB_COMMAND]) == bs
    ensures Writable(Listed, SUB_COMMAND)
  {
    hide BE, EncodeMany, EncodeString;
    LengthBytes();
    assert ARGUMENTS[0] == LONG && LONG != [];
    assert EncodeArguments(ARGUMENTS) == [0, 0, 1, 1] + strings;
    assert Encode(Listed, SUB_COMMAND) == bs;
    assert [SUB_COMMAND][1..] == [];
  }

  lemma OneArgument(bs1: seq<byte>, bs2: seq<byte>)
    requires DecodeUint32(bs1) == Got(1, bs2) && DecodeString(bs2).Got? && DecodeString(bs2).value == [1, 1]
    ensures DecodeArguments(bs1) == Got([[1, 1]], DecodeString(bs2).rest)
  {
    hide DecodeString, DecodeUint32;
    assert DecodeMany(DecodeString, 0, DecodeString(bs2).rest) == Got([], DecodeString(bs2).rest);
    assert [[1, 1]] + [] == [[1, 1]];
    assert DecodeMany(DecodeString, 1, bs2) == Got([[1, 1]], DecodeString(bs2).rest);
  }

  lemma SimpleDecoded(bs: seq<byte>, bs1: seq<byte>, argv: seq<CString>, rest: seq<byte>)
    requires DecodeUint16(bs) == Got(SI, bs1) && DecodeArguments(bs1) == Got(argv, rest)
    ensures Decode(Listed, bs) == Got(Command(SI, argv, []), rest)
  {
  }

  lemma EncodingStarts(bs: seq<byte>)
    requires bs == EncodeAll(Listed, [SUB_COMMAND])
    ensures Encode(Listed, SI_WITH_SUB_COMMAND) == BE(SI, 2) + (BE(1, 4) + bs)
  {
    hide BE, EncodeAll;
  }

  /** The reader takes the tree for the simple command 01 01, and leaves bytes of it unread. */
  lemma MisreadByTheListReader()
    ensures Writable(Listed, SI_WITH_SUB_COMMAND)
    ensures var r := Decode(Listed, Encode(Listed, SI_WITH_SUB_COMMAND));
      r.Got? && r.value == Command(SI, [[1, 1]], []) && r.rest != []
  {
    hide BE, EncodeMany, DecodeUint16, DecodeUint32, DecodeString, EncodeString, Encode, EncodeAll, Decode;
    LongStrings(ARGUMENTS);
    StartsWithNul(ARGUMENTS);
    var strings := EncodeMany(EncodeString, ARGUMENTS);
    var bs2 := [0, 1, 0, 0] + ([1, 1] + strings);
    SubCommandBytes(strings, bs2);
    EncodingStarts(bs2);
    Uint16RoundTrip(SI, BE(1, 4) + bs2);
    Uint32RoundTrip(1, bs2);
    ReadAsString(strings);
    OneArgument(BE(1, 4) + bs2, bs2);
    SimpleDecoded(Encode(Listed, SI_WITH_SUB_COMMAND), BE(1, 4) + bs2, [[1, 1]], DecodeString(bs2).rest);
  }

  // ---------- the limits of the client ----------

  function ManyTasks(timing: Timing): (tasks: seq<Task>)
    ensures |tasks| == TASKS_BOUND
  {
    seq(TASKS_BOUND, i requires 0 <= i < TASKS_BOUND => Task.Task(i, timing, Simple(A)))
  }

  /** A listing of 10000 tasks is sent, and the client refuses it. */
  lemma TooManyTasks(timing: Timing)
    ensures var r := Success(LIST, Listing(ManyTasks(timing)));
      Postable(r) && DecodeResponse(LIST, EncodeResponse(r)).Fail?
  {
    hide EncodeMany, DecodeMany, BE, DecodeUint16, DecodeUint32, EncodeTask;
    var tasks := ManyTasks(timing);
    assert [0x61] != [];
    forall t | t in tasks ensures Writable(Listed, t.cmd) {
      assert t.cmd == Simple(A);
    }
    var bs := EncodeMany(EncodeTask, tasks);
    Uint16RoundTrip(ANSTYPE_OK, BE(TASKS_BOUND, 4) + bs);
    Uint32RoundTrip(TASKS_BOUND, bs);
  }
}
