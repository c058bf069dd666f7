/**
 Where each field stands in the messages, and each file in the directories. The layouts are stated by
 position, apart from the encoders, and every encoding is proved to have its layout.
 */
module Layouts {
  import opened Bytes
  import opened Commands
  import opened Text
  import opened Disk
  import opened Store
  import opened TaskTree
  import opened Protocol

  /** The integer on the `n` bytes from position `i` on. */
  function Field(bs: seq<byte>, i: nat, n: nat): nat
    requires i + n <= |bs|
  {
    Value(bs[i..i + n])
  }

  lemma FieldOf(pre: seq<byte>, v: nat, n: nat, post: seq<byte>)
    requires v < Limit(n)
    ensures Field(pre + (BE(v, n) + post), |pre|, n) == v
  {
    ValueBE(v, n);
    assert (pre + (BE(v, n) + post))[|pre|..|pre| + n] == BE(v, n);
  }

  // ---------- codes ----------

  lemma Letters(high: byte, low: byte)
    ensures BE(high * 256 + low, 2) == [high, low]
  {
    assert BE(high, 1) == [high] by { SingleByte(high); }
  }

  /** Each code is two ASCII letters: LS, CR, CB, RM, TX, SO, SE, TM; OK, ER, NF, NR; SI, SQ, PL, IF. */
  lemma TwoLetters()
    ensures BE(LIST, 2) == [0x4c, 0x53] && BE(CREATE, 2) == [0x43, 0x52]
    ensures BE(COMBINE, 2) == [0x43, 0x42] && BE(REMOVE, 2) == [0x52, 0x4d]
    ensures BE(TIMES_EXITCODES, 2) == [0x54, 0x58] && BE(STDOUT, 2) == [0x53, 0x4f]
    ensures BE(STDERR, 2) == [0x53, 0x45] && BE(TERMINATE, 2) == [0x54, 0x4d]
    ensures BE(ANSTYPE_OK, 2) == [0x4f, 0x4b] && BE(ANSTYPE_ERROR, 2) == [0x45, 0x52]
    ensures BE(NOT_FOUND, 2) == [0x4e, 0x46] && BE(NOT_RUN, 2) == [0x4e, 0x52]
    ensures BE(SI, 2) == [0x53, 0x49] && BE(SQ, 2) == [0x53, 0x51]
    ensures BE(PL, 2) == [0x50, 0x4c] && BE(IF, 2) == [0x49, 0x46]
  {
    hide BE;
    Letters(0x4c, 0x53);
    Letters(0x43, 0x52);
    Letters(0x43, 0x42);
    Letters(0x52, 0x4d);
    Letters(0x54, 0x58);
    Letters(0x53, 0x4f);
    Letters(0x53, 0x45);
    Letters(0x54, 0x4d);
    Letters(0x4f, 0x4b);
    Letters(0x45, 0x52);
    Letters(0x4e, 0x46);
    Letters(0x4e, 0x52);
    Letters(0x53, 0x49);
    Letters(0x53, 0x51);
    Letters(0x50, 0x4c);
    Letters(0x49, 0x46);
  }

  // ---------- timings, strings and trees ----------

  predicate IsTiming(bs: seq<byte>, t: Timing) {
    && |bs| == 13
    && Field(bs, 0, 8) == t.minutes && Field(bs, 8, 4) == t.hours && bs[12] == t.days
  }

  /** One after the other: the length on four bytes, and the bytes. */
  predicate AreStrings(bs: seq<byte>, ss: seq<CString>) {
    if ss == [] then bs == [] else
    var n := 4 + |ss[0]|;
    n <= |bs| && Field(bs, 0, 4) == |ss[0]| && bs[4..n] == ss[0] && AreStrings(bs[n..], ss[1..])
  }

  predicate AreArguments(bs: seq<byte>, argv: seq<CString>) {
    4 <= |bs| && Field(bs, 0, 4) == |argv| && AreStrings(bs[4..], argv)
  }

  /** The length of what precedes the arguments or sub-commands: the type, and a kind byte in one format. */
  function HeadLength(f: Format): nat { if f.Kinded? then 3 else 2 }

  ghost predicate IsTree(f: Format, bs: seq<byte>, c: Command)
    decreases c, 0
  {
    var n := HeadLength(f);
    && n + 4 <= |bs|
    && Field(bs, 0, 2) == c.ty
    && (f.Kinded? ==> bs[2] == if c.cmds == [] then 0 else 1)
    && if c.argv != [] then AreArguments(bs[n..], c.argv)
       else Field(bs, n, 4) == |c.cmds| && AreTrees(f, bs[n + 4..], c.cmds)
  }

  ghost predicate AreTrees(f: Format, bs: seq<byte>, cs: seq<Command>)
    decreases cs, 1
  {
    if cs == [] then bs == [] else
    exists k: nat :: k <= |bs| && IsTree(f, bs[..k], cs[0]) && AreTrees(f, bs[k..], cs[1..])
  }

  lemma TimingLayout(t: Timing)
    ensures IsTiming(EncodeTiming(t), t)
  {
    hide BE;
    Limits();
    var rest := BE(t.hours, 4) + [t.days];
    assert EncodeTiming(t) == [] + (BE(t.minutes, 8) + rest) == BE(t.minutes, 8) + (BE(t.hours, 4) + [t.days]);
    FieldOf([], t.minutes, 8, rest);
    FieldOf(BE(t.minutes, 8), t.hours, 4, [t.days]);
  }

  lemma {:induction false} StringsLayout(ss: seq<CString>)
    requires forall s | s in ss :: Fits32(|s|)
    ensures AreStrings(EncodeMany(EncodeString, ss), ss)
  {
    hide BE;
    if ss == [] {
    } else {
      Limits();
      var bs, s, rest := EncodeMany(EncodeString, ss), ss[0], EncodeMany(EncodeString, ss[1..]);
      assert bs == [] + (BE(|s|, 4) + (s + rest));
      FieldOf([], |s|, 4, s + rest);
      StringsLayout(ss[1..]);
      assert bs[4..4 + |s|] == s && bs[4 + |s|..] == rest;
    }
  }

  lemma ArgumentsLayout(argv: seq<CString>)
    requires ValidArguments(argv)
    ensures AreArguments(EncodeArguments(argv), argv)
  {
    hide BE;
    Limits();
    var strings := EncodeMany(EncodeString, argv);
    StringsLayout(argv);
    assert EncodeArguments(argv) == [] + (BE(|argv|, 4) + strings);
    FieldOf([], |argv|, 4, strings);
    assert EncodeArguments(argv)[4..] == strings;
  }

  /** Every tree that a wire format writes, node by node. */
  lemma {:induction false} TreeLayout(f: Format, c: Command)
    requires f != OnDisk && Writable(f, c)
    ensures IsTree(f, Encode(f, c), c)
    decreases c, 0
  {
    hide BE, EncodeArguments, EncodeAll, AreArguments, AreTrees;
    Limits();
    var bs, n, head := Encode(f, c), HeadLength(f), BE(c.ty, 2) + EncodeKind(f, c);
    assert bs == [] + (BE(c.ty, 2) + (EncodeKind(f, c) + EncodeBody(f, c)));
    FieldOf([], c.ty, 2, EncodeKind(f, c) + EncodeBody(f, c));
    assert |head| == n && bs == head + EncodeBody(f, c);
    assert bs[n..] == EncodeBody(f, c);
    if c.argv != [] {
      ArgumentsLayout(c.argv);
      assert |EncodeArguments(c.argv)| >= 4 by { ArgumentsLong(c.argv); }
    } else {
      FieldOf(head, |c.cmds|, 4, EncodeAll(f, c.cmds));
      TreesLayout(f, c.cmds);
      assert bs[n + 4..] == EncodeAll(f, c.cmds);
    }
  }

  lemma ArgumentsLong(argv: seq<CString>)
    ensures |EncodeArguments(argv)| >= 4
  {
  }

  lemma {:induction false} TreesLayout(f: Format, cs: seq<Command>)
    requires f != OnDisk && forall c | c in cs :: Writable(f, c)
    ensures AreTrees(f, EncodeAll(f, cs), cs)
    decreases cs, 1
  {
    hide Encode, Writable, IsTree;
    if cs == [] {
    } else {
      TreeLayout(f, cs[0]);
      TreesLayout(f, cs[1..]);
      var bs, k := EncodeAll(f, cs), |Encode(f, cs[0])|;
      assert bs[..k] == Encode(f, cs[0]) && bs[k..] == EncodeAll(f, cs[1..]);
    }
  }

  // ---------- requests ----------

  predicate AreIds(bs: seq<byte>, ids: seq<uint64>) {
    |bs| == 8 * |ids| && forall k | 0 <= k < |ids| :: Field(bs, 8 * k, 8) == ids[k]
  }

  /** Two letters and one id. */
  predicate IsQuery(bs: seq<byte>, letters: seq<byte>, id: uint64) {
    |bs| == 10 && bs[..2] == letters && Field(bs, 2, 8) == id
  }

  predicate IsRequest(bs: seq<byte>, r: Request) {
    match r
    case ListTasks => bs == [0x4c, 0x53]
    case Terminate => bs == [0x54, 0x4d]
    case Create(timing, argv) =>
      && 15 <= |bs| && bs[..2] == [0x43, 0x52]
      && IsTiming(bs[2..15], timing) && AreArguments(bs[15..], argv)
    case Combine(timing, ty, ids) =>
      && 21 <= |bs| && bs[..2] == [0x43, 0x42]
      && IsTiming(bs[2..15], timing) && Field(bs, 15, 2) == ty && Field(bs, 17, 4) == |ids| && AreIds(bs[21..], ids)
    case Remove(id) => IsQuery(bs, [0x52, 0x4d], id)
    case Times(id) => IsQuery(bs, [0x54, 0x58], id)
    case Stdout(id) => IsQuery(bs, [0x53, 0x4f], id)
    case Stderr(id) => IsQuery(bs, [0x53, 0x45], id)
  }

  lemma MoreIds(id: uint64, rest: seq<byte>, ids: seq<uint64>)
    requires AreIds(rest, ids)
    ensures AreIds(BE(id, 8) + rest, [id] + ids)
  {
    hide BE;
    Limits();
    var bs, all := BE(id, 8) + rest, [id] + ids;
    assert bs == [] + (BE(id, 8) + rest);
    FieldOf([], id, 8, rest);
    forall k | 1 <= k < |all| ensures Field(bs, 8 * k, 8) == Field(rest, 8 * (k - 1), 8) {
      assert bs[8 * k..8 * k + 8] == rest[8 * (k - 1)..8 * (k - 1) + 8];
    }
  }

  lemma {:induction false} IdsLayout(ids: seq<uint64>)
    ensures AreIds(EncodeMany(EncodeId, ids), ids)
  {
    hide BE, AreIds;
    if ids == [] {
      assert AreIds([], []) by { NoIds(); }
    } else {
      IdsLayout(ids[1..]);
      MoreIds(ids[0], EncodeMany(EncodeId, ids[1..]), ids[1..]);
      assert ids == [ids[0]] + ids[1..];
    }
  }

  lemma NoIds()
    ensures AreIds([], [])
  {
  }

  lemma QueryLayout(op: uint16, id: uint64)
    ensures IsQuery(BE(op, 2) + EncodeId(id), BE(op, 2), id)
  {
    hide BE;
    Limits();
    assert BE(op, 2) + EncodeId(id) == BE(op, 2) + (BE(id, 8) + []);
    FieldOf(BE(op, 2), id, 8, []);
  }

  lemma CombineLayout(timing: Timing, ty: uint16, ids: seq<uint64>)
    requires Fits32(|ids|)
    ensures IsRequest(EncodeRequest(Combine(timing, ty, ids)), Combine(timing, ty, ids))
  {
    hide BE, EncodeTiming, EncodeMany, IsTiming, AreIds;
    TwoLetters();
    TimingLayout(timing);
    IdsLayout(ids);
    var bs, t, rest := EncodeRequest(Combine(timing, ty, ids)), EncodeTiming(timing), EncodeMany(EncodeId, ids);
    var pre := BE(COMBINE, 2) + t;
    assert bs == pre + (BE(ty, 2) + (BE(|ids|, 4) + rest));
    TwoFields(pre, ty, |ids|, rest);
    assert pre[..2] == BE(COMBINE, 2) && pre[2..] == t;
  }

  lemma TwoFields(pre: seq<byte>, ty: uint16, n: uint32, rest: seq<byte>)
    requires |pre| == 15
    ensures var bs := pre + (BE(ty, 2) + (BE(n, 4) + rest));
      && |bs| == 21 + |rest| && Field(bs, 15, 2) == ty && Field(bs, 17, 4) == n
      && bs[..2] == pre[..2] && bs[2..15] == pre[2..] && bs[21..] == rest
  {
    hide BE, Field;
    Limits();
    var bs := pre + (BE(ty, 2) + (BE(n, 4) + rest));
    FieldOf(pre, ty, 2, BE(n, 4) + rest);
    assert bs == pre + BE(ty, 2) + (BE(n, 4) + rest);
    FieldOf(pre + BE(ty, 2), n, 4, rest);
  }

  /** Every request that is sent. */
  lemma RequestLayout(r: Request)
    requires Sendable(r)
    ensures IsRequest(EncodeRequest(r), r)
  {
    hide BE, EncodeTiming, EncodeArguments, EncodeMany, IsTiming, AreArguments, IsQuery, EncodeId, ValidArguments;
    TwoLetters();
    match r
    case Create(timing, argv) =>
      TimingLayout(timing);
      ArgumentsLayout(argv);
      var bs := EncodeRequest(r);
      assert bs[2..15] == EncodeTiming(timing) && bs[15..] == EncodeArguments(argv);
    case Combine(timing, ty, ids) => CombineLayout(timing, ty, ids);
    case ListTasks => assert BE(LIST, 2) + [] == BE(LIST, 2);
    case Terminate => assert BE(TERMINATE, 2) + [] == BE(TERMINATE, 2);
    case _ => QueryLayout(r.Opcode(), r.id);
  }

  // ---------- replies ----------

  /** The id, the timing and the tree of each task, one task after the other. */
  ghost predicate AreTasks(bs: seq<byte>, tasks: seq<Protocol.Task>) {
    if tasks == [] then bs == [] else
    exists k: nat ::
      && 21 <= k <= |bs| && Field(bs, 0, 8) == tasks[0].id && IsTiming(bs[8..21], tasks[0].timing)
      && IsTree(Listed, bs[21..k], tasks[0].cmd) && AreTasks(bs[k..], tasks[1..])
  }

  /** Ten bytes: the time as a 64-bit two's complement, and the exit code. */
  predicate IsRun(bs: seq<byte>, r: Protocol.Run) {
    && |bs| == 10 && Field(bs, 8, 2) == r.exit
    && Field(bs, 0, 8) == if r.time < 0 then r.time + 0x1_0000_0000_0000_0000 else r.time
  }

  predicate AreRuns(bs: seq<byte>, runs: seq<Protocol.Run>) {
    |bs| == 10 * |runs| && forall k | 0 <= k < |runs| :: IsRun(bs[10 * k..10 * k + 10], runs[k])
  }

  ghost predicate IsBody(bs: seq<byte>, b: Body) {
    match b
    case Done => bs == []
    case Created(id) => |bs| == 8 && Field(bs, 0, 8) == id
    case Listing(tasks) => 4 <= |bs| && Field(bs, 0, 4) == |tasks| && AreTasks(bs[4..], tasks)
    case History(runs) => 4 <= |bs| && Field(bs, 0, 4) == |runs| && AreRuns(bs[4..], runs)
    case Captured(output) => 4 <= |bs| && Field(bs, 0, 4) == |output| && bs[4..] == output
    case Failure(code) => |bs| == 2 && Field(bs, 0, 2) == code
  }

  lemma {:induction false} TasksLayout(tasks: seq<Protocol.Task>)
    requires forall t | t in tasks :: Writable(Listed, t.cmd)
    ensures AreTasks(EncodeMany(EncodeTask, tasks), tasks)
  {
    hide BE, EncodeTiming, Encode, IsTiming, IsTree, Writable;
    if tasks == [] {
    } else {
      Limits();
      var bs, t, rest := EncodeMany(EncodeTask, tasks), tasks[0], EncodeMany(EncodeTask, tasks[1..]);
      var k := |EncodeTask(t)|;
      TimingLayout(t.timing);
      TreeLayout(Listed, t.cmd);
      TasksLayout(tasks[1..]);
      assert bs == EncodeTask(t) + rest;
      assert bs == [] + (BE(t.id, 8) + (EncodeTiming(t.timing) + Encode(Listed, t.cmd) + rest));
      FieldOf([], t.id, 8, EncodeTiming(t.timing) + Encode(Listed, t.cmd) + rest);
      assert bs[8..21] == EncodeTiming(t.timing) && bs[21..k] == Encode(Listed, t.cmd) && bs[k..] == rest;
    }
  }

  lemma RunLayout(r: Protocol.Run)
    ensures IsRun(EncodeRun(r), r)
  {
    hide BE;
    Limits();
    assert EncodeRun(r) == [] + (BE(Unsigned(r.time), 8) + BE(r.exit, 2));
    assert EncodeRun(r) == BE(Unsigned(r.time), 8) + (BE(r.exit, 2) + []);
    FieldOf([], Unsigned(r.time), 8, BE(r.exit, 2));
    FieldOf(BE(Unsigned(r.time), 8), r.exit, 2, []);
  }

  lemma MoreRuns(first: seq<byte>, rest: seq<byte>, r: Protocol.Run, runs: seq<Protocol.Run>)
    requires IsRun(first, r) && |first| == 10 && AreRuns(rest, runs)
    ensures AreRuns(first + rest, [r] + runs)
  {
    hide IsRun;
    var bs, all := first + rest, [r] + runs;
    forall k | 0 <= k < |all| ensures IsRun(bs[10 * k..10 * k + 10], all[k]) {
      if k == 0 {
        assert bs[0..10] == first;
      } else {
        assert bs[10 * k..10 * k + 10] == rest[10 * (k - 1)..10 * (k - 1) + 10];
      }
    }
  }

  lemma {:induction false} RunsLayout(runs: seq<Protocol.Run>)
    ensures AreRuns(EncodeMany(EncodeRun, runs), runs)
  {
    hide EncodeRun, AreRuns;
    if runs == [] {
      NoRuns();
    } else {
      RunLayout(runs[0]);
      RunsLayout(runs[1..]);
      MoreRuns(EncodeRun(runs[0]), EncodeMany(EncodeRun, runs[1..]), runs[0], runs[1..]);
      assert runs == [runs[0]] + runs[1..];
    }
  }

  lemma NoRuns()
    ensures AreRuns([], [])
  {
  }

  lemma BodyLayout(b: Body)
    requires match b
      case Listing(tasks) => Fits32(|tasks|) && forall t | t in tasks :: Writable(Listed, t.cmd)
      case History(runs) => Fits32(|runs|)
      case Captured(output) => Fits32(|output|)
      case _ => true
    ensures IsBody(EncodeResult(b), b)
  {
    hide BE, EncodeMany, AreTasks, AreRuns, Writable;
    Limits();
    match b
    case Done =>
    case Created(id) =>
      assert BE(id, 8) == [] + (BE(id, 8) + []);
      FieldOf([], id, 8, []);
    case Failure(code) =>
      assert BE(code, 2) == [] + (BE(code, 2) + []);
      FieldOf([], code, 2, []);
    case Listing(tasks) =>
      TasksLayout(tasks);
      CountLayout(|tasks|, EncodeMany(EncodeTask, tasks));
    case History(runs) =>
      RunsLayout(runs);
      CountLayout(|runs|, EncodeMany(EncodeRun, runs));
    case Captured(output) => CountLayout(|output|, output);
  }

  lemma CountLayout(n: nat, rest: seq<byte>)
    requires Fits32(n)
    ensures Field(BE(n, 4) + rest, 0, 4) == n && (BE(n, 4) + rest)[4..] == rest
  {
    hide BE;
    Limits();
    assert BE(n, 4) + rest == [] + (BE(n, 4) + rest);
    FieldOf([], n, 4, rest);
  }

  /** Every reply that is sent: two letters, and the body. */
  lemma ReplyLayout(r: Response)
    requires Postable(r)
    ensures var bs := EncodeResponse(r);
      && 2 <= |bs| && IsBody(bs[2..], r.body)
      && (r.anstype == ANSTYPE_OK ==> bs[..2] == [0x4f, 0x4b])
      && (r.anstype == ANSTYPE_ERROR ==> bs[..2] == [0x45, 0x52])
  {
    hide BE, EncodeResult, IsBody, Shaped;
    TwoLetters();
    BodyLayout(r.body);
    assert EncodeResponse(r)[2..] == EncodeResult(r.body);
  }

  // ---------- limits ----------

  /** The limits of the two readers, in numbers. */
  lemma LimitsInNumbers(timing: Timing, ty: uint16, ids: seq<uint64>, runs: seq<Protocol.Run>, output: seq<byte>)
    requires Fits32(|ids|) && Fits32(|runs|) && Fits32(|output|)
    ensures var request := EncodeRequest(Combine(timing, ty, ids));
      DecodeRequest(request).Got? <==> 1 <= |ids| <= 10000
    ensures var reply := Response(ANSTYPE_OK, TIMES_EXITCODES, History(runs));
      DecodeResponse(TIMES_EXITCODES, EncodeResponse(reply)) == Got(reply, []) <==> |runs| <= 1000000
    ensures var reply := Response(ANSTYPE_OK, STDOUT, Captured(output));
      DecodeResponse(STDOUT, EncodeResponse(reply)) == Got(reply, []) <==> |output| <= 104857600
  {
    hide EncodeRequest, DecodeRequest, EncodeResponse, DecodeResponse;
    var request := Combine(timing, ty, ids);
    var history := Response(ANSTYPE_OK, TIMES_EXITCODES, History(runs));
    var captured := Response(ANSTYPE_OK, STDOUT, Captured(output));
    RequestRoundTrip(request, []);
    ResponseRoundTrip(history, []);
    ResponseRoundTrip(captured, []);
    assert EncodeRequest(request) + [] == EncodeRequest(request);
    assert EncodeResponse(history) + [] == EncodeResponse(history);
    assert EncodeResponse(captured) + [] == EncodeResponse(captured);
  }

  // ---------- directories ----------

  /** The directory of a saved command: its type, and its arguments or its sub-commands, by number. */
  ghost predicate IsSaved(e: Entries, c: Command)
    decreases c
  {
    && "type" in e && e["type"] == File(BE(c.ty, 2))
    && if c.ty == SI
       then e.Keys == {"type", "argv"} && e["argv"].File? && AreArguments(e["argv"].data, c.argv)
       else
         && (forall k: nat | k < |c.cmds| ::
              Decimal(k) in e && e[Decimal(k)].Dir? && IsSaved(e[Decimal(k)].entries, c.cmds[k]))
         && forall name | name in e && name != "type" :: exists k: nat :: k < |c.cmds| && name == Decimal(k)
  }

  lemma SimpleSaved(c: Command)
    requires c.ty == SI && SaveInto(map[], c).Some?
    ensures IsSaved(SaveInto(map[], c).value, c)
  {
    hide BE, EncodeArguments, AreArguments, Decimal, ValidArguments;
    ArgumentsLayout(c.argv);
  }

  lemma NumberedNotType(k: nat)
    ensures Decimal(k) != "type"
  {
    hide Decimal;
    DecimalRoundTrip(k);
    assert !IsDigit("type"[0]);
  }

  /** The entry that `SaveChildren` finds when it starts. */
  function OnlyType(ty: uint16): Entries { map["type" := File(BE(ty, 2))] }

  lemma ChildrenSaved(c: Command)
    requires c.ty != SI && SaveInto(map[], c).Some?
    ensures SaveChildren(OnlyType(c.ty), c.cmds, 0) == SaveInto(map[], c)
    ensures OnlyType(c.ty).Keys == {"type"} && OnlyType(c.ty)["type"] == File(BE(c.ty, 2))
  {
    hide BE, SaveChildren;
  }

  lemma CombinationSaved(e: Entries, c: Command)
    requires c.ty != SI && "type" in e && e["type"] == File(BE(c.ty, 2))
    requires forall k: nat | k < |c.cmds| ::
      Decimal(k) in e && e[Decimal(k)].Dir? && IsSaved(e[Decimal(k)].entries, c.cmds[k])
    requires forall name | name in e && name != "type" :: exists k: nat :: k < |c.cmds| && name == Decimal(k)
    ensures IsSaved(e, c)
  {
    hide BE, Decimal;
  }

  lemma {:induction false} SavedLayout(c: Command)
    requires SaveInto(map[], c).Some?
    ensures IsSaved(SaveInto(map[], c).value, c)
    decreases c
  {
    hide BE, Decimal, IsSaved, SaveInto, SaveChildren, OnlyType;
    if c.ty == SI {
      SimpleSaved(c);
    } else {
      var typed, e := OnlyType(c.ty), SaveInto(map[], c).value;
      ChildrenSaved(c);
      SavedChildren(typed, c.cmds, 0);
      forall k: nat ensures Decimal(k) != "type" {
        NumberedNotType(k);
      }
      forall k: nat | k < |c.cmds| ensures IsSaved(e[Decimal(k)].entries, c.cmds[k]) {
        assert SubEntries(typed, Decimal(k)) == map[];
        SavedLayout(c.cmds[k]);
      }
      CombinationSaved(e, c);
    }
  }

  /** The directory of a new task. */
  lemma TaskLayout(fs: Entries, t: Protocol.Task)
    requires Decimal(t.id) !in fs && SavedTask(fs, t).Some?
    ensures var fs' := SavedTask(fs, t).value;
      && fs'.Keys == fs.Keys + {Decimal(t.id)} && fs'[Decimal(t.id)].Dir?
      && (forall name | name in fs :: fs'[name] == fs[name])
      && var e := fs'[Decimal(t.id)].entries;
         && e.Keys == {"timing", "cmd"}
         && e["timing"].File? && IsTiming(e["timing"].data, t.timing)
         && e["cmd"].Dir? && IsSaved(e["cmd"].entries, t.cmd)
  {
    hide Decimal, SaveInto, IsSaved, EncodeTiming, IsTiming;
    var e: Entries := map["timing" := File(EncodeTiming(t.timing))];
    assert SubEntries(fs, Decimal(t.id)) == map[];
    assert map[]["timing" := File(EncodeTiming(t.timing))] == e;
    assert SubEntries(e, "cmd") == map[];
    TimingLayout(t.timing);
    SavedLayout(t.cmd);
  }

  /** What a run leaves in the directory of its task: a log that is ten bytes longer, and the two outputs. */
  lemma RunFiles(node: Node, run: Protocol.Run, output: seq<byte>, errors: seq<byte>)
    requires node.Dir?
    ensures var after := WriteRun(node, run, output, errors);
      && after.Dir? && after.entries.Keys == node.entries.Keys + {"times-exitcodes", "stdout", "stderr"}
      && after.entries["stdout"] == File(output) && after.entries["stderr"] == File(errors)
      && after.entries["times-exitcodes"].File?
      && var before := FileData(node.entries, "times-exitcodes");
         var log := after.entries["times-exitcodes"].data;
         before <= log && IsRun(log[|before|..], run)
  {
    hide IsRun, EncodeRun;
    RunLayout(run);
    var before := FileData(node.entries, "times-exitcodes");
    assert (before + EncodeRun(run))[|before|..] == EncodeRun(run);
  }
}
