/** The senders and receivers of `src/protocol.c`, as loops over a stream, proved against `Protocol`. */
module Transport {
  import opened Bytes
  import opened Commands
  import opened Serialization
  import opened Protocol

  // ---------- requests ----------

  method SendRequest(fd: Stream, r: Request) returns (ok: bool)
    requires r.Create? ==> Fits32(|r.argv|)
    requires r.Combine? ==> Fits32(|r.ids|)
    modifies fd
    ensures ok <==> Sendable(r)
    ensures ok ==> fd.data == old(fd.data) + EncodeRequest(r)
  {
    hide BE, EncodeTiming, EncodeArguments, EncodeMany, ValidArguments;
    fd.WriteUint16(r.Opcode());
    match r {
      case ListTasks => ok := true;
      case Terminate => ok := true;
      case Create(timing, argv) =>
        WriteTiming(fd, timing);
        ok := WriteArguments(fd, argv);
      case Combine(timing, ty, ids) =>
        WriteTiming(fd, timing);
        fd.WriteUint16(ty);
        fd.WriteUint32(|ids|);
        WriteIds(fd, ids);
        ok := true;
      case _ =>
        fd.WriteUint64(r.id);
        ok := true;
    }
  }

  method WriteIds(fd: Stream, ids: seq<uint64>)
    modifies fd
    ensures fd.data == old(fd.data) + EncodeMany(EncodeId, ids)
  {
    hide BE;
    ghost var base := fd.data;
    for i := 0 to |ids|
      invariant fd.data == base + EncodeMany(EncodeId, ids[..i])
    {
      fd.WriteUint64(ids[i]);
      EncodeManySnoc(EncodeId, base, ids, i);
    }
    assert ids[..|ids|] == ids;
  }

  method ReadIds(fd: Stream, n: uint32) returns (r: Option<seq<uint64>>)
    modifies fd
    ensures r.Some? <==> DecodeMany(DecodeUint64, n, old(fd.data)).Got?
    ensures r.Some? ==> DecodeMany(DecodeUint64, n, old(fd.data)) == Got(r.value, fd.data)
  {
    hide DecodeUint64;
    var ids := [];
    ghost var start := fd.data;
    ContinueNothing(DecodeMany(DecodeUint64, n, start));
    for i := 0 to n
      invariant |ids| == i
      invariant DecodeMany(DecodeUint64, n, start) == Continue(ids, DecodeMany(DecodeUint64, n - i, fd.data))
    {
      var id := fd.ReadUint64();
      if id.None? { return None; }
      ids := ids + [id.value];
      ContinueWith(ids, id.value, DecodeMany(DecodeUint64, n - i - 1, fd.data));
    }
    ContinueDone(ids, fd.data);
    r := Some(ids);
  }

  method ReceiveRequest(fd: Stream) returns (r: Option<Request>)
    modifies fd
    ensures r.Some? <==> DecodeRequest(old(fd.data)).Got?
    ensures r.Some? ==> DecodeRequest(old(fd.data)) == Got(r.value, fd.data)
  {
    hide DecodeUint16, DecodeUint32, DecodeUint64, DecodeTiming, DecodeArguments, DecodeMany;
    var op := fd.ReadUint16();
    if op.None? { return None; }
    if op.value in {TIMES_EXITCODES, STDOUT, STDERR, REMOVE} {
      var id := fd.ReadUint64();
      if id.None? { return None; }
      r := Some(
        if op.value == TIMES_EXITCODES then Times(id.value)
        else if op.value == STDOUT then Stdout(id.value)
        else if op.value == STDERR then Stderr(id.value)
        else Remove(id.value));
    } else if op.value == CREATE {
      var timing := ReadTiming(fd);
      if timing.None? { return None; }
      var argv := ReadArguments(fd);
      if argv.None? { return None; }
      r := Some(Create(timing.value, argv.value));
    } else if op.value == COMBINE {
      var timing := ReadTiming(fd);
      if timing.None? { return None; }
      var ty := fd.ReadUint16();
      if ty.None? { return None; }
      var n := fd.ReadUint32();
      if n.None? || n.value == 0 || n.value > MAX_COMBINED { return None; }
      var ids := ReadIds(fd, n.value);
      if ids.None? { return None; }
      r := Some(Combine(timing.value, ty.value, ids.value));
    } else if op.value == LIST {
      r := Some(ListTasks);
    } else if op.value == TERMINATE {
      r := Some(Terminate);
    } else {
      r := None;
    }
  }

  // ---------- replies ----------

  /** `send_response`, with `opcode_used` set: the branch taken depends on it alone. */
  method SendResponse(fd: Stream, r: Response) returns (ok: bool)
    requires Shaped(r)
    requires r.body.Listing? ==> Fits32(|r.body.tasks|) && forall t | t in r.body.tasks :: Representable(t.cmd)
    requires r.body.History? ==> Fits32(|r.body.runs|)
    modifies fd
    ensures ok <==> Postable(r)
    ensures ok ==> fd.data == old(fd.data) + EncodeResponse(r)
  {
    hide BE, EncodeTask, EncodeRun, EncodeMany, Writable, Representable;
    fd.WriteUint16(r.anstype);
    ok := true;
    if r.anstype == ANSTYPE_ERROR {
      fd.WriteUint16(r.body.code);
    } else if r.opcode == LIST {
      fd.WriteUint32(|r.body.tasks|);
      ok := WriteTasks(fd, r.body.tasks);
    } else if r.opcode == TIMES_EXITCODES {
      fd.WriteUint32(|r.body.runs|);
      WriteRuns(fd, r.body.runs);
    } else if r.opcode == STDOUT || r.opcode == STDERR {
      if |r.body.output| > 0xffff_ffff { return false; }
      fd.WriteUint32(|r.body.output|);
      if |r.body.output| > 0 {
        fd.RobustWrite(r.body.output);
      }
    } else if r.opcode == TERMINATE || r.opcode == REMOVE {
    } else {
      fd.WriteUint64(r.body.id);
    }
  }

  method WriteTasks(fd: Stream, tasks: seq<Task>) returns (ok: bool)
    requires forall t | t in tasks :: Representable(t.cmd)
    modifies fd
    ensures ok <==> forall t | t in tasks :: Writable(Listed, t.cmd)
    ensures ok ==> fd.data == old(fd.data) + EncodeMany(EncodeTask, tasks)
  {
    hide BE, Writable, Representable, EncodeTiming, Encode, EncodeMany;
    ghost var base := fd.data;
    assert EncodeMany(EncodeTask, tasks[..0]) == [] by { EncodeManyNothing(EncodeTask); }
    for i := 0 to |tasks|
      invariant forall k | 0 <= k < i :: Writable(Listed, tasks[k].cmd)
      invariant fd.data == base + EncodeMany(EncodeTask, tasks[..i])
    {
      var t := tasks[i];
      fd.WriteUint64(t.id);
      WriteTiming(fd, t.timing);
      var written := WriteCommandListFormat(fd, t.cmd);
      if !written { return false; }
      TaskBytes(base + EncodeMany(EncodeTask, tasks[..i]), t);
      EncodeManySnoc(EncodeTask, base, tasks, i);
    }
    assert tasks[..|tasks|] == tasks;
    ok := true;
  }

  lemma EncodeManyNothing<T>(enc: T -> seq<byte>)
    ensures EncodeMany(enc, []) == []
  {
  }

  lemma TaskBytes(base: seq<byte>, t: Task)
    ensures base + BE(t.id, 8) + EncodeTiming(t.timing) + Encode(Listed, t.cmd) == base + EncodeTask(t)
  {
  }

  method WriteRuns(fd: Stream, runs: seq<Run>)
    modifies fd
    ensures fd.data == old(fd.data) + EncodeMany(EncodeRun, runs)
  {
    hide BE, EncodeMany;
    ghost var base := fd.data;
    assert EncodeMany(EncodeRun, runs[..0]) == [] by { EncodeManyNothing(EncodeRun); }
    for i := 0 to |runs|
      invariant fd.data == base + EncodeMany(EncodeRun, runs[..i])
    {
      fd.WriteUint64(Unsigned(runs[i].time));
      fd.WriteUint16(runs[i].exit);
      assert fd.data == base + EncodeMany(EncodeRun, runs[..i]) + EncodeRun(runs[i]);
      EncodeManySnoc(EncodeRun, base, runs, i);
    }
    assert runs[..|runs|] == runs;
  }

  method ReadTask(fd: Stream) returns (r: Option<Task>)
    modifies fd
    ensures r.Some? <==> DecodeTask(old(fd.data)).Got?
    ensures r.Some? ==> DecodeTask(old(fd.data)) == Got(r.value, fd.data)
  {
    hide DecodeUint64, DecodeTiming, Decode;
    var id := fd.ReadUint64();
    if id.None? { return None; }
    var timing := ReadTiming(fd);
    if timing.None? { return None; }
    var cmd := ReadCommandListFormat(fd);
    if cmd.None? { return None; }
    r := Some(Task(id.value, timing.value, cmd.value));
  }

  method ReadTasks(fd: Stream, n: nat) returns (r: Option<seq<Task>>)
    modifies fd
    ensures r.Some? <==> DecodeMany(DecodeTask, n, old(fd.data)).Got?
    ensures r.Some? ==> DecodeMany(DecodeTask, n, old(fd.data)) == Got(r.value, fd.data)
  {
    hide DecodeTask;
    var tasks := [];
    ghost var start := fd.data;
    ContinueNothing(DecodeMany(DecodeTask, n, start));
    for i := 0 to n
      invariant |tasks| == i
      invariant DecodeMany(DecodeTask, n, start) == Continue(tasks, DecodeMany(DecodeTask, n - i, fd.data))
    {
      var t := ReadTask(fd);
      if t.None? { return None; }
      tasks := tasks + [t.value];
      ContinueWith(tasks, t.value, DecodeMany(DecodeTask, n - i - 1, fd.data));
    }
    ContinueDone(tasks, fd.data);
    r := Some(tasks);
  }

  method ReadRuns(fd: Stream, n: nat) returns (r: Option<seq<Run>>)
    modifies fd
    ensures r.Some? <==> DecodeMany(DecodeRun, n, old(fd.data)).Got?
    ensures r.Some? ==> DecodeMany(DecodeRun, n, old(fd.data)) == Got(r.value, fd.data)
  {
    hide DecodeUint16, DecodeUint, DecodeInt64;
    var runs := [];
    ghost var start := fd.data;
    ContinueNothing(DecodeMany(DecodeRun, n, start));
    for i := 0 to n
      invariant |runs| == i
      invariant DecodeMany(DecodeRun, n, start) == Continue(runs, DecodeMany(DecodeRun, n - i, fd.data))
    {
      var time := fd.ReadInt64();
      if time.None? { return None; }
      var exit := fd.ReadUint16();
      if exit.None? { return None; }
      var run := Run(time.value, exit.value);
      runs := runs + [run];
      ContinueWith(runs, run, DecodeMany(DecodeRun, n - i - 1, fd.data));
    }
    ContinueDone(runs, fd.data);
    r := Some(runs);
  }

  /** `receive_response`. */
  method ReceiveResponse(fd: Stream, op: uint16) returns (r: Option<Response>)
    modifies fd
    ensures r.Some? <==> DecodeResponse(op, old(fd.data)).Got?
    ensures r.Some? ==> DecodeResponse(op, old(fd.data)) == Got(r.value, fd.data)
  {
    hide DecodeUint16, DecodeUint32, DecodeUint64, DecodeTask, DecodeRun, DecodeMany;
    var anstype := fd.ReadUint16();
    if anstype.None? { return None; }
    if anstype.value == ANSTYPE_ERROR {
      var code := fd.ReadUint16();
      if code.None? { return None; }
      return Some(Response(anstype.value, op, Failure(code.value)));
    }
    if op == TERMINATE || op == REMOVE {
      return Some(Response(anstype.value, op, Done));
    }
    if op == CREATE || op == COMBINE {
      var id := fd.ReadUint64();
      if id.None? { return None; }
      return Some(Response(anstype.value, op, Created(id.value)));
    }
    var n := fd.ReadUint32();
    if n.None? { return None; }
    if op == LIST {
      if n.value >= TASKS_BOUND { return None; }
      var tasks := ReadTasks(fd, n.value);
      if tasks.None? { return None; }
      r := Some(Response(anstype.value, op, Listing(tasks.value)));
    } else if op == TIMES_EXITCODES {
      if n.value > MAX_RUNS { return None; }
      var runs := ReadRuns(fd, n.value);
      if runs.None? { return None; }
      r := Some(Response(anstype.value, op, History(runs.value)));
    } else if op == STDOUT || op == STDERR {
      if n.value > MAX_OUTPUT { return None; }
      var output := fd.RobustRead(n.value);
      if output.None? { return None; }
      r := Some(Response(anstype.value, op, Captured(output.value)));
    } else {
      r := None;
    }
  }
}
