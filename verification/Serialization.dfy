/**
 The readers and writers of `src/serialization.c`, and the two list-format ones of `src/protocol.c`,
 as loops over a stream. Each is proved to do exactly what `Commands` says about bytes.
 */
module Serialization {
  import opened Bytes
  import opened Commands

  /** The 32-bit counters of `command_t` can describe the tree. */
  predicate Representable(c: Command) {
    && Fits32(|c.argv|) && Fits32(|c.cmds|)
    && forall d | d in c.cmds :: Representable(d)
  }

  // ---------- timings, strings and arguments ----------

  method WriteTiming(fd: Stream, t: Timing)
    modifies fd
    ensures fd.data == old(fd.data) + EncodeTiming(t)
  {
    fd.WriteUint64(t.minutes);
    fd.WriteUint32(t.hours);
    fd.WriteUint8(t.days);
    SingleByte(t.days);
  }

  method ReadTiming(fd: Stream) returns (r: Option<Timing>)
    modifies fd
    ensures r.Some? <==> DecodeTiming(old(fd.data)).Got?
    ensures r.Some? ==> DecodeTiming(old(fd.data)) == Got(r.value, fd.data)
  {
    var minutes := fd.ReadUint64();
    if minutes.None? { return None; }
    var hours := fd.ReadUint32();
    if hours.None? { return None; }
    var days := fd.ReadUint8();
    if days.None? { return None; }
    r := Some(Timing(minutes.value, hours.value, days.value));
  }

  method WriteString(fd: Stream, s: CString) returns (ok: bool)
    modifies fd
    ensures ok <==> Fits32(|s|)
    ensures ok ==> fd.data == old(fd.data) + EncodeString(s)
    ensures old(fd.data) <= fd.data
  {
    if |s| > 0xffff_ffff { return false; }
    fd.WriteUint32(|s|);
    if |s| != 0 {
      fd.RobustWrite(s);
    }
    ok := true;
  }

  method ReadString(fd: Stream) returns (r: Option<CString>)
    modifies fd
    ensures r.Some? <==> DecodeString(old(fd.data)).Got?
    ensures r.Some? ==> DecodeString(old(fd.data)) == Got(r.value, fd.data)
  {
    var length := fd.ReadUint32();
    if length.None? { return None; }
    var buf := fd.RobustRead(length.value);
    if buf.None? { return None; }
    r := Some(CStr(buf.value));
  }

  method WriteArguments(fd: Stream, argv: seq<CString>) returns (ok: bool)
    requires Fits32(|argv|)
    modifies fd
    ensures ok <==> ValidArguments(argv)
    ensures ok ==> fd.data == old(fd.data) + EncodeArguments(argv)
    ensures old(fd.data) <= fd.data
  {
    hide BE, EncodeString;
    if |argv| < 1 || argv[0] == [] { return false; }
    fd.WriteUint32(|argv|);
    ghost var base := fd.data;
    for i := 0 to |argv|
      invariant base <= fd.data
      invariant forall k | 0 <= k < i :: Fits32(|argv[k]|)
      invariant fd.data == base + EncodeMany(EncodeString, argv[..i])
    {
      var written := WriteString(fd, argv[i]);
      if !written { return false; }
      EncodeManySnoc(EncodeString, base, argv, i);
    }
    assert argv[..|argv|] == argv;
    assert fd.data == old(fd.data) + EncodeArguments(argv);
    ok := true;
  }

  /** The encoding of one sub-command, as a function that can be passed on. */
  function Encoder(f: Format): Command -> seq<byte> { c => Encode(f, c) }

  lemma {:induction false} EncodeAllIsMany(f: Format, cs: seq<Command>)
    ensures EncodeAll(f, cs) == EncodeMany(Encoder(f), cs)
  {
    hide Encode;
    if cs == [] {
    } else {
      EncodeAllIsMany(f, cs[1..]);
    }
  }

  lemma EncodeAllSnoc(f: Format, base: seq<byte>, cs: seq<Command>, i: nat)
    requires i < |cs|
    ensures base + EncodeAll(f, cs[..i]) + Encode(f, cs[i]) == base + EncodeAll(f, cs[..i + 1])
  {
    hide Encode, EncodeAll, EncodeMany;
    EncodeAllIsMany(f, cs[..i]);
    EncodeAllIsMany(f, cs[..i + 1]);
    EncodeManySnoc(Encoder(f), base, cs, i);
  }

  method ReadArguments(fd: Stream) returns (r: Option<seq<CString>>)
    modifies fd
    ensures r.Some? <==> DecodeArguments(old(fd.data)).Got?
    ensures r.Some? ==> DecodeArguments(old(fd.data)) == Got(r.value, fd.data)
  {
    hide DecodeString, DecodeUint32;
    var argc := fd.ReadUint32();
    if argc.None? || argc.value < 1 { return None; }
    var argv: seq<CString> := [];
    ghost var start := fd.data;
    ContinueNothing(DecodeMany(DecodeString, argc.value, start));
    for i := 0 to argc.value
      invariant |argv| == i
      invariant DecodeMany(DecodeString, argc.value, start)
             == Continue(argv, DecodeMany(DecodeString, argc.value - i, fd.data))
    {
      var s := ReadString(fd);
      if s.None? { return None; }
      argv := argv + [s.value];
      ContinueWith(argv, s.value, DecodeMany(DecodeString, argc.value - i - 1, fd.data));
    }
    ContinueDone(argv, fd.data);
    if argv[0] == [] { return None; }
    r := Some(argv);
  }

  // ---------- command trees ----------

  /** The loop over the sub-commands, which both writers end with. */
  method WriteChildren(fd: Stream, f: Format, cs: seq<Command>) returns (ok: bool)
    requires !f.OnDisk?
    requires forall c | c in cs :: Representable(c)
    modifies fd
    ensures ok <==> forall c | c in cs :: Writable(f, c)
    ensures ok ==> fd.data == old(fd.data) + EncodeAll(f, cs)
    ensures old(fd.data) <= fd.data
    decreases cs, 1
  {
    hide BE, Encode, Writable, Representable;
    ghost var base := fd.data;
    for i := 0 to |cs|
      invariant base <= fd.data
      invariant forall k | 0 <= k < i :: Writable(f, cs[k])
      invariant fd.data == base + EncodeAll(f, cs[..i])
    {
      var written;
      if f.Kinded? {
        written := WriteCommand(fd, cs[i]);
      } else {
        written := WriteCommandListFormat(fd, cs[i]);
      }
      if !written { return false; }
      EncodeAllSnoc(f, base, cs, i);
    }
    assert cs[..|cs|] == cs;
    ok := true;
  }

  /** `write_command`: validates the layout, then branches on `nb_cmds`. */
  method WriteCommand(fd: Stream, c: Command) returns (ok: bool)
    requires Representable(c)
    modifies fd
    ensures ok <==> Writable(Kinded, c)
    ensures ok ==> fd.data == old(fd.data) + Encode(Kinded, c)
    ensures old(fd.data) <= fd.data
    decreases c, 2
  {
    hide BE, EncodeArguments, EncodeAll, ValidArguments;
    var isSimple, isSequence := |c.argv| > 0, |c.cmds| > 0;
    if isSimple == isSequence { return false; }
    fd.WriteUint16(c.ty);
    var kind := if |c.cmds| > 0 then KIND_SEQUENCE else KIND_SIMPLE;
    fd.WriteUint8(kind);
    SingleByte(kind);
    if kind == KIND_SIMPLE {
      ok := WriteArguments(fd, c.argv);
      return;
    }
    fd.WriteUint32(|c.cmds|);
    ok := WriteChildren(fd, Kinded, c.cmds);
  }

  /** `write_command_list_format`: no validation, and it branches on `argc`. */
  method WriteCommandListFormat(fd: Stream, c: Command) returns (ok: bool)
    requires Representable(c)
    modifies fd
    ensures ok <==> Writable(Listed, c)
    ensures ok ==> fd.data == old(fd.data) + Encode(Listed, c)
    ensures old(fd.data) <= fd.data
    decreases c, 2
  {
    hide BE, EncodeArguments, EncodeAll, ValidArguments;
    fd.WriteUint16(c.ty);
    if |c.argv| > 0 {
      ok := WriteArguments(fd, c.argv);
      return;
    }
    if |c.cmds| == 0 { return false; }
    fd.WriteUint32(|c.cmds|);
    ok := WriteChildren(fd, Listed, c.cmds);
  }

  /** The loop over the sub-commands, which both readers end with. */
  method ReadChildren(fd: Stream, f: Format, n: uint32) returns (r: Option<seq<Command>>)
    requires !f.OnDisk?
    modifies fd
    ensures r.Some? <==> DecodeAll(f, n, old(fd.data)).Got?
    ensures r.Some? ==> DecodeAll(f, n, old(fd.data)) == Got(r.value, fd.data)
    decreases |fd.data|, 1
  {
    hide Decode;
    var children: seq<Command> := [];
    ghost var start := fd.data;
    ContinueNothing(DecodeAll(f, n, start));
    for i := 0 to n
      invariant |children| == i && |fd.data| <= |start|
      invariant DecodeAll(f, n, start) == Continue(children, DecodeAll(f, n - i, fd.data))
    {
      var child;
      if f.Kinded? {
        child := ReadCommand(fd);
      } else {
        child := ReadCommandListFormat(fd);
      }
      if child.None? { return None; }
      children := children + [child.value];
      ContinueWith(children, child.value, DecodeAll(f, n - i - 1, fd.data));
    }
    ContinueDone(children, fd.data);
    r := Some(children);
  }

  /** `read_command`: branches on the kind byte. */
  method ReadCommand(fd: Stream) returns (r: Option<Command>)
    modifies fd
    ensures r.Some? <==> Decode(Kinded, old(fd.data)).Got?
    ensures r.Some? ==> Decode(Kinded, old(fd.data)) == Got(r.value, fd.data)
    decreases |fd.data|, 0
  {
    hide DecodeAll, DecodeArguments;
    var ty := fd.ReadUint16();
    if ty.None? { return None; }
    var kind := fd.ReadUint8();
    if kind.None? { return None; }
    if kind.value == KIND_SIMPLE {
      var argv := ReadArguments(fd);
      if argv.None? { return None; }
      return Some(Command(ty.value, argv.value, []));
    }
    if kind.value != KIND_SEQUENCE { return None; }
    var n := fd.ReadUint32();
    if n.None? || n.value == 0 { return None; }
    var children := ReadChildren(fd, Kinded, n.value);
    if children.None? { return None; }
    r := Some(Command(ty.value, [], children.value));
  }

  /** `read_command_list_format`: branches on the type and caps the number of children. */
  method ReadCommandListFormat(fd: Stream) returns (r: Option<Command>)
    modifies fd
    ensures r.Some? <==> Decode(Listed, old(fd.data)).Got?
    ensures r.Some? ==> Decode(Listed, old(fd.data)) == Got(r.value, fd.data)
    decreases |fd.data|, 0
  {
    hide DecodeAll, DecodeArguments;
    var ty := fd.ReadUint16();
    if ty.None? { return None; }
    if ty.value == SI {
      var argv := ReadArguments(fd);
      if argv.None? { return None; }
      return Some(Command(ty.value, argv.value, []));
    }
    var n := fd.ReadUint32();
    if n.None? || n.value == 0 || n.value > MAX_LISTED_CHILDREN { return None; }
    var children := ReadChildren(fd, Listed, n.value);
    if children.None? { return None; }
    r := Some(Command(ty.value, [], children.value));
  }
}
