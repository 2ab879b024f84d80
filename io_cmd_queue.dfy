/**
 * The IO command queue of heart/heart-core/src/io/io_cmd_queue.cpp: how
 * `ProcessCmdPage` reads a page of commands back and what it asks of the
 * file system and of fences.
 *
 * The operating system is a parameter: `fs` maps the filename array a
 * descriptor hands to `HeartOpenFile` to the size of the file it opens, and
 * a name outside `fs` fails to open. What the page asks for is returned as
 * a trace of `Effect`s.
 */
module IoCmdQueue {
  import opened Wrappers
  import opened Stream
  import opened SeqLayout
  import opened IoCmdList

  /** `2^64`: the range of `uint64_t` and `size_t`. */
  const U64: nat := 0x1_0000_0000_0000_0000

  /** `int64_t(x)` of a 64-bit unsigned `x`: two's complement. */
  function Int64(x: nat): (r: int)
    ensures -(U64 as int) / 2 <= r < U64 / 2
    ensures r >= 0 <==> x % U64 < U64 / 2
    ensures r >= 0 ==> r == x % U64
  {
    var y := x % U64;
    if y >= U64 / 2 then y - U64 else y
  }

  // ---------------------------------------------------------------------
  // Reading a page back

  /** A command as `ProcessCmdPage` reads it. */
  datatype Op =
    | BindDescriptorOp(d: FileDescriptor)
    | BindUncheckedOp(ptr: nat)
    | BindCheckedOp(ptr: nat, size: nat)
    | ReadEntireOp
    | ReadPartialOp(toRead: nat)
    | OffsetOp(offset: int, kind: bv8)
    | UnbindDescriptorOp
    | UnbindTargetOp
    | ResetOp
    | SignalOp(fence: nat, value: nat)
    | WaitOp(fence: nat, value: nat)
    /** A tag outside `IoOpType`: the `switch` has no case for it. */
    | UnknownOp(tag: nat)

  /** How many bytes the reader takes after the tag of each operation. */
  function OperandSize(op: OpType): nat
  {
    match op
    case BindDescriptor => DescriptorSize
    case BindBufferUnchecked => PointerSize
    case BindBufferChecked => 2 * PointerSize
    case ReadPartial => 8
    case Offset => 9
    case SignalFence => PointerSize + 4
    case WaitForFence => PointerSize + 4
    case _ => 0
  }

  /**
   * The fields read after the tag: `Read<T>(Copy)` of each field in turn,
   * or for a descriptor `Read<IoFileDescriptor>(GetPtr)`, here the
   * descriptor object found there.
   */
  function DecodeOperands(op: OpType, b: seq<bv8>): Op
    requires |b| == OperandSize(op)
  {
    match op
    case BindDescriptor => BindDescriptorOp(FileDescriptor(b[0], b[1..]))
    case BindBufferUnchecked => BindUncheckedOp(FromLE(b))
    case BindBufferChecked => BindCheckedOp(FromLE(b[..8]), FromLE(b[8..]))
    case ReadEntire => ReadEntireOp
    case ReadPartial => ReadPartialOp(FromLE(b))
    case Offset => OffsetOp(FromSignedLE(b[..8]), b[8])
    case UnbindDescriptor => UnbindDescriptorOp
    case UnbindTarget => UnbindTargetOp
    case Reset => ResetOp
    case SignalFence => SignalOp(FromLE(b[..8]), FromLE(b[8..]))
    case WaitForFence => WaitOp(FromLE(b[..8]), FromLE(b[8..]))
  }

  /**
   * One command read at `h`: the operation and the head after it, or
   * `None` when a read would leave the page (the reader does not check;
   * the C++ reads past the array).
   */
  function DecodeAt(page: seq<bv8>, h: nat): (r: Option<(Op, nat)>)
    ensures r.Some? ==> h + 2 <= r.value.1 <= |page|
  {
    if h + 2 > |page| then None
    else
      var tag := FromLE(page[h..h + 2]);
      match OpOfTag(tag)
      case None => Some((UnknownOp(tag), h + 2))
      case Some(op) =>
        var e := h + 2 + OperandSize(op);
        if e > |page| then None
        else Some((DecodeOperands(op, page[h + 2..e]), e))
  }

  /**
   * The `size_t` a `ReadPartial` command carries is the little-endian value
   * of the eight bytes after its tag, so it always fits a `size_t`.
   */
  lemma ReadPartialOperand(page: seq<bv8>, h: nat, n: nat, e: nat)
    requires DecodeAt(page, h) == Some((ReadPartialOp(n), e))
    ensures e == h + 10 && n == FromLE(page[h + 2..e]) && n < U64
  {
    assert Pow256(4) == 0x1_0000_0000;
    assert OpOfTag(FromLE(page[h..h + 2])) == Some(ReadPartial);
  }

  /**
   * The commands read from `h` while the head is below `size`, and whether
   * every read stayed inside the page.
   */
  function DecodeFrom(page: seq<bv8>, h: nat, size: nat): (r: (seq<Op>, bool))
    decreases size - h
  {
    if h >= size then ([], true)
    else
      match DecodeAt(page, h)
      case None => ([], false)
      case Some((op, next)) =>
        var rest := DecodeFrom(page, next, size);
        ([op] + rest.0, rest.1)
  }

  /** One step of `DecodeFrom`. */
  lemma DecodeFromStep(page: seq<bv8>, h: nat, size: nat, op: Op, next: nat)
    requires h < size && DecodeAt(page, h) == Some((op, next))
    ensures DecodeFrom(page, h, size) == ([op] + DecodeFrom(page, next, size).0, DecodeFrom(page, next, size).1)
  {
  }

  // ---------------------------------------------------------------------
  // Carrying the commands out

  /** `HeartSetOffsetMode`. */
  datatype SeekMode = Current | Beginning | End

  /** The `switch` on the `IoOffsetType` byte: anything else keeps `Beginning`. */
  function SeekModeOf(kind: bv8): SeekMode
  {
    if kind == 1 then Current
    else if kind == 2 then End
    else Beginning
  }

  /** The two facts `HEART_ASSERT` checks before a read or a seek. */
  datatype AssertedFact = DescriptorBound | TargetBound

  /** What a page asks of the world, in order. */
  datatype Effect =
    | FileClosed
    | FileOpened(name: seq<bv8>, ok: bool)
    | FileRead(target: nat, bufferSize: nat, count: nat)
    | OffsetSet(offset: int, mode: SeekMode)
    | FenceSignalled(fence: nat, value: nat)
    | FenceWaited(fence: nat, value: nat)
    | AssertionFailed(fact: AssertedFact)

  /** The file system as seen from the queue: the size of each file that opens. */
  type FileSystem = map<seq<bv8>, nat>

  /**
   * `IoState`: the open file (as the size `HeartGetFileSize` reports), the
   * bound descriptor, the target buffer (0 is null) and its size (`-1`
   * for an unchecked one).
   */
  datatype IoState = IoState(file: Option<nat>, descriptor: Option<FileDescriptor>, target: nat, targetSize: int)

  /** A fresh `IoState`: nothing open, nothing bound. */
  function InitialState(): IoState
  {
    IoState(None, None, 0, -1)
  }

  /** `HEART_ASSERT(state.currentDescriptor != nullptr)`, compiled out under `HEART_STRICT_PERF`. */
  function CheckDescriptor(st: IoState, strictPerf: bool): seq<Effect>
  {
    if !strictPerf && st.descriptor.None? then [AssertionFailed(DescriptorBound)] else []
  }

  /** `HEART_ASSERT(state.currentTargetBuffer != nullptr)`. */
  function CheckTarget(st: IoState, strictPerf: bool): seq<Effect>
  {
    if !strictPerf && st.target == 0 then [AssertionFailed(TargetBound)] else []
  }

  /**
   * `ReadEntire` on an open file of `size` bytes: the whole file into the
   * target, when the target is unchecked or at least that large.
   */
  function ReadEntireEffects(st: IoState, size: nat): seq<Effect>
  {
    var bufferSize := if st.targetSize < 0 then size else st.targetSize;
    if st.targetSize < 0 || Int64(size) <= st.targetSize then [FileRead(st.target, bufferSize, size)] else []
  }

  /** One case of the `switch` of `ProcessCmdPage`. */
  function Step(st: IoState, op: Op, fs: FileSystem, strictPerf: bool): (IoState, seq<Effect>)
  {
    match op
    case BindDescriptorOp(d) =>
      var close := if st.file.Some? then [FileClosed] else [];
      var found := d.filename in fs;
      var file := if found then Some(fs[d.filename] % U64) else None;
      (st.(descriptor := Some(d), file := file), close + [FileOpened(d.filename, found)])
    case BindUncheckedOp(p) => (st.(target := p, targetSize := -1), [])
    case BindCheckedOp(p, n) => (st.(target := p, targetSize := Int64(n)), [])
    case ReadEntireOp =>
      var checks := CheckDescriptor(st, strictPerf) + CheckTarget(st, strictPerf);
      (st, checks + if st.file.Some? then ReadEntireEffects(st, st.file.value) else [])
    case ReadPartialOp(n) =>
      var checks := CheckDescriptor(st, strictPerf) + CheckTarget(st, strictPerf);
      var bufferSize := if st.targetSize < 0 then n else st.targetSize;
      (st, checks + if st.file.Some? then [FileRead(st.target, bufferSize, n)] else [])
    case OffsetOp(o, k) =>
      (st, CheckDescriptor(st, strictPerf) + if st.file.Some? then [OffsetSet(o, SeekModeOf(k))] else [])
    case UnbindDescriptorOp => (st.(descriptor := None), [])
    case UnbindTargetOp => (st.(target := 0, targetSize := -1), [])
    case ResetOp => (st, [])
    case SignalOp(f, v) => (st, [FenceSignalled(f, v)])
    case WaitOp(f, v) => (st, [FenceWaited(f, v)])
    case UnknownOp(_) => (st, [])
  }

  /** The commands carried out one after another. */
  function Execute(st: IoState, ops: seq<Op>, fs: FileSystem, strictPerf: bool): (IoState, seq<Effect>)
    decreases |ops|
  {
    if ops == [] then (st, [])
    else
      var before := Execute(st, ops[..|ops| - 1], fs, strictPerf);
      var last := Step(before.0, ops[|ops| - 1], fs, strictPerf);
      (last.0, before.1 + last.1)
  }

  /** Carrying out one more command after a run of them. */
  lemma ExecuteSnoc(st: IoState, ops: seq<Op>, op: Op, fs: FileSystem, strictPerf: bool)
    ensures var before := Execute(st, ops, fs, strictPerf);
            var last := Step(before.0, op, fs, strictPerf);
            Execute(st, ops + [op], fs, strictPerf) == (last.0, before.1 + last.1)
  {
    assert (ops + [op])[..|ops|] == ops;
  }

  /** `HeartFile`'s destructor at the end of `ProcessCmdPage` closes a file left open. */
  function Closing(st: IoState): seq<Effect>
  {
    if st.file.Some? then [FileClosed] else []
  }

  /**
   * `ProcessCmdPage`: the effects of the page's first `size` bytes, and
   * whether every command lay inside the page.
   */
  function Process(page: seq<bv8>, size: nat, fs: FileSystem, strictPerf: bool): (seq<Effect>, bool)
  {
    var decoded := DecodeFrom(page, 0, size);
    var run := Execute(InitialState(), decoded.0, fs, strictPerf);
    (run.1 + Closing(run.0), decoded.1)
  }

  // ---------------------------------------------------------------------
  // A recorded command reads back as itself

  /** The `IoOpType` a command is recorded under: a checked buffer is recorded unchecked under `HEART_STRICT_PERF`. */
  function RecordedOp(c: Cmd, strictPerf: bool): OpType
  {
    if c.BindCheckedCmd? && strictPerf then BindBufferUnchecked else OpOfCmd(c)
  }

  /** The command the queue reads back from a recorded one. */
  function Decoded(c: Cmd, strictPerf: bool): Op
  {
    match c
    case BindDescriptorCmd(d) => BindDescriptorOp(d)
    case BindUncheckedCmd(p) => BindUncheckedOp(p)
    case BindCheckedCmd(p, n) => if strictPerf then BindUncheckedOp(p) else BindCheckedOp(p, n)
    case ReadEntireCmd => ReadEntireOp
    case ReadPartialCmd(n) => ReadPartialOp(n)
    case OffsetCmd(o, t) => OffsetOp(o, OffsetByte(t))
    case UnbindDescriptorCmd => UnbindDescriptorOp
    case UnbindTargetCmd => UnbindTargetOp
    case ResetCmd => ResetOp
    case SignalCmd(f, v) => SignalOp(f, v)
    case WaitCmd(f, v) => WaitOp(f, v)
  }

  /** The bytes of a recorded command after its tag. */
  function Operands(c: Cmd, strictPerf: bool): seq<bv8>
    requires CmdOk(c)
  {
    match c
    case BindDescriptorCmd(d) => DescriptorBytes(d)
    case BindUncheckedCmd(p) => LE(p, 8)
    case BindCheckedCmd(p, n) => if strictPerf then LE(p, 8) else LE(p, 8) + LE(n, 8)
    case ReadPartialCmd(n) => LE(n, 8)
    case OffsetCmd(o, t) => SignedLE(o, 8) + [OffsetByte(t)]
    case SignalCmd(f, v) => LE(f, 8) + LE(v, 4)
    case WaitCmd(f, v) => LE(f, 8) + LE(v, 4)
    case _ => []
  }

  lemma ConcatOfOne(a: seq<bv8>)
    ensures Concat([a]) == a
  {
    assert [a][1..] == [];
  }

  lemma ConcatOfTwo(a: seq<bv8>, b: seq<bv8>)
    ensures Concat([a, b]) == a + b
  {
    assert [a, b][1..] == [b];
    ConcatOfOne(b);
  }

  lemma ConcatOfThree(a: seq<bv8>, b: seq<bv8>, c: seq<bv8>)
    ensures Concat([a, b, c]) == a + (b + c)
  {
    assert [a, b, c][1..] == [b, c];
    ConcatOfTwo(b, c);
  }

  /** A command recorded as its tag and one more write. */
  lemma TwoPartEncoding(c: Cmd, strictPerf: bool, x: seq<bv8>)
    requires CmdOk(c) && Parts(c, strictPerf) == [TagBytes(RecordedOp(c, strictPerf)), x]
    ensures Encoding(c, strictPerf) == TagBytes(RecordedOp(c, strictPerf)) + x
  {
    ConcatOfTwo(TagBytes(RecordedOp(c, strictPerf)), x);
  }

  /** A command recorded as its tag and two more writes. */
  lemma ThreePartEncoding(c: Cmd, strictPerf: bool, x: seq<bv8>, y: seq<bv8>)
    requires CmdOk(c) && Parts(c, strictPerf) == [TagBytes(RecordedOp(c, strictPerf)), x, y]
    ensures Encoding(c, strictPerf) == TagBytes(RecordedOp(c, strictPerf)) + (x + y)
  {
    ConcatOfThree(TagBytes(RecordedOp(c, strictPerf)), x, y);
  }

  lemma CheckedEncoding(p: nat, n: nat, strictPerf: bool)
    requires CmdOk(BindCheckedCmd(p, n))
    ensures Encoding(BindCheckedCmd(p, n), strictPerf) == TagBytes(RecordedOp(BindCheckedCmd(p, n), strictPerf)) + Operands(BindCheckedCmd(p, n), strictPerf)
  {
    var c := BindCheckedCmd(p, n);
    if strictPerf {
      TwoPartEncoding(c, strictPerf, LE(p, 8));
    } else {
      TwoPartEncoding(c, strictPerf, LE(p, 8) + LE(n, 8));
    }
  }

  /** A recorded command is its tag followed by its operands, as many as the reader takes for that tag. */
  lemma EncodingIsTagThenOperands(c: Cmd, strictPerf: bool)
    requires CmdOk(c)
    ensures Encoding(c, strictPerf) == TagBytes(RecordedOp(c, strictPerf)) + Operands(c, strictPerf)
    ensures |Operands(c, strictPerf)| == OperandSize(RecordedOp(c, strictPerf))
  {
    if c.BindCheckedCmd? {
      CheckedEncoding(c.ptr, c.bufferSize, strictPerf);
    } else if c.OffsetCmd? || c.SignalCmd? || c.WaitCmd? {
      ThreeWriteEncoding(c, strictPerf);
    } else if c.BindDescriptorCmd? || c.BindUncheckedCmd? || c.ReadPartialCmd? {
      TwoWriteEncoding(c, strictPerf);
    } else {
      OneWriteEncoding(c, strictPerf);
    }
    OperandsLength(c, strictPerf);
  }

  lemma OperandsLength(c: Cmd, strictPerf: bool)
    requires CmdOk(c)
    ensures |Operands(c, strictPerf)| == OperandSize(RecordedOp(c, strictPerf))
  {
  }

  lemma TwoWriteEncoding(c: Cmd, strictPerf: bool)
    requires CmdOk(c) && (c.BindDescriptorCmd? || c.BindUncheckedCmd? || c.ReadPartialCmd?)
    ensures Encoding(c, strictPerf) == TagBytes(RecordedOp(c, strictPerf)) + Operands(c, strictPerf)
  {
    TwoPartEncoding(c, strictPerf, Operands(c, strictPerf));
  }

  lemma ThreeWriteEncoding(c: Cmd, strictPerf: bool)
    requires CmdOk(c) && (c.OffsetCmd? || c.SignalCmd? || c.WaitCmd?)
    ensures Encoding(c, strictPerf) == TagBytes(RecordedOp(c, strictPerf)) + Operands(c, strictPerf)
  {
    var ps := Parts(c, strictPerf);
    ThreePartEncoding(c, strictPerf, ps[1], ps[2]);
  }

  lemma OneWriteEncoding(c: Cmd, strictPerf: bool)
    requires CmdOk(c)
    requires c.ReadEntireCmd? || c.UnbindDescriptorCmd? || c.UnbindTargetCmd? || c.ResetCmd?
    ensures Encoding(c, strictPerf) == TagBytes(RecordedOp(c, strictPerf)) + Operands(c, strictPerf)
  {
    var t := TagBytes(RecordedOp(c, strictPerf));
    ConcatOfOne(t);
    assert t + [] == t;
  }

  /** Eight bytes of an integer then more bytes: the reader's two fields get both back. */
  lemma SplitFields(x: nat, rest: seq<bv8>)
    requires x < Pow256(8)
    ensures (LE(x, 8) + rest)[..8] == LE(x, 8) && (LE(x, 8) + rest)[8..] == rest
    ensures FromLE((LE(x, 8) + rest)[..8]) == x
  {
    FromLEOfLE(x, 8);
  }

  /** The reader's fields give back the recorded command. */
  lemma OperandsDecode(c: Cmd, strictPerf: bool)
    requires CmdOk(c)
    ensures |Operands(c, strictPerf)| == OperandSize(RecordedOp(c, strictPerf))
    ensures DecodeOperands(RecordedOp(c, strictPerf), Operands(c, strictPerf)) == Decoded(c, strictPerf)
  {
    OperandsLength(c, strictPerf);
    if c.BindCheckedCmd? {
      CheckedCase(c, strictPerf);
    } else if c.OffsetCmd? || c.SignalCmd? || c.WaitCmd? {
      MixedFieldsCase(c, strictPerf);
    } else if c.BindUncheckedCmd? || c.ReadPartialCmd? {
      OneFieldCase(c, strictPerf);
    } else {
      OtherCase(c, strictPerf);
    }
  }

  lemma CheckedCase(c: Cmd, strictPerf: bool)
    requires CmdOk(c) && c.BindCheckedCmd?
    ensures DecodeOperands(RecordedOp(c, strictPerf), Operands(c, strictPerf)) == Decoded(c, strictPerf)
  {
    CheckedOperands(c.ptr, c.bufferSize, strictPerf);
  }

  lemma MixedFieldsCase(c: Cmd, strictPerf: bool)
    requires CmdOk(c) && (c.OffsetCmd? || c.SignalCmd? || c.WaitCmd?)
    ensures DecodeOperands(RecordedOp(c, strictPerf), Operands(c, strictPerf)) == Decoded(c, strictPerf)
  {
    if c.OffsetCmd? {
      OffsetOperands(c.offset, c.kind);
    } else {
      FenceOperands(c.fence, c.value);
    }
  }

  lemma OneFieldCase(c: Cmd, strictPerf: bool)
    requires CmdOk(c) && (c.BindUncheckedCmd? || c.ReadPartialCmd?)
    ensures DecodeOperands(RecordedOp(c, strictPerf), Operands(c, strictPerf)) == Decoded(c, strictPerf)
  {
    FromLEOfLE(if c.BindUncheckedCmd? then c.ptr else c.readLength, 8);
  }

  lemma OtherCase(c: Cmd, strictPerf: bool)
    requires CmdOk(c) && !(c.BindCheckedCmd? || c.OffsetCmd? || c.SignalCmd? || c.WaitCmd? || c.BindUncheckedCmd? || c.ReadPartialCmd?)
    ensures DecodeOperands(RecordedOp(c, strictPerf), Operands(c, strictPerf)) == Decoded(c, strictPerf)
  {
  }

  lemma CheckedOperands(p: nat, n: nat, strictPerf: bool)
    requires p < Pow256(8) && n < Pow256(8)
    ensures DecodeOperands(RecordedOp(BindCheckedCmd(p, n), strictPerf), Operands(BindCheckedCmd(p, n), strictPerf))
      == Decoded(BindCheckedCmd(p, n), strictPerf)
  {
    if strictPerf {
      FromLEOfLE(p, 8);
    } else {
      SplitFields(p, LE(n, 8));
      FromLEOfLE(n, 8);
    }
  }

  lemma OffsetOperands(o: int, k: OffsetType)
    requires -(Pow256(8) as int) / 2 <= o < Pow256(8) / 2
    ensures DecodeOperands(Offset, SignedLE(o, 8) + [OffsetByte(k)]) == OffsetOp(o, OffsetByte(k))
  {
    var b := SignedLE(o, 8) + [OffsetByte(k)];
    assert b[..8] == SignedLE(o, 8) && b[8] == OffsetByte(k);
    FromSignedLEOfSignedLE(o, 8);
  }

  /** A fence pointer then a `uint32_t`, as a signal or a wait records them. */
  lemma FenceOperands(f: nat, v: nat)
    requires f < Pow256(8) && v < Pow256(4)
    ensures DecodeOperands(SignalFence, LE(f, 8) + LE(v, 4)) == SignalOp(f, v)
    ensures DecodeOperands(WaitForFence, LE(f, 8) + LE(v, 4)) == WaitOp(f, v)
  {
    SplitFields(f, LE(v, 4));
    FromLEOfLE(v, 4);
  }

  /** A recorded command found at `h` in a page reads back as itself, and the head moves past it. */
  lemma DecodeRecorded(page: seq<bv8>, h: nat, c: Cmd, strictPerf: bool)
    requires CmdOk(c)
    requires h + |Encoding(c, strictPerf)| <= |page| && page[h..h + |Encoding(c, strictPerf)|] == Encoding(c, strictPerf)
    ensures DecodeAt(page, h) == Some((Decoded(c, strictPerf), h + |Encoding(c, strictPerf)|))
  {
    var op := RecordedOp(c, strictPerf);
    var t, x := TagBytes(op), Operands(c, strictPerf);
    EncodingIsTagThenOperands(c, strictPerf);
    OperandsDecode(c, strictPerf);
    TagBytesAreLE(op);
    SliceOfConcat(page, h, t, x);
    DecodeTagged(page, h, op, x);
  }

  /** A page holding an operation's tag and then its operands decodes them there. */
  lemma DecodeTagged(page: seq<bv8>, h: nat, op: OpType, x: seq<bv8>)
    requires h + 2 + |x| <= |page| && |x| == OperandSize(op)
    requires OpOfTag(FromLE(page[h..h + 2])) == Some(op) && page[h + 2..h + 2 + |x|] == x
    ensures DecodeAt(page, h) == Some((DecodeOperands(op, x), h + 2 + |x|))
  {
  }

  /** What the queue reads back from a list of commands. */
  function DecodedAll(cmds: seq<Cmd>, strictPerf: bool): (r: seq<Op>)
    ensures |r| == |cmds| && forall i :: 0 <= i < |cmds| ==> r[i] == Decoded(cmds[i], strictPerf)
  {
    seq(|cmds|, i requires 0 <= i < |cmds| => Decoded(cmds[i], strictPerf))
  }

  /** The writes of each command of a list, in order. */
  function PartsOf(cmds: seq<Cmd>, strictPerf: bool): (r: seq<seq<seq<bv8>>>)
    requires forall i :: 0 <= i < |cmds| ==> CmdOk(cmds[i])
    ensures |r| == |cmds|
  {
    seq(|cmds|, i requires 0 <= i < |cmds| && CmdOk(cmds[i]) => Parts(cmds[i], strictPerf))
  }

  /** The pool and head after each command's writes in turn, each write fitting or skipped on its own. */
  function WritesEach(buf: seq<bv8>, h: nat, cmdParts: seq<seq<seq<bv8>>>): (r: (seq<bv8>, nat))
    requires h <= |buf|
    ensures |r.0| == |buf| && r.1 <= |buf|
    decreases |cmdParts|
  {
    if cmdParts == [] then (buf, h)
    else
      var first := Writes(buf, h, cmdParts[0]);
      WritesEach(first.0, first.1, cmdParts[1..])
  }

  /** The commands' bytes one after another: what the writes lay down when they all fit. */
  function Joined(cmdParts: seq<seq<seq<bv8>>>): seq<bv8>
    decreases |cmdParts|
  {
    if cmdParts == [] then [] else Concat(cmdParts[0]) + Joined(cmdParts[1..])
  }

  /** When the whole list fits, the writes lay its bytes down at the head and move the head past them. */
  lemma {:induction false} WritesEachWhenAllFit(buf: seq<bv8>, h: nat, cmdParts: seq<seq<seq<bv8>>>)
    requires h + |Joined(cmdParts)| <= |buf|
    ensures WritesEach(buf, h, cmdParts) == (Overwrite(buf, h, Joined(cmdParts)), h + |Joined(cmdParts)|)
    decreases |cmdParts|
  {
    if cmdParts == [] {
      assert Overwrite(buf, h, []) == buf;
    } else {
      var e, r := Concat(cmdParts[0]), Joined(cmdParts[1..]);
      var b1 := Overwrite(buf, h, e);
      WritesWhenAllFit(buf, h, cmdParts[0]);
      WritesEachWhenAllFit(b1, h + |e|, cmdParts[1..]);
      OverwriteTwice(buf, h, e, r);
    }
  }

  /** The bytes `e` read back as `op` and nothing more. */
  predicate ReadsBackAs(e: seq<bv8>, op: Op)
  {
    DecodeAt(e, 0) == Some((op, |e|))
  }

  /** What the queue reads at `h` depends only on the bytes from `h` that it reads. */
  lemma DecodeAtIsLocal(page: seq<bv8>, h: nat, e: seq<bv8>, op: Op)
    requires ReadsBackAs(e, op)
    requires h + |e| <= |page| && page[h..h + |e|] == e
    ensures DecodeAt(page, h) == Some((op, h + |e|))
  {
    InnerSlice(page, h, e, 0, 2);
    var t := FromLE(e[0..2]);
    match OpOfTag(t)
    case None =>
    case Some(o) =>
      var n := OperandSize(o);
      assert 2 + n <= |e| && DecodeOperands(o, e[2..2 + n]) == op;
      InnerSlice(page, h, e, 2, 2 + n);
  }

  /** A slice of bytes found in a page is found there again, piece by piece. */
  lemma InnerSlice(page: seq<bv8>, h: nat, e: seq<bv8>, i: nat, j: nat)
    requires h + |e| <= |page| && page[h..h + |e|] == e && i <= j <= |e|
    ensures page[h + i..h + j] == e[i..j]
  {
    forall k | 0 <= k < j - i
      ensures page[h + i..h + j][k] == e[i..j][k]
    {
      assert page[h + i + k] == page[h..h + |e|][i + k];
    }
  }

  /** Each list of writes reads back as the operation beside it. */
  predicate EachReadsBack(cmdParts: seq<seq<seq<bv8>>>, ops: seq<Op>)
  {
    |cmdParts| == |ops| &&
    forall i {:trigger ReadsBackAs(Concat(cmdParts[i]), ops[i])} :: 0 <= i < |ops| ==> ReadsBackAs(Concat(cmdParts[i]), ops[i])
  }

  /** Commands that each read back as themselves read back, laid end to end, as the whole list. */
  lemma {:induction false} DecodeJoined(page: seq<bv8>, h: nat, size: nat, cmdParts: seq<seq<seq<bv8>>>, ops: seq<Op>)
    requires EachReadsBack(cmdParts, ops)
    requires size == h + |Joined(cmdParts)| <= |page| && page[h..size] == Joined(cmdParts)
    ensures DecodeFrom(page, h, size) == (ops, true)
    decreases |cmdParts|
  {
    if cmdParts != [] {
      var e, r := Concat(cmdParts[0]), Joined(cmdParts[1..]);
      var next: nat := h + |e|;
      assert page[h..next] == e && page[next..next + |r|] == r by {
        SliceOfConcat(page, h, e, r);
      }
      assert DecodeAt(page, h) == Some((ops[0], next)) by {
        assert ReadsBackAs(e, ops[0]);
        DecodeAtIsLocal(page, h, e, ops[0]);
      }
      assert EachReadsBack(cmdParts[1..], ops[1..]) by {
        forall i | 0 <= i < |ops| - 1
          ensures ReadsBackAs(Concat(cmdParts[1..][i]), ops[1..][i])
        {
          assert ReadsBackAs(Concat(cmdParts[i + 1]), ops[i + 1]);
        }
      }
      assert size == next + |r| && h < size;
      DecodeJoined(page, next, size, cmdParts[1..], ops[1..]);
      DecodeThenRest(page, h, size, ops[0], next, ops[1..]);
      FirstThenRest(ops);
    } else {
      DecodeFromEnd(page, h);
    }
  }

  /** Nothing is left to decode at the end of the run. */
  lemma DecodeFromEnd(page: seq<bv8>, h: nat)
    ensures DecodeFrom(page, h, h) == ([], true)
  {
  }

  /** A command decoded at `h` followed by a run decoded to its end is the whole run. */
  lemma DecodeThenRest(page: seq<bv8>, h: nat, size: nat, op: Op, next: nat, restOps: seq<Op>)
    requires h < size && DecodeAt(page, h) == Some((op, next))
    requires DecodeFrom(page, next, size) == (restOps, true)
    ensures DecodeFrom(page, h, size) == ([op] + restOps, true)
  {
    DecodeFromStep(page, h, size, op, next);
  }

  lemma FirstThenRest<T>(s: seq<T>)
    requires s != []
    ensures s == [s[0]] + s[1..]
  {
  }

  /** A recorded command reads back as itself. */
  lemma RecordedReadsBack(c: Cmd, strictPerf: bool)
    requires CmdOk(c)
    ensures ReadsBackAs(Concat(Parts(c, strictPerf)), Decoded(c, strictPerf))
  {
    var e := Encoding(c, strictPerf);
    assert e[0..|e|] == e;
    DecodeRecorded(e, 0, c, strictPerf);
  }

  /** Every command of a list reads back as itself. */
  lemma AllReadBack(cmds: seq<Cmd>, strictPerf: bool)
    requires forall i :: 0 <= i < |cmds| ==> CmdOk(cmds[i])
    ensures EachReadsBack(PartsOf(cmds, strictPerf), DecodedAll(cmds, strictPerf))
  {
    var cp, ops := PartsOf(cmds, strictPerf), DecodedAll(cmds, strictPerf);
    forall i | 0 <= i < |ops|
      ensures ReadsBackAs(Concat(cp[i]), ops[i])
    {
      RecordedReadsBack(cmds[i], strictPerf);
    }
  }

  /**
   * The round trip of the command queue: commands recorded on an
   * `IoCmdList` whose pool holds them all, copied into a page by `Submit`
   * (the first `m_writeHead` bytes; the rest of the page keeps what it
   * held), are read back by `ProcessCmdPage` as exactly those commands.
   */
  lemma SubmittedCommandsReadBack(pool: seq<bv8>, oldPage: seq<bv8>, cmds: seq<Cmd>, strictPerf: bool)
    requires |pool| == PoolSize && |oldPage| == PoolSize
    requires forall i :: 0 <= i < |cmds| ==> CmdOk(cmds[i])
    requires |Joined(PartsOf(cmds, strictPerf))| <= PoolSize
    ensures var list := WritesEach(pool, 0, PartsOf(cmds, strictPerf));
            DecodeFrom(list.0[..list.1] + oldPage[list.1..], 0, list.1) == (DecodedAll(cmds, strictPerf), true)
  {
    var cp, ops := PartsOf(cmds, strictPerf), DecodedAll(cmds, strictPerf);
    var all := Joined(cp);
    var list := WritesEach(pool, 0, cp);
    assert list == (Overwrite(pool, 0, all), |all|) by {
      WritesEachWhenAllFit(pool, 0, cp);
    }
    var page := list.0[..list.1] + oldPage[list.1..];
    assert page[0..|all|] == all;
    AllReadBack(cmds, strictPerf);
    DecodeJoined(page, 0, |all|, cp, ops);
  }

  /**
   * `BindIoFileDescriptor` as written records `3 + 8 * size` bytes, but
   * the queue reads a tag and a whole descriptor, 130 bytes: no size makes
   * the two agree, so the queue reads the next command from the wrong
   * place.
   */
  lemma DescriptorAsWrittenIsMisread(page: seq<bv8>, h: nat, d: FileDescriptor, after: seq<bv8>)
    requires DescriptorOk(d) && PointerSize * d.size as nat <= MaxFilePath + |after|
    requires h + 2 + DescriptorSize <= |page| && page[h..h + 2] == TagBytes(BindDescriptor)
    ensures DecodeAt(page, h).Some? && DecodeAt(page, h).value.1 == h + 2 + DescriptorSize
    ensures |Concat(DescriptorPartsAsWritten(d, after))| == 3 + PointerSize * d.size as nat != 2 + DescriptorSize
  {
    TagBytesAreLE(BindDescriptor);
    var ps := DescriptorPartsAsWritten(d, after);
    ConcatOfThree(ps[0], ps[1], ps[2]);
    assert ps == [ps[0], ps[1], ps[2]];
  }

  // ---------------------------------------------------------------------
  // What a page does with files

  /**
   * Whether a file is open after `e`, starting from `open`; `None` when
   * `e` needs the other state: a close, read or seek with no file open,
   * or an open over a file still open.
   */
  function FileAfter(open: bool, e: Effect): Option<bool>
  {
    match e
    case FileClosed => if open then Some(false) else None
    case FileOpened(_, ok) => if open then None else Some(ok)
    case FileRead(_, _, _) => if open then Some(true) else None
    case OffsetSet(_, _) => if open then Some(true) else None
    case _ => Some(open)
  }

  /** `FileAfter` along a trace: whether a file is open at its end, or `None` if some effect is out of place. */
  function Track(open: bool, effs: seq<Effect>): Option<bool>
    decreases |effs|
  {
    if effs == [] then Some(open)
    else
      match FileAfter(open, effs[0])
      case None => None
      case Some(o) => Track(o, effs[1..])
  }

  /** Tracking two traces one after the other. */
  lemma {:induction false} TrackAppend(open: bool, a: seq<Effect>, b: seq<Effect>)
    requires Track(open, a).Some?
    ensures Track(open, a + b) == Track(Track(open, a).value, b)
    decreases |a|
  {
    if a == [] {
      assert a + b == b;
    } else {
      assert (a + b)[0] == a[0] && (a + b)[1..] == a[1..] + b;
      var o := FileAfter(open, a[0]);
      TrackAppend(o.value, a[1..], b);
    }
  }

  /** Assertion reports touch no file. */
  lemma TrackChecks(open: bool, st: IoState, strictPerf: bool)
    ensures Track(open, CheckDescriptor(st, strictPerf)) == Some(open)
    ensures Track(open, CheckDescriptor(st, strictPerf) + CheckTarget(st, strictPerf)) == Some(open)
  {
    TrackAppend(open, CheckDescriptor(st, strictPerf), CheckTarget(st, strictPerf));
  }

  /** Every case of the `switch` uses the file only in the state it is in, and leaves it in the state `IoState` records. */
  lemma StepTracksFile(st: IoState, op: Op, fs: FileSystem, strictPerf: bool)
    ensures Track(st.file.Some?, Step(st, op, fs, strictPerf).1) == Some(Step(st, op, fs, strictPerf).0.file.Some?)
  {
    var open := st.file.Some?;
    var checks := CheckDescriptor(st, strictPerf) + CheckTarget(st, strictPerf);
    TrackChecks(open, st, strictPerf);
    match op
    case BindDescriptorOp(d) =>
      var close := if open then [FileClosed] else [];
      assert Track(open, close) == Some(false);
      TrackAppend(open, close, [FileOpened(d.filename, d.filename in fs)]);
    case ReadEntireOp =>
      var got := if open then ReadEntireEffects(st, st.file.value) else [];
      assert Track(open, got) == Some(open);
      TrackAppend(open, checks, got);
    case ReadPartialOp(n) =>
      var got := if open then [FileRead(st.target, if st.targetSize < 0 then n else st.targetSize, n)] else [];
      TrackAppend(open, checks, got);
    case OffsetOp(o, k) =>
      var seeks := if open then [OffsetSet(o, SeekModeOf(k))] else [];
      TrackAppend(open, CheckDescriptor(st, strictPerf), seeks);
    case _ =>
  }

  /** A run of commands keeps the file use in order and `IoState` in step with it. */
  lemma {:induction false} ExecuteTracksFile(st: IoState, ops: seq<Op>, fs: FileSystem, strictPerf: bool)
    ensures Track(st.file.Some?, Execute(st, ops, fs, strictPerf).1) == Some(Execute(st, ops, fs, strictPerf).0.file.Some?)
    decreases |ops|
  {
    if ops != [] {
      var init := ops[..|ops| - 1];
      var before := Execute(st, init, fs, strictPerf);
      ExecuteTracksFile(st, init, fs, strictPerf);
      StepTracksFile(before.0, ops[|ops| - 1], fs, strictPerf);
      TrackAppend(st.file.Some?, before.1, Step(before.0, ops[|ops| - 1], fs, strictPerf).1);
    }
  }

  /**
   * Whatever a page holds, `ProcessCmdPage` never closes, reads or seeks
   * with no file open, never opens a file over an open one, and leaves no
   * file open when it returns.
   */
  lemma ProcessUsesFilesInOrder(page: seq<bv8>, size: nat, fs: FileSystem, strictPerf: bool)
    ensures Track(false, Process(page, size, fs, strictPerf).0) == Some(false)
  {
    var run := Execute(InitialState(), DecodeFrom(page, 0, size).0, fs, strictPerf);
    ExecuteTracksFile(InitialState(), DecodeFrom(page, 0, size).0, fs, strictPerf);
    TrackAppend(false, run.1, Closing(run.0));
  }

  /**
   * `ReadEntire` on a file below `2^63` bytes reads it exactly when the
   * target is unchecked or holds it, and then never asks for more than the
   * target holds.
   */
  lemma ReadEntireChecksTheTarget(st: IoState, size: nat)
    requires size < U64 / 2 && st.targetSize < U64 / 2
    ensures ReadEntireEffects(st, size) != [] <==> st.targetSize < 0 || size <= st.targetSize
    ensures forall e :: e in ReadEntireEffects(st, size) ==> e == FileRead(st.target, e.bufferSize, size) && size <= e.bufferSize
  {
  }

  /**
   * A file of `2^63` bytes or more wraps to a negative `int64_t` and gets
   * past the check: it is read into a checked target smaller than itself.
   */
  lemma ReadEntireHugeFileGetsPast(st: IoState, size: nat)
    requires U64 / 2 <= size < U64 && 0 <= st.targetSize < U64 / 2
    ensures ReadEntireEffects(st, size) == [FileRead(st.target, st.targetSize, size)]
    ensures st.targetSize < size
  {
  }

  /**
   * `ReadPartial` does not compare the length with a checked target: it
   * hands both to `HeartReadFile`.
   */
  lemma ReadPartialPassesTheLength(st: IoState, n: nat, fs: FileSystem)
    requires st.file.Some? && st.targetSize >= 0
    ensures Step(st, ReadPartialOp(n), fs, true).1 == [FileRead(st.target, st.targetSize, n)]
  {
  }

  // ---------------------------------------------------------------------
  // The loop of ProcessCmdPage

  /** Two pieces read one after the other from a slice are the slice's two parts. */
  lemma ReadsSplit(page: seq<bv8>, h: nat, m: nat, n: nat)
    requires h + m + n <= |page|
    ensures page[h..h + m + n][..m] == page[h..h + m] && page[h..h + m + n][m..] == page[h + m..h + m + n]
  {
  }

  /**
   * The reads of one case of the `switch` after the tag: the fields of
   * that case, each `Read<T>(Copy)` in turn, or for a descriptor
   * `Read<IoFileDescriptor>(GetPtr)` and the object at that offset.
   */
  method ReadOperands(reader: Reader, kind: OpType) returns (op: Op)
    requires reader.head.value + OperandSize(kind) <= reader.buffer.Length
    modifies reader.head
    ensures reader.head.value == old(reader.head.value) + OperandSize(kind)
    ensures op == DecodeOperands(kind, reader.buffer[old(reader.head.value)..reader.head.value])
  {
    if kind == BindDescriptor {
      var p := reader.ReadPtr(DescriptorSize);
      op := BindDescriptorOp(FileDescriptor(reader.buffer[p], reader.buffer[p + 1..p + DescriptorSize]));
      assert reader.buffer[p..p + DescriptorSize][1..] == reader.buffer[p + 1..p + DescriptorSize];
    } else if kind in {BindBufferUnchecked, BindBufferChecked, ReadPartial} {
      op := ReadOneField(reader, kind);
    } else if kind in {Offset, SignalFence, WaitForFence} {
      op := ReadTwoFields(reader, kind);
    } else {
      op := DecodeOperands(kind, []);
    }
  }

  /** The cases that copy one object: a target buffer, or the length of a partial read. */
  method ReadOneField(reader: Reader, kind: OpType) returns (op: Op)
    requires kind in {BindBufferUnchecked, BindBufferChecked, ReadPartial}
    requires reader.head.value + OperandSize(kind) <= reader.buffer.Length
    modifies reader.head
    ensures reader.head.value == old(reader.head.value) + OperandSize(kind)
    ensures op == DecodeOperands(kind, reader.buffer[old(reader.head.value)..reader.head.value])
  {
    var b := reader.ReadCopy(OperandSize(kind));
    if kind == BindBufferUnchecked {
      op := BindUncheckedOp(FromLE(b));
    } else if kind == BindBufferChecked {
      op := BindCheckedOp(FromLE(b[..8]), FromLE(b[8..]));
    } else {
      op := ReadPartialOp(FromLE(b));
    }
  }

  /** The cases that copy two fields: an offset and its `IoOffsetType`, or a fence and a value. */
  method ReadTwoFields(reader: Reader, kind: OpType) returns (op: Op)
    requires kind in {Offset, SignalFence, WaitForFence}
    requires reader.head.value + OperandSize(kind) <= reader.buffer.Length
    modifies reader.head
    ensures reader.head.value == old(reader.head.value) + OperandSize(kind)
    ensures op == DecodeOperands(kind, reader.buffer[old(reader.head.value)..reader.head.value])
  {
    ghost var page, h := reader.buffer[..], reader.head.value;
    var first := reader.ReadCopy(8);
    var second := reader.ReadCopy(OperandSize(kind) - 8);
    ReadsSplit(page, h, 8, OperandSize(kind) - 8);
    if kind == Offset {
      op := OffsetOp(FromSignedLE(first), second[0]);
    } else if kind == SignalFence {
      op := SignalOp(FromLE(first), FromLE(second));
    } else {
      op := WaitOp(FromLE(first), FromLE(second));
    }
  }

  /** One command read at the head: its `IoOpType` tag, then what that case reads. */
  method ReadCommand(reader: Reader) returns (op: Op)
    requires DecodeAt(reader.buffer[..], reader.head.value).Some?
    modifies reader.head
    ensures DecodeAt(reader.buffer[..], old(reader.head.value)) == Some((op, reader.head.value))
  {
    var tagBytes := reader.ReadCopy(2);
    var tag := FromLE(tagBytes);
    var kind := OpOfTag(tag);
    if kind.None? {
      op := UnknownOp(tag);
    } else {
      op := ReadOperands(reader, kind.value);
    }
  }

  /** A page whose reads all stay inside it has a command at every head below its size. */
  lemma CommandAt(page: seq<bv8>, h: nat, size: nat)
    requires h < size && DecodeFrom(page, h, size).1
    ensures DecodeAt(page, h).Some?
  {
  }

  /** Reading one more command moves it from what is left to read to what is done. */
  lemma DecodeAdvance(page: seq<bv8>, h: nat, size: nat, done: seq<Op>, op: Op, next: nat)
    requires h < size && DecodeAt(page, h) == Some((op, next))
    requires DecodeFrom(page, h, size).1 && DecodeFrom(page, 0, size).0 == done + DecodeFrom(page, h, size).0
    ensures DecodeFrom(page, next, size).1 && DecodeFrom(page, 0, size).0 == (done + [op]) + DecodeFrom(page, next, size).0
  {
    DecodeFromStep(page, h, size, op, next);
  }

  /** Nothing is read at or past the size. */
  lemma DecodePastSize(page: seq<bv8>, h: nat, size: nat)
    requires h >= size
    ensures DecodeFrom(page, h, size) == ([], true)
  {
  }

  /**
   * `ProcessCmdPage`: while the read head is below the page's size, read
   * a command and carry it out; the `HeartFile` in `IoState` is closed on
   * the way out. The page must hold every command it announces: the
   * reader does not check its reads.
   */
  method ProcessCmdPage(data: array<bv8>, size: nat, fs: FileSystem, strictPerf: bool) returns (effects: seq<Effect>)
    requires DecodeFrom(data[..], 0, size).1
    ensures effects == Process(data[..], size, fs, strictPerf).0
  {
    var readHead := new Cursor(0);
    var reader := new Reader.WithHead(data, Some(readHead));
    var state := InitialState();
    effects := [];
    ghost var page := data[..];
    ghost var done: seq<Op> := [];
    assert page == data[..] && DecodeFrom(page, 0, size).0 == done + DecodeFrom(page, 0, size).0;
    while readHead.value < size
      invariant reader.buffer == data && reader.head == readHead && page == data[..]
      invariant DecodeFrom(page, readHead.value, size).1
      invariant DecodeFrom(page, 0, size).0 == done + DecodeFrom(page, readHead.value, size).0
      invariant (state, effects) == Execute(InitialState(), done, fs, strictPerf)
      decreases size - readHead.value
    {
      ghost var h := readHead.value;
      CommandAt(page, h, size);
      var op := ReadCommand(reader);
      DecodeAdvance(page, h, size, done, op, readHead.value);
      ExecuteSnoc(InitialState(), done, op, fs, strictPerf);
      var next := Step(state, op, fs, strictPerf);
      state, effects := next.0, effects + next.1;
      done := done + [op];
    }
    DecodePastSize(page, readHead.value, size);
    assert done == DecodeFrom(page, 0, size).0;
    effects := effects + Closing(state);
  }
}
