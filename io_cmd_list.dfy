/**
 * The IO command list of heart/heart-core/src/io/io_cmd_list.cpp.
 *
 * `IoCmdList` records commands in an 8 KiB `m_cmdPool`: each command is a
 * few `HeartStreamWriter::Write` calls at `m_writeHead`, one per field, each
 * of which is skipped on its own when it does not fit (`HEART_CHECK` reports
 * the failure and execution goes on).
 */
module IoCmdList {
  import opened Stream
  import opened Wrappers
  import opened SeqLayout

  /** `8ull * Kilo`: the size of a command pool and of a queue page. */
  const PoolSize: nat := 8192

  /** `MaxFilePath`. */
  const MaxFilePath: nat := 127

  /** `sizeof(IoFileDescriptor)`: a `uint8_t` length and `char m_filename[MaxFilePath]`. */
  const DescriptorSize: nat := 128

  /** `IoOpType`, a `uint16_t` enumeration numbered in this order from 0. */
  datatype OpType =
    | BindDescriptor
    | BindBufferUnchecked
    | BindBufferChecked
    | ReadEntire
    | ReadPartial
    | Offset
    | UnbindDescriptor
    | UnbindTarget
    | Reset
    | SignalFence
    | WaitForFence

  function TagOf(op: OpType): (r: nat)
    ensures r <= 10
  {
    match op
    case BindDescriptor => 0
    case BindBufferUnchecked => 1
    case BindBufferChecked => 2
    case ReadEntire => 3
    case ReadPartial => 4
    case Offset => 5
    case UnbindDescriptor => 6
    case UnbindTarget => 7
    case Reset => 8
    case SignalFence => 9
    case WaitForFence => 10
  }

  /** The `IoOpType` a `uint16_t` value names, if any. */
  function OpOfTag(t: nat): (r: Option<OpType>)
    ensures r.Some? <==> t <= 10
  {
    if t == 0 then Some(BindDescriptor)
    else if t == 1 then Some(BindBufferUnchecked)
    else if t == 2 then Some(BindBufferChecked)
    else if t == 3 then Some(ReadEntire)
    else if t == 4 then Some(ReadPartial)
    else if t == 5 then Some(Offset)
    else if t == 6 then Some(UnbindDescriptor)
    else if t == 7 then Some(UnbindTarget)
    else if t == 8 then Some(Reset)
    else if t == 9 then Some(SignalFence)
    else if t == 10 then Some(WaitForFence)
    else None
  }

  /** The numbering is one to one: each tag names one operation and each operation has one tag. */
  lemma TagsAreInverse(op: OpType, t: nat)
    ensures OpOfTag(TagOf(op)) == Some(op)
    ensures OpOfTag(t) == Some(op) ==> TagOf(op) == t
  {
  }

  /** `IoOffsetType`, a `uint8_t` enumeration. */
  datatype OffsetType = FromStart | FromCurrent | FromEnd

  function OffsetByte(t: OffsetType): bv8
  {
    match t
    case FromStart => 0
    case FromCurrent => 1
    case FromEnd => 2
  }

  /**
   * `IoFileDescriptor`: `m_size` and the whole `m_filename` array, whose
   * bytes past the name are whatever the storage held.
   */
  datatype FileDescriptor = FileDescriptor(size: bv8, filename: seq<bv8>)

  predicate DescriptorOk(d: FileDescriptor)
  {
    |d.filename| == MaxFilePath
  }

  /** The object representation of a descriptor: the length byte, then the array. */
  function DescriptorBytes(d: FileDescriptor): (r: seq<bv8>)
    requires DescriptorOk(d)
    ensures |r| == DescriptorSize && r[0] == d.size && r[1..] == d.filename
  {
    [d.size] + d.filename
  }

  /**
   * `IoFileDescriptor(f, l)`: `m_size = uint8_t(l)` and `memcpy(m_filename, f, l)`,
   * which stays inside the array only when `l <= MaxFilePath`; `storage`
   * is what the array held before.
   */
  function MakeDescriptor(f: seq<bv8>, l: nat, storage: seq<bv8>): (r: FileDescriptor)
    requires l <= MaxFilePath && l <= |f| && |storage| == MaxFilePath
    ensures DescriptorOk(r) && r.size as nat == l
    ensures r.filename[..l] == f[..l] && r.filename[l..] == storage[l..]
  {
    FileDescriptor((l % 256) as bv8, f[..l] + storage[l..])
  }

  /** `IoFileDescriptor(f)`: the length is `strlen(f)`, here a name without NUL bytes. */
  function DescriptorOfName(f: seq<bv8>, storage: seq<bv8>): (r: FileDescriptor)
    requires |f| <= MaxFilePath && |storage| == MaxFilePath
    ensures DescriptorOk(r) && r.size as nat == |f| && r.filename[..|f|] == f
  {
    MakeDescriptor(f, |f|, storage)
  }

  /** A command as its encoder receives it. Pointers are addresses below 2^64. */
  datatype Cmd =
    | BindDescriptorCmd(d: FileDescriptor)
    | BindUncheckedCmd(ptr: nat)
    | BindCheckedCmd(ptr: nat, bufferSize: nat)
    | ReadEntireCmd
    | ReadPartialCmd(readLength: nat)
    | OffsetCmd(offset: int, kind: OffsetType)
    | UnbindDescriptorCmd
    | UnbindTargetCmd
    | ResetCmd
    | SignalCmd(fence: nat, value: nat)
    | WaitCmd(fence: nat, value: nat)

  /** Every field fits the C++ type it is written as. */
  predicate CmdOk(c: Cmd)
  {
    match c
    case BindDescriptorCmd(d) => DescriptorOk(d)
    case BindUncheckedCmd(p) => p < Pow256(8)
    case BindCheckedCmd(p, n) => p < Pow256(8) && n < Pow256(8)
    case ReadPartialCmd(n) => n < Pow256(8)
    case OffsetCmd(o, _) => -(Pow256(8) as int) / 2 <= o < Pow256(8) / 2
    case SignalCmd(f, v) => f < Pow256(8) && v < Pow256(4)
    case WaitCmd(f, v) => f < Pow256(8) && v < Pow256(4)
    case _ => true
  }

  /** The two bytes of an `IoOpType`: its number, then 0. */
  function TagBytes(op: OpType): (r: seq<bv8>)
    ensures |r| == 2
  {
    [TagOf(op) as bv8, 0]
  }

  /** They are the `uint16_t`'s little-endian bytes, and a reader of them gets the operation back. */
  lemma TagBytesAreLE(op: OpType)
    ensures TagBytes(op) == LE(TagOf(op), 2)
    ensures OpOfTag(FromLE(TagBytes(op))) == Some(op)
  {
    var t := TagOf(op);
    SmallLE(t);
    FromLEOfLE(t, 2);
    TagsAreInverse(op, t);
  }

  /** A value below 256 is its own low byte followed by a zero byte. */
  lemma SmallLE(t: nat)
    requires t < 256
    ensures LE(t, 2) == [t as bv8, 0]
  {
    assert t % 256 == t && t / 256 == 0;
    assert LE(t, 2) == [(t % 256) as bv8] + LE(t / 256, 1);
    assert LE(0, 1) == [0] + LE(0, 0);
  }

  /**
   * The `Write` calls of each command, field by field, as the decoder
   * expects them: a descriptor written whole. `strictPerf` is
   * `HEART_STRICT_PERF`, under which a checked buffer is recorded as an
   * unchecked one.
   */
  function Parts(c: Cmd, strictPerf: bool): (r: seq<seq<bv8>>)
    requires CmdOk(c)
    ensures r != [] && |r[0]| == 2
  {
    match c
    case BindDescriptorCmd(d) => [TagBytes(BindDescriptor), DescriptorBytes(d)]
    case BindUncheckedCmd(p) => [TagBytes(BindBufferUnchecked), LE(p, 8)]
    case BindCheckedCmd(p, n) =>
      if strictPerf then [TagBytes(BindBufferUnchecked), LE(p, 8)]
      else [TagBytes(BindBufferChecked), LE(p, 8) + LE(n, 8)]
    case ReadEntireCmd => [TagBytes(ReadEntire)]
    case ReadPartialCmd(n) => [TagBytes(ReadPartial), LE(n, 8)]
    case OffsetCmd(o, t) => [TagBytes(Offset), SignedLE(o, 8), [OffsetByte(t)]]
    case UnbindDescriptorCmd => [TagBytes(UnbindDescriptor)]
    case UnbindTargetCmd => [TagBytes(UnbindTarget)]
    case ResetCmd => [TagBytes(Reset)]
    case SignalCmd(f, v) => [TagBytes(SignalFence), LE(f, 8), LE(v, 4)]
    case WaitCmd(f, v) => [TagBytes(WaitForFence), LE(f, 8), LE(v, 4)]
  }

  /**
   * `BindIoFileDescriptor` as written: the tag, `d.GetSize()` as one byte,
   * then `Write(d.GetFilename(), d.GetSize())`, which copies
   * `sizeof(char*) * size` bytes starting at the filename array; `after`
   * is the memory that follows the descriptor.
   */
  function DescriptorPartsAsWritten(d: FileDescriptor, after: seq<bv8>): (r: seq<seq<bv8>>)
    requires DescriptorOk(d) && PointerSize * d.size as nat <= MaxFilePath + |after|
    ensures |r| == 3 && |r[2]| == PointerSize * d.size as nat
  {
    [TagBytes(BindDescriptor), [d.size], (d.filename + after)[..PointerSize * d.size as nat]]
  }

  /** The bytes a command occupies when every write fits. */
  function Encoding(c: Cmd, strictPerf: bool): seq<bv8>
    requires CmdOk(c)
  {
    Concat(Parts(c, strictPerf))
  }

  /** Every encoding begins with the command's `IoOpType`. */
  lemma EncodingStartsWithTag(c: Cmd, strictPerf: bool)
    requires CmdOk(c)
    ensures Encoding(c, strictPerf)[..2] == Parts(c, strictPerf)[0]
    ensures c.BindCheckedCmd? && strictPerf ==> Encoding(c, strictPerf)[..2] == TagBytes(BindBufferUnchecked)
    ensures !(c.BindCheckedCmd? && strictPerf) ==> Encoding(c, strictPerf)[..2] == TagBytes(OpOfCmd(c))
  {
    var ps := Parts(c, strictPerf);
    assert Concat(ps) == ps[0] + Concat(ps[1..]);
  }

  /** The `IoOpType` a command is recorded under, strict-perf builds aside. */
  function OpOfCmd(c: Cmd): OpType
  {
    match c
    case BindDescriptorCmd(_) => BindDescriptor
    case BindUncheckedCmd(_) => BindBufferUnchecked
    case BindCheckedCmd(_, _) => BindBufferChecked
    case ReadEntireCmd => ReadEntire
    case ReadPartialCmd(_) => ReadPartial
    case OffsetCmd(_, _) => Offset
    case UnbindDescriptorCmd => UnbindDescriptor
    case UnbindTargetCmd => UnbindTarget
    case ResetCmd => Reset
    case SignalCmd(_, _) => SignalFence
    case WaitCmd(_, _) => WaitForFence
  }

  /**
   * The pool and head after a sequence of `HEART_CHECK(writer.Write(..))`
   * calls: each one that fits is copied at the head, each one that does
   * not is skipped.
   */
  function Writes(buf: seq<bv8>, h: nat, parts: seq<seq<bv8>>): (r: (seq<bv8>, nat))
    requires h <= |buf|
    ensures |r.0| == |buf| && h <= r.1 <= |buf|
    decreases |parts|
  {
    if parts == [] then (buf, h)
    else if Fits(|buf|, h, |parts[0]|) then Writes(Overwrite(buf, h, parts[0]), h + |parts[0]|, parts[1..])
    else Writes(buf, h, parts[1..])
  }

  /** Two copies side by side are one copy of the concatenation. */
  lemma OverwriteTwice(buf: seq<bv8>, h: nat, a: seq<bv8>, b: seq<bv8>)
    requires h + |a| + |b| <= |buf|
    ensures Overwrite(Overwrite(buf, h, a), h + |a|, b) == Overwrite(buf, h, a + b)
  {
    var l, r := Overwrite(Overwrite(buf, h, a), h + |a|, b), Overwrite(buf, h, a + b);
    assert |l| == |r|;
    forall i | 0 <= i < |l|
      ensures l[i] == r[i]
    {
      if i < h {
        assert l[i] == buf[..h][i];
      } else if i < h + |a| {
        assert l[i] == Overwrite(buf, h, a)[i] == a[i - h];
      } else if i < h + |a| + |b| {
        assert l[i] == b[i - h - |a|];
      } else {
        assert l[i] == buf[h + |a| + |b|..][i - h - |a| - |b|];
      }
    }
  }

  /** When the whole encoding fits, the writes lay it down at the head and move the head past it. */
  lemma {:induction false} WritesWhenAllFit(buf: seq<bv8>, h: nat, parts: seq<seq<bv8>>)
    requires h + |Concat(parts)| <= |buf|
    ensures Writes(buf, h, parts) == (Overwrite(buf, h, Concat(parts)), h + |Concat(parts)|)
    decreases |parts|
  {
    if parts == [] {
      assert Overwrite(buf, h, []) == buf;
    } else {
      var p, rest := parts[0], parts[1..];
      assert Concat(parts) == p + Concat(rest);
      WritesWhenAllFit(Overwrite(buf, h, p), h + |p|, rest);
      OverwriteTwice(buf, h, p, Concat(rest));
    }
  }

  /** Three writes are the first two, then the third. */
  lemma WritesOfThree(buf: seq<bv8>, h: nat, ps: seq<seq<bv8>>, mid: seq<bv8>, hm: nat)
    requires h <= |buf| && |ps| == 3
    requires (mid, hm) == Writes(buf, h, ps[..2])
    ensures Writes(buf, h, ps) == Writes(mid, hm, [ps[2]])
  {
    WritesStep(buf, h, ps);
    WritesStep(buf, h, ps[..2]);
    assert ps[1..][1..] == [ps[2]] && ps[..2][1..] == [ps[1]];
    var b1, h1 := if Fits(|buf|, h, |ps[0]|) then Overwrite(buf, h, ps[0]) else buf, if Fits(|buf|, h, |ps[0]|) then h + |ps[0]| else h;
    WritesStep(b1, h1, ps[1..]);
    WritesStep(b1, h1, [ps[1]]);
    assert [ps[1]][1..] == [];
  }

  /** A write that fits changes nothing before the head. */
  lemma {:induction false} WritesKeepPrefix(buf: seq<bv8>, h: nat, parts: seq<seq<bv8>>)
    requires h <= |buf|
    ensures Writes(buf, h, parts).0[..h] == buf[..h]
    decreases |parts|
  {
    if parts != [] {
      if Fits(|buf|, h, |parts[0]|) {
        var b := Overwrite(buf, h, parts[0]);
        WritesKeepPrefix(b, h + |parts[0]|, parts[1..]);
        assert Writes(buf, h, parts).0[..h] == Writes(b, h + |parts[0]|, parts[1..]).0[..h + |parts[0]|][..h];
      } else {
        WritesKeepPrefix(buf, h, parts[1..]);
      }
    }
  }

  /**
   * Three writes of 2, 8 and 1 bytes with three bytes of room: the first
   * and the last land side by side and the middle one is dropped.
   */
  lemma SkipsTheMiddleWrite(buf: seq<bv8>, a: seq<bv8>, b: seq<bv8>, c: seq<bv8>)
    requires |buf| >= 3 && |a| == 2 && |b| == 8 && |c| == 1
    ensures Writes(buf, |buf| - 3, [a, b, c]).1 == |buf|
    ensures Writes(buf, |buf| - 3, [a, b, c]).0[|buf| - 3..] == a + c
  {
    var h := |buf| - 3;
    var b1 := Overwrite(buf, h, a);
    WritesStep(buf, h, [a, b, c]);
    WritesStep(b1, h + 2, [b, c]);
    WritesStep(b1, h + 2, [c]);
    LastTwoWrites(buf, a, c);
  }

  lemma LastTwoWrites(buf: seq<bv8>, a: seq<bv8>, c: seq<bv8>)
    requires |buf| >= 3 && |a| == 2 && |c| == 1
    ensures Overwrite(Overwrite(buf, |buf| - 3, a), |buf| - 1, c)[|buf| - 3..] == a + c
  {
    var h := |buf| - 3;
    var b1 := Overwrite(buf, h, a);
    assert Overwrite(b1, h + 2, c) == b1[..h + 2] + c;
    assert b1[..h + 2] == buf[..h] + a;
  }

  /** One step of `Writes`. */
  lemma WritesStep(buf: seq<bv8>, h: nat, parts: seq<seq<bv8>>)
    requires h <= |buf| && parts != []
    ensures Fits(|buf|, h, |parts[0]|) ==> Writes(buf, h, parts) == Writes(Overwrite(buf, h, parts[0]), h + |parts[0]|, parts[1..])
    ensures !Fits(|buf|, h, |parts[0]|) ==> Writes(buf, h, parts) == Writes(buf, h, parts[1..])
  {
  }

  /**
   * So with three bytes of room an `Offset` keeps its tag and its
   * `IoOffsetType` but drops the eight offset bytes between them.
   */
  lemma OffsetSkipsTheOffset(buf: seq<bv8>, o: int, t: OffsetType)
    requires |buf| >= 3 && -(Pow256(8) as int) / 2 <= o < Pow256(8) / 2
    ensures Writes(buf, |buf| - 3, Parts(OffsetCmd(o, t), false)).0[|buf| - 3..] == TagBytes(Offset) + [OffsetByte(t)]
  {
    var a, b, c := TagBytes(Offset), SignedLE(o, 8), [OffsetByte(t)];
    assert Parts(OffsetCmd(o, t), false) == [a, b, c];
    SkipsTheMiddleWrite(buf, a, b, c);
  }

  class CmdList {
    /** `m_cmdPool`. */
    const pool: array<bv8>
    /** `m_writeHead`, the head every command's writer advances. */
    const writeHead: Cursor
    /** `HEART_STRICT_PERF` in the build. */
    const strictPerf: bool

    ghost predicate Valid()
      reads this, writeHead
    {
      pool.Length == PoolSize && writeHead.value <= PoolSize
    }

    /** A fresh list: `m_writeHead = 0`. */
    constructor (strict: bool)
      ensures Valid() && fresh(pool) && fresh(writeHead) && writeHead.value == 0 && strictPerf == strict
    {
      pool := new bv8[PoolSize](_ => 0);
      writeHead := new Cursor(0);
      strictPerf := strict;
    }

    /** `BindIoFileDescriptor(d)` as written; `after` is the memory past `d`. */
    method BindIoFileDescriptor(d: FileDescriptor, after: seq<bv8>)
      requires Valid() && DescriptorOk(d) && PointerSize * d.size as nat <= MaxFilePath + |after|
      modifies pool, writeHead
      ensures Valid()
      ensures (pool[..], writeHead.value) == Writes(old(pool[..]), old(writeHead.value), DescriptorPartsAsWritten(d, after))
    {
      var ps := DescriptorPartsAsWritten(d, after);
      WriteTwo(TagBytes(BindDescriptor), [d.size]);
      ghost var b2, h2 := pool[..], writeHead.value;
      var writer := new Writer.FromArray(pool, writeHead);
      var ok := writer.WriteScaled(d.filename + after, d.size as nat);
      assert ps[..2] == [TagBytes(BindDescriptor), [d.size]];
      WritesOfThree(old(pool[..]), old(writeHead.value), ps, b2, h2);
      assert Writes(b2, h2, [ps[2]]) == (pool[..], writeHead.value) by {
        assert [ps[2]][1..] == [];
      }
    }

    /**
     * `BindIoFileDescriptor(d)` as the queue reads it back: the tag, then
     * the descriptor object whole (`Write(d)`).
     */
    method BindIoFileDescriptorWhole(d: FileDescriptor)
      requires Valid() && DescriptorOk(d)
      modifies pool, writeHead
      ensures Valid()
      ensures (pool[..], writeHead.value) == Writes(old(pool[..]), old(writeHead.value), Parts(BindDescriptorCmd(d), strictPerf))
    {
      WriteTwo(TagBytes(BindDescriptor), DescriptorBytes(d));
    }

    /** `BindIoTargetBuffer(IoUncheckedTargetBuffer)`. */
    method BindIoTargetBufferUnchecked(ptr: nat)
      requires Valid() && ptr < Pow256(8)
      modifies pool, writeHead
      ensures Valid()
      ensures (pool[..], writeHead.value) == Writes(old(pool[..]), old(writeHead.value), Parts(BindUncheckedCmd(ptr), strictPerf))
    {
      WriteTwo(TagBytes(BindBufferUnchecked), LE(ptr, 8));
    }

    /** `BindIoTargetBuffer(IoCheckedTargetBuffer)`: unchecked in strict-perf builds. */
    method BindIoTargetBufferChecked(ptr: nat, size: nat)
      requires Valid() && ptr < Pow256(8) && size < Pow256(8)
      modifies pool, writeHead
      ensures Valid()
      ensures (pool[..], writeHead.value) == Writes(old(pool[..]), old(writeHead.value), Parts(BindCheckedCmd(ptr, size), strictPerf))
    {
      if !strictPerf {
        WriteTwo(TagBytes(BindBufferChecked), LE(ptr, 8) + LE(size, 8));
      } else {
        WriteTwo(TagBytes(BindBufferUnchecked), LE(ptr, 8));
      }
    }

    /** `ReadEntire()`. */
    method ReadEntire()
      requires Valid()
      modifies pool, writeHead
      ensures Valid()
      ensures (pool[..], writeHead.value) == Writes(old(pool[..]), old(writeHead.value), Parts(ReadEntireCmd, strictPerf))
    {
      WriteOne(TagBytes(OpType.ReadEntire));
    }

    /** `ReadPartial(readLength)`. */
    method ReadPartial(readLength: nat)
      requires Valid() && readLength < Pow256(8)
      modifies pool, writeHead
      ensures Valid()
      ensures (pool[..], writeHead.value) == Writes(old(pool[..]), old(writeHead.value), Parts(ReadPartialCmd(readLength), strictPerf))
    {
      WriteTwo(TagBytes(OpType.ReadPartial), LE(readLength, 8));
    }

    /** `Offset(offset, type)`. */
    method Offset(offset: int, kind: OffsetType)
      requires Valid() && -(Pow256(8) as int) / 2 <= offset < Pow256(8) / 2
      modifies pool, writeHead
      ensures Valid()
      ensures (pool[..], writeHead.value) == Writes(old(pool[..]), old(writeHead.value), Parts(OffsetCmd(offset, kind), strictPerf))
    {
      WriteThree(TagBytes(OpType.Offset), SignedLE(offset, 8), [OffsetByte(kind)]);
    }

    /** `UnbindFileDescriptor()`. */
    method UnbindFileDescriptor()
      requires Valid()
      modifies pool, writeHead
      ensures Valid()
      ensures (pool[..], writeHead.value) == Writes(old(pool[..]), old(writeHead.value), Parts(UnbindDescriptorCmd, strictPerf))
    {
      WriteOne(TagBytes(UnbindDescriptor));
    }

    /** `UnbindTargetBuffer()`. */
    method UnbindTargetBuffer()
      requires Valid()
      modifies pool, writeHead
      ensures Valid()
      ensures (pool[..], writeHead.value) == Writes(old(pool[..]), old(writeHead.value), Parts(UnbindTargetCmd, strictPerf))
    {
      WriteOne(TagBytes(UnbindTarget));
    }

    /** `Signal(fence, value)`. */
    method Signal(fence: nat, value: nat)
      requires Valid() && fence < Pow256(8) && value < Pow256(4)
      modifies pool, writeHead
      ensures Valid()
      ensures (pool[..], writeHead.value) == Writes(old(pool[..]), old(writeHead.value), Parts(SignalCmd(fence, value), strictPerf))
    {
      WriteThree(TagBytes(SignalFence), LE(fence, 8), LE(value, 4));
    }

    /** `Wait(fence, value)`. */
    method Wait(fence: nat, value: nat)
      requires Valid() && fence < Pow256(8) && value < Pow256(4)
      modifies pool, writeHead
      ensures Valid()
      ensures (pool[..], writeHead.value) == Writes(old(pool[..]), old(writeHead.value), Parts(WaitCmd(fence, value), strictPerf))
    {
      WriteThree(TagBytes(WaitForFence), LE(fence, 8), LE(value, 4));
    }

    /** `Reset()`. */
    method Reset()
      requires Valid()
      modifies pool, writeHead
      ensures Valid()
      ensures (pool[..], writeHead.value) == Writes(old(pool[..]), old(writeHead.value), Parts(ResetCmd, strictPerf))
    {
      WriteOne(TagBytes(OpType.Reset));
    }

    /** `Finalize()`: the list starts over at the beginning of the pool. */
    method Finalize()
      requires Valid()
      modifies writeHead
      ensures Valid() && writeHead.value == 0
    {
      writeHead.value := 0;
    }

    /** A command of one field: one writer, one `Write`. */
    method WriteOne(a: seq<bv8>)
      requires Valid()
      modifies pool, writeHead
      ensures Valid()
      ensures (pool[..], writeHead.value) == Writes(old(pool[..]), old(writeHead.value), [a])
    {
      var writer := new Writer.FromArray(pool, writeHead);
      var ok := writer.Write(a);
      assert [a][1..] == [];
    }

    /** A command of two fields: one writer, two `Write`s. */
    method WriteTwo(a: seq<bv8>, b: seq<bv8>)
      requires Valid()
      modifies pool, writeHead
      ensures Valid()
      ensures (pool[..], writeHead.value) == Writes(old(pool[..]), old(writeHead.value), [a, b])
    {
      ghost var b0, h0 := pool[..], writeHead.value;
      var writer := new Writer.FromArray(pool, writeHead);
      var ok := writer.Write(a);
      assert [a, b][1..] == [b] && [b][1..] == [];
      assert Writes(b0, h0, [a, b]) == Writes(pool[..], writeHead.value, [b]);
      ghost var b1, h1 := pool[..], writeHead.value;
      ok := writer.Write(b);
      assert Writes(b1, h1, [b]) == Writes(pool[..], writeHead.value, []);
    }

    /** A command of three fields: one writer, three `Write`s. */
    method WriteThree(a: seq<bv8>, b: seq<bv8>, c: seq<bv8>)
      requires Valid()
      modifies pool, writeHead
      ensures Valid()
      ensures (pool[..], writeHead.value) == Writes(old(pool[..]), old(writeHead.value), [a, b, c])
    {
      ghost var b0, h0 := pool[..], writeHead.value;
      var writer := new Writer.FromArray(pool, writeHead);
      var ok := writer.Write(a);
      assert [a, b, c][1..] == [b, c] && [b, c][1..] == [c] && [c][1..] == [];
      assert Writes(b0, h0, [a, b, c]) == Writes(pool[..], writeHead.value, [b, c]);
      ghost var b1, h1 := pool[..], writeHead.value;
      ok := writer.Write(b);
      assert Writes(b1, h1, [b, c]) == Writes(pool[..], writeHead.value, [c]);
      ghost var b2, h2 := pool[..], writeHead.value;
      ok := writer.Write(c);
      assert Writes(b2, h2, [c]) == Writes(pool[..], writeHead.value, []);
    }
  }
}
