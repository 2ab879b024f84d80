// The demo's pool allocator: a byte buffer threaded by a doubly linked
// list of node headers (pools.h, pools.cpp). Every header sits in the
// buffer itself, so a pointer is an offset from the buffer start and a
// header is a record stored at that offset. `Memory` maps each offset at
// which a header was ever constructed to its latest contents: headers that
// the list no longer reaches stay readable, as they do in the buffer.
module Pools {
  import opened Wrappers

  /** sizeof(Node): three 8-byte fields, aligned to 32. */
  const NodeSize: nat := 32
  const BlockSize: nat := 256
  const BlockEndBuffer: nat := 0
  /** Requests and sizes are size_t, which wraps at 2^64. */
  const SizeMax: nat := 0x1_0000_0000_0000_0000
  const MinimumPoolSize: nat := 64

  /** Rounds a request up to whole blocks, in size_t arithmetic. */
  function ToNearestBlockSize(n: nat): (r: nat)
    requires n < SizeMax
    ensures r < SizeMax && r % BlockSize == 0
    ensures n <= SizeMax - BlockSize ==> n <= r < n + BlockSize
    ensures n > SizeMax - BlockSize ==> r == 0
  {
    var p1 := n % BlockSize;
    var x := n / BlockSize;
    ((x + if p1 > 0 then 1 else 0) * BlockSize) % SizeMax
  }

  /** A node header; `prev` and `next` are offsets, None is nullptr. */
  datatype Node = Node(prev: Option<nat>, next: Option<nat>, size: nat)

  type Memory = map<nat, Node>

  /** Every link leads to a header that exists, forward to a higher
      offset and backward to a lower one. */
  ghost predicate Linked(mem: Memory)
  {
    forall a | a in mem ::
      (mem[a].next.Some? ==> mem[a].next.value in mem && a < mem[a].next.value) &&
      (mem[a].prev.Some? ==> mem[a].prev.value in mem && mem[a].prev.value < a)
  }

  ghost function Above(keys: set<nat>, a: nat): set<nat>
  {
    set k | k in keys && a < k
  }

  lemma AboveShrinks(keys: set<nat>, a: nat, b: nat)
    requires a < b && b in keys
    ensures |Above(keys, b)| < |Above(keys, a)|
  {
    var rest := Above(keys, a) - {b};
    assert b in Above(keys, a);
    assert |rest| == |Above(keys, a)| - 1;
    assert Above(keys, b) <= rest;
    SubsetNoLarger(Above(keys, b), rest);
  }

  lemma {:induction false} SubsetNoLarger(s: set<nat>, t: set<nat>)
    requires s <= t
    ensures |s| <= |t|
    decreases |s|
  {
    if s != {} {
      var x :| x in s;
      SubsetNoLarger(s - {x}, t - {x});
    }
  }

  /** Where the space after header `a` ends: the next header, or `end`. */
  function Bound(mem: Memory, a: nat, end: int): int
    requires a in mem
  {
    if mem[a].next.Some? then mem[a].next.value else end
  }

  /** A `size_t` difference returned as `ptrdiff_t`: reduced modulo 2^64,
      then read in two's complement. */
  function AsPtrdiff(x: int): (r: int)
    ensures -(SizeMax / 2) <= r < SizeMax / 2
    ensures (r - x) % SizeMax == 0
  {
    var y := x % SizeMax;
    if y >= SizeMax / 2 then y - SizeMax else y
  }

  /** A difference already inside the `ptrdiff_t` range comes back unchanged. */
  lemma AsPtrdiffInRange(x: int)
    requires -(SizeMax / 2) <= x < SizeMax / 2
    ensures AsPtrdiff(x) == x
  {
    if x < 0 {
      assert x % SizeMax == x + SizeMax;
    }
  }

  /** CalculateRemainingGap: the room left after placing `target` bytes
      behind header `a`. The byte distance (a `ptrdiff_t`) minus the
      `size_t` request is computed in `size_t` and returned as `ptrdiff_t`,
      so it is negative when they do not fit unless the subtraction wraps. */
  function RemainingGap(mem: Memory, a: nat, target: nat, end: int): int
    requires a in mem
  {
    AsPtrdiff(Bound(mem, a, end) - (a + NodeSize) - target)
  }

  /** The pool end as the source computes it: `head_ + size_` on a Node*,
      which steps `size_` whole headers rather than `size_` bytes. */
  function AsWrittenEnd(poolSize: nat): nat
  {
    NodeSize * poolSize
  }

  /** The pool end evidently intended: `size_` bytes past the head. */
  function IntendedEnd(poolSize: nat): nat
  {
    poolSize
  }

  ghost predicate Fits(mem: Memory, a: nat, target: nat, end: int)
    requires a in mem
  {
    mem[a].size == 0 && RemainingGap(mem, a, target, end) >= 0
  }

  /** The outcome of Allocate's search. */
  datatype Fit = Found(node: nat) | Exhausted | NullDeref

  /** Allocate's outer loop at header `a`: take it when it is free and the
      request fits; give up at the last header; otherwise step forward. */
  ghost function FirstFit(mem: Memory, a: nat, target: nat, end: int): (r: Fit)
    requires Linked(mem) && a in mem
    ensures r.Found? ==> r.node in mem && Fits(mem, r.node, target, end)
    decreases |Above(mem.Keys, a)|, 1
  {
    if Fits(mem, a, target, end) then Found(a)
    else if mem[a].next.None? then Exhausted
    else
      var n := mem[a].next.value;
      AboveShrinks(mem.Keys, a, n);
      SkipToFree(mem, n, target, end)
  }

  /** Allocate's inner do-while: skip allocated headers; running off the
      end of the list there dereferences nullptr. */
  ghost function SkipToFree(mem: Memory, a: nat, target: nat, end: int): (r: Fit)
    requires Linked(mem) && a in mem
    ensures r.Found? ==> r.node in mem && Fits(mem, r.node, target, end)
    decreases |Above(mem.Keys, a)|, 2
  {
    if mem[a].size == 0 then FirstFit(mem, a, target, end)
    else if mem[a].next.None? then NullDeref
    else
      var n := mem[a].next.value;
      AboveShrinks(mem.Keys, a, n);
      SkipToFree(mem, n, target, end)
  }

  /** The headers reached from `a` by following `next`, in list order. */
  ghost function Chain(mem: Memory, a: nat): (c: seq<nat>)
    requires Linked(mem) && a in mem
    ensures |c| > 0 && c[0] == a
    ensures forall i | 0 <= i < |c| :: c[i] in mem
    decreases |Above(mem.Keys, a)|
  {
    if mem[a].next.None? then [a]
    else
      var n := mem[a].next.value;
      AboveShrinks(mem.Keys, a, n);
      [a] + Chain(mem, n)
  }

  ghost predicate NoneFits(mem: Memory, c: seq<nat>, target: nat, end: int)
    requires forall i | 0 <= i < |c| :: c[i] in mem
  {
    forall j | 0 <= j < |c| :: !Fits(mem, c[j], target, end)
  }

  ghost function Last(c: seq<nat>): nat
    requires |c| > 0
  {
    c[|c| - 1]
  }

  /** First fit: Allocate takes the first header in list order that is free
      and fits. With none, it returns null when the list ends in a free
      header (or is the head alone) and dereferences null otherwise. */
  lemma {:induction false} FirstFitIsFirst(mem: Memory, a: nat, target: nat, end: int) returns (i: nat)
    requires Linked(mem) && a in mem
    ensures var c := Chain(mem, a);
      FirstFit(mem, a, target, end).Found? ==>
        i < |c| && c[i] == FirstFit(mem, a, target, end).node && Fits(mem, c[i], target, end) &&
        forall j | 0 <= j < i :: !Fits(mem, c[j], target, end)
    ensures var c := Chain(mem, a);
      FirstFit(mem, a, target, end).Exhausted? <==>
        NoneFits(mem, c, target, end) && (|c| == 1 || mem[Last(c)].size == 0)
    ensures var c := Chain(mem, a);
      FirstFit(mem, a, target, end).NullDeref? <==>
        NoneFits(mem, c, target, end) && |c| > 1 && mem[Last(c)].size != 0
    decreases |Above(mem.Keys, a)|, 1
  {
    var c := Chain(mem, a);
    i := 0;
    if Fits(mem, a, target, end) {
    } else if mem[a].next.None? {
      assert c == [a];
    } else {
      var n := mem[a].next.value;
      AboveShrinks(mem.Keys, a, n);
      var k := SkipToFreeIsFirst(mem, n, target, end);
      assert c == [a] + Chain(mem, n);
      i := k + 1;
    }
  }

  lemma {:induction false} SkipToFreeIsFirst(mem: Memory, a: nat, target: nat, end: int) returns (i: nat)
    requires Linked(mem) && a in mem
    ensures var c := Chain(mem, a);
      SkipToFree(mem, a, target, end).Found? ==>
        i < |c| && c[i] == SkipToFree(mem, a, target, end).node && Fits(mem, c[i], target, end) &&
        forall j | 0 <= j < i :: !Fits(mem, c[j], target, end)
    ensures var c := Chain(mem, a);
      SkipToFree(mem, a, target, end).Exhausted? <==>
        NoneFits(mem, c, target, end) && mem[Last(c)].size == 0
    ensures var c := Chain(mem, a);
      SkipToFree(mem, a, target, end).NullDeref? <==>
        NoneFits(mem, c, target, end) && mem[Last(c)].size != 0
    decreases |Above(mem.Keys, a)|, 2
  {
    var c := Chain(mem, a);
    i := 0;
    if mem[a].size == 0 {
      i := FirstFitIsFirst(mem, a, target, end);
    } else if mem[a].next.None? {
      assert c == [a];
    } else {
      var n := mem[a].next.value;
      AboveShrinks(mem.Keys, a, n);
      var k := SkipToFreeIsFirst(mem, n, target, end);
      assert c == [a] + Chain(mem, n);
      i := k + 1;
    }
  }

  /** Allocate's success path at free header `n`: record the rounded size
      and, only when `n` was the last header, construct an empty header
      right behind the block and link it in. */
  function Placed(mem: Memory, n: nat, size: nat): (r: Memory)
    requires n in mem
  {
    var m := mem[n := mem[n].(size := size)];
    if mem[n].next.None? then
      var pos := NextNodePos(n, size);
      m[pos := Node(Some(n), None, 0)][n := m[n].(next := Some(pos))]
    else m
  }

  function NextNodePos(n: nat, size: nat): nat
  {
    n + NodeSize + size + BlockEndBuffer
  }

  /** Allocation changes the chosen header and, when it was last, adds one
      free header after it; every other header keeps its contents. */
  lemma {:induction false} PlacedShape(mem: Memory, n: nat, size: nat)
    requires Linked(mem) && n in mem
    ensures var r := Placed(mem, n, size);
      Linked(r) && r[n].size == size && r[n].prev == mem[n].prev &&
      (mem[n].next.Some? ==> r.Keys == mem.Keys && r[n].next == mem[n].next) &&
      (mem[n].next.None? ==> var pos := NextNodePos(n, size);
        r.Keys == mem.Keys + {pos} && r[n].next == Some(pos) && r[pos] == Node(Some(n), None, 0)) &&
      forall a | a in mem && a != n && a != NextNodePos(n, size) :: r[a] == mem[a]
  {
    var r := Placed(mem, n, size);
    forall a | a in r
      ensures (r[a].next.Some? ==> r[a].next.value in r && a < r[a].next.value) &&
              (r[a].prev.Some? ==> r[a].prev.value in r && r[a].prev.value < a)
    {
      if a != n && !(a == NextNodePos(n, size) && mem[n].next.None?) {
        assert r[a] == mem[a];
      }
    }
  }

  /** Allocation keeps the list order of every list through the chosen
      header, and extends it by the new empty header when that was last. */
  lemma {:induction false} PlacedChain(mem: Memory, a: nat, n: nat, size: nat)
    requires Linked(mem) && a in mem && n in Chain(mem, a)
    ensures var r := Placed(mem, n, size);
      Linked(r) && a in r &&
      Chain(r, a) == Chain(mem, a) + if mem[n].next.None? then [NextNodePos(n, size)] else []
    decreases |Above(mem.Keys, a)|
  {
    PlacedShape(mem, n, size);
    var r := Placed(mem, n, size);
    var pos := NextNodePos(n, size);
    ChainAbove(mem, a);
    if a == n {
      if mem[n].next.None? {
        assert Chain(r, pos) == [pos];
      } else {
        var m := mem[n].next.value;
        ChainAbove(mem, m);
        ChainUnchanged(mem, r, m, n, n);
      }
    } else {
      var m := mem[a].next.value;
      assert r[a] == mem[a];
      AboveShrinks(mem.Keys, a, m);
      PlacedChain(mem, m, n, size);
    }
  }

  /** Every header on a list after `a` lies above `a`. */
  lemma {:induction false} ChainAbove(mem: Memory, a: nat)
    requires Linked(mem) && a in mem
    ensures forall i | 0 < i < |Chain(mem, a)| :: a < Chain(mem, a)[i]
    ensures mem[a].next.None? <==> |Chain(mem, a)| == 1
    decreases |Above(mem.Keys, a)|
  {
    if mem[a].next.Some? {
      var n := mem[a].next.value;
      AboveShrinks(mem.Keys, a, n);
      ChainAbove(mem, n);
    }
  }

  /** A list that avoids the headers at `x` and `y` is the same in any
      memory that differs from `mem` only there. */
  lemma {:induction false} ChainUnchanged(mem: Memory, r: Memory, a: nat, x: nat, y: nat)
    requires Linked(mem) && Linked(r) && a in mem && x < a
    requires forall k | k in mem && k != x && k != y :: k in r && r[k] == mem[k]
    requires forall i | 0 <= i < |Chain(mem, a)| :: Chain(mem, a)[i] != y
    ensures a in r && Chain(r, a) == Chain(mem, a)
    decreases |Above(mem.Keys, a)|
  {
    var c := Chain(mem, a);
    assert c[0] == a;
    if mem[a].next.Some? {
      var n := mem[a].next.value;
      AboveShrinks(mem.Keys, a, n);
      assert c == [a] + Chain(mem, n);
      assert forall i | 0 <= i < |Chain(mem, n)| :: Chain(mem, n)[i] == c[i + 1];
      ChainUnchanged(mem, r, n, x, y);
    }
  }

  ghost function Ahead(mem: Memory, b: nat): nat
    requires b in mem
  {
    if mem[b].next.Some? then |Above(mem.Keys, mem[b].next.value)| + 1 else 0
  }

  /** Free's first loop: header `b` swallows the free headers that follow
      it, so its `next` skips to the first allocated one (or to none). */
  function GrowForward(mem: Memory, b: nat): (r: Memory)
    requires Linked(mem) && b in mem
    ensures Linked(r) && r.Keys == mem.Keys
    ensures r[b].prev == mem[b].prev && r[b].size == mem[b].size
    ensures r[b].next.Some? ==> r[r[b].next.value].size != 0
    ensures forall a | a in mem && a != b :: r[a] == mem[a]
    decreases Ahead(mem, b)
  {
    var next := mem[b].next;
    if next.Some? && mem[next.value].size == 0 then
      var m := mem[b := mem[b].(next := mem[next.value].next)];
      AbsorbShrinks(mem, b);
      GrowForward(m, b)
    else mem
  }

  lemma AbsorbShrinks(mem: Memory, b: nat)
    requires Linked(mem) && b in mem && mem[b].next.Some?
    ensures var n := mem[b].next.value;
      Ahead(mem[b := mem[b].(next := mem[n].next)], b) < Ahead(mem, b)
  {
    var n := mem[b].next.value;
    var m := mem[b := mem[b].(next := mem[n].next)];
    assert m.Keys == mem.Keys;
    if mem[n].next.Some? {
      AboveShrinks(mem.Keys, n, mem[n].next.value);
    }
  }

  /** The headers GrowForward unlinks were all free: what `b` now points
      at is on its old list, and every header strictly between is free. */
  lemma {:induction false} GrowForwardSkipsFree(mem: Memory, b: nat) returns (k: nat)
    requires Linked(mem) && b in mem
    ensures var c := Chain(mem, b); var r := GrowForward(mem, b);
      0 < k <= |c| &&
      (forall j | 0 < j < k :: mem[c[j]].size == 0) &&
      (if k < |c| then r[b].next == Some(c[k]) else r[b].next.None?)
    decreases Ahead(mem, b)
  {
    var c := Chain(mem, b);
    var next := mem[b].next;
    if next.Some? && mem[next.value].size == 0 {
      var m := mem[b := mem[b].(next := mem[next.value].next)];
      AbsorbChain(mem, b);
      AbsorbShrinks(mem, b);
      var k' := GrowForwardSkipsFree(m, b);
      k := k' + 1;
      var cm := Chain(m, b);
      forall j | 0 < j < k
        ensures mem[c[j]].size == 0
      {
        if j > 1 {
          assert m[cm[j - 1]] == mem[c[j]];
        }
      }
    } else {
      k := 1;
      if next.Some? {
        AboveShrinks(mem.Keys, b, next.value);
        assert c == [b] + Chain(mem, next.value);
      } else {
        assert c == [b];
      }
    }
  }

  /** One absorbing step drops the absorbed header from `b`'s list; the
      headers after it are untouched. */
  lemma {:induction false} AbsorbChain(mem: Memory, b: nat)
    requires Linked(mem) && b in mem && mem[b].next.Some?
    ensures var m := mem[b := mem[b].(next := mem[mem[b].next.value].next)];
      var c := Chain(mem, b);
      Linked(m) && |c| >= 2 && Chain(m, b) == [b] + c[2..] &&
      forall j | 0 < j < |c| :: c[j] != b && m[c[j]] == mem[c[j]]
  {
    var n := mem[b].next.value;
    var m := mem[b := mem[b].(next := mem[n].next)];
    var c := Chain(mem, b);
    AboveShrinks(mem.Keys, b, n);
    assert c == [b] + Chain(mem, n);
    ChainAbove(mem, b);
    assert Linked(m) by {
      forall a | a in m
        ensures (m[a].next.Some? ==> m[a].next.value in m && a < m[a].next.value) &&
                (m[a].prev.Some? ==> m[a].prev.value in m && m[a].prev.value < a)
      {
        if a != b {
          assert m[a] == mem[a];
        }
      }
    }
    if mem[n].next.Some? {
      var n2 := mem[n].next.value;
      ChainAbove(mem, n);
      assert Chain(mem, n) == [n] + Chain(mem, n2);
      ChainAbove(mem, n2);
      ChainUnchanged(mem, m, n2, b, b);
      assert Chain(m, b) == [b] + Chain(m, n2);
    } else {
      assert Chain(m, b) == [b];
    }
  }

  /** Free's second loop: while the header before `b` is free and is not
      the head (its own `prev` is set), hand it `b`'s `next` and move
      back to it. Returns the memory and the header that survives. */
  function GrowBackward(mem: Memory, b: nat): (r: (Memory, nat))
    requires Linked(mem) && b in mem
    ensures Linked(r.0) && r.0.Keys == mem.Keys && r.1 in mem && r.1 <= b
    ensures forall a | a in mem :: r.0[a].prev == mem[a].prev && r.0[a].size == mem[a].size
    ensures r.1 == b || (mem[r.1].size == 0 && mem[r.1].prev.Some?)
    ensures r.0[r.1].next == mem[b].next
    ensures !MergesBack(r.0, r.1)
    decreases b
  {
    if MergesBack(mem, b) then
      var p := mem[b].prev.value;
      var m := mem[p := mem[p].(next := mem[b].next)];
      assert m.Keys == mem.Keys;
      GrowBackward(m, p)
    else (mem, b)
  }

  predicate MergesBack(mem: Memory, b: nat)
    requires Linked(mem) && b in mem
  {
    var prev := mem[b].prev;
    prev.Some? && mem[prev.value].prev.Some? && mem[prev.value].size == 0
  }

  /** Free of the block whose header is `b`, as written: merge forward,
      merge backward, then subtract the SURVIVING header's size from the
      usage and mark it free. Returns the memory, the usage and the
      survivor. */
  function FreeBlock(mem: Memory, usage: int, b: nat): (r: (Memory, int, nat))
    requires Linked(mem) && b in mem
  {
    var (m, s) := GrowBackward(GrowForward(mem, b), b);
    (m[s := m[s].(size := 0)], usage - m[s].size, s)
  }

  /** After Free the surviving header is free; it is `b` or a free
      predecessor that is not the head; its `next` is allocated or none.
      The usage drops by `b`'s size only when nothing merged backward,
      and by nothing otherwise. */
  lemma {:induction false} FreeBlockShape(mem: Memory, usage: int, b: nat)
    requires Linked(mem) && b in mem
    ensures var (r, u, s) := FreeBlock(mem, usage, b);
      Linked(r) && r.Keys == mem.Keys && s in mem && s <= b &&
      r[s].size == 0 && r[s].prev == mem[s].prev &&
      (s == b || (mem[s].size == 0 && mem[s].prev.Some?)) &&
      (r[s].next.Some? ==> r[r[s].next.value].size != 0) &&
      u == usage - (if s == b then mem[b].size else 0)
  {
    var g := GrowForward(mem, b);
    var (m, s) := GrowBackward(g, b);
    var r := m[s := m[s].(size := 0)];
    forall a | a in r
      ensures (r[a].next.Some? ==> r[a].next.value in r && a < r[a].next.value) &&
              (r[a].prev.Some? ==> r[a].prev.value in r && r[a].prev.value < a)
    {
      assert a != s ==> r[a] == m[a];
    }
    if s != b {
      assert g[s] == mem[s];
    }
  }

  /** With the pool end `head_ + size_` taken on a Node*, a fresh 64-byte
      pool accepts a 256-byte request: the block and the header placed
      after it lie past the buffer. With the intended end the same
      request does not fit. */
  lemma AsWrittenEndOverrunsPool()
    ensures var mem := map[0 := Node(None, None, 0)];
      Linked(mem) &&
      FirstFit(mem, 0, 256 + BlockEndBuffer, AsWrittenEnd(64)) == Found(0) &&
      64 < NodeSize + 256 &&
      NextNodePos(0, 256) in Placed(mem, 0, 256) && 64 < NextNodePos(0, 256) &&
      FirstFit(mem, 0, 256 + BlockEndBuffer, IntendedEnd(64)) == Exhausted
  {
    var mem := map[0 := Node(None, None, 0)];
    assert Linked(mem);
  }

  /** With the intended pool end, every block Allocate hands out ends
      inside the pool, and so does every header it places. */
  lemma {:induction false} IntendedFitInsidePool(mem: Memory, a: nat, size: nat, poolSize: nat)
    requires Linked(mem) && a in mem
    requires forall k | k in mem :: k <= poolSize
    requires poolSize + NodeSize + size + BlockEndBuffer <= SizeMax / 2
    ensures var f := FirstFit(mem, a, size + BlockEndBuffer, IntendedEnd(poolSize));
      f.Found? ==>
        f.node + NodeSize + size + BlockEndBuffer <= poolSize &&
        forall k | k in Placed(mem, f.node, size) :: k <= poolSize
  {
    var f := FirstFit(mem, a, size + BlockEndBuffer, IntendedEnd(poolSize));
    if f.Found? {
      var n := f.node;
      assert Bound(mem, n, IntendedEnd(poolSize)) <= poolSize;
      AsPtrdiffInRange(Bound(mem, n, IntendedEnd(poolSize)) - (n + NodeSize) - (size + BlockEndBuffer));
      PlacedShape(mem, n, size);
    }
  }

  /** The gap subtraction wraps for a request near the top of the `size_t`
      range: a fresh 4096-byte pool accepts a request for 2^64 - 256 bytes,
      which rounding leaves as it is, whether the pool end is taken on a
      `Node*` or in bytes. */
  lemma HugeRequestWraps()
    ensures var mem := map[0 := Node(None, None, 0)]; var request := SizeMax - BlockSize;
      Linked(mem) && ToNearestBlockSize(request) == request &&
      FirstFit(mem, 0, request + BlockEndBuffer, AsWrittenEnd(4096)) == Found(0) &&
      FirstFit(mem, 0, request + BlockEndBuffer, IntendedEnd(4096)) == Found(0)
  {
    var mem := map[0 := Node(None, None, 0)];
    assert Linked(mem);
    assert (SizeMax - BlockSize) % BlockSize == 0;
    assert RemainingGap(mem, 0, SizeMax - BlockSize, AsWrittenEnd(4096)) == 131296;
    assert RemainingGap(mem, 0, SizeMax - BlockSize, IntendedEnd(4096)) == 4320;
  }

  /** Headers after three 256-byte allocations on a fresh pool. */
  function ThreeBlocks(): Memory
  {
    map[0 := Node(None, Some(288), 256), 288 := Node(Some(0), Some(576), 256),
        576 := Node(Some(288), Some(864), 256), 864 := Node(Some(576), None, 0)]
  }

  /** ThreeBlocks after freeing the second block. */
  function SecondFreed(): Memory
  {
    ThreeBlocks()[288 := Node(Some(0), Some(576), 0)]
  }

  lemma ThreeAllocations()
    ensures var end := AsWrittenEnd(4096);
      var m0 := map[0 := Node(None, None, 0)];
      Linked(m0) && FirstFit(m0, 0, 256, end) == Found(0) &&
      var m1 := Placed(m0, 0, 256);
      Linked(m1) && 0 in m1 && FirstFit(m1, 0, 256, end) == Found(288) &&
      var m2 := Placed(m1, 288, 256);
      Linked(m2) && 0 in m2 && FirstFit(m2, 0, 256, end) == Found(576) &&
      Placed(m2, 576, 256) == ThreeBlocks()
  {
    var end := AsWrittenEnd(4096);
    var m0 := map[0 := Node(None, None, 0)];
    assert Linked(m0);
    PlacedShape(m0, 0, 256);
    var m1 := map[0 := Node(None, Some(288), 256), 288 := Node(Some(0), None, 0)];
    assert Placed(m0, 0, 256) == m1;
    assert FirstFit(m1, 0, 256, end) == SkipToFree(m1, 288, 256, end);
    PlacedShape(m1, 288, 256);
    var m2 := m1[288 := Node(Some(0), Some(576), 256)][576 := Node(Some(288), None, 0)];
    assert Placed(m1, 288, 256) == m2;
    assert FirstFit(m2, 0, 256, end) == SkipToFree(m2, 288, 256, end);
    assert SkipToFree(m2, 288, 256, end) == SkipToFree(m2, 576, 256, end);
  }

  lemma FreeSecondOfThree()
    ensures Linked(ThreeBlocks()) && FreeBlock(ThreeBlocks(), 768, 288) == (SecondFreed(), 512, 288)
  {
    var m := ThreeBlocks();
    assert Linked(m);
    assert GrowForward(m, 288) == m;
    assert GrowBackward(m, 288) == (m, 288);
  }

  /** SecondFreed after freeing the third block. The third header keeps
      its size: the list no longer reaches it. */
  function BothFreed(): Memory
  {
    map[0 := Node(None, Some(288), 256), 288 := Node(Some(0), None, 0),
        576 := Node(Some(288), None, 256), 864 := Node(Some(576), None, 0)]
  }

  lemma FreeThirdOfThree()
    ensures Linked(SecondFreed()) && FreeBlock(SecondFreed(), 512, 576) == (BothFreed(), 512, 288)
  {
    ThirdAbsorbsTrailer();
    var g := SecondFreed()[576 := Node(Some(288), None, 256)];
    ThirdMergesIntoSecond(g);
    var m := g[288 := Node(Some(0), None, 0)];
    assert m[288 := m[288].(size := 0)] == m == BothFreed();
    assert FreeBlock(SecondFreed(), 512, 576) == (m[288 := m[288].(size := 0)], 512 - m[288].size, 288);
  }

  lemma ThirdAbsorbsTrailer()
    ensures Linked(SecondFreed()) &&
      GrowForward(SecondFreed(), 576) == SecondFreed()[576 := Node(Some(288), None, 256)]
  {
    var m := SecondFreed();
    assert Linked(m);
    var g := m[576 := Node(Some(288), None, 256)];
    assert m[576 := m[576].(next := m[864].next)] == g;
    assert GrowForward(g, 576) == g;
  }

  lemma ThirdMergesIntoSecond(g: Memory)
    requires g == SecondFreed()[576 := Node(Some(288), None, 256)]
    ensures Linked(g) && GrowBackward(g, 576) == (g[288 := Node(Some(0), None, 0)], 288)
  {
    assert Linked(g);
    var h := g[288 := g[288].(next := g[576].next)];
    assert h == g[288 := Node(Some(0), None, 0)];
    assert !MergesBack(h, 288);
  }

  /** Three 256-byte blocks on a fresh pool, then the second and the third
      freed: the third merges back into the free second header, whose size
      (0) is what Free subtracts, so the usage stays at 512 bytes while the
      list holds only the first block (256 bytes) and one free header. */
  lemma FreeAfterBackwardMergeKeepsUsage()
    ensures Linked(SecondFreed()) &&
      var (m, u, s) := FreeBlock(SecondFreed(), 512, 576);
      u == 512 && s == 288 && Linked(m) && 0 in m &&
      Chain(m, 0) == [0, 288] && m[0].size == 256 && m[288].size == 0
  {
    FreeThirdOfThree();
    var m := BothFreed();
    assert Linked(m);
    assert Chain(m, 288) == [288];
    assert Chain(m, 0) == [0] + Chain(m, 288);
  }

  /** What Allocate hands back: a payload pointer, nullptr, or the null
      dereference its inner loop performs when the list ends in an
      allocated header. */
  datatype Allocation = Block(ptr: nat) | Null | Crashed

  /** One pool (MemoryManager::Pool): `size_`, `usage_`, `head_` and the
      headers in its buffer. `usage_` is an unbounded integer here. */
  class Pool {
    var size: nat
    var usage: int
    var head: Option<nat>
    var mem: Memory

    ghost predicate Valid()
      reads this
    {
      head == Some(0) && 0 in mem && mem[0].prev.None? && Linked(mem)
    }

    constructor()
      ensures size == 0 && usage == 0 && head.None? && mem == map[]
    {
      size := 0;
      usage := 0;
      head := None;
      mem := map[];
    }

    /** `mallocOk` stands for malloc returning a buffer. A pool smaller than
        64 bytes records its size but gets no head. */
    method Initialize(poolSize: nat, mallocOk: bool)
      modifies this`size, this`head, this`mem
      ensures !mallocOk ==> size == old(size) && head == old(head) && mem == old(mem)
      ensures mallocOk ==> size == poolSize
      ensures mallocOk && poolSize < MinimumPoolSize ==> head == old(head) && mem == old(mem)
      ensures mallocOk && MinimumPoolSize <= poolSize ==>
        Valid() && mem == map[0 := Node(None, None, 0)] && Chain(mem, 0) == [0]
    {
      if !mallocOk {
        return;
      }
      size := poolSize;
      if poolSize < MinimumPoolSize {
        return;
      }
      head := Some(0);
      mem := map[0 := Node(None, None, 0)];
    }

    /** Releases the buffer; the usage is left as it was. */
    method Destroy()
      modifies this`size, this`head, this`mem
      ensures size == 0 && head.None? && mem == map[]
    {
      head := None;
      size := 0;
      mem := map[];
    }

    function CalculateRemainingGap(node: nat, targetSize: nat): (r: int)
      reads this
      requires node in mem
      ensures var room := Bound(mem, node, AsWrittenEnd(size)) - (node + NodeSize);
        -(SizeMax / 2) <= r < SizeMax / 2 && (r - (room - targetSize)) % SizeMax == 0 &&
        (-(SizeMax / 2) <= room - targetSize < SizeMax / 2 ==> (r >= 0 <==> targetSize <= room))
    {
      var room := Bound(mem, node, AsWrittenEnd(size)) - (node + NodeSize);
      if -(SizeMax / 2) <= room - targetSize < SizeMax / 2 then
        AsPtrdiffInRange(room - targetSize);
        RemainingGap(mem, node, targetSize, AsWrittenEnd(size))
      else
        RemainingGap(mem, node, targetSize, AsWrittenEnd(size))
    }

    /** First-fit allocation of `request` bytes rounded up to blocks. */
    method Allocate(request: nat) returns (r: Allocation)
      requires Valid() && request < SizeMax
      modifies this`mem, this`usage
      ensures Valid()
      ensures var rounded := ToNearestBlockSize(request);
        match FirstFit(old(mem), 0, rounded + BlockEndBuffer, AsWrittenEnd(size))
        case Found(n) =>
          r == Block(n + NodeSize) && mem == Placed(old(mem), n, rounded) &&
          usage == old(usage) + rounded + BlockEndBuffer
        case Exhausted => r == Null && mem == old(mem) && usage == old(usage)
        case NullDeref => r == Crashed && mem == old(mem) && usage == old(usage)
    {
      var rounded := ToNearestBlockSize(request);
      var fit := FindFit(rounded + BlockEndBuffer);
      match fit
      case Found(n) =>
        Place(n, rounded);
        usage := usage + rounded + BlockEndBuffer;
        r := Block(n + NodeSize);
      case Exhausted =>
        r := Null;
      case NullDeref =>
        r := Crashed;
    }

    /** Allocate's search loops, which change nothing. */
    method FindFit(target: nat) returns (fit: Fit)
      requires Valid()
      ensures fit == FirstFit(mem, 0, target, AsWrittenEnd(size))
    {
      ghost var end := AsWrittenEnd(size);
      var curr := head.value;
      while true
        invariant curr in mem
        invariant FirstFit(mem, 0, target, end) == FirstFit(mem, curr, target, end)
        decreases |Above(mem.Keys, curr)|
      {
        if mem[curr].size == 0 && CalculateRemainingGap(curr, target) >= 0 {
          return Found(curr);
        }
        if mem[curr].next.None? {
          return Exhausted;
        }
        ghost var start := curr;
        curr := mem[curr].next.value;
        while mem[curr].size != 0
          invariant curr in mem && start < curr
          invariant FirstFit(mem, 0, target, end) == SkipToFree(mem, curr, target, end)
          decreases |Above(mem.Keys, curr)|
        {
          if mem[curr].next.None? {
            return NullDeref;
          }
          var next := mem[curr].next.value;
          AboveShrinks(mem.Keys, curr, next);
          curr := next;
        }
        AboveShrinks(mem.Keys, start, curr);
      }
    }

    method Place(n: nat, rounded: nat)
      requires Valid() && n in mem
      modifies this`mem
      ensures Valid() && mem == Placed(old(mem), n, rounded)
    {
      PlacedShape(mem, n, rounded);
      mem := mem[n := mem[n].(size := rounded)];
      if mem[n].next.None? {
        var pos := n + NodeSize + rounded + BlockEndBuffer;
        mem := mem[pos := Node(Some(n), None, 0)];
        mem := mem[n := mem[n].(next := Some(pos))];
      }
    }

    /** Frees the block at payload pointer `ptr`; None is nullptr. */
    method Free(ptr: Option<nat>)
      requires Valid()
      requires ptr.Some? ==> NodeSize <= ptr.value && ptr.value - NodeSize in mem
      modifies this`mem, this`usage
      ensures Valid()
      ensures ptr.None? ==> mem == old(mem) && usage == old(usage)
      ensures ptr.Some? ==>
        var (m, u, _) := FreeBlock(old(mem), old(usage), ptr.value - NodeSize);
        mem == m && usage == u
    {
      if ptr.None? {
        return;
      }
      var b := ptr.value - NodeSize;
      AbsorbFollowing(b);
      b := MergeIntoPredecessors(b);
      usage := usage - mem[b].size;
      mem := mem[b := mem[b].(size := 0)];
      FreeBlockShape(old(mem), old(usage), ptr.value - NodeSize);
    }
  
    /** Free's first loop. */
    method AbsorbFollowing(b: nat)
      requires Valid() && b in mem
      modifies this`mem
      ensures Valid() && mem == GrowForward(old(mem), b)
    {
      while mem[b].next.Some? && mem[mem[b].next.value].size == 0
        invariant Valid() && b in mem
        invariant GrowForward(mem, b) == GrowForward(old(mem), b)
        decreases Ahead(mem, b)
      {
        AbsorbShrinks(mem, b);
        mem := mem[b := mem[b].(next := mem[mem[b].next.value].next)];
      }
    }

    /** Free's second loop; returns the surviving header. */
    method MergeIntoPredecessors(b: nat) returns (s: nat)
      requires Valid() && b in mem
      modifies this`mem
      ensures Valid() && (mem, s) == GrowBackward(old(mem), b)
    {
      s := b;
      while mem[s].prev.Some? && mem[mem[s].prev.value].prev.Some? && mem[mem[s].prev.value].size == 0
        invariant Valid() && s in mem
        invariant GrowBackward(mem, s) == GrowBackward(old(mem), b)
        decreases s
      {
        var p := mem[s].prev.value;
        mem := mem[p := mem[p].(next := mem[s].next)];
        s := p;
      }
    }
  }
}
