/**
 * The pages of the IO command queue (heart/heart-core/src/io/io_cmd_queue.cpp):
 * `Submit` copies a command list into a free page of `m_pages` and links
 * it at the tail of the chain from `m_head`; the IO thread takes pages
 * from the head in `ThreadThink`. The mutex and the condition variable are
 * left out: each method is one critical section, run alone.
 */
module IoPageQueue {
  import opened IoCmdList
  import opened IoCmdQueue

  /** `countof(m_pages)`. */
  const PageCount: nat := 16

  /**
   * `CmdPage`: a link, the number of bytes used, the in-use flag and 8 KiB
   * of commands. The commands are an array embedded in the page itself,
   * so they are a field of the page here, not an object of their own.
   */
  class CmdPage {
    var next: CmdPage?
    var size: nat
    var inUse: bool
    var data: seq<bv8>

    /** The zero-initialised page of `m_pages[16] = {}`. */
    constructor ()
      ensures next == null && size == 0 && !inUse && data == seq(PoolSize, _ => 0)
    {
      next := null;
      size := 0;
      inUse := false;
      data := seq(PoolSize, _ => 0);
    }
  }

  /** The commands a page holds: its first `size` bytes. */
  ghost function Contents(p: CmdPage): seq<bv8>
    reads p`size, p`data
  {
    p.data[..if p.size <= |p.data| then p.size else 0]
  }

  class CmdQueue {
    /** `m_pages`. */
    const pages: seq<CmdPage>
    /** `m_head`. */
    var head: CmdPage?
    /** `workingPage`, the local of `ThreadThink` that outlives one turn of its loop. */
    var working: CmdPage?
    /** The pages reached from `m_head` through `next`, in order. */
    ghost var pending: seq<CmdPage>
    /** The commands waiting in the chain, page by page. */
    ghost var queued: seq<seq<bv8>>

    /** There are sixteen distinct pages, each with room for a whole command list. */
    ghost predicate PagesOk()
      reads pages
    {
      |pages| == PageCount &&
      (forall i, j :: 0 <= i < j < |pages| ==> pages[i] != pages[j]) &&
      (forall p :: p in pages ==> |p.data| == PoolSize)
    }

    /** `pending` is the chain from `m_head`: each page links to the one after it, the last to nothing. */
    ghost predicate Linked()
      reads this, pages
    {
      (forall i :: 0 <= i < |pending| ==> pending[i] in pages) &&
      (forall i, j :: 0 <= i < j < |pending| ==> pending[i] != pending[j]) &&
      head == (if pending == [] then null else pending[0]) &&
      (forall i :: 0 <= i < |pending| - 1 ==> pending[i].next == pending[i + 1]) &&
      (pending != [] ==> pending[|pending| - 1].next == null)
    }

    /** `queued` is what the pending pages hold. */
    ghost predicate Holds()
      reads this, pending`size, pending`data
    {
      |queued| == |pending| && forall i :: 0 <= i < |pending| ==> Contents(pending[i]) == queued[i]
    }

    ghost predicate Valid()
      reads this, pages
    {
      PagesOk() && Linked() && Holds() && (working == null || working in pages)
    }

    /**
     * What `inUse` is for: every page waiting in the chain, and the page
     * the thread is working on, is marked in use, so `Submit` does not
     * pick it.
     */
    ghost predicate Safe()
      reads this, pending`inUse, working
    {
      (forall i :: 0 <= i < |pending| ==> pending[i].inUse) &&
      (working != null ==> working.inUse && working !in pending)
    }

    /** The constructor: sixteen zeroed pages and an empty chain. */
    constructor ()
      ensures Valid() && Safe() && pending == [] && queued == [] && working == null && head == null
      ensures forall i :: 0 <= i < |pages| ==> !pages[i].inUse && pages[i].next == null && pages[i].size == 0
      ensures forall i :: 0 <= i < |pages| ==> fresh(pages[i])
    {
      var ps: seq<CmdPage> := [];
      for n := 0 to PageCount
        invariant |ps| == n
        invariant forall i :: 0 <= i < n ==> fresh(ps[i])
        invariant forall i :: 0 <= i < n ==> |ps[i].data| == PoolSize && ps[i].size == 0
        invariant forall i :: 0 <= i < n ==> !ps[i].inUse && ps[i].next == null
        invariant forall i, j :: 0 <= i < j < n ==> ps[i] != ps[j]
      {
        var p := new CmdPage();
        ps := ps + [p];
      }
      pages := ps;
      head := null;
      working := null;
      pending := [];
      queued := [];
    }

    /** The index of the page the find-free loop of `Submit` settles on: the last one not in use. */
    ghost predicate LastFree(i: int)
      reads this, pages
    {
      0 <= i < |pages| && !pages[i].inUse && forall j :: i < j < |pages| ==> pages[j].inUse
    }

    /** The find-free loop: the last page not in use, or null when every page is. */
    method FindFree() returns (tgt: CmdPage?, ghost index: int)
      ensures tgt != null <==> exists i :: 0 <= i < |pages| && !pages[i].inUse
      ensures tgt != null ==> LastFree(index) && tgt == pages[index]
    {
      tgt, index := null, -1;
      for n := 0 to |pages|
        invariant tgt == null <==> forall j :: 0 <= j < n ==> pages[j].inUse
        invariant tgt != null ==> 0 <= index < n && tgt == pages[index] && !tgt.inUse
        invariant tgt != null ==> forall j :: index < j < n ==> pages[j].inUse
      {
        if !pages[n].inUse {
          tgt, index := pages[n], n;
        }
      }
    }

    /** The walk `while (*tgt != nullptr) tgt = &(*tgt)->next;` from a non-empty chain: its last page. */
    method Tail() returns (tail: CmdPage)
      requires PagesOk() && Linked() && pending != []
      ensures tail == pending[|pending| - 1]
    {
      tail := head;
      ghost var k := 0;
      while tail.next != null
        invariant 0 <= k < |pending| && tail == pending[k]
        invariant k < |pending| - 1 ==> tail.next == pending[k + 1]
        decreases |pending| - k
      {
        tail, k := tail.next, k + 1;
      }
    }

    /**
     * The copy of `Submit`: `size` and the first `size` bytes of the page
     * from the list's pool. A page outside the chain leaves what the chain
     * holds alone.
     */
    method CopyInto(tgt: CmdPage, list: CmdList)
      requires Valid() && tgt in pages && list.Valid()
      modifies tgt`size, tgt`data
      ensures Contents(tgt) == list.pool[..list.writeHead.value] && tgt.size == list.writeHead.value
      ensures |tgt.data| == PoolSize && tgt.data[tgt.size..] == old(tgt.data)[tgt.size..]
      ensures PagesOk() && Linked()
      ensures tgt !in pending ==> Valid()
    {
      var wh := list.writeHead.value;
      tgt.size := wh;
      tgt.data := list.pool[..wh] + tgt.data[wh..];
    }

    /** Linking as written: the page goes after the tail, or becomes the head; nothing else changes. */
    method LinkAsWritten(tgt: CmdPage)
      requires PagesOk() && Linked() && tgt in pages
      modifies this`head, pages`next
      ensures PagesOk()
      ensures head == (if old(pending) == [] then tgt else old(head))
      ensures old(pending) != [] ==> old(pending[|pending| - 1]).next == tgt
      ensures forall p :: p in pages && (old(pending) == [] || p != old(pending[|pending| - 1])) ==> p.next == old(p.next)
    {
      if head == null {
        head := tgt;
      } else {
        var tail := Tail();
        tail.next := tgt;
      }
    }

    /**
     * `Submit` as written: copies the list into the last page not in use
     * and links that page at the tail, but never marks it in use nor
     * clears its `next`, so the page stays free for the next `Submit`.
     */
    method SubmitAsWritten(list: CmdList) returns (ghost index: int)
      requires Valid() && list.Valid()
      requires exists i :: 0 <= i < |pages| && !pages[i].inUse
      modifies this`head, pages`next, pages`size, pages`data, list.writeHead
      ensures PagesOk() && list.writeHead.value == 0
      ensures old(LastFree(index))
      ensures Contents(pages[index]) == old(list.pool[..list.writeHead.value]) && pages[index].size == old(list.writeHead.value)
      ensures head == (if old(pending) == [] then pages[index] else old(head))
      ensures old(pending) != [] ==> old(pending[|pending| - 1]).next == pages[index]
      ensures pages[index].inUse == old(pages[index].inUse)
      ensures old(pending) == [] ==> pages[index].next == old(pages[index].next)
    {
      var tgt;
      tgt, index := FindFree();
      CopyInto(tgt, list);
      LinkAsWritten(tgt);
      list.Finalize();
    }

    /**
     * Linking as evidently intended: the page is marked in use and ends
     * the chain, so the chain gains exactly that page at its tail.
     */
    method Append(tgt: CmdPage)
      requires Valid() && Safe() && tgt in pages && !tgt.inUse
      modifies this`head, this`pending, this`queued, pages`next, tgt`inUse
      ensures Valid() && Safe()
      ensures pending == old(pending) + [tgt] && queued == old(queued) + [Contents(tgt)]
    {
      Claim(tgt);
      LinkTail(tgt);
      queued := queued + [Contents(tgt)];
      assert Holds() by {
        forall i | 0 <= i < |pending|
          ensures Contents(pending[i]) == queued[i]
        {
        }
      }
    }

    /** Linking a page that ends no chain yet: the chain gains it at its tail. */
    method LinkTail(tgt: CmdPage)
      requires PagesOk() && Linked() && tgt in pages && tgt !in pending && tgt.next == null
      modifies this`head, this`pending, pages`next
      ensures PagesOk() && Linked() && pending == old(pending) + [tgt]
    {
      ghost var before := pending;
      LinkAsWritten(tgt);
      pending := pending + [tgt];
      assert Linked() by {
        forall i | 0 <= i < |pending| - 1
          ensures pending[i].next == pending[i + 1]
        {
          if i < |before| - 1 {
            assert before[i] != before[|before| - 1];
          }
        }
      }
    }

    /** The page about to be linked is marked in use and made to end a chain. */
    method Claim(tgt: CmdPage)
      requires Valid() && Safe() && tgt in pages && !tgt.inUse
      modifies tgt`inUse, tgt`next
      ensures Valid() && Safe() && tgt.inUse && tgt.next == null && tgt !in pending
    {
      tgt.inUse := true;
      tgt.next := null;
    }

    /** The find-free loop and the copy of `Submit`: the last free page now holds the list. */
    method Fill(list: CmdList) returns (tgt: CmdPage, ghost index: int)
      requires Valid() && Safe() && list.Valid()
      requires exists i :: 0 <= i < |pages| && !pages[i].inUse
      modifies pages`size, pages`data
      ensures Valid() && Safe() && old(LastFree(index)) && tgt == pages[index] && !tgt.inUse
      ensures Contents(tgt) == list.pool[..list.writeHead.value]
    {
      tgt, index := FindFree();
      CopyInto(tgt, list);
    }

    /**
     * `Submit` as it is evidently meant to work: the chain gains the
     * submitted list at its tail, in the last page that was free, and the
     * list is reset.
     */
    method Submit(list: CmdList) returns (ghost index: int)
      requires Valid() && Safe() && list.Valid()
      requires exists i :: 0 <= i < |pages| && !pages[i].inUse
      modifies this`head, this`pending, this`queued, pages`next, pages`inUse, pages`size, pages`data, list.writeHead
      ensures Valid() && Safe()
      ensures queued == old(queued) + [old(list.pool[..list.writeHead.value])]
      ensures old(LastFree(index)) && pending == old(pending) + [pages[index]]
      ensures list.writeHead.value == 0
    {
      ghost var content := list.pool[..list.writeHead.value];
      var tgt;
      tgt, index := Fill(list);
      Append(tgt);
      assert queued == old(queued) + [content] && pending == old(pending) + [pages[index]];
      list.Finalize();
    }

    /** The top of a turn of `ThreadThink`: the page worked on last is marked free again. */
    method Release()
      requires Valid() && Safe()
      modifies this`working, working
      ensures Valid() && Safe() && working == null
      ensures old(working) != null ==> !old(working).inUse
    {
      if working != null {
        working.inUse := false;
        working := null;
      }
    }

    /**
     * The thread takes the head page off the chain and works on it. With
     * an empty chain the thread would wait on the condition variable; here
     * it comes back with nothing.
     */
    method Pop() returns (page: CmdPage?)
      requires Valid() && Safe() && working == null
      modifies this`head, this`working, this`pending, this`queued
      ensures Valid() && Safe() && working == page
      ensures old(pending) == [] ==> page == null && pending == []
      ensures old(pending) != [] ==> page == old(pending[0]) && pending == old(pending[1..])
      ensures old(pending) != [] ==> Contents(page) == old(queued[0]) && queued == old(queued[1..])
    {
      if head == null {
        return null;
      }
      working := head;
      head := working.next;
      pending, queued := pending[1..], queued[1..];
      page := working;
    }

    /**
     * One turn of `ThreadThink` up to `ProcessCmdPage`: the page worked on
     * last is released and the head page, if any, taken off the chain, in
     * the order the chain was filled.
     */
    method TakeNext() returns (page: CmdPage?)
      requires Valid() && Safe()
      modifies this, working
      ensures Valid() && Safe() && working == page
      ensures old(pending) == [] ==> page == null && pending == []
      ensures old(pending) != [] ==> page == old(pending[0]) && pending == old(pending[1..])
      ensures old(pending) != [] ==> Contents(page) == old(queued[0]) && queued == old(queued[1..])
      ensures old(working) != null ==> !old(working).inUse
    {
      Release();
      page := Pop();
    }
  }

  /**
   * What `Submit` as written does to a fresh queue given two lists before
   * the thread takes the first: both go to the last page, the second over
   * the first, and that page ends up linked to itself, so the thread would
   * take it again and again and a third `Submit` would walk the chain
   * forever.
   */
  method SubmitTwiceAsWritten(a: CmdList, b: CmdList) returns (q: CmdQueue)
    requires a.Valid() && b.Valid() && a.writeHead != b.writeHead
    modifies a.writeHead, b.writeHead
    ensures |q.pages| == PageCount && q.head == q.pages[PageCount - 1] && q.head.next == q.head
    ensures Contents(q.head) == old(b.pool[..b.writeHead.value])
  {
    q := new CmdQueue();
    assert !q.pages[PageCount - 1].inUse;
    ghost var i := q.SubmitAsWritten(a);
    var last := q.pages[PageCount - 1];
    assert i == PageCount - 1;
    assert q.head == last && last.next == null && !last.inUse;
    q.pending, q.queued := [last], [Contents(last)];
    i := q.SubmitAsWritten(b);
  }
}
