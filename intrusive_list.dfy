/**
 * `HeartIntrusiveList` (heart/heart-core/include/heart/memory/intrusive_list.h):
 * a circular doubly linked list threaded through `HeartIntrusiveListLink`
 * members of the elements, with the list's own `m_root` link as sentinel.
 * An element is identified with its link (`PointerFromLink`'s offset
 * arithmetic is not modelled); the ghost sequence `nodes` is the list order.
 */
module IntrusiveList {

  /** `HeartIntrusiveListLink`: both pointers start null. */
  class Link {
    var prev: Link?
    var next: Link?

    constructor ()
      ensures prev == null && next == null
    {
      prev, next := null, null;
    }
  }

  class IntrusiveList {
    const root: Link
    var size: nat
    ghost var nodes: seq<Link>

    /** Position `i` of the ring, where both -1 and `|nodes|` are the sentinel. */
    static ghost function At(root: Link, nodes: seq<Link>, i: int): Link
      requires -1 <= i <= |nodes|
    {
      if 0 <= i < |nodes| then nodes[i] else root
    }

    /** No element appears twice, and the sentinel is not an element. */
    static ghost predicate Distinct(root: Link, nodes: seq<Link>)
    {
      root !in nodes && forall i, j :: 0 <= i < j < |nodes| ==> nodes[i] != nodes[j]
    }

    /** The links form the ring root, nodes[0], ..., nodes[n-1], root in both directions. */
    ghost predicate Linked()
      reads this, root, nodes
    {
      root.next == At(root, nodes, 0) && root.prev == At(root, nodes, |nodes| - 1) &&
      (forall i {:trigger nodes[i].next} :: 0 <= i < |nodes| ==> nodes[i].next == At(root, nodes, i + 1)) &&
      (forall i {:trigger nodes[i].prev} :: 0 <= i < |nodes| ==> nodes[i].prev == At(root, nodes, i - 1))
    }

    ghost predicate Valid()
      reads this, root, nodes
    {
      size == |nodes| && Distinct(root, nodes) && Linked()
    }

    ghost function Ring(i: int): Link
      reads this
      requires -1 <= i <= |nodes|
    {
      At(root, nodes, i)
    }

    static lemma DistinctAfterInsert(root: Link, s: seq<Link>, k: nat, item: Link)
      requires Distinct(root, s) && item != root && item !in s && k <= |s|
      ensures Distinct(root, s[..k] + [item] + s[k..])
    {
      var t := s[..k] + [item] + s[k..];
      forall i, j | 0 <= i < j < |t|
        ensures t[i] != t[j]
      {
        if i < k && j > k {
          assert t[i] == s[i] && t[j] == s[j - 1];
        } else if i > k {
          assert t[i] == s[i - 1] && t[j] == s[j - 1];
        }
      }
      assert root !in t by {
        assert forall x :: x in t ==> x in s || x == item;
      }
    }

    static lemma DistinctAfterRemove(root: Link, s: seq<Link>, k: nat)
      requires Distinct(root, s) && k < |s|
      ensures Distinct(root, s[..k] + s[k + 1..]) && s[k] !in s[..k] + s[k + 1..]
    {
      var t := s[..k] + s[k + 1..];
      forall i, j | 0 <= i < j < |t|
        ensures t[i] != t[j]
      {
        if i < k && j >= k {
          assert t[i] == s[i] && t[j] == s[j + 1];
        } else if i >= k {
          assert t[i] == s[i + 1] && t[j] == s[j + 1];
        }
      }
      assert forall x :: x in t ==> x in s;
      forall i | 0 <= i < |t|
        ensures t[i] != s[k]
      {
        if i < k { assert t[i] == s[i]; } else { assert t[i] == s[i + 1]; }
      }
    }

    /** The constructor: the sentinel points at itself both ways. */
    constructor ()
      ensures Valid() && nodes == [] && fresh(root)
    {
      var r := new Link();
      r.next, r.prev := r, r;
      root := r;
      size := 0;
      nodes := [];
    }

    /**
     * `AddLinkBetweenLinks(item, prev, next)` for neighbouring links of the
     * ring: `item` takes the place between them.
     */
    method AddLinkBetweenLinks(item: Link, prev: Link, next: Link, ghost k: nat)
      requires Valid() && item != root && item !in nodes
      requires k <= |nodes| && prev == Ring(k - 1) && next == Ring(k)
      modifies this, root, nodes, item
      ensures Valid() && nodes == old(nodes)[..k] + [item] + old(nodes)[k..]
    {
      ghost var s := nodes;
      ghost var t := s[..k] + [item] + s[k..];
      DistinctAfterInsert(root, s, k, item);
      InsertIndices(s, k, item);
      item.next := next;
      item.prev := prev;
      next.prev := item;
      prev.next := item;
      forall i {:trigger t[i].next} | 0 <= i < |t|
        ensures t[i].next == At(root, t, i + 1)
      {
        if i < k - 1 {
          assert t[i] == s[i] && s[i] != prev;
        } else if i > k {
          assert t[i] == s[i - 1] && s[i - 1] != prev;
        }
      }
      forall i {:trigger t[i].prev} | 0 <= i < |t|
        ensures t[i].prev == At(root, t, i - 1)
      {
        if i < k {
          assert t[i] == s[i] && s[i] != next;
        } else if i > k + 1 {
          assert t[i] == s[i - 1] && s[i - 1] != next;
        }
      }
      size := size + 1;
      nodes := t;
    }

    /** Where the elements of `s` sit after `item` is inserted at `k`. */
    static lemma InsertIndices(s: seq<Link>, k: nat, item: Link)
      requires k <= |s|
      ensures var t := s[..k] + [item] + s[k..];
        |t| == |s| + 1 && t[k] == item &&
        (forall i :: 0 <= i < k ==> t[i] == s[i]) &&
        (forall i :: k < i < |t| ==> t[i] == s[i - 1])
    {
    }

    /** `AddHead`: the element becomes first; the others keep their order. */
    method AddHead(p: Link)
      requires Valid() && p != root && p !in nodes
      modifies this, root, nodes, p
      ensures Valid() && nodes == [p] + old(nodes)
    {
      AddLinkBetweenLinks(p, root, root.next, 0);
    }

    /** `AddTail`: the element becomes last; the others keep their order. */
    method AddTail(p: Link)
      requires Valid() && p != root && p !in nodes
      modifies this, root, nodes, p
      ensures Valid() && nodes == old(nodes) + [p]
    {
      AddLinkBetweenLinks(p, root.prev, root, |nodes|);
    }

    /**
     * `RemoveLink`: the sentinel is left alone; any other (linked) element
     * is unlinked, its own pointers nulled, and the rest keep their order.
     */
    method RemoveLink(item: Link, ghost k: int)
      requires Valid() && (item == root || (0 <= k < |nodes| && nodes[k] == item))
      modifies this, root, nodes
      ensures Valid()
      ensures item == root ==> nodes == old(nodes)
      ensures item != root ==>
        nodes == old(nodes)[..k] + old(nodes)[k + 1..] && item.next == null && item.prev == null
    {
      if item == root {
        return;
      }
      ghost var s := nodes;
      ghost var t := s[..k] + s[k + 1..];
      DistinctAfterRemove(root, s, k);
      RemoveIndices(s, k);
      var before, after := item.prev, item.next;
      assert before == At(root, s, k - 1) && after == At(root, s, k + 1);
      after.prev := before;
      before.next := after;
      item.next := null;
      item.prev := null;
      forall i {:trigger t[i].next} | 0 <= i < |t|
        ensures t[i].next == At(root, t, i + 1)
      {
        if i < k - 1 {
          assert t[i] == s[i] && s[i] != before;
        } else if i >= k {
          assert t[i] == s[i + 1] && s[i + 1] != before;
        }
      }
      forall i {:trigger t[i].prev} | 0 <= i < |t|
        ensures t[i].prev == At(root, t, i - 1)
      {
        if i < k {
          assert t[i] == s[i] && s[i] != after;
        } else if i > k {
          assert t[i] == s[i + 1] && s[i + 1] != after;
        }
      }
      size := size - 1;
      nodes := t;
    }

    /** Where the elements of `s` sit after the one at `k` is taken out. */
    static lemma RemoveIndices(s: seq<Link>, k: nat)
      requires k < |s|
      ensures var t := s[..k] + s[k + 1..];
        |t| == |s| - 1 &&
        (forall i :: 0 <= i < k ==> t[i] == s[i]) &&
        (forall i :: k <= i < |t| ==> t[i] == s[i + 1])
    {
    }

    /** `Remove(p)`: `RemoveLink` of the element's link. */
    method Remove(p: Link)
      requires Valid() && (p == root || p in nodes)
      modifies this, root, nodes
      ensures Valid() && |nodes| == if p == root then old(|nodes|) else old(|nodes|) - 1
      ensures p != root ==> p !in nodes && p.next == null && p.prev == null
      ensures forall q :: q in nodes <==> q in old(nodes) && q != p
      ensures p == root ==> nodes == old(nodes)
      ensures p != root ==> exists k | 0 <= k < |old(nodes)| ::
        old(nodes)[k] == p && nodes == old(nodes)[..k] + old(nodes)[k + 1..]
    {
      ghost var k := -1;
      if p != root {
        k :| 0 <= k < |nodes| && nodes[k] == p;
        DistinctAfterRemove(root, nodes, k);
      }
      RemoveLink(p, k);
    }

    /** `Clear`: every element is unlinked in turn, front to back. */
    method Clear()
      requires Valid()
      modifies this, root, nodes
      ensures Valid() && nodes == [] && size == 0
      ensures forall q :: q in old(nodes) ==> q.next == null && q.prev == null
    {
      if IsEmpty() {
        return;
      }
      var link := root.next;
      ghost var all, j := nodes, 0;
      while link != root
        invariant Valid() && j <= |all| && nodes == all[j..]
        invariant link == Ring(0)
        invariant forall i | 0 <= i < j ::
          all[i].next == null && all[i].prev == null && all[i] !in nodes && all[i] != root
        decreases |nodes|
      {
        var safeNext := link.next;
        ghost var before := nodes;
        DistinctAfterRemove(root, before, 0);
        RemoveLink(link, 0);
        assert nodes == before[1..] && all[j + 1..] == before[1..];
        link := safeNext;
        j := j + 1;
      }
      forall q | q in all ensures q.next == null && q.prev == null {
        var i :| 0 <= i < |all| && all[i] == q;
      }
    }

    /** `Size()`. */
    function Size(): (r: nat)
      requires Valid()
      reads this, root, nodes
      ensures r == |nodes|
    {
      size
    }

    /** `IsEmpty()`. */
    function IsEmpty(): (r: bool)
      requires Valid()
      reads this, root, nodes
      ensures r <==> nodes == []
    {
      size == 0
    }

    /** `GetHead()`: null for an empty list, else the first element. */
    function GetHead(): (r: Link?)
      requires Valid()
      reads this, root, nodes
      ensures r == if nodes == [] then null else nodes[0]
    {
      if IsEmpty() then null else root.next
    }

    /** `GetTail()`: null for an empty list, else the last element. */
    function GetTail(): (r: Link?)
      requires Valid()
      reads this, root, nodes
      ensures r == if nodes == [] then null else nodes[|nodes| - 1]
    {
      if IsEmpty() then null else root.prev
    }

    /**
     * A range-for over the list: `++` from `begin()` until `end()`. It visits
     * the elements in list order and stops after exactly `Size()` steps.
     */
    method Iterate() returns (visited: seq<Link>)
      requires Valid()
      ensures visited == nodes && |visited| == size
    {
      var link := root.next;
      visited := [];
      while link != root
        invariant |visited| <= |nodes| && visited == nodes[..|visited|] && link == Ring(|visited|)
        decreases |nodes| - |visited|
      {
        visited := visited + [link];
        link := link.next;
      }
    }

    /** Where an iterator's link sits in the walk from `begin()`: the sentinel (`end()`) comes last. */
    ghost function Index(link: Link): (r: nat)
      reads this
      requires link == root || link in nodes
      ensures r <= |nodes| && Ring(r) == link
    {
      if link == root then |nodes| else
      var i :| 0 <= i < |nodes| && nodes[i] == link; i
    }

    /**
     * The iterator's `operator<`: walking from the head, `a` is reached no
     * later than `b`. So `a < a` holds for an element, and `end()` is
     * below nothing.
     */
    method Less(a: Link, b: Link) returns (r: bool)
      requires Valid() && (a == root || a in nodes) && (b == root || b in nodes)
      ensures r <==> a != root && Index(a) <= Index(b)
    {
      var link := root.next;
      ghost var i := 0;
      while link != root
        invariant i <= |nodes| && link == Ring(i)
        invariant a !in nodes[..i] && b !in nodes[..i]
        decreases |nodes| - i
      {
        if link == a {
          return true;
        }
        if link == b {
          return false;
        }
        assert nodes[..i + 1] == nodes[..i] + [link];
        link := link.next;
        i := i + 1;
      }
      assert nodes[..i] == nodes;
      return false;
    }
  }
}
