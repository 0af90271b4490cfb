/** Queues of network buffers: a circular doubly linked list threaded through the
    buffers, with a sentinel in the queue and a cached 32-bit size. */
module NetBufQueue {
  import opened Common
  import opened NetBuffer

  // ------------------------------------------------------ the links

  ghost predicate Linked(ring: seq<DListHead>)
    reads ring`next, ring`prev
  {
    forall i | 0 <= i < |ring| - 1 :: ring[i].next == ring[i + 1] && ring[i + 1].prev == ring[i]
  }

  /** The link of each buffer, in order. */
  ghost predicate LinksOf(links: seq<DListHead>, bufs: seq<NetBuf>)
    reads links`owner
  {
    |links| == |bufs| && forall i | 0 <= i < |bufs| :: links[i] == bufs[i].dlist && links[i].owner == bufs[i]
  }

  /** The pointers alone determine what the queue holds. */
  lemma {:induction false} PointersDetermineContents(head: DListHead, a: seq<DListHead>, b: seq<DListHead>,
                                                     x: seq<NetBuf>, y: seq<NetBuf>, k: nat)
    requires head.owner == null && LinksOf(a, x) && LinksOf(b, y)
    requires Linked([head] + a + [head]) && Linked([head] + b + [head])
    requires k <= |a| && k <= |b| && a[..k] == b[..k]
    ensures a == b && x == y
    decreases |a| - k
  {
    var ra, rb := [head] + a + [head], [head] + b + [head];
    assert ra[k] == rb[k] by {
      if k > 0 {
        assert a[..k][k - 1] == b[..k][k - 1];
      }
    }
    assert ra[k + 1] == rb[k + 1];
    assert k < |a| ==> ra[k + 1].owner == x[k];
    assert k < |b| ==> rb[k + 1].owner == y[k];
    if k < |a| && k < |b| {
      assert a[..k + 1] == a[..k] + [a[k]] && b[..k + 1] == b[..k] + [b[k]];
      PointersDetermineContents(head, a, b, x, y, k + 1);
    } else {
      assert a == a[..k] && b == b[..k];
      assert x == y by {
        assert forall i | 0 <= i < |x| :: x[i] == a[i].owner == b[i].owner == y[i];
      }
    }
  }

  // ------------------------------------------------------ hdf_dlist.h

  method DListHeadInit(head: DListHead)
    modifies head`next, head`prev
    ensures head.next == head && head.prev == head
  {
    head.next := head;
    head.prev := head;
  }

  /** Puts `node` between `head.prev` and `head`. */
  method DListInsertTail(node: DListHead, head: DListHead, ghost links: seq<DListHead>)
    requires Linked([head] + links + [head])
    requires Distinct(links) && head !in links && node !in links && node != head
    modifies head`next, head`prev, node`next, node`prev, links`next, links`prev
    ensures Linked([head] + (links + [node]) + [head])
  {
    ghost var was, now, k := [head] + links + [head], [head] + (links + [node]) + [head], |links|;
    assert was[k].next == was[k + 1] && was[k + 1].prev == was[k];
    assert was[k] == head || was[k] in links;
    node.prev := head.prev;
    node.next := head;
    head.prev.next := node;
    head.prev := node;
    forall i | 0 <= i < |now| - 1
      ensures now[i].next == now[i + 1] && now[i + 1].prev == now[i]
    {
      if i < k {
        assert now[i] == was[i] && now[i + 1] == was[i + 1];
        assert old(was[i].next == was[i + 1] && was[i + 1].prev == was[i]);
      }
    }
  }

  /** Puts `node` between `head` and `head.next`. */
  method DListInsertHead(node: DListHead, head: DListHead, ghost links: seq<DListHead>)
    requires Linked([head] + links + [head])
    requires Distinct(links) && head !in links && node !in links && node != head
    modifies head`next, head`prev, node`next, node`prev, links`next, links`prev
    ensures Linked([head] + ([node] + links) + [head])
  {
    ghost var was, now := [head] + links + [head], [head] + ([node] + links) + [head];
    assert was[0].next == was[1] && was[1].prev == was[0];
    assert was[1] == head || was[1] in links;
    node.next := head.next;
    node.prev := head;
    head.next.prev := node;
    head.next := node;
    forall i | 0 <= i < |now| - 1
      ensures now[i].next == now[i + 1] && now[i + 1].prev == now[i]
    {
      if i > 1 {
        assert now[i] == was[i - 1] && now[i + 1] == was[i];
        assert old(was[i - 1].next == was[i - 1 + 1] && was[i - 1 + 1].prev == was[i - 1]);
      }
    }
  }

  /** Takes the `j`-th link out. */
  method DListRemove(node: DListHead, ghost head: DListHead, ghost links: seq<DListHead>, ghost j: nat)
    requires Linked([head] + links + [head])
    requires Distinct(links) && head !in links && j < |links| && node == links[j]
    modifies head`next, head`prev, links`next, links`prev
    ensures Linked([head] + (links[..j] + links[j + 1..]) + [head])
    ensures node.next == null && node.prev == null
  {
    ghost var was, now := [head] + links + [head], [head] + (links[..j] + links[j + 1..]) + [head];
    assert was[j + 1] == node;
    assert was[j].next == was[j + 1] && was[j + 1].prev == was[j];
    assert was[j + 1].next == was[j + 1 + 1] && was[j + 1 + 1].prev == was[j + 1];
    assert was[j] == head || was[j] == links[j - 1];
    assert was[j + 2] == head || was[j + 2] == links[j + 1];
    node.prev.next := node.next;
    node.next.prev := node.prev;
    node.next := null;
    node.prev := null;
    forall i | 0 <= i < |now| - 1
      ensures now[i].next == now[i + 1] && now[i + 1].prev == now[i]
    {
      if i < j {
        assert now[i] == was[i] && now[i + 1] == was[i + 1];
        assert old(was[i].next == was[i + 1] && was[i + 1].prev == was[i]);
      } else if i > j {
        assert now[i] == was[i + 1] && now[i + 1] == was[i + 2];
        assert old(was[i + 1].next == was[i + 1 + 1] && was[i + 1 + 1].prev == was[i + 1]);
      } else {
        assert now[i] == was[i] && now[i + 1] == was[i + 2];
      }
    }
  }

  /** Moves everything in `list` behind everything in `head`; a list merged with itself is
      left empty, its links cut off. */
  method DListMerge(list: DListHead, head: DListHead, ghost more: seq<DListHead>, ghost links: seq<DListHead>)
    requires Linked([head] + links + [head]) && Linked([list] + more + [list]) && more != []
    requires if list == head then links == more && head !in more else Distinct([head] + links + more + [list])
    modifies list`next, list`prev, head`next, head`prev, links`next, links`prev, more`next, more`prev
    ensures Linked([list] + [] + [list])
    ensures list != head ==> Linked([head] + (links + more) + [head])
  {
    ghost var all, p, q := [head] + links + more + [list], |links|, |more|;
    ghost var was, add := [head] + links + [head], [list] + more + [list];
    ghost var now := [head] + (links + more) + [head];
    assert forall i | 0 <= i < |now| - 1 :: now[i] == all[i];
    assert forall i | 0 <= i <= p :: was[i] == all[i];
    assert forall i | 0 < i <= q :: add[i] == all[p + i];
    assert head == all[0] && list == all[p + q + 1] && add[q] == all[p + q];
    assert was[p].next == was[p + 1] && was[p + 1].prev == was[p];
    assert add[0].next == add[1] && add[0 + 1].prev == add[0];
    assert add[q].next == add[q + 1] && add[q + 1].prev == add[q];
    list.next.prev := head.prev;
    head.prev.next := list.next;
    list.prev.next := head;
    head.prev := list.prev;
    DListHeadInit(list);
    if list != head {
      forall i | 0 <= i < |now| - 1
        ensures now[i].next == now[i + 1] && now[i + 1].prev == now[i]
      {
        if i < p {
          assert old(was[i].next == was[i + 1] && was[i + 1].prev == was[i]);
        } else if p < i < p + q {
          assert now[i] == add[i - p] && now[i + 1] == add[i - p + 1];
          assert old(add[i - p].next == add[i - p + 1] && add[i - p + 1].prev == add[i - p]);
        }
      }
    }
  }

  // ------------------------------------------------------ the queue

  lemma WrapIsMod(n: int)
    ensures exists k: int :: n == Wrap(n) + k * TWO_TO_32
  {
    assert n == n % TWO_TO_32 + n / TWO_TO_32 * TWO_TO_32;
    assert Wrap(n) == n % TWO_TO_32;
  }

  lemma WrapPlus(x: int, y: int, k: int)
    requires x == y + k * TWO_TO_32
    ensures Wrap(x) == Wrap(y)
  {
    ModPlus(y, k);
    assert Wrap(x) == x % TWO_TO_32 && Wrap(y) == y % TWO_TO_32;
  }

  lemma WrapSums(m: nat, n: nat)
    ensures Wrap(Wrap(m) + Wrap(n)) == Wrap(m + n)
    ensures Wrap(Wrap(m) - Wrap(n)) == Wrap(m - n)
  {
    WrapIsMod(m);
    WrapIsMod(n);
    var j: int :| m == Wrap(m) + j * TWO_TO_32;
    var k: int :| n == Wrap(n) + k * TWO_TO_32;
    WrapPlus(m + n, Wrap(m) + Wrap(n), j + k);
    WrapPlus(m - n, Wrap(m) - Wrap(n), j - k);
  }

  /** The list from sentinel `head` runs through the links of `bufs`, each once, in order. */
  ghost predicate Chain(head: DListHead, links: seq<DListHead>, bufs: seq<NetBuf>)
    reads head`next, head`prev, head`owner, links`next, links`prev, links`owner
  {
    && head.owner == null && head !in links
    && Distinct(links) && LinksOf(links, bufs)
    && Linked([head] + links + [head])
  }

  class Queue {
    const dlist: DListHead
    var size: nat
    ghost var links: seq<DListHead>
    ghost var bufs: seq<NetBuf>

    ghost predicate Valid()
      reads this, dlist, links
    {
      Chain(dlist, links, bufs) && size == Wrap(|bufs|)
    }

    /** NetBufQueueInit. */
    constructor Init()
      ensures Valid() && bufs == [] && fresh(dlist)
    {
      dlist := new DListHead();
      size := 0;
      links, bufs := [], [];
      new;
      DListHeadInit(dlist);
    }
  }

  /** The list from the sentinel has changed; the cached size is set to stand for it. */
  method Settle(q: Queue, size: nat, ghost links: seq<DListHead>, ghost bufs: seq<NetBuf>)
    requires Chain(q.dlist, links, bufs) && size == Wrap(|bufs|)
    modifies q`size, q`links, q`bufs
    ensures q.Valid() && q.links == links && q.bufs == bufs
  {
    q.size, q.links, q.bufs := size, links, bufs;
  }

  /** The links a queue operation may change; their owners stay. */
  ghost function Nodes(q: Queue?): set<DListHead>
    reads q
  {
    if q == null then {} else {q.dlist} + set n | n in q.links
  }

  /** What linking `nb` into `q` touches. */
  ghost function NodesWith(q: Queue?, nb: NetBuf?): set<DListHead>
    reads q
  {
    if nb == null then {} else Nodes(q) + {nb.dlist}
  }

  ghost function NodeOf(nb: NetBuf?): set<DListHead> {
    if nb == null then {} else {nb.dlist}
  }

  method Size(q: Queue?) returns (n: nat)
    requires q != null ==> q.Valid()
    ensures n == if q == null then 0 else Wrap(|q.bufs|)
  {
    n := if q == null then 0 else q.size;
  }

  method IsEmpty(q: Queue?) returns (empty: bool)
    requires q != null ==> q.Valid()
    ensures empty <==> q == null || q.bufs == []
  {
    if q == null {
      return true;
    }
    assert ([q.dlist] + q.links + [q.dlist])[0].next == ([q.dlist] + q.links + [q.dlist])[1];
    return q.dlist.next == q.dlist;
  }

  method AtHead(q: Queue?) returns (nb: NetBuf?)
    requires q != null ==> q.Valid()
    ensures nb == if q == null || q.bufs == [] then null else q.bufs[0]
  {
    var empty := IsEmpty(q);
    if empty {
      return null;
    }
    assert ([q.dlist] + q.links + [q.dlist])[0].next == ([q.dlist] + q.links + [q.dlist])[1];
    return q.dlist.next.owner;
  }

  method AtTail(q: Queue?) returns (nb: NetBuf?)
    requires q != null ==> q.Valid()
    ensures nb == if q == null || q.bufs == [] then null else q.bufs[|q.bufs| - 1]
  {
    var empty := IsEmpty(q);
    if empty {
      return null;
    }
    ghost var ring, k := [q.dlist] + q.links + [q.dlist], |q.bufs|;
    assert ring[k + 1].prev == ring[k];
    return q.dlist.prev.owner;
  }

  method AppendToChain(node: DListHead, head: DListHead, ghost links: seq<DListHead>, ghost bufs: seq<NetBuf>,
                       ghost nb: NetBuf)
    requires Chain(head, links, bufs) && node == nb.dlist && node.owner == nb && node !in links
    modifies head`next, head`prev, node`next, node`prev, links`next, links`prev
    ensures Chain(head, links + [node], bufs + [nb])
  {
    DListInsertTail(node, head, links);
  }

  method PrependToChain(node: DListHead, head: DListHead, ghost links: seq<DListHead>, ghost bufs: seq<NetBuf>,
                        ghost nb: NetBuf)
    requires Chain(head, links, bufs) && node == nb.dlist && node.owner == nb && node !in links
    modifies head`next, head`prev, node`next, node`prev, links`next, links`prev
    ensures Chain(head, [node] + links, [nb] + bufs)
  {
    DListInsertHead(node, head, links);
  }

  method Enqueue(q: Queue?, nb: NetBuf?)
    requires q != null ==> q.Valid()
    requires q != null && nb != null ==> nb.dlist !in q.links && nb.dlist.owner == nb
    modifies if nb == null then {} else {q}, NodesWith(q, nb)`next, NodesWith(q, nb)`prev
    ensures q != null ==> q.Valid()
    ensures q != null ==> q.bufs == old(q.bufs) + if nb == null then [] else [nb]
  {
    if q == null || nb == null {
      return;
    }
    AppendToChain(nb.dlist, q.dlist, q.links, q.bufs, nb);
    WrapSums(|q.bufs|, 1);
    Settle(q, Wrap(q.size + 1), q.links + [nb.dlist], q.bufs + [nb]);
  }

  method EnqueueHead(q: Queue?, nb: NetBuf?)
    requires q != null ==> q.Valid()
    requires q != null && nb != null ==> nb.dlist !in q.links && nb.dlist.owner == nb
    modifies if nb == null then {} else {q}, NodesWith(q, nb)`next, NodesWith(q, nb)`prev
    ensures q != null ==> q.Valid()
    ensures q != null ==> q.bufs == (if nb == null then [] else [nb]) + old(q.bufs)
  {
    if q == null || nb == null {
      return;
    }
    PrependToChain(nb.dlist, q.dlist, q.links, q.bufs, nb);
    WrapSums(|q.bufs|, 1);
    Settle(q, Wrap(q.size + 1), [nb.dlist] + q.links, [nb] + q.bufs);
  }

  method RemoveFromChain(node: DListHead, ghost head: DListHead, ghost links: seq<DListHead>,
                         ghost bufs: seq<NetBuf>, ghost j: nat)
    requires Chain(head, links, bufs) && j < |links| && node == links[j]
    modifies head`next, head`prev, links`next, links`prev
    ensures Chain(head, links[..j] + links[j + 1..], bufs[..j] + bufs[j + 1..])
    ensures node.next == null && node.prev == null && node.owner == bufs[j]
  {
    DListRemove(node, head, links, j);
  }

  /** DListRemove and the size update, shared by both ends. */
  method Unlink(q: Queue, nb: NetBuf, ghost j: nat)
    requires q.Valid() && j < |q.bufs| && nb == q.bufs[j]
    modifies q, Nodes(q)`next, Nodes(q)`prev
    ensures q.Valid() && q.bufs == old(q.bufs[..j] + q.bufs[j + 1..])
    ensures q.links == old(q.links[..j] + q.links[j + 1..])
    ensures nb.dlist.next == null && nb.dlist.prev == null && nb.dlist.owner == nb
  {
    RemoveFromChain(nb.dlist, q.dlist, q.links, q.bufs, j);
    WrapSums(|q.bufs|, 1);
    Settle(q, Wrap(q.size - 1), q.links[..j] + q.links[j + 1..], q.bufs[..j] + q.bufs[j + 1..]);
  }

  method Dequeue(q: Queue?) returns (nb: NetBuf?)
    requires q != null ==> q.Valid()
    modifies q, Nodes(q)`next, Nodes(q)`prev
    ensures q != null ==> q.Valid()
    ensures q != null && nb != null ==> old(q.links) != [] && q.links == old(q.links)[1..]
    ensures nb == if q == null || old(q.bufs) == [] then null else old(q.bufs)[0]
    ensures q != null ==> q.bufs == if nb == null then old(q.bufs) else old(q.bufs)[1..]
    ensures nb != null ==> nb.dlist.next == null && nb.dlist.prev == null && nb.dlist.owner == nb
  {
    nb := AtHead(q);
    if nb != null {
      Unlink(q, nb, 0);
    }
  }

  method DequeueTail(q: Queue?) returns (nb: NetBuf?)
    requires q != null ==> q.Valid()
    modifies q, Nodes(q)`next, Nodes(q)`prev
    ensures q != null ==> q.Valid()
    ensures q != null && nb != null ==> old(q.links) != [] && q.links == old(q.links)[..|old(q.links)| - 1]
    ensures nb == if q == null || old(q.bufs) == [] then null else old(q.bufs)[|old(q.bufs)| - 1]
    ensures q != null ==> q.bufs == if nb == null then old(q.bufs) else old(q.bufs)[..|old(q.bufs)| - 1]
    ensures nb != null ==> nb.dlist.next == null && nb.dlist.prev == null && nb.dlist.owner == nb
  {
    nb := AtTail(q);
    if nb != null {
      Unlink(q, nb, |q.bufs| - 1);
    }
  }

  lemma OwnersDistinct(links: seq<DListHead>, bufs: seq<NetBuf>)
    requires Distinct(links) && LinksOf(links, bufs)
    ensures Distinct(bufs)
  {}

  /** The first `k` buffers are freed, once; the others are not. */
  ghost predicate FreedUpTo(bufs: seq<NetBuf>, k: nat)
    reads bufs
  {
    forall i | 0 <= i < |bufs| :: if i < k then bufs[i].frees == 1 && bufs[i].mem == null else bufs[i].frees == 0
  }

  method FreeNext(nb: NetBuf, ghost bufs: seq<NetBuf>, ghost k: nat)
    requires Distinct(bufs) && k < |bufs| && nb == bufs[k] && FreedUpTo(bufs, k)
    modifies nb
    ensures FreedUpTo(bufs, k + 1)
  {
    nb.Free();
  }

  /** The queue is left with the buffers behind the `k`-th of `all`, which is in `nb`. */
  ghost predicate TakenUpTo(q: Queue, nb: NetBuf?, all: seq<NetBuf>, links: seq<DListHead>, k: nat)
    requires k <= |all| == |links|
    reads q
  {
    if k == |all| then nb == null && q.bufs == [] && q.links == []
    else nb == all[k] && q.bufs == all[k + 1..] && q.links == links[k + 1..]
  }

  method FreeAndNext(q: Queue, nb: NetBuf, ghost all: seq<NetBuf>, ghost links: seq<DListHead>, ghost k: nat)
    returns (next: NetBuf?)
    requires q.Valid() && k < |all| == |links| && Distinct(all)
    requires FreedUpTo(all, k) && TakenUpTo(q, nb, all, links, k)
    modifies q, Nodes(q)`next, Nodes(q)`prev, nb
    ensures q.Valid() && FreedUpTo(all, k + 1) && TakenUpTo(q, next, all, links, k + 1)
  {
    FreeNext(nb, all, k);
    next := Dequeue(q);
  }

  method Drain(q: Queue)
    requires q.Valid() && FreedUpTo(q.bufs, 0)
    modifies q, Nodes(q)`next, Nodes(q)`prev, q.bufs
    ensures q.Valid() && q.bufs == [] && FreedUpTo(old(q.bufs), |old(q.bufs)|)
  {
    ghost var all, links, k := q.bufs, q.links, 0;
    OwnersDistinct(links, all);
    var nb := Dequeue(q);
    while nb != null
      invariant q.Valid() && k <= |all| == |links| && FreedUpTo(all, k)
      invariant TakenUpTo(q, nb, all, links, k)
      decreases |all| - k
    {
      nb := FreeAndNext(q, nb, all, links, k);
      k := k + 1;
    }
  }

  /** Frees every queued buffer, each exactly once, front to back. */
  method Clear(q: Queue?)
    requires q != null ==> q.Valid() && forall b <- q.bufs :: b.frees == 0
    modifies q, Nodes(q)`next, Nodes(q)`prev, if q == null then [] else q.bufs
    ensures q != null ==> q.Valid() && q.bufs == []
    ensures q != null ==> forall b <- old(q.bufs) :: b.frees == 1 && b.mem == null
  {
    if q == null {
      return;
    }
    Drain(q);
  }

  lemma DistinctSum(a: seq<DListHead>, b: seq<DListHead>)
    requires Distinct(a) && Distinct(b) && forall n <- a :: n !in b
    ensures Distinct(a + b)
  {
    forall i, j | 0 <= i < j < |a + b|
      ensures (a + b)[i] != (a + b)[j]
    {
      if i < |a| <= j {
        assert (a + b)[i] in a && (a + b)[j] in b;
      }
    }
  }

  lemma AllDistinct(h: DListHead, a: seq<DListHead>, b: seq<DListHead>, l: DListHead)
    requires Distinct(a) && Distinct(b) && (forall n <- a :: n !in b)
    requires h != l && h !in a && h !in b && l !in a && l !in b
    ensures Distinct(a + b) && Distinct([h] + a + b + [l])
  {
    DistinctSum(a, b);
    DistinctSum([h], a);
    DistinctSum([h] + a, b);
    DistinctSum([h] + a + b, [l]);
  }

  lemma LinksOfConcat(a: seq<DListHead>, b: seq<DListHead>, x: seq<NetBuf>, y: seq<NetBuf>)
    requires LinksOf(a, x) && LinksOf(b, y)
    ensures LinksOf(a + b, x + y)
  {}

  method MergeChains(list: DListHead, head: DListHead, ghost more: seq<DListHead>, ghost links: seq<DListHead>,
                     ghost y: seq<NetBuf>, ghost x: seq<NetBuf>)
    requires Chain(head, links, x) && Chain(list, more, y) && more != []
    requires head != list && forall n <- links :: n !in more
    modifies list`next, list`prev, head`next, head`prev, links`next, links`prev, more`next, more`prev
    ensures Chain(head, links + more, x + y) && Chain(list, [], [])
  {
    AllDistinct(head, links, more, list);
    LinksOfConcat(links, more, x, y);
    DListMerge(list, head, more, links);
  }

  /** The two queues have no link in common. */
  ghost predicate Separate(q: Queue, add: Queue)
    reads q, add
  {
    q.dlist != add.dlist && forall n <- q.links :: n !in add.links
  }

  /** DListMerge and the size update. */
  method Splice(q: Queue, add: Queue)
    requires q.Valid() && add.Valid() && add.bufs != []
    requires q != add && Separate(q, add)
    modifies q, add, Nodes(q)`next, Nodes(q)`prev, Nodes(add)`next, Nodes(add)`prev
    ensures q.Valid() && add.Valid()
    ensures q.bufs == old(q.bufs) + old(add.bufs) && add.bufs == []
  {
    MergeChains(add.dlist, q.dlist, add.links, q.links, add.bufs, q.bufs);
    WrapSums(|q.bufs|, |add.bufs|);
    Settle(q, Wrap(q.size + add.size), q.links + add.links, q.bufs + add.bufs);
    Settle(add, 0, [], []);
  }

  /** The same statements where both names stand for one queue. */
  method SpliceSelf(q: Queue)
    requires q.Valid() && q.bufs != []
    modifies q, Nodes(q)`next, Nodes(q)`prev
    ensures q.Valid() && q.bufs == []
  {
    DListMerge(q.dlist, q.dlist, q.links, q.links);
    q.size := Wrap(q.size + q.size);
    q.size := 0;
    q.links, q.bufs := [], [];
  }

  /** q receives everything in `add`, behind what it has, and `add` is left empty. A queue
      concatenated with itself is left empty, its buffers neither queued nor freed. */
  method Concat(q: Queue?, add: Queue?)
    requires q != null ==> q.Valid()
    requires add != null ==> add.Valid()
    requires q != null && add != null && q != add ==> Separate(q, add)
    modifies q, add, Nodes(q)`next, Nodes(q)`prev, Nodes(add)`next, Nodes(add)`prev
    ensures q != null ==> q.Valid()
    ensures add != null ==> add.Valid()
    ensures q != null && q != add ==> q.bufs == old(q.bufs) + if add == null then [] else old(add.bufs)
    ensures add != null ==> add.bufs == if q == null then old(add.bufs) else []
  {
    if q == null {
      return;
    }
    var empty := IsEmpty(add);
    if !empty {
      if q == add {
        SpliceSelf(q);
      } else {
        Splice(q, add);
      }
    }
  }
}
