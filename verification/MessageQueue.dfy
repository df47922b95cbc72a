/**
 The message queue: pools of sixteen nodes shared between an idle and a ready ring, with payloads
 copied into memory the nodes own. `nodes` is every node of every pool; the rings divide it.
 */
module MessageQueue {
  import opened Bytes
  import opened Rings

  const MAX_MESSAGE_ELEMENTS: nat := 16

  // A node's entry. The pointer 0 is NULL.
  datatype Message = Message(id: int, cmd: int, para0: int, para1: int, ptr: nat, size: int)

  const BLANK := Message(0, 0, 0, 0, 0, 0)

  // What a caller hands in: no data, a negative size, or bytes.
  datatype Payload = Null | Negative | Data(bytes: seq<byte>)

  datatype Request = Request(id: int, cmd: int, para0: int, para1: int, payload: Payload)

  // What a receiver sees: the fields, and the bytes behind the pointer.
  datatype Delivery = Delivery(id: int, cmd: int, para0: int, para1: int, bytes: seq<byte>)

  function Delivered(m: Message, live: map<nat, seq<byte>>): Delivery {
    Delivery(m.id, m.cmd, m.para0, m.para1, if m.size > 0 && m.ptr in live then live[m.ptr] else [])
  }

  function Deliveries(ms: seq<Message>, live: map<nat, seq<byte>>): (c: seq<Delivery>)
    ensures |c| == |ms|
  {
    seq(|ms|, i requires 0 <= i < |ms| => Delivered(ms[i], live))
  }

  // ---------------------------------------------------------------- payload memory

  // malloc and free, with every allocation told apart: freeing anything but a live block is an
  // error, so each block is freed at most once.
  class Allocator {
    var live: map<nat, seq<byte>>
    var freed: seq<nat>
    var next: nat

    predicate Valid()
      reads this
    {
      && next > 0 && 0 !in live
      && (forall p :: p in live ==> p < next)
      && (forall i :: 0 <= i < |freed| ==> 0 < freed[i] < next && freed[i] !in live)
      && (forall i, j :: 0 <= i < j < |freed| ==> freed[i] != freed[j])
      && (forall p :: 0 < p < next ==> p in live || p in freed)
    }

    constructor ()
      ensures Valid() && live == map[] && freed == [] && next == 1
    {
      live, freed, next := map[], [], 1;
    }

    // malloc and memcpy; ok says whether malloc found memory.
    method Copy(bytes: seq<byte>, ok: bool) returns (p: nat)
      requires Valid()
      modifies this
      ensures Valid() && freed == old(freed)
      ensures ok ==> p != 0 && p !in old(live) && live == old(live)[p := bytes]
      ensures !ok ==> p == 0 && live == old(live)
    {
      if !ok {
        return 0;
      }
      p := next;
      live := live[p := bytes];
      next := next + 1;
    }

    method Free(p: nat)
      requires Valid() && p in live
      modifies this
      ensures Valid() && live == old(live) - {p} && freed == old(freed) + [p]
    {
      live := live - {p};
      freed := freed + [p];
    }
  }

  // ---------------------------------------------------------------- ownership

  // Every node with a size owns one live block of that size, no two share one, and every other live
  // block has been lost.
  ghost predicate Owning(ds: seq<Message>, live: map<nat, seq<byte>>, lost: set<nat>) {
    && (forall i :: 0 <= i < |ds| ==> ds[i].size >= 0)
    && (forall i :: 0 <= i < |ds| && ds[i].size > 0 ==>
          ds[i].ptr in live && |live[ds[i].ptr]| == ds[i].size && ds[i].ptr !in lost && ds[i].ptr != 0)
    && (forall i, j :: 0 <= i < j < |ds| && ds[i].size > 0 && ds[j].size > 0 ==> ds[i].ptr != ds[j].ptr)
    && (forall p :: p in live ==> p in lost || exists i :: 0 <= i < |ds| && ds[i].size > 0 && ds[i].ptr == p)
    && (forall p :: p in lost ==> p in live)
  }

  lemma OwnedFreed(ds: seq<Message>, live: map<nat, seq<byte>>, lost: set<nat>, k: nat, m: Message)
    requires Owning(ds, live, lost) && k < |ds| && ds[k].size > 0 && m.size == 0
    ensures Owning(ds[k := m], live - {ds[k].ptr}, lost)
  {
    var ds', live' := ds[k := m], live - {ds[k].ptr};
    forall p | p in live' ensures p in lost || exists i :: 0 <= i < |ds'| && ds'[i].size > 0 && ds'[i].ptr == p {
      if p !in lost {
        var i :| 0 <= i < |ds| && ds[i].size > 0 && ds[i].ptr == p;
        assert ds'[i] == ds[i];
      }
    }
  }

  lemma OwnedKept(ds: seq<Message>, live: map<nat, seq<byte>>, lost: set<nat>, k: nat, m: Message)
    requires Owning(ds, live, lost) && k < |ds| && ds[k].size == m.size && (m.size > 0 ==> m.ptr == ds[k].ptr)
    ensures Owning(ds[k := m], live, lost)
  {
    var ds' := ds[k := m];
    forall p | p in live ensures p in lost || exists i :: 0 <= i < |ds'| && ds'[i].size > 0 && ds'[i].ptr == p {
      if p !in lost {
        var i :| 0 <= i < |ds| && ds[i].size > 0 && ds[i].ptr == p;
        assert ds'[i].size > 0 && ds'[i].ptr == p;
      }
    }
  }

  // A fresh copy: a node owns it, unless it has no bytes, for a zero size is never freed.
  lemma OwnedTaken(ds: seq<Message>, live: map<nat, seq<byte>>, lost: set<nat>, k: nat, m: Message, p: nat, b: seq<byte>)
    requires Owning(ds, live, lost) && k < |ds| && ds[k].size == 0
    requires p != 0 && p !in live && m.ptr == p && m.size == |b|
    ensures Owning(ds[k := m], live[p := b], if |b| == 0 then lost + {p} else lost)
    ensures p !in lost
  {
    var ds', live', lost' := ds[k := m], live[p := b], if |b| == 0 then lost + {p} else lost;
    forall q | q in live' ensures q in lost' || exists i :: 0 <= i < |ds| && ds'[i].size > 0 && ds'[i].ptr == q {
      if q == p {
        if |b| > 0 {
          assert ds'[k].size > 0 && ds'[k].ptr == q;
        }
      } else if q !in lost {
        var i :| 0 <= i < |ds| && ds[i].size > 0 && ds[i].ptr == q;
        assert ds'[i] == ds[i];
      }
    }
  }

  // Sixteen blank nodes more.
  lemma OwnedGrown(ds: seq<Message>, live: map<nat, seq<byte>>, lost: set<nat>, more: seq<Message>)
    requires Owning(ds, live, lost) && forall i :: 0 <= i < |more| ==> more[i].size == 0
    ensures Owning(ds + more, live, lost)
  {
    var ds' := ds + more;
    forall p | p in live ensures p in lost || exists i :: 0 <= i < |ds'| && ds'[i].size > 0 && ds'[i].ptr == p {
      if p !in lost {
        var i :| 0 <= i < |ds| && ds[i].size > 0 && ds[i].ptr == p;
        assert ds'[i] == ds[i];
      }
    }
  }

  // ---------------------------------------------------------------- the queue

  // Two sequences divide the elements of a third between them.
  ghost predicate Divide<T>(a: seq<T>, b: seq<T>, all: seq<T>) {
    && |a| + |b| == |all|
    && (forall x :: x in all ==> x in a || x in b)
    && (forall x :: x in a ==> x in all) && (forall x :: x in b ==> x in all)
  }

  lemma NoNodes(idle: Node<Message>, ready: Node<Message>)
    requires idle != ready
    ensures Owning(DataOf([]), map[], {}) && Flatten(DataOf<seq<Node<Message>>>([])) == [] && Deliveries(DataOf([]), map[]) == []
    ensures Distinct<Node<Message>>([]) && Divide<Node<Message>>([], [], []) && Disjoint(idle, [], ready, [])
  {
  }

  // The first entry of one ring goes to the end of the other.
  lemma MoveFacts(h1: Node<Message>, a: seq<Node<Message>>, h2: Node<Message>, b: seq<Node<Message>>, all: seq<Node<Message>>)
    requires a != [] && Distinct(a) && Disjoint(h1, a, h2, b) && h1 !in a && h2 !in b
    requires Divide(a, b, all) || Divide(b, a, all)
    ensures h1 != h2 && SameOrDisjoint(h1, a, h2, b) && Removed(a, 0) == a[1..] && Without(h1, a, 0, h2, b) == b
    ensures a[0] in all && Last(h1, a[..0]) == h1 && First(h1, a) == a[0]
    ensures First(h1, a[1..]) == h1 || First(h1, a[1..]) in all
    ensures Last(h2, b) == h2 || Last(h2, b) in all
    ensures Disjoint(h1, a[1..], h2, b + [a[0]]) && Disjoint(h2, b + [a[0]], h1, a[1..])
    ensures Divide(a, b, all) ==> Divide(a[1..], b + [a[0]], all)
    ensures Divide(b, a, all) ==> Divide(b + [a[0]], a[1..], all)
  {
    assert a == [a[0]] + a[1..];
  }

  // m is an entry other than entry k.
  ghost predicate Other(m: Message, ds: seq<Message>, k: nat) {
    exists i :: 0 <= i < |ds| && i != k && ds[i] == m
  }

  ghost predicate Elsewhere(rs: seq<Message>, ds: seq<Message>, k: nat) {
    forall j :: 0 <= j < |rs| ==> Other(rs[j], ds, k)
  }

  lemma ElsewhereKept(rs: seq<Message>, ds: seq<Message>, k: nat, m: Message)
    requires Elsewhere(rs, ds, k) && k < |ds|
    ensures Elsewhere(rs, ds[k := m], k)
  {
    var ds' := ds[k := m];
    forall j | 0 <= j < |rs| ensures Other(rs[j], ds', k) {
      assert Other(rs[j], ds, k);
      var i :| 0 <= i < |ds| && i != k && ds[i] == rs[j];
      assert ds'[i] == rs[j];
    }
  }

  // A change to the payload of one node does not show through the others.
  lemma OthersKept(rs: seq<Message>, ds: seq<Message>, live: map<nat, seq<byte>>, lost: set<nat>, k: nat, p: nat, b: seq<byte>)
    requires Owning(ds, live, lost) && k < |ds| && Elsewhere(rs, ds, k)
    ensures ds[k].size > 0 ==> Deliveries(rs, live - {ds[k].ptr}) == Deliveries(rs, live)
    ensures p !in live ==> Deliveries(rs, live[p := b]) == Deliveries(rs, live)
  {
    forall j | 0 <= j < |rs|
      ensures ds[k].size > 0 ==> Delivered(rs[j], live - {ds[k].ptr}) == Delivered(rs[j], live)
      ensures p !in live ==> Delivered(rs[j], live[p := b]) == Delivered(rs[j], live)
    {
      assert Other(rs[j], ds, k);
      var i :| 0 <= i < |ds| && i != k && ds[i] == rs[j];
    }
  }

  lemma TakeFacts(rs: seq<Message>, ds: seq<Message>, live: map<nat, seq<byte>>, lost: set<nat>, k: nat, m: Message, p: nat, b: seq<byte>)
    requires Owning(ds, live, lost) && k < |ds| && ds[k].size == 0 && Elsewhere(rs, ds, k)
    requires p != 0 && p !in live && m.ptr == p && m.size == |b|
    ensures Owning(ds[k := m], live[p := b], if |b| == 0 then lost + {p} else lost)
    ensures Deliveries(rs, live[p := b]) == Deliveries(rs, live) && Elsewhere(rs, ds[k := m], k)
    ensures |if |b| == 0 then lost + {p} else lost| == |lost| + if b == [] then 1 else 0
    ensures Delivered(m, live[p := b]) == Delivery(m.id, m.cmd, m.para0, m.para1, b)
  {
    hide Owning, Elsewhere, Deliveries;
    OthersKept(rs, ds, live, lost, k, p, b);
    OwnedTaken(ds, live, lost, k, m, p, b);
    ElsewhereKept(rs, ds, k, m);
    if b == [] {
      assert |lost + {p}| == |lost| + 1;
    }
  }

  // The first idle node is none of the ready ones.
  lemma IdleIsElsewhere(idle: Node<Message>, a: seq<Node<Message>>, ready: Node<Message>, b: seq<Node<Message>>,
                        all: seq<Node<Message>>, k: nat)
    requires a != [] && Disjoint(idle, a, ready, b) && Divide(a, b, all) && k < |all| && all[k] == a[0]
    ensures Elsewhere(DataOf(b), DataOf(all), k)
  {
    var rs, ds := DataOf(b), DataOf(all);
    forall j | 0 <= j < |rs| ensures Other(rs[j], ds, k) {
      assert b[j] in all;
      var i :| 0 <= i < |all| && all[i] == b[j];
      assert ds[i] == rs[j];
    }
  }

  lemma EntriesMoved(a: seq<Node<Message>>, b: seq<Node<Message>>, live: map<nat, seq<byte>>)
    requires a != []
    ensures DataOf(a[1..]) == DataOf(a)[1..] && DataOf(b + [a[0]]) == DataOf(b) + [a[0].data]
    ensures Deliveries(DataOf(a[1..]), live) == Deliveries(DataOf(a), live)[1..]
    ensures Deliveries(DataOf(b + [a[0]]), live) == Deliveries(DataOf(b), live) + [Delivered(a[0].data, live)]
  {
    EntriesEnds(a, b);
    DeliveriesEnds(DataOf(a), DataOf(b), live);
    hide DataOf, Deliveries;
  }

  lemma EntriesEnds(a: seq<Node<Message>>, b: seq<Node<Message>>)
    requires a != []
    ensures DataOf(a[1..]) == DataOf(a)[1..] && DataOf(b + [a[0]]) == DataOf(b) + [a[0].data]
    ensures DataOf(a) != [] && DataOf(a)[0] == a[0].data
  {
  }

  lemma DeliveriesEnds(x: seq<Message>, y: seq<Message>, live: map<nat, seq<byte>>)
    requires x != []
    ensures Deliveries(x[1..], live) == Deliveries(x, live)[1..]
    ensures Deliveries(y + [x[0]], live) == Deliveries(y, live) + [Delivered(x[0], live)]
  {
  }

  ghost predicate PoolsApart(bufs: Node<seq<Node<Message>>>, pools: seq<Node<seq<Node<Message>>>>,
                             idle: Node<Message>, ready: Node<Message>, nodes: seq<Node<Message>>)
  {
    && (bufs as object) !in {idle, ready} + (set n | n in nodes)
    && (forall p :: p in pools ==> (p as object) !in {idle, ready} + (set n | n in nodes))
  }

  lemma FirstIdle(idle: Node<Message>, a: seq<Node<Message>>, ready: Node<Message>, b: seq<Node<Message>>)
    requires a != [] && Disjoint(idle, a, ready, b)
    ensures a[0] !in b && First(idle, a) == a[0]
  {
  }

  // The nodes a move touches are among all nodes, or list heads.
  lemma Touched(idle: Node<Message>, a: seq<Node<Message>>, ready: Node<Message>, b: seq<Node<Message>>, all: seq<Node<Message>>)
    requires a != [] && Divide(a, b, all)
    ensures First(idle, a) in all
    ensures First(idle, a[1..]) == idle || First(idle, a[1..]) in all
    ensures Last(ready, b) == ready || Last(ready, b) in all
  {
    assert a == [a[0]] + a[1..];
  }

  lemma FirstIs(head: Node<Message>, s: seq<Node<Message>>)
    requires head !in s
    ensures First(head, s) == head <==> s == []
    ensures s != [] ==> First(head, s) == s[0]
  {
  }

  lemma SecondIs(head: Node<Message>, s: seq<Node<Message>>)
    requires Ring(head, s) && s != []
    ensures s[0].next == First(head, s[1..])
  {
  }

  lemma NotReady(idle: Node<Message>, a: seq<Node<Message>>, ready: Node<Message>, b: seq<Node<Message>>, n: Node<Message>)
    requires Disjoint(idle, a, ready, b) && n in a
    ensures n !in b
  {
  }

  lemma LastBefore(head: Node<Message>, s: seq<Node<Message>>, i: nat)
    requires Ring(head, s) && i <= |s|
    ensures s[..|s|] == s && head.prev == Last(head, s)
    ensures Last(head, s[..i]) == head <==> i == 0
    ensures i > 0 ==> Last(head, s[..i]) == s[i - 1] && s[i - 1] in s && s[i - 1].prev == Last(head, s[..i - 1])
  {
    Ends(head, s, i);
  }

  // No node owns a block any more: what is still live is lost.
  lemma AllReturned(all: seq<Node<Message>>, s: seq<Node<Message>>, live: map<nat, seq<byte>>, lost: set<nat>)
    requires Owning(DataOf(all), live, lost) && Divide(s, [], all)
    requires forall j :: 0 <= j < |s| ==> s[j].data.size == 0
    ensures live.Keys == lost
  {
    forall i | 0 <= i < |all| ensures DataOf(all)[i].size == 0 {
      assert all[i] in s;
    }
  }

  lemma PoolAt(bufs: Node<seq<Node<Message>>>, pools: seq<Node<seq<Node<Message>>>>)
    requires Ring(bufs, pools)
    ensures bufs.next == First(bufs, pools) && (First(bufs, pools) == bufs <==> pools == [])
    ensures pools != [] ==>
              && First(bufs, pools) == pools[0] && pools[0].next == First(bufs, pools[1..])
              && Removed(pools, 0) == pools[1..] && Last(bufs, pools[..0]) == bufs
              && (First(bufs, pools[1..]) == bufs || First(bufs, pools[1..]) in pools)
              && forall j :: 1 <= j < |pools| ==> pools[j] != pools[0]
  {
  }

  lemma BuffersOpen(pools: seq<Node<seq<Node<Message>>>>)
    requires pools != []
    ensures DataOf(pools) == [pools[0].data] + DataOf(pools[1..])
  {
  }

  lemma NoBuffers()
    ensures DataOf<seq<Node<Message>>>([]) == []
  {
  }

  lemma NotInRest(pools: seq<Node<seq<Node<Message>>>>)
    requires pools != [] && forall j :: 1 <= j < |pools| ==> pools[j] != pools[0]
    ensures pools[0] !in pools[1..]
  {
  }

  lemma Shift<T>(a: seq<T>, x: T, b: seq<T>)
    ensures a + ([x] + b) == (a + [x]) + b
  {
  }

  // A rest of the pools.
  ghost predicate Suffix<T>(s: seq<T>, all: seq<T>) {
    |s| <= |all| && s == all[|all| - |s|..]
  }

  lemma SuffixSelf<T>(s: seq<T>)
    ensures Suffix(s, s)
  {
  }

  lemma NoneBefore<T>(s: seq<T>)
    ensures [] + s == s
  {
  }

  lemma SuffixIn<T>(s: seq<T>, all: seq<T>)
    requires Suffix(s, all)
    ensures forall x :: x in s ==> x in all
    ensures s != [] ==> Suffix(s[1..], all)
  {
  }

  method ClearData(entry: Node<seq<Node<Message>>>, ghost rest: seq<Node<seq<Node<Message>>>>)
    requires entry !in rest
    modifies entry`data
    ensures DataOf(rest) == old(DataOf(rest))
  {
    entry.data := [];
  }

  lemma {:induction false} SixteenEach(bs: seq<seq<Node<Message>>>)
    requires AllSixteen(bs)
    ensures |Flatten(bs)| == MAX_MESSAGE_ELEMENTS * |bs|
  {
    if bs != [] {
      assert AllSixteen(bs[1..]);
      SixteenEach(bs[1..]);
    }
  }

  lemma EntryAt(nodes: seq<Node<Message>>, k: nat)
    requires k < |nodes|
    ensures |DataOf(nodes)| == |nodes| && DataOf(nodes)[k] == nodes[k].data
  {
  }

  lemma OwnedAt(ds: seq<Message>, live: map<nat, seq<byte>>, lost: set<nat>, k: nat)
    requires Owning(ds, live, lost) && k < |ds|
    ensures ds[k].size >= 0 && (ds[k].size > 0 ==> ds[k].ptr in live && ds[k].ptr != 0)
  {
  }

  lemma OwnedEntry(ds: seq<Message>, live: map<nat, seq<byte>>, lost: set<nat>, k: nat)
    requires Owning(ds, live, lost) && k < |ds|
    ensures ds[k].size >= 0 && (ds[k].size > 0 ==> ds[k].ptr in live && |live[ds[k].ptr]| == ds[k].size)
  {
  }

  lemma DeliveredIs(m: Message, live: map<nat, seq<byte>>)
    ensures Delivered(m, live) == Delivery(m.id, m.cmd, m.para0, m.para1, if m.size > 0 && m.ptr in live then live[m.ptr] else [])
  {
  }

  lemma FirstContents(head: Node<Message>, a: seq<Node<Message>>, live: map<nat, seq<byte>>)
    ensures a == [] <==> Deliveries(DataOf(a), live) == []
    ensures a != [] ==> First(head, a) == a[0] && Deliveries(DataOf(a), live)[0] == Delivered(a[0].data, live)
  {
  }

  // malloc and memset: sixteen blank nodes.
  method NewBuffer() returns (b: seq<Node<Message>>)
    ensures |b| == MAX_MESSAGE_ELEMENTS && Distinct(b) && fresh(set n | n in b)
    ensures forall i :: 0 <= i < |b| ==> b[i].data == BLANK
  {
    b := [];
    while |b| < MAX_MESSAGE_ELEMENTS
      invariant |b| <= MAX_MESSAGE_ELEMENTS && Distinct(b) && fresh(set n | n in b)
      invariant forall i :: 0 <= i < |b| ==> b[i].data == BLANK
    {
      var n := new Node(BLANK);
      b := b + [n];
    }
  }

  // The loop that chains a buffer's nodes to the end of the idle ring.
  method ChainAll(idle: Node<Message>, b: seq<Node<Message>>, ghost s: seq<Node<Message>>)
    requires Ring(idle, s) && Distinct(b) && idle !in b && forall n :: n in b ==> n !in s
    modifies idle`next, idle`prev, Last(idle, s)`next, b`next, b`prev
    ensures Ring(idle, s + b)
  {
    var i := 0;
    assert s + b[..0] == s;
    while i < |b|
      invariant 0 <= i <= |b| && Ring(idle, s + b[..i])
    {
      ghost var t := s + b[..i];
      assert b[i] !in t && s + b[..i + 1] == t + [b[i]];
      assert i > 0 ==> Last(idle, t) == b[i - 1] && b[i - 1] in b;
      assert i == 0 ==> t == s;
      hide Ring, Distinct, Last;
      ListAddTail(b[i], idle, t);
      i := i + 1;
    }
    assert s + b[..i] == s + b;
  }

  lemma LastIn<T>(head: Node<T>, s: seq<Node<T>>)
    ensures Last(head, s) == head || Last(head, s) in s
  {
  }

  lemma Grown(idle: Node<Message>, a: seq<Node<Message>>, ready: Node<Message>, b: seq<Node<Message>>,
              all: seq<Node<Message>>, more: seq<Node<Message>>)
    requires Disjoint(idle, a, ready, b) && Divide(a, b, all) && Distinct(all) && Distinct(more)
    requires idle !in more && ready !in more && forall n :: n in more ==> n !in all
    ensures Disjoint(idle, a + more, ready, b) && Divide(a + more, b, all + more) && Distinct(all + more)
    ensures forall n :: n in more ==> n !in a
  {
    var r := all + more;
    forall i, j | 0 <= i < j < |r| ensures r[i] != r[j] {
      if i < |all| <= j {
        assert r[i] in all && r[j] in more;
      }
    }
  }

  lemma EntriesConcat(a: seq<Node<Message>>, b: seq<Node<Message>>)
    ensures DataOf(a + b) == DataOf(a) + DataOf(b)
  {
  }

  lemma EntriesGrown(all: seq<Node<Message>>, more: seq<Node<Message>>, live: map<nat, seq<byte>>, lost: set<nat>)
    requires Owning(DataOf(all), live, lost) && forall i :: 0 <= i < |more| ==> more[i].data == BLANK
    ensures Owning(DataOf(all + more), live, lost)
  {
    hide Owning;
    OwnedGrown(DataOf(all), live, lost, DataOf(more));
    EntriesConcat(all, more);
  }

  lemma BuffersGrown(pools: seq<Node<seq<Node<Message>>>>, pool: Node<seq<Node<Message>>>)
    ensures Flatten(DataOf(pools + [pool])) == Flatten(DataOf(pools)) + pool.data
  {
    assert DataOf(pools + [pool]) == DataOf(pools) + [pool.data];
    FlattenAppend(DataOf(pools), [pool.data]);
    assert Flatten([pool.data]) == pool.data + Flatten([pool.data][1..]);
  }

  ghost predicate AllSixteen(bs: seq<seq<Node<Message>>>) {
    forall i :: 0 <= i < |bs| ==> |bs[i]| == MAX_MESSAGE_ELEMENTS
  }

  lemma EachSixteen(pools: seq<Node<seq<Node<Message>>>>, pool: Node<seq<Node<Message>>>)
    requires AllSixteen(DataOf(pools)) && |pool.data| == MAX_MESSAGE_ELEMENTS
    ensures AllSixteen(DataOf(pools + [pool]))
  {
  }

  lemma PoolsApartGrown(bufs: Node<seq<Node<Message>>>, pools: seq<Node<seq<Node<Message>>>>, pool: Node<seq<Node<Message>>>,
                        idle: Node<Message>, ready: Node<Message>, nodes: seq<Node<Message>>, more: seq<Node<Message>>)
    requires PoolsApart(bufs, pools, idle, ready, nodes)
    requires (pool as object) != idle && (pool as object) != ready && forall n :: n in nodes + more ==> (n as object) != pool
    requires forall n :: n in more ==> (n as object) != bufs && (n as object) !in pools
    ensures PoolsApart(bufs, pools + [pool], idle, ready, nodes + more)
  {
  }

  class Queue {
    const idle: Node<Message>
    const ready: Node<Message>
    const bufs: Node<seq<Node<Message>>>
    const heap: Allocator
    var msgCnt: int
    var msgPoolCnt: int
    var waitingFlag: bool

    ghost var idleSeq: seq<Node<Message>>
    ghost var readySeq: seq<Node<Message>>
    ghost var nodes: seq<Node<Message>>
    ghost var pools: seq<Node<seq<Node<Message>>>>
    ghost var lost: set<nat>

    ghost function Repr(): set<object>
      reads this
    {
      {this, idle, ready, bufs, heap} + (set n | n in nodes + idleSeq + readySeq) + (set p | p in pools)
    }

    // The nodes and the list heads are told apart.
    ghost predicate Apart()
      reads this`idleSeq, this`readySeq, this`nodes, this`pools
    {
      && Distinct(nodes) && Divide(idleSeq, readySeq, nodes) && idle !in nodes && ready !in nodes
      && PoolsApart(bufs, pools, idle, ready, nodes)
    }

    // The message rings are well formed in both directions and disjoint.
    ghost predicate MessageRings()
      reads this`idleSeq, this`readySeq, idle`next, idle`prev, ready`next, ready`prev
      reads idleSeq`next, idleSeq`prev, readySeq`next, readySeq`prev
    {
      Ring(idle, idleSeq) && Ring(ready, readySeq) && Disjoint(idle, idleSeq, ready, readySeq)
    }

    // So is the ring of pools.
    ghost predicate PoolRing()
      reads this`pools, bufs`next, bufs`prev, pools`next, pools`prev
    {
      Ring(bufs, pools)
    }

    // The nodes are those of the pools, sixteen each.
    ghost predicate Pooled()
      reads this`nodes, this`pools, pools`data
    {
      nodes == Flatten(DataOf(pools)) && AllSixteen(DataOf(pools))
    }

    // Every payload block has one owner or is lost.
    ghost predicate Owned()
      reads this`nodes, this`lost, heap, nodes`data
    {
      heap.Valid() && Owning(DataOf(nodes), heap.live, lost)
    }

    // The count is the length of the ready ring; pools that could not be filled are counted too.
    ghost predicate Counted()
      reads this`readySeq, this`pools, this`msgCnt, this`msgPoolCnt
    {
      msgCnt == |readySeq| && msgPoolCnt >= |pools|
    }

    // Both message rings are well formed, disjoint, and hold exactly the nodes of the pools, sixteen
    // each; the count is the length of the ready ring; every payload block has one owner.
    ghost predicate Valid()
      reads this`idleSeq, this`readySeq, this`nodes, this`pools, this`lost, this`msgCnt, this`msgPoolCnt, heap
      reads idle`next, idle`prev, ready`next, ready`prev, idleSeq`next, idleSeq`prev, readySeq`next, readySeq`prev
      reads bufs`next, bufs`prev, pools`next, pools`prev, pools`data, nodes`data
    {
      Apart() && MessageRings() && PoolRing() && Pooled() && Owned() && Counted()
    }

    // The messages waiting to be read, oldest first.
    ghost function Contents(): (c: seq<Delivery>)
      reads this`readySeq, readySeq`data, heap`live
    {
      Deliveries(DataOf(readySeq), heap.live)
    }

    constructor Init()
      ensures Valid() && Contents() == [] && lost == {} && heap.freed == [] && heap.next == 1
      ensures pools == [] && nodes == [] && idleSeq == [] && fresh(idle) && fresh(ready) && fresh(bufs) && fresh(heap) && !waitingFlag
    {
      idle := new Node(BLANK);
      ready := new Node(BLANK);
      bufs := new Node([]);
      heap := new Allocator();
      msgCnt, msgPoolCnt, waitingFlag := 0, 0, false;
      idleSeq, readySeq, nodes, pools, lost := [], [], [], [], {};
      new;
      hide *;
      EmptyIsValid();
    }
  
    lemma EmptyIsValid()
      requires Ring(idle, []) && Ring(ready, []) && Ring(bufs, []) && idle != ready
      requires (bufs as object) != idle && (bufs as object) != ready
      requires idleSeq == [] && readySeq == [] && nodes == [] && pools == [] && lost == {} && msgCnt == 0 && msgPoolCnt == 0
      requires heap.Valid() && heap.live == map[]
      ensures Valid() && Contents() == []
    {
      NoNodes(idle, ready);
    }

    lemma Parts()
      requires Valid()
      ensures Ring(idle, idleSeq) && Ring(ready, readySeq) && Disjoint(idle, idleSeq, ready, readySeq)
      ensures Disjoint(ready, readySeq, idle, idleSeq) && Divide(idleSeq, readySeq, nodes)
      ensures Distinct(idleSeq) && Distinct(readySeq) && idle !in idleSeq && ready !in readySeq
      ensures idle.next == First(idle, idleSeq) && ready.next == First(ready, readySeq)
      ensures Apart() && MessageRings() && PoolRing() && Pooled() && Owned() && msgCnt == |readySeq| && msgPoolCnt >= |pools|
      ensures (bufs as object) != idle && (bufs as object) != ready
      ensures forall n :: n in nodes ==> (n as object) != bufs && (n as object) !in pools
      ensures (idle as object) !in pools && (ready as object) !in pools
      ensures Contents() == Deliveries(DataOf(readySeq), heap.live) && idle != ready
    {
    }

    // Valid() again after the message rings were rearranged.
    lemma Whole()
      requires Distinct(nodes) && idle !in nodes && ready !in nodes && PoolsApart(bufs, pools, idle, ready, nodes)
      requires Ring(idle, idleSeq) && Ring(ready, readySeq) && Disjoint(idle, idleSeq, ready, readySeq)
      requires Divide(idleSeq, readySeq, nodes)
      requires PoolRing() && Pooled() && Owned() && msgCnt == |readySeq| && msgPoolCnt >= |pools|
      ensures Valid()
    {
    }

    // list_move_tail of the first ready node to the idle ring.
    method ReadyToIdle()
      requires Valid() && readySeq != []
      modifies this`idleSeq, this`readySeq, this`msgCnt, idle`next, idle`prev, ready`next, ready`prev, nodes`next, nodes`prev
      ensures Valid() && idleSeq == old(idleSeq) + [old(readySeq)[0]] && readySeq == old(readySeq)[1..]
      ensures Contents() == old(Contents())[1..]
    {
      hide *;
      ghost var r, d := readySeq, idleSeq;
      Parts();
      ApartParts();
      MoveFacts(ready, r, idle, d, nodes);
      EntriesMoved(r, d, heap.live);
      var first := ready.next;
      ListMoveTail(first, idle, ready, r, 0, d);
      idleSeq, readySeq := d + [first], r[1..];
      msgCnt := msgCnt - 1;
      Whole();
      ContentsAre();
    }

    // list_move_tail of the first idle node to the ready ring.
    method IdleToReady()
      requires Valid() && idleSeq != []
      modifies this`idleSeq, this`readySeq, this`msgCnt, idle`next, idle`prev, ready`next, ready`prev
      modifies First(idle, idleSeq)`next, First(idle, idleSeq)`prev, First(idle, idleSeq[1..])`prev, Last(ready, readySeq)`next
      ensures Valid() && idleSeq == old(idleSeq)[1..] && readySeq == old(readySeq) + [old(idleSeq)[0]]
      ensures Contents() == old(Contents()) + [Delivered(old(idleSeq)[0].data, heap.live)]
    {
      hide *;
      ghost var r, d := readySeq, idleSeq;
      Parts();
      ApartParts();
      MoveFacts(idle, d, ready, r, nodes);
      EntriesMoved(d, r, heap.live);
      var first := idle.next;
      ListMoveTail(first, ready, idle, d, 0, r);
      idleSeq, readySeq := d[1..], r + [first];
      msgCnt := msgCnt + 1;
      Whole();
      ContentsAre();
    }

    // A store to the entry of node k.
    method SetEntry(dst: Node<Message>, m: Message, ghost k: nat)
      requires Distinct(nodes) && k < |nodes| && nodes[k] == dst && dst !in readySeq
      modifies dst`data
      ensures dst.data == m && DataOf(nodes) == old(DataOf(nodes))[k := m] && DataOf(readySeq) == old(DataOf(readySeq))
    {
      dst.data := m;
    }

    // What the copy may assume of node k: it is none of the ready ones.
    ghost predicate Target(dst: Node<Message>, k: nat)
      reads this`nodes, this`readySeq, this`lost, heap, nodes`data, readySeq`data
    {
      && Owned() && Distinct(nodes) && k < |nodes| && nodes[k] == dst && dst !in readySeq
      && Elsewhere(DataOf(readySeq), DataOf(nodes), k)
    }

    // The fields are copied and the old block goes back.
    method DropOld(dst: Node<Message>, src: Request, ghost k: nat)
      requires Target(dst, k)
      modifies dst`data, heap
      ensures Target(dst, k) && Contents() == old(Contents())
      ensures dst.data == Message(src.id, src.cmd, src.para0, src.para1, dst.data.ptr, 0)
    {
      hide *;
      TargetParts(dst, k);
      ghost var ds, rs, live := DataOf(nodes), DataOf(readySeq), heap.live;
      var m := dst.data.(id := src.id, cmd := src.cmd, para0 := src.para0, para1 := src.para1);
      OwnedKept(ds, live, lost, k, m);
      ElsewhereKept(rs, ds, k, m);
      ContentsAre();
      SetEntry(dst, m, k);
      ds := ds[k := m];
      if m.ptr != 0 && m.size != 0 {
        OwnedAt(ds, live, lost, k);
        OthersKept(rs, ds, live, lost, k, 0, []);
        heap.Free(m.ptr);
        m := m.(ptr := 0, size := 0);
        OwnedFreed(ds, live, lost, k, m);
        ElsewhereKept(rs, ds, k, m);
        SetEntry(dst, m, k);
      }
      ContentsAre();
      TargetAgain(dst, k);
    }

    lemma TargetParts(dst: Node<Message>, k: nat)
      requires Target(dst, k)
      ensures heap.Valid() && Owning(DataOf(nodes), heap.live, lost) && Distinct(nodes) && k < |nodes| && nodes[k] == dst
      ensures dst !in readySeq && Elsewhere(DataOf(readySeq), DataOf(nodes), k)
      ensures |DataOf(nodes)| == |nodes| && DataOf(nodes)[k] == dst.data
    {
    }

    lemma TargetAgain(dst: Node<Message>, k: nat)
      requires heap.Valid() && Owning(DataOf(nodes), heap.live, lost) && Distinct(nodes) && k < |nodes| && nodes[k] == dst
      requires dst !in readySeq && Elsewhere(DataOf(readySeq), DataOf(nodes), k)
      ensures Target(dst, k)
    {
    }

    // The entry of node k and the lost blocks, once the payload memory has changed.
    method Store(dst: Node<Message>, m: Message, ghost lost': set<nat>, ghost k: nat)
      requires heap.Valid() && Distinct(nodes) && k < |nodes| && nodes[k] == dst && dst !in readySeq
      requires |DataOf(nodes)| == |nodes| && Owning(DataOf(nodes)[k := m], heap.live, lost')
      requires Elsewhere(DataOf(readySeq), DataOf(nodes)[k := m], k)
      modifies dst`data, this`lost
      ensures Target(dst, k) && dst.data == m && lost == lost' && DataOf(readySeq) == old(DataOf(readySeq))
    {
      hide *;
      SetEntry(dst, m, k);
      lost := lost';
      TargetAgain(dst, k);
    }

    // The new block is taken; a zero-length one is lost, for nothing will free it.
    method TakeNew(dst: Node<Message>, b: seq<byte>, ok: bool, ghost k: nat) returns (ret: int)
      requires Target(dst, k) && dst.data.size == 0
      modifies dst`data, heap, this`lost
      ensures Target(dst, k) && Contents() == old(Contents()) && ret == if ok then 0 else -1
      ensures ok ==>
                && dst.data == old(dst.data).(ptr := dst.data.ptr, size := |b|)
                && dst.data.ptr in heap.live && heap.live[dst.data.ptr] == b
      ensures |lost| == |old(lost)| + if b == [] && ok then 1 else 0
    {
      hide *;
      TargetParts(dst, k);
      ContentsAre();
      ghost var ds, rs, live := DataOf(nodes), DataOf(readySeq), heap.live;
      var p := heap.Copy(b, ok);
      var m := dst.data.(ptr := p);
      if p != 0 {
        m := m.(size := |b|);
        TakeFacts(rs, ds, live, lost, k, m, p, b);
        Store(dst, m, if |b| == 0 then lost + {p} else lost, k);
        ret := 0;
      } else {
        OwnedKept(ds, live, lost, k, m);
        ElsewhereKept(rs, ds, k, m);
        Store(dst, m, lost, k);
        ret := -1;
      }
      ContentsAre();
    }

    // The copy into a node: its old block goes back, the new one is taken.
    method DeepCopy(dst: Node<Message>, src: Request, ok: bool, ghost k: nat) returns (ret: int)
      requires Target(dst, k)
      modifies dst`data, heap, this`lost
      ensures Target(dst, k) && Contents() == old(Contents())
      ensures ret == if src.payload.Data? && !ok then -1 else 0
      ensures ret == 0 ==>
                && dst.data.id == src.id && dst.data.cmd == src.cmd && dst.data.para0 == src.para0 && dst.data.para1 == src.para1
                && dst.data.size == (if src.payload.Data? then |src.payload.bytes| else 0)
                && (dst.data.size > 0 ==> dst.data.ptr in heap.live && heap.live[dst.data.ptr] == src.payload.bytes)
      ensures |lost| == |old(lost)| + if src.payload == Data([]) && ok then 1 else 0
    {
      hide Target, Contents;
      DropOld(dst, src, k);
      match src.payload {
        case Data(b) =>
          ret := TakeNew(dst, b, ok, k);
        case _ =>
          ret := 0;
      }
    }

    // A pool more: sixteen blank nodes at the end of the idle ring. ok1 and ok2 say whether the two
    // allocations succeed; the pool count goes up even when the second one fails.
    method Increase(ok1: bool, ok2: bool) returns (ret: int)
      requires Valid()
      modifies this`idleSeq, this`nodes, this`pools, this`msgPoolCnt, idle`next, idle`prev, Last(idle, idleSeq)`next,
               bufs`next, bufs`prev, pools`next, pools`prev
      ensures Valid() && Contents() == old(Contents()) && ret == if ok1 && ok2 then 0 else -1
      ensures ret == 0 ==>
                && old(idleSeq) <= idleSeq && |idleSeq| == |old(idleSeq)| + MAX_MESSAGE_ELEMENTS
                && |pools| == |old(pools)| + 1
      ensures ret != 0 ==> idleSeq == old(idleSeq) && nodes == old(nodes) && pools == old(pools)
      ensures msgPoolCnt == old(msgPoolCnt) + if ok1 then 1 else 0
      ensures forall n :: n in nodes ==> n in old(nodes) || fresh(n)
      ensures forall p :: p in pools ==> p in old(pools) || fresh(p)
    {
      hide *;
      Parts();
      ApartParts();
      ContentsAre();
      ret := -1;
      if ok1 {
        msgPoolCnt := msgPoolCnt + 1;
        if ok2 {
          var buffer := NewBuffer();
          AddPool(buffer);
          ret := 0;
        }
      }
      Again();
    }

    lemma Again()
      requires Apart() && MessageRings() && PoolRing() && Pooled() && Owned()
      requires msgCnt == |readySeq| && msgPoolCnt >= |pools|
      ensures Valid()
    {
    }

    // The filled pool goes into its ring, its nodes into the idle ring.
    method AddPool(buffer: seq<Node<Message>>)
      requires Apart() && MessageRings() && PoolRing() && Pooled() && Owned()
      requires |buffer| == MAX_MESSAGE_ELEMENTS && Distinct(buffer)
      requires forall i :: 0 <= i < |buffer| ==> buffer[i].data == BLANK
      requires forall n :: n in buffer ==> n !in nodes && n != idle && n != ready && (n as object) != bufs && (n as object) !in pools
      modifies this`idleSeq, this`nodes, this`pools, idle`next, idle`prev, Last(idle, idleSeq)`next,
               bufs`next, bufs`prev, pools`next, pools`prev, buffer`next, buffer`prev
      ensures Apart() && MessageRings() && PoolRing() && Pooled() && Owned()
      ensures idleSeq == old(idleSeq) + buffer && |pools| == |old(pools)| + 1 && nodes == old(nodes) + buffer
      ensures forall p :: p in pools ==> p in old(pools) || fresh(p)
    {
      hide *;
      RingsParts();
      var pool := new Node(buffer);
      Aside(pool, buffer);
      SoundGrown(pool, buffer);
      ghost var a, all, ps := idleSeq + buffer, nodes + buffer, pools + [pool];
      LinkPool(pool);
      LinkNodes(buffer, ps);
      assert Sound(a, readySeq, all, ps);
      Adopt(a, all, ps);
    }

    // The new nodes and the new pool become the queue's.
    ghost method Adopt(a: seq<Node<Message>>, all: seq<Node<Message>>, ps: seq<Node<seq<Node<Message>>>>)
      requires Sound(a, readySeq, all, ps) && Ring(idle, a) && Ring(ready, readySeq) && Ring(bufs, ps)
      modifies this`idleSeq, this`nodes, this`pools
      ensures idleSeq == a && nodes == all && pools == ps
      ensures Apart() && MessageRings() && PoolRing() && Pooled() && Owned()
    {
      hide Ring, Distinct, Divide, PoolsApart, Disjoint, AllSixteen, Owning, DataOf, Flatten;
      idleSeq, nodes, pools := a, all, ps;
      SoundParts();
    }

    // Everything but the links, for the given division of the given nodes and pools.
    ghost predicate Sound(a: seq<Node<Message>>, b: seq<Node<Message>>, all: seq<Node<Message>>, ps: seq<Node<seq<Node<Message>>>>)
      reads this`lost, heap, all`data, ps`data
    {
      && Distinct(all) && Divide(a, b, all) && idle !in all && ready !in all && PoolsApart(bufs, ps, idle, ready, all)
      && Disjoint(idle, a, ready, b)
      && all == Flatten(DataOf(ps)) && AllSixteen(DataOf(ps))
      && heap.Valid() && Owning(DataOf(all), heap.live, lost)
    }

    lemma SoundGrown(pool: Node<seq<Node<Message>>>, buffer: seq<Node<Message>>)
      requires Apart() && MessageRings() && Pooled() && Owned() && pool.data == buffer
      requires |buffer| == MAX_MESSAGE_ELEMENTS && Distinct(buffer)
      requires forall i :: 0 <= i < |buffer| ==> buffer[i].data == BLANK
      requires pool != bufs && pool !in pools && (pool as object) != idle && (pool as object) != ready
      requires forall n :: n in nodes + buffer ==> (n as object) != pool
      requires forall n :: n in buffer ==> n !in nodes && n != idle && n != ready && (n as object) != bufs && (n as object) !in pools
      ensures Sound(idleSeq + buffer, readySeq, nodes + buffer, pools + [pool])
    {
      ApartParts();
      Grown(idle, idleSeq, ready, readySeq, nodes, buffer);
      EntriesGrown(nodes, buffer, heap.live, lost);
      PoolsApartGrown(bufs, pools, pool, idle, ready, nodes, buffer);
      BuffersGrown(pools, pool);
      EachSixteen(pools, pool);
      hide Distinct, Divide, PoolsApart, Disjoint, AllSixteen, Owning, DataOf, Ring;
    }

    lemma SoundParts()
      requires Sound(idleSeq, readySeq, nodes, pools) && Ring(idle, idleSeq) && Ring(ready, readySeq) && Ring(bufs, pools)
      ensures Apart() && MessageRings() && PoolRing() && Pooled() && Owned()
    {
    }

    lemma Aside(pool: Node<seq<Node<Message>>>, buffer: seq<Node<Message>>)
      requires Apart() && MessageRings()
      requires pool != bufs && pool !in pools && (pool as object) != idle && (pool as object) != ready
      requires forall n :: n in nodes + buffer ==> (n as object) != pool
      requires forall n :: n in buffer ==> n !in nodes && n != idle && n != ready && (n as object) != bufs && (n as object) !in pools
      ensures forall n :: n in idleSeq ==>
                (n as object) != bufs && (n as object) !in pools && (n as object) != pool && (n as object) !in pools + [pool]
      ensures forall n :: n in readySeq ==> (n as object) != bufs && (n as object) !in pools && (n as object) != pool
      ensures (idle as object) != bufs && (idle as object) !in pools && (idle as object) != pool && (idle as object) !in pools + [pool]
      ensures (ready as object) != bufs && (ready as object) !in pools && (ready as object) != pool
      ensures idle !in buffer && ready !in buffer
      ensures forall n :: n in buffer ==>
                n !in idleSeq && n !in readySeq && (n as object) != bufs && (n as object) !in pools + [pool]
    {
      ApartParts();
    }

    // list_add_tail of the pool; the message rings are elsewhere.
    method LinkPool(pool: Node<seq<Node<Message>>>)
      requires Ring(bufs, pools) && pool != bufs && pool !in pools
      requires Ring(idle, idleSeq) && Ring(ready, readySeq)
      requires forall n :: n in idleSeq ==> (n as object) != bufs && (n as object) !in pools && (n as object) != pool
      requires forall n :: n in readySeq ==> (n as object) != bufs && (n as object) !in pools && (n as object) != pool
      requires (idle as object) != bufs && (idle as object) !in pools && (idle as object) != pool
      requires (ready as object) != bufs && (ready as object) !in pools && (ready as object) != pool
      modifies bufs`next, bufs`prev, pools`next, pools`prev, pool`next, pool`prev
      ensures Ring(bufs, pools + [pool]) && Ring(idle, idleSeq) && Ring(ready, readySeq)
    {
      hide *;
      LastIn(bufs, pools);
      ListAddTail(pool, bufs, pools);
    }

    // The nodes go to the end of the idle ring; the other rings are elsewhere.
    method LinkNodes(buffer: seq<Node<Message>>, ghost ps: seq<Node<seq<Node<Message>>>>)
      requires Ring(bufs, ps) && Ring(idle, idleSeq) && Ring(ready, readySeq) && Disjoint(idle, idleSeq, ready, readySeq)
      requires Distinct(buffer) && idle !in buffer && ready !in buffer
      requires forall n :: n in buffer ==> n !in idleSeq && n !in readySeq && (n as object) != bufs && (n as object) !in ps
      requires forall n :: n in idleSeq ==> (n as object) != bufs && (n as object) !in ps
      requires (idle as object) != bufs && (idle as object) !in ps
      modifies idle`next, idle`prev, Last(idle, idleSeq)`next, buffer`next, buffer`prev
      ensures Ring(bufs, ps) && Ring(idle, idleSeq + buffer) && Ring(ready, readySeq)
    {
      assert forall n :: n in readySeq ==> n !in idleSeq && n != idle && n !in buffer;
      assert ready !in idleSeq && ready != idle;
      LastIn(idle, idleSeq);
      hide Disjoint, Distinct, Last;
      ghost var s, r := idleSeq, readySeq;
      ChainAll(idle, buffer, s);
      assert readySeq == r;
      assert ready.next == old(ready.next) && ready.prev == old(ready.prev);
      assert forall n :: n in r ==> n.next == old(n.next) && n.prev == old(n.prev);
    }

    lemma OwnedParts()
      requires Owned()
      ensures heap.Valid() && Owning(DataOf(nodes), heap.live, lost)
    {
    }

    lemma RingsParts()
      requires MessageRings() && PoolRing()
      ensures Ring(idle, idleSeq) && Ring(ready, readySeq) && Disjoint(idle, idleSeq, ready, readySeq) && Ring(bufs, pools)
    {
    }

    // The copy into the first idle node, which stays idle.
    method CopyFirst(src: Request, ok: bool) returns (ret: int)
      requires Valid() && idleSeq != []
      modifies First(idle, idleSeq)`data, heap, this`lost
      ensures Valid() && Contents() == old(Contents())
      ensures ret == if src.payload.Data? && !ok then -1 else 0
      ensures ret == 0 ==>
                Delivered(idleSeq[0].data, heap.live)
                == Delivery(src.id, src.cmd, src.para0, src.para1, if src.payload.Data? then src.payload.bytes else [])
      ensures |lost| == |old(lost)| + if src.payload == Data([]) && ok then 1 else 0
    {
      hide *;
      Parts();
      ApartParts();
      FirstIdle(idle, idleSeq, ready, readySeq);
      var dst := idle.next;
      ghost var k :| 0 <= k < |nodes| && nodes[k] == dst;
      IdleIsElsewhere(idle, idleSeq, ready, readySeq, nodes, k);
      OwnedParts();
      TargetAgain(dst, k);
      ret := DeepCopy(dst, src, ok, k);
      DeliveredIs(dst.data, heap.live);
      TargetOwned(dst, k);
      Again();
    }

    lemma TargetOwned(dst: Node<Message>, k: nat)
      requires Target(dst, k)
      ensures Owned()
    {
    }

    // The part of a put that finds an idle node.
    method PutInFirst(msg: Request, ok: bool) returns (ret: int, signal: bool)
      requires Valid() && idleSeq != []
      modifies this`idleSeq, this`readySeq, this`lost, this`msgCnt, heap, idle`next, idle`prev, ready`next, ready`prev
      modifies First(idle, idleSeq), First(idle, idleSeq[1..])`prev, Last(ready, readySeq)`next
      ensures Valid() && ret == if msg.payload.Data? && !ok then -1 else 0
      ensures ret == 0 ==>
                Contents() == old(Contents())
                + [Delivery(msg.id, msg.cmd, msg.para0, msg.para1, if msg.payload.Data? then msg.payload.bytes else [])]
      ensures ret != 0 ==> Contents() == old(Contents())
      ensures signal <==> ret == 0 && waitingFlag
      ensures |lost| == |old(lost)| + if ret == 0 && msg.payload == Data([]) then 1 else 0
    {
      hide *;
      Parts();
      ApartParts();
      Touched(idle, idleSeq, ready, readySeq, nodes);
      signal := false;
      ret := CopyFirst(msg, ok);
      if ret == 0 {
        IdleToReady();
        signal := waitingFlag;
      }
    }

    // An idle node is there, or a pool is added.
    method NeedIdle(ok1: bool, ok2: bool) returns (ret: int)
      requires Valid()
      modifies this`idleSeq, this`nodes, this`pools, this`msgPoolCnt, idle`next, idle`prev, Last(idle, idleSeq)`next,
               bufs`next, bufs`prev, pools`next, pools`prev
      ensures Valid() && Contents() == old(Contents()) && ret == if old(idleSeq) == [] && !(ok1 && ok2) then -1 else 0
      ensures ret == 0 ==> idleSeq != []
      ensures |pools| == |old(pools)| + if old(idleSeq) == [] && ok1 && ok2 then 1 else 0
      ensures forall n :: n in nodes ==> n in old(nodes) || fresh(n)
      ensures forall p :: p in pools ==> p in old(pools) || fresh(p)
    {
      assert MAX_MESSAGE_ELEMENTS > 0;
      hide *;
      Parts();
      TestsMean(idle, idleSeq);
      ret := 0;
      if ListEmpty(idle) {
        ret := Increase(ok1, ok2);
      }
    }

    // A message with its payload. It fails only for want of memory: ok1 and ok2 for a new pool, ok3
    // for the payload. signal says whether the condition variable was signalled.
    method PutMessageWithData(msg: Request, ok1: bool, ok2: bool, ok3: bool) returns (ret: int, signal: bool)
      requires Valid()
      modifies this`idleSeq, this`readySeq, this`nodes, this`pools, this`lost, this`msgCnt, this`msgPoolCnt, heap,
               idle`next, idle`prev, ready`next, ready`prev, nodes, bufs`next, bufs`prev, pools`next, pools`prev
      ensures Valid()
      ensures ret == if (old(idleSeq) == [] && !(ok1 && ok2)) || (msg.payload.Data? && !ok3) then -1 else 0
      ensures ret == 0 ==>
                Contents() == old(Contents())
                + [Delivery(msg.id, msg.cmd, msg.para0, msg.para1, if msg.payload.Data? then msg.payload.bytes else [])]
      ensures ret != 0 ==> Contents() == old(Contents())
      ensures signal <==> ret == 0 && waitingFlag
      ensures |lost| == |old(lost)| + if ret == 0 && msg.payload == Data([]) then 1 else 0
      ensures |pools| == |old(pools)| + if old(idleSeq) == [] && ok1 && ok2 then 1 else 0
      ensures forall n :: n in nodes ==> n in old(nodes) || fresh(n)
      ensures forall p :: p in pools ==> p in old(pools) || fresh(p)
    {
      hide *;
      Parts();
      ApartParts();
      LastIn(idle, idleSeq);
      ret := NeedIdle(ok1, ok2);
      if ret != 0 {
        return -1, false;
      }
      Parts();
      Touched(idle, idleSeq, ready, readySeq, nodes);
      ret, signal := PutInFirst(msg, ok3);
    }

    // put_message: the fields without the data.
    method PutMessage(msg: Request, ok1: bool, ok2: bool) returns (ret: int, signal: bool)
      requires Valid()
      modifies this`idleSeq, this`readySeq, this`nodes, this`pools, this`lost, this`msgCnt, this`msgPoolCnt, heap,
               idle`next, idle`prev, ready`next, ready`prev, nodes, bufs`next, bufs`prev, pools`next, pools`prev
      ensures Valid() && |lost| == |old(lost)|
      ensures signal <==> ret == 0 && waitingFlag
      ensures |pools| == |old(pools)| + if old(idleSeq) == [] && ok1 && ok2 then 1 else 0
      ensures ret == if old(idleSeq) == [] && !(ok1 && ok2) then -1 else 0
      ensures ret == 0 ==> Contents() == old(Contents()) + [Delivery(msg.id, msg.cmd, msg.para0, msg.para1, [])]
      ensures ret != 0 ==> Contents() == old(Contents())
      ensures forall n :: n in nodes ==> n in old(nodes) || fresh(n)
      ensures forall p :: p in pools ==> p in old(pools) || fresh(p)
    {
      hide *;
      ret, signal := PutMessageWithData(msg.(payload := Null), ok1, ok2, true);
    }

    // What a receiver of the first ready node finds.
    lemma FirstOwned()
      requires Valid() && readySeq != []
      ensures var m, d := readySeq[0].data, Delivered(readySeq[0].data, heap.live);
              && m.id == d.id && m.cmd == d.cmd && m.para0 == d.para0 && m.para1 == d.para1
              && m.size == |d.bytes| && (m.size > 0 ==> m.ptr in heap.live && heap.live[m.ptr] == d.bytes)
    {
      hide *;
      Parts();
      ApartParts();
      OwnedParts();
      assert readySeq[0] in nodes;
      var k :| 0 <= k < |nodes| && nodes[k] == readySeq[0];
      EntryAt(nodes, k);
      OwnedEntry(DataOf(nodes), heap.live, lost, k);
      DeliveredIs(readySeq[0].data, heap.live);
    }

    // The oldest message, or -1 when there is none. The receiver borrows the payload: it stays with
    // the node, which goes back to the idle ring.
    method GetMessage() returns (ret: int, out: Message)
      requires Valid()
      modifies this`idleSeq, this`readySeq, this`msgCnt, idle`next, idle`prev, ready`next, ready`prev, nodes`next, nodes`prev
      ensures Valid()
      ensures old(Contents()) == [] ==> ret == -1 && Contents() == []
      ensures old(Contents()) != [] ==>
                && ret == 0 && Delivered(out, heap.live) == old(Contents())[0]
                && Contents() == old(Contents())[1..]
      ensures old(Contents()) != [] ==>
                var d := old(Contents())[0];
                && out.id == d.id && out.cmd == d.cmd && out.para0 == d.para0 && out.para1 == d.para1
                && out.size == |d.bytes| && (out.size > 0 ==> out.ptr in heap.live && heap.live[out.ptr] == d.bytes)
    {
      hide *;
      Parts();
      FirstContents(ready, readySeq, heap.live);
      out := BLANK;
      ret := -1;
      TestsMean(ready, readySeq);
      if !ListEmpty(ready) {
        out := ready.next.data;
        FirstOwned();
        ReadyToIdle();
        ret := 0;
      }
    }

    // The untimed wait, from taking the mutex, or coming back out of the wait with it, to the next
    // wait or to the end. Only the entry puts the flag up; QueueProtocol shows what it is good for.
    method WaitSection(woken: bool) returns (blocked: bool, out: Message)
      requires Valid()
      modifies this`idleSeq, this`readySeq, this`msgCnt, this`waitingFlag,
               idle`next, idle`prev, ready`next, ready`prev, nodes`next, nodes`prev
      ensures Valid() && (blocked <==> old(Contents()) == [])
      ensures waitingFlag <==> blocked && (!woken || old(waitingFlag))
      ensures blocked ==> Contents() == []
      ensures !blocked ==> Delivered(out, heap.live) == old(Contents())[0] && Contents() == old(Contents())[1..]
      ensures !blocked ==>
                var d := old(Contents())[0];
                && out.id == d.id && out.cmd == d.cmd && out.para0 == d.para0 && out.para1 == d.para1
                && out.size == |d.bytes| && (out.size > 0 ==> out.ptr in heap.live && heap.live[out.ptr] == d.bytes)
    {
      hide *;
      Parts();
      FirstContents(ready, readySeq, heap.live);
      TestsMean(ready, readySeq);
      if !woken {
        waitingFlag := true;
      }
      blocked, out := true, BLANK;
      if !ListEmpty(ready) {
        out := ready.next.data;
        FirstOwned();
        ReadyToIdle();
        blocked := false;
        waitingFlag := false;
      }
    }

    // The dry wait only reports the count.
    method DryWaitSection(woken: bool) returns (blocked: bool, count: int)
      requires Valid()
      modifies this`waitingFlag
      ensures Valid() && Contents() == old(Contents())
      ensures blocked <==> Contents() == []
      ensures waitingFlag <==> blocked && (!woken || old(waitingFlag))
      ensures !blocked ==> count == |Contents()|
    {
      hide *;
      Parts();
      IdleCount();
      FirstContents(ready, readySeq, heap.live);
      TestsMean(ready, readySeq);
      if !woken {
        waitingFlag := true;
      }
      blocked, count := true, 0;
      if !ListEmpty(ready) {
        blocked, count := false, msgCnt;
        waitingFlag := false;
      }
    }

    method GetMessageCount() returns (n: int)
      requires Valid()
      ensures n == |Contents()|
    {
      n := msgCnt;
    }

    // Unread messages go back to the idle ring.
    method DrainReady()
      requires Valid()
      modifies this`idleSeq, this`readySeq, this`msgCnt, idle`next, idle`prev, ready`next, ready`prev, nodes`next, nodes`prev
      ensures Valid() && readySeq == [] && msgCnt == 0
    {
      hide *;
      Parts();
      FirstIs(ready, readySeq);
      var entry := ready.next;
      while entry != ready
        invariant Valid() && entry == First(ready, readySeq)
        decreases |readySeq|
      {
        Parts();
        FirstIs(ready, readySeq);
        SecondIs(ready, readySeq);
        var tmp := entry.next;
        ReadyToIdle();
        entry := tmp;
      }
      Parts();
      FirstIs(ready, readySeq);
    }

    // The payload of one node goes back.
    method FreeEntry(dst: Node<Message>)
      requires Valid() && dst in idleSeq
      modifies dst`data, heap
      ensures Valid() && dst.data.size == 0
      ensures forall n :: n in nodes && n != dst ==> n.data == old(n.data)
    {
      hide *;
      Parts();
      ApartParts();
      OwnedParts();
      ghost var k :| 0 <= k < |nodes| && nodes[k] == dst;
      EntryAt(nodes, k);
      OwnedAt(DataOf(nodes), heap.live, lost, k);
      if dst.data.ptr != 0 && dst.data.size != 0 {
        ghost var ds, live, m := DataOf(nodes), heap.live, dst.data.(ptr := 0, size := 0);
        heap.Free(dst.data.ptr);
        NotReady(idle, idleSeq, ready, readySeq, dst);
        SetEntry(dst, dst.data.(ptr := 0, size := 0), k);
        OwnedFreed(ds, live, lost, k, m);
        OwnedAgain();
        Again();
      }
    }

    lemma OwnedAgain()
      requires heap.Valid() && Owning(DataOf(nodes), heap.live, lost)
      ensures Owned()
    {
    }

    // Payloads go back node by node, from the end of the idle ring to its front.
    method FreePayloads()
      requires Valid() && readySeq == []
      modifies nodes`data, heap
      ensures Valid() && heap.live.Keys == lost
    {
      hide *;
      Parts();
      ApartParts();
      ghost var s, i := idleSeq, |idleSeq|;
      LastBefore(idle, s, i);
      var entry := idle.prev;
      while entry != idle
        invariant Valid() && 0 <= i <= |s| && entry == Last(idle, s[..i])
        invariant forall j :: i <= j < |s| ==> s[j].data.size == 0
        decreases i
      {
        Parts();
        LastBefore(idle, s, i);
        i := i - 1;
        FreeEntry(entry);
        Parts();
        LastBefore(idle, s, i);
        entry := entry.prev;
      }
      Parts();
      LastBefore(idle, s, i);
      OwnedParts();
      AllReturned(nodes, s, heap.live, lost);
    }

    // The first pool: its buffer goes, then its record.
    method FreePool(entry: Node<seq<Node<Message>>>) returns (buffer: seq<Node<Message>>)
      requires Ring(bufs, pools) && pools != [] && entry == pools[0]
      modifies this`pools, entry, bufs`next, First(bufs, pools[1..])`prev
      ensures pools == old(pools)[1..] && Ring(bufs, pools)
      ensures old(DataOf(pools)) == [buffer] + DataOf(pools)
    {
      hide *;
      PoolAt(bufs, pools);
      BuffersOpen(pools);
      NotInRest(pools);
      ghost var rest := pools[1..];
      buffer := entry.data;
      ClearData(entry, rest);
      ListDel(entry, bufs, pools, 0);
      pools := rest;
    }

    // The pools go, each buffer once.
    method FreePools() returns (buffers: seq<seq<Node<Message>>>)
      requires Ring(bufs, pools)
      modifies this`pools, pools, bufs`next, bufs`prev
      ensures pools == [] && Ring(bufs, pools) && buffers == old(DataOf(pools))
    {
      hide *;
      ghost var all, bs := pools, DataOf(pools);
      buffers := [];
      PoolAt(bufs, pools);
      SuffixSelf(pools);
      NoneBefore(DataOf(pools));
      var entry := bufs.next;
      while entry != bufs
        invariant Ring(bufs, pools) && entry == First(bufs, pools) && Suffix(pools, all)
        invariant buffers + DataOf(pools) == bs
        decreases |pools|
      {
        PoolAt(bufs, pools);
        SuffixIn(pools, all);
        assert pools[0] in all && (First(bufs, pools[1..]) == bufs || First(bufs, pools[1..]) in all);
        var tmp := entry.next;
        var b := FreePool(entry);
        Shift(buffers, b, DataOf(pools));
        buffers := buffers + [b];
        entry := tmp;
      }
      PoolAt(bufs, pools);
      NoBuffers();
      assert buffers + [] == buffers;
    }

    // The three heads stand for empty lists again.
    method ResetHeads()
      requires idle != ready && (bufs as object) != idle && (bufs as object) != ready
      modifies this`idleSeq, this`readySeq, this`nodes, this`pools, idle`next, idle`prev, ready`next, ready`prev, bufs`next, bufs`prev
      ensures Ring(idle, []) && Ring(ready, []) && Ring(bufs, [])
    {
      InitListHead(bufs);
      InitListHead(idle);
      InitListHead(ready);
      idleSeq, readySeq, nodes, pools := [], [], [], [];
    }

    // Messages, then payloads.
    method ReturnAll()
      requires Valid()
      modifies this`idleSeq, this`readySeq, this`msgCnt, heap, idle`next, idle`prev, ready`next, ready`prev, nodes
      ensures Valid() && msgCnt == 0 && heap.Valid() && heap.live.Keys == lost
    {
      hide *;
      DrainReady();
      FreePayloads();
      Parts();
      OwnedParts();
    }

    // Messages, payloads, pools, heads, in this order.
    method MessageDestroy() returns (buffers: seq<seq<Node<Message>>>)
      requires Valid()
      modifies this`idleSeq, this`readySeq, this`nodes, this`pools, this`msgCnt, heap, idle`next, idle`prev, ready`next, ready`prev,
               nodes, bufs`next, bufs`prev, pools
      ensures Ring(idle, []) && Ring(ready, []) && Ring(bufs, []) && msgCnt == 0
      ensures heap.Valid() && heap.live.Keys == lost && buffers == old(DataOf(pools))
    {
      hide *;
      Parts();
      ReturnAll();
      Parts();
      RingsParts();
      buffers := FreePools();
      ResetHeads();
    }

    // Sixteen nodes a pool, ready or idle.
    lemma IdleCount()
      requires Valid()
      ensures |idleSeq| + |readySeq| == MAX_MESSAGE_ELEMENTS * |pools| && |Contents()| == |readySeq|
    {
      SixteenEach(DataOf(pools));
      hide Ring, Owning, Flatten, DataOf, AllSixteen;
    }

    lemma ApartParts()
      requires Apart()
      ensures Distinct(nodes) && idle !in nodes && ready !in nodes && PoolsApart(bufs, pools, idle, ready, nodes)
      ensures Divide(idleSeq, readySeq, nodes)
      ensures forall n :: n in nodes ==> (n as object) != bufs && (n as object) !in pools
      ensures (bufs as object) != idle && (bufs as object) != ready && (idle as object) !in pools && (ready as object) !in pools
      ensures forall n :: n in idleSeq ==> n in nodes
      ensures forall n :: n in readySeq ==> n in nodes
    {
    }

    lemma ContentsAre()
      ensures Contents() == Deliveries(DataOf(readySeq), heap.live)
    {
    }
  }

  // message_create: empty lists, then the first pool.
  method MessageCreate(ok1: bool, ok2: bool) returns (ret: int, q: Queue)
    ensures fresh(q) && fresh(q.heap) && fresh(q.idle) && fresh(q.ready) && fresh(q.bufs)
    ensures fresh(set n | n in q.nodes) && fresh(set p | p in q.pools)
    ensures q.Valid() && q.Contents() == [] && q.lost == {} && !q.waitingFlag
    ensures ret == if ok1 && ok2 then 0 else -1
    ensures |q.pools| == if ok1 && ok2 then 1 else 0
  {
    q := new Queue.Init();
    hide *;
    LastIn(q.idle, q.idleSeq);
    ret := q.Increase(ok1, ok2);
  }

  // ---------------------------------------------------------------- runs

  // A wait is one pass of its loop, from the start or after a wake-up; its consumer is blocked when
  // nothing is there.
  datatype Call =
    | Put(msg: Request, ok1: bool, ok2: bool, ok3: bool)
    | PutBare(msg: Request, ok1: bool, ok2: bool)
    | Get
    | Wait(woken: bool)
    | Dry(woken: bool)
    | Count

  predicate Puts(call: Call) {
    call.Put? || call.PutBare?
  }

  predicate Takes(call: Call) {
    call.Get? || call.Wait?
  }

  // What a queue amounts to: the messages waiting, the pools, what was read, the counts that were
  // reported, and how many payloads without bytes were accepted.
  datatype Sim = Sim(queue: seq<Delivery>, pools: nat, got: seq<Delivery>, counts: seq<int>, empties: nat)

  function Grow(s: Sim, ok: bool): Sim {
    if MAX_MESSAGE_ELEMENTS * s.pools == |s.queue| && ok then s.(pools := s.pools + 1) else s
  }

  predicate Accepts(s: Sim, call: Call) {
    match call
    case Put(msg, ok1, ok2, ok3) =>
      (MAX_MESSAGE_ELEMENTS * s.pools != |s.queue| || (ok1 && ok2)) && (msg.payload.Data? ==> ok3)
    case PutBare(msg, ok1, ok2) => MAX_MESSAGE_ELEMENTS * s.pools != |s.queue| || (ok1 && ok2)
    case _ => false
  }

  function Wanted(call: Call): Delivery
    requires Puts(call)
  {
    var m := call.msg;
    Delivery(m.id, m.cmd, m.para0, m.para1, if call.Put? && m.payload.Data? then m.payload.bytes else [])
  }

  function Perform(s: Sim, call: Call): Sim {
    if Takes(call) then
      if s.queue == [] then s else s.(queue := s.queue[1..], got := s.got + [s.queue[0]])
    else if Puts(call) then
      var t := Grow(s, call.ok1 && call.ok2);
      if !Accepts(s, call) then t
      else
        var u := t.(queue := t.queue + [Wanted(call)]);
        if call.Put? && call.msg.payload == Data([]) then u.(empties := u.empties + 1) else u
    else if call.Dry? && s.queue == [] then s
    else s.(counts := s.counts + [|s.queue|])
  }

  function PerformAll(calls: seq<Call>): Sim {
    if calls == [] then Sim([], 1, [], [], 0) else Perform(PerformAll(calls[..|calls| - 1]), calls[|calls| - 1])
  }

  // The accepted puts, in order.
  function Accepted(calls: seq<Call>): (acc: seq<Call>)
    ensures forall i :: 0 <= i < |acc| ==> Puts(acc[i])
  {
    if calls == [] then []
    else
      var init, c := calls[..|calls| - 1], calls[|calls| - 1];
      Accepted(init) + (if Accepts(PerformAll(init), c) then [c] else [])
  }

  // Delivery by delivery what the puts handed in, field by field and byte by byte.
  predicate InOrder(ds: seq<Delivery>, acc: seq<Call>)
    requires forall i :: 0 <= i < |acc| ==> Puts(acc[i])
  {
    |ds| == |acc|
    && forall i :: 0 <= i < |ds| ==> ds[i] == Wanted(acc[i])
  }

  lemma OneMore(calls: seq<Call>)
    requires calls != []
    ensures var init, c := calls[..|calls| - 1], calls[|calls| - 1];
            && PerformAll(calls) == Perform(PerformAll(init), c)
            && Accepted(calls) == Accepted(init) + (if Accepts(PerformAll(init), c) then [c] else [])
  {
  }

  lemma StepInOrder(s: Sim, c: Call, acc: seq<Call>)
    requires (forall i :: 0 <= i < |acc| ==> Puts(acc[i])) && InOrder(s.got + s.queue, acc)
    ensures var t := Perform(s, c);
            InOrder(t.got + t.queue, acc + (if Accepts(s, c) then [c] else []))
  {
    var t := Perform(s, c);
    if Takes(c) && s.queue != [] {
      assert s.queue == [s.queue[0]] + s.queue[1..];
      assert t.got + t.queue == s.got + s.queue;
    } else if Accepts(s, c) {
      assert t.got + t.queue == s.got + s.queue + [Wanted(c)];
    }
  }

  lemma {:induction false} RunInOrder(calls: seq<Call>)
    ensures var s := PerformAll(calls); InOrder(s.got + s.queue, Accepted(calls))
  {
    if calls != [] {
      var init, c := calls[..|calls| - 1], calls[|calls| - 1];
      RunInOrder(init);
      hide PerformAll, Accepted, InOrder;
      StepInOrder(PerformAll(init), c, Accepted(init));
      OneMore(calls);
    }
  }

  // First in, first out, nothing lost or changed: what was read, followed by what is waiting, is
  // what the accepted puts handed in, field by field.
  lemma FirstInFirstOut(calls: seq<Call>)
    ensures var s, acc := PerformAll(calls), Accepted(calls);
            var ds := s.got + s.queue;
            && |ds| == |acc|
            && forall i :: 0 <= i < |ds| ==>
                 && ds[i].id == acc[i].msg.id && ds[i].cmd == acc[i].msg.cmd
                 && ds[i].para0 == acc[i].msg.para0 && ds[i].para1 == acc[i].msg.para1
                 && ds[i].bytes == if acc[i].Put? && acc[i].msg.payload.Data? then acc[i].msg.payload.bytes else []
  {
    RunInOrder(calls);
    hide PerformAll, Accepted;
  }

  ghost predicate Matches(q: Queue, s: Sim)
    reads q, q.Repr()
  {
    q.Valid() && q.Contents() == s.queue && |q.pools| == s.pools && |q.lost| == s.empties
  }

  lemma MatchParts(q: Queue, s: Sim)
    requires Matches(q, s)
    ensures q.Valid() && q.Contents() == s.queue && |q.pools| == s.pools && |q.lost| == s.empties
    ensures q.idleSeq == [] <==> MAX_MESSAGE_ELEMENTS * s.pools == |s.queue|
  {
    q.IdleCount();
    hide Queue.Valid, Queue.Contents;
  }

  lemma MatchAgain(q: Queue, s: Sim)
    requires q.Valid() && q.Contents() == s.queue && |q.pools| == s.pools && |q.lost| == s.empties
    ensures Matches(q, s)
  {
  }

  // What a put does to the simulation.
  lemma PutIs(s: Sim, call: Call, full: bool, accepted: bool)
    requires Puts(call) && (full <==> MAX_MESSAGE_ELEMENTS * s.pools == |s.queue|)
    requires accepted == ((!full || (call.ok1 && call.ok2)) && (call.Put? && call.msg.payload.Data? ==> call.ok3))
    ensures var t := Perform(s, call);
            && t.got == s.got && t.counts == s.counts && t.pools == s.pools + (if full && call.ok1 && call.ok2 then 1 else 0)
            && t.queue == (if accepted then s.queue + [Wanted(call)] else s.queue)
            && t.empties == s.empties + if accepted && call.Put? && call.msg.payload == Data([]) then 1 else 0
  {
  }

  lemma TakeIs(s: Sim, call: Call)
    requires Takes(call)
    ensures var t := Perform(s, call);
            && t.pools == s.pools && t.empties == s.empties && t.counts == s.counts
            && (s.queue == [] ==> t == s)
            && (s.queue != [] ==> t.queue == s.queue[1..] && t.got == s.got + [s.queue[0]])
  {
  }

  lemma AskIs(s: Sim, call: Call)
    requires call.Dry? || call.Count?
    ensures Perform(s, call) == s.(counts := s.counts + if call.Dry? && s.queue == [] then [] else [|s.queue|])
  {
    assert s.counts + [] == s.counts;
  }

  lemma WantedIs(call: Call)
    requires Puts(call)
    ensures var m := call.msg;
            Wanted(call) == Delivery(m.id, m.cmd, m.para0, m.para1, if call.Put? && m.payload.Data? then m.payload.bytes else [])
  {
  }

  method PerformPut(q: Queue, call: Call, ghost s: Sim)
    requires Matches(q, s) && Puts(call)
    modifies q, q.heap, q.idle, q.ready, q.bufs, q.nodes, q.pools
    ensures Matches(q, Perform(s, call)) && Perform(s, call).got == s.got && Perform(s, call).counts == s.counts
    ensures forall n :: n in q.nodes ==> n in old(q.nodes) || fresh(n)
    ensures forall p :: p in q.pools ==> p in old(q.pools) || fresh(p)
  {
    assert call.Put? || call.PutBare?;
    hide *;
    MatchParts(q, s);
    WantedIs(call);
    ghost var full := q.idleSeq == [];
    var ret, signal;
    if call.Put? {
      ret, signal := q.PutMessageWithData(call.msg, call.ok1, call.ok2, call.ok3);
    } else {
      ret, signal := q.PutMessage(call.msg, call.ok1, call.ok2);
    }
    PutIs(s, call, full, ret == 0);
    MatchAgain(q, Perform(s, call));
  }

  method PerformTake(q: Queue, call: Call, ghost s: Sim) returns (got: seq<Message>)
    requires Matches(q, s) && Takes(call)
    modifies q, q.heap, q.idle, q.ready, q.bufs, q.nodes, q.pools
    ensures Matches(q, Perform(s, call)) && q.nodes == old(q.nodes) && q.pools == old(q.pools)
    ensures |got| == |Perform(s, call).got| - |s.got| && Perform(s, call).counts == s.counts
    ensures got != [] ==> Delivered(got[0], q.heap.live) == Perform(s, call).got[|s.got|]
  {
    assert call.Get? || call.Wait?;
    hide *;
    MatchParts(q, s);
    TakeIs(s, call);
    got := [];
    if call.Get? {
      var ret, out := q.GetMessage();
      if ret == 0 {
        got := [out];
      }
    } else {
      var blocked, out := q.WaitSection(call.woken);
      if !blocked {
        got := [out];
      }
    }
    MatchAgain(q, Perform(s, call));
  }

  method PerformAsk(q: Queue, call: Call, ghost s: Sim) returns (counts: seq<int>)
    requires Matches(q, s) && (call.Dry? || call.Count?)
    modifies q`waitingFlag
    ensures Matches(q, Perform(s, call)) && Perform(s, call).got == s.got
    ensures Perform(s, call).counts == s.counts + counts
  {
    hide *;
    MatchParts(q, s);
    AskIs(s, call);
    counts := [];
    if call.Dry? {
      var blocked, count := q.DryWaitSection(call.woken);
      if !blocked {
        counts := [count];
      }
    } else {
      var count := q.GetMessageCount();
      counts := [count];
    }
    MatchAgain(q, Perform(s, call));
  }

  // One call on the queue is one step of the simulation.
  method PerformOn(q: Queue, call: Call, ghost s: Sim) returns (got: seq<Message>, counts: seq<int>)
    requires Matches(q, s)
    modifies q, q.heap, q.idle, q.ready, q.bufs, q.nodes, q.pools
    ensures Matches(q, Perform(s, call))
    ensures |got| == |Perform(s, call).got| - |s.got| && Perform(s, call).counts == s.counts + counts
    ensures got != [] ==> Delivered(got[0], q.heap.live) == Perform(s, call).got[|s.got|]
    ensures forall n :: n in q.nodes ==> n in old(q.nodes) || fresh(n)
    ensures forall p :: p in q.pools ==> p in old(q.pools) || fresh(p)
  {
    assert !Takes(call) && !Puts(call) ==> call.Dry? || call.Count?;
    hide *;
    assert s.counts + [] == s.counts;
    got, counts := [], [];
    if Takes(call) {
      got := PerformTake(q, call, s);
    } else if Puts(call) {
      PerformPut(q, call, s);
    } else {
      counts := PerformAsk(q, call, s);
    }
  }

  lemma FreedOnce(heap: Allocator, lost: set<nat>)
    requires heap.Valid() && heap.live.Keys == lost
    ensures forall i, j :: 0 <= i < j < |heap.freed| ==> heap.freed[i] != heap.freed[j]
    ensures |heap.live| == |lost|
    ensures (forall p :: 0 < p < heap.next ==> p in heap.freed) <==> |lost| == 0
  {
    assert |heap.live| == |heap.live.Keys|;
    if |lost| == 0 {
      assert lost == {};
    } else {
      var p :| p in lost;
      assert p in heap.live && 0 < p < heap.next && p !in heap.freed;
    }
  }

  // A payload without bytes is real, and lost.
  lemma EmptyPayloadLost()
    ensures PerformAll([Put(Request(0, 0, 0, 0, Data([])), true, true, true)]).empties == 1
  {
    var c := Put(Request(0, 0, 0, 0, Data([])), true, true, true);
    assert [c][..0] == [];
  }

  // Main result for the queue: over any run of puts, gets, waits and counts that ends with the queue
  // destroyed, readers got the accepted messages in order with equal bytes and the counts were those
  // of the messages waiting; no payload was freed twice, and every payload
  // that was allocated was freed exactly once if and only if no message with a payload of no bytes
  // was accepted.
  method RunToTheEnd(calls: seq<Call>) returns (got: seq<Delivery>, counts: seq<int>, heap: Allocator)
    ensures got == PerformAll(calls).got && counts == PerformAll(calls).counts
    ensures var acc := Accepted(calls);
            && |got| <= |acc|
            && forall i :: 0 <= i < |got| ==>
                 && got[i].id == acc[i].msg.id && got[i].cmd == acc[i].msg.cmd
                 && got[i].para0 == acc[i].msg.para0 && got[i].para1 == acc[i].msg.para1
                 && got[i].bytes == if acc[i].Put? && acc[i].msg.payload.Data? then acc[i].msg.payload.bytes else []
    ensures forall i, j :: 0 <= i < j < |heap.freed| ==> heap.freed[i] != heap.freed[j]
    ensures |heap.live| == PerformAll(calls).empties
    ensures (forall p :: 0 < p < heap.next ==> p in heap.freed) <==> PerformAll(calls).empties == 0
  {
    var ret, q := MessageCreate(true, true);
    hide Matches, Perform, Queue.Valid, Queue.Contents, Owning;
    got, counts := [], [];
    var n := 0;
    assert calls[..0] == [];
    Started(q);
    while n < |calls|
      invariant 0 <= n <= |calls| && Matches(q, PerformAll(calls[..n])) && got == PerformAll(calls[..n]).got
      invariant counts == PerformAll(calls[..n]).counts
      invariant fresh(q) && fresh(q.heap) && fresh(q.idle) && fresh(q.ready) && fresh(q.bufs)
      invariant fresh(set x | x in q.nodes) && fresh(set p | p in q.pools)
    {
      RunSnoc(calls, n);
      var out, asked := PerformOn(q, calls[n], PerformAll(calls[..n]));
      if |out| > 0 {
        got := got + [Delivered(out[0], q.heap.live)];
      }
      counts := counts + asked;
      n := n + 1;
    }
    assert calls[..n] == calls;
    Ending(q, PerformAll(calls));
    heap := q.heap;
    var _ := q.MessageDestroy();
    FreedOnce(heap, q.lost);
    FirstInFirstOut(calls);
    assert forall i :: 0 <= i < |got| ==> got[i] == (PerformAll(calls).got + PerformAll(calls).queue)[i];
  }

  lemma Started(q: Queue)
    requires q.Valid() && q.Contents() == [] && q.lost == {} && |q.pools| == 1
    ensures Matches(q, PerformAll([]))
  {
  }

  lemma Ending(q: Queue, s: Sim)
    requires Matches(q, s)
    ensures q.Valid() && |q.lost| == s.empties
  {
  }

  lemma RunSnoc(calls: seq<Call>, n: nat)
    requires n < |calls|
    ensures PerformAll(calls[..n + 1]) == Perform(PerformAll(calls[..n]), calls[n])
    ensures var s, t := PerformAll(calls[..n]), PerformAll(calls[..n + 1]);
            t.got == s.got || (|t.got| == |s.got| + 1 && t.got == s.got + [t.got[|s.got|]])
  {
    assert calls[..n + 1][..n] == calls[..n];
  }
}
