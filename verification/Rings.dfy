/**
 The intrusive circular doubly linked list: every operation as the pointer assignments of the
 source, against the sequence of entries it stands for. A poisoned pointer is null here.
 */
module Rings {

  class Node<T> {
    var next: Node?<T>
    var prev: Node?<T>
    var data: T

    // An entry on its own, or an empty list head.
    constructor (data: T)
      ensures this.data == data && Ring(this, [])
    {
      this.data := data;
      next, prev := this, this;
    }
  }

  // What the entries carry, in order.
  ghost function DataOf<T>(nodes: seq<Node<T>>): (ds: seq<T>)
    reads nodes`data
    ensures |ds| == |nodes| && forall i :: 0 <= i < |nodes| ==> ds[i] == nodes[i].data
  {
    if nodes == [] then [] else [nodes[0].data] + DataOf(nodes[1..])
  }

  ghost predicate Distinct<T>(s: seq<T>) {
    forall i, j :: 0 <= i < j < |s| ==> s[i] != s[j]
  }

  // Neighbours inside a sequence point at each other.
  ghost predicate Linked<T>(s: seq<Node<T>>)
    reads s`next, s`prev
  {
    && (forall i :: 0 <= i < |s| - 1 ==> s[i].next == s[i + 1])
    && (forall i :: 1 <= i < |s| ==> s[i].prev == s[i - 1])
  }

  ghost function First<T>(head: Node<T>, s: seq<Node<T>>): Node<T> {
    if s == [] then head else s[0]
  }

  ghost function Last<T>(head: Node<T>, s: seq<Node<T>>): Node<T> {
    if s == [] then head else s[|s| - 1]
  }

  // The ring through head, with entries s in order, well formed in both directions.
  ghost predicate Ring<T>(head: Node<T>, s: seq<Node<T>>)
    reads head`next, head`prev, s`next, s`prev
  {
    && head !in s && Distinct(s) && Linked(s)
    && head.next == First(head, s) && First(head, s).prev == head
    && head.prev == Last(head, s) && Last(head, s).next == head
  }

  // ---------------------------------------------------------------- add

  method InitListHead<T>(list: Node<T>)
    modifies list`next, list`prev
    ensures Ring(list, [])
  {
    list.next := list;
    list.prev := list;
  }

  ghost function Inserted<T>(s: seq<T>, i: nat, x: T): seq<T>
    requires i <= |s|
  {
    s[..i] + [x] + s[i..]
  }

  ghost function Removed<T>(s: seq<T>, i: nat): seq<T>
    requires i < |s|
  {
    s[..i] + s[i + 1..]
  }

  lemma InsertedAt<T>(s: seq<T>, i: nat, x: T)
    requires i <= |s|
    ensures var r := Inserted(s, i, x);
            |r| == |s| + 1 && forall k :: 0 <= k < |r| ==> r[k] == if k < i then s[k] else if k == i then x else s[k - 1]
  {
  }

  lemma RemovedAt<T>(s: seq<T>, i: nat)
    requires i < |s|
    ensures var r := Removed(s, i);
            |r| == |s| - 1 && forall k :: 0 <= k < |r| ==> r[k] == if k < i then s[k] else s[k + 1]
  {
  }

  lemma DistinctInserted<T>(s: seq<T>, i: nat, x: T)
    requires i <= |s| && Distinct(s) && x !in s
    ensures Distinct(Inserted(s, i, x)) && forall y :: y in Inserted(s, i, x) <==> y == x || y in s
  {
    InsertedAt(s, i, x);
    assert s == s[..i] + s[i..];
  }

  lemma DistinctRemoved<T>(s: seq<T>, i: nat)
    requires i < |s| && Distinct(s)
    ensures Distinct(Removed(s, i)) && forall y :: y in Removed(s, i) <==> y != s[i] && y in s
  {
    RemovedAt(s, i);
    assert s == s[..i] + [s[i]] + s[i + 1..];
  }

  lemma Ends<T>(head: Node<T>, s: seq<Node<T>>, i: nat)
    requires i <= |s|
    ensures Last(head, s[..i]) == (if i == 0 then head else s[i - 1])
    ensures First(head, s[i..]) == (if i == |s| then head else s[i])
    ensures Distinct(s) && head !in s ==>
              forall k :: 0 <= k < |s| ==> (s[k] == Last(head, s[..i]) <==> k == i - 1) && (s[k] == First(head, s[i..]) <==> k == i)
  {
  }

  // Linked, except for the pair at i - 1 and i.
  ghost predicate LinksBut<T>(s: seq<Node<T>>, i: nat)
    reads s`next, s`prev
  {
    && (forall k :: 0 <= k < |s| - 1 && k != i - 1 ==> s[k].next == s[k + 1])
    && (forall k :: 1 <= k < |s| && k != i ==> s[k].prev == s[k - 1])
  }

  lemma AllLinks<T>(s: seq<Node<T>>, i: nat)
    requires Linked(s)
    ensures LinksBut(s, i)
  {
  }

  lemma LinkedInserted<T>(s: seq<Node<T>>, i: nat, x: Node<T>)
    requires i <= |s| && LinksBut(s, i)
    requires i > 0 ==> s[i - 1].next == x && x.prev == s[i - 1]
    requires i < |s| ==> x.next == s[i] && s[i].prev == x
    ensures Linked(Inserted(s, i, x))
  {
    InsertedAt(s, i, x);
    hide Inserted;
  }

  // Between two known neighbours: position i of the ring.
  method AddBetween<T>(new1: Node<T>, prev1: Node<T>, next1: Node<T>,
                       ghost head: Node<T>, ghost s: seq<Node<T>>, ghost i: nat)
    requires Ring(head, s) && i <= |s| && new1 != head && new1 !in s
    requires prev1 == Last(head, s[..i]) && next1 == First(head, s[i..])
    modifies new1`next, new1`prev, prev1`next, next1`prev
    ensures Ring(head, Inserted(s, i, new1))
  {
    InsertedAt(s, i, new1);
    DistinctInserted(s, i, new1);
    Ends(head, s, i);
    hide Inserted, Distinct, Linked;
    assert LinksBut(s, i) by {
      AllLinks(s, i);
    }
    next1.prev := new1;
    new1.next := next1;
    new1.prev := prev1;
    prev1.next := new1;
    LinkedInserted(s, i, new1);
  }

  method ListAdd<T>(new1: Node<T>, head: Node<T>, ghost s: seq<Node<T>>)
    requires Ring(head, s) && new1 != head && new1 !in s
    modifies new1`next, new1`prev, head`next, First(head, s)`prev
    ensures Ring(head, [new1] + s)
  {
    AddBetween(new1, head, head.next, head, s, 0);
    assert Inserted(s, 0, new1) == [new1] + s;
  }

  method ListAddTail<T>(new1: Node<T>, head: Node<T>, ghost s: seq<Node<T>>)
    requires Ring(head, s) && new1 != head && new1 !in s
    modifies new1`next, new1`prev, Last(head, s)`next, head`prev
    ensures Ring(head, s + [new1])
  {
    assert s[..|s|] == s;
    AddBetween(new1, head.prev, head, head, s, |s|);
    assert Inserted(s, |s|, new1) == s + [new1];
  }

  // ---------------------------------------------------------------- delete

  // Make the neighbours of entry i point at each other.
  method DelBetween<T>(prev: Node<T>, next: Node<T>, ghost head: Node<T>, ghost s: seq<Node<T>>, ghost i: nat)
    requires Ring(head, s) && i < |s|
    requires prev == Last(head, s[..i]) && next == First(head, s[i + 1..])
    modifies prev`next, next`prev
    ensures Ring(head, Removed(s, i))
  {
    RemovedAt(s, i);
    DistinctRemoved(s, i);
    Ends(head, s, i);
    Ends(head, s, i + 1);
    hide Removed, Distinct;
    next.prev := prev;
    prev.next := next;
  }

  lemma Neighbours<T>(head: Node<T>, s: seq<Node<T>>, i: nat)
    requires Ring(head, s) && i < |s|
    ensures s[i].prev == Last(head, s[..i]) && s[i].next == First(head, s[i + 1..])
    ensures s[i].prev != s[i] && s[i].next != s[i]
  {
    Ends(head, s, i);
    Ends(head, s, i + 1);
  }

  // Leaves the deleted entry's own pointers alone.
  method DelEntry<T>(entry: Node<T>, ghost head: Node<T>, ghost s: seq<Node<T>>, ghost i: nat)
    requires Ring(head, s) && i < |s| && s[i] == entry
    modifies Last(head, s[..i])`next, First(head, s[i + 1..])`prev
    ensures Ring(head, Removed(s, i))
  {
    Neighbours(head, s, i);
    DelBetween(entry.prev, entry.next, head, s, i);
  }

  // The deleted entry's pointers are poisoned.
  method ListDel<T>(entry: Node<T>, ghost head: Node<T>, ghost s: seq<Node<T>>, ghost i: nat)
    requires Ring(head, s) && i < |s| && s[i] == entry
    modifies entry`next, entry`prev, Last(head, s[..i])`next, First(head, s[i + 1..])`prev
    ensures Ring(head, Removed(s, i)) && entry.next == null && entry.prev == null
  {
    DelEntry(entry, head, s, i);
    DistinctRemoved(s, i);
    hide Removed;
    entry.next := null;
    entry.prev := null;
  }

  method ListDelInit<T>(entry: Node<T>, ghost head: Node<T>, ghost s: seq<Node<T>>, ghost i: nat)
    requires Ring(head, s) && i < |s| && s[i] == entry
    modifies entry`next, entry`prev, Last(head, s[..i])`next, First(head, s[i + 1..])`prev
    ensures Ring(head, Removed(s, i)) && Ring(entry, [])
  {
    DelEntry(entry, head, s, i);
    DistinctRemoved(s, i);
    hide Removed;
    InitListHead(entry);
  }

  // ---------------------------------------------------------------- replace

  ghost function NextOf<T>(head: Node<T>, s: seq<Node<T>>, i: int): Node<T>
    requires i < |s|
  {
    if i < 0 then First(head, s) else First(head, s[i + 1..])
  }

  ghost function PrevOf<T>(head: Node<T>, s: seq<Node<T>>, i: int): Node<T>
    requires i < |s|
  {
    if i < 0 then Last(head, s) else Last(head, s[..i])
  }

  // The ring with its entry i, or its head for i < 0, replaced.
  ghost predicate Replaced<T>(head: Node<T>, s: seq<Node<T>>, i: int, new1: Node<T>)
    requires i < |s|
    reads head`next, head`prev, s`next, s`prev, new1`next, new1`prev
  {
    if i < 0 then Ring(new1, s) else Ring(head, s[i := new1])
  }

  method ListReplace<T>(old1: Node<T>, new1: Node<T>, ghost head: Node<T>, ghost s: seq<Node<T>>, ghost i: int)
    requires Ring(head, s) && i < |s| && old1 == (if i < 0 then head else s[i])
    requires new1 != head && new1 !in s
    modifies new1`next, new1`prev, NextOf(head, s, i)`prev, PrevOf(head, s, i)`next
    ensures Replaced(head, s, i, new1)
  {
    if i >= 0 {
      Neighbours(head, s, i);
    }
    new1.next := old1.next;
    new1.next.prev := new1;
    new1.prev := old1.prev;
    new1.prev.next := new1;
  }

  method ListReplaceInit<T>(old1: Node<T>, new1: Node<T>, ghost head: Node<T>, ghost s: seq<Node<T>>, ghost i: int)
    requires Ring(head, s) && i < |s| && old1 == (if i < 0 then head else s[i])
    requires new1 != head && new1 !in s
    modifies new1`next, new1`prev, old1`next, old1`prev, NextOf(head, s, i)`prev, PrevOf(head, s, i)`next
    ensures Replaced(head, s, i, new1) && Ring(old1, [])
  {
    ListReplace(old1, new1, head, s, i);
    InitListHead(old1);
  }

  // ---------------------------------------------------------------- move

  // No node of one ring is in the other.
  ghost predicate Disjoint<T>(h1: Node<T>, s1: seq<Node<T>>, h2: Node<T>, s2: seq<Node<T>>) {
    && h1 != h2 && h1 !in s2 && h2 !in s1
    && (forall x :: x in s1 ==> x !in s2)
  }

  ghost function Nodes<T>(head: Node<T>, s: seq<Node<T>>): set<Node<T>> {
    {head} + set x | x in s
  }

  // What the ring of head holds once entry i of the ring of h1, the same or another, is out.
  ghost function Without<T>(h1: Node<T>, s1: seq<Node<T>>, i: nat, head: Node<T>, s2: seq<Node<T>>): seq<Node<T>>
    requires i < |s1|
  {
    if h1 == head then Removed(s1, i) else s2
  }

  ghost predicate SameOrDisjoint<T>(h1: Node<T>, s1: seq<Node<T>>, h2: Node<T>, s2: seq<Node<T>>) {
    if h1 == h2 then s1 == s2 else Disjoint(h1, s1, h2, s2)
  }

  // Taking an entry out leaves another ring alone.
  method TakeOut<T>(list: Node<T>, head: Node<T>, ghost h1: Node<T>, ghost s1: seq<Node<T>>, ghost i: nat, ghost s2: seq<Node<T>>)
    requires Ring(h1, s1) && i < |s1| && s1[i] == list && Ring(head, s2) && SameOrDisjoint(h1, s1, head, s2)
    modifies Last(h1, s1[..i])`next, First(h1, s1[i + 1..])`prev
    ensures Ring(h1, Removed(s1, i)) && Ring(head, Without(h1, s1, i, head, s2))
    ensures list != head && list != h1 && list !in Removed(s1, i) && list !in Without(h1, s1, i, head, s2)
  {
    DistinctRemoved(s1, i);
    Ends(h1, s1, i);
    Ends(h1, s1, i + 1);
    assert h1 != head ==> (i > 0 ==> s1[i - 1] !in s2) && (i + 1 < |s1| ==> s1[i + 1] !in s2);
    hide Removed, Distinct;
    DelEntry(list, h1, s1, i);
  }

  // To the front of a ring.
  method ListMove<T>(list: Node<T>, head: Node<T>, ghost h1: Node<T>, ghost s1: seq<Node<T>>, ghost i: nat, ghost s2: seq<Node<T>>)
    requires Ring(h1, s1) && i < |s1| && s1[i] == list && Ring(head, s2) && SameOrDisjoint(h1, s1, head, s2)
    modifies list`next, list`prev, Last(h1, s1[..i])`next, First(h1, s1[i + 1..])`prev,
             head`next, First(head, Without(h1, s1, i, head, s2))`prev
    ensures Ring(head, [list] + Without(h1, s1, i, head, s2))
    ensures h1 != head ==> Ring(h1, Removed(s1, i))
  {
    Untouched(h1, s1, i, head, s2);
    hide Removed, Distinct, Without;
    TakeOut(list, head, h1, s1, i, s2);
    ListAdd(list, head, Without(h1, s1, i, head, s2));
  }

  // To the end of a ring.
  method ListMoveTail<T>(list: Node<T>, head: Node<T>, ghost h1: Node<T>, ghost s1: seq<Node<T>>, ghost i: nat, ghost s2: seq<Node<T>>)
    requires Ring(h1, s1) && i < |s1| && s1[i] == list && Ring(head, s2) && SameOrDisjoint(h1, s1, head, s2)
    modifies list`next, list`prev, Last(h1, s1[..i])`next, First(h1, s1[i + 1..])`prev,
             head`prev, Last(head, Without(h1, s1, i, head, s2))`next
    ensures Ring(head, Without(h1, s1, i, head, s2) + [list])
    ensures h1 != head ==> Ring(h1, Removed(s1, i))
  {
    Untouched(h1, s1, i, head, s2);
    hide Removed, Distinct, Without;
    TakeOut(list, head, h1, s1, i, s2);
    ListAddTail(list, head, Without(h1, s1, i, head, s2));
  }

  // The receiving end is not in the ring that gave the entry.
  lemma Untouched<T>(h1: Node<T>, s1: seq<Node<T>>, i: nat, head: Node<T>, s2: seq<Node<T>>)
    requires Ring(h1, s1) && i < |s1| && SameOrDisjoint(h1, s1, head, s2)
    ensures h1 != head ==>
              var t, r := Without(h1, s1, i, head, s2), Removed(s1, i);
              First(head, t) != h1 && First(head, t) !in r && Last(head, t) != h1 && Last(head, t) !in r && head !in r
  {
    DistinctRemoved(s1, i);
  }

  // ---------------------------------------------------------------- tests

  predicate ListEmpty<T>(head: Node<T>)
    reads head`next
  {
    head.next == head
  }

  predicate ListIsLast<T>(list: Node<T>, head: Node<T>)
    reads list`next
  {
    list.next == head
  }

  predicate ListIsSingular<T>(head: Node<T>)
    reads head`next, head`prev
  {
    !ListEmpty(head) && head.next == head.prev
  }

  // What the tests say about the entries of a ring.
  lemma TestsMean<T>(head: Node<T>, s: seq<Node<T>>)
    requires Ring(head, s)
    ensures ListEmpty(head) <==> s == []
    ensures ListIsSingular(head) <==> |s| == 1
    ensures forall i :: 0 <= i < |s| ==> (ListIsLast(s[i], head) <==> i == |s| - 1)
  {
    forall i | 0 <= i < |s| ensures ListIsLast(s[i], head) <==> i == |s| - 1 {
      Neighbours(head, s, i);
      Ends(head, s, i + 1);
    }
  }

  lemma RotateFrame<T>(head: Node<T>, s: seq<Node<T>>)
    requires s != []
    ensures var n := Nodes(head, s);
            && head in n && s[0] in n && Last(head, s[..0]) in n && First(head, s[1..]) in n && Last(head, Removed(s, 0)) in n
  {
    Ends(head, s, 0);
    Ends(head, s, 1);
    RemovedAt(s, 0);
  }

  method ListRotateLeft<T>(head: Node<T>, ghost s: seq<Node<T>>)
    requires Ring(head, s)
    modifies Nodes(head, s)`next, Nodes(head, s)`prev
    ensures Ring(head, if s == [] then [] else s[1..] + [s[0]])
  {
    TestsMean(head, s);
    if !ListEmpty(head) {
      var first := head.next;
      assert Removed(s, 0) == s[1..];
      RotateFrame(head, s);
      ListMoveTail(first, head, head, s, 0, s);
    }
  }

  // ---------------------------------------------------------------- cut and splice

  lemma LinkedConcat<T>(a: seq<Node<T>>, b: seq<Node<T>>)
    requires Linked(a) && Linked(b)
    requires a != [] && b != [] ==> a[|a| - 1].next == b[0] && b[0].prev == a[|a| - 1]
    ensures Linked(a + b)
  {
  }

  ghost function Spliced<T>(s: seq<T>, t: seq<T>, i: nat): seq<T>
    requires i <= |t|
  {
    t[..i] + s + t[i..]
  }

  lemma DistinctSpliced<T>(s: seq<T>, t: seq<T>, i: nat)
    requires Distinct(s) && Distinct(t) && i <= |t| && forall x :: x in s ==> x !in t
    ensures Distinct(Spliced(s, t, i))
    ensures forall x :: x in Spliced(s, t, i) <==> x in s || x in t
    ensures Spliced(s, t, 0) == s + t && Spliced(s, t, |t|) == t + s
  {
    var r, n := Spliced(s, t, i), |s|;
    assert forall k :: 0 <= k < |r| ==> r[k] == if k < i then t[k] else if k < i + n then s[k - i] else t[k - n];
    assert t == t[..i] + t[i..];
    assert t[..|t|] == t && t[0..] == t;
    forall a, b | 0 <= a < b < |r| ensures r[a] != r[b] {
      if i <= a < i + n {
        assert r[a] == s[a - i] && r[a] in s;
      } else {
        assert r[a] in t;
      }
      if i <= b < i + n {
        assert r[b] == s[b - i] && r[b] in s;
      } else {
        assert r[b] in t;
      }
    }
  }

  lemma SplicedEnds<T>(head: Node<T>, s: seq<Node<T>>, t: seq<Node<T>>, i: nat)
    requires i <= |t| && s != []
    ensures First(head, Spliced(s, t, i)) == (if i == 0 then s[0] else t[0])
    ensures Last(head, Spliced(s, t, i)) == (if i == |t| then s[|s| - 1] else t[|t| - 1])
  {
  }

  // The place where a ring is opened is not in the other ring.
  lemma OutsideGap<T>(head: Node<T>, t: seq<Node<T>>, i: nat, list: Node<T>, s: seq<Node<T>>)
    requires Disjoint(list, s, head, t) && i <= |t|
    ensures var p, n := Last(head, t[..i]), First(head, t[i..]);
            p != list && p !in s && n != list && n !in s
  {
    Ends(head, t, i);
  }

  lemma Extremes<T>(s: seq<Node<T>>)
    requires Distinct(s) && s != []
    ensures forall k :: 0 <= k < |s| - 1 ==> s[k] != s[|s| - 1]
    ensures forall k :: 1 <= k < |s| ==> s[k] != s[0]
  {
  }

  // Both halves of the opened ring and the inserted entries stay linked.
  lemma LinkedSpliced<T>(s: seq<Node<T>>, t: seq<Node<T>>, i: nat)
    requires i <= |t| && s != [] && Linked(s) && LinksBut(t, i)
    requires i > 0 ==> t[i - 1].next == s[0] && s[0].prev == t[i - 1]
    requires i < |t| ==> s[|s| - 1].next == t[i] && t[i].prev == s[|s| - 1]
    ensures Linked(Spliced(s, t, i))
  {
    LinkedConcat(t[..i], s);
    LinkedConcat(t[..i] + s, t[i..]);
  }

  // Join the entries of list into another ring, at position i.
  method Splice<T>(list: Node<T>, prev: Node<T>, next: Node<T>,
                   ghost s: seq<Node<T>>, ghost head: Node<T>, ghost t: seq<Node<T>>, ghost i: nat)
    requires Ring(list, s) && Ring(head, t) && Disjoint(list, s, head, t) && s != [] && i <= |t|
    requires prev == Last(head, t[..i]) && next == First(head, t[i..])
    modifies First(list, s)`prev, Last(list, s)`next, prev`next, next`prev
    ensures Ring(head, Spliced(s, t, i))
  {
    var first, last := list.next, list.prev;
    SpliceFacts(list, s, head, t, i);
    hide Distinct, Spliced, Ring, First, Last, Disjoint;
    first.prev := prev;
    prev.next := first;
    last.next := next;
    next.prev := last;
    assert Linked(s) && LinksBut(t, i);
    hide Linked, LinksBut;
    SpliceDone(s, head, t, i);
  }

  lemma SpliceFacts<T>(list: Node<T>, s: seq<Node<T>>, head: Node<T>, t: seq<Node<T>>, i: nat)
    requires Ring(list, s) && Ring(head, t) && Disjoint(list, s, head, t) && s != [] && i <= |t|
    ensures Linked(s) && LinksBut(t, i) && Distinct(s) && Distinct(t) && head !in t && head !in s
    ensures list.next == s[0] == First(list, s) && list.prev == s[|s| - 1] == Last(list, s)
    ensures t != [] ==> head.next == t[0] && t[0].prev == head && head.prev == t[|t| - 1] && t[|t| - 1].next == head
    ensures Last(head, t[..i]) == (if i == 0 then head else t[i - 1])
    ensures First(head, t[i..]) == (if i == |t| then head else t[i])
    ensures Last(head, t[..i]) !in s && First(head, t[i..]) !in s
    ensures forall k :: 0 <= k < |t| ==> t[k] !in s
    ensures forall k :: 0 <= k < |t| ==> (t[k] == Last(head, t[..i]) <==> k == i - 1) && (t[k] == First(head, t[i..]) <==> k == i)
    ensures forall k :: 0 <= k < |s| - 1 ==> s[k] != s[|s| - 1]
    ensures forall k :: 1 <= k < |s| ==> s[k] != s[0]
    ensures Distinct(Spliced(s, t, i)) && head !in Spliced(s, t, i)
  {
    DistinctSpliced(s, t, i);
    Ends(head, t, i);
    OutsideGap(head, t, i, list, s);
    Extremes(s);
    AllLinks(t, i);
  }

  lemma SpliceDone<T>(s: seq<Node<T>>, head: Node<T>, t: seq<Node<T>>, i: nat)
    requires Linked(s) && LinksBut(t, i) && s != [] && i <= |t|
    requires Distinct(Spliced(s, t, i)) && head !in Spliced(s, t, i)
    requires if i == 0 then head.next == s[0] && s[0].prev == head
             else head.next == t[0] && t[0].prev == head && t[i - 1].next == s[0] && s[0].prev == t[i - 1]
    requires if i == |t| then s[|s| - 1].next == head && head.prev == s[|s| - 1]
             else s[|s| - 1].next == t[i] && t[i].prev == s[|s| - 1] && t[|t| - 1].next == head && head.prev == t[|t| - 1]
    ensures Ring(head, Spliced(s, t, i))
  {
    SplicedEnds(head, s, t, i);
    LinkedSpliced(s, t, i);
    hide Spliced, Linked, LinksBut, Distinct;
  }

  lemma OpenFront<T>(list: Node<T>, s: seq<Node<T>>, head: Node<T>, t: seq<Node<T>>)
    requires Ring(list, s) && Ring(head, t) && Disjoint(list, s, head, t)
    ensures head == Last(head, t[..0]) && head.next == First(head, t) == First(head, t[0..])
    ensures Spliced(s, t, 0) == s + t && (s == [] ==> s + t == t) && list !in s + t && list != head
  {
    Ends(head, t, 0);
    DistinctSpliced(s, t, 0);
  }

  lemma OpenBack<T>(list: Node<T>, s: seq<Node<T>>, head: Node<T>, t: seq<Node<T>>)
    requires Ring(list, s) && Ring(head, t) && Disjoint(list, s, head, t)
    ensures head.prev == Last(head, t) == Last(head, t[..|t|]) && head == First(head, t[|t|..])
    ensures Spliced(s, t, |t|) == t + s && (s == [] ==> t + s == t) && list !in t + s && list != head
  {
    Ends(head, t, |t|);
    DistinctSpliced(s, t, |t|);
  }

  method ListSplice<T>(list: Node<T>, head: Node<T>, ghost s: seq<Node<T>>, ghost t: seq<Node<T>>)
    requires Ring(list, s) && Ring(head, t) && Disjoint(list, s, head, t)
    modifies First(list, s)`prev, Last(list, s)`next, head`next, First(head, t)`prev
    ensures Ring(head, s + t)
  {
    hide *;
    OpenFront(list, s, head, t);
    TestsMean(list, s);
    if !ListEmpty(list) {
      Splice(list, head, head.next, s, head, t, 0);
    }
  }

  method ListSpliceTail<T>(list: Node<T>, head: Node<T>, ghost s: seq<Node<T>>, ghost t: seq<Node<T>>)
    requires Ring(list, s) && Ring(head, t) && Disjoint(list, s, head, t)
    modifies First(list, s)`prev, Last(list, s)`next, Last(head, t)`next, head`prev
    ensures Ring(head, t + s)
  {
    hide *;
    OpenBack(list, s, head, t);
    TestsMean(list, s);
    if !ListEmpty(list) {
      Splice(list, head.prev, head, s, head, t, |t|);
    }
  }

  method ListSpliceInit<T>(list: Node<T>, head: Node<T>, ghost s: seq<Node<T>>, ghost t: seq<Node<T>>)
    requires Ring(list, s) && Ring(head, t) && Disjoint(list, s, head, t)
    modifies First(list, s)`prev, Last(list, s)`next, head`next, First(head, t)`prev, list`next, list`prev
    ensures Ring(head, s + t) && Ring(list, [])
  {
    hide *;
    OpenFront(list, s, head, t);
    TestsMean(list, s);
    if !ListEmpty(list) {
      Splice(list, head, head.next, s, head, t, 0);
      InitListHead(list);
    }
  }

  method ListSpliceTailInit<T>(list: Node<T>, head: Node<T>, ghost s: seq<Node<T>>, ghost t: seq<Node<T>>)
    requires Ring(list, s) && Ring(head, t) && Disjoint(list, s, head, t)
    modifies First(list, s)`prev, Last(list, s)`next, Last(head, t)`next, head`prev, list`next, list`prev
    ensures Ring(head, t + s) && Ring(list, [])
  {
    hide *;
    OpenBack(list, s, head, t);
    TestsMean(list, s);
    if !ListEmpty(list) {
      Splice(list, head.prev, head, s, head, t, |t|);
      InitListHead(list);
    }
  }

  // The entries up to and including entry i move to list.
  method CutPosition<T>(list: Node<T>, head: Node<T>, entry: Node<T>, ghost s: seq<Node<T>>, ghost i: nat)
    requires Ring(head, s) && i < |s| && s[i] == entry && list != head && list !in s
    modifies Nodes(head, s)`next, Nodes(head, s)`prev, list`next, list`prev
    ensures Ring(list, s[..i + 1]) && Ring(head, s[i + 1..])
  {
    Neighbours(head, s, i);
    var newFirst := entry.next;
    list.next := head.next;
    list.next.prev := list;
    list.prev := entry;
    entry.next := list;
    head.next := newFirst;
    newFirst.prev := head;
  }

  // entry is the head, a member, or, in a ring of at most one entry, anything.
  method ListCutPosition<T>(list: Node<T>, head: Node<T>, entry: Node<T>, ghost s: seq<Node<T>>, ghost i: nat)
    requires Ring(head, s) && list != head && list !in s
    requires entry == head || (i < |s| && s[i] == entry) || (|s| <= 1 && entry !in s)
    modifies Nodes(head, s)`next, Nodes(head, s)`prev, list`next, list`prev
    ensures s != [] && entry == head ==> Ring(list, []) && Ring(head, s)
    ensures i < |s| && s[i] == entry ==> Ring(list, s[..i + 1]) && Ring(head, s[i + 1..])
    ensures s == [] || (entry != head && entry !in s) ==> Ring(head, s) && list.next == old(list.next) && list.prev == old(list.prev)
  {
    TestsMean(head, s);
    if ListEmpty(head) {
      return;
    }
    if ListIsSingular(head) && head.next != entry && head != entry {
      return;
    }
    if entry == head {
      InitListHead(list);
    } else {
      CutPosition(list, head, entry, s, i);
    }
  }
}
