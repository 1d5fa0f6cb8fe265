/**
  The circular list of src/utils/lite-list.h. A ring is written as the sequence of its entries
  from any one of them on, usually from its head.
 */
module Ring {

  class ListHead {
    var next: ListHead?
    var prev: ListHead?

    constructor ()
    {
      next, prev := null, null;
    }
  }

  /** The entries are distinct, and each one's links are its neighbours around the ring. */
  ghost predicate IsRing(ring: seq<ListHead>)
    reads ring`next, ring`prev
  {
    && |ring| > 0
    && (forall i, j :: 0 <= i < j < |ring| ==> ring[i] != ring[j])
    && (forall i {:trigger ring[i].next} :: 0 <= i < |ring| ==>
      ring[i].next == if i == |ring| - 1 then ring[0] else ring[i + 1])
    && (forall i {:trigger ring[i].prev} :: 0 <= i < |ring| ==>
      ring[i].prev == if i == 0 then ring[|ring| - 1] else ring[i - 1])
  }

  /** Around a ring the two links of every entry are inverse. */
  lemma LinksInverse(ring: seq<ListHead>, i: nat)
    requires IsRing(ring) && i < |ring|
    ensures var e := ring[i];
      && e.next != null && e.next in ring && e.next.prev == e
      && e.prev != null && e.prev in ring && e.prev.next == e
  {
    var n := if i == |ring| - 1 then 0 else i + 1;
    var p := if i == 0 then |ring| - 1 else i - 1;
    assert ring[i].next == ring[n] && ring[n].prev == ring[i];
    assert ring[i].prev == ring[p] && ring[p].next == ring[i];
  }

  /** The ring from another entry on. */
  lemma Turned(ring: seq<ListHead>, i: nat)
    requires IsRing(ring) && i <= |ring|
    ensures IsRing(ring[i..] + ring[..i])
  {
    var turned := ring[i..] + ring[..i];
    forall k | 0 <= k < |turned|
      ensures turned[k].next == (if k == |turned| - 1 then turned[0] else turned[k + 1])
      ensures turned[k].prev == (if k == 0 then turned[|turned| - 1] else turned[k - 1])
    {
      var j := if k < |ring| - i then i + k else k - (|ring| - i);
      assert turned[k] == ring[j];
      assert ring[j].next == (if j == |ring| - 1 then ring[0] else ring[j + 1]);
      assert ring[j].prev == (if j == 0 then ring[|ring| - 1] else ring[j - 1]);
    }
  }

  lemma RestDistinct(entry: ListHead, rest: seq<ListHead>)
    requires IsRing([entry] + rest)
    ensures entry !in rest && forall i, j :: 0 <= i < j < |rest| ==> rest[i] != rest[j]
  {
    var ring := [entry] + rest;
    assert forall k :: 0 <= k < |rest| ==> rest[k] == ring[k + 1] && ring[0] != ring[k + 1];
    forall i, j | 0 <= i < j < |rest| ensures rest[i] != rest[j] {
      assert ring[i + 1] != ring[j + 1];
    }
  }

  method INIT_LIST_HEAD(list: ListHead)
    modifies list
    ensures IsRing([list])
  {
    list.next := list;
    list.prev := list;
  }

  /** A new entry between two consecutive ones, which are the same one in a ring of one. */
  method ListAddBetween(new_ptr: ListHead, prev: ListHead, next: ListHead, ghost ring: seq<ListHead>)
    requires IsRing(ring) && new_ptr !in ring && prev == ring[|ring| - 1] && next == ring[0]
    modifies new_ptr, next`prev, prev`next
    ensures IsRing(ring + [new_ptr])
  {
    next.prev := new_ptr;
    new_ptr.next := next;
    new_ptr.prev := prev;
    prev.next := new_ptr;
    ghost var now := ring + [new_ptr];
    forall k | 0 <= k < |ring|
      ensures now[k].next == now[k + 1] && now[k].prev == (if k == 0 then new_ptr else now[k - 1])
    {
      assert now[k] == ring[k];
      assert old(ring[k].next) == (if k == |ring| - 1 then ring[0] else ring[k + 1])
        && old(ring[k].prev) == (if k == 0 then ring[|ring| - 1] else ring[k - 1]);
    }
  }

  /** Prepend. */
  method ListAdd(new_ptr: ListHead, head: ListHead, ghost entries: seq<ListHead>)
    requires IsRing([head] + entries) && new_ptr !in [head] + entries
    modifies new_ptr, head, entries
    ensures IsRing([head, new_ptr] + entries)
  {
    ghost var ring := [head] + entries;
    assert ring[0].next == (if |ring| == 1 then ring[0] else ring[1]);
    Turned(ring, 1);
    assert ring[1..] + ring[..1] == entries + [head];
    ListAddBetween(new_ptr, head, head.next, entries + [head]);
    Turned(entries + [head] + [new_ptr], |entries|);
    assert (entries + [head] + [new_ptr])[|entries|..] + (entries + [head] + [new_ptr])[..|entries|]
      == [head, new_ptr] + entries;
  }

  /** Append. */
  method ListAddTail(new_ptr: ListHead, head: ListHead, ghost entries: seq<ListHead>)
    requires IsRing([head] + entries) && new_ptr !in [head] + entries
    modifies new_ptr, head, entries
    ensures IsRing([head] + entries + [new_ptr])
  {
    ghost var ring := [head] + entries;
    assert ring[0].prev == ring[|ring| - 1];
    ListAddBetween(new_ptr, head.prev, head, ring);
  }

  /** The neighbours of an entry point to each other. */
  method ListDelBetween(prev: ListHead, next: ListHead)
    modifies prev`next, next`prev
    ensures prev.next == next && next.prev == prev
  {
    next.prev := prev;
    prev.next := next;
  }

  /** The entry leaves its ring with its own links unchanged; alone, it stays a ring of its own. */
  method ListDel(entry: ListHead, ghost rest: seq<ListHead>)
    requires IsRing([entry] + rest)
    modifies entry, rest
    ensures rest != [] ==> IsRing(rest) && entry.next == old(entry.next) && entry.prev == old(entry.prev)
    ensures rest == [] ==> IsRing([entry])
  {
    ghost var ring := [entry] + rest;
    RestDistinct(entry, rest);
    LinksInverse(ring, 0);
    assert ring[0].next == (if |ring| == 1 then ring[0] else ring[1]) && ring[0].prev == ring[|ring| - 1];
    ListDelBetween(entry.prev, entry.next);
    forall k | 0 <= k < |rest|
      ensures rest[k].next == (if k == |rest| - 1 then rest[0] else rest[k + 1])
      ensures rest[k].prev == (if k == 0 then rest[|rest| - 1] else rest[k - 1])
    {
      assert rest[k] == ring[k + 1];
      assert old(ring[k + 1].next) == (if k + 1 == |ring| - 1 then ring[0] else ring[k + 2])
        && old(ring[k + 1].prev) == ring[k];
    }
  }

  method ListDelInit(entry: ListHead, ghost rest: seq<ListHead>)
    requires IsRing([entry] + rest)
    modifies entry, rest
    ensures IsRing([entry]) && (rest != [] ==> IsRing(rest))
  {
    RestDistinct(entry, rest);
    ListDel(entry, rest);
    INIT_LIST_HEAD(entry);
  }

  /** The new entry takes the old one's place; in place of an entry alone it is linked to itself. */
  method ListReplace(old_ptr: ListHead, new_ptr: ListHead, ghost rest: seq<ListHead>)
    requires IsRing([old_ptr] + rest) && new_ptr !in [old_ptr] + rest
    modifies new_ptr, old_ptr, rest
    ensures IsRing([new_ptr] + rest)
  {
    ghost var ring := [old_ptr] + rest;
    LinksInverse(ring, 0);
    RestDistinct(old_ptr, rest);
    assert ring[0].next == (if |ring| == 1 then ring[0] else ring[1]) && ring[0].prev == ring[|ring| - 1];
    new_ptr.next := old_ptr.next;
    new_ptr.next.prev := new_ptr;
    new_ptr.prev := old_ptr.prev;
    new_ptr.prev.next := new_ptr;
    ghost var now := [new_ptr] + rest;
    forall k | 0 <= k < |now|
      ensures now[k].next == (if k == |now| - 1 then now[0] else now[k + 1])
      ensures now[k].prev == (if k == 0 then now[|now| - 1] else now[k - 1])
    {
      if k > 0 {
        assert now[k] == ring[k] == rest[k - 1];
        assert old(ring[k].next) == (if k == |ring| - 1 then ring[0] else ring[k + 1])
          && old(ring[k].prev) == ring[k - 1];
      }
    }
    assert forall k :: 1 <= k < |now| ==> now[k] == rest[k - 1];
  }

  method ListReplaceInit(old_ptr: ListHead, new_ptr: ListHead, ghost rest: seq<ListHead>)
    requires IsRing([old_ptr] + rest) && new_ptr !in [old_ptr] + rest
    modifies new_ptr, old_ptr, rest
    ensures IsRing([new_ptr] + rest) && IsRing([old_ptr])
  {
    RestDistinct(old_ptr, rest);
    ListReplace(old_ptr, new_ptr, rest);
    INIT_LIST_HEAD(old_ptr);
  }

  /** The place an entry moves to: behind a head in its own ring, at rest[at], or behind the head of another ring. */
  ghost predicate Target(list: ListHead, rest: seq<ListHead>, head: ListHead, entries: seq<ListHead>, at: nat)
    reads entries`next, entries`prev, head`next, head`prev
  {
    && at <= |rest|
    && (at < |rest| ==> rest[at] == head && entries == rest[at + 1..] + rest[..at])
    && (at == |rest| ==>
          && IsRing([head] + entries)
          && forall j :: 0 <= j < |[head] + entries| ==>
            ([head] + entries)[j] != list && ([head] + entries)[j] !in rest)
  }

  /** Deleting leaves the ring that the entry is to join, without the entry. */
  method ListDelForMove(list: ListHead, ghost rest: seq<ListHead>, ghost head: ListHead, ghost entries: seq<ListHead>,
      ghost at: nat)
    requires IsRing([list] + rest) && Target(list, rest, head, entries, at)
    modifies list, rest
    ensures IsRing([head] + entries) && list !in [head] + entries
    ensures at == |rest| && rest != [] ==> IsRing(rest) && forall j :: 0 <= j < |rest| ==> rest[j] !in [head] + entries
    ensures forall e :: e in [head] + entries || e in rest ==> e != list
  {
    RestDistinct(list, rest);
    ListDel(list, rest);
    if at < |rest| {
      Turned(rest, at);
      assert rest[at..] + rest[..at] == [head] + entries;
    }
  }

  /**
    The entry becomes the first behind the head, of its own ring or of another; the others keep
    their order. It may have been a ring of its own.
   */
  method ListMove(list: ListHead, head: ListHead, ghost rest: seq<ListHead>, ghost entries: seq<ListHead>,
      ghost at: nat)
    requires IsRing([list] + rest) && Target(list, rest, head, entries, at)
    modifies list, rest, head, entries
    ensures IsRing([head, list] + entries)
    ensures at == |rest| && rest != [] ==> IsRing(rest)
  {
    ListDelForMove(list, rest, head, entries, at);
    ListAdd(list, head, entries);
  }

  /** The entry becomes the last before the head. */
  method ListMoveTail(list: ListHead, head: ListHead, ghost rest: seq<ListHead>, ghost entries: seq<ListHead>,
      ghost at: nat)
    requires IsRing([list] + rest) && Target(list, rest, head, entries, at)
    modifies list, rest, head, entries
    ensures IsRing([head] + entries + [list])
    ensures at == |rest| && rest != [] ==> IsRing(rest)
  {
    ListDelForMove(list, rest, head, entries, at);
    ListAddTail(list, head, entries);
  }

  // ---------- tests ----------

  predicate ListIsLast(list: ListHead, head: ListHead)
    reads list
  {
    list.next == head
  }

  predicate ListEmpty(head: ListHead)
    reads head
  {
    head.next == head
  }

  predicate ListEmptyCareful(head: ListHead)
    reads head
  {
    var next := head.next;
    next == head && next == head.prev
  }

  predicate ListIsSingular(head: ListHead)
    reads head
  {
    !ListEmpty(head) && head.next == head.prev
  }

  /** What the tests say about the entries behind a head. */
  lemma TestsMean(head: ListHead, entries: seq<ListHead>, i: nat)
    requires IsRing([head] + entries) && i < |entries|
    ensures !ListEmpty(head) && !ListEmptyCareful(head)
    ensures ListIsSingular(head) <==> |entries| == 1
    ensures ListIsLast(entries[i], head) <==> i == |entries| - 1
  {
    var ring := [head] + entries;
    assert ring[0].next == ring[1] && ring[0].prev == ring[|ring| - 1];
    assert ring[i + 1] == entries[i] && ring[i + 1].next == if i + 1 == |ring| - 1 then ring[0] else ring[i + 2];
  }

  lemma EmptyMeans(head: ListHead, entries: seq<ListHead>)
    requires IsRing([head] + entries)
    ensures ListEmpty(head) <==> entries == []
    ensures ListEmptyCareful(head) <==> entries == []
    ensures entries == [] ==> !ListIsSingular(head)
  {
    var ring := [head] + entries;
    assert ring[0].next == (if |ring| == 1 then ring[0] else ring[1]) && ring[0].prev == ring[|ring| - 1];
  }

  /** The first entry becomes the last; an empty list stays as it is. */
  method ListRotateLeft(head: ListHead, ghost entries: seq<ListHead>)
    requires IsRing([head] + entries)
    modifies head, entries
    ensures IsRing([head] + if entries == [] then [] else entries[1..] + [entries[0]])
  {
    EmptyMeans(head, entries);
    if !ListEmpty(head) {
      ghost var ring, rest := [head] + entries, entries[1..] + [head];
      assert ring[0].next == ring[1] == entries[0];
      var first := head.next;
      Turned(ring, 1);
      assert ring[1..] + ring[..1] == [first] + rest;
      assert entries[1..] == rest[|entries|..] + rest[..|entries| - 1];
      ListMoveTail(first, head, rest, entries[1..], |entries| - 1);
      assert [head] + entries[1..] + [first] == [head] + (entries[1..] + [entries[0]]);
    }
  }
}
