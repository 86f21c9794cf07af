/**
 The pointer structure shared by the SQL row cache and the page cache: a hash
 map, an intrusive doubly linked list in most-recently-used order, a reverse
 index from table to keys, and a byte counter.
 */
module Lru {
  import opened LruItems
  import opened Sequences

  class Node<K(==), V> {
    var key: K
    var val: V
    var tables: seq<string>
    var bytes: nat
    var prev: Node?<K, V>
    var next: Node?<K, V>

    constructor (key: K, val: V, tables: seq<string>, bytes: nat)
      ensures Content() == Item(key, val, tables, bytes)
    {
      this.key, this.val, this.tables, this.bytes := key, val, tables, bytes;
      this.prev, this.next := null, null;
    }

    ghost function Content(): Item<K, V>
      reads this
    {
      Item(key, val, tables, bytes)
    }
  }

  /** head and tail and the prev and next links spell out exactly `order`. */
  ghost predicate Linked<K, V>(order: seq<Node<K, V>>, head: Node?<K, V>, tail: Node?<K, V>)
    reads order`prev, order`next
  {
    && Distinct(order)
    && (forall i {:trigger order[i].prev} :: 0 <= i < |order| ==> order[i].prev == if i == 0 then null else order[i - 1])
    && (forall i {:trigger order[i].next} :: 0 <= i < |order| ==> order[i].next == if i == |order| - 1 then null else order[i + 1])
    && head == (if order == [] then null else order[0])
    && tail == (if order == [] then null else order[|order| - 1])
  }

  /** The listed nodes hold exactly these items. */
  ghost predicate Holds<K, V>(order: seq<Node<K, V>>, items: seq<Item<K, V>>)
    reads order`key, order`val, order`tables, order`bytes
  {
    && |order| == |items|
    && forall i :: 0 <= i < |order| ==>
         order[i].key == items[i].key && order[i].val == items[i].val
         && order[i].tables == items[i].tables && order[i].bytes == items[i].bytes
  }

  /** The hash map holds exactly the listed nodes, each under its item's key. */
  ghost predicate Mapped<K, V>(order: seq<Node<K, V>>, items: seq<Item<K, V>>, entries: map<K, Node<K, V>>) {
    && |order| == |items|
    && (forall i :: 0 <= i < |order| ==> items[i].key in entries && entries[items[i].key] == order[i])
    && (forall k :: k in entries ==> exists i :: 0 <= i < |order| && items[i].key == k)
  }

  class Lru<K(==), V> {
    var entries: map<K, Node<K, V>>
    var reverse: map<string, set<K>>
    var head: Node?<K, V>
    var tail: Node?<K, V>
    const maxEntries: nat
    const maxBytes: nat
    var curBytes: int
    var evictions: nat
    ghost var order: seq<Node<K, V>>
    ghost var items: seq<Item<K, V>>

    ghost predicate Valid()
      reads this, order
    {
      && Linked(order, head, tail)
      && Holds(order, items)
      && Mapped(order, items, entries)
      && DistinctKeys(items)
      && Indexed(items, reverse)
      && curBytes == TotalBytes(items)
    }

    constructor (maxEntries: nat, maxBytes: nat)
      ensures Valid() && items == [] && order == []
      ensures this.maxEntries == maxEntries && this.maxBytes == maxBytes
    {
      this.maxEntries, this.maxBytes := maxEntries, maxBytes;
      entries, reverse, head, tail, curBytes, evictions := map[], map[], null, null, 0, 0;
      order, items := [], [];
    }

    /** The pointer half of removal: splice position k out of the list. */
    method Unlink(e: Node<K, V>, ghost k: nat)
      requires Linked(order, head, tail) && k < |order| && order[k] == e
      modifies `head, `tail, order`prev, order`next
      ensures Linked(RemoveAt(order, k), head, tail)
    {
      ghost var was := order;
      assert was[k].prev == e.prev && was[k].next == e.next;
      if e.prev != null {
        assert e.prev == was[k - 1];
        e.prev.next := e.next;
      } else {
        head := e.next;
      }
      if e.next != null {
        assert e.next == was[k + 1];
        e.next.prev := e.prev;
      } else {
        tail := e.prev;
      }
      ghost var rest := RemoveAt(was, k);
      forall i | 0 <= i < |rest|
        ensures rest[i].prev == if i == 0 then null else rest[i - 1]
        ensures rest[i].next == if i == |rest| - 1 then null else rest[i + 1]
      {
        var j := if i < k then i else i + 1;
        assert rest[i] == was[j];
        assert old(was[j].prev) == (if j == 0 then null else was[j - 1]);
        assert old(was[j].next) == (if j == |was| - 1 then null else was[j + 1]);
      }
    }

    method PushFrontLocked(e: Node<K, V>)
      requires Linked(order, head, tail) && e !in order
      modifies `head, `tail, `order, order`prev, e`prev, e`next
      ensures order == [e] + old(order) && Linked(order, head, tail)
    {
      e.prev := null;
      e.next := head;
      if head != null {
        assert head == order[0];
        head.prev := e;
      }
      head := e;
      if tail == null {
        tail := e;
      }
      ghost var was := order;
      order := [e] + order;
      assert forall i :: 0 < i < |order| ==> order[i] == was[i - 1];
    }

    /** Splice out a node that is not in front, then push it there. */
    method MoveToFrontLocked(e: Node<K, V>, ghost k: nat)
      requires Linked(order, head, tail) && k < |order| && order[k] == e
      modifies `head, `tail, `order, order`prev, order`next
      ensures order == Promote(old(order), k) && Linked(order, head, tail)
    {
      if e == head {
        assert order[0] == order[k];
        assert Promote(order, 0) == order;
        return;
      }
      Unlink(e, k);
      order := RemoveAt(order, k);
      PushFrontLocked(e);
    }

    /** The index half of removal: take the key out of the bucket of every table it read. */
    method DropFromIndex(key: K, tables: seq<string>)
      modifies `reverse
      ensures TakenOut(old(reverse), reverse, key, tables)
    {
      ghost var before := reverse;
      for i := 0 to |tables|
        invariant TakenOut(before, reverse, key, tables[..i])
      {
        var t := tables[i];
        assert tables[..i + 1] == tables[..i] + [t];
        if t in reverse {
          reverse := reverse[t := reverse[t] - {key}];
          if reverse[t] == {} {
            reverse := reverse - {t};
          }
        }
      }
      assert tables[..|tables|] == tables;
    }

    method AddToIndex(key: K, tables: seq<string>)
      modifies `reverse
      ensures PutIn(old(reverse), reverse, key, tables)
    {
      ghost var before := reverse;
      for i := 0 to |tables|
        invariant PutIn(before, reverse, key, tables[..i])
      {
        var t := tables[i];
        assert tables[..i + 1] == tables[..i] + [t];
        if t !in reverse {
          reverse := reverse[t := {}];
        }
        reverse := reverse[t := reverse[t] + {key}];
      }
      assert tables[..|tables|] == tables;
    }

    /** The rest of removal: map entry, index and byte count. */
    method Forget(e: Node<K, V>)
      modifies `entries, `reverse, `curBytes
      ensures entries == old(entries) - {e.key} && curBytes == old(curBytes) - e.bytes
      ensures TakenOut(old(reverse), reverse, e.key, e.tables)
    {
      entries := entries - {e.key};
      DropFromIndex(e.key, e.tables);
      curBytes := curBytes - e.bytes;
    }

    /** Take a node out of the list, the map, the index and the byte count. */
    method Detach(e: Node<K, V>, ghost k: nat)
      requires Linked(order, head, tail) && Holds(order, items) && k < |order| == |items| && order[k] == e
      requires Holds(RemoveAt(order, k), RemoveAt(items, k))
      modifies `head, `tail, `entries, `reverse, `curBytes, order`prev, order`next
      ensures Linked(RemoveAt(order, k), head, tail) && Holds(RemoveAt(order, k), RemoveAt(items, k))
      ensures entries == old(entries) - {items[k].key} && curBytes == old(curBytes) - items[k].bytes
      ensures TakenOut(old(reverse), reverse, items[k].key, items[k].tables)
    {
      hide RemoveAt, Linked, Holds, TakenOut;
      HoldsAt(order, items, k);
      RemovedIndex(order, k);
      ghost var rest, left := RemoveAt(order, k), RemoveAt(items, k);
      Unlink(e, k);
      Forget(e);
      assert Linked(rest, head, tail) && Holds(rest, left);
    }

    method RemoveLocked(e: Node<K, V>, ghost k: nat)
      requires Valid() && k < |order| && order[k] == e
      modifies this, order`prev, order`next
      ensures Valid()
      ensures order == RemoveAt(old(order), k) && items == RemoveAt(old(items), k)
      ensures evictions == old(evictions)
    {
      hide RemoveAt, Linked, Holds, Mapped, Indexed, TakenOut, DistinctKeys, TotalBytes;
      ListAfterRemove(order, items, k, head, tail, entries);
      HoldsAt(order, items, k);
      Detach(e, k);
      IndexedAfterRemove(items, k, old(reverse), reverse);
      TotalBytesRemove(items, k);
      order, items := RemoveAt(order, k), RemoveAt(items, k);
    }

    /** A hit moves its node to the front. */
    method Touch(e: Node<K, V>, ghost k: nat)
      requires Valid() && k < |order| && order[k] == e
      modifies `head, `tail, `order, `items, order`prev, order`next
      ensures Valid()
      ensures order == Promote(old(order), k) && items == Promote(old(items), k)
    {
      hide Linked, Holds, Mapped, Indexed, DistinctKeys, TotalBytes, Promote;
      HoldsAt(order, items, k);
      ListAfterPromote(order, items, k, entries);
      PromoteKeeps(items, k, reverse);
      MoveToFrontLocked(e, k);
      items := Promote(items, k);
    }

    /** Link a node under a key that is not present. */
    method AddLocked(e: Node<K, V>)
      requires Valid() && e !in order && e.key !in entries
      modifies this, order`prev, e`prev, e`next
      ensures Valid()
      ensures order == [e] + old(order) && items == [old(e.Content())] + old(items)
      ensures evictions == old(evictions)
    {
      hide Linked, Holds, Mapped, Indexed, PutIn, DistinctKeys, TotalBytes;
      ghost var item, was := e.Content(), items;
      ListAfterAdd(e, order, items, entries);
      entries := entries[e.key := e];
      AddToIndex(e.key, e.tables);
      PushFrontLocked(e);
      curBytes := curBytes + e.bytes;
      items := [item] + items;
      IndexedAfterAdd(item, was, old(reverse), reverse);
      TotalBytesAppend([item], was);
      OneItemBytes(item);
    }

    /** Evict from the tail while a cap is exceeded; the list never runs empty first. */
    method EvictLocked()
      requires Valid()
      modifies this, order`prev, order`next
      ensures Valid()
      ensures items == Trim(old(items), maxEntries, maxBytes)
      ensures |items| <= |old(order)| && order == old(order)[..|items|]
      ensures evictions == old(evictions) + |old(items)| - |items|
    {
      hide Linked, Holds, Mapped, Indexed, DistinctKeys;
      ghost var start, was := items, order;
      EntryCount(order, items, entries);
      assert was[..|order|] == order;
      while |entries| > maxEntries || curBytes > maxBytes
        invariant Valid() && |entries| == |items| == |order| <= |was|
        invariant order == was[..|order|]
        invariant Trim(items, maxEntries, maxBytes) == Trim(start, maxEntries, maxBytes)
        invariant evictions == old(evictions) + |start| - |items|
        decreases |order|
      {
        assert items != [];
        ghost var last := |order| - 1;
        TailIsLast(order, head, tail);
        DropLast(order);
        DropLast(items);
        RemoveLocked(tail, last);
        evictions := evictions + 1;
        EntryCount(order, items, entries);
      }
    }

    /**
     Store a node: an entry under the same key is replaced, and the list is
     trimmed to the longest prefix that fits both caps.
     */
    method PutLocked(e: Node<K, V>)
      requires Valid() && e !in order
      modifies this, order`prev, order`next, e`prev, e`next
      ensures Valid()
      ensures items == Trim([old(e.Content())] + DropKeys(old(items), {e.key}), maxEntries, maxBytes)
      ensures forall i :: 0 <= i < |order| ==> order[i] == e || order[i] in old(order)
    {
      hide Linked, Holds, Mapped, Indexed, DistinctKeys, TotalBytes, RemoveAt, DropKeys, Trim;
      ghost var was := items;
      if e.key in entries {
        ghost var k := Position(order, items, entries, e.key);
        RemoveAtIsDrop(items, k);
        StillApart(order, k, e);
        RemoveKeepsSubset(order, k);
        RemoveLocked(entries[e.key], k);
        MappedKeys(order, items, entries);
        DropKeysKeySet(was, {e.key});
      } else {
        MappedKeys(order, items, entries);
        DropNothing(items, {e.key});
      }
      AddLocked(e);
      EvictLocked();
    }

    /**
     Drop every entry that reads a table. The bucket is visited in any order;
     only a key's own turn takes it out of the bucket, so visiting the live
     bucket and visiting the bucket as found are the same.
     */
    method InvalidateLocked(table: string)
      requires Valid()
      modifies this, order`prev, order`next
      ensures Valid()
      ensures items == DropReaders(old(items), table) && evictions == old(evictions)
      ensures forall i :: 0 <= i < |order| ==> order[i] in old(order)
    {
      hide Linked, Holds, Mapped, DistinctKeys, TotalBytes, RemoveAt, DropKeys, DropReaders, Readers;
      ghost var was, nodes := items, order;
      ghost var visited: set<K> := {};
      DropNothing(items, {});
      if table !in reverse {
        DropByReaders(items, table);
        return;
      }
      var todo := reverse[table];
      while todo != {}
        invariant Valid() && evictions == old(evictions)
        invariant forall i :: 0 <= i < |order| ==> order[i] in nodes
        invariant items == DropKeys(was, visited)
        invariant Readers(items, table) == todo && Readers(was, table) == visited + todo
        decreases todo
      {
        var key :| key in todo;
        assert key in reverse[table];
        ghost var k := ReaderPosition(order, items, entries, table, key);
        RemoveAtIsDrop(items, k);
        ReadersAfterRemove(items, k, table);
        DropTwice(was, visited, {key});
        RemoveKeepsSubset(order, k);
        RemoveLocked(entries[key], k);
        visited, todo := visited + {key}, todo - {key};
      }
      DropByReaders(was, table);
      reverse := reverse - {table};
    }

    /** Change what the front entry holds, as callers do through the rows they were handed. */
    method SetFront(e: Node<K, V>, val: V)
      requires Valid() && order != [] && order[0] == e
      modifies `items, e`val
      ensures Valid()
      ensures items != [] && items == old(items)[0 := old(items)[0].(val := val)] && |old(items)| == |items|
    {
      hide Linked, Indexed, TotalBytes;
      SameShape(items, items[0].(val := val), reverse);
      e.val := val;
      items := items[0 := items[0].(val := val)];
    }

    method FlushLocked()
      modifies this
      ensures Valid() && items == [] && order == [] && evictions == old(evictions)
    {
      entries, reverse, head, tail, curBytes := map[], map[], null, null, 0;
      order, items := [], [];
    }
  }

  lemma {:induction false} ListAfterRemove<K, V>(order: seq<Node<K, V>>, items: seq<Item<K, V>>, k: nat,
    head: Node?<K, V>, tail: Node?<K, V>, entries: map<K, Node<K, V>>)
    requires k < |order| && Linked(order, head, tail) && Holds(order, items) && Mapped(order, items, entries)
    requires DistinctKeys(items)
    ensures Holds(RemoveAt(order, k), RemoveAt(items, k))
    ensures Mapped(RemoveAt(order, k), RemoveAt(items, k), entries - {items[k].key})
    ensures DistinctKeys(RemoveAt(items, k))
  {
    OtherKeys(items, k);
    HoldsAfterRemove(order, items, k);
    MappedAfterRemove(order, items, entries, k);
  }

  lemma {:induction false} ListAfterPromote<K, V>(order: seq<Node<K, V>>, items: seq<Item<K, V>>, k: nat, entries: map<K, Node<K, V>>)
    requires k < |order| && Holds(order, items) && Mapped(order, items, entries) && DistinctKeys(items)
    ensures Holds(Promote(order, k), Promote(items, k))
    ensures Mapped(Promote(order, k), Promote(items, k), entries)
    ensures DistinctKeys(Promote(items, k))
  {
    var key := items[k].key;
    OtherKeys(items, k);
    HoldsAfterRemove(order, items, k);
    HoldsAfterAdd(order[k], items[k], RemoveAt(order, k), RemoveAt(items, k));
    MappedAfterRemove(order, items, entries, k);
    MappedAfterAdd(order[k], items[k], RemoveAt(order, k), RemoveAt(items, k), entries - {key});
    assert (entries - {key})[key := order[k]] == entries;
  }

  lemma {:induction false} ListAfterAdd<K, V>(e: Node<K, V>, order: seq<Node<K, V>>, items: seq<Item<K, V>>, entries: map<K, Node<K, V>>)
    requires Holds(order, items) && Mapped(order, items, entries) && DistinctKeys(items) && e.key !in entries
    ensures Holds([e] + order, [e.Content()] + items)
    ensures Mapped([e] + order, [e.Content()] + items, entries[e.key := e])
    ensures DistinctKeys([e.Content()] + items)
  {
    HoldsAfterAdd(e, e.Content(), order, items);
    MappedAfterAdd(e, e.Content(), order, items, entries);
  }

  lemma {:induction false} HoldsAfterAdd<K, V>(e: Node<K, V>, item: Item<K, V>, order: seq<Node<K, V>>, items: seq<Item<K, V>>)
    requires Holds(order, items) && e.Content() == item
    ensures Holds([e] + order, [item] + items)
  {
  }

  lemma {:induction false} MappedAfterAdd<K, V>(e: Node<K, V>, item: Item<K, V>, order: seq<Node<K, V>>, items: seq<Item<K, V>>, entries: map<K, Node<K, V>>)
    requires Mapped(order, items, entries) && DistinctKeys(items) && item.key !in entries
    ensures Mapped([e] + order, [item] + items, entries[item.key := e])
    ensures DistinctKeys([item] + items)
  {
    var more, entries' := [item] + items, entries[item.key := e];
    forall x | x in entries' ensures exists i :: 0 <= i < |more| && more[i].key == x {
      if x == item.key {
        assert more[0].key == x;
      } else {
        var j :| 0 <= j < |order| && items[j].key == x;
        assert more[j + 1] == items[j];
      }
    }
  }

  lemma {:induction false} OneItemBytes<K, V>(item: Item<K, V>)
    ensures TotalBytes([item]) == item.bytes
  {
  }

  lemma {:induction false} EntryCount<K, V>(order: seq<Node<K, V>>, items: seq<Item<K, V>>, entries: map<K, Node<K, V>>)
    requires Mapped(order, items, entries) && DistinctKeys(items)
    ensures |entries| == |items| == |order|
  {
    KeySetSize(items);
    assert entries.Keys == KeySet(items);
  }

  lemma {:induction false} TailIsLast<K, V>(order: seq<Node<K, V>>, head: Node?<K, V>, tail: Node?<K, V>)
    requires Linked(order, head, tail) && order != []
    ensures tail == order[|order| - 1]
  {
  }

  lemma {:induction false} DropLast<T>(s: seq<T>)
    requires s != []
    ensures RemoveAt(s, |s| - 1) == s[..|s| - 1]
  {
  }

  lemma {:induction false} MappedKeys<K, V>(order: seq<Node<K, V>>, items: seq<Item<K, V>>, entries: map<K, Node<K, V>>)
    requires Mapped(order, items, entries)
    ensures entries.Keys == KeySet(items)
  {
  }

  lemma {:induction false} Position<K, V>(order: seq<Node<K, V>>, items: seq<Item<K, V>>, entries: map<K, Node<K, V>>, key: K) returns (k: nat)
    requires Mapped(order, items, entries) && key in entries
    ensures k < |order| == |items| && items[k].key == key && entries[key] == order[k]
  {
    k :| 0 <= k < |order| && items[k].key == key;
  }

  lemma {:induction false} ReaderPosition<K, V>(order: seq<Node<K, V>>, items: seq<Item<K, V>>, entries: map<K, Node<K, V>>, table: string, key: K) returns (k: nat)
    requires Mapped(order, items, entries) && key in Readers(items, table)
    ensures k < |order| == |items| && items[k].key == key && table in items[k].tables
    ensures key in entries && entries[key] == order[k]
  {
    k :| 0 <= k < |items| && table in items[k].tables && items[k].key == key;
  }

  lemma {:induction false} StillApart<T>(s: seq<T>, k: nat, x: T)
    requires k < |s| && x !in s
    ensures x !in RemoveAt(s, k)
  {
  }

  lemma {:induction false} RemoveKeepsSubset<T>(s: seq<T>, k: nat)
    requires k < |s|
    ensures forall i :: 0 <= i < |RemoveAt(s, k)| ==> RemoveAt(s, k)[i] in s
  {
  }

  lemma {:induction false} HoldsAt<K, V>(order: seq<Node<K, V>>, items: seq<Item<K, V>>, k: nat)
    requires Holds(order, items) && k < |order|
    ensures |items| == |order| && order[k].Content() == items[k]
  {
  }

  lemma {:induction false} HoldsAfterRemove<K, V>(order: seq<Node<K, V>>, items: seq<Item<K, V>>, k: nat)
    requires k < |order| && Holds(order, items)
    ensures Holds(RemoveAt(order, k), RemoveAt(items, k))
  {
  }

  /** Position i of the shorter list is position i or i + 1 of the longer. */
  lemma {:induction false} RemovedIndex<T>(s: seq<T>, k: nat)
    requires k < |s|
    ensures |RemoveAt(s, k)| == |s| - 1
    ensures forall i :: 0 <= i < |s| - 1 ==> RemoveAt(s, k)[i] == s[if i < k then i else i + 1]
    ensures forall j :: 0 <= j < |s| && j != k ==> RemoveAt(s, k)[if j < k then j else j - 1] == s[j]
  {
  }

  lemma {:induction false} MappedAfterRemove<K, V>(order: seq<Node<K, V>>, items: seq<Item<K, V>>, entries: map<K, Node<K, V>>, k: nat)
    requires Mapped(order, items, entries) && k < |order| && DistinctKeys(items)
    ensures Mapped(RemoveAt(order, k), RemoveAt(items, k), entries - {items[k].key})
  {
    hide RemoveAt;
    RemovedIndex(order, k);
    RemovedIndex(items, k);
    var rest, left, fewer := RemoveAt(order, k), RemoveAt(items, k), entries - {items[k].key};
    forall i | 0 <= i < |rest| ensures left[i].key in fewer && fewer[left[i].key] == rest[i] {
      var j := if i < k then i else i + 1;
      assert rest[i] == order[j] && left[i] == items[j];
    }
    forall x | x in fewer ensures exists i :: 0 <= i < |rest| && left[i].key == x {
      var j :| 0 <= j < |order| && items[j].key == x;
      assert left[if j < k then j else j - 1] == items[j];
    }
  }
}
