/**
 The abstract LRU list both caches stand for: items in most-recently-used-first
 order, with removal, promotion, invalidation by table, and trimming to the
 entry and byte caps.
 */
module LruItems {

  datatype Item<K, V> = Item(key: K, val: V, tables: seq<string>, bytes: nat)

  ghost predicate DistinctKeys<K, V>(items: seq<Item<K, V>>) {
    forall i, j :: 0 <= i < j < |items| ==> items[i].key != items[j].key
  }

  ghost function KeySet<K, V>(items: seq<Item<K, V>>): set<K> {
    set i | 0 <= i < |items| :: items[i].key
  }

  ghost function TotalBytes<K, V>(items: seq<Item<K, V>>): nat {
    if items == [] then 0 else items[0].bytes + TotalBytes(items[1..])
  }

  /** The keys of the items that read a table. */
  ghost function Readers<K, V>(items: seq<Item<K, V>>, table: string): set<K> {
    set i | 0 <= i < |items| && table in items[i].tables :: items[i].key
  }

  /** The reverse index is the exact inverse of the items' table lists, with no empty bucket. */
  ghost predicate Indexed<K, V>(items: seq<Item<K, V>>, reverse: map<string, set<K>>) {
    forall t :: (t in reverse <==> Readers(items, t) != {}) && (t in reverse ==> reverse[t] == Readers(items, t))
  }

  /** The list without one position. */
  function RemoveAt<T>(s: seq<T>, k: nat): seq<T>
    requires k < |s|
  {
    s[..k] + s[k + 1..]
  }

  /** The order-preserving filter that drops the items with these keys. */
  ghost function DropKeys<K, V>(items: seq<Item<K, V>>, keys: set<K>): seq<Item<K, V>> {
    if items == [] then []
    else (if items[0].key in keys then [] else [items[0]]) + DropKeys(items[1..], keys)
  }

  /** The order-preserving filter that drops the items reading a table. */
  ghost function DropReaders<K, V>(items: seq<Item<K, V>>, table: string): seq<Item<K, V>> {
    if items == [] then []
    else (if table in items[0].tables then [] else [items[0]]) + DropReaders(items[1..], table)
  }

  ghost predicate Fits<K, V>(items: seq<Item<K, V>>, maxEntries: int, maxBytes: int) {
    |items| <= maxEntries && TotalBytes(items) <= maxBytes
  }

  /** Evict from the least recently used end until both caps hold. */
  ghost function Trim<K, V>(items: seq<Item<K, V>>, maxEntries: int, maxBytes: int): seq<Item<K, V>> {
    if items == [] || Fits(items, maxEntries, maxBytes) then items
    else Trim(items[..|items| - 1], maxEntries, maxBytes)
  }

  /** Move position k to the front. */
  function Promote<T>(s: seq<T>, k: nat): seq<T>
    requires k < |s|
  {
    [s[k]] + RemoveAt(s, k)
  }

  /* ---- bytes ---- */

  lemma {:induction false} TotalBytesAppend<K, V>(a: seq<Item<K, V>>, b: seq<Item<K, V>>)
    ensures TotalBytes(a + b) == TotalBytes(a) + TotalBytes(b)
  {
    if a == [] {
      assert a + b == b;
    } else {
      TotalBytesAppend(a[1..], b);
      assert (a + b)[1..] == a[1..] + b;
    }
  }

  lemma {:induction false} TotalBytesRemove<K, V>(items: seq<Item<K, V>>, k: nat)
    requires k < |items|
    ensures TotalBytes(items) == TotalBytes(RemoveAt(items, k)) + items[k].bytes
  {
    TotalBytesAppend(items[..k], items[k + 1..]);
    TotalBytesAppend(items[..k], items[k..]);
    assert items == items[..k] + items[k..];
    assert items[k..][1..] == items[k + 1..];
  }

  /**
   Trimming yields the longest prefix that fits both caps: the result fits,
   and every longer prefix is too large.
   */
  lemma {:induction false} TrimIsLongestFit<K, V>(items: seq<Item<K, V>>, maxEntries: int, maxBytes: int)
    requires 0 <= maxEntries && 0 <= maxBytes
    ensures Trim(items, maxEntries, maxBytes) <= items
    ensures Fits(Trim(items, maxEntries, maxBytes), maxEntries, maxBytes)
    ensures forall n :: |Trim(items, maxEntries, maxBytes)| < n <= |items| ==> !Fits(items[..n], maxEntries, maxBytes)
  {
    if items != [] && !Fits(items, maxEntries, maxBytes) {
      var shorter := items[..|items| - 1];
      TrimIsLongestFit(shorter, maxEntries, maxBytes);
      forall n | |Trim(items, maxEntries, maxBytes)| < n <= |items| ensures !Fits(items[..n], maxEntries, maxBytes) {
        if n == |items| {
          assert items[..n] == items;
        } else {
          assert items[..n] == shorter[..n];
        }
      }
    } else {
      assert items[..|items|] == items;
    }
  }

  /* ---- filters ---- */

  /** Which items a key filter keeps. */
  lemma {:induction false} DropKeysKeeps<K, V>(items: seq<Item<K, V>>, keys: set<K>, x: Item<K, V>)
    ensures x in DropKeys(items, keys) <==> x in items && x.key !in keys
  {
    if items != [] {
      DropKeysKeeps(items[1..], keys, x);
      assert items == [items[0]] + items[1..];
    }
  }

  lemma {:induction false} DropReadersKeeps<K, V>(items: seq<Item<K, V>>, table: string, x: Item<K, V>)
    ensures x in DropReaders(items, table) <==> x in items && table !in x.tables
  {
    if items != [] {
      DropReadersKeeps(items[1..], table, x);
      assert items == [items[0]] + items[1..];
    }
  }

  lemma {:induction false} DropNothing<K, V>(items: seq<Item<K, V>>, keys: set<K>)
    requires KeySet(items) !! keys
    ensures DropKeys(items, keys) == items
  {
    if items != [] {
      assert items[0].key in KeySet(items);
      assert KeySet(items[1..]) <= KeySet(items) by {
        forall k | k in KeySet(items[1..]) ensures k in KeySet(items) {
          var i :| 0 <= i < |items[1..]| && items[1..][i].key == k;
          assert items[i + 1].key == k;
        }
      }
      DropNothing(items[1..], keys);
    }
  }

  lemma {:induction false} DropAppend<K, V>(a: seq<Item<K, V>>, b: seq<Item<K, V>>, keys: set<K>)
    ensures DropKeys(a + b, keys) == DropKeys(a, keys) + DropKeys(b, keys)
  {
    if a == [] {
      assert a + b == b;
    } else {
      DropAppend(a[1..], b, keys);
      assert (a + b)[1..] == a[1..] + b;
      var head := if a[0].key in keys then [] else [a[0]];
      assert DropKeys(a + b, keys) == head + DropKeys(a[1..] + b, keys);
      assert head + (DropKeys(a[1..], keys) + DropKeys(b, keys)) == (head + DropKeys(a[1..], keys)) + DropKeys(b, keys);
    }
  }

  lemma {:induction false} DropCons<K, V>(x: Item<K, V>, rest: seq<Item<K, V>>, keys: set<K>)
    ensures DropKeys([x] + rest, keys) == (if x.key in keys then [] else [x]) + DropKeys(rest, keys)
  {
  }

  /** With distinct keys, dropping one key is removing its position. */
  lemma {:induction false} RemoveAtIsDrop<K, V>(items: seq<Item<K, V>>, k: nat)
    requires DistinctKeys(items) && k < |items|
    ensures RemoveAt(items, k) == DropKeys(items, {items[k].key})
  {
    hide DropKeys, KeySet, DistinctKeys;
    var keys := {items[k].key};
    var front, back := items[..k], items[k + 1..];
    assert items == front + ([items[k]] + back);
    DropAppend(front, [items[k]] + back, keys);
    DropCons(items[k], back, keys);
    OtherKeys(items, k);
    DropNothing(front, keys);
    DropNothing(back, keys);
    assert [] + back == back;
  }

  lemma {:induction false} OtherKeys<K, V>(items: seq<Item<K, V>>, k: nat)
    requires DistinctKeys(items) && k < |items|
    ensures items[k].key !in KeySet(items[..k]) && items[k].key !in KeySet(items[k + 1..])
    ensures DistinctKeys(RemoveAt(items, k))
  {
  }

  lemma {:induction false} DropTwice<K, V>(items: seq<Item<K, V>>, a: set<K>, b: set<K>)
    ensures DropKeys(DropKeys(items, a), b) == DropKeys(items, a + b)
  {
    if items != [] {
      DropTwice(items[1..], a, b);
      DropAppend(if items[0].key in a then [] else [items[0]], DropKeys(items[1..], a), b);
    }
  }

  /** Dropping exactly the readers of a table, by key, is the filter by table. */
  lemma {:induction false} DropReaderKeys<K, V>(items: seq<Item<K, V>>, table: string, keys: set<K>)
    requires forall i :: 0 <= i < |items| ==> (items[i].key in keys <==> table in items[i].tables)
    ensures DropKeys(items, keys) == DropReaders(items, table)
  {
    if items != [] {
      DropReaderKeys(items[1..], table, keys);
    }
  }

  /** The filter by the keys of a table's readers is the filter by table. */
  lemma {:induction false} DropByReaders<K, V>(items: seq<Item<K, V>>, table: string)
    requires DistinctKeys(items)
    ensures DropKeys(items, Readers(items, table)) == DropReaders(items, table)
  {
    forall i | 0 <= i < |items| ensures items[i].key in Readers(items, table) <==> table in items[i].tables {
    }
    DropReaderKeys(items, table, Readers(items, table));
  }

  lemma {:induction false} DropKeysKeySet<K, V>(items: seq<Item<K, V>>, keys: set<K>)
    ensures KeySet(DropKeys(items, keys)) !! keys
  {
    var left := DropKeys(items, keys);
    forall i | 0 <= i < |left| ensures left[i].key !in keys {
      DropKeysKeeps(items, keys, left[i]);
    }
  }

  lemma {:induction false} KeySetSize<K, V>(items: seq<Item<K, V>>)
    requires DistinctKeys(items)
    ensures |KeySet(items)| == |items|
  {
    if items != [] {
      var n := |items| - 1;
      KeySetSize(items[..n]);
      assert KeySet(items) == KeySet(items[..n]) + {items[n].key};
    }
  }

  /* ---- the reverse index ---- */

  /** key has been taken out of the buckets of these tables, emptied buckets deleted, others untouched. */
  ghost predicate TakenOut<K>(before: map<string, set<K>>, after: map<string, set<K>>, key: K, tables: seq<string>) {
    forall t ::
      var bucket := if t in before then before[t] else {};
      var left := if t in tables then bucket - {key} else bucket;
      && (t in after <==> t in before && (t in tables ==> left != {}))
      && (t in after ==> after[t] == left)
  }

  /** key has been put into the buckets of these tables, others untouched. */
  ghost predicate PutIn<K>(before: map<string, set<K>>, after: map<string, set<K>>, key: K, tables: seq<string>) {
    forall t ::
      var bucket := if t in before then before[t] else {};
      && (t in after <==> t in before || t in tables)
      && (t in after ==> after[t] == if t in tables then bucket + {key} else bucket)
  }

  lemma {:induction false} IndexedAfterRemove<K, V>(items: seq<Item<K, V>>, k: nat, before: map<string, set<K>>, after: map<string, set<K>>)
    requires DistinctKeys(items) && k < |items| && Indexed(items, before)
    requires TakenOut(before, after, items[k].key, items[k].tables)
    ensures Indexed(RemoveAt(items, k), after)
  {
    forall t
      ensures Readers(RemoveAt(items, k), t) == if t in items[k].tables then Readers(items, t) - {items[k].key} else Readers(items, t)
    {
      ReadersAfterRemove(items, k, t);
    }
  }

  lemma {:induction false} ReadersAfterRemove<K, V>(items: seq<Item<K, V>>, k: nat, t: string)
    requires DistinctKeys(items) && k < |items|
    ensures Readers(RemoveAt(items, k), t) == if t in items[k].tables then Readers(items, t) - {items[k].key} else Readers(items, t)
  {
    var rest := RemoveAt(items, k);
    forall x ensures x in Readers(rest, t) <==> x in Readers(items, t) && x != items[k].key {
      if x in Readers(rest, t) {
        var i :| 0 <= i < |rest| && t in rest[i].tables && rest[i].key == x;
        assert rest[i] == items[if i < k then i else i + 1];
      }
      if x in Readers(items, t) && x != items[k].key {
        var i :| 0 <= i < |items| && t in items[i].tables && items[i].key == x;
        assert rest[if i < k then i else i - 1] == items[i];
      }
    }
  }

  lemma {:induction false} IndexedAfterAdd<K, V>(item: Item<K, V>, items: seq<Item<K, V>>, before: map<string, set<K>>, after: map<string, set<K>>)
    requires Indexed(items, before) && PutIn(before, after, item.key, item.tables)
    ensures Indexed([item] + items, after)
  {
    forall t
      ensures Readers([item] + items, t) == if t in item.tables then Readers(items, t) + {item.key} else Readers(items, t)
    {
      ReadersAfterAdd(item, items, t);
    }
  }

  lemma {:induction false} ReadersAfterAdd<K, V>(item: Item<K, V>, items: seq<Item<K, V>>, t: string)
    ensures Readers([item] + items, t) == if t in item.tables then Readers(items, t) + {item.key} else Readers(items, t)
  {
    var more := [item] + items;
    forall x ensures x in Readers(more, t) <==> x in Readers(items, t) || (t in item.tables && x == item.key) {
      if x in Readers(more, t) {
        var i :| 0 <= i < |more| && t in more[i].tables && more[i].key == x;
        if i > 0 {
          assert more[i] == items[i - 1];
        }
      }
      if x in Readers(items, t) {
        var i :| 0 <= i < |items| && t in items[i].tables && items[i].key == x;
        assert more[i + 1] == items[i];
      }
      if t in item.tables && x == item.key {
        assert more[0] == item;
      }
    }
  }

  lemma {:induction false} PromoteKeeps<K, V>(items: seq<Item<K, V>>, k: nat, reverse: map<string, set<K>>)
    requires k < |items|
    ensures TotalBytes(Promote(items, k)) == TotalBytes(items)
    ensures Indexed(items, reverse) ==> Indexed(Promote(items, k), reverse)
  {
    TotalBytesRemove(items, k);
    TotalBytesAppend([items[k]], RemoveAt(items, k));
    forall t ensures Readers(Promote(items, k), t) == Readers(items, t) {
      var p := Promote(items, k);
      forall x ensures x in Readers(p, t) <==> x in Readers(items, t) {
        if x in Readers(p, t) {
          var i :| 0 <= i < |p| && t in p[i].tables && p[i].key == x;
          assert p[i] == items[if i == 0 then k else if i <= k then i - 1 else i];
        }
        if x in Readers(items, t) {
          var i :| 0 <= i < |items| && t in items[i].tables && items[i].key == x;
          assert p[if i == k then 0 else if i < k then i + 1 else i] == items[i];
        }
      }
    }
  }

  /** Changing the value of the first item changes no key, table list or size. */
  lemma {:induction false} SameShape<K, V>(items: seq<Item<K, V>>, first: Item<K, V>, reverse: map<string, set<K>>)
    requires items != [] && first == items[0].(val := first.val)
    ensures TotalBytes(items[0 := first]) == TotalBytes(items)
    ensures Indexed(items, reverse) ==> Indexed(items[0 := first], reverse)
    ensures DistinctKeys(items) ==> DistinctKeys(items[0 := first])
  {
  }
}
