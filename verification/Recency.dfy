/**
 Least recently used: over every run the cached entries stand in the order of
 their last uses, so what the caps evict was used before all that stays.
 */
module Recency {
  import opened LruItems
  import opened Rows
  import opened WriteRate
  import opened QuerySpec
  import opened QueryRuns
  import Pages = PageSpec
  import PageRuns
  import Codings = AcceptedEncodings

  /** The position of the last use of a key, -1 when it was never used. */
  ghost function LastUse<K>(uses: seq<K>, key: K): (at: int)
    ensures -1 <= at < |uses|
    ensures at >= 0 ==> uses[at] == key && key !in uses[at + 1..]
    ensures at == -1 ==> key !in uses
  {
    if uses == [] then -1
    else if uses[|uses| - 1] == key then |uses| - 1
    else LastUse(uses[..|uses| - 1], key)
  }

  /** Later uses come first, and every entry's key was used. */
  ghost predicate ByLastUse<K, V>(items: seq<Item<K, V>>, uses: seq<K>) {
    && (forall i :: 0 <= i < |items| ==> LastUse(uses, items[i].key) >= 0)
    && (forall i, j :: 0 <= i < j < |items| ==> LastUse(uses, items[i].key) > LastUse(uses, items[j].key))
  }

  lemma {:induction false} OneMoreUse<K>(uses: seq<K>, used: K, key: K)
    ensures LastUse(uses + [used], key) == if key == used then |uses| else LastUse(uses, key)
  {
    assert (uses + [used])[..|uses|] == uses;
  }

  /** A use of another key leaves the order as it is. */
  lemma {:induction false} OthersInOrder<K, V>(items: seq<Item<K, V>>, uses: seq<K>, used: K)
    requires ByLastUse(items, uses) && forall i :: 0 <= i < |items| ==> items[i].key != used
    ensures ByLastUse(items, uses + [used])
    ensures forall i :: 0 <= i < |items| ==> LastUse(uses + [used], items[i].key) < |uses|
  {
    hide LastUse;
    forall i | 0 <= i < |items| ensures LastUse(uses + [used], items[i].key) == LastUse(uses, items[i].key) {
      OneMoreUse(uses, used, items[i].key);
    }
  }

  lemma {:induction false} UsedInFront<K, V>(item: Item<K, V>, rest: seq<Item<K, V>>, uses: seq<K>)
    requires ByLastUse(rest, uses) && forall i :: 0 <= i < |rest| ==> rest[i].key != item.key
    ensures ByLastUse([item] + rest, uses + [item.key])
  {
    hide LastUse;
    OneMoreUse(uses, item.key, item.key);
    OthersInOrder(rest, uses, item.key);
    var all := [item] + rest;
    assert all[0] == item && forall i :: 0 < i < |all| ==> all[i] == rest[i - 1];
  }

  /** Leaving entries out keeps the order. */
  lemma {:induction false} RemovedInOrder<K, V>(items: seq<Item<K, V>>, k: nat, uses: seq<K>)
    requires ByLastUse(items, uses) && k < |items|
    ensures ByLastUse(RemoveAt(items, k), uses)
    ensures forall i :: 0 <= i < |RemoveAt(items, k)| ==> RemoveAt(items, k)[i].key != items[k].key
  {
    hide LastUse;
    var left := RemoveAt(items, k);
    assert forall i :: 0 <= i < |left| ==> left[i] == items[if i < k then i else i + 1];
  }

  lemma {:induction false} ConsInOrder<K, V>(x: Item<K, V>, rest: seq<Item<K, V>>, uses: seq<K>)
    requires LastUse(uses, x.key) >= 0 && ByLastUse(rest, uses)
    requires forall y :: y in rest ==> LastUse(uses, y.key) < LastUse(uses, x.key)
    ensures ByLastUse([x] + rest, uses)
  {
    hide LastUse;
    var all := [x] + rest;
    assert all[0] == x && forall i :: 0 < i < |all| ==> all[i] == rest[i - 1] && rest[i - 1] in rest;
  }

  lemma {:induction false} TailInOrder<K, V>(items: seq<Item<K, V>>, uses: seq<K>)
    requires ByLastUse(items, uses) && items != []
    ensures ByLastUse(items[1..], uses) && LastUse(uses, items[0].key) >= 0
    ensures forall y :: y in items[1..] ==> LastUse(uses, y.key) < LastUse(uses, items[0].key)
  {
    hide LastUse;
  }

  lemma {:induction false} DroppedInOrder<K, V>(items: seq<Item<K, V>>, keys: set<K>, uses: seq<K>)
    requires ByLastUse(items, uses)
    ensures ByLastUse(DropKeys(items, keys), uses)
  {
    hide LastUse, ByLastUse;
    NoneInOrder<K, V>(uses);
    if items != [] {
      TailInOrder(items, uses);
      DroppedInOrder(items[1..], keys, uses);
      var left := DropKeys(items[1..], keys);
      forall y | y in left ensures y in items[1..] {
        DropKeysKeeps(items[1..], keys, y);
      }
      ConsInOrder(items[0], left, uses);
      assert [] + left == left;
    }
  }

  lemma {:induction false} InvalidatedInOrder<K, V>(items: seq<Item<K, V>>, table: string, uses: seq<K>)
    requires ByLastUse(items, uses)
    ensures ByLastUse(DropReaders(items, table), uses)
  {
    hide LastUse, ByLastUse;
    NoneInOrder<K, V>(uses);
    if items != [] {
      TailInOrder(items, uses);
      InvalidatedInOrder(items[1..], table, uses);
      var left := DropReaders(items[1..], table);
      forall y | y in left ensures y in items[1..] {
        DropReadersKeeps(items[1..], table, y);
      }
      ConsInOrder(items[0], left, uses);
      assert [] + left == left;
    }
  }

  lemma {:induction false} NoneInOrder<K, V>(uses: seq<K>)
    ensures ByLastUse<K, V>([], uses)
  {
  }

  /** A hit moves its entry to where its new use belongs. */
  lemma {:induction false} PromotedInOrder<K, V>(items: seq<Item<K, V>>, k: nat, uses: seq<K>)
    requires ByLastUse(items, uses) && k < |items|
    ensures ByLastUse(Promote(items, k), uses + [items[k].key])
  {
    hide LastUse, ByLastUse, RemoveAt;
    RemovedInOrder(items, k, uses);
    UsedInFront(items[k], RemoveAt(items, k), uses);
  }

  /** So does a store, whatever it replaces and evicts. */
  lemma {:induction false} StoredInOrder<K, V>(item: Item<K, V>, items: seq<Item<K, V>>, maxEntries: nat, maxBytes: nat, uses: seq<K>)
    requires ByLastUse(items, uses)
    ensures ByLastUse(Trim([item] + DropKeys(items, {item.key}), maxEntries, maxBytes), uses + [item.key])
  {
    hide LastUse, ByLastUse, Trim;
    var left := DropKeys(items, {item.key});
    DroppedInOrder(items, {item.key}, uses);
    forall i | 0 <= i < |left| ensures left[i].key != item.key {
      DropKeysKeeps(items, {item.key}, left[i]);
    }
    UsedInFront(item, left, uses);
    var all := [item] + left;
    TrimIsLongestFit(all, maxEntries, maxBytes);
    PrefixInOrder(all, Trim(all, maxEntries, maxBytes), uses + [item.key]);
  }

  lemma {:induction false} PrefixInOrder<K, V>(items: seq<Item<K, V>>, front: seq<Item<K, V>>, uses: seq<K>)
    requires ByLastUse(items, uses) && front <= items
    ensures ByLastUse(front, uses)
  {
    hide LastUse;
  }

  /** What the caps evict was last used before all that stays. */
  lemma {:induction false} EvictedFirst<K, V>(items: seq<Item<K, V>>, maxEntries: nat, maxBytes: nat, uses: seq<K>, i: nat, j: nat)
    requires ByLastUse(items, uses)
    requires i < |Trim(items, maxEntries, maxBytes)| <= j < |items|
    ensures Trim(items, maxEntries, maxBytes)[i] == items[i]
    ensures LastUse(uses, items[j].key) < LastUse(uses, items[i].key)
  {
    hide LastUse, Trim;
    TrimIsLongestFit(items, maxEntries, maxBytes);
  }

  /* ---- runs of the row cache ---- */

  /** The key that a step uses: of the entry it hits, or of the one it stores. */
  ghost function UseOf<S>(c: Setup, run: (Database, string) -> Reading, db: Database, st: CacheState, step: Step<S>): seq<nat> {
    match step
    case Query(sql, visit, init, now, later) =>
      (match c.attribute(sql)
       case None => []
       case Some(tables) =>
         if Hit(c, st, sql, tables, now).Some? then [c.hash(sql)]
         else if Direct(run(db, sql), visit, init).err.None? && !AnyBypassed(st.stats, tables, later) then [c.hash(sql)]
         else [])
    case _ => []
  }

  ghost function UsesAfter<S>(c: Setup, run: (Database, string) -> Reading, db: Database, steps: seq<Step<S>>, n: nat): seq<nat>
    requires n <= |steps|
  {
    if n == 0 then []
    else
      UsesAfter(c, run, db, steps, n - 1)
      + UseOf(c, run, DbAfter(db, ChangeOf, steps, n - 1), CacheAfter(c, run, db, steps, n - 1), steps[n - 1])
  }

  lemma {:induction false} HitInOrder(st: CacheState, i: nat, left: seq<Row>, uses: seq<nat>)
    requires i < |st.items| && ByLastUse(st.items, uses)
    ensures ByLastUse(AfterHit(st, i, left).items, uses + [st.items[i].key])
  {
    hide LastUse, Promote;
    PromotedInOrder(st.items, i, uses);
    FrontIs(st.items, i);
  }

  lemma {:induction false} FrontIs<T>(s: seq<T>, k: nat)
    requires k < |s|
    ensures Promote(s, k) != [] && Promote(s, k)[0] == s[k]
  {
  }

  lemma {:induction false} StepInOrder<S>(c: Setup, run: (Database, string) -> Reading, db: Database, st: CacheState, step: Step<S>, uses: seq<nat>)
    requires ByLastUse(st.items, uses)
    ensures ByLastUse(CacheStep(c, run, db, st, step).items, uses + UseOf(c, run, db, st, step))
  {
    hide LastUse, ByLastUse, AfterHit, Trim, Direct, AnyBypassed, DropKeys, DropReaders, Hit;
    assert uses + [] == uses;
    match step {
      case Query(sql, visit, init, now, later) =>
        if c.attribute(sql).Some? {
          var tables := c.attribute(sql).value;
          var hit := Hit(c, st, sql, tables, now);
          if hit.Some? {
            HitKey(c, st, sql, tables, now);
            HitInOrder(st, hit.value, RowsLeft(st.items[hit.value].val.rows, visit, init), uses);
          } else {
            var rows := RowsLeft(run(db, sql).rows, visit, init);
            StoredInOrder(Item(c.hash(sql), SqlRows(sql, rows), tables, c.size(sql, rows)), st.items, c.maxEntries, c.maxBytes, uses);
          }
        }
      case Write(table, _, _) => InvalidatedInOrder(st.items, table, uses);
      case ForeignWrite(_, _) =>
      case Flush(_) => NoneInOrder<nat, SqlRows>(uses);
    }
  }

  lemma {:induction false} HitKey(c: Setup, st: CacheState, sql: string, tables: seq<string>, now: nat)
    requires Hit(c, st, sql, tables, now).Some?
    ensures Hit(c, st, sql, tables, now).value < |st.items| && st.items[Hit(c, st, sql, tables, now).value].key == c.hash(sql)
  {
  }

  /** Over every run the row cache holds its entries in the order of their last uses. */
  lemma {:induction false} CacheByLastUse<S>(c: Setup, run: (Database, string) -> Reading, db: Database, steps: seq<Step<S>>, n: nat)
    requires n <= |steps|
    ensures ByLastUse(CacheAfter(c, run, db, steps, n).items, UsesAfter(c, run, db, steps, n))
  {
    hide ByLastUse, CacheStep, UseOf;
    if n == 0 {
      NoneInOrder<nat, SqlRows>([]);
    } else {
      CacheByLastUse(c, run, db, steps, n - 1);
      StepInOrder(c, run, DbAfter(db, ChangeOf, steps, n - 1), CacheAfter(c, run, db, steps, n - 1), steps[n - 1], UsesAfter(c, run, db, steps, n - 1));
    }
  }

  /* ---- runs of the page cache ---- */

  /** The key whose page a request hits or stores; a flush or reload leaves no page behind. */
  ghost function PageUseOf(e: Pages.Engine, site: Pages.Site, db: Database, caches: (CacheState, Pages.Pages), ev: PageRuns.Event): seq<Pages.PageKey> {
    match ev
    case Request(a, headers, tick) =>
      var key := Pages.KeyOf(e, a);
      if Find(caches.1, key).Some? then [key]
      else if Pages.ComposeStep(e, site, caches.0, db, a, tick).0.Page? && Pages.CachedTables(site, a).Some? then [key]
      else []
    case _ => []
  }

  ghost function PageUsesAfter(e: Pages.Engine, site: Pages.Site, db: Database, events: seq<PageRuns.Event>, n: nat): seq<Pages.PageKey>
    requires n <= |events|
  {
    if n == 0 then []
    else
      PageUsesAfter(e, site, db, events, n - 1)
      + PageUseOf(e, PageRuns.SiteAfter(site, events, n - 1), DbAfter(db, PageRuns.ChangeOf, events, n - 1),
                  PageRuns.CachesAfter(e, site, db, events, n - 1), events[n - 1])
  }

  lemma {:induction false} ServedInOrder(e: Pages.Engine, site: Pages.Site, db: Database, st: CacheState, pages: Pages.Pages,
    a: Pages.Ask, accept: Pages.Accept, tick: nat -> nat, uses: seq<Pages.PageKey>)
    requires ByLastUse(pages, uses)
    ensures var key := Pages.KeyOf(e, a);
            var (_, _, pages') := Pages.ServeStep(e, site, st, pages, db, a, accept, tick);
            ByLastUse(pages', uses + if Find(pages, key).Some? || (Pages.ComposeStep(e, site, st, db, a, tick).0.Page? && Pages.CachedTables(site, a).Some?)
                                     then [key] else [])
  {
    hide LastUse, ByLastUse, Promote, Trim, DropKeys, Pages.ComposeStep, Pages.CachedTables, Pages.VariantsOf, Pages.KeyOf, Pages.EntrySize, Pages.Pick;
    assert uses + [] == uses;
    var key := Pages.KeyOf(e, a);
    var at := Find(pages, key);
    if at.Some? {
      PromotedInOrder(pages, at.value, uses);
    } else {
      var composed, tables := Pages.ComposeStep(e, site, st, db, a, tick).0, Pages.CachedTables(site, a);
      if composed.Page? && tables.Some? {
        var v := Pages.VariantsOf(e, site, composed.body, a.entry.head);
        StoredInOrder(Item(key, v, tables.value, Pages.EntrySize(v, tables.value)), pages, e.maxEntries, e.maxBytes, uses);
      }
    }
  }

  /** Over every run the page cache does so too. */
  lemma {:induction false} PagesByLastUse(e: Pages.Engine, site: Pages.Site, db: Database, events: seq<PageRuns.Event>, n: nat)
    requires n <= |events|
    ensures ByLastUse(PageRuns.CachesAfter(e, site, db, events, n).1, PageUsesAfter(e, site, db, events, n))
  {
    hide ByLastUse, Pages.ServeStep, Pages.ComposeStep, Pages.CachedTables, DropReaders, AfterInvalidate, Find, Codings.AcceptOf;
    if n == 0 {
      NoneInOrder<Pages.PageKey, Pages.Variants>([]);
    } else {
      PagesByLastUse(e, site, db, events, n - 1);
      var was, before := PageRuns.SiteAfter(site, events, n - 1), DbAfter(db, PageRuns.ChangeOf, events, n - 1);
      var (st, pages) := PageRuns.CachesAfter(e, site, db, events, n - 1);
      var uses := PageUsesAfter(e, site, db, events, n - 1);
      assert uses + [] == uses;
      NoneInOrder<Pages.PageKey, Pages.Variants>(uses);
      match events[n - 1] {
        case Request(a, headers, tick) =>
          ServedInOrder(e, was, before, st, pages, a, Codings.AcceptOf(headers), tick, uses);
        case Write(table, _, _) =>
          InvalidatedInOrder(pages, table, uses);
        case _ =>
      }
    }
  }
}
