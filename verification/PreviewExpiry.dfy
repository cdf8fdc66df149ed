/** What the preview cache of packages/api/src/preview.ts lets go of when its time has passed. */
module PreviewExpiry {
  import opened Prelude
  import opened PreviewCaches

  predicate Timely(o: Options, item: Item, now: int) { now <= item.entry.storedAt + o.ttlMs }

  lemma LastNHas(s: seq<Item>, n: int, item: Item)
    requires item in LastN(s, n)
    ensures item in s
  {
  }

  lemma SetDropsExpired(o: Options, s: seq<Item>, id: Id, entry: PreviewEntry, now: int, item: Item)
    requires item in AfterSet(o, s, id, entry, now)
    ensures Timely(o, item, now) || item == Item(id, entry)
  {
    var pruned := Pruned(o, s, now);
    LastNHas(ToEnd(pruned, id, entry), o.maxEntries, item);
    assert item in Without(pruned, id) || item == Item(id, entry);
    assert item in Without(pruned, id) ==> item in pruned && FreshAt(o, now)(item);
  }

  /** Pruning, alone or in front of a store, leaves no entry whose TTL has passed, but for the one just stored. */
  lemma PruneDropsExpired(o: Options, h: seq<Op>, n: nat, item: Item)
    requires n < |h| && !h[n].Get? && item in Run(o, h, n + 1)
    ensures Timely(o, item, h[n].now) || (h[n].Set? && item == Item(h[n].id, h[n].entry))
  {
    if h[n].Set? {
      SetDropsExpired(o, Run(o, h, n), h[n].id, h[n].entry, h[n].now, item);
    } else {
      assert item in Pruned(o, Run(o, h, n), h[n].now) && FreshAt(o, h[n].now)(item);
    }
  }

  /** It drops nothing else: an entry in time is still there behind it. */
  lemma PruneKeepsTimely(o: Options, h: seq<Op>, n: nat, item: Item)
    requires n < |h| && h[n].Prune? && item in Run(o, h, n) && Timely(o, item, h[n].now)
    ensures item in Run(o, h, n + 1)
  {
    assert FreshAt(o, h[n].now)(item);
  }

  lemma GetOn(o: Options, s: seq<Item>, id: Id, now: int, item: Item)
    requires DistinctIds(s) && item in s
    ensures item in AfterGet(o, s, id, now) <==> item.id != id || Timely(o, item, now)
    ensures item.id == id && !Timely(o, item, now) ==> Served(o, s, id, now).None?
  {
    HeldIsFound(s, item);
    LookupFinds(s, id);
  }

  lemma RunIsDistinct(o: Options, h: seq<Op>, n: nat)
    requires n <= |h|
    ensures DistinctIds(Run(o, h, n))
  {
    RunIsOrderedByUse(o, h, n);
    OrderedIsDistinct(Uses(o, h), n, Run(o, h, n));
  }

  /** Reading an entry whose TTL has passed answers nothing and lets go of it; reading drops nothing else. */
  lemma GetDropsExpired(o: Options, h: seq<Op>, n: nat, id: Id, now: int, item: Item)
    requires n < |h| && h[n] == Get(id, now) && item in Run(o, h, n)
    ensures item in Run(o, h, n + 1) <==> item.id != id || Timely(o, item, now)
    ensures item.id == id && !Timely(o, item, now) ==> Served(o, Run(o, h, n), id, now).None?
  {
    RunIsDistinct(o, h, n);
    GetOn(o, Run(o, h, n), id, now, item);
  }
}
