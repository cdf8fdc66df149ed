/**
  packages/api/src/preview.ts: the preview cache. A `Map` that is iterated in insertion order is a
  sequence of items with distinct ids.
*/
module PreviewCaches {
  import opened Prelude
  import opened Sequences

  /** Preview ids and pages, which the cache only hands on. */
  type Id(==, !new)
  type Page(==, !new)

  datatype PreviewEntry = PreviewEntry(page: Page, storedAt: int)
  datatype Item = Item(id: Id, entry: PreviewEntry)
  datatype Options = Options(maxEntries: int, ttlMs: int)

  predicate IsExpired(o: Options, e: PreviewEntry, now: int) { now - e.storedAt > o.ttlMs }

  predicate DistinctIds(s: seq<Item>) { forall i, j :: 0 <= i < j < |s| ==> s[i].id != s[j].id }

  // ----- What a `Map` does -----

  function OtherThan(id: Id): Item -> bool { (item: Item) => item.id != id }
  function FreshAt(o: Options, now: int): Item -> bool { (item: Item) => !IsExpired(o, item.entry, now) }

  /** `Map.delete`. */
  function Without(s: seq<Item>, id: Id): seq<Item> { Filter(s, OtherThan(id)) }

  /** `Map.delete` and `Map.set`: the item moves to the end. */
  function ToEnd(s: seq<Item>, id: Id, entry: PreviewEntry): seq<Item> { Without(s, id) + [Item(id, entry)] }

  /** `Map.get`. */
  function Lookup(s: seq<Item>, id: Id): Option<PreviewEntry> {
    if s == [] then None
    else if s[|s| - 1].id == id then Some(s[|s| - 1].entry)
    else Lookup(s[..|s| - 1], id)
  }

  function LastN(s: seq<Item>, n: int): seq<Item> {
    if |s| <= n then s else if n <= 0 then [] else s[|s| - n..]
  }

  // ----- The three operations on values -----

  function Pruned(o: Options, s: seq<Item>, now: int): seq<Item> { Filter(s, FreshAt(o, now)) }

  function AfterSet(o: Options, s: seq<Item>, id: Id, entry: PreviewEntry, now: int): seq<Item> {
    LastN(ToEnd(Pruned(o, s, now), id, entry), o.maxEntries)
  }

  function Served(o: Options, s: seq<Item>, id: Id, now: int): Option<PreviewEntry> {
    var found := Lookup(s, id);
    if found.Some? && !IsExpired(o, found.value, now) then found else None
  }

  function AfterGet(o: Options, s: seq<Item>, id: Id, now: int): seq<Item> {
    var found := Lookup(s, id);
    if found.None? then s
    else if IsExpired(o, found.value, now) then Without(s, id)
    else ToEnd(s, id, found.value)
  }

  // ----- Lemmas on filters -----

  lemma {:induction false} FilterAt(s: seq<Item>, keep: Item -> bool, i: nat) returns (x: nat)
    requires i < |Filter(s, keep)|
    ensures x < |s| && s[x] == Filter(s, keep)[i] && keep(s[x])
  {
    var init := s[..|s| - 1];
    if i < |Filter(init, keep)| { x := FilterAt(init, keep, i); } else { x := |s| - 1; }
  }

  lemma {:induction false} FilterKeepsOrder(s: seq<Item>, keep: Item -> bool, i: nat, j: nat) returns (x: nat, y: nat)
    requires i < j < |Filter(s, keep)|
    ensures x < y < |s| && s[x] == Filter(s, keep)[i] && s[y] == Filter(s, keep)[j]
  {
    var init := s[..|s| - 1];
    if j < |Filter(init, keep)| {
      x, y := FilterKeepsOrder(init, keep, i, j);
    } else {
      x := FilterAt(init, keep, i);
      y := |s| - 1;
    }
  }

  lemma DropAt(s: seq<Item>, i: nat)
    requires i < |s|
    ensures (s[..i] + s[i + 1..])[..i] == s[..i] && (s[..i] + s[i + 1..])[i..] == s[i + 1..]
  {
  }

  lemma FilterNext(s: seq<Item>, keep: Item -> bool, n: nat)
    requires n < |s|
    ensures Filter(s[..n + 1], keep) == Filter(s[..n], keep) + if keep(s[n]) then [s[n]] else []
  {
    assert s[..n + 1][..n] == s[..n];
  }

  /** What one turn of the loop of `prune` may go on with. */
  lemma PruneNext(s: seq<Item>, i: nat, was: seq<Item>, seen: nat, keep: Item -> bool)
    requires i < |s| && seen <= |was| && s[..i] == Filter(was[..seen], keep) && s[i..] == was[seen..]
    ensures seen < |was| && s[i] == was[seen] && s[i + 1..] == was[seen + 1..]
    ensures Filter(was[..seen + 1], keep) == if keep(s[i]) then s[..i + 1] else s[..i]
    ensures (s[..i] + s[i + 1..])[..i] == s[..i] && (s[..i] + s[i + 1..])[i..] == s[i + 1..]
  {
    assert s[i..][0] == was[seen..][0] && s[i..][1..] == was[seen..][1..];
    FilterNext(was, keep, seen);
    assert s[..i + 1] == s[..i] + [s[i]];
    DropAt(s, i);
  }

  lemma {:induction false} FilterShrinks(s: seq<Item>, keep: Item -> bool)
    ensures |Filter(s, keep)| <= |s|
    ensures (exists item :: item in s && !keep(item)) ==> |Filter(s, keep)| < |s|
  {
    if s != [] {
      FilterShrinks(s[..|s| - 1], keep);
    }
  }

  lemma FilterDistinct(s: seq<Item>, keep: Item -> bool)
    requires DistinctIds(s)
    ensures DistinctIds(Filter(s, keep))
  {
    forall i, j | 0 <= i < j < |Filter(s, keep)| ensures Filter(s, keep)[i].id != Filter(s, keep)[j].id {
      var x, y := FilterKeepsOrder(s, keep, i, j);
    }
  }

  lemma ToEndDistinct(s: seq<Item>, id: Id, entry: PreviewEntry)
    requires DistinctIds(s)
    ensures DistinctIds(ToEnd(s, id, entry))
  {
    FilterDistinct(s, OtherThan(id));
    forall i | 0 <= i < |Without(s, id)| ensures Without(s, id)[i].id != id {
      var x := FilterAt(s, OtherThan(id), i);
    }
  }

  // ----- The cache -----

  class PreviewCache {
    var entries: seq<Item>
    const options: Options

    ghost predicate Valid()
      reads this
    {
      DistinctIds(entries)
    }

    constructor (options: Options)
      ensures Valid() && entries == [] && this.options == options
    {
      entries := [];
      this.options := options;
    }

    method Prune(now: int)
      requires Valid()
      modifies this`entries
      ensures Valid() && entries == Pruned(options, old(entries), now)
    {
      ghost var was, keep, seen := entries, FreshAt(options, now), 0;
      var i := 0;
      while i < |entries|
        invariant 0 <= i <= |entries| && 0 <= seen <= |was|
        invariant entries[..i] == Filter(was[..seen], keep)
        invariant entries[i..] == was[seen..]
        decreases |entries| - i
      {
        PruneNext(entries, i, was, seen, keep);
        if IsExpired(options, entries[i].entry, now) {
          entries := entries[..i] + entries[i + 1..];
        } else {
          i := i + 1;
        }
        seen := seen + 1;
      }
      assert was[..seen] == was;
      FilterDistinct(was, keep);
    }

    method Set(id: Id, entry: PreviewEntry, now: int)
      requires Valid()
      modifies this`entries
      ensures Valid() && entries == AfterSet(options, old(entries), id, entry, now)
    {
      Prune(now);
      ghost var pruned := entries;
      entries := Without(entries, id);
      entries := entries + [Item(id, entry)];
      ToEndDistinct(pruned, id, entry);
      ghost var all := entries;
      ghost var dropped := 0;
      while |entries| > options.maxEntries
        invariant 0 <= dropped <= |all| && entries == all[dropped..]
        invariant dropped > 0 ==> |entries| >= options.maxEntries
        decreases |entries|
      {
        if entries == [] {
          break;
        }
        entries := entries[1..];
        dropped := dropped + 1;
      }
    }

    method Get(id: Id, now: int) returns (r: Option<PreviewEntry>)
      requires Valid()
      modifies this`entries
      ensures Valid() && entries == AfterGet(options, old(entries), id, now)
      ensures r == Served(options, old(entries), id, now)
    {
      var entry := Lookup(entries, id);
      if entry.None? {
        return None;
      }
      FilterDistinct(entries, OtherThan(id));
      ToEndDistinct(entries, id, entry.value);
      if IsExpired(options, entry.value, now) {
        entries := Without(entries, id);
        return None;
      }
      entries := Without(entries, id);
      entries := entries + [Item(id, entry.value)];
      return entry;
    }
  }

  // ----- Runs -----

  datatype Op = Prune(now: int) | Set(id: Id, entry: PreviewEntry, now: int) | Get(id: Id, now: int)

  function Step(o: Options, s: seq<Item>, op: Op): seq<Item> {
    match op
    case Prune(now) => Pruned(o, s, now)
    case Set(id, entry, now) => AfterSet(o, s, id, entry, now)
    case Get(id, now) => AfterGet(o, s, id, now)
  }

  /** The map after the first `n` operations of a history. */
  function Run(o: Options, h: seq<Op>, n: nat): seq<Item>
    requires n <= |h|
  {
    if n == 0 then [] else Step(o, Run(o, h, n - 1), h[n - 1])
  }

  function LastStored(h: seq<Op>, n: nat, id: Id): Option<PreviewEntry>
    requires n <= |h|
  {
    if n == 0 then None
    else if h[n - 1].Set? && h[n - 1].id == id then Some(h[n - 1].entry)
    else LastStored(h, n - 1, id)
  }

  /** The id an operation uses: stored, or read with success. */
  function UsedBy(o: Options, s: seq<Item>, op: Op): set<Id> {
    match op
    case Prune(_) => {}
    case Set(id, _, _) => {id}
    case Get(id, now) => if Served(o, s, id, now).Some? then {id} else {}
  }

  /** What each operation of a history uses. */
  function Uses(o: Options, h: seq<Op>): seq<set<Id>> {
    seq(|h|, k requires 0 <= k < |h| => UsedBy(o, Run(o, h, k), h[k]))
  }

  predicate UseIs(o: Options, h: seq<Op>, used: seq<set<Id>>, k: nat) {
    k < |h| && k < |used| && used[k] == UsedBy(o, Run(o, h, k), h[k])
  }

  ghost predicate UsesAre(o: Options, h: seq<Op>, used: seq<set<Id>>) {
    |used| == |h| && forall k: nat :: k < |h| ==> UseIs(o, h, used, k)
  }

  lemma UsesOf(o: Options, h: seq<Op>)
    ensures UsesAre(o, h, Uses(o, h))
  {
  }

  /** The last of the first `n` operations that used an id, or -1. */
  function LastUse(used: seq<set<Id>>, n: nat, id: Id): (at: int)
    requires n <= |used|
    ensures -1 <= at < n
  {
    if n == 0 then -1 else if id in used[n - 1] then n - 1 else LastUse(used, n - 1, id)
  }

  /** The ids used from operation `from` on, up to the `n`-th. */
  function UsedSince(used: seq<set<Id>>, n: nat, from: int): set<Id>
    requires n <= |used|
  {
    if n <= from || n == 0 then {} else UsedSince(used, n - 1, from) + used[n - 1]
  }

  predicate UsedBefore(used: seq<set<Id>>, n: nat, a: Item, b: Item)
    requires n <= |used|
  {
    LastUse(used, n, a.id) < LastUse(used, n, b.id)
  }

  /** A recency list: the later in the map, the later the last use. */
  ghost predicate OrderedByUse(used: seq<set<Id>>, n: nat, s: seq<Item>)
    requires n <= |used|
  {
    forall i, j :: 0 <= i < j < |s| ==> UsedBefore(used, n, s[i], s[j])
  }

  ghost predicate HoldsLastStored(h: seq<Op>, n: nat, s: seq<Item>)
    requires n <= |h|
  {
    forall i :: 0 <= i < |s| ==> LastStored(h, n, s[i].id) == Some(s[i].entry)
  }

  lemma {:induction false} LookupFinds(s: seq<Item>, id: Id)
    ensures Lookup(s, id).Some? ==> Item(id, Lookup(s, id).value) in s
    ensures Lookup(s, id).None? ==> forall i :: 0 <= i < |s| ==> s[i].id != id
  {
    if s != [] { LookupFinds(s[..|s| - 1], id); }
  }

  lemma FilterKeepsOrdered(used: seq<set<Id>>, n: nat, s: seq<Item>, keep: Item -> bool)
    requires n <= |used| && OrderedByUse(used, n, s)
    ensures OrderedByUse(used, n, Filter(s, keep))
  {
    forall i, j | 0 <= i < j < |Filter(s, keep)|
      ensures UsedBefore(used, n, Filter(s, keep)[i], Filter(s, keep)[j])
    {
      var x, y := FilterKeepsOrder(s, keep, i, j);
      assert UsedBefore(used, n, s[x], s[y]);
    }
  }

  // ----- What a run keeps -----

  lemma LastNKeepsMembers(s: seq<Item>, n: int)
    ensures forall item :: item in LastN(s, n) ==> item in s
    ensures |LastN(s, n)| <= if n < 0 then 0 else n
  {
  }

  /** Every item after an operation was there before it, or is the one the operation put last. */
  lemma StepMembers(o: Options, s: seq<Item>, op: Op, item: Item)
    requires item in Step(o, s, op)
    ensures item in s || (op.Set? && item == Item(op.id, op.entry))
    ensures op.Set? && item.id == op.id ==> item == Item(op.id, op.entry)
  {
    match op
    case Prune(now) =>
    case Set(id, entry, now) =>
      LastNKeepsMembers(ToEnd(Pruned(o, s, now), id, entry), o.maxEntries);
    case Get(id, now) =>
      LookupFinds(s, id);
  }

  /** The cache only ever holds what was stored last under an id. */
  lemma {:induction false} RunHoldsLastStored(o: Options, h: seq<Op>, n: nat)
    requires n <= |h|
    ensures HoldsLastStored(h, n, Run(o, h, n))
  {
    if n > 0 {
      RunHoldsLastStored(o, h, n - 1);
      var s, t := Run(o, h, n - 1), Run(o, h, n);
      forall i | 0 <= i < |t| ensures LastStored(h, n, t[i].id) == Some(t[i].entry) {
        assert t[i] in t;
        StepMembers(o, s, h[n - 1], t[i]);
      }
    }
  }

  lemma SameUses(used: seq<set<Id>>, n: nat, s: seq<Item>)
    requires 0 < n <= |used| && OrderedByUse(used, n - 1, s)
    requires forall i :: 0 <= i < |s| ==> s[i].id !in used[n - 1]
    ensures OrderedByUse(used, n, s)
  {
    forall i, j | 0 <= i < j < |s| ensures UsedBefore(used, n, s[i], s[j]) {
      assert UsedBefore(used, n - 1, s[i], s[j]);
    }
  }

  lemma ToEndOrdered(used: seq<set<Id>>, n: nat, s: seq<Item>, id: Id, entry: PreviewEntry)
    requires 0 < n <= |used| && OrderedByUse(used, n - 1, s) && used[n - 1] == {id}
    ensures OrderedByUse(used, n, ToEnd(s, id, entry))
  {
    var others := Without(s, id);
    FilterKeepsOrdered(used, n - 1, s, OtherThan(id));
    forall i | 0 <= i < |others| ensures others[i].id != id {
      assert others[i] in others;
    }
    SameUses(used, n, others);
    forall i | 0 <= i < |others| ensures UsedBefore(used, n, others[i], Item(id, entry)) {
      assert LastUse(used, n, others[i].id) == LastUse(used, n - 1, others[i].id);
    }
    AppendOrdered(used, n, others, Item(id, entry));
  }

  lemma AppendOrdered(used: seq<set<Id>>, n: nat, s: seq<Item>, item: Item)
    requires n <= |used| && OrderedByUse(used, n, s)
    requires forall i :: 0 <= i < |s| ==> UsedBefore(used, n, s[i], item)
    ensures OrderedByUse(used, n, s + [item])
  {
    forall i, j | 0 <= i < j < |s| + 1 ensures UsedBefore(used, n, (s + [item])[i], (s + [item])[j]) {
      if j < |s| { assert UsedBefore(used, n, s[i], s[j]); }
    }
  }

  lemma LastNOrdered(used: seq<set<Id>>, n: nat, s: seq<Item>, max: int)
    requires n <= |used| && OrderedByUse(used, n, s)
    ensures OrderedByUse(used, n, LastN(s, max))
  {
    var t := LastN(s, max);
    forall i, j | 0 <= i < j < |t| ensures UsedBefore(used, n, t[i], t[j]) {
      var off := |s| - |t|;
      assert t[i] == s[i + off] && t[j] == s[j + off];
      assert UsedBefore(used, n, s[i + off], s[j + off]);
    }
  }

  lemma GetOrdered(o: Options, used: seq<set<Id>>, n: nat, s: seq<Item>, id: Id, now: int)
    requires 0 < n <= |used| && OrderedByUse(used, n - 1, s) && used[n - 1] == UsedBy(o, s, Get(id, now))
    ensures OrderedByUse(used, n, AfterGet(o, s, id, now))
  {
    var found := Lookup(s, id);
    if found.None? {
      SameUses(used, n, s);
    } else if IsExpired(o, found.value, now) {
      FilterKeepsOrdered(used, n - 1, s, OtherThan(id));
      SameUses(used, n, Without(s, id));
    } else {
      ToEndOrdered(used, n, s, id, found.value);
    }
  }

  lemma StepOrdered(o: Options, used: seq<set<Id>>, n: nat, s: seq<Item>, op: Op)
    requires 0 < n <= |used| && OrderedByUse(used, n - 1, s) && used[n - 1] == UsedBy(o, s, op)
    ensures OrderedByUse(used, n, Step(o, s, op))
  {
    match op
    case Prune(now) =>
      FilterKeepsOrdered(used, n - 1, s, FreshAt(o, now));
      SameUses(used, n, Pruned(o, s, now));
    case Set(id, entry, now) =>
      FilterKeepsOrdered(used, n - 1, s, FreshAt(o, now));
      ToEndOrdered(used, n, Pruned(o, s, now), id, entry);
      LastNOrdered(used, n, ToEnd(Pruned(o, s, now), id, entry), o.maxEntries);
    case Get(id, now) =>
      GetOrdered(o, used, n, s, id, now);
  }

  /** The map is a recency list, so what `set` drops from its front was used least recently. */
  lemma RunIsOrderedByUse(o: Options, h: seq<Op>, n: nat)
    requires n <= |h|
    ensures OrderedByUse(Uses(o, h), n, Run(o, h, n))
  {
    UsesOf(o, h);
    RunIsOrdered(o, h, Uses(o, h), n);
  }

  lemma {:induction false} RunIsOrdered(o: Options, h: seq<Op>, used: seq<set<Id>>, n: nat)
    requires n <= |h| && UsesAre(o, h, used)
    ensures OrderedByUse(used, n, Run(o, h, n))
  {
    if n > 0 {
      RunIsOrdered(o, h, used, n - 1);
      assert UseIs(o, h, used, n - 1);
      StepOrdered(o, used, n, Run(o, h, n - 1), h[n - 1]);
    }
  }

  lemma StepIsBounded(o: Options, s: seq<Item>, op: Op)
    requires |s| <= if o.maxEntries < 0 then 0 else o.maxEntries
    ensures |Step(o, s, op)| <= if o.maxEntries < 0 then 0 else o.maxEntries
  {
    match op
    case Prune(now) => FilterShrinks(s, FreshAt(o, now));
    case Set(_, _, _) =>
    case Get(id, _) =>
      LookupFinds(s, id);
      FilterShrinks(s, OtherThan(id));
  }

  /** Never more than `maxEntries` pages are held, not only after `set`. */
  lemma {:induction false} RunIsBounded(o: Options, h: seq<Op>, n: nat)
    requires n <= |h|
    ensures |Run(o, h, n)| <= if o.maxEntries < 0 then 0 else o.maxEntries
  {
    if n > 0 {
      RunIsBounded(o, h, n - 1);
      StepIsBounded(o, Run(o, h, n - 1), h[n - 1]);
    }
  }

  lemma {:induction false} UsedSinceIff(used: seq<set<Id>>, n: nat, from: nat, id: Id)
    requires n <= |used|
    ensures id in UsedSince(used, n, from) <==> LastUse(used, n, id) >= from
  {
    if from < n { UsedSinceIff(used, n - 1, from, id); }
  }

  lemma {:induction false} DistinctFit(s: seq<Item>, from: nat, ids: set<Id>)
    requires from <= |s| && DistinctIds(s) && forall i :: from <= i < |s| ==> s[i].id in ids
    ensures |s| - from <= |ids|
  {
    if from < |s| { DistinctFit(s[..|s| - 1], from, ids - {s[|s| - 1].id}); }
  }

  lemma SubsetIsSmaller(a: set<Id>, b: set<Id>)
    requires a <= b
    ensures |a| <= |b|
  {
    assert b == a + (b - a);
  }

  ghost predicate LaterIn(s: seq<Item>, k: nat, ids: set<Id>) { forall i :: k < i < |s| ==> s[i].id in ids }

  lemma LaterAreUsed(used: seq<set<Id>>, n: nat, s: seq<Item>, k: nat, from: int)
    requires n <= |used| && OrderedByUse(used, n, s) && k < |s| && from == LastUse(used, n, s[k].id) + 1
    ensures LaterIn(s, k, UsedSince(used, n, from))
  {
    forall i | k < i < |s| ensures s[i].id in UsedSince(used, n, from) {
      assert UsedBefore(used, n, s[k], s[i]);
      UsedSinceIff(used, n, from, s[i].id);
    }
  }

  lemma LastNHas(s: seq<Item>, n: nat, k: nat)
    requires |s| - n <= k < |s|
    ensures s[k] in LastN(s, n)
  {
    if |s| > n { assert LastN(s, n)[k - (|s| - n)] == s[k]; }
  }

  lemma LateIsKept(s: seq<Item>, n: nat, k: nat, ids: set<Id>)
    requires DistinctIds(s) && k < |s| && LaterIn(s, k, ids) && |ids| < n
    ensures s[k] in LastN(s, n)
  {
    DistinctFit(s, k + 1, ids);
    LastNHas(s, n, k);
  }

  lemma OrderedIsDistinct(used: seq<set<Id>>, n: nat, s: seq<Item>)
    requires n <= |used| && OrderedByUse(used, n, s)
    ensures DistinctIds(s)
  {
    forall i, j | 0 <= i < j < |s| ensures s[i].id != s[j].id {
      assert UsedBefore(used, n, s[i], s[j]);
    }
  }

  /** `set` drops no item that fewer than `maxEntries` other ids were used after. */
  lemma TruncationKeeps(used: seq<set<Id>>, n: nat, s: seq<Item>, k: nat, item: Item, from: int, max: nat)
    requires n <= |used| && OrderedByUse(used, n, s) && k < |s| && s[k] == item
    requires from == LastUse(used, n, item.id) + 1 && |UsedSince(used, n, from)| < max
    ensures item in LastN(s, max)
  {
    assert DistinctIds(s) by { OrderedIsDistinct(used, n, s); }
    LaterAreUsed(used, n, s, k, from);
    LateIsKept(s, max, k, UsedSince(used, n, from));
  }

  /** An operation puts the id it uses last. */
  lemma UsedIsLast(o: Options, s: seq<Item>, op: Op, id: Id)
    requires o.maxEntries > 0 && id in UsedBy(o, s, op)
    ensures op.Get? ==> Lookup(s, id).Some?
    ensures !op.Prune? && Item(id, if op.Set? then op.entry else Lookup(s, id).value) in Step(o, s, op)
  {
    var t := Step(o, s, op);
    assert t[|t| - 1] == Item(id, if op.Set? then op.entry else Lookup(s, id).value);
  }

  lemma HeldWasStored(o: Options, h: seq<Op>, n: nat, id: Id)
    requires n <= |h| && Lookup(Run(o, h, n), id).Some?
    ensures LastStored(h, n, id) == Lookup(Run(o, h, n), id)
  {
    RunHoldsLastStored(o, h, n);
    LookupFinds(Run(o, h, n), id);
  }

  /** The item is there when the last operation used its id. */
  lemma UsedIsHeld(o: Options, h: seq<Op>, n: nat, id: Id)
    requires 0 < n <= |h| && o.maxEntries > 0 && id in UsedBy(o, Run(o, h, n - 1), h[n - 1])
    ensures LastStored(h, n, id).Some? && Item(id, LastStored(h, n, id).value) in Run(o, h, n)
  {
    UsedIsLast(o, Run(o, h, n - 1), h[n - 1], id);
    if h[n - 1].Get? { HeldWasStored(o, h, n - 1, id); }
  }

  lemma HeldIsFound(s: seq<Item>, item: Item)
    requires DistinctIds(s) && item in s
    ensures Lookup(s, item.id) == Some(item.entry)
  {
    LookupFinds(s, item.id);
  }

  lemma SetKeeps(
    o: Options, used: seq<set<Id>>, n: nat, s: seq<Item>, id: Id, entry: PreviewEntry, now: int, item: Item)
    requires 0 < n <= |used| && OrderedByUse(used, n - 1, s) && used[n - 1] == {id}
    requires item in s && !IsExpired(o, item.entry, now) && item.id != id
    requires |UsedSince(used, n, LastUse(used, n, item.id) + 1)| < o.maxEntries
    ensures item in AfterSet(o, s, id, entry, now)
  {
    var all := ToEnd(Pruned(o, s, now), id, entry);
    FilterKeepsOrdered(used, n - 1, s, FreshAt(o, now));
    ToEndOrdered(used, n, Pruned(o, s, now), id, entry);
    assert item in all by { assert item in Without(Pruned(o, s, now), id); }
    var k :| 0 <= k < |all| && all[k] == item;
    TruncationKeeps(used, n, all, k, item, LastUse(used, n, item.id) + 1, o.maxEntries);
  }

  /** An operation that uses other ids only drops no fresh item that has been overtaken by few others. */
  lemma OthersKeep(o: Options, used: seq<set<Id>>, n: nat, s: seq<Item>, op: Op, item: Item)
    requires 0 < n <= |used| && OrderedByUse(used, n - 1, s) && used[n - 1] == UsedBy(o, s, op)
    requires item in s && !IsExpired(o, item.entry, op.now) && item.id !in used[n - 1]
    requires |UsedSince(used, n, LastUse(used, n, item.id) + 1)| < o.maxEntries
    ensures item in Step(o, s, op)
  {
    match op
    case Prune(now) =>
    case Set(id, entry, now) =>
      SetKeeps(o, used, n, s, id, entry, now, item);
    case Get(id, now) =>
      OrderedIsDistinct(used, n - 1, s);
      HeldIsFound(s, item);
  }

  /** Nothing but the set of ids used since may change when an operation does not use an id. */
  lemma NotUsedLast(used: seq<set<Id>>, n: nat, id: Id)
    requires 0 < n <= |used| && id !in used[n - 1]
    ensures LastUse(used, n - 1, id) == LastUse(used, n, id)
    ensures var from := LastUse(used, n, id) + 1; |UsedSince(used, n - 1, from)| <= |UsedSince(used, n, from)|
  {
    var from := LastUse(used, n, id) + 1;
    SubsetIsSmaller(UsedSince(used, n - 1, from), UsedSince(used, n, from));
  }

  lemma RunKeeps(o: Options, h: seq<Op>, used: seq<set<Id>>, n: nat, item: Item)
    requires 0 < n <= |h| && UsesAre(o, h, used) && item in Run(o, h, n - 1) && item.id !in used[n - 1]
    requires !IsExpired(o, item.entry, h[n - 1].now)
    requires |UsedSince(used, n, LastUse(used, n, item.id) + 1)| < o.maxEntries
    ensures item in Run(o, h, n)
  {
    assert UseIs(o, h, used, n - 1);
    RunIsOrdered(o, h, used, n - 1);
    OthersKeep(o, used, n, Run(o, h, n - 1), h[n - 1], item);
  }

  lemma NotStoredLast(o: Options, h: seq<Op>, n: nat, id: Id)
    requires 0 < n <= |h| && id !in UsedBy(o, Run(o, h, n - 1), h[n - 1])
    ensures LastStored(h, n - 1, id) == LastStored(h, n, id)
  {
  }

  lemma {:induction false} FreshEntryIsHeld(
    o: Options, h: seq<Op>, used: seq<set<Id>>, n: nat, id: Id, now: int)
    requires n <= |h| && LastStored(h, n, id).Some? && !IsExpired(o, LastStored(h, n, id).value, now)
    requires UsesAre(o, h, used) && forall k :: 0 <= k < n ==> h[k].now <= now
    requires |UsedSince(used, n, LastUse(used, n, id) + 1)| < o.maxEntries
    ensures Item(id, LastStored(h, n, id).value) in Run(o, h, n)
  {
    assert UseIs(o, h, used, n - 1);
    if id in used[n - 1] {
      UsedIsHeld(o, h, n, id);
    } else {
      NotUsedLast(used, n, id);
      NotStoredLast(o, h, n, id);
      FreshEntryIsHeld(o, h, used, n - 1, id, now);
      RunKeeps(o, h, used, n, Item(id, LastStored(h, n, id).value));
    }
  }

  lemma HeldIsServed(o: Options, h: seq<Op>, n: nat, item: Item, now: int)
    requires n <= |h| && item in Run(o, h, n) && !IsExpired(o, item.entry, now)
    ensures Served(o, Run(o, h, n), item.id, now) == Some(item.entry)
  {
    RunIsOrderedByUse(o, h, n);
    OrderedIsDistinct(Uses(o, h), n, Run(o, h, n));
    HeldIsFound(Run(o, h, n), item);
  }

  /**
    After the first `n` operations of any history, with a clock that does not run backwards, `get` returns what was
    stored last under the id as long as its TTL has not passed and fewer than `maxEntries` other ids were stored or read
    since its last use.
  */
  lemma FreshEntryIsServed(o: Options, h: seq<Op>, n: nat, id: Id, now: int)
    requires n <= |h| && LastStored(h, n, id).Some? && now <= LastStored(h, n, id).value.storedAt + o.ttlMs
    requires forall k :: 0 <= k < n ==> h[k].now <= now
    requires |UsedSince(Uses(o, h), n, LastUse(Uses(o, h), n, id) + 1)| < o.maxEntries
    ensures Served(o, Run(o, h, n), id, now) == LastStored(h, n, id)
  {
    UsesOf(o, h);
    FreshEntryIsHeld(o, h, Uses(o, h), n, id, now);
    HeldIsServed(o, h, n, Item(id, LastStored(h, n, id).value), now);
  }

  /** And it never returns anything else. */
  lemma ServedIsLastStored(o: Options, h: seq<Op>, n: nat, id: Id, now: int)
    requires n <= |h| && Served(o, Run(o, h, n), id, now).Some?
    ensures Served(o, Run(o, h, n), id, now) == LastStored(h, n, id)
    ensures now <= LastStored(h, n, id).value.storedAt + o.ttlMs
  {
    HeldWasStored(o, h, n, id);
  }
}
