/**
  The scope cache itself: a size-bounded least-recently-used map of snapshots,
  looked up one call at a time. Every lookup happens at one state of the tree,
  and a build may fail; a failed lookup gives no snapshot.
 */
module ScopeCache {
  import opened Wrappers
  import opened FileTree
  import PathOrder
  import opened IgnoreFingerprint
  import opened ScopeWalk
  import opened ScopeHistory
  import opened ScopeStaleness

  datatype Limits = Limits(maxEntries: nat, maxFilesTotal: nat, fullValidateInterval: nat)

  datatype CacheEntry = CacheEntry(snapshot: Snapshot, dirty: bool, pending: bool, queries: nat)

  type Entries = map<ScopeKey, CacheEntry>

  // --- Order and size -------------------------------------------------------

  predicate Distinct(ks: seq<ScopeKey>) {
    ks == [] || (ks[0] !in ks[1..] && Distinct(ks[1..]))
  }

  /** The keys of the map, each once, least recently used first. */
  ghost predicate Ordered(entries: Entries, order: seq<ScopeKey>) {
    Distinct(order) && forall k :: k in order <==> k in entries
  }

  function Without(ks: seq<ScopeKey>, k: ScopeKey): (r: seq<ScopeKey>)
    ensures forall x :: x in r <==> x in ks && x != k
  {
    if ks == [] then []
    else if ks[0] == k then Without(ks[1..], k)
    else [ks[0]] + Without(ks[1..], k)
  }

  function Touched(ks: seq<ScopeKey>, k: ScopeKey): seq<ScopeKey> { Without(ks, k) + [k] }

  function Weight(entries: Entries, k: ScopeKey): nat {
    if k in entries then |entries[k].snapshot.entries| else 0
  }

  function Total(entries: Entries, ks: seq<ScopeKey>): nat {
    if ks == [] then 0 else Weight(entries, ks[0]) + Total(entries, ks[1..])
  }

  predicate Fits(entries: Entries, ks: seq<ScopeKey>, limits: Limits) {
    |ks| <= limits.maxEntries && Total(entries, ks) <= limits.maxFilesTotal
  }

  /** Drops least recently used keys until the rest fits. */
  function Kept(entries: Entries, ks: seq<ScopeKey>, limits: Limits): seq<ScopeKey> {
    if ks == [] || Fits(entries, ks, limits) then ks else Kept(entries, ks[1..], limits)
  }

  function Restrict(entries: Entries, ks: seq<ScopeKey>): Entries {
    map k | k in entries && k in ks :: entries[k]
  }

  lemma {:induction false} WithoutDistinct(ks: seq<ScopeKey>, k: ScopeKey)
    requires Distinct(ks)
    ensures Distinct(Without(ks, k))
  {
    if ks != [] {
      WithoutDistinct(ks[1..], k);
      var rest := Without(ks[1..], k);
      if ks[0] != k { assert ([ks[0]] + rest)[1..] == rest; }
    }
  }

  lemma {:induction false} AppendDistinct(ks: seq<ScopeKey>, k: ScopeKey)
    requires Distinct(ks) && k !in ks
    ensures Distinct(ks + [k])
  {
    if ks != [] {
      assert (ks + [k])[1..] == ks[1..] + [k];
      AppendDistinct(ks[1..], k);
    }
  }

  lemma TouchedOrdered(entries: Entries, order: seq<ScopeKey>, k: ScopeKey, e: CacheEntry)
    requires Ordered(entries, order)
    ensures Ordered(entries[k := e], Touched(order, k))
  {
    WithoutDistinct(order, k);
    AppendDistinct(Without(order, k), k);
  }

  lemma {:induction false} TotalAppend(entries: Entries, a: seq<ScopeKey>, k: ScopeKey)
    ensures Total(entries, a + [k]) == Total(entries, a) + Weight(entries, k)
  {
    if a == [] {
      assert a + [k] == [k];
    } else {
      assert (a + [k])[1..] == a[1..] + [k] && (a + [k])[0] == a[0];
      TotalAppend(entries, a[1..], k);
    }
  }

  lemma {:induction false} TotalWithout(entries: Entries, ks: seq<ScopeKey>, k: ScopeKey)
    requires Distinct(ks)
    ensures Total(entries, ks) == Total(entries, Without(ks, k)) + if k in ks then Weight(entries, k) else 0
    ensures |ks| == |Without(ks, k)| + if k in ks then 1 else 0
  {
    if ks != [] {
      TotalWithout(entries, ks[1..], k);
      var rest := Without(ks[1..], k);
      if ks[0] != k { assert ([ks[0]] + rest)[1..] == rest; }
    }
  }

  lemma HasMember(ks: seq<ScopeKey>)
    requires ks != []
    ensures exists k :: k in ks
  {
    assert ks[0] in ks;
  }

  /** The order in which keys are counted does not matter. */
  lemma {:induction false} TotalAnyOrder(entries: Entries, a: seq<ScopeKey>, b: seq<ScopeKey>)
    requires Distinct(a) && Distinct(b) && forall k :: k in a <==> k in b
    ensures Total(entries, a) == Total(entries, b) && |a| == |b|
  {
    if a == [] {
      if b != [] { HasMember(b); }
    } else {
      assert a[0] in a;
      TotalWithout(entries, b, a[0]);
      WithoutDistinct(b, a[0]);
      assert forall k :: k in a <==> k == a[0] || k in a[1..];
      TotalAnyOrder(entries, a[1..], Without(b, a[0]));
    }
  }

  lemma {:induction false} TotalFrame(a: Entries, b: Entries, ks: seq<ScopeKey>)
    requires forall k :: k in ks ==> Weight(a, k) == Weight(b, k)
    ensures Total(a, ks) == Total(b, ks)
  {
    if ks != [] {
      assert ks[0] in ks;
      assert forall k :: k in ks[1..] ==> k in ks;
      TotalFrame(a, b, ks[1..]);
    }
  }

  /** What is kept is the longest most-recently-used suffix within both limits. */
  lemma {:induction false} KeptIsLongestSuffix(entries: Entries, ks: seq<ScopeKey>, limits: Limits)
    ensures exists i ::
      && 0 <= i <= |ks| && Kept(entries, ks, limits) == ks[i..]
      && Fits(entries, ks[i..], limits)
      && forall j :: 0 <= j < i ==> !Fits(entries, ks[j..], limits)
  {
    if ks == [] || Fits(entries, ks, limits) {
      assert ks[0..] == ks;
    } else {
      KeptIsLongestSuffix(entries, ks[1..], limits);
      var i :| 0 <= i <= |ks[1..]| && Kept(entries, ks[1..], limits) == ks[1..][i..]
        && Fits(entries, ks[1..][i..], limits) && forall j :: 0 <= j < i ==> !Fits(entries, ks[1..][j..], limits);
      assert ks[1..][i..] == ks[i + 1..];
      forall j | 0 <= j < i + 1
        ensures !Fits(entries, ks[j..], limits)
      {
        if j > 0 { assert ks[1..][j - 1..] == ks[j..]; } else { assert ks[0..] == ks; }
      }
      assert Kept(entries, ks, limits) == ks[i + 1..];
    }
  }

  lemma {:induction false} KeptOrdered(entries: Entries, ks: seq<ScopeKey>, limits: Limits)
    requires Distinct(ks)
    ensures Distinct(Kept(entries, ks, limits)) && Fits(entries, Kept(entries, ks, limits), limits)
    ensures forall k :: k in Kept(entries, ks, limits) ==> k in ks
  {
    if !(ks == [] || Fits(entries, ks, limits)) { KeptOrdered(entries, ks[1..], limits); }
  }

  // --- Age ------------------------------------------------------------------

  /** The same snapshot, apart from its number and the clock at which it was begun. */
  predicate Matches(a: Snapshot, b: Snapshot)
    ensures Matches(a, b) <==> a == b.(generation := a.generation, floor := a.floor)
  {
    a.root == b.root && a.entries == b.entries && a.directories == b.directories && a.fingerprint == b.fingerprint
  }

  /** A lookup of a key, the tree it ran against, and what a full walk of that tree gives. */
  datatype Lookup = Lookup(key: ScopeKey, now: Tree, walk: Snapshot)

  /** A full walk gave `s` no more than `age` lookups of the key ago. */
  ghost predicate WalkedWithin(log: seq<Lookup>, key: ScopeKey, s: Snapshot, age: nat)
    decreases |log|
  {
    && log != []
    && var last, before := log[|log| - 1], log[..|log| - 1];
       if last.key == key then
         Matches(s, last.walk) || (age > 0 && WalkedWithin(before, key, s, age - 1))
       else WalkedWithin(before, key, s, age)
  }

  /** Apart from its number, `s` is the full walk of some lookup of the key. */
  ghost predicate Born(log: seq<Lookup>, key: ScopeKey, s: Snapshot)
    decreases |log|
  {
    && log != []
    && var last, before := log[|log| - 1], log[..|log| - 1];
       (last.key == key && s == last.walk.(generation := s.generation)) || Born(before, key, s)
  }

  /** A full walk gave the entry, not longer ago than its counter says unless a walk is due. */
  ghost predicate Accounted(log: seq<Lookup>, key: ScopeKey, e: CacheEntry) {
    && Born(log, key, e.snapshot)
    && (e.pending || WalkedWithin(log, key, e.snapshot, e.queries))
  }

  ghost predicate AllAccounted(log: seq<Lookup>, entries: Entries) {
    forall k :: k in entries ==> Accounted(log, k, entries[k])
  }

  lemma LogAppend(log: seq<Lookup>, x: Lookup, key: ScopeKey, s: Snapshot)
    ensures Born(log, key, s) ==> Born(log + [x], key, s)
    ensures forall age: nat :: WalkedWithin(log, key, s, age) ==>
      WalkedWithin(log + [x], key, s, if x.key == key then age + 1 else age)
  {
    assert (log + [x])[..|log|] == log;
  }

  lemma {:induction false} AgeGrows(log: seq<Lookup>, key: ScopeKey, s: Snapshot, age: nat, more: nat)
    requires WalkedWithin(log, key, s, age) && age <= more
    ensures WalkedWithin(log, key, s, more)
    decreases |log|
  {
    var last, before := log[|log| - 1], log[..|log| - 1];
    if last.key != key {
      AgeGrows(before, key, s, age, more);
    } else if !Matches(s, last.walk) {
      AgeGrows(before, key, s, age - 1, more - 1);
    }
  }

  lemma {:induction false} BornAt(log: seq<Lookup>, key: ScopeKey, s: Snapshot) returns (i: nat)
    requires Born(log, key, s)
    ensures i < |log| && log[i].key == key && s == log[i].walk.(generation := s.generation)
    decreases |log|
  {
    i := |log| - 1;
    if !(log[i].key == key && s == log[i].walk.(generation := s.generation)) {
      i := BornAt(log[..i], key, s);
    }
  }

  predicate Due(limits: Limits, e: CacheEntry) {
    limits.fullValidateInterval == 0 || e.queries + 1 >= limits.fullValidateInterval
  }

  /** The entry after a lookup has been counted; every `fullValidateInterval`-th one makes a full walk due. */
  function Counted(limits: Limits, e: CacheEntry): CacheEntry {
    if Due(limits, e) then e.(queries := 0, pending := true) else e.(queries := e.queries + 1)
  }

  lemma CountedAccounted(log: seq<Lookup>, x: Lookup, entries: Entries, limits: Limits)
    requires AllAccounted(log, entries)
    ensures AllAccounted(log + [x],
                         if x.key in entries then entries[x.key := Counted(limits, entries[x.key])] else entries)
  {
    forall k | k in entries
      ensures Accounted(log + [x], k, if k == x.key then Counted(limits, entries[k]) else entries[k])
    {
      assert Accounted(log, k, entries[k]);
      LogAppend(log, x, k, entries[k].snapshot);
    }
  }

  function Interval(limits: Limits): nat { if limits.fullValidateInterval == 0 then 1 else limits.fullValidateInterval }

  datatype BuildError = BuildFailed

  /** The entries and their order after `s` was stored as the most recent of all and the limits were met. */
  ghost predicate StoredIn(before: Entries, order: seq<ScopeKey>, key: ScopeKey, s: Snapshot, limits: Limits,
                           entries: Entries, accessOrder: seq<ScopeKey>)
  {
    var all := before[key := CacheEntry(s, false, false, 0)];
    accessOrder == Kept(all, Touched(order, key), limits) && entries == Restrict(all, accessOrder)
  }

  /** What is left of the other keys is as it was, and the key, if it is there, is clean and holds `s`. */
  ghost predicate Refreshed(before: Entries, entries: Entries, key: ScopeKey, s: Snapshot) {
    && (key in entries ==> entries[key].snapshot == s && !entries[key].dirty && !entries[key].pending)
    && forall k :: k in entries && k != key ==> k in before && entries[k] == before[k]
  }

  lemma StoredIsRefreshed(before: Entries, order: seq<ScopeKey>, key: ScopeKey, s: Snapshot, limits: Limits,
                          entries: Entries, accessOrder: seq<ScopeKey>)
    requires StoredIn(before, order, key, s, limits, entries, accessOrder)
    ensures Refreshed(before, entries, key, s)
  {
    hide Kept, Touched;
  }

  lemma ClearedIsRefreshed(before: Entries, key: ScopeKey, e: CacheEntry)
    requires !e.dirty && !e.pending
    ensures Refreshed(before, before[key := e], key, e.snapshot)
  {
  }

  lemma MarkedThenRefreshed(before: Entries, marked: Entries, entries: Entries, key: ScopeKey, s: Snapshot)
    requires Refreshed(marked, entries, key, s)
    requires forall k :: k in marked && k != key ==> k in before && marked[k] == before[k]
    ensures Refreshed(before, entries, key, s)
  {
  }

  /** A snapshot small enough for the limits stays in the cache it was stored in. */
  lemma StoredStays(before: Entries, order: seq<ScopeKey>, key: ScopeKey, s: Snapshot, limits: Limits,
                    entries: Entries, accessOrder: seq<ScopeKey>)
    requires StoredIn(before, order, key, s, limits, entries, accessOrder)
    ensures key in entries <==> limits.maxEntries >= 1 && |s.entries| <= limits.maxFilesTotal
  {
    var all := before[key := CacheEntry(s, false, false, 0)];
    var front := Without(order, key);
    hide Without;
    LastIsKept(all, front, key, limits);
    assert [key][1..] == [] && Total(all, [key]) == |s.entries|;
    assert Touched(order, key) == front + [key];
    hide Kept, Touched, Total;
  }

  /** The last key outlives all others: it goes only when it does not fit by itself. */
  lemma {:induction false} LastIsKept(entries: Entries, front: seq<ScopeKey>, key: ScopeKey, limits: Limits)
    requires key in entries && key !in front
    ensures key in Kept(entries, front + [key], limits) <==> Fits(entries, [key], limits)
  {
    var ks := front + [key];
    if front == [] {
      assert ks == [key] && ks[1..] == [];
    } else if Fits(entries, ks, limits) {
      TotalAppend(entries, front, key);
      assert key in ks && Total(entries, [key]) == Weight(entries, key) by { assert [key][1..] == []; }
    } else {
      assert ks[1..] == front[1..] + [key];
      LastIsKept(entries, front[1..], key, limits);
    }
  }

  lemma BuiltUpToGeneration(t: Tree, pf: Platform, key: ScopeKey, rules: Rules, generation: nat)
    ensures Built(t, pf, key, rules, generation) == Built(t, pf, key, rules, 0).(generation := generation)
  {
  }

  class RepoScopeCache {
    const pf: Platform
    const rules: Rules
    const limits: Limits
    var nextGeneration: nat
    var entries: Entries
    var accessOrder: seq<ScopeKey>
    /** Every lookup so far, with what a full walk would have given it. */
    ghost var log: seq<Lookup>

    /** The snapshot a full walk of the tree gives. */
    ghost function FullWalk(key: ScopeKey, t: Tree): Snapshot { Built(t, pf, key, rules, 0) }

    /** The cheap checks of a lookup; probes under trusted directories are skipped. */
    ghost predicate Passes(key: ScopeKey, s: Snapshot, t: Tree) {
      Hit(t, pf, key, s, VerifiedDirs(UmbrellaEligible(s)))
    }

    /** As `Serves`, for the entry as it stood before the lookup was counted. */
    ghost predicate Served(entries: Entries, key: ScopeKey, now: Tree) {
      && key in entries && !entries[key].dirty && !entries[key].pending && !Due(limits, entries[key])
      && Passes(key, entries[key].snapshot, now)
    }

    /** The entry of the key is still that of the snapshot. */
    predicate Same(entries: Entries, key: ScopeKey, snapshot: Snapshot) {
      key in entries && entries[key].snapshot.generation == snapshot.generation
    }

    /** The entry of the key is served as it is: clean, no full walk due, and the cheap checks pass. */
    ghost predicate Serves(entries: Entries, key: ScopeKey, now: Tree) {
      key in entries && !entries[key].dirty && !entries[key].pending && Passes(key, entries[key].snapshot, now)
    }

    ghost predicate Valid()
      reads `entries, `accessOrder, `log
    {
      && Ordered(entries, accessOrder)
      && Fits(entries, accessOrder, limits)
      && AllAccounted(log, entries)
      && forall x :: x in log ==> x.walk == FullWalk(x.key, x.now)
    }

    constructor (pf: Platform, rules: Rules, limits: Limits)
      ensures Valid() && entries == map[] && log == []
      ensures this.pf == pf && this.rules == rules && this.limits == limits
    {
      this.pf, this.rules, this.limits := pf, rules, limits;
      nextGeneration, entries, accessOrder, log := 1, map[], [], [];
    }

    method Invalidate(key: ScopeKey)
      requires Valid()
      modifies this`entries, this`accessOrder
      ensures Valid() && entries == old(entries) - {key} && accessOrder == Without(old(accessOrder), key)
    {
      hide FullWalk, Passes;
      WithoutDistinct(accessOrder, key);
      TotalWithout(entries, accessOrder, key);
      TotalFrame(entries, entries - {key}, Without(accessOrder, key));
      entries := entries - {key};
      accessOrder := Without(accessOrder, key);
    }

    method TotalCachedScopeEntries() returns (total: nat)
      requires Ordered(entries, accessOrder)
      ensures total == Total(entries, accessOrder)
    {
      hide FullWalk, Passes;
      total := 0;
      var rest := entries;
      ghost var seen: seq<ScopeKey> := [];
      while rest != map[]
        invariant Distinct(seen) && forall k :: k in entries <==> k in seen || k in rest
        invariant forall k :: k in rest ==> rest[k] == entries[k] && k !in seen
        invariant total == Total(entries, seen)
        decreases |rest|
      {
        var k :| k in rest;
        AppendDistinct(seen, k);
        TotalAppend(entries, seen, k);
        total := total + |rest[k].snapshot.entries|;
        seen := seen + [k];
        rest := rest - {k};
      }
      TotalAnyOrder(entries, accessOrder, seen);
    }

    /** Evicts from the least recently used end until both limits are met. */
    method EvictToCapacity()
      requires Ordered(entries, accessOrder)
      modifies this`entries, this`accessOrder
      ensures Ordered(entries, accessOrder)
      ensures accessOrder == Kept(old(entries), old(accessOrder), limits)
      ensures entries == Restrict(old(entries), accessOrder)
    {
      hide FullWalk, Passes;
      var total := TotalCachedScopeEntries();
      ghost var whole := entries;
      assert entries == Restrict(whole, accessOrder);
      CountKeys(entries, accessOrder);
      while |entries| > limits.maxEntries || total > limits.maxFilesTotal
        invariant Ordered(entries, accessOrder) && |entries| == |accessOrder|
        invariant forall k :: k in accessOrder ==> k in whole
        invariant entries == Restrict(whole, accessOrder)
        invariant total == Total(whole, accessOrder)
        invariant Kept(whole, old(accessOrder), limits) == Kept(whole, accessOrder, limits)
        decreases |accessOrder|
      {
        if accessOrder == [] { break; }
        var oldest := accessOrder[0];
        assert oldest in accessOrder && oldest in entries && entries[oldest] == whole[oldest];
        var size := |entries[oldest].snapshot.entries|;
        accessOrder := accessOrder[1..];
        total := if total >= size then total - size else 0;
        entries := entries - {oldest};
        assert forall k :: k in old(accessOrder) ==> k in whole;
        CountKeys(entries, accessOrder);
      }
    }

    method StoreSnapshot(key: ScopeKey, snapshot: Snapshot)
      requires Valid() && log != [] && log[|log| - 1].key == key
      requires snapshot == log[|log| - 1].walk.(generation := snapshot.generation)
      modifies this`entries, this`accessOrder
      ensures Valid()
      ensures StoredIn(old(entries), old(accessOrder), key, snapshot, limits, entries, accessOrder)
    {
      hide FullWalk, Passes;
      ghost var e := CacheEntry(snapshot, false, false, 0);
      TouchedOrdered(entries, accessOrder, key, e);
      entries := entries[key := CacheEntry(snapshot, false, false, 0)];
      accessOrder := Touched(accessOrder, key);
      ghost var all, order := entries, accessOrder;
      assert AllAccounted(log, all) && Born(log, key, snapshot);
      EvictToCapacity();
      KeptOrdered(all, order, limits);
      TotalFrame(all, entries, accessOrder);
    }

    /** A full walk under the next generation number. */
    method Rebuild(key: ScopeKey, now: Tree) returns (s: Snapshot)
      modifies this`nextGeneration
      ensures nextGeneration == old(nextGeneration) + 1
      ensures s == FullWalk(key, now).(generation := old(nextGeneration))
    {
      var generation := nextGeneration;
      nextGeneration := nextGeneration + 1;
      s := BuildSnapshot(now, pf, key, rules, generation);
      BuiltUpToGeneration(now, pf, key, rules, generation);
    }

    method RebuildAndStore(key: ScopeKey, now: Tree, fails: bool) returns (r: Result<Snapshot, BuildError>)
      requires Valid() && log != [] && log[|log| - 1] == Lookup(key, now, FullWalk(key, now))
      modifies this`entries, this`accessOrder, this`nextGeneration
      ensures Valid()
      ensures nextGeneration == old(nextGeneration) + 1
      ensures r == if fails then Err(BuildFailed) else Ok(FullWalk(key, now).(generation := old(nextGeneration)))
      ensures r.Ok? ==>
        WalkedWithin(log, key, r.value, 0) && Matches(r.value, FullWalk(key, now)) && Born(log, key, r.value)
      ensures r.Ok? ==> StoredIn(old(entries), old(accessOrder), key, r.value, limits, entries, accessOrder)
      ensures r.Ok? ==> Refreshed(old(entries), entries, key, r.value)
      ensures r.Err? ==> entries == old(entries) && accessOrder == old(accessOrder)
    {
      hide FullWalk, Passes;
      if fails {
        nextGeneration := nextGeneration + 1;
        return Err(BuildFailed);
      }
      var built := Rebuild(key, now);
      StoreSnapshot(key, built);
      StoredIsRefreshed(old(entries), old(accessOrder), key, built, limits, entries, accessOrder);
      r := Ok(built);
    }

    method CachedSnapshot(key: ScopeKey) returns (r: Option<Snapshot>)
      requires Ordered(entries, accessOrder) && Fits(entries, accessOrder, limits)
      modifies this`entries, this`accessOrder
      ensures Ordered(entries, accessOrder) && Fits(entries, accessOrder, limits)
      ensures key !in old(entries) ==> r == None && entries == old(entries) && accessOrder == old(accessOrder)
      ensures key in old(entries) ==>
        && r == Some(old(entries)[key].snapshot)
        && entries == old(entries)[key := Counted(limits, old(entries)[key])]
        && accessOrder == Touched(old(accessOrder), key)
    {
      hide FullWalk, Passes;
      if key !in entries { return None; }
      var e := entries[key];
      e := e.(queries := e.queries + 1);
      if limits.fullValidateInterval == 0 || e.queries >= limits.fullValidateInterval {
        e := e.(queries := 0, pending := true);
      }
      TouchedFits(entries, accessOrder, limits, key, e);
      entries := entries[key := e];
      accessOrder := Touched(accessOrder, key);
      r := Some(e.snapshot);
    }

    method MarkDirty(key: ScopeKey, snapshot: Snapshot)
      requires Valid()
      modifies this`entries
      ensures Valid()
      ensures entries == if key in old(entries) && old(entries)[key].snapshot.generation == snapshot.generation
                         then old(entries)[key := old(entries)[key].(dirty := true)] else old(entries)
    {
      hide FullWalk, Passes;
      if key in entries && entries[key].snapshot.generation == snapshot.generation {
        assert Accounted(log, key, entries[key]);
        entries := entries[key := entries[key].(dirty := true)];
        TotalFrame(old(entries), entries, accessOrder);
      }
    }

    method ClearValidationFlags(key: ScopeKey, snapshot: Snapshot)
      requires Valid()
      requires key in entries ==> WalkedWithin(log, key, entries[key].snapshot, 0)
      modifies this`entries
      ensures Valid()
      ensures entries == if key in old(entries) && old(entries)[key].snapshot.generation == snapshot.generation
                         then old(entries)[key := old(entries)[key].(dirty := false, pending := false)]
                         else old(entries)
    {
      hide FullWalk, Passes;
      if key in entries && entries[key].snapshot.generation == snapshot.generation {
        AgeGrows(log, key, entries[key].snapshot, 0, entries[key].queries);
        entries := entries[key := entries[key].(dirty := false, pending := false)];
        TotalFrame(old(entries), entries, accessOrder);
      }
    }

    /** The two cheap checks of a lookup; probes under trusted directories are skipped. */
    method StillValid(key: ScopeKey, snapshot: Snapshot, now: Tree) returns (ok: bool)
      ensures ok <==> Passes(key, snapshot, now)
    {
      ok := DirectoryFingerprintsMatch(now, pf.marked, snapshot.directories);
      if !ok { return; }
      var directories := PathOrder.InOrder(snapshot.directories.Keys);
      var reason := IgnoreChangeReason(now, pf, snapshot.root, directories, key.noIgnore, snapshot.fingerprint,
                                       VerifiedDirs(UmbrellaEligible(snapshot)));
      assert Elements(directories) == snapshot.directories.Keys;
      ok := reason.None?;
    }

    lemma EntryIsBorn(key: ScopeKey)
      requires Valid() && key in entries
      ensures Born(log, key, entries[key].snapshot)
    {
      assert Accounted(log, key, entries[key]);
    }

    /** A full walk is due: the snapshot is confirmed by it or replaced with it. */
    method FullValidate(key: ScopeKey, snapshot: Snapshot, now: Tree, fails: bool)
      returns (r: Result<Snapshot, BuildError>)
      requires Valid() && log != [] && log[|log| - 1] == Lookup(key, now, FullWalk(key, now))
      requires key in entries && entries[key].snapshot == snapshot
      modifies this`entries, this`accessOrder, this`nextGeneration
      ensures Valid()
      ensures nextGeneration == old(nextGeneration) + 1
      ensures r.Err? <==> fails
      ensures r.Ok? ==> Matches(r.value, FullWalk(key, now)) && Born(log, key, r.value)
      ensures r.Ok? && Matches(snapshot, FullWalk(key, now)) ==>
        && r.value == snapshot && accessOrder == old(accessOrder)
        && entries == old(entries)[key := old(entries)[key].(dirty := false, pending := false)]
      ensures r.Ok? && !Matches(snapshot, FullWalk(key, now)) ==>
        && r.value == FullWalk(key, now).(generation := old(nextGeneration))
        && StoredIn(old(entries), old(accessOrder), key, r.value, limits, entries, accessOrder)
      ensures r.Ok? ==> Refreshed(old(entries), entries, key, r.value)
      ensures r.Err? ==> entries == old(entries) && accessOrder == old(accessOrder)
    {
      hide FullWalk, Passes, Valid, Matches, Born, WalkedWithin, StoredIn, Refreshed, Ordered, Fits, AllAccounted,
        Accounted, Kept, Touched, Restrict;
      EntryIsBorn(key);
      if fails {
        nextGeneration := nextGeneration + 1;
        return Err(BuildFailed);
      }
      var candidate := Rebuild(key, now);
      BornNow(log, key, candidate);
      if Matches(snapshot, candidate) {
        MatchedNow(log, key, snapshot);
        ClearValidationFlags(key, snapshot);
        ClearedIsRefreshed(old(entries), key, entries[key]);
        r := Ok(snapshot);
      } else {
        StoreSnapshot(key, candidate);
        StoredIsRefreshed(old(entries), old(accessOrder), key, candidate, limits, entries, accessOrder);
        r := Ok(candidate);
      }
    }

    /** Whether the entry has to be rebuilt; one that the cheap checks find out is marked. */
    method FindStale(key: ScopeKey, now: Tree) returns (stale: bool)
      requires Valid() && key in entries
      modifies this`entries
      ensures Valid()
      ensures stale <==> old(entries)[key].dirty || !Passes(key, old(entries)[key].snapshot, now)
      ensures entries == old(entries)[key := old(entries)[key].(dirty := stale)]
      ensures !stale ==> entries == old(entries)
    {
      hide FullWalk, Passes, Valid;
      stale := entries[key].dirty;
      if !stale {
        var valid := StillValid(key, entries[key].snapshot, now);
        if !valid {
          MarkDirty(key, entries[key].snapshot);
          stale := true;
        }
      }
    }

    /** An entry that passed the cheap checks is served, unless a full walk is due. */
    method Confirm(key: ScopeKey, now: Tree, fails: bool) returns (r: Result<Snapshot, BuildError>)
      requires Valid() && log != [] && log[|log| - 1] == Lookup(key, now, FullWalk(key, now))
      requires key in entries
      modifies this`entries, this`accessOrder, this`nextGeneration
      ensures Valid()
      ensures r.Ok? ==> Born(log, key, r.value)
      ensures old(entries)[key].pending ==>
        && (r.Err? <==> fails)
        && (r.Ok? ==> Matches(r.value, FullWalk(key, now)) && Refreshed(old(entries), entries, key, r.value))
        && (r.Err? ==> entries == old(entries))
      ensures !old(entries)[key].pending ==>
        r == Ok(old(entries)[key].snapshot) && entries == old(entries) && accessOrder == old(accessOrder)
    {
      hide FullWalk, Passes, Valid, Matches, Born, WalkedWithin, StoredIn, Refreshed, Ordered, Fits, AllAccounted,
        Accounted, Kept, Touched, Restrict;
      EntryIsBorn(key);
      var e := entries[key];
      if e.pending {
        r := FullValidate(key, e.snapshot, now, fails);
      } else {
        r := Ok(e.snapshot);
      }
    }

    /** A cached entry is served, fully validated, or rebuilt. */
    method Revalidate(key: ScopeKey, now: Tree, fails: bool) returns (r: Result<Snapshot, BuildError>)
      requires Valid() && log != [] && log[|log| - 1] == Lookup(key, now, FullWalk(key, now))
      requires key in entries
      modifies this`entries, this`accessOrder, this`nextGeneration
      ensures Valid()
      ensures r.Ok? ==> Born(log, key, r.value)
      ensures !Serves(old(entries), key, now) ==>
        && (r.Err? <==> fails)
        && (r.Ok? ==> Matches(r.value, FullWalk(key, now)) && Refreshed(old(entries), entries, key, r.value))
      ensures Serves(old(entries), key, now) ==>
        r == Ok(old(entries)[key].snapshot) && entries == old(entries) && accessOrder == old(accessOrder)
      ensures r.Err? ==>
        var e := old(entries)[key];
        entries == old(entries)[key := e.(dirty := e.dirty || !Passes(key, e.snapshot, now))]
    {
      hide FullWalk, Passes, Valid, Matches, Born, WalkedWithin, StoredIn, Refreshed, Ordered, Fits, AllAccounted,
        Accounted, Kept, Touched, Restrict;
      var stale := FindStale(key, now);
      if stale {
        ghost var marked := entries;
        r := RebuildAndStore(key, now, fails);
        if r.Ok? { MarkedThenRefreshed(old(entries), marked, entries, key, r.value); }
      } else {
        r := Confirm(key, now, fails);
      }
    }

    /**
      The lookup of a key seen in the cache: its snapshot is served, fully validated, or
      rebuilt. It fails only when a walk is needed and fails, and then the entry stays,
      marked dirty if the cheap checks found it out.
     */
    method RebuildIfStale(key: ScopeKey, snapshot: Snapshot, now: Tree, fails: bool)
      returns (r: Result<Snapshot, BuildError>)
      requires Valid() && log != [] && log[|log| - 1] == Lookup(key, now, FullWalk(key, now))
      modifies this`entries, this`accessOrder, this`nextGeneration
      ensures Valid()
      ensures r.Ok? ==> Born(log, key, r.value)
      ensures key !in old(entries) || (Same(old(entries), key, snapshot) && !Serves(old(entries), key, now)) ==>
        && (r.Err? <==> fails)
        && (r.Ok? ==> Matches(r.value, FullWalk(key, now)) && Refreshed(old(entries), entries, key, r.value))
      ensures key in old(entries) && (!Same(old(entries), key, snapshot) || Serves(old(entries), key, now)) ==>
        r == Ok(old(entries)[key].snapshot) && entries == old(entries) && accessOrder == old(accessOrder)
      ensures r.Err? && key !in old(entries) ==> entries == old(entries)
      ensures r.Err? && key in old(entries) ==>
        var e := old(entries)[key];
        entries == old(entries)[key := e.(dirty := e.dirty || !Passes(key, e.snapshot, now))]
    {
      hide FullWalk, Passes, Valid, Matches, Born, WalkedWithin, StoredIn, Refreshed, Ordered, Fits, AllAccounted,
        Accounted, Kept, Touched, Restrict;
      if key in entries { EntryIsBorn(key); }
      if key !in entries {
        r := RebuildAndStore(key, now, fails);
        return;
      }
      var e := entries[key];
      if e.snapshot.generation != snapshot.generation { return Ok(e.snapshot); }
      r := Revalidate(key, now, fails);
    }

    /**
      A lookup. A snapshot it returns was given by a full walk fewer than the
      validation interval of this key's lookups ago, and it either matches a full
      walk of the present tree or passes the cheap checks against it. A clean entry
      that passes them and is due no walk is served as it is, even while walks fail;
      in every other case the lookup fails exactly when the walk fails, and otherwise
      leaves a clean entry with what it returned, unless that is too large to keep.
     */
    method GetOrBuild(key: ScopeKey, now: Tree, fails: bool) returns (r: Result<Snapshot, BuildError>)
      requires Valid()
      modifies this
      ensures Valid() && log == old(log) + [Lookup(key, now, FullWalk(key, now))]
      ensures r.Ok? ==> WalkedWithin(log, key, r.value, Interval(limits) - 1) && Born(log, key, r.value)
      ensures Served(old(entries), key, now) ==>
        && r == Ok(old(entries)[key].snapshot)
        && entries == old(entries)[key := old(entries)[key].(queries := old(entries)[key].queries + 1)]
      ensures !Served(old(entries), key, now) ==>
        && (r.Err? <==> fails)
        && (r.Ok? ==> Matches(r.value, FullWalk(key, now)) && Refreshed(old(entries), entries, key, r.value))
      ensures r.Err? ==>
        && entries.Keys == old(entries).Keys
        && (key in entries ==> entries[key].snapshot == old(entries)[key].snapshot)
        && forall k :: k in entries && k != key ==> entries[k] == old(entries)[k]
    {
      hide FullWalk, Passes, Refreshed, StoredIn, Matches, Kept, Touched, Ordered, Fits;
      ghost var x := Lookup(key, now, FullWalk(key, now));
      CountedAccounted(log, x, entries, limits);
      log := log + [x];
      var cached := CachedSnapshot(key);
      ghost var counted := entries;
      if cached.Some? {
        r := RebuildIfStale(key, cached.value, now, fails);
        if r.Ok? && !Serves(counted, key, now) { MarkedThenRefreshed(old(entries), counted, entries, key, r.value); }
      } else {
        r := RebuildAndStore(key, now, fails);
      }
      if r.Ok? {
        if Matches(r.value, FullWalk(key, now)) {
          MatchedNow(log, key, r.value);
          AgeGrows(log, key, r.value, 0, Interval(limits) - 1);
        } else {
          assert Accounted(log, key, counted[key]);
          AgeGrows(log, key, r.value, counted[key].queries, Interval(limits) - 1);
        }
      }
    }
  }

  lemma BornNow(log: seq<Lookup>, key: ScopeKey, s: Snapshot)
    requires log != [] && log[|log| - 1].key == key && s == log[|log| - 1].walk.(generation := s.generation)
    ensures Born(log, key, s)
  {
  }

  lemma MatchedNow(log: seq<Lookup>, key: ScopeKey, s: Snapshot)
    requires log != [] && log[|log| - 1].key == key && Matches(s, log[|log| - 1].walk)
    ensures WalkedWithin(log, key, s, 0)
  {
  }

  /**
    End to end: over any history of the tree, when the lookups ran against states
    of it, a snapshot that a lookup at step `n` may return, and that was settled
    when it was built, has exactly the entries of a fresh walk at step `n`.
   */
  lemma ServedEntriesAreFresh(c: RepoScopeCache, h: seq<Tree>, g: nat, n: nat, key: ScopeKey, s: Snapshot)
    requires c.Valid() && History(h, g) && n < |h|
    requires forall x :: x in c.log ==> KindOf(x.now, x.key.root) == Directory && x.now in h[..n + 1]
    requires KindOf(h[n], key.root) == Directory
    requires Born(c.log, key, s)
    requires forall f :: 0 <= f <= n && s == Built(h[f], c.pf, key, c.rules, s.generation) ==>
      Settled(h[f], g, c.pf, key, s)
    requires Matches(s, c.FullWalk(key, h[n])) || c.Passes(key, s, h[n])
    ensures WalkEntries(h[n], c.pf, key, c.rules) == map p | p in s.entries :: s.entries[p].kind
  {
    hide Reached, Walk, ScopeDirs, Assembled, Ordered, Fits, AllAccounted, History, Settled, Hit;
    var i := BornAt(c.log, key, s);
    assert c.log[i] in c.log;
    var f :| 0 <= f < n + 1 && h[..n + 1][f] == c.log[i].now;
    BuiltUpToGeneration(h[f], c.pf, key, c.rules, s.generation);
    assert s == Built(h[f], c.pf, key, c.rules, s.generation);
    if Matches(s, c.FullWalk(key, h[n])) {
      BuiltShape(h[n], c.pf, key, c.rules, 0);
    } else {
      BuiltShape(h[f], c.pf, key, c.rules, s.generation);
      SettledHit(h, g, f, n, c.pf, key, c.rules, s.generation);
    }
  }

  lemma TouchedFits(entries: Entries, order: seq<ScopeKey>, limits: Limits, k: ScopeKey, e: CacheEntry)
    requires Ordered(entries, order) && Fits(entries, order, limits)
    requires k in entries && e.snapshot == entries[k].snapshot
    ensures Ordered(entries[k := e], Touched(order, k)) && Fits(entries[k := e], Touched(order, k), limits)
  {
    TouchedOrdered(entries, order, k, e);
    TotalAnyOrder(entries, order, Touched(order, k));
    TotalFrame(entries, entries[k := e], Touched(order, k));
  }

  lemma {:induction false} CountKeys(entries: Entries, ks: seq<ScopeKey>)
    requires Ordered(entries, ks)
    ensures |entries| == |ks|
  {
    if ks != [] {
      assert ks[0] in ks;
      var rest := entries - {ks[0]};
      assert forall k :: k in ks <==> k == ks[0] || k in ks[1..];
      CountKeys(rest, ks[1..]);
      assert entries.Keys == rest.Keys + {ks[0]};
      assert |entries| == |entries.Keys| && |rest| == |rest.Keys|;
    } else {
      assert entries == map[];
    }
  }
}
