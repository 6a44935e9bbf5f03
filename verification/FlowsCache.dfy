/**
 * The versioned, single-flight cache of flow fetches (app/src/lib/ddb.ts). Code between two
 * awaits is atomic, so every interleaving is a sequence of the four events below: the part of
 * a lookup after its version read, a fetch settling well or badly, and a max-age timer firing.
 */
module FlowsCache {
  import opened Collections

  const MAX_ENTRIES := 200

  datatype FetchState = InFlight | Fulfilled | Rejected

  /** An entry object: `timer` tells whether its max-age timer is live. */
  datatype Entry = Entry(key: string, version: string, state: FetchState, timer: bool)

  /**
   * `heap` holds every entry object ever created, by identity; `slots` is the Map from keys to
   * entries and `order` its keys in insertion order.
   */
  datatype Cache = Cache(heap: seq<Entry>, slots: map<string, nat>, order: seq<string>)

  const EMPTY := Cache([], map[], [])

  predicate Settled(e: Entry) { !e.state.InFlight? }

  /** The Map still leads from the entry's key to this very entry. */
  predicate InMap(c: Cache, id: nat)
    requires id < |c.heap|
  {
    c.heap[id].key in c.slots && c.slots[c.heap[id].key] == id
  }

  function Without(ks: seq<string>, k: string): (r: seq<string>)
    ensures forall x :: x in r <==> x in ks && x != k
  {
    if ks == [] then []
    else
      var n := |ks| - 1;
      assert ks == ks[..n] + [ks[n]];
      Without(ks[..n], k) + if ks[n] == k then [] else [ks[n]]
  }

  // ---- the operations on values -----------------------------------------------------

  function DropEntry(c: Cache, id: nat): Cache
    requires id < |c.heap|
  {
    var k := c.heap[id].key;
    var heap := c.heap[id := c.heap[id].(timer := false)];
    if InMap(c, id) then Cache(heap, c.slots - {k}, Without(c.order, k)) else c.(heap := heap)
  }

  /** Visiting key `k` in the sweep: a settled entry of another version is dropped. */
  function SweepKey(c: Cache, version: string, k: string): Cache
  {
    if k in c.slots && c.slots[k] < |c.heap| && Settled(c.heap[c.slots[k]]) && c.heap[c.slots[k]].version != version
    then DropEntry(c, c.slots[k]) else c
  }

  function Sweep(c: Cache, version: string, ks: seq<string>): Cache
  {
    if ks == [] then c else SweepKey(Sweep(c, version, ks[..|ks| - 1]), version, ks[|ks| - 1])
  }

  /** Visiting key `k` in the cap loop: the new entry and entries in flight are passed over. */
  function EvictKey(c: Cache, key: string, k: string): Cache
  {
    if |c.order| <= MAX_ENTRIES || k == key || k !in c.slots || c.slots[k] >= |c.heap| || !Settled(c.heap[c.slots[k]])
    then c else DropEntry(c, c.slots[k])
  }

  function Evict(c: Cache, key: string, ks: seq<string>): Cache
  {
    if ks == [] then c else EvictKey(Evict(c, key, ks[..|ks| - 1]), key, ks[|ks| - 1])
  }

  function Insert(c: Cache, key: string, version: string): Cache
  {
    Cache(c.heap + [Entry(key, version, InFlight, false)], c.slots[key := |c.heap|],
          if key in c.slots then c.order else c.order + [key])
  }

  /** The synchronous part of `cachedFetch`: the new cache and the entry whose promise is returned. */
  function Lookup(c: Cache, key: string, version: string): (Cache, nat)
  {
    var swept := Sweep(c, version, c.order);
    if key in swept.slots then (swept, swept.slots[key])
    else
      var grown := Insert(swept, key, version);
      (Evict(grown, key, grown.order), |swept.heap|)
  }

  function SettleOk(c: Cache, id: nat): Cache
    requires id < |c.heap|
  {
    var settled := c.(heap := c.heap[id := c.heap[id].(state := Fulfilled)]);
    if !InMap(settled, id) then settled
    else settled.(heap := settled.heap[id := settled.heap[id].(timer := true)])
  }

  function SettleFailed(c: Cache, id: nat): Cache
    requires id < |c.heap|
  {
    DropEntry(c.(heap := c.heap[id := c.heap[id].(state := Rejected)]), id)
  }

  // ---- the module-level Map and its loops ----------------------------------------------

  class FlowsWindowCache {
    var heap: seq<Entry>
    var slots: map<string, nat>
    var order: seq<string>

    function View(): Cache
      reads this
    {
      Cache(heap, slots, order)
    }

    constructor ()
      ensures View() == EMPTY
    {
      heap, slots, order := [], map[], [];
    }

    method Drop(id: nat)
      requires id < |heap|
      modifies this
      ensures View() == DropEntry(old(View()), id)
    {
      heap := heap[id := heap[id].(timer := false)];
      var k := heap[id].key;
      if k in slots && slots[k] == id {
        slots, order := slots - {k}, Without(order, k);
      }
    }

    /** The loop that drops settled entries of other versions. */
    method SweepStale(version: string)
      modifies this
      ensures View() == Sweep(old(View()), version, old(order))
    {
      var keys := order;
      for i := 0 to |keys|
        invariant View() == Sweep(old(View()), version, keys[..i])
      {
        PrefixSnoc(keys, i);
        var k := keys[i];
        if k in slots && slots[k] < |heap| && Settled(heap[slots[k]]) && heap[slots[k]].version != version {
          Drop(slots[k]);
        }
      }
      assert keys[..|keys|] == keys;
    }

    /** The cap loop, which stops as soon as the Map is small enough. */
    method EvictOldest(key: string)
      modifies this
      ensures View() == Evict(old(View()), key, old(order))
    {
      var keys := order;
      var i := 0;
      while i < |keys|
        invariant 0 <= i <= |keys|
        invariant View() == Evict(old(View()), key, keys[..i])
      {
        if |order| <= MAX_ENTRIES {
          EvictIsDone(old(View()), key, keys, i);
          return;
        }
        PrefixSnoc(keys, i);
        var k := keys[i];
        if !(k == key || k !in slots || slots[k] >= |heap| || !Settled(heap[slots[k]])) {
          Drop(slots[k]);
        }
        i := i + 1;
      }
      assert keys[..|keys|] == keys;
    }

    /** Joins, or launches, a fetch for `key`; `version` is what `flowsVersion` answered. */
    method CachedFetch(key: string, version: string) returns (id: nat)
      modifies this
      ensures (View(), id) == Lookup(old(View()), key, version)
    {
      SweepStale(version);
      if key in slots { return slots[key]; }
      id := |heap|;
      heap, slots, order := heap + [Entry(key, version, InFlight, false)], slots[key := id], order + [key];
      EvictOldest(key);
    }

    method OnFulfilled(id: nat)
      requires id < |heap|
      modifies this
      ensures View() == SettleOk(old(View()), id)
    {
      heap := heap[id := heap[id].(state := Fulfilled)];
      if !(heap[id].key in slots && slots[heap[id].key] == id) { return; }
      heap := heap[id := heap[id].(timer := true)];
    }

    method OnRejected(id: nat)
      requires id < |heap|
      modifies this
      ensures View() == SettleFailed(old(View()), id)
    {
      heap := heap[id := heap[id].(state := Rejected)];
      Drop(id);
    }
  }

  /** Once the Map is small enough the cap loop changes nothing, so it may stop early. */
  lemma {:induction false} EvictIsDone(c: Cache, key: string, ks: seq<string>, i: nat)
    requires i <= |ks| && |Evict(c, key, ks[..i]).order| <= MAX_ENTRIES
    ensures Evict(c, key, ks) == Evict(c, key, ks[..i])
    decreases |ks| - i
  {
    if i == |ks| {
      assert ks[..i] == ks;
    } else {
      assert ks[..i + 1][..i] == ks[..i] && ks[..i + 1][i] == ks[i];
      EvictIsDone(c, key, ks, i + 1);
    }
  }

  // ---- runs -------------------------------------------------------------------------

  datatype Event =
    | LookedUp(key: string, version: string)
    | FetchOk(id: nat)
    | FetchFailed(id: nat)
    | TimerFired(id: nat)

  predicate Enabled(c: Cache, ev: Event)
  {
    match ev
    case LookedUp(_, _) => true
    case FetchOk(id) => id < |c.heap| && c.heap[id].state.InFlight?
    case FetchFailed(id) => id < |c.heap| && c.heap[id].state.InFlight?
    case TimerFired(id) => id < |c.heap| && c.heap[id].timer
  }

  function Apply(c: Cache, ev: Event): Cache
    requires Enabled(c, ev)
  {
    match ev
    case LookedUp(key, version) => Lookup(c, key, version).0
    case FetchOk(id) => SettleOk(c, id)
    case FetchFailed(id) => SettleFailed(c, id)
    case TimerFired(id) => DropEntry(c, id)
  }

  ghost predicate IsRun(caches: seq<Cache>)
  {
    && caches != [] && caches[0] == EMPTY
    && forall i :: 0 <= i < |caches| - 1 ==> Steps(caches[i], caches[i + 1])
  }

  ghost predicate Steps(c: Cache, c': Cache)
  {
    exists ev :: Enabled(c, ev) && c' == Apply(c, ev)
  }

  // ---- the invariant ------------------------------------------------------------------

  ghost predicate MapOk(c: Cache)
  {
    && Distinct(c.order)
    && (forall k :: k in c.order <==> k in c.slots)
    && forall k :: k in c.slots ==> c.slots[k] < |c.heap| && c.heap[c.slots[k]].key == k
  }

  /** An entry is in the Map or out of it for good; only out of the Map can it be forgotten. */
  ghost predicate EntryOk(c: Cache, id: nat)
    requires id < |c.heap|
  {
    && (c.heap[id].state.InFlight? ==> InMap(c, id))
    && (c.heap[id].state.Rejected? ==> !InMap(c, id))
    && (c.heap[id].timer <==> c.heap[id].state.Fulfilled? && InMap(c, id))
  }

  ghost predicate Inv(c: Cache)
  {
    MapOk(c) && forall id :: 0 <= id < |c.heap| ==> EntryOk(c, id)
  }

  lemma {:induction false} WithoutDistinct(ks: seq<string>, k: string)
    requires Distinct(ks)
    ensures Distinct(Without(ks, k))
    ensures |Without(ks, k)| == if k in ks then |ks| - 1 else |ks|
  {
    if ks != [] {
      var n := |ks| - 1;
      assert ks == ks[..n] + [ks[n]];
      WithoutDistinct(ks[..n], k);
      assert ks[n] !in ks[..n];
    }
  }

  /** Equal but for the timer. */
  predicate SameFetch(x: Entry, y: Entry) { x.key == y.key && x.version == y.version && x.state == y.state }

  /** `b` is `a` with some entries dropped: same entries, fewer of them in the Map. */
  ghost predicate Shrunk(a: Cache, b: Cache)
  {
    && |b.heap| == |a.heap|
    && (forall id :: 0 <= id < |a.heap| ==> SameFetch(a.heap[id], b.heap[id]))
    && (forall k :: k in b.slots ==> k in a.slots && b.slots[k] == a.slots[k])
    && |b.order| <= |a.order|
  }

  lemma DropKeepsInv(c: Cache, id: nat)
    requires Inv(c) && id < |c.heap| && Settled(c.heap[id])
    ensures Inv(DropEntry(c, id)) && Shrunk(c, DropEntry(c, id))
    ensures forall k :: k in DropEntry(c, id).slots <==> k in c.slots && c.slots[k] != id
    ensures InMap(c, id) ==> |DropEntry(c, id).order| == |c.order| - 1
  {
    var d := DropEntry(c, id);
    WithoutDistinct(c.order, c.heap[id].key);
    forall i | 0 <= i < |d.heap| ensures EntryOk(d, i) {
      assert EntryOk(c, i);
    }
  }

  predicate Stale(c: Cache, version: string, k: string)
    requires k in c.slots && c.slots[k] < |c.heap|
  {
    Settled(c.heap[c.slots[k]]) && c.heap[c.slots[k]].version != version
  }

  lemma {:induction false} SweepEffect(c: Cache, version: string, ks: seq<string>)
    requires Inv(c)
    ensures Inv(Sweep(c, version, ks)) && Shrunk(c, Sweep(c, version, ks))
    ensures forall k :: k in Sweep(c, version, ks).slots <==> k in c.slots && !(k in ks && Stale(c, version, k))
  {
    if ks != [] {
      var n := |ks| - 1;
      assert ks == ks[..n] + [ks[n]];
      SweepEffect(c, version, ks[..n]);
      var mid := Sweep(c, version, ks[..n]);
      if ks[n] in mid.slots && Stale(mid, version, ks[n]) { DropKeepsInv(mid, mid.slots[ks[n]]); }
    }
  }

  lemma {:induction false} EvictEffect(c: Cache, key: string, ks: seq<string>)
    requires Inv(c) && key in c.slots && !Settled(c.heap[c.slots[key]])
    ensures Inv(Evict(c, key, ks)) && Shrunk(c, Evict(c, key, ks))
    ensures key in Evict(c, key, ks).slots
    ensures |Evict(c, key, ks).order| <= MAX_ENTRIES
            || forall k :: k in ks && k in Evict(c, key, ks).slots ==> !Settled(c.heap[c.slots[k]])
  {
    if ks != [] {
      var n := |ks| - 1;
      assert ks == ks[..n] + [ks[n]];
      EvictEffect(c, key, ks[..n]);
      var mid := Evict(c, key, ks[..n]);
      assert mid.slots[key] == c.slots[key];
      if EvictKey(mid, key, ks[n]) != mid { DropKeepsInv(mid, mid.slots[ks[n]]); }
    }
  }

  lemma InsertKeepsInv(c: Cache, key: string, version: string)
    requires Inv(c) && key !in c.slots
    ensures Inv(Insert(c, key, version))
  {
    var d := Insert(c, key, version);
    forall i | 0 <= i < |d.heap| ensures EntryOk(d, i) {
      if i < |c.heap| { assert EntryOk(c, i); }
    }
  }

  /** The lookup finds an entry it may join: one in flight, or a success of the version just read. */
  predicate Hit(c: Cache, key: string, version: string)
  {
    key in c.slots && c.slots[key] < |c.heap| && !Stale(c, version, key)
  }

  /**
   * Fresh or in flight: a lookup returns an entry for its key that is in flight, whatever its
   * version, or a success of exactly the version the lookup read; it launches a fetch only
   * when there is no such entry, and leaves no stale settled entry behind.
   */
  lemma LookupIsFresh(c: Cache, key: string, version: string)
    requires Inv(c)
    ensures var (d, id) := Lookup(c, key, version);
            && Inv(d) && id < |d.heap| && d.heap[id].key == key && InMap(d, id)
            && (d.heap[id].state.InFlight? || (d.heap[id].state.Fulfilled? && d.heap[id].version == version))
            && (if Hit(c, key, version) then id == c.slots[key] && |d.heap| == |c.heap|
                else id == |c.heap| && |d.heap| == |c.heap| + 1 && d.heap[id].state.InFlight?)
            && (forall k :: k in d.slots ==> !Stale(d, version, k))
  {
    var swept := Sweep(c, version, c.order);
    SweepEffect(c, version, c.order);
    if key in swept.slots {
      assert EntryOk(swept, swept.slots[key]);
    } else {
      InsertKeepsInv(swept, key, version);
      var grown := Insert(swept, key, version);
      EvictEffect(grown, key, grown.order);
    }
  }

  lemma SettleKeepsInv(c: Cache, id: nat)
    requires Inv(c) && id < |c.heap| && c.heap[id].state.InFlight?
    ensures Inv(SettleOk(c, id)) && Inv(SettleFailed(c, id))
  {
    assert EntryOk(c, id);
    var ok, bad := SettleOk(c, id), SettleFailed(c, id);
    WithoutDistinct(c.order, c.heap[id].key);
    forall i | 0 <= i < |c.heap| ensures EntryOk(ok, i) && EntryOk(bad, i) {
      assert EntryOk(c, i);
    }
  }

  lemma InvPreserved(c: Cache, ev: Event)
    requires Inv(c) && Enabled(c, ev)
    ensures Inv(Apply(c, ev))
  {
    match ev
    case LookedUp(key, version) => LookupIsFresh(c, key, version);
    case FetchOk(id) => SettleKeepsInv(c, id);
    case FetchFailed(id) => SettleKeepsInv(c, id);
    case TimerFired(id) => assert EntryOk(c, id); DropKeepsInv(c, id);
  }

  lemma {:induction false} InvHolds(caches: seq<Cache>, i: nat)
    requires IsRun(caches) && i < |caches|
    ensures Inv(caches[i])
  {
    if i > 0 {
      InvHolds(caches, i - 1);
      assert Steps(caches[i - 1], caches[i - 1 + 1]);
      var ev :| Enabled(caches[i - 1], ev) && caches[i] == Apply(caches[i - 1], ev);
      InvPreserved(caches[i - 1], ev);
    }
  }

  // ---- single flight --------------------------------------------------------------------

  /**
   * In every run at most one fetch per key is in flight, it is the entry in the Map, and every
   * lookup of its key, under any version, joins it.
   */
  lemma SingleFlight(caches: seq<Cache>, i: nat, a: nat, version: string)
    requires IsRun(caches) && i < |caches| && a < |caches[i].heap| && caches[i].heap[a].state.InFlight?
    ensures InMap(caches[i], a)
    ensures forall b: nat ::
      b < |caches[i].heap| && caches[i].heap[b].state.InFlight? && caches[i].heap[b].key == caches[i].heap[a].key ==>
        a == b
    ensures Lookup(caches[i], caches[i].heap[a].key, version).1 == a
  {
    var c := caches[i];
    InvHolds(caches, i);
    assert EntryOk(c, a);
    forall b: nat | b < |c.heap| && c.heap[b].state.InFlight? && c.heap[b].key == c.heap[a].key ensures a == b {
      assert EntryOk(c, b);
    }
    LookupIsFresh(c, c.heap[a].key, version);
  }

  /**
   * The branch "evicted while in flight" is never taken: a fetch that settles well is still in
   * the Map and gets its timer; one that fails is gone after its settlement step, timer and all.
   */
  lemma SettlementFindsItsEntry(caches: seq<Cache>, i: nat, id: nat)
    requires IsRun(caches) && i < |caches| && id < |caches[i].heap| && caches[i].heap[id].state.InFlight?
    ensures InMap(caches[i].(heap := caches[i].heap[id := caches[i].heap[id].(state := Fulfilled)]), id)
    ensures var ok := SettleOk(caches[i], id); InMap(ok, id) && ok.heap[id].state.Fulfilled? && ok.heap[id].timer
    ensures var bad := SettleFailed(caches[i], id);
      !InMap(bad, id) && bad.heap[id].state.Rejected? && !bad.heap[id].timer && caches[i].heap[id].key !in bad.slots
  {
    InvHolds(caches, i);
    assert EntryOk(caches[i], id);
  }

  /** A live timer belongs exactly to a success still in the Map. */
  lemma TimerExactlyForCachedSuccess(caches: seq<Cache>, i: nat, id: nat)
    requires IsRun(caches) && i < |caches| && id < |caches[i].heap|
    ensures caches[i].heap[id].timer <==> caches[i].heap[id].state.Fulfilled? && InMap(caches[i], id)
  {
    InvHolds(caches, i);
    assert EntryOk(caches[i], id);
  }

  // ---- the size bound ---------------------------------------------------------------------

  ghost predicate AllInFlight(c: Cache)
  {
    forall k :: k in c.slots && c.slots[k] < |c.heap| ==> !Settled(c.heap[c.slots[k]])
  }

  ghost predicate WithinBound(c: Cache) { |c.order| <= 200 || AllInFlight(c) }

  /** The keys that a lookup of this version does not sweep. */
  ghost function Survivors(c: Cache, version: string): set<string>
  {
    set k | k in c.slots && c.slots[k] < |c.heap| && !Stale(c, version, k)
  }

  lemma OrderCount(c: Cache)
    requires Inv(c)
    ensures |c.order| == |c.slots.Keys|
  {
    CountDistinct(c.order);
    assert (set k | k in c.order) == c.slots.Keys;
  }

  /**
   * The documented cap, exactly: after a lookup that launches a fetch the Map holds at most 200
   * entries unless all are in flight; a lookup that joins an entry evicts nothing, so after it
   * the cap holds exactly when the entries that survive its sweep already satisfied it.
   */
  lemma LookupBound(c: Cache, key: string, version: string)
    requires Inv(c)
    ensures WithinBound(Lookup(c, key, version).0) <==>
              !Hit(c, key, version)
              || |Survivors(c, version)| <= 200
              || forall k :: k in Survivors(c, version) ==> !Settled(c.heap[c.slots[k]])
  {
    var swept := Sweep(c, version, c.order);
    SweepEffect(c, version, c.order);
    OrderCount(swept);
    assert swept.slots.Keys == Survivors(c, version);
    if Hit(c, key, version) {
      if AllInFlight(swept) {
        forall k | k in Survivors(c, version) ensures !Settled(c.heap[c.slots[k]]) {
          assert !Settled(swept.heap[swept.slots[k]]);
        }
      }
    } else {
      InsertKeepsInv(swept, key, version);
      var grown := Insert(swept, key, version);
      EvictEffect(grown, key, grown.order);
    }
  }

  ghost function InFlightIds(c: Cache): set<nat>
  {
    set id | 0 <= id < |c.heap| && c.heap[id].state.InFlight?
  }

  ghost function Peak(caches: seq<Cache>): nat
  {
    if caches == [] then 0
    else
      var n := |InFlightIds(caches[|caches| - 1])|;
      var before := Peak(caches[..|caches| - 1]);
      if n > before then n else before
  }

  /** When every entry of the Map is in flight, it is no larger than the set of fetches in flight. */
  lemma AllInFlightCount(c: Cache)
    requires Inv(c) && AllInFlight(c)
    ensures |c.order| <= |InFlightIds(c)|
  {
    var ids := seq(|c.order|, i requires 0 <= i < |c.order| =>
      if c.order[i] in c.slots then c.slots[c.order[i]] else 0);
    forall i, j | 0 <= i < j < |ids| ensures ids[i] != ids[j] {
      assert c.order[i] in c.order && c.order[j] in c.order;
    }
    CountDistinct(ids);
    forall id | id in (set x | x in ids) ensures id in InFlightIds(c) {
      var i :| 0 <= i < |ids| && ids[i] == id;
      assert c.order[i] in c.order;
    }
    SubsetCardinality((set x | x in ids), InFlightIds(c));
  }

  lemma StepSize(c: Cache, ev: Event)
    requires Inv(c) && Enabled(c, ev)
    ensures var d := Apply(c, ev); |d.order| <= |c.order| || |d.order| <= 200 || |d.order| <= |InFlightIds(d)|
  {
    match ev
    case LookedUp(key, version) =>
      LookupIsFresh(c, key, version);
      var d := Lookup(c, key, version).0;
      SweepEffect(c, version, c.order);
      if !Hit(c, key, version) {
        LookupBound(c, key, version);
        if AllInFlight(d) { AllInFlightCount(d); }
      }
    case FetchOk(id) =>
    case FetchFailed(id) => WithoutDistinct(c.order, c.heap[id].key);
    case TimerFired(id) => assert EntryOk(c, id); DropKeepsInv(c, id);
  }

  /** Over any run the Map never outgrows 200 entries or the peak number of concurrent fetches. */
  lemma {:induction false} SizeBoundedByPeak(caches: seq<Cache>)
    requires IsRun(caches)
    ensures |caches[|caches| - 1].order| <= 200 || |caches[|caches| - 1].order| <= Peak(caches)
  {
    var n := |caches| - 1;
    if n > 0 {
      var before := caches[..n];
      SizeBoundedByPeak(before);
      InvHolds(caches, n - 1);
      assert Steps(caches[n - 1], caches[n - 1 + 1]);
      var ev :| Enabled(caches[n - 1], ev) && caches[n] == Apply(caches[n - 1], ev);
      StepSize(caches[n - 1], ev);
    }
  }

  // ---- the oldest entries go first -----------------------------------------------------------

  /** The Map holds its entries in the order in which their fetches were launched. */
  ghost predicate ByAge(ks: seq<string>, slots: map<string, nat>)
  {
    && (forall i :: 0 <= i < |ks| ==> ks[i] in slots)
    && forall i, j :: 0 <= i < j < |ks| ==> slots[ks[i]] < slots[ks[j]]
  }

  lemma {:induction false} WithoutByAge(ks: seq<string>, k: string, slots: map<string, nat>)
    requires ByAge(ks, slots)
    ensures ByAge(Without(ks, k), slots - {k})
  {
    if ks != [] {
      var n := |ks| - 1;
      WithoutByAge(ks[..n], k, slots);
      var before := Without(ks[..n], k);
      forall i | 0 <= i < |before| ensures slots[before[i]] < slots[ks[n]] {
        assert before[i] in ks[..n];
      }
    }
  }

  lemma DropKeepsAge(c: Cache, id: nat)
    requires id < |c.heap| && ByAge(c.order, c.slots)
    ensures ByAge(DropEntry(c, id).order, DropEntry(c, id).slots)
  {
    WithoutByAge(c.order, c.heap[id].key, c.slots);
  }

  lemma {:induction false} SweepKeepsAge(c: Cache, version: string, ks: seq<string>)
    requires ByAge(c.order, c.slots)
    ensures ByAge(Sweep(c, version, ks).order, Sweep(c, version, ks).slots)
  {
    if ks != [] {
      var mid := Sweep(c, version, ks[..|ks| - 1]);
      SweepKeepsAge(c, version, ks[..|ks| - 1]);
      if SweepKey(mid, version, ks[|ks| - 1]) != mid { DropKeepsAge(mid, mid.slots[ks[|ks| - 1]]); }
    }
  }

  lemma {:induction false} EvictKeepsAge(c: Cache, key: string, ks: seq<string>)
    requires ByAge(c.order, c.slots)
    ensures ByAge(Evict(c, key, ks).order, Evict(c, key, ks).slots)
  {
    if ks != [] {
      var mid := Evict(c, key, ks[..|ks| - 1]);
      EvictKeepsAge(c, key, ks[..|ks| - 1]);
      if EvictKey(mid, key, ks[|ks| - 1]) != mid { DropKeepsAge(mid, mid.slots[ks[|ks| - 1]]); }
    }
  }

  lemma InsertKeepsAge(c: Cache, key: string, version: string)
    requires Inv(c) && ByAge(c.order, c.slots) && key !in c.slots
    ensures ByAge(Insert(c, key, version).order, Insert(c, key, version).slots)
  {
    forall i | 0 <= i < |c.order| ensures c.slots[c.order[i]] < |c.heap| { assert c.order[i] in c.order; }
  }

  lemma LookupKeepsAge(c: Cache, key: string, version: string)
    requires Inv(c) && ByAge(c.order, c.slots)
    ensures var d := Lookup(c, key, version).0; ByAge(d.order, d.slots)
  {
    var swept := Sweep(c, version, c.order);
    SweepKeepsAge(c, version, c.order);
    if key !in swept.slots {
      SweepEffect(c, version, c.order);
      InsertKeepsAge(swept, key, version);
      var grown := Insert(swept, key, version);
      EvictKeepsAge(grown, key, grown.order);
    }
  }

  /** In every run the Map is in launch order. */
  lemma {:induction false} AgeHolds(caches: seq<Cache>, i: nat)
    requires IsRun(caches) && i < |caches|
    ensures ByAge(caches[i].order, caches[i].slots)
  {
    if i > 0 {
      AgeHolds(caches, i - 1);
      InvHolds(caches, i - 1);
      assert Steps(caches[i - 1], caches[i - 1 + 1]);
      StepKeepsAge(caches[i - 1], caches[i]);
    }
  }

  lemma StepKeepsAge(c: Cache, d: Cache)
    requires Inv(c) && Steps(c, d) && ByAge(c.order, c.slots)
    ensures ByAge(d.order, d.slots)
  {
    var ev :| Enabled(c, ev) && d == Apply(c, ev);
    AgeStep(c, ev);
  }

  lemma AgeStep(c: Cache, ev: Event)
    requires Inv(c) && Enabled(c, ev) && ByAge(c.order, c.slots)
    ensures ByAge(Apply(c, ev).order, Apply(c, ev).slots)
  {
    match ev
    case LookedUp(key, version) => LookupKeepsAge(c, key, version);
    case FetchOk(id) =>
    case FetchFailed(id) => DropKeepsAge(c.(heap := c.heap[id := c.heap[id].(state := Rejected)]), id);
    case TimerFired(id) => DropKeepsAge(c, id);
  }

  /** Visiting keys only takes visited keys out. */
  lemma {:induction false} OnlyVisitedGo(c: Cache, key: string, ks: seq<string>, k: string)
    requires Inv(c) && key in c.slots && !Settled(c.heap[c.slots[key]]) && k in c.slots && k !in ks
    ensures k in Evict(c, key, ks).slots
  {
    if ks != [] {
      var n := |ks| - 1;
      assert ks == ks[..n] + [ks[n]];
      OnlyVisitedGo(c, key, ks[..n], k);
      EvictEffect(c, key, ks[..n]);
      var mid := Evict(c, key, ks[..n]);
      if EvictKey(mid, key, ks[n]) != mid { DropKeepsInv(mid, mid.slots[ks[n]]); }
    }
  }

  lemma VisitShrinks(c: Cache, key: string, k: string)
    ensures forall x :: x in EvictKey(c, key, k).slots ==> x in c.slots
  {}

  /** Once a settled key is kept, all later keys are. */
  lemma {:induction false} EvictsInOrder(c: Cache, key: string, ks: seq<string>, i: nat, j: nat)
    requires Inv(c) && key in c.slots && !Settled(c.heap[c.slots[key]]) && Distinct(ks) && i < j < |ks|
    requires ks[i] in c.slots && Settled(c.heap[c.slots[ks[i]]]) && ks[j] in c.slots
    requires ks[i] in Evict(c, key, ks).slots
    ensures ks[j] in Evict(c, key, ks).slots
  {
    var n := |ks| - 1;
    var mid := Evict(c, key, ks[..n]);
    EvictEffect(c, key, ks[..n]);
    VisitShrinks(mid, key, ks[n]);
    assert ks[..n][i] == ks[i] && ks[i] in ks[..n];
    assert EvictKey(mid, key, ks[n]) == mid;
    if j < n {
      EvictsInOrder(c, key, ks[..n], i, j);
    } else {
      OnlyVisitedGo(c, key, ks[..n], ks[n]);
    }
  }

  lemma {:induction false} EvictsToTheCap(c: Cache, key: string, ks: seq<string>)
    requires Inv(c) && key in c.slots && !Settled(c.heap[c.slots[key]])
    ensures Evict(c, key, ks) == c || |Evict(c, key, ks).order| >= 200
  {
    if ks != [] {
      var n := |ks| - 1;
      EvictsToTheCap(c, key, ks[..n]);
      EvictEffect(c, key, ks[..n]);
      var mid := Evict(c, key, ks[..n]);
      if EvictKey(mid, key, ks[n]) != mid { DropKeepsInv(mid, mid.slots[ks[n]]); }
    }
  }

  /** Of the entries of c the kept settled ones are all younger than k. */
  ghost predicate OlderThanKept(c: Cache, d: Cache, k: string)
  {
    k in c.slots && forall x :: x in c.slots && x in d.slots && c.slots[x] < |c.heap| && Settled(c.heap[c.slots[x]]) ==>
      c.slots[k] < c.slots[x]
  }

  lemma EvictedIsOlder(c: Cache, key: string, k: string)
    requires Inv(c) && ByAge(c.order, c.slots) && key in c.slots && !Settled(c.heap[c.slots[key]])
    requires k in c.slots && k !in Evict(c, key, c.order).slots
    ensures OlderThanKept(c, Evict(c, key, c.order), k)
  {
    assert k in c.order;
    var i :| 0 <= i < |c.order| && c.order[i] == k;
    forall x | x in c.slots && x in Evict(c, key, c.order).slots && Settled(c.heap[c.slots[x]])
      ensures c.slots[k] < c.slots[x]
    {
      assert x in c.order;
      var j :| 0 <= j < |c.order| && c.order[j] == x;
      if j < i { EvictsInOrder(c, key, c.order, j, i); }
    }
  }

  lemma LaunchGrows(c: Cache, key: string, version: string) returns (grown: Cache)
    requires Inv(c) && ByAge(c.order, c.slots) && !Hit(c, key, version)
    ensures Inv(grown) && ByAge(grown.order, grown.slots)
    ensures key in grown.slots && !Settled(grown.heap[grown.slots[key]])
    ensures Lookup(c, key, version).0 == Evict(grown, key, grown.order)
    ensures forall k :: k in Survivors(c, version) ==>
      k in grown.slots && grown.slots[k] == c.slots[k]
      && (Settled(grown.heap[grown.slots[k]]) <==> Settled(c.heap[c.slots[k]]))
  {
    var swept := Sweep(c, version, c.order);
    SweepEffect(c, version, c.order);
    SweepKeepsAge(c, version, c.order);
    InsertKeepsInv(swept, key, version);
    InsertKeepsAge(swept, key, version);
    grown := Insert(swept, key, version);
  }

  /**
   * What a launching lookup evicts of the entries that survive its sweep: settled ones only, each
   * launched before every settled one that is kept, and none when that leaves fewer than 200.
   */
  lemma EvictsOldestFirst(c: Cache, key: string, version: string, k: string)
    requires Inv(c) && ByAge(c.order, c.slots) && !Hit(c, key, version) && k in Survivors(c, version)
    requires k !in Lookup(c, key, version).0.slots
    ensures |Lookup(c, key, version).0.order| >= 200 && Settled(c.heap[c.slots[k]])
    ensures forall x ::
      x in Survivors(c, version) && x in Lookup(c, key, version).0.slots && Settled(c.heap[c.slots[x]]) ==>
        c.slots[k] < c.slots[x]
  {
    var grown := LaunchGrows(c, key, version);
    EvictsToTheCap(grown, key, grown.order);
    SettledOnly(grown, key, grown.order, k);
    EvictedIsOlder(grown, key, k);
  }

  lemma {:induction false} SettledOnly(c: Cache, key: string, ks: seq<string>, k: string)
    requires Inv(c) && key in c.slots && !Settled(c.heap[c.slots[key]]) && k in c.slots
    requires k !in Evict(c, key, ks).slots
    ensures Settled(c.heap[c.slots[k]])
  {
    if ks != [] {
      var n := |ks| - 1;
      EvictEffect(c, key, ks[..n]);
      var mid := Evict(c, key, ks[..n]);
      if k !in mid.slots { SettledOnly(c, key, ks[..n], k); }
    }
  }

  // ---- the cap fails on a hit ----------------------------------------------------------------

  function Key(n: nat): string { seq(n, i => 'k') }

  /** n lookups of different keys, none of which has settled. */
  function Piled(n: nat): (caches: seq<Cache>)
    ensures |caches| == n + 1
  {
    if n == 0 then [EMPTY] else Piled(n - 1) + [Lookup(Piled(n - 1)[n - 1], Key(n), "v").0]
  }

  ghost predicate IsPile(c: Cache, n: nat)
  {
    && Inv(c) && |c.heap| == n
    && forall id :: 0 <= id < n ==> c.heap[id] == Entry(Key(id + 1), "v", InFlight, false)
  }

  lemma PileSlots(c: Cache, n: nat)
    requires IsPile(c, n)
    ensures |c.order| == n && forall m :: 1 <= m <= n ==> Key(m) in c.slots && c.slots[Key(m)] == m - 1
    ensures Key(n + 1) !in c.slots
  {
    forall m | 1 <= m <= n ensures Key(m) in c.slots && c.slots[Key(m)] == m - 1 {
      assert EntryOk(c, m - 1);
    }
    forall id | 0 <= id < n ensures c.heap[id].key != Key(n + 1) {
      assert |c.heap[id].key| == id + 1 && |Key(n + 1)| == n + 1;
    }
    OrderCount(c);
    KeysCount(n);
    forall k ensures k in c.slots.Keys <==> k in KeySet(n) {
      if k in c.slots { assert Key(c.slots[k] + 1) == k; }
    }
    assert c.slots.Keys == KeySet(n);
  }

  ghost function KeySet(n: nat): set<string> { set i | 1 <= i <= n :: Key(i) }

  lemma {:induction false} KeysCount(n: nat)
    ensures |KeySet(n)| == n
  {
    if n > 0 {
      KeysCount(n - 1);
      forall i | 1 <= i <= n - 1 ensures Key(i) != Key(n) {
        assert |Key(i)| != |Key(n)|;
      }
      assert KeySet(n) == KeySet(n - 1) + {Key(n)};
    } else {
      assert KeySet(n) == {};
    }
  }

  lemma PileGrows(c: Cache, n: nat)
    requires IsPile(c, n)
    ensures IsPile(Lookup(c, Key(n + 1), "v").0, n + 1)
  {
    var key := Key(n + 1);
    PileSlots(c, n);
    LookupIsFresh(c, key, "v");
    SweepEffect(c, "v", c.order);
    var swept := Sweep(c, "v", c.order);
    InsertKeepsInv(swept, key, "v");
    var grown := Insert(swept, key, "v");
    EvictEffect(grown, key, grown.order);
    var d := Lookup(c, key, "v").0;
    forall id | 0 <= id < n + 1 ensures d.heap[id] == Entry(Key(id + 1), "v", InFlight, false) {
      assert EntryOk(d, id);
    }
  }

  lemma RunSnoc(caches: seq<Cache>, ev: Event)
    requires IsRun(caches) && Enabled(caches[|caches| - 1], ev)
    ensures IsRun(caches + [Apply(caches[|caches| - 1], ev)])
  {
    var more := caches + [Apply(caches[|caches| - 1], ev)];
    forall i | 0 <= i < |more| - 1 ensures Steps(more[i], more[i + 1]) {
      assert i < |caches| - 1 ==> Steps(caches[i], caches[i + 1]);
    }
  }

  lemma {:induction false} PiledIsPile(n: nat)
    ensures IsRun(Piled(n)) && IsPile(Piled(n)[n], n)
  {
    if n > 0 {
      PiledIsPile(n - 1);
      PileGrows(Piled(n - 1)[n - 1], n - 1);
      RunSnoc(Piled(n - 1), LookedUp(Key(n), "v"));
    }
  }

  lemma SettledPileOverflows(c: Cache, n: nat)
    requires IsPile(c, n) && n > 200
    ensures Hit(SettleOk(c, 0), Key(1), "v") && !WithinBound(Lookup(SettleOk(c, 0), Key(1), "v").0)
  {
    var d := SettleOk(c, 0);
    PileSlots(c, n);
    SettleKeepsInv(c, 0);
    assert d.slots == c.slots && d.slots[Key(1)] == 0;
    assert d.heap[0].state.Fulfilled? && d.heap[0].version == "v";
    forall k | k in d.slots ensures !Stale(d, "v", k) {
      assert c.heap[c.slots[k]].version == "v";
    }
    assert Survivors(d, "v") == d.slots.Keys;
    OrderCount(d);
    LookupBound(d, Key(1), "v");
  }

  /**
   * The cap as documented does not hold after every lookup: for any n beyond the cap, n fetches
   * of different keys are launched, the first one settles, and a lookup that joins its entry
   * leaves n entries, one of them settled.
   */
  lemma CapExceededOnHit(n: nat) returns (caches: seq<Cache>)
    requires n > 200
    ensures IsRun(caches) && |caches| == n + 2
    ensures Hit(caches[n + 1], Key(1), "v") && !WithinBound(Lookup(caches[n + 1], Key(1), "v").0)
  {
    PiledIsPile(n);
    RunSnoc(Piled(n), FetchOk(0));
    SettledPileOverflows(Piled(n)[n], n);
    caches := Piled(n) + [SettleOk(Piled(n)[n], 0)];
  }
}
