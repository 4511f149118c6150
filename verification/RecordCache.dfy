/**
 The budgeted record cache with least-recently-used eviction. The two-level map
 of the source (lobe, then LID) is one map keyed by the pair, beside the set of
 lobes that have an inner map; sequential runs only.
 */
module RecordCache {
  import opened FieldDictionary
  import opened Filters

  type Key = (U16, nat)
  type Size = Record -> nat

  datatype Cache = Cache(lobes: set<U16>, records: map<Key, Record>, clock: map<Key, nat>, counter: nat,
                         budget: nat, used: nat)

  function Empty(budget: nat): Cache {
    Cache({}, map[], map[], 0, budget, 0)
  }

  // ─── The operations on values ──────────────────────────────────────────────

  function Touched(c: Cache, k: Key): Cache {
    c.(clock := c.clock[k := c.counter + 1], counter := c.counter + 1)
  }

  /** `used.fetch_sub(size.min(used))`. */
  function Reduced(used: nat, size: nat): nat {
    if size < used then used - size else 0
  }

  function Dropped(sz: Size, c: Cache, k: Key): Cache
    requires k in c.records
  {
    c.(records := c.records - {k}, clock := c.clock - {k}, used := Reduced(c.used, sz(c.records[k])))
  }

  /** The eviction loop over keys in the given order. */
  function EvictRun(sz: Size, c: Cache, order: seq<Key>, target: nat, freed: nat): (Cache, nat)
    decreases |order|
  {
    if order == [] || freed >= target then (c, freed)
    else if order[0] !in c.records then EvictRun(sz, c, order[1..], target, freed)
    else EvictRun(sz, Dropped(sz, c, order[0]), order[1..], target, freed + sz(c.records[order[0]]))
  }

  function EvictLru(sz: Size, c: Cache, order: seq<Key>, target: nat): (Cache, nat) {
    EvictRun(sz, c, order, target, 0)
  }

  function BatchSize(sz: Size, batch: seq<Record>): nat {
    if batch == [] then 0 else BatchSize(sz, batch[..|batch| - 1]) + sz(batch[|batch| - 1])
  }

  function Inserted(c: Cache, lobe: U16, r: Record): Cache {
    Touched(c.(records := c.records[(lobe, r.lid) := r]), (lobe, r.lid))
  }

  function InsertAll(c: Cache, lobe: U16, batch: seq<Record>): Cache {
    if batch == [] then c else Inserted(InsertAll(c, lobe, batch[..|batch| - 1]), lobe, batch[|batch| - 1])
  }

  /** Evict when `need` more bytes would exceed the budget. */
  function MakeRoom(sz: Size, c: Cache, order: seq<Key>, need: nat): Cache {
    if c.used + need > c.budget then EvictLru(sz, c, order, c.used + need - c.budget).0 else c
  }

  /** `load_records`: make room if needed, then insert and account for the batch. */
  function Loaded(sz: Size, c: Cache, order: seq<Key>, lobe: U16, batch: seq<Record>): (Cache, bool) {
    var need := BatchSize(sz, batch);
    if need > c.budget then (c, false)
    else
      var room := MakeRoom(sz, c, order, need);
      if room.used + need > room.budget then (room, false)
      else
        var filled := InsertAll(room.(lobes := room.lobes + {lobe}), lobe, batch);
        (filled.(used := filled.used + need), true)
  }

  function Got(c: Cache, k: Key): Cache {
    if k in c.records then Touched(c, k) else c
  }

  function TouchAll(c: Cache, lobe: U16, hits: seq<nat>): Cache {
    if hits == [] then c else Touched(TouchAll(c, lobe, hits[..|hits| - 1]), (lobe, hits[|hits| - 1]))
  }

  function Updated(c: Cache, lobe: U16, r: Record): Cache {
    if lobe in c.lobes then Inserted(c, lobe, r) else c
  }

  function Invalidated(sz: Size, c: Cache, k: Key): Cache {
    if k in c.records then Dropped(sz, c, k) else c
  }

  /** The records of one lobe. */
  function OfLobe(m: map<Key, Record>, lobe: U16): map<Key, Record> {
    map k | k in m && k.0 == lobe :: m[k]
  }

  ghost function LobeEvicted(sz: Size, c: Cache, lobe: U16): Cache {
    if lobe !in c.lobes then c
    else Cache(c.lobes - {lobe}, map k | k in c.records && k.0 != lobe :: c.records[k],
               map k | k in c.clock && k.0 != lobe :: c.clock[k], c.counter, c.budget,
               Reduced(c.used, Total(sz, OfLobe(c.records, lobe))))
  }

  // ─── Sizes ─────────────────────────────────────────────────────────────────

  ghost function Total(sz: Size, m: map<Key, Record>): nat
    decreases |m|
  {
    if m == map[] then 0 else var k :| k in m; sz(m[k]) + Total(sz, m - {k})
  }

  lemma {:induction false} TotalWithout(sz: Size, m: map<Key, Record>, k: Key)
    requires k in m
    ensures Total(sz, m) == sz(m[k]) + Total(sz, m - {k})
    decreases |m|
  {
    var j :| j in m && Total(sz, m) == sz(m[j]) + Total(sz, m - {j});
    if j != k {
      TotalWithout(sz, m - {j}, k);
      TotalWithout(sz, m - {k}, j);
      assert m - {j} - {k} == m - {k} - {j};
    }
  }

  lemma TotalWith(sz: Size, m: map<Key, Record>, k: Key, r: Record)
    ensures Total(sz, m[k := r]) == sz(r) + Total(sz, m - {k})
  {
    TotalWithout(sz, m[k := r], k);
    assert m[k := r] - {k} == m - {k};
  }

  // ─── Invariants ────────────────────────────────────────────────────────────

  /** What every operation keeps. */
  predicate Good(c: Cache) {
    && c.used <= c.budget
    && c.clock.Keys == c.records.Keys
    && (forall k | k in c.clock :: c.clock[k] <= c.counter)
    && (forall j, k | j in c.clock && k in c.clock && j != k :: c.clock[j] != c.clock[k])
    && (forall k | k in c.records :: k.0 in c.lobes)
  }

  /** The bytes on the books are the bytes held. */
  ghost predicate Balanced(sz: Size, c: Cache) {
    c.used == Total(sz, c.records)
  }

  /** The cached keys from the least to the most recently used. */
  predicate ByClock(c: Cache, order: seq<Key>) {
    && (forall i | 0 <= i < |order| :: order[i] in c.clock)
    && (forall k | k in c.clock :: k in order)
    && (forall i, j | 0 <= i < j < |order| :: c.clock[order[i]] < c.clock[order[j]])
  }

  lemma TouchKeeps(c: Cache, k: Key)
    requires Good(c.(clock := c.clock - {k}, records := c.records - {k})) && k in c.records && k.0 in c.lobes
    ensures Good(Touched(c, k))
  {
    var rest := c.clock - {k};
    assert forall j | j in c.clock && j != k :: j in rest;
    assert Touched(c, k).clock.Keys == rest.Keys + {k} && c.records.Keys == (c.records - {k}).Keys + {k};
  }

  lemma GoodWithout(c: Cache, k: Key)
    requires Good(c)
    ensures Good(c.(clock := c.clock - {k}, records := c.records - {k}))
  {
  }

  lemma DropKeeps(sz: Size, c: Cache, k: Key)
    requires Good(c) && k in c.records
    ensures Good(Dropped(sz, c, k))
    ensures Balanced(sz, c) ==> Balanced(sz, Dropped(sz, c, k))
  {
    TotalWithout(sz, c.records, k);
  }

  lemma InsertKeeps(c: Cache, lobe: U16, r: Record)
    requires Good(c) && lobe in c.lobes
    ensures Good(Inserted(c, lobe, r)) && Inserted(c, lobe, r).lobes == c.lobes
  {
    var k := (lobe, r.lid);
    GoodWithout(c, k);
    var d := c.(records := c.records[k := r]);
    assert d.(clock := d.clock - {k}, records := d.records - {k})
      == c.(clock := c.clock - {k}, records := c.records - {k});
    TouchKeeps(d, k);
  }

  lemma {:induction false} InsertAllKeeps(c: Cache, lobe: U16, batch: seq<Record>)
    requires Good(c) && lobe in c.lobes
    ensures var d := InsertAll(c, lobe, batch);
            Good(d) && d.lobes == c.lobes && d.budget == c.budget && d.used == c.used
  {
    if batch != [] {
      InsertAllKeeps(c, lobe, batch[..|batch| - 1]);
      InsertKeeps(InsertAll(c, lobe, batch[..|batch| - 1]), lobe, batch[|batch| - 1]);
    }
  }

  lemma {:induction false} EvictKeeps(sz: Size, c: Cache, order: seq<Key>, target: nat, freed: nat)
    requires Good(c)
    ensures var d := EvictRun(sz, c, order, target, freed).0;
            Good(d) && d.budget == c.budget && d.lobes == c.lobes && d.used <= c.used
    ensures Balanced(sz, c) ==> Balanced(sz, EvictRun(sz, c, order, target, freed).0)
    decreases |order|
  {
    if order != [] && freed < target {
      if order[0] in c.records {
        DropKeeps(sz, c, order[0]);
        EvictKeeps(sz, Dropped(sz, c, order[0]), order[1..], target, freed + sz(c.records[order[0]]));
      } else {
        EvictKeeps(sz, c, order[1..], target, freed);
      }
    }
  }

  lemma {:induction false} TouchAllKeeps(c: Cache, lobe: U16, hits: seq<nat>)
    requires Good(c) && forall i | 0 <= i < |hits| :: (lobe, hits[i]) in c.records
    ensures var d := TouchAll(c, lobe, hits);
            Good(d) && d.records == c.records && d.lobes == c.lobes && d.used == c.used && d.budget == c.budget
  {
    if hits != [] {
      var front, k := hits[..|hits| - 1], (lobe, hits[|hits| - 1]);
      TouchAllKeeps(c, lobe, front);
      GoodWithout(TouchAll(c, lobe, front), k);
      TouchKeeps(TouchAll(c, lobe, front), k);
    }
  }

  lemma LobeEvictedKeeps(sz: Size, c: Cache, lobe: U16)
    requires Good(c)
    ensures Good(LobeEvicted(sz, c, lobe))
  {
    var d := LobeEvicted(sz, c, lobe);
    if lobe in c.lobes {
      assert d.clock.Keys == (set k | k in c.clock && k.0 != lobe);
      assert d.records.Keys == (set k | k in c.records && k.0 != lobe);
    }
  }

  // ─── Eviction ──────────────────────────────────────────────────────────────

  /** The bytes held by the first `k` keys of the order. */
  function FrontSize(sz: Size, m: map<Key, Record>, order: seq<Key>, k: nat): nat
    requires k <= |order| && forall i | 0 <= i < |order| :: order[i] in m
  {
    if k == 0 then 0 else FrontSize(sz, m, order, k - 1) + sz(m[order[k - 1]])
  }

  predicate DistinctKeys(order: seq<Key>) {
    forall i, j | 0 <= i < j < |order| :: order[i] != order[j]
  }

  function Removed(m: map<Key, Record>, gone: seq<Key>): map<Key, Record> {
    map k | k in m && k !in gone :: m[k]
  }

  lemma RemoveNext(m: map<Key, Record>, order: seq<Key>, i: nat)
    requires i < |order| && DistinctKeys(order) && order[i] in m
    ensures order[i] in Removed(m, order[..i])
    ensures Removed(m, order[..i]) - {order[i]} == Removed(m, order[..i + 1])
  {
    assert order[..i + 1] == order[..i] + [order[i]];
  }

  /** The loop from position `i` on. */
  lemma {:induction false} EvictFrom(sz: Size, all: map<Key, Record>, c: Cache, order: seq<Key>, i: nat, target: nat)
    returns (m: nat)
    requires DistinctKeys(order) && i <= |order| && forall k | 0 <= k < |order| :: order[k] in all
    requires c.records == Removed(all, order[..i]) && forall j | 0 <= j < i :: FrontSize(sz, all, order, j) < target
    ensures i <= m <= |order| && forall j | 0 <= j < m :: FrontSize(sz, all, order, j) < target
    ensures var (d, freed) := EvictRun(sz, c, order[i..], target, FrontSize(sz, all, order, i));
            && d.records == Removed(all, order[..m]) && freed == FrontSize(sz, all, order, m)
            && (freed >= target || m == |order|)
    decreases |order| - i
  {
    if i == |order| || FrontSize(sz, all, order, i) >= target {
      m := i;
    } else {
      RemoveNext(all, order, i);
      assert order[i..][0] == order[i] && order[i..][1..] == order[i + 1..];
      m := EvictFrom(sz, all, Dropped(sz, c, order[i]), order, i + 1, target);
    }
  }

  lemma ByClockDistinct(c: Cache, order: seq<Key>)
    requires ByClock(c, order)
    ensures DistinctKeys(order)
  {
  }

  /**
   Eviction removes exactly the shortest least-recently-used prefix that frees the
   request, or everything: what goes was used before all that stays.
   */
  lemma EvictsShortestPrefix(sz: Size, c: Cache, order: seq<Key>, target: nat) returns (m: nat)
    requires Good(c) && ByClock(c, order)
    ensures m <= |order| && forall i | 0 <= i < |order| :: order[i] in c.records
    ensures var (d, freed) := EvictLru(sz, c, order, target);
            && d.records == Removed(c.records, order[..m]) && freed == FrontSize(sz, c.records, order, m)
            && (freed >= target || d.records == map[])
            && (forall j | 0 <= j < m :: FrontSize(sz, c.records, order, j) < target)
            && (forall gone, kept | gone in c.records && gone !in d.records && kept in d.records ::
                  c.clock[gone] < c.clock[kept])
  {
    ByClockDistinct(c, order);
    assert Removed(c.records, order[..0]) == c.records;
    assert order[0..] == order;
    m := EvictFrom(sz, c.records, c, order, 0, target);
    if m == |order| {
      assert order[..m] == order;
      assert Removed(c.records, order) == map[];
    }
    OlderGo(c, order, m);
  }

  lemma EvictFreesOrEmpties(sz: Size, c: Cache, order: seq<Key>, target: nat)
    requires Good(c) && ByClock(c, order)
    ensures var (d, freed) := EvictLru(sz, c, order, target); freed >= target || d.records == map[]
  {
    var m := EvictsShortestPrefix(sz, c, order, target);
  }

  lemma OlderGo(c: Cache, order: seq<Key>, m: nat)
    requires Good(c) && ByClock(c, order) && m <= |order|
    ensures var d := Removed(c.records, order[..m]);
            forall gone, kept | gone in c.records && gone !in d && kept in d :: c.clock[gone] < c.clock[kept]
  {
    var d := Removed(c.records, order[..m]);
    forall gone, kept | gone in c.records && gone !in d && kept in d ensures c.clock[gone] < c.clock[kept] {
      assert gone in order[..m] && kept !in order[..m] && kept in order;
      var i :| 0 <= i < m && order[i] == gone;
      var j :| 0 <= j < |order| && order[j] == kept;
      assert j >= m;
    }
  }

  // ─── Loading ───────────────────────────────────────────────────────────────

  /** The bytes of cached or repeated records a batch writes over without giving them back. */
  function Overwritten(sz: Size, c: Cache, lobe: U16, batch: seq<Record>): nat {
    if batch == [] then 0
    else
      var front, r := batch[..|batch| - 1], batch[|batch| - 1];
      var before := InsertAll(c, lobe, front).records;
      Overwritten(sz, c, lobe, front) + (if (lobe, r.lid) in before then sz(before[(lobe, r.lid)]) else 0)
  }

  /** Inserting a batch adds its size, less what it writes over. */
  lemma {:induction false} InsertAllTotal(sz: Size, c: Cache, lobe: U16, batch: seq<Record>)
    ensures Total(sz, InsertAll(c, lobe, batch).records) + Overwritten(sz, c, lobe, batch)
            == Total(sz, c.records) + BatchSize(sz, batch)
  {
    if batch != [] {
      var front, r := batch[..|batch| - 1], batch[|batch| - 1];
      InsertAllTotal(sz, c, lobe, front);
      var before, k := InsertAll(c, lobe, front).records, (lobe, r.lid);
      TotalWith(sz, before, k, r);
      if k in before {
        TotalWithout(sz, before, k);
      } else {
        assert before - {k} == before;
      }
    }
  }

  /** Distinct LIDs, none of them cached. */
  predicate AllNew(c: Cache, lobe: U16, batch: seq<Record>) {
    && (forall i | 0 <= i < |batch| :: (lobe, batch[i].lid) !in c.records)
    && (forall i, j | 0 <= i < j < |batch| :: batch[i].lid != batch[j].lid)
  }

  lemma {:induction false} InsertAllKeys(c: Cache, lobe: U16, batch: seq<Record>, k: Key)
    ensures k in InsertAll(c, lobe, batch).records
            <==> k in c.records || exists i | 0 <= i < |batch| :: (lobe, batch[i].lid) == k
  {
    if batch != [] {
      var front := batch[..|batch| - 1];
      InsertAllKeys(c, lobe, front, k);
      assert forall i | 0 <= i < |front| :: front[i] == batch[i];
    }
  }

  /** With records that take space, nothing is written over exactly when all are new. */
  lemma {:induction false} OverwritesNothingIff(sz: Size, c: Cache, lobe: U16, batch: seq<Record>)
    requires forall r: Record :: sz(r) > 0
    ensures Overwritten(sz, c, lobe, batch) == 0 <==> AllNew(c, lobe, batch)
  {
    if batch != [] {
      var front, r := batch[..|batch| - 1], batch[|batch| - 1];
      OverwritesNothingIff(sz, c, lobe, front);
      InsertAllKeys(c, lobe, front, (lobe, r.lid));
      AllNewFront(c, lobe, batch);
    }
  }

  lemma AllNewFront(c: Cache, lobe: U16, batch: seq<Record>)
    requires batch != []
    ensures var front, r := batch[..|batch| - 1], batch[|batch| - 1];
            AllNew(c, lobe, batch) <==>
            && AllNew(c, lobe, front) && (lobe, r.lid) !in c.records
            && forall i | 0 <= i < |front| :: front[i].lid != r.lid
  {
    var front, r := batch[..|batch| - 1], batch[|batch| - 1];
    assert batch == front + [r];
  }
}
