/** The record cache as the object whose methods update it in place. */
module LruCache {
  import opened Bytes
  import opened FieldDictionary
  import opened Filters
  import opened Ranking
  import opened RecordCache

  // ─── The clock snapshot ────────────────────────────────────────────────────

  function ClockAt(clock: map<Key, nat>, k: Key): nat {
    if k in clock then clock[k] else 0
  }

  function ClockOrder(clock: map<Key, nat>): Comparator<Key> {
    (a, b) => IntCmp(ClockAt(clock, a), ClockAt(clock, b))
  }

  lemma {:induction false} CountedOnce(a: seq<Key>, x: Key)
    requires DistinctKeys(a)
    ensures multiset(a)[x] <= 1
  {
    if a != [] {
      var front, last := a[..|a| - 1], a[|a| - 1];
      assert a == front + [last];
      CountedOnce(front, x);
      assert x == last ==> x !in front;
    }
  }

  lemma CountedTwice(b: seq<Key>, i: nat, j: nat)
    requires i < j < |b| && b[i] == b[j]
    ensures multiset(b)[b[i]] >= 2
  {
    assert b == b[..j] + ([b[j]] + b[j + 1..]);
    assert b[i] in b[..j];
  }

  lemma PermutedStaysDistinct(a: seq<Key>, b: seq<Key>)
    requires DistinctKeys(a) && multiset(a) == multiset(b)
    ensures DistinctKeys(b)
  {
    forall i, j | 0 <= i < j < |b| ensures b[i] != b[j] {
      CountedOnce(a, b[i]);
      if b[i] == b[j] { CountedTwice(b, i, j); }
    }
  }

  predicate ListsClock(c: Cache, listing: seq<Key>) {
    && DistinctKeys(listing)
    && (forall i | 0 <= i < |listing| :: listing[i] in c.clock)
    && (forall k | k in c.clock :: k in listing)
  }

  lemma ClockOrderIsTotal(clock: map<Key, nat>)
    ensures TotalPreorder(ClockOrder(clock))
  {
  }

  lemma SortedListing(c: Cache, listing: seq<Key>)
    requires ListsClock(c, listing)
    ensures ListsClock(c, SortBy(ClockOrder(c.clock), listing))
  {
    var order := SortBy(ClockOrder(c.clock), listing);
    SortPermutes(ClockOrder(c.clock), listing);
    PermutedStaysDistinct(listing, order);
    forall i | 0 <= i < |order| ensures order[i] in c.clock {
      assert order[i] in multiset(order);
    }
    forall k | k in c.clock ensures k in order {
      assert k in multiset(listing);
    }
  }

  /** Sorting any listing of the clock by clock value gives the eviction order. */
  lemma SnapshotSorted(c: Cache, listing: seq<Key>)
    requires Good(c) && ListsClock(c, listing)
    ensures ByClock(c, SortBy(ClockOrder(c.clock), listing))
  {
    var cmp := ClockOrder(c.clock);
    var order := SortBy(cmp, listing);
    ClockOrderIsTotal(c.clock);
    SortSorts(cmp, listing);
    SortedListing(c, listing);
    forall i, j | 0 <= i < j < |order| ensures c.clock[order[i]] < c.clock[order[j]] {
      assert cmp(order[i], order[j]) != Greater;
      assert order[i] != order[j];
    }
  }

  lemma {:induction false} SomeListing(keys: set<Key>) returns (listing: seq<Key>)
    ensures DistinctKeys(listing) && forall k :: k in listing <==> k in keys
  {
    listing := [];
    if keys != {} {
      var k :| k in keys;
      listing := SomeListing(keys - {k});
      listing := listing + [k];
    }
  }

  /** Every cache has an eviction order. */
  lemma SomeOrder(c: Cache) returns (order: seq<Key>)
    requires Good(c)
    ensures ByClock(c, order)
  {
    var listing := SomeListing(c.clock.Keys);
    SnapshotSorted(c, listing);
    order := SortBy(ClockOrder(c.clock), listing);
  }

  // ─── The object ────────────────────────────────────────────────────────────

  class LruCache {
    const sz: Size
    const budget: nat
    var lobes: set<U16>
    var records: map<Key, Record>
    var accessClock: map<Key, nat>
    var accessCounter: nat
    var usedBytes: nat

    function View(): Cache
      reads this
    {
      Cache(lobes, records, accessClock, accessCounter, budget, usedBytes)
    }

    constructor (sz: Size, budget: nat)
      ensures this.sz == sz && View() == Empty(budget)
    {
      this.sz, this.budget := sz, budget;
      lobes, records, accessClock, accessCounter, usedBytes := {}, map[], map[], 0, 0;
    }

    method Touch(k: Key)
      modifies this
      ensures View() == Touched(old(View()), k)
    {
      accessCounter := accessCounter + 1;
      accessClock := accessClock[k := accessCounter];
    }

    method Snapshot() returns (order: seq<Key>)
      requires Good(View())
      ensures ByClock(View(), order)
    {
      var listing: seq<Key> := [];
      var rest := accessClock.Keys;
      while rest != {}
        invariant rest <= accessClock.Keys && DistinctKeys(listing)
        invariant forall k :: k in listing <==> k in accessClock.Keys && k !in rest
        decreases |rest|
      {
        var k :| k in rest;
        listing := listing + [k];
        rest := rest - {k};
      }
      SnapshotSorted(View(), listing);
      order := SortBy(ClockOrder(accessClock), listing);
    }

    method Drop(k: Key) returns (size: nat)
      requires k in records
      modifies this
      ensures size == old(sz(records[k])) && View() == Dropped(sz, old(View()), k)
    {
      size := sz(records[k]);
      records := records - {k};
      usedBytes := Reduced(usedBytes, size);
      accessClock := accessClock - {k};
    }

    method EvictOldest(target: nat) returns (freed: nat, ghost order: seq<Key>)
      requires Good(View())
      modifies this
      ensures ByClock(old(View()), order) && (View(), freed) == EvictLru(sz, old(View()), order, target)
    {
      if target == 0 {
        order := SomeOrder(View());
        return 0, order;
      }
      var snapshot := Snapshot();
      order := snapshot;
      freed := EvictInOrder(snapshot, target);
    }

    method EvictInOrder(snapshot: seq<Key>, target: nat) returns (freed: nat)
      modifies this
      ensures (View(), freed) == EvictRun(sz, old(View()), snapshot, target, 0)
    {
      freed := 0;
      ghost var whole := EvictRun(sz, View(), snapshot, target, 0);
      assert snapshot[0..] == snapshot;
      for i := 0 to |snapshot|
        invariant whole == EvictRun(sz, View(), snapshot[i..], target, freed)
      {
        assert snapshot[i..][0] == snapshot[i] && snapshot[i..][1..] == snapshot[i + 1..];
        if freed >= target {
          return;
        }
        if snapshot[i] !in records {
          continue;
        }
        var size := Drop(snapshot[i]);
        freed := freed + size;
      }
    }

    method BatchBytes(batch: seq<Record>) returns (n: nat)
      ensures n == BatchSize(sz, batch)
    {
      n := 0;
      for i := 0 to |batch|
        invariant n == BatchSize(sz, batch[..i])
      {
        assert batch[..i + 1][..i] == batch[..i];
        n := n + sz(batch[i]);
      }
      assert batch[..|batch|] == batch;
    }

    method InsertBatch(lobe: U16, batch: seq<Record>)
      modifies this
      ensures View() == InsertAll(old(View()), lobe, batch)
    {
      for i := 0 to |batch|
        invariant View() == InsertAll(old(View()), lobe, batch[..i])
      {
        assert batch[..i + 1][..i] == batch[..i];
        var k := (lobe, batch[i].lid);
        records := records[k := batch[i]];
        Touch(k);
      }
      assert batch[..|batch|] == batch;
    }

    method LoadRecords(lobe: U16, batch: seq<Record>) returns (ok: bool, ghost order: seq<Key>)
      requires Good(View())
      modifies this
      ensures ByClock(old(View()), order) && (View(), ok) == Loaded(sz, old(View()), order, lobe, batch)
    {
      order := SomeOrder(View());
      var estimated := BatchBytes(batch);
      if estimated > budget {
        return false, order;
      }
      if usedBytes + estimated > budget {
        var freed;
        freed, order := EvictOldest(usedBytes + estimated - budget);
        if usedBytes + estimated > budget {
          return false, order;
        }
      }
      lobes := lobes + {lobe};
      InsertBatch(lobe, batch);
      usedBytes := usedBytes + estimated;
      ok := true;
    }

    method Get(lobe: U16, lid: nat) returns (r: Option<Record>)
      modifies this
      ensures View() == Got(old(View()), (lobe, lid))
      ensures r == if (lobe, lid) in old(records) then Some(old(records)[(lobe, lid)]) else None
    {
      var k := (lobe, lid);
      if k !in records {
        return None;
      }
      r := Some(records[k]);
      Touch(k);
    }

    method UpdateRecord(lobe: U16, r: Record)
      modifies this
      ensures View() == Updated(old(View()), lobe, r)
    {
      if lobe in lobes {
        records := records[(lobe, r.lid) := r];
        Touch((lobe, r.lid));
      }
    }

    method InvalidateRecord(lobe: U16, lid: nat)
      modifies this
      ensures View() == Invalidated(sz, old(View()), (lobe, lid))
    {
      if (lobe, lid) in records {
        var _ := Drop((lobe, lid));
      }
    }

    method LobeBytes(m: map<Key, Record>) returns (n: nat)
      ensures n == Total(sz, m)
    {
      n := 0;
      var rest := m;
      while rest != map[]
        invariant n + Total(sz, rest) == Total(sz, m)
        decreases |rest|
      {
        var k :| k in rest;
        TotalWithout(sz, rest, k);
        n := n + sz(rest[k]);
        rest := rest - {k};
      }
    }

    method EvictLobe(lobe: U16)
      modifies this
      ensures View() == LobeEvicted(sz, old(View()), lobe)
    {
      if lobe in lobes {
        lobes := lobes - {lobe};
        var freed := LobeBytes(OfLobe(records, lobe));
        records := map k | k in records && k.0 != lobe :: records[k];
        usedBytes := Reduced(usedBytes, freed);
        accessClock := map k | k in accessClock && k.0 != lobe :: accessClock[k];
      }
    }

    /** The records of one lobe that pass the filter; each of them counts as used. */
    method ScanLobe(lobe: U16, filter: Record -> bool) returns (out: seq<Record>, ghost hits: seq<nat>)
      modifies this
      ensures |out| == |hits| && View() == TouchAll(old(View()), lobe, hits)
      ensures forall i | 0 <= i < |hits| :: (lobe, hits[i]) in old(records) && out[i] == old(records)[(lobe, hits[i])]
      ensures forall k | k in old(records) && k.0 == lobe && filter(old(records)[k]) :: k.1 in hits
      ensures forall i | 0 <= i < |out| :: filter(out[i])
    {
      out, hits := [], [];
      var keys: seq<nat> := [];
      var rest := OfLobe(records, lobe).Keys;
      while rest != {}
        invariant rest <= OfLobe(records, lobe).Keys && View() == old(View()) && |out| == |keys|
        invariant forall i | 0 <= i < |keys| ::
                    (lobe, keys[i]) in records && out[i] == records[(lobe, keys[i])] && filter(out[i])
        invariant forall k | k in records && k.0 == lobe && filter(records[k]) && k !in rest :: k.1 in keys
        decreases |rest|
      {
        var k :| k in rest;
        rest := rest - {k};
        if filter(records[k]) {
          out, keys := out + [records[k]], keys + [k.1];
        }
      }
      hits := keys;
      for i := 0 to |keys|
        invariant View() == TouchAll(old(View()), lobe, keys[..i])
      {
        assert keys[..i + 1][..i] == keys[..i];
        Touch((lobe, keys[i]));
      }
      assert keys[..|keys|] == keys;
    }
  }
}
