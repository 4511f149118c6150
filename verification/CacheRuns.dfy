/** Sequential runs of the record cache: what every run keeps and what clean runs account for. */
module CacheRuns {
  import opened Bytes
  import opened FieldDictionary
  import opened Filters
  import opened RecordCache

  // ─── Loading ───────────────────────────────────────────────────────────────

  /** The cache a batch is inserted into, after making room. */
  function Room(sz: Size, c: Cache, order: seq<Key>, lobe: U16, batch: seq<Record>): Cache {
    var room := MakeRoom(sz, c, order, BatchSize(sz, batch));
    room.(lobes := room.lobes + {lobe})
  }

  lemma MakeRoomKeeps(sz: Size, c: Cache, order: seq<Key>, need: nat)
    requires Good(c)
    ensures var room := MakeRoom(sz, c, order, need);
            Good(room) && room.budget == c.budget && (Balanced(sz, c) ==> Balanced(sz, room))
  {
    if c.used + need > c.budget { EvictKeeps(sz, c, order, c.used + need - c.budget, 0); }
  }

  lemma RoomKeeps(sz: Size, c: Cache, order: seq<Key>, lobe: U16, batch: seq<Record>)
    requires Good(c)
    ensures var room := Room(sz, c, order, lobe, batch);
            Good(room) && room.budget == c.budget && lobe in room.lobes && (Balanced(sz, c) ==> Balanced(sz, room))
  {
    MakeRoomKeeps(sz, c, order, BatchSize(sz, batch));
  }

  lemma LoadKeeps(sz: Size, c: Cache, order: seq<Key>, lobe: U16, batch: seq<Record>)
    requires Good(c)
    ensures Good(Loaded(sz, c, order, lobe, batch).0)
  {
    MakeRoomKeeps(sz, c, order, BatchSize(sz, batch));
    RoomKeeps(sz, c, order, lobe, batch);
    InsertAllKeeps(Room(sz, c, order, lobe, batch), lobe, batch);
  }

  /** A successful load keeps the books exactly when every record of the batch was new at insertion. */
  lemma LoadBalancesIff(sz: Size, c: Cache, order: seq<Key>, lobe: U16, batch: seq<Record>)
    requires Good(c) && Balanced(sz, c) && Loaded(sz, c, order, lobe, batch).1 && forall r: Record :: sz(r) > 0
    ensures Balanced(sz, Loaded(sz, c, order, lobe, batch).0) <==> AllNew(Room(sz, c, order, lobe, batch), lobe, batch)
  {
    var room := Room(sz, c, order, lobe, batch);
    RoomKeeps(sz, c, order, lobe, batch);
    InsertAllKeeps(room, lobe, batch);
    InsertAllTotal(sz, room, lobe, batch);
    OverwritesNothingIff(sz, room, lobe, batch);
  }

  lemma {:induction false} EvictShrinks(sz: Size, c: Cache, order: seq<Key>, target: nat, freed: nat)
    ensures EvictRun(sz, c, order, target, freed).0.records.Keys <= c.records.Keys
    decreases |order|
  {
    if order != [] && freed < target {
      if order[0] in c.records {
        EvictShrinks(sz, Dropped(sz, c, order[0]), order[1..], target, freed + sz(c.records[order[0]]));
      } else {
        EvictShrinks(sz, c, order[1..], target, freed);
      }
    }
  }

  lemma NewStaysNew(sz: Size, c: Cache, order: seq<Key>, lobe: U16, batch: seq<Record>)
    requires AllNew(c, lobe, batch)
    ensures AllNew(Room(sz, c, order, lobe, batch), lobe, batch)
  {
    var need := BatchSize(sz, batch);
    if c.used + need > c.budget { EvictShrinks(sz, c, order, c.used + need - c.budget, 0); }
  }

  lemma AllNewOverwritesNothing(sz: Size, c: Cache, lobe: U16, batch: seq<Record>)
    requires AllNew(c, lobe, batch)
    ensures Overwritten(sz, c, lobe, batch) == 0
  {
    if batch != [] {
      var front, r := batch[..|batch| - 1], batch[|batch| - 1];
      AllNewFront(c, lobe, batch);
      AllNewOverwritesNothing(sz, c, lobe, front);
      InsertAllKeys(c, lobe, front, (lobe, r.lid));
    }
  }

  lemma NewLoadBalances(sz: Size, c: Cache, order: seq<Key>, lobe: U16, batch: seq<Record>)
    requires Good(c) && Balanced(sz, c)
    requires Loaded(sz, c, order, lobe, batch).1 ==> AllNew(Room(sz, c, order, lobe, batch), lobe, batch)
    ensures Balanced(sz, Loaded(sz, c, order, lobe, batch).0)
  {
    var room := Room(sz, c, order, lobe, batch);
    MakeRoomKeeps(sz, c, order, BatchSize(sz, batch));
    RoomKeeps(sz, c, order, lobe, batch);
    if Loaded(sz, c, order, lobe, batch).1 {
      AllNewOverwritesNothing(sz, room, lobe, batch);
      InsertAllKeeps(room, lobe, batch);
      InsertAllTotal(sz, room, lobe, batch);
    }
  }

  /** With balanced books eviction frees what it reports. */
  lemma {:induction false} EvictAccounts(sz: Size, c: Cache, order: seq<Key>, target: nat, freed: nat)
    requires Good(c) && Balanced(sz, c)
    ensures var (d, out) := EvictRun(sz, c, order, target, freed); out >= freed && d.used + out == c.used + freed
    decreases |order|
  {
    if order != [] && freed < target {
      if order[0] in c.records {
        DropKeeps(sz, c, order[0]);
        TotalWithout(sz, c.records, order[0]);
        EvictAccounts(sz, Dropped(sz, c, order[0]), order[1..], target, freed + sz(c.records[order[0]]));
      } else {
        EvictAccounts(sz, c, order[1..], target, freed);
      }
    }
  }

  lemma RoomFits(sz: Size, c: Cache, order: seq<Key>, need: nat)
    requires Good(c) && Balanced(sz, c) && ByClock(c, order) && need <= c.budget
    ensures MakeRoom(sz, c, order, need).used + need <= c.budget
  {
    if c.used + need > c.budget {
      var target := c.used + need - c.budget;
      EvictFreesOrEmpties(sz, c, order, target);
      EvictKeeps(sz, c, order, target, 0);
      EvictAccounts(sz, c, order, target, 0);
    }
  }

  /** With balanced books any batch within the total budget loads. */
  lemma BatchWithinBudgetLoads(sz: Size, c: Cache, order: seq<Key>, lobe: U16, batch: seq<Record>)
    requires Good(c) && Balanced(sz, c) && ByClock(c, order)
    ensures Loaded(sz, c, order, lobe, batch).1 <==> BatchSize(sz, batch) <= c.budget
  {
    var need := BatchSize(sz, batch);
    if need <= c.budget {
      RoomFits(sz, c, order, need);
      MakeRoomKeeps(sz, c, order, need);
    }
  }

  // ─── Evicting a lobe ───────────────────────────────────────────────────────

  function OtherLobes(m: map<Key, Record>, lobe: U16): map<Key, Record> {
    map k | k in m && k.0 != lobe :: m[k]
  }

  lemma {:induction false} TotalPartition(sz: Size, m: map<Key, Record>, lobe: U16)
    ensures Total(sz, m) == Total(sz, OfLobe(m, lobe)) + Total(sz, OtherLobes(m, lobe))
    decreases |m|
  {
    if m == map[] {
      assert OfLobe(m, lobe) == map[] && OtherLobes(m, lobe) == map[];
    } else {
      var k :| k in m;
      TotalPartition(sz, m - {k}, lobe);
      TotalWithout(sz, m, k);
      if k.0 == lobe {
        TotalWithout(sz, OfLobe(m, lobe), k);
        assert OfLobe(m, lobe) - {k} == OfLobe(m - {k}, lobe) && OtherLobes(m - {k}, lobe) == OtherLobes(m, lobe);
      } else {
        TotalWithout(sz, OtherLobes(m, lobe), k);
        assert OtherLobes(m, lobe) - {k} == OtherLobes(m - {k}, lobe) && OfLobe(m - {k}, lobe) == OfLobe(m, lobe);
      }
    }
  }

  lemma LobeEvictedBalances(sz: Size, c: Cache, lobe: U16)
    requires Good(c) && Balanced(sz, c)
    ensures Balanced(sz, LobeEvicted(sz, c, lobe))
  {
    TotalPartition(sz, c.records, lobe);
    if lobe in c.lobes {
      assert LobeEvicted(sz, c, lobe).records == OtherLobes(c.records, lobe);
    }
  }

  // ─── Runs ──────────────────────────────────────────────────────────────────

  datatype Op =
    | Load(lobe: U16, batch: seq<Record>)
    | Get(lobe: U16, lid: nat)
    | ScanLobe(lobe: U16, hits: seq<nat>)
    | Update(lobe: U16, r: Record)
    | Invalidate(lobe: U16, lid: nat)
    | EvictLobe(lobe: U16)
    | Evict(target: nat)

  /** An operation, with the eviction order its clock snapshot gives. */
  datatype Step = Step(op: Op, order: seq<Key>)

  predicate Possible(c: Cache, s: Step) {
    && ByClock(c, s.order)
    && (s.op.ScanLobe? ==> forall i | 0 <= i < |s.op.hits| :: (s.op.lobe, s.op.hits[i]) in c.records)
  }

  ghost function After(sz: Size, c: Cache, s: Step): Cache {
    match s.op
    case Load(lobe, batch) => Loaded(sz, c, s.order, lobe, batch).0
    case Get(lobe, lid) => Got(c, (lobe, lid))
    case ScanLobe(lobe, hits) => TouchAll(c, lobe, hits)
    case Update(lobe, r) => Updated(c, lobe, r)
    case Invalidate(lobe, lid) => Invalidated(sz, c, (lobe, lid))
    case EvictLobe(lobe) => LobeEvicted(sz, c, lobe)
    case Evict(target) => EvictLru(sz, c, s.order, target).0
  }

  ghost function Run(sz: Size, budget: nat, steps: seq<Step>): Option<Cache> {
    if steps == [] then Some(Empty(budget))
    else match Run(sz, budget, steps[..|steps| - 1])
      case Some(c) => if Possible(c, steps[|steps| - 1]) then Some(After(sz, c, steps[|steps| - 1])) else None
      case None => None
  }

  lemma StepKeeps(sz: Size, c: Cache, s: Step)
    requires Good(c) && Possible(c, s)
    ensures Good(After(sz, c, s))
  {
    match s.op
    case Load(lobe, batch) => LoadKeeps(sz, c, s.order, lobe, batch);
    case Get(lobe, lid) =>
      if (lobe, lid) in c.records {
        GoodWithout(c, (lobe, lid));
        TouchKeeps(c, (lobe, lid));
      }
    case ScanLobe(lobe, hits) => TouchAllKeeps(c, lobe, hits);
    case Update(lobe, r) => if lobe in c.lobes { InsertKeeps(c, lobe, r); }
    case Invalidate(lobe, lid) => if (lobe, lid) in c.records { DropKeeps(sz, c, (lobe, lid)); }
    case EvictLobe(lobe) => LobeEvictedKeeps(sz, c, lobe);
    case Evict(target) => EvictKeeps(sz, c, s.order, target, 0);
  }

  /** In every run the books stay within the budget and the clock holds exactly the cached keys. */
  lemma {:induction false} EveryRunIsGood(sz: Size, budget: nat, steps: seq<Step>)
    requires Run(sz, budget, steps).Some?
    ensures Good(Run(sz, budget, steps).value)
  {
    if steps != [] {
      EveryRunIsGood(sz, budget, steps[..|steps| - 1]);
      StepKeeps(sz, Run(sz, budget, steps[..|steps| - 1]).value, steps[|steps| - 1]);
    }
  }

  /** Writing through keeps the books: the lobe is not cached, or a record of the same size is replaced. */
  predicate SafeUpdate(sz: Size, c: Cache, lobe: U16, r: Record) {
    lobe !in c.lobes || ((lobe, r.lid) in c.records && sz(c.records[(lobe, r.lid)]) == sz(r))
  }

  lemma SafeUpdateBalances(sz: Size, c: Cache, lobe: U16, r: Record)
    requires Balanced(sz, c) && SafeUpdate(sz, c, lobe, r)
    ensures Balanced(sz, Updated(c, lobe, r))
  {
    var k := (lobe, r.lid);
    TotalWith(sz, c.records, k, r);
    if k in c.records { TotalWithout(sz, c.records, k); }
  }

  /** Writing a record through keeps balanced books exactly when it is safe. */
  lemma UpdateBalancesIff(sz: Size, c: Cache, lobe: U16, r: Record)
    requires Balanced(sz, c) && sz(r) > 0
    ensures Balanced(sz, Updated(c, lobe, r)) <==> SafeUpdate(sz, c, lobe, r)
  {
    var k := (lobe, r.lid);
    TotalWith(sz, c.records, k, r);
    if k in c.records {
      TotalWithout(sz, c.records, k);
    } else {
      assert c.records - {k} == c.records;
    }
  }

  /** A load brings only records that are new when inserted, and a write-through is safe. */
  predicate CleanStep(sz: Size, c: Cache, s: Step) {
    match s.op
    case Load(lobe, batch) =>
      Loaded(sz, c, s.order, lobe, batch).1 ==> AllNew(Room(sz, c, s.order, lobe, batch), lobe, batch)
    case Update(lobe, r) => SafeUpdate(sz, c, lobe, r)
    case _ => true
  }

  ghost predicate CleanAt(sz: Size, budget: nat, steps: seq<Step>, i: nat)
    requires i < |steps|
  {
    var before := Run(sz, budget, steps[..i]);
    before.Some? ==> CleanStep(sz, before.value, steps[i])
  }

  ghost predicate CleanRun(sz: Size, budget: nat, steps: seq<Step>) {
    forall i | 0 <= i < |steps| :: CleanAt(sz, budget, steps, i)
  }

  lemma CleanStepBalances(sz: Size, c: Cache, s: Step)
    requires Good(c) && Balanced(sz, c) && Possible(c, s) && CleanStep(sz, c, s)
    ensures Balanced(sz, After(sz, c, s))
  {
    match s.op
    case Load(lobe, batch) => NewLoadBalances(sz, c, s.order, lobe, batch);
    case Get(lobe, lid) =>
    case ScanLobe(lobe, hits) => TouchAllKeeps(c, lobe, hits);
    case Update(lobe, r) => SafeUpdateBalances(sz, c, lobe, r);
    case Invalidate(lobe, lid) => if (lobe, lid) in c.records { DropKeeps(sz, c, (lobe, lid)); }
    case EvictLobe(lobe) => LobeEvictedBalances(sz, c, lobe);
    case Evict(target) => EvictKeeps(sz, c, s.order, target, 0);
  }

  /** From balanced books, a step keeps them balanced exactly when it is clean. */
  lemma StepBalancesIff(sz: Size, c: Cache, s: Step)
    requires Good(c) && Balanced(sz, c) && Possible(c, s) && forall r: Record :: sz(r) > 0
    ensures Balanced(sz, After(sz, c, s)) <==> CleanStep(sz, c, s)
  {
    if CleanStep(sz, c, s) {
      CleanStepBalances(sz, c, s);
    } else if s.op.Load? {
      LoadBalancesIff(sz, c, s.order, s.op.lobe, s.op.batch);
    } else {
      UpdateBalancesIff(sz, c, s.op.lobe, s.op.r);
    }
  }

  lemma {:induction false} CleanPrefix(sz: Size, budget: nat, steps: seq<Step>, n: nat)
    requires CleanRun(sz, budget, steps) && n <= |steps|
    ensures CleanRun(sz, budget, steps[..n])
  {
    forall i | 0 <= i < n ensures CleanAt(sz, budget, steps[..n], i) {
      assert steps[..n][..i] == steps[..i];
      assert CleanAt(sz, budget, steps, i);
    }
  }

  /** In every clean run the bytes on the books are exactly the bytes held. */
  lemma {:induction false} EveryCleanRunIsBalanced(sz: Size, budget: nat, steps: seq<Step>)
    requires Run(sz, budget, steps).Some? && CleanRun(sz, budget, steps)
    ensures Balanced(sz, Run(sz, budget, steps).value)
  {
    if steps != [] {
      var n := |steps| - 1;
      CleanPrefix(sz, budget, steps, n);
      EveryCleanRunIsBalanced(sz, budget, steps[..n]);
      EveryRunIsGood(sz, budget, steps[..n]);
      assert CleanAt(sz, budget, steps, n);
      CleanStepBalances(sz, Run(sz, budget, steps[..n]).value, steps[n]);
    }
  }

  ghost predicate BalancedAt(sz: Size, budget: nat, steps: seq<Step>, i: nat)
    requires i <= |steps|
  {
    var c := Run(sz, budget, steps[..i]);
    c.Some? ==> Balanced(sz, c.value)
  }

  /** The books are balanced at every point of the run. */
  ghost predicate AlwaysBalanced(sz: Size, budget: nat, steps: seq<Step>) {
    forall i | 0 <= i <= |steps| :: BalancedAt(sz, budget, steps, i)
  }

  lemma BalancedStepIsClean(sz: Size, budget: nat, steps: seq<Step>, i: nat)
    requires AlwaysBalanced(sz, budget, steps) && i < |steps| && Run(sz, budget, steps[..i + 1]).Some?
    requires forall r: Record :: sz(r) > 0
    ensures CleanAt(sz, budget, steps, i)
  {
    var more := steps[..i + 1];
    assert more[..i] == steps[..i] && more[i] == steps[i];
    assert BalancedAt(sz, budget, steps, i) && BalancedAt(sz, budget, steps, i + 1);
    EveryRunIsGood(sz, budget, steps[..i]);
    StepBalancesIff(sz, Run(sz, budget, steps[..i]).value, steps[i]);
  }

  lemma {:induction false} PrefixRuns(sz: Size, budget: nat, steps: seq<Step>, i: nat)
    requires Run(sz, budget, steps).Some? && i <= |steps|
    ensures Run(sz, budget, steps[..i]).Some?
    decreases |steps|
  {
    if i < |steps| {
      var front := steps[..|steps| - 1];
      PrefixRuns(sz, budget, front, i);
      assert front[..i] == steps[..i];
    } else {
      assert steps[..i] == steps;
    }
  }

  /**
   In every run, the bytes on the books are the bytes held at every point exactly
   when every load brings only new records and every write-through is safe.
   */
  lemma BalancedIffClean(sz: Size, budget: nat, steps: seq<Step>)
    requires Run(sz, budget, steps).Some? && forall r: Record :: sz(r) > 0
    ensures AlwaysBalanced(sz, budget, steps) <==> CleanRun(sz, budget, steps)
  {
    if AlwaysBalanced(sz, budget, steps) {
      forall i | 0 <= i < |steps| ensures CleanAt(sz, budget, steps, i) {
        PrefixRuns(sz, budget, steps, i + 1);
        BalancedStepIsClean(sz, budget, steps, i);
      }
    }
    if CleanRun(sz, budget, steps) {
      forall i | 0 <= i <= |steps| ensures BalancedAt(sz, budget, steps, i) {
        PrefixRuns(sz, budget, steps, i);
        CleanPrefix(sz, budget, steps, i);
        EveryCleanRunIsBalanced(sz, budget, steps[..i]);
      }
    }
  }

  /** Loading distinct uncached records is clean. */
  lemma NewLoadIsClean(sz: Size, c: Cache, s: Step)
    requires s.op.Load? && AllNew(c, s.op.lobe, s.op.batch)
    ensures CleanStep(sz, c, s)
  {
    NewStaysNew(sz, c, s.order, s.op.lobe, s.op.batch);
  }

  // ─── Why clean ─────────────────────────────────────────────────────────────

  lemma OneRecord(sz: Size, c: Cache, lobe: U16, r: Record)
    ensures BatchSize(sz, [r]) == sz(r) && InsertAll(c, lobe, [r]) == Inserted(c, lobe, r)
  {
    var one := [r];
    assert one[..0] == [];
    assert BatchSize(sz, one[..0]) == 0 && InsertAll(c, lobe, one[..0]) == c;
  }

  /**
   Loading the same record twice puts its bytes on the books twice; evicting it
   gives back only one share, and a batch that fits the budget is then refused.
   */
  lemma ReloadBlocksBatch(sz: Size, r: Record, other: Record)
    requires sz(r) == 10 && sz(other) == 20 && r.lid == 1
    ensures var once := Loaded(sz, Empty(20), [], 7, [r]).0;
            var twice := Loaded(sz, once, [(7, 1)], 7, [r]).0;
            && ByClock(once, [(7, 1)]) && ByClock(twice, [(7, 1)])
            && BatchSize(sz, [other]) <= twice.budget && !Loaded(sz, twice, [(7, 1)], 7, [other]).1
  {
    var k: Key := (7, 1);
    var once := OneLoaded(sz, r);
    OneRecord(sz, once, 7, other);
    var twice := Loaded(sz, once, [k], 7, [r]).0;
    OneRecord(sz, once, 7, r);
    assert once.lobes + {7} == once.lobes;
    assert twice == Cache({7}, map[k := r], map[k := 2], 2, 20, 20);
    var room := EvictLru(sz, twice, [k], 20).0;
    assert EvictRun(sz, Dropped(sz, twice, k), [k][1..], 20, 10).0 == Dropped(sz, twice, k);
    assert room.used == 10;
  }

  /**
   A put of a new record into a cached lobe is written through without being
   accounted for: three records of 10 bytes in a cache of 20 whose books say 10.
   */
  lemma WriteThroughOverfills(sz: Size, a: Record, b: Record, c: Record)
    requires sz(a) == sz(b) == sz(c) == 10 && a.lid == 1 && b.lid == 2 && c.lid == 3
    ensures var steps := [Step(Load(7, [a]), []), Step(Update(7, b), [(7, 1)]), Step(Update(7, c), [(7, 1), (7, 2)])];
            && Run(sz, 20, steps).Some?
            && var end := Run(sz, 20, steps).value;
               end.used == 10 && end.budget == 20 && Total(sz, end.records) == 30
  {
    var s1, s2, s3 := Step(Load(7, [a]), []), Step(Update(7, b), [(7, 1)]), Step(Update(7, c), [(7, 1), (7, 2)]);
    var one := OneLoaded(sz, a);
    RunStep(sz, 20, [], s1);
    assert [] + [s1] == [s1];
    assert Run(sz, 20, [s1]) == Some(one);
    RunStep(sz, 20, [s1], s2);
    assert [s1] + [s2] == [s1, s2];
    var two := Updated(one, 7, b);
    assert two == Cache({7}, map[(7, 1) := a][(7, 2) := b], map[(7, 1) := 1][(7, 2) := 2], 2, 20, 10);
    assert Run(sz, 20, [s1, s2]) == Some(two);
    RunStep(sz, 20, [s1, s2], s3);
    assert [s1, s2] + [s3] == [s1, s2, s3];
    TotalOfThree(sz, a, b, c);
  }

  lemma TotalOfThree(sz: Size, a: Record, b: Record, c: Record)
    ensures Total(sz, map[(7, 1) := a][(7, 2) := b][(7, 3) := c]) == sz(a) + sz(b) + sz(c)
  {
    var m1: map<Key, Record>, none: map<Key, Record> := map[(7, 1) := a], map[];
    TotalWith(sz, none, (7, 1), a);
    assert none[(7, 1) := a] == m1 && none - {(7, 1)} == none;
    TotalWith(sz, m1, (7, 2), b);
    assert m1 - {(7, 2)} == m1;
    TotalWith(sz, m1[(7, 2) := b], (7, 3), c);
    assert m1[(7, 2) := b] - {(7, 3)} == m1[(7, 2) := b];
  }

  lemma RunStep(sz: Size, budget: nat, steps: seq<Step>, s: Step)
    requires Run(sz, budget, steps).Some?
    ensures Run(sz, budget, steps + [s])
            == (if Possible(Run(sz, budget, steps).value, s) then Some(After(sz, Run(sz, budget, steps).value, s))
                else None)
  {
    assert (steps + [s])[..|steps|] == steps;
  }

  /** The cache of 20 bytes after loading one record of 10. */
  lemma OneLoaded(sz: Size, r: Record) returns (once: Cache)
    requires sz(r) == 10 && r.lid == 1
    ensures once == Loaded(sz, Empty(20), [], 7, [r]).0
    ensures once == Cache({7}, map[(7, 1) := r], map[(7, 1) := 1], 1, 20, 10)
  {
    var start := Empty(20).(lobes := {7});
    OneRecord(sz, start, 7, r);
    once := Loaded(sz, Empty(20), [], 7, [r]).0;
    assert {} + {7} == {7};
    assert once == Inserted(start, 7, r).(used := 10);
  }
}
