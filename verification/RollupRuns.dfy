/**
 Runs of a rollup key: every interleaving of appends, deletes and compactions
 reads as the plain fold of what was appended since the last delete, and no
 fold inside any of them leaves the 128-bit range of its integer sums.
 */
module RollupRuns {
  import opened Bytes
  import opened Values
  import opened Filters
  import opened Aggregates
  import opened Deltas
  import opened RollupHistory
  import opened RollupLaws
  import opened RollupStore

  /** `applied`: appended since the last delete, newest first; `appended`: ever. */
  datatype Store = Store(chain: seq<Entry>, next: nat, applied: seq<Rollup>, appended: seq<Rollup>)

  datatype Step =
    | Append(v: Rollup)
    | Delete
    | Compact(from: nat, to: nat, run: seq<Entry>, isLast: bool)

  const EMPTY := Store([], 0, [], [])

  /** Compaction takes a contiguous part of the chain, and only the bottom level drops deletes. */
  predicate Enabled(s: Store, step: Step) {
    match step
    case Append(_) => true
    case Delete => true
    case Compact(from, to, run, isLast) =>
      && from < to <= |s.chain|
      && Streamed(run)
      && Dedup(run) == s.chain[from..to]
      && (isLast ==> to == |s.chain|)
  }

  function Next(fa: FloatArith, s: Store, step: Step): Store
    requires Enabled(s, step)
  {
    match step
    case Append(v) => Store([Put(s.next, v)] + s.chain, s.next + 1, [v] + s.applied, [v] + s.appended)
    case Delete => Store([Tombstone(s.next)] + s.chain, s.next + 1, [], s.appended)
    case Compact(from, to, run, isLast) =>
      s.(chain := s.chain[..from] + Compacted(fa, Dedup(run), isLast) + s.chain[to..])
  }

  /** The store after a run, `None` if some step was not possible. */
  function Exec(fa: FloatArith, steps: seq<Step>): Option<Store> {
    if steps == [] then Some(EMPTY)
    else match Exec(fa, steps[..|steps| - 1])
      case Some(p) => if Enabled(p, steps[|steps| - 1]) then Some(Next(fa, p, steps[|steps| - 1])) else None
      case None => None
  }

  // ─── Decoding and live values of concatenations ────────────────────────────

  lemma {:induction false} DecodedConcat(a: seq<Rollup>, b: seq<Rollup>)
    ensures Decoded(a + b) == Decoded(a) + Decoded(b)
  {
    if b == [] {
      assert a + b == a;
    } else {
      assert (a + b)[..|a + b| - 1] == a + b[..|b| - 1];
      DecodedConcat(a, b[..|b| - 1]);
    }
  }

  predicate HasTombstone(run: seq<Entry>) {
    FirstTombstone(run) < |run|
  }

  lemma LiveConcat(a: seq<Entry>, b: seq<Entry>)
    ensures LiveValues(a + b) == if HasTombstone(a) then LiveValues(a) else LiveValues(a) + LiveValues(b)
    ensures HasTombstone(a + b) <==> HasTombstone(a) || HasTombstone(b)
  {
    var t := FirstTombstone(a);
    if t < |a| {
      FirstTombstoneAt(a + b, t);
      assert (a + b)[..t] == a[..t];
    } else {
      var u := FirstTombstone(b);
      forall k | 0 <= k < |a| + u ensures (a + b)[k].Put? {
        assert (a + b)[k] == if k < |a| then a[k] else b[k - |a|];
      }
      FirstTombstoneAt(a + b, |a| + u);
      assert (a + b)[..|a| + u] == a + b[..u];
      assert a[..t] == a;
    }
  }

  ghost predicate ValuesFit(vs: seq<Rollup>, schema: Schema) {
    AllFit(Decoded(vs), schema)
  }

  lemma LiveOne(e: Entry)
    ensures LiveValues([e]) == if e.Put? then [e.value] else []
    ensures HasTombstone([e]) <==> e.Tombstone?
    ensures LiveValues([]) == [] && !HasTombstone([])
  {
    FirstTombstoneAt([e], if e.Put? then 1 else 0);
  }

  /** What a compacted run still shows: one folded value if anything was live, and the delete. */
  lemma CompactedShape(fa: FloatArith, run: seq<Entry>, isLast: bool)
    ensures var out := Compacted(fa, run, isLast);
            && LiveValues(out) == (if LiveValues(run) == [] then []
                                   else [DeltaFormat(Fold(fa, Decoded(LiveValues(run))))])
            && (HasTombstone(out) <==> HasTombstone(run) && !isLast)
  {
    var t := FirstTombstone(run);
    var head := if t > 0 then [Put(run[0].seqno, DeltaFormat(Fold(fa, Decoded(LiveValues(run)))))] else [];
    var tail := if t < |run| && !isLast then [run[t]] else [];
    LiveOne(if t > 0 then head[0] else Tombstone(0));
    LiveOne(if t < |run| then run[t] else Tombstone(0));
    LiveConcat(head, tail);
    assert |LiveValues(run)| == t;
  }

  /** A compacted run stands for the same fold and hides as much as the run did. */
  lemma CompactedMeaning(fa: FloatArith, run: seq<Entry>, isLast: bool, schema: Schema)
    requires ValuesFit(LiveValues(run), schema)
    ensures var out := Compacted(fa, run, isLast);
            && Fold(fa, Decoded(LiveValues(out))) == Fold(fa, Decoded(LiveValues(run)))
            && ValuesFit(LiveValues(out), schema)
            && (LiveValues(out) == [] <==> LiveValues(run) == [])
            && (HasTombstone(out) <==> HasTombstone(run) && !isLast)
  {
    var folded := Fold(fa, Decoded(LiveValues(run)));
    CompactedShape(fa, run, isLast);
    FoldFits(fa, Decoded(LiveValues(run)), schema);
    DecodedOne(DeltaFormat(folded));
    FoldOne(fa, folded);
  }

  lemma DecodedOne(v: Rollup)
    ensures Decoded([v]) == match Decode(v) case Some(d) => [d] case None => []
  {
    assert [v][..0] == [];
  }

  // ─── The invariant every step keeps ────────────────────────────────────────

  ghost predicate Inv(fa: FloatArith, s: Store, schema: Schema) {
    && ValuesFit(LiveValues(s.chain), schema)
    && ValuesFit(s.applied, schema)
    && (LiveValues(s.chain) == [] <==> s.applied == [])
    && Fold(fa, Decoded(LiveValues(s.chain))) == Fold(fa, Decoded(s.applied))
  }

  lemma PushValue(fa: FloatArith, v: Rollup, vs: seq<Rollup>, schema: Schema)
    requires ValuesFit([v], schema) && ValuesFit(vs, schema)
    ensures ValuesFit([v] + vs, schema)
    ensures Fold(fa, Decoded([v] + vs)) == MergeDelta(fa, Fold(fa, Decoded([v])), Fold(fa, Decoded(vs)))
  {
    DecodedConcat([v], vs);
    SplitFit(Decoded([v]), Decoded(vs), schema);
    FoldConcat(fa, Decoded([v]), Decoded(vs), schema);
  }

  lemma LivePush(v: Rollup, seqno: nat, chain: seq<Entry>)
    ensures LiveValues([Put(seqno, v)] + chain) == [v] + LiveValues(chain)
  {
    var e := Put(seqno, v);
    FirstTombstoneAt([e], 1);
    LiveConcat([e], chain);
    assert LiveValues([e]) == [v];
  }

  lemma AppendKeeps(fa: FloatArith, s: Store, v: Rollup, schema: Schema)
    requires Inv(fa, s, schema) && ValuesFit([v], schema)
    ensures Inv(fa, Next(fa, s, Append(v)), schema)
  {
    LivePush(v, s.next, s.chain);
    PushValue(fa, v, LiveValues(s.chain), schema);
    PushValue(fa, v, s.applied, schema);
  }

  lemma DeleteKeeps(fa: FloatArith, s: Store, schema: Schema)
    ensures Inv(fa, Next(fa, s, Delete), schema)
  {
    var e := Tombstone(s.next);
    FirstTombstoneAt([e], 0);
    LiveConcat([e], s.chain);
    assert LiveValues([e]) == [];
  }

  lemma CompactKeeps(fa: FloatArith, s: Store, step: Step, schema: Schema)
    requires step.Compact? && Enabled(s, step) && Inv(fa, s, schema)
    ensures Inv(fa, Next(fa, s, step), schema)
  {
    var a, mid, b := s.chain[..step.from], s.chain[step.from..step.to], s.chain[step.to..];
    var out := Compacted(fa, mid, step.isLast);
    assert s.chain == a + (mid + b);
    assert Next(fa, s, step).chain == a + (out + b);
    LiveConcat(a, mid + b);
    LiveConcat(mid, b);
    LiveConcat(a, out + b);
    LiveConcat(out, b);
    if !HasTombstone(a) {
      MiddleKeeps(fa, LiveValues(a), mid, b, step.isLast, schema);
    }
  }

  /** Compacting the middle of a chain with no delete in front of it. */
  lemma MiddleKeeps(fa: FloatArith, front: seq<Rollup>, mid: seq<Entry>, b: seq<Entry>, isLast: bool, schema: Schema)
    requires mid != [] && (isLast ==> b == [])
    requires ValuesFit(front + LiveValues(mid + b), schema)
    ensures var out := Compacted(fa, mid, isLast);
            && ValuesFit(front + LiveValues(out + b), schema)
            && (front + LiveValues(out + b) == [] <==> front + LiveValues(mid + b) == [])
            && Fold(fa, Decoded(front + LiveValues(out + b))) == Fold(fa, Decoded(front + LiveValues(mid + b)))
  {
    var out := Compacted(fa, mid, isLast);
    var rest := if HasTombstone(mid) then [] else LiveValues(b);
    LiveConcat(mid, b);
    LiveConcat(out, b);
    assert LiveValues(mid + b) == LiveValues(mid) + rest;
    DecodedConcat(front, LiveValues(mid) + rest);
    DecodedConcat(LiveValues(mid), rest);
    SplitFit(Decoded(front), Decoded(LiveValues(mid)) + Decoded(rest), schema);
    SplitFit(Decoded(LiveValues(mid)), Decoded(rest), schema);
    CompactedMeaning(fa, mid, isLast, schema);
    assert isLast ==> LiveValues(b) == [];
    assert LiveValues(out + b) == LiveValues(out) + rest;
    DecodedConcat(front, LiveValues(out) + rest);
    DecodedConcat(LiveValues(out), rest);
    FoldThree(fa, Decoded(front), Decoded(LiveValues(mid)), Decoded(LiveValues(out)), Decoded(rest), schema);
  }

  lemma SplitFit(xs: seq<Delta>, ys: seq<Delta>, schema: Schema)
    ensures AllFit(xs + ys, schema) <==> AllFit(xs, schema) && AllFit(ys, schema)
  {
    if AllFit(xs + ys, schema) {
      forall k | 0 <= k < |xs| ensures Fits(xs[k], schema) { assert (xs + ys)[k] == xs[k]; }
      forall k | 0 <= k < |ys| ensures Fits(ys[k], schema) { assert (xs + ys)[|xs| + k] == ys[k]; }
    }
  }

  lemma FoldThree(fa: FloatArith, x: seq<Delta>, y: seq<Delta>, y': seq<Delta>, z: seq<Delta>, schema: Schema)
    requires AllFit(x, schema) && AllFit(y, schema) && AllFit(y', schema) && AllFit(z, schema)
    requires Fold(fa, y) == Fold(fa, y')
    ensures AllFit(x + (y' + z), schema) && Fold(fa, x + (y + z)) == Fold(fa, x + (y' + z))
  {
    SplitFit(y, z, schema);
    SplitFit(y', z, schema);
    SplitFit(x, y' + z, schema);
    FoldConcat(fa, x, y + z, schema);
    FoldConcat(fa, y, z, schema);
    FoldConcat(fa, x, y' + z, schema);
    FoldConcat(fa, y', z, schema);
  }

  lemma AppendedGrows(fa: FloatArith, s: Store, step: Step, schema: Schema)
    requires Enabled(s, step) && ValuesFit(Next(fa, s, step).appended, schema)
    ensures ValuesFit(s.appended, schema) && (step.Append? ==> ValuesFit([step.v], schema))
  {
    if step.Append? {
      DecodedConcat([step.v], s.appended);
      SplitFit(Decoded([step.v]), Decoded(s.appended), schema);
    }
  }

  lemma {:induction false} RunKeepsInv(fa: FloatArith, steps: seq<Step>, schema: Schema)
    requires Exec(fa, steps).Some? && ValuesFit(Exec(fa, steps).value.appended, schema)
    ensures Inv(fa, Exec(fa, steps).value, schema)
  {
    if steps == [] {
      assert LiveValues(EMPTY.chain) == [];
    } else {
      var front, last := steps[..|steps| - 1], steps[|steps| - 1];
      var p := Exec(fa, front).value;
      AppendedGrows(fa, p, last, schema);
      RunKeepsInv(fa, front, schema);
      match last
      case Append(v) => AppendKeeps(fa, p, v, schema);
      case Delete => DeleteKeeps(fa, p, schema);
      case Compact(_, _, _, _) => CompactKeeps(fa, p, last, schema);
    }
  }

  /**
   In every run of same-schema appends, deletes and compactions, in any order
   and of any contiguous parts, the value read is the fold of every value
   appended since the last delete.
   */
  lemma EveryRunReadsTheFold(fa: FloatArith, steps: seq<Step>, schema: Schema)
    requires Exec(fa, steps).Some? && ValuesFit(Exec(fa, steps).value.appended, schema)
    ensures var s := Exec(fa, steps).value;
            ReadValue(fa, s.chain)
            == if s.applied == [] then None else Some(DeltaFormat(Fold(fa, Decoded(s.applied))))
  {
    RunKeepsInv(fa, steps, schema);
  }

  /**
   The two representations of a group agree under every compaction schedule:
   if the values appended since the last delete are the deltas of a clean
   history, in any order, the state read back is the in-RAM one.
   */
  lemma EveryScheduleReadsInRam(fa: FloatArith, steps: seq<Step>, h: History, ms: seq<Metric>, universe: iset<Fields>)
    requires Exec(fa, steps).Some?
    requires DistinctLabels(ms) && h != [] && Valid(h) && Over(h, universe)
    requires FloatFree(ms, universe) && Clean(ms, universe)
    requires var s := Exec(fa, steps).value;
             && ValuesFit(s.appended, SchemaOf(ms, universe))
             && multiset(Decoded(s.applied)) == multiset(DeltasOf(fa, h, ms))
    ensures var r := ReadValue(fa, Exec(fa, steps).value.chain);
            r.Some? && r.value.DeltaFormat? && IntoState(r.value.d) == InRam(fa, h, ms)
  {
    var s := Exec(fa, steps).value;
    var schema := SchemaOf(ms, universe);
    RunKeepsInv(fa, steps, schema);
    assert s.applied != [] by {
      assert |multiset(DeltasOf(fa, h, ms))| == |h|;
      assert s.applied == [] ==> Decoded(s.applied) == [];
    }
    FoldAnyOrder(fa, Decoded(s.applied), DeltasOf(fa, h, ms), schema);
    CleanUniverse(ms, h, universe);
    FoldEqualsInRam(fa, h, ms);
  }

  // ─── Integer sums stay in 128 bits ─────────────────────────────────────────

  function Abs(x: int): nat {
    if x < 0 then -x else x
  }

  /** Magnitude of a label's integer sum. */
  function Magnitude(d: Delta, name: string): nat {
    match d.At(name)
    case Some(SumD(IntSum(a))) => Abs(a)
    case Some(AvgD(IntSum(a), _)) => Abs(a)
    case _ => 0
  }

  function TotalMagnitude(ds: seq<Delta>, name: string): nat {
    if ds == [] then 0 else TotalMagnitude(ds[..|ds| - 1], name) + Magnitude(ds[|ds| - 1], name)
  }

  lemma TotalOne(d: Delta, name: string)
    ensures TotalMagnitude([d], name) == Magnitude(d, name)
  {
    assert [d][..0] == [];
  }

  lemma {:induction false} TotalConcat(a: seq<Delta>, b: seq<Delta>, name: string)
    ensures TotalMagnitude(a + b, name) == TotalMagnitude(a, name) + TotalMagnitude(b, name)
  {
    if b == [] {
      assert a + b == a;
    } else {
      assert (a + b)[..|a + b| - 1] == a + b[..|b| - 1];
      TotalConcat(a, b[..|b| - 1], name);
    }
  }

  lemma MergeMagnitude(fa: FloatArith, a: Delta, b: Delta, name: string, schema: Schema)
    requires Fits(a, schema) && Fits(b, schema)
    ensures Magnitude(MergeDelta(fa, a, b), name) <= Magnitude(a, name) + Magnitude(b, name)
  {
    MergeDeltaAt(fa, a, b, name);
    if name in a.values && name in b.values {
      assert ValueFits(a.values[name], schema[name]) && ValueFits(b.values[name], schema[name]);
    }
  }

  lemma {:induction false} FoldMagnitude(fa: FloatArith, ds: seq<Delta>, name: string, schema: Schema)
    requires AllFit(ds, schema)
    ensures Magnitude(Fold(fa, ds), name) <= TotalMagnitude(ds, name)
  {
    if ds != [] {
      var front, d := ds[..|ds| - 1], ds[|ds| - 1];
      FoldMagnitude(fa, front, name, schema);
      FoldFits(fa, front, schema);
      MergeMagnitude(fa, Fold(fa, front), d, name, schema);
    }
  }

  /** Values of every entry of a chain that holds one, dead or alive. */
  function AllValues(chain: seq<Entry>): seq<Rollup> {
    if chain == [] then []
    else (if chain[0].Put? then [chain[0].value] else []) + AllValues(chain[1..])
  }

  function ChainMagnitude(chain: seq<Entry>, name: string): nat {
    TotalMagnitude(Decoded(AllValues(chain)), name)
  }

  lemma {:induction false} AllValuesConcat(a: seq<Entry>, b: seq<Entry>)
    ensures AllValues(a + b) == AllValues(a) + AllValues(b)
  {
    if a == [] {
      assert a + b == b;
    } else {
      assert (a + b)[1..] == a[1..] + b;
      AllValuesConcat(a[1..], b);
      var head := if a[0].Put? then [a[0].value] else [];
      assert AllValues(a + b) == head + (AllValues(a[1..]) + AllValues(b)) == AllValues(a) + AllValues(b);
    }
  }

  lemma ChainConcat(a: seq<Entry>, b: seq<Entry>, name: string)
    ensures ChainMagnitude(a + b, name) == ChainMagnitude(a, name) + ChainMagnitude(b, name)
  {
    AllValuesConcat(a, b);
    DecodedConcat(AllValues(a), AllValues(b));
    TotalConcat(Decoded(AllValues(a)), Decoded(AllValues(b)), name);
  }

  lemma {:induction false} AllPuts(run: seq<Entry>)
    requires forall k | 0 <= k < |run| :: run[k].Put?
    ensures AllValues(run) == ValuesOf(run)
  {
    if run != [] {
      AllPuts(run[1..]);
    }
  }

  /** The live values weigh no more than the whole chain. */
  lemma LiveMagnitude(chain: seq<Entry>, name: string)
    ensures TotalMagnitude(Decoded(LiveValues(chain)), name) <= ChainMagnitude(chain, name)
  {
    var t := FirstTombstone(chain);
    assert chain == chain[..t] + chain[t..];
    ChainConcat(chain[..t], chain[t..], name);
    AllPuts(chain[..t]);
  }

  ghost predicate ChainFits(chain: seq<Entry>, schema: Schema) {
    ValuesFit(AllValues(chain), schema)
  }

  lemma ChainFitsConcat(a: seq<Entry>, b: seq<Entry>, schema: Schema)
    ensures ChainFits(a + b, schema) <==> ChainFits(a, schema) && ChainFits(b, schema)
  {
    AllValuesConcat(a, b);
    DecodedConcat(AllValues(a), AllValues(b));
    SplitFit(Decoded(AllValues(a)), Decoded(AllValues(b)), schema);
  }

  lemma LiveFits(chain: seq<Entry>, schema: Schema)
    requires ChainFits(chain, schema)
    ensures ValuesFit(LiveValues(chain), schema)
  {
    var t := FirstTombstone(chain);
    assert chain == chain[..t] + chain[t..];
    ChainFitsConcat(chain[..t], chain[t..], schema);
    AllPuts(chain[..t]);
  }

  /** One folded value weighs no more than what it folds. */
  lemma FoldedEntry(fa: FloatArith, run: seq<Entry>, seqno: nat, name: string, schema: Schema)
    requires ChainFits(run, schema)
    ensures var folded := [Put(seqno, DeltaFormat(Fold(fa, Decoded(LiveValues(run)))))];
            ChainFits(folded, schema) && ChainMagnitude(folded, name) <= ChainMagnitude(run, name)
  {
    var d := Fold(fa, Decoded(LiveValues(run)));
    LiveFits(run, schema);
    FoldFits(fa, Decoded(LiveValues(run)), schema);
    FoldMagnitude(fa, Decoded(LiveValues(run)), name, schema);
    LiveMagnitude(run, name);
    assert AllValues([Put(seqno, DeltaFormat(d))]) == [DeltaFormat(d)];
    DecodedOne(DeltaFormat(d));
    TotalOne(d, name);
  }

  lemma TombstoneEntry(e: Entry, name: string, schema: Schema)
    requires e.Tombstone?
    ensures ChainFits([e], schema) && ChainMagnitude([e], name) == 0
    ensures ChainFits([], schema) && ChainMagnitude([], name) == 0
  {
    assert AllValues([e]) == [];
  }

  /** Compaction never makes a chain heavier. */
  lemma CompactedMagnitude(fa: FloatArith, run: seq<Entry>, isLast: bool, name: string, schema: Schema)
    requires run != [] && ChainFits(run, schema)
    ensures ChainFits(Compacted(fa, run, isLast), schema)
    ensures ChainMagnitude(Compacted(fa, run, isLast), name) <= ChainMagnitude(run, name)
  {
    var t := FirstTombstone(run);
    var head := if t > 0 then [Put(run[0].seqno, DeltaFormat(Fold(fa, Decoded(LiveValues(run)))))] else [];
    var tail := if t < |run| && !isLast then [run[t]] else [];
    FoldedEntry(fa, run, run[0].seqno, name, schema);
    TombstoneEntry(if t < |run| then run[t] else Tombstone(0), name, schema);
    ChainConcat(head, tail, name);
    ChainFitsConcat(head, tail, schema);
  }

  ghost predicate Light(s: Store, name: string, schema: Schema) {
    ChainFits(s.chain, schema) && ChainMagnitude(s.chain, name) <= TotalMagnitude(Decoded(s.appended), name)
  }

  lemma AppendLight(fa: FloatArith, p: Store, v: Rollup, name: string, schema: Schema)
    requires Light(p, name, schema) && ValuesFit([v], schema)
    ensures Light(Next(fa, p, Append(v)), name, schema)
  {
    ChainConcat([Put(p.next, v)], p.chain, name);
    ChainFitsConcat([Put(p.next, v)], p.chain, schema);
    assert AllValues([Put(p.next, v)]) == [v];
    DecodedConcat([v], p.appended);
    TotalConcat(Decoded([v]), Decoded(p.appended), name);
  }

  lemma DeleteLight(fa: FloatArith, p: Store, name: string, schema: Schema)
    requires Light(p, name, schema)
    ensures Light(Next(fa, p, Delete), name, schema)
  {
    TombstoneEntry(Tombstone(p.next), name, schema);
    ChainConcat([Tombstone(p.next)], p.chain, name);
    ChainFitsConcat([Tombstone(p.next)], p.chain, schema);
  }

  lemma CompactLight(fa: FloatArith, p: Store, step: Step, name: string, schema: Schema)
    requires step.Compact? && Enabled(p, step) && Light(p, name, schema)
    ensures Light(Next(fa, p, step), name, schema)
  {
    var a, mid, b := p.chain[..step.from], p.chain[step.from..step.to], p.chain[step.to..];
    var out := Compacted(fa, mid, step.isLast);
    assert p.chain == a + (mid + b);
    ChainFitsConcat(a, mid + b, schema);
    ChainFitsConcat(mid, b, schema);
    CompactedMagnitude(fa, mid, step.isLast, name, schema);
    assert a + out + b == a + (out + b);
    ChainFitsConcat(a, out + b, schema);
    ChainFitsConcat(out, b, schema);
    ChainConcat(a, mid + b, name);
    ChainConcat(mid, b, name);
    ChainConcat(a, out + b, name);
    ChainConcat(out, b, name);
  }

  lemma {:induction false} RunMagnitude(fa: FloatArith, steps: seq<Step>, name: string, schema: Schema)
    requires Exec(fa, steps).Some? && ValuesFit(Exec(fa, steps).value.appended, schema)
    ensures Light(Exec(fa, steps).value, name, schema)
  {
    if steps != [] {
      var front, last := steps[..|steps| - 1], steps[|steps| - 1];
      var p := Exec(fa, front).value;
      AppendedGrows(fa, p, last, schema);
      RunMagnitude(fa, front, name, schema);
      match last
      case Append(v) => AppendLight(fa, p, v, name, schema);
      case Delete => DeleteLight(fa, p, name, schema);
      case Compact(_, _, _, _) => CompactLight(fa, p, last, name, schema);
    }
  }

  const MAX_I128: int := 0x7FFF_FFFF_FFFF_FFFF_FFFF_FFFF_FFFF_FFFF

  /** One record's delta weighs at most one 64-bit integer per label. */
  lemma RecordMagnitude(fa: FloatArith, f: Fields, ms: seq<Metric>, sign: int, name: string)
    requires sign == 1 || sign == -1
    ensures Magnitude(ForRecord(fa, f, ms, sign), name) <= 0x8000_0000_0000_0000
  {
    ForRecordAt(fa, f, ms, sign, name);
  }

  lemma OneMore(n: nat, bound: nat)
    ensures (n + 1) * bound == n * bound + bound
  {
  }

  lemma {:induction false} ManyMagnitude(ds: seq<Delta>, name: string, bound: nat)
    requires forall k | 0 <= k < |ds| :: Magnitude(ds[k], name) <= bound
    ensures TotalMagnitude(ds, name) <= |ds| * bound
  {
    if ds != [] {
      ManyMagnitude(ds[..|ds| - 1], name, bound);
      OneMore(|ds| - 1, bound);
    }
  }

  /** A part of a list of values fits and weighs no more than the whole. */
  lemma PartMagnitude(all: seq<Rollup>, i: nat, j: nat, name: string, schema: Schema)
    requires i <= j <= |all| && ValuesFit(all, schema)
    ensures ValuesFit(all[i..j], schema)
    ensures TotalMagnitude(Decoded(all[i..j]), name) <= TotalMagnitude(Decoded(all), name)
  {
    var x, y, z := Decoded(all[..i]), Decoded(all[i..j]), Decoded(all[j..]);
    assert all == all[..i] + (all[i..j] + all[j..]);
    DecodedConcat(all[..i], all[i..j] + all[j..]);
    DecodedConcat(all[i..j], all[j..]);
    TotalConcat(x, y + z, name);
    TotalConcat(y, z, name);
    SplitFit(x, y + z, schema);
    SplitFit(y, z, schema);
  }

  /** Fewer than 2^64 values, each of at most one 64-bit integer under a label. */
  ghost predicate FewContributions(vs: seq<Rollup>, name: string) {
    && |Decoded(vs)| < 0x1_0000_0000_0000_0000
    && forall k | 0 <= k < |Decoded(vs)| :: Magnitude(Decoded(vs)[k], name) <= 0x8000_0000_0000_0000
  }

  lemma FewFit128(vs: seq<Rollup>, name: string)
    requires FewContributions(vs, name)
    ensures TotalMagnitude(Decoded(vs), name) <= MAX_I128
  {
    ManyMagnitude(Decoded(vs), name, 0x8000_0000_0000_0000);
  }

  /**
   With fewer than 2^64 appended contributions of at most one 64-bit integer
   each, every fold of every prefix of every part of the chain of every run
   keeps its integer sums inside 128 bits.
   */
  lemma SumsStayIn128Bits(fa: FloatArith, steps: seq<Step>, name: string, schema: Schema, i: nat, j: nat)
    requires Exec(fa, steps).Some?
    requires ValuesFit(Exec(fa, steps).value.appended, schema)
    requires FewContributions(Exec(fa, steps).value.appended, name)
    requires i <= j <= |AllValues(Exec(fa, steps).value.chain)|
    ensures Magnitude(Fold(fa, Decoded(AllValues(Exec(fa, steps).value.chain)[i..j])), name) <= MAX_I128
  {
    var s := Exec(fa, steps).value;
    RunMagnitude(fa, steps, name, schema);
    FewFit128(s.appended, name);
    PartMagnitude(AllValues(s.chain), i, j, name, schema);
    FoldMagnitude(fa, Decoded(AllValues(s.chain)[i..j]), name, schema);
  }
}
