/**
 A rollup key inside the LSM: blind appends, deletes, compaction of any
 contiguous part of the version chain through the rollup merge operator, and
 reads that fold whatever chain remains. Versions are listed newest first.
 */
module RollupStore {
  import opened Bytes
  import opened Aggregates
  import opened Deltas

  /** A stored rollup value by its format byte; the payload codec is taken as exact. */
  datatype Rollup = DeltaFormat(d: Delta) | StateFormat(st: State) | Unreadable

  /** `decode_rollup_delta`: a legacy canonical state reads as a positive delta. */
  function Decode(v: Rollup): Option<Delta> {
    match v
    case DeltaFormat(d) => Some(d)
    case StateFormat(st) => Some(FromState(st))
    case Unreadable => None
  }

  function Decoded(vs: seq<Rollup>): seq<Delta> {
    if vs == [] then []
    else Decoded(vs[..|vs| - 1]) + (match Decode(vs[|vs| - 1]) case Some(d) => [d] case None => [])
  }

  lemma DecodedStep(fa: FloatArith, values: seq<Rollup>, i: nat)
    requires i < |values|
    ensures Fold(fa, Decoded(values[..i + 1]))
            == match Decode(values[i])
               case Some(d) => MergeDelta(fa, Fold(fa, Decoded(values[..i])), d)
               case None => Fold(fa, Decoded(values[..i]))
  {
    assert values[..i + 1][..i] == values[..i];
    var sofar := Decoded(values[..i]);
    match Decode(values[i])
    case Some(d) => assert (sofar + [d])[..|sofar|] == sofar;
    case None => assert sofar + [] == sofar;
  }

  /** The merge operator: decode what decodes, fold it, re-encode. */
  method MergeValues(fa: FloatArith, values: seq<Rollup>) returns (merged: Rollup)
    ensures merged == DeltaFormat(Fold(fa, Decoded(values)))
  {
    var folded := new RollupDelta();
    for i := 0 to |values|
      invariant folded.View() == Fold(fa, Decoded(values[..i]))
    {
      DecodedStep(fa, values, i);
      var d := Decode(values[i]);
      if d.Some? {
        folded.Merge(fa, d.value);
      }
    }
    assert values[..|values|] == values;
    merged := DeltaFormat(folded.View());
  }

  // ─── Version chains ────────────────────────────────────────────────────────

  datatype Entry = Put(seqno: nat, value: Rollup) | Tombstone(seqno: nat)

  /** A run as it streams in: the same write may arrive from two sources. */
  predicate Streamed(run: seq<Entry>) {
    && (forall i, j | 0 <= i < j < |run| :: run[i].seqno >= run[j].seqno)
    && (forall i, j | 0 <= i < j < |run| && run[i].seqno == run[j].seqno :: run[i] == run[j])
  }

  /** Each distinct write once. */
  function Dedup(run: seq<Entry>): (r: seq<Entry>)
    ensures run == [] <==> r == []
    ensures run != [] ==> r[|r| - 1].seqno == run[|run| - 1].seqno && r[0] == run[0]
  {
    if |run| <= 1 then run
    else
      var front := Dedup(run[..|run| - 1]);
      if run[|run| - 1].seqno == run[|run| - 2].seqno then front else front + [run[|run| - 1]]
  }

  function FirstTombstone(run: seq<Entry>): (t: nat)
    ensures t <= |run|
    ensures t < |run| ==> run[t].Tombstone?
    ensures forall k | 0 <= k < t :: run[k].Put?
  {
    if run == [] || run[0].Tombstone? then 0 else 1 + FirstTombstone(run[1..])
  }

  function ValuesOf(run: seq<Entry>): (vs: seq<Rollup>)
    requires forall k | 0 <= k < |run| :: run[k].Put?
    ensures |vs| == |run| && forall k | 0 <= k < |run| :: vs[k] == run[k].value
  {
    seq(|run|, k requires 0 <= k < |run| => run[k].value)
  }

  /** The values newer than the newest delete, newest first. */
  function LiveValues(run: seq<Entry>): seq<Rollup> {
    ValuesOf(run[..FirstTombstone(run)])
  }

  /** What compaction leaves of a run of one owned key. */
  function Compacted(fa: FloatArith, run: seq<Entry>, isLast: bool): seq<Entry> {
    var t := FirstTombstone(run);
    (if t > 0 then [Put(run[0].seqno, DeltaFormat(Fold(fa, Decoded(LiveValues(run)))))] else [])
    + (if t < |run| && !isLast then [run[t]] else [])
  }

  /** What a read folds a chain to; `None` when nothing is live. */
  function ReadValue(fa: FloatArith, run: seq<Entry>): Option<Rollup> {
    var live := LiveValues(run);
    if live == [] then None else Some(DeltaFormat(Fold(fa, Decoded(live))))
  }

  lemma {:induction false} DedupAppend(run: seq<Entry>, k: nat)
    requires 0 < k < |run|
    ensures Dedup(run[..k + 1])
            == if run[k].seqno == run[k - 1].seqno then Dedup(run[..k]) else Dedup(run[..k]) + [run[k]]
  {
    assert run[..k + 1][..k] == run[..k];
  }

  lemma {:induction false} FirstTombstoneAt(run: seq<Entry>, t: nat)
    requires t <= |run| && (t < |run| ==> run[t].Tombstone?) && forall k | 0 <= k < t :: run[k].Put?
    ensures FirstTombstone(run) == t
  {
    if t > 0 {
      FirstTombstoneAt(run[1..], t - 1);
    }
  }

  /** Deduplicated live values do not depend on what lies behind the delete. */
  lemma {:induction false} DedupLive(run: seq<Entry>, t: nat)
    requires Streamed(run) && t == FirstTombstone(run)
    ensures forall k | 0 <= k < |Dedup(run[..t])| :: Dedup(run[..t])[k].Put?
    ensures Dedup(run[..t]) <= Dedup(run)
    ensures t < |run| ==> |Dedup(run)| > |Dedup(run[..t])| && Dedup(run)[|Dedup(run[..t])|] == run[t]
    ensures t == |run| ==> Dedup(run[..t]) == Dedup(run)
  {
    assert run[..|run|] == run;
    DedupPuts(run[..t]);
    DedupTail(run, t);
  }

  /** Reading a streamed run reads its distinct live writes. */
  lemma LiveOfDedup(run: seq<Entry>, t: nat)
    requires Streamed(run) && t == FirstTombstone(run)
    ensures forall k | 0 <= k < |Dedup(run[..t])| :: Dedup(run[..t])[k].Put?
    ensures LiveValues(Dedup(run)) == ValuesOf(Dedup(run[..t]))
  {
    DedupLive(run, t);
    FirstTombstoneAt(Dedup(run), |Dedup(run[..t])|);
    assert Dedup(run)[..|Dedup(run[..t])|] == Dedup(run[..t]);
  }

  lemma {:induction false} DedupPuts(run: seq<Entry>)
    requires forall k | 0 <= k < |run| :: run[k].Put?
    ensures forall k | 0 <= k < |Dedup(run)| :: Dedup(run)[k].Put?
  {
    if |run| > 1 {
      DedupPuts(run[..|run| - 1]);
    }
  }

  lemma {:induction false} DedupTail(run: seq<Entry>, t: nat)
    requires Streamed(run) && t <= |run| && (t < |run| ==> run[t].Tombstone?) && forall k | 0 <= k < t :: run[k].Put?
    ensures Dedup(run[..t]) <= Dedup(run)
    ensures t < |run| ==> |Dedup(run)| > |Dedup(run[..t])| && Dedup(run)[|Dedup(run[..t])|] == run[t]
  {
    if t == |run| {
      assert run[..t] == run;
    } else if t + 1 == |run| {
      if t > 0 {
        assert run[t - 1] != run[t];
        DedupAppend(run, t);
        assert run[..t + 1] == run;
      }
    } else {
      var front := run[..|run| - 1];
      assert front[..t] == run[..t];
      DedupTail(front, t);
    }
  }

  /** Compaction of one owned key's run, as the stream does it. */
  method CompactKey(fa: FloatArith, run: seq<Entry>, isLast: bool) returns (out: seq<Entry>)
    requires run != [] && Streamed(run)
    ensures out == Compacted(fa, Dedup(run), isLast)
  {
    var tomb := 0;
    while tomb < |run| && run[tomb].Put?
      invariant tomb <= |run| && forall k | 0 <= k < tomb :: run[k].Put?
    {
      tomb := tomb + 1;
    }
    FirstTombstoneAt(run, tomb);
    DedupLive(run, tomb);
    ghost var live := Dedup(run[..tomb]);
    FirstTombstoneAt(Dedup(run), |live|);
    out := [];
    if tomb > 0 {
      var vals := DistinctValues(run[..tomb]);
      assert Dedup(run)[..|live|] == live;
      var merged := MergeValues(fa, vals);
      out := [Put(run[0].seqno, merged)];
    }
    if tomb < |run| && !isLast {
      out := out + [run[tomb]];
    }
  }

  /** Keep the first of each adjacent group of equal sequence numbers. */
  method DistinctValues(run: seq<Entry>) returns (vals: seq<Rollup>)
    requires forall k | 0 <= k < |run| :: run[k].Put?
    ensures (forall k | 0 <= k < |Dedup(run)| :: Dedup(run)[k].Put?) && vals == ValuesOf(Dedup(run))
  {
    vals := [];
    var lastSeqno := None;
    for i := 0 to |run|
      invariant lastSeqno == if i == 0 then None else Some(run[i - 1].seqno)
      invariant forall k | 0 <= k < |Dedup(run[..i])| :: Dedup(run[..i])[k].Put?
      invariant vals == ValuesOf(Dedup(run[..i]))
    {
      if i > 0 { DedupAppend(run, i); } else { assert run[..1] == [run[0]]; }
      if lastSeqno != Some(run[i].seqno) {
        lastSeqno := Some(run[i].seqno);
        vals := vals + [run[i].value];
      }
    }
    assert run[..|run|] == run;
  }

  /** The part of a run a snapshot sees: a suffix, since versions stream newest first. */
  function Visible(run: seq<Entry>, snapshot: nat): seq<Entry> {
    if run != [] && run[0].seqno > snapshot then Visible(run[1..], snapshot) else run
  }

  lemma {:induction false} VisibleFrom(run: seq<Entry>, snapshot: nat, k: nat)
    requires k <= |run| && (forall j | 0 <= j < k :: run[j].seqno > snapshot)
    requires k < |run| ==> run[k].seqno <= snapshot
    ensures Visible(run, snapshot) == run[k..]
  {
    if k > 0 {
      VisibleFrom(run[1..], snapshot, k - 1);
    }
  }

  /** A snapshot read of one owned key. */
  method ReadKey(fa: FloatArith, run: seq<Entry>, snapshot: nat) returns (r: Option<Rollup>)
    requires Streamed(run)
    ensures r == ReadValue(fa, Dedup(Visible(run, snapshot)))
  {
    var skip := 0;
    while skip < |run| && run[skip].seqno > snapshot
      invariant skip <= |run| && forall j | 0 <= j < skip :: run[j].seqno > snapshot
    {
      skip := skip + 1;
    }
    VisibleFrom(run, snapshot, skip);
    r := FoldVisible(fa, run[skip..]);
  }

  /** Fold the distinct versions newer than the newest delete. */
  method FoldVisible(fa: FloatArith, run: seq<Entry>) returns (r: Option<Rollup>)
    requires Streamed(run)
    ensures r == ReadValue(fa, Dedup(run))
  {
    var live: seq<Rollup> := [];
    var lastSeqno := None;
    var i := 0;
    while i < |run| && !(lastSeqno != Some(run[i].seqno) && run[i].Tombstone?)
      invariant i <= |run|
      invariant forall k | 0 <= k < i :: run[k].Put?
      invariant lastSeqno == if i == 0 then None else Some(run[i - 1].seqno)
      invariant forall k | 0 <= k < |Dedup(run[..i])| :: Dedup(run[..i])[k].Put?
      invariant live == ValuesOf(Dedup(run[..i]))
    {
      if i > 0 { DedupAppend(run, i); } else { assert run[..1] == [run[0]]; }
      if lastSeqno != Some(run[i].seqno) {
        lastSeqno := Some(run[i].seqno);
        live := live + [run[i].value];
      }
      i := i + 1;
    }
    FirstTombstoneAt(run, i);
    LiveOfDedup(run, i);
    if live == [] {
      return None;
    }
    var merged := MergeValues(fa, live);
    return Some(merged);
  }
}
