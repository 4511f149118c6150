/**
 The guard on a commit told locally: by the batch and the persisted name count of
 its own lobe, without looking at any record already on disk.
 */
module CommitGuard {
  import opened CommitOrder
  import opened Durability
  import opened DurableRuns
  import opened FieldDictionary
  import opened RecordCodec

  /** The commit does not shorten its lobe's persisted names, and they cover the batch. */
  predicate LocallyGuarded(s: System, k: nat)
    requires k < |s.pending|
  {
    var b := s.pending[k];
    var now, later := |NamesAt(s.entries, b.put.lobe)|, |NamesAt(Committed(s.entries, b), b.put.lobe)|;
    now <= later && HasIds(b) && Covered(b, later)
  }

  // ─── Every persisted name list is used up to its last name ─────────────────

  predicate UsesLast(b: Batch, n: nat) {
    HasIds(b) && n > 0 && !Covered(b, n - 1)
  }

  predicate UsedUp(lobe: U16, n: nat, stored: seq<Batch>) {
    exists i | 0 <= i < |stored| :: stored[i].put.lobe == lobe && UsesLast(stored[i], n)
  }

  predicate Topped(s: System) {
    && (forall l | l in s.entries :: UsedUp(l, |s.entries[l]|, s.stored))
    && (forall i | 0 <= i < |s.pending| && s.pending[i].entry.Some? ::
          UsesLast(s.pending[i], |s.pending[i].entry.value|))
  }

  /** A name that a write adds to the dictionary is a field of its record. */
  lemma NewNamesAreFields(d: Dict, p: Put, i: nat)
    requires WellFormed(p) && |d.names| <= i < |After(d, p).names|
    ensures After(d, p).names[i] in p.record.fields
  {
    match p.layout
    case Plain => GrownAllAppends(d, p.order);
    case Split(search, _) =>
      var sv := SearchVector(p.record.fields, search);
      GrownAllAppends(BaseV5(d, sv), Rest(p.order, sv));
      RestListed(p.order, sv);
  }

  lemma LastNameIsUsed(b: Batch, names: seq<string>)
    requires Spelled(b, names) && 0 < |names| <= LIMIT && names[|names| - 1] in b.put.record.fields
    ensures UsesLast(b, |names|)
  {
    var n := |names| - 1;
    SpelledBelowIff(b, names[..n], names);
    NotDecoded(b.blob.ids, VectorOf(b), names[..n], names, n);
  }

  lemma FreshUsesLast(d: Dict, p: Put)
    requires WellFormed(p) && Consistent(d) && |After(d, p).names| <= LIMIT && Serialized(d, p).entry.Some?
    ensures UsesLast(Serialized(d, p), |Serialized(d, p).entry.value|)
  {
    var names := After(d, p).names;
    SerializedEntry(d, p);
    SerializedSpelled(d, p);
    NewNamesAreFields(d, p, |names| - 1);
    LastNameIsUsed(Serialized(d, p), names);
  }

  lemma UsedUpGrows(lobe: U16, n: nat, stored: seq<Batch>, b: Batch)
    requires UsedUp(lobe, n, stored)
    ensures UsedUp(lobe, n, stored + [b])
  {
    var i :| 0 <= i < |stored| && stored[i].put.lobe == lobe && UsesLast(stored[i], n);
    assert (stored + [b])[i] == stored[i];
  }

  lemma CommitTopped(s: System, k: nat)
    requires Topped(s) && k < |s.pending|
    ensures Topped(Take(s, Commit(k)).value)
  {
    var t, b := Take(s, Commit(k)).value, s.pending[k];
    forall l | l in t.entries ensures UsedUp(l, |t.entries[l]|, t.stored) {
      if b.entry.Some? && l == b.put.lobe {
        assert t.stored[|s.stored|] == b;
      } else {
        UsedUpGrows(l, |s.entries[l]|, s.stored, b);
      }
    }
    RestTopped(s, k);
  }

  lemma RestTopped(s: System, k: nat)
    requires Topped(s) && k < |s.pending|
    ensures var rest := s.pending[..k] + s.pending[k + 1..];
            forall i | 0 <= i < |rest| && rest[i].entry.Some? :: UsesLast(rest[i], |rest[i].entry.value|)
  {
    var rest := s.pending[..k] + s.pending[k + 1..];
    assert forall i | 0 <= i < |rest| :: rest[i] == s.pending[if i < k then i else i + 1];
  }

  lemma StepTopped(s: System, step: Step)
    requires Kept(s) && Topped(s) && Take(s, step).Some? && FitsAll(Take(s, step))
    ensures Topped(Take(s, step).value)
  {
    match step
    case Serialize(p) =>
      var d := DictAt(s.memory, p.lobe);
      assert p.lobe in Take(s, step).value.memory;
      if Serialized(d, p).entry.Some? { FreshUsesLast(d, p); }
    case Commit(k) => CommitTopped(s, k);
    case Abandon(k) => RestTopped(s, k);
    case Crash =>
  }

  // ─── The local guard is the guard ──────────────────────────────────────────

  lemma CoveredMore(b: Batch, n: nat, m: nat)
    requires HasIds(b) && n <= m && Covered(b, n)
    ensures Covered(b, m)
  {
  }

  lemma LocalIsEnough(s: System, k: nat)
    requires Kept(s) && k < |s.pending| && LocallyGuarded(s, k)
    ensures Guarded(s, k)
  {
    var b, all := s.pending[k], s.stored + [s.pending[k]];
    var later := Committed(s.entries, b);
    forall i | 0 <= i < |all| ensures HasIds(all[i]) && Covered(all[i], |NamesAt(later, all[i].put.lobe)|) {
      if i < |s.stored| {
        var l := all[i].put.lobe;
        assert Spelled(s.stored[i], NamesAt(s.entries, l));
        CoveredMore(all[i], |NamesAt(s.entries, l)|, |NamesAt(later, l)|);
      }
    }
  }

  lemma GuardIsLocal(s: System, k: nat)
    requires Topped(s) && k < |s.pending| && Guarded(s, k)
    ensures LocallyGuarded(s, k)
  {
    var b, all := s.pending[k], s.stored + [s.pending[k]];
    var l, later := b.put.lobe, Committed(s.entries, b);
    assert all[|s.stored|] == b;
    if |NamesAt(later, l)| < |NamesAt(s.entries, l)| {
      var i :| 0 <= i < |s.stored| && s.stored[i].put.lobe == l && UsesLast(s.stored[i], |s.entries[l]|);
      assert all[i] == s.stored[i];
      CoveredMore(all[i], |NamesAt(later, l)|, |s.entries[l]| - 1);
    }
  }

  predicate LocalStep(s: System, step: Step) {
    step.Commit? && step.k < |s.pending| ==> LocallyGuarded(s, step.k)
  }

  predicate LocallyGuardedRun(steps: seq<Step>) {
    forall i | 0 <= i < |steps| :: Run(steps[..i]).Some? ==> LocalStep(Run(steps[..i]).value, steps[i])
  }

  lemma {:induction false} GuardedRunTopped(steps: seq<Step>)
    requires Run(steps).Some? && WithinIds(steps) && GuardedRun(steps)
    ensures Topped(Run(steps).value)
  {
    if steps != [] {
      var front, last := steps[..|steps| - 1], steps[|steps| - 1];
      RunFront(steps);
      GuardedRunKept(front);
      GuardedRunTopped(front);
      StepTopped(Run(front).value, last);
    }
  }

  lemma GuardedIsLocal(steps: seq<Step>, i: nat)
    requires WithinIds(steps) && GuardedRun(steps) && i < |steps| && Run(steps[..i]).Some?
    requires steps[i].Commit? && steps[i].k < |Run(steps[..i]).value.pending|
    ensures LocallyGuarded(Run(steps[..i]).value, steps[i].k)
  {
    PrefixGuarded(steps, i);
    GuardedRunTopped(steps[..i]);
    assert GuardedStep(Run(steps[..i]).value, steps[i]);
    GuardIsLocal(Run(steps[..i]).value, steps[i].k);
  }

  lemma LocalFront(steps: seq<Step>)
    requires steps != [] && LocallyGuardedRun(steps)
    ensures LocallyGuardedRun(steps[..|steps| - 1])
    ensures Run(steps[..|steps| - 1]).Some? ==> LocalStep(Run(steps[..|steps| - 1]).value, steps[|steps| - 1])
  {
    var front := steps[..|steps| - 1];
    assert forall i | 0 <= i <= |front| :: front[..i] == steps[..i];
  }

  lemma GuardedLast(steps: seq<Step>)
    requires steps != [] && GuardedRun(steps[..|steps| - 1]) && Run(steps[..|steps| - 1]).Some?
    requires GuardedStep(Run(steps[..|steps| - 1]).value, steps[|steps| - 1])
    ensures GuardedRun(steps)
  {
    var front := steps[..|steps| - 1];
    assert forall i | 0 <= i <= |front| :: front[..i] == steps[..i];
  }

  lemma {:induction false} LocalIsGuarded(steps: seq<Step>)
    requires Run(steps).Some? && WithinIds(steps) && LocallyGuardedRun(steps)
    ensures GuardedRun(steps)
  {
    if steps != [] {
      var front, last := steps[..|steps| - 1], steps[|steps| - 1];
      RunFront(steps);
      LocalFront(steps);
      LocalIsGuarded(front);
      GuardedRunKept(front);
      if last.Commit? && last.k < |Run(front).value.pending| { LocalIsEnough(Run(front).value, last.k); }
      GuardedLast(steps);
    }
  }

  /**
   For every run within the id space, in whatever order batches commit or fail:
   every record on disk survives a crash at every point exactly when no commit
   shortened its lobe's persisted names or left its own ids beyond them.
   */
  lemma DurableIffLocallyGuarded(steps: seq<Step>)
    requires Run(steps).Some? && WithinIds(steps)
    ensures AlwaysSurvives(steps) <==> LocallyGuardedRun(steps)
  {
    DurableIffGuarded(steps);
    if LocallyGuardedRun(steps) {
      LocalIsGuarded(steps);
    } else if GuardedRun(steps) {
      var i :| 0 <= i < |steps| && Run(steps[..i]).Some? && !LocalStep(Run(steps[..i]).value, steps[i]);
      GuardedIsLocal(steps, i);
    }
  }
}
