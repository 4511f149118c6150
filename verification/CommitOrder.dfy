/**
 Durability when batches commit in any order, fail, or race with crashes:
 exactly which commits are safe.
 */
module CommitOrder {
  import opened Bytes
  import opened Durability
  import opened DurableRuns
  import opened FieldDictionary
  import opened Filters
  import opened RecordCodec
  import opened Values
  import opened VectorColumn

  // ─── What a batch spells under a list of names ─────────────────────────────

  predicate HasIds(b: Batch) {
    b.blob.V2? || b.blob.V5?
  }

  /** The vector in the batch's column, with the id of its field. */
  function VectorOf(b: Batch): Option<(U16, seq<F32>)> {
    if b.blob.V5? && b.column.Some? && ReadColumn(b.column.value).Some? then
      var p := ReadColumn(b.column.value).value;
      Some((p.id, Unpack(p.floats)))
    else None
  }

  function Decoded(ids: IdFields, vec: Option<(U16, seq<F32>)>, names: seq<string>): Fields
    requires Distinct(names)
  {
    var plain := Named(ids, names);
    if vec.Some? && vec.value.0 < |names| then plain[names[vec.value.0] := Vector(vec.value.1)] else plain
  }

  /** Every id the batch uses is below `n`. */
  predicate Covered(b: Batch, n: nat)
    requires HasIds(b)
  {
    (forall id | id in b.blob.ids :: id < n) && (VectorOf(b).Some? ==> VectorOf(b).value.0 < n)
  }

  predicate SameHeader(b: Batch)
    requires HasIds(b)
  {
    var r := b.put.record;
    b.blob.lid == r.lid && b.blob.createdAt == r.createdAt && b.blob.updatedAt == r.updatedAt
  }

  /** Under these names the batch decodes to its record, each id standing for a name of its own. */
  predicate Spelled(b: Batch, names: seq<string>) {
    && HasIds(b) && SameHeader(b) && Distinct(names) && Covered(b, |names|)
    && (VectorOf(b).Some? ==> VectorOf(b).value.0 !in b.blob.ids)
    && Decoded(b.blob.ids, VectorOf(b), names) == b.put.record.fields
  }

  lemma ReadBackDecodes(b: Batch, dict: Dict)
    requires HasIds(b) && SameHeader(b) && Distinct(dict.names)
    ensures ReadBack(b.blob, b.column, b.put.record.lobe, Some(dict))
            == Some(b.put.record.(fields := Decoded(b.blob.ids, VectorOf(b), dict.names)))
  {
    var r := b.put.record.(fields := Named(b.blob.ids, dict.names));
    assert Deserialize(b.blob, b.put.record.lobe, Some(dict)) == Some(r);
  }

  lemma NamedAgrees(ids: IdFields, names: seq<string>, more: seq<string>)
    requires Distinct(more) && names <= more && forall id | id in ids :: id < |names|
    ensures Distinct(names) && Named(ids, names) == Named(ids, more)
  {
    var a, b := Named(ids, names), Named(ids, more);
    assert forall id | id in ids :: names[id] == more[id];
    assert a.Keys == b.Keys;
  }

  /** With fewer names a batch spells its record exactly when they cover its ids. */
  lemma SpelledBelowIff(b: Batch, names: seq<string>, more: seq<string>)
    requires Spelled(b, more) && names <= more
    ensures Distinct(names)
    ensures Spelled(b, names) <==> Covered(b, |names|)
    ensures Decoded(b.blob.ids, VectorOf(b), names) == b.put.record.fields <==> Covered(b, |names|)
  {
    assert forall i | 0 <= i < |names| :: names[i] == more[i];
    if Covered(b, |names|) {
      NamedAgrees(b.blob.ids, names, more);
    } else {
      LosesUncovered(b, names, more);
    }
  }

  lemma LosesUncovered(b: Batch, names: seq<string>, more: seq<string>)
    requires Spelled(b, more) && names <= more && Distinct(names) && !Covered(b, |names|)
    ensures Decoded(b.blob.ids, VectorOf(b), names) != b.put.record.fields
  {
    var ids, vec := b.blob.ids, VectorOf(b);
    if id :| id in ids && id >= |names| {
      assert more[id] in Named(ids, more);
      NotDecoded(ids, vec, names, more, id);
    } else {
      NotDecoded(ids, vec, names, more, vec.value.0);
    }
  }

  /** A name whose id is beyond the list is not decoded. */
  lemma NotDecoded(ids: IdFields, vec: Option<(U16, seq<F32>)>, names: seq<string>, more: seq<string>, id: U16)
    requires Distinct(more) && names <= more && Distinct(names) && |names| <= id < |more|
    ensures more[id] !in Decoded(ids, vec, names)
  {
    assert forall i | 0 <= i < |names| :: names[i] == more[i] && more[i] != more[id];
  }

  /** More names never disturb a spelling. */
  lemma SpelledAbove(b: Batch, names: seq<string>, more: seq<string>)
    requires Spelled(b, names) && names <= more && Distinct(more)
    ensures Spelled(b, more)
  {
    NamedAgrees(b.blob.ids, names, more);
  }

  // ─── A fresh batch spells its record ───────────────────────────────────────

  lemma PlainIds(d: Dict, p: Put)
    requires WellFormed(p) && p.layout.Plain? && Consistent(d) && |After(d, p).names| <= LIMIT
    ensures var ids, names := Collected(d, p.order, p.record.fields), After(d, p).names;
            Distinct(names) && Named(ids, names) == p.record.fields && forall id | id in ids :: id < |names|
  {
    var fields := p.record.fields;
    AfterKeeps(d, p);
    CollectedWritten(d, p.order, fields);
    PickedAll(p.order, fields);
    NamedInvertsWritten(Collected(d, p.order, fields), fields, After(d, p).names);
  }

  lemma PlainSpelled(d: Dict, p: Put)
    requires WellFormed(p) && p.layout.Plain? && Consistent(d) && |After(d, p).names| <= LIMIT
    ensures Spelled(Serialized(d, p), After(d, p).names)
  {
    PlainIds(d, p);
    assert VectorOf(Serialized(d, p)) == None;
  }

  lemma ColumnVector(r: Record, d: Dict, search: Option<string>, norm: F64)
    requires InMemory(r, search)
    ensures var sv, column := SearchVector(r.fields, search), ColumnV5(r, d, search, norm);
            if sv.Some? then
              column.Some? && ReadColumn(column.value).Some?
              && ReadColumn(column.value).value.id == IdOf(d, sv.value.0)
              && Unpack(ReadColumn(column.value).value.floats) == sv.value.1
            else column == None
  {
    var sv := SearchVector(r.fields, search);
    if sv.Some? {
      WholeColumnReads(r.lid, IdOf(d, sv.value.0), sv.value.1, norm);
      UnpackInvertsPack(sv.value.1);
    }
  }

  /** The blob's ids and the column's id, under the names the batch was written with. */
  lemma SplitIds(d: Dict, p: Put)
    requires WellFormed(p) && p.layout.Split? && Consistent(d) && |After(d, p).names| <= LIMIT
    ensures var sv := SearchVector(p.record.fields, p.layout.search);
            var names, ids := After(d, p).names, BlobV5(p.record, d, p.layout.search, p.order).ids;
            && Distinct(names)
            && (forall id | id in ids :: id < |names| && (sv.Some? ==> names[id] != sv.value.0))
            && (sv.Some? ==> IdOf(d, sv.value.0) < |names| && names[IdOf(d, sv.value.0)] == sv.value.0)
  {
    var sv := SearchVector(p.record.fields, p.layout.search);
    AfterKeeps(d, p);
    BaseV5Consistent(d, p.order, sv);
    PickedRest(p.order, p.record.fields, sv);
    CollectedWritten(BaseV5(d, sv), Rest(p.order, sv), p.record.fields);
  }

  lemma SplitVector(d: Dict, p: Put)
    requires WellFormed(p) && p.layout.Split?
    ensures var sv := SearchVector(p.record.fields, p.layout.search);
            VectorOf(Serialized(d, p)) == if sv.Some? then Some((IdOf(d, sv.value.0), sv.value.1)) else None
  {
    ColumnVector(p.record, d, p.layout.search, p.layout.norm);
  }

  lemma DecodedJoins(ids: IdFields, name: string, id: U16, v: seq<F32>, fields: Fields, names: seq<string>)
    requires Distinct(names) && id < |names| && names[id] == name && name in fields && fields[name] == Vector(v)
    requires Named(ids, names) == fields - {name}
    ensures Decoded(ids, Some((id, v)), names) == fields
  {
    assert (fields - {name})[name := Vector(v)] == fields;
  }

  lemma SplitDecodes(d: Dict, p: Put)
    requires WellFormed(p) && p.layout.Split? && Consistent(d) && |After(d, p).names| <= LIMIT
    requires Distinct(After(d, p).names)
    ensures var ids := BlobV5(p.record, d, p.layout.search, p.order).ids;
            var sv := SearchVector(p.record.fields, p.layout.search);
            Decoded(ids, if sv.Some? then Some((IdOf(d, sv.value.0), sv.value.1)) else None, After(d, p).names)
            == p.record.fields
  {
    var names, fields, sv := After(d, p).names, p.record.fields, SearchVector(p.record.fields, p.layout.search);
    var ids := BlobV5(p.record, d, p.layout.search, p.order).ids;
    V5BlobFields(p.record, d, p.layout.search, p.order, Dict(names, map[]));
    if sv.Some? {
      var name, id := sv.value.0, IdOf(d, sv.value.0);
      assert id < |names| && names[id] == name by { SplitIds(d, p); }
      DecodedJoins(ids, name, id, sv.value.1, fields, names);
    }
  }

  lemma SplitSpelled(d: Dict, p: Put)
    requires WellFormed(p) && p.layout.Split? && Consistent(d) && |After(d, p).names| <= LIMIT
    ensures Spelled(Serialized(d, p), After(d, p).names)
  {
    SplitIds(d, p);
    SplitVector(d, p);
    SplitDecodes(d, p);
  }

  lemma SerializedSpelled(d: Dict, p: Put)
    requires WellFormed(p) && Consistent(d) && |After(d, p).names| <= LIMIT
    ensures Spelled(Serialized(d, p), After(d, p).names)
  {
    if p.layout.Plain? { PlainSpelled(d, p); } else { SplitSpelled(d, p); }
  }

  // ─── The invariant of guarded runs ─────────────────────────────────────────

  predicate Pending(b: Batch, names: seq<string>) {
    Spelled(b, names) && GoodBatch(b) && (b.entry.Some? ==> b.entry.value <= names)
  }

  predicate Kept(s: System) {
    && Sound(s.memory) && GoodEntries(s.entries)
    && (forall l: U16 | l in s.entries :: s.entries[l] <= DictAt(s.memory, l).names)
    && (forall i | 0 <= i < |s.pending| :: Pending(s.pending[i], DictAt(s.memory, s.pending[i].put.lobe).names))
    && (forall i | 0 <= i < |s.stored| :: Spelled(s.stored[i], NamesAt(s.entries, s.stored[i].put.lobe)))
  }

  /** The persisted names after the commit cover the ids of every stored record and of the new one. */
  predicate Guarded(s: System, k: nat)
    requires k < |s.pending|
  {
    var later, all := Committed(s.entries, s.pending[k]), s.stored + [s.pending[k]];
    forall i | 0 <= i < |all| :: HasIds(all[i]) && Covered(all[i], |NamesAt(later, all[i].put.lobe)|)
  }

  lemma PendingGrows(b: Batch, names: seq<string>, more: seq<string>)
    requires Pending(b, names) && names <= more && Distinct(more)
    ensures Pending(b, more)
  {
    SpelledAbove(b, names, more);
  }

  lemma FreshPending(d: Dict, p: Put)
    requires WellFormed(p) && Consistent(d) && |After(d, p).names| <= LIMIT
    ensures Pending(Serialized(d, p), After(d, p).names) && Serialized(d, p).put == p
  {
    AfterKeeps(d, p);
    SerializedSpelled(d, p);
    SerializedEntry(d, p);
  }

  lemma MemoryGrows(s: System, p: Put, l: U16)
    requires Sound(s.memory) && WellFormed(p) && |After(DictAt(s.memory, p.lobe), p).names| <= LIMIT
    ensures var memory := s.memory[p.lobe := After(DictAt(s.memory, p.lobe), p)];
            && Sound(memory) && Distinct(DictAt(memory, l).names)
            && DictAt(s.memory, l).names <= DictAt(memory, l).names
  {
    AfterKeeps(DictAt(s.memory, p.lobe), p);
  }

  lemma SerializeKept(s: System, p: Put)
    requires Kept(s) && WellFormed(p) && |After(DictAt(s.memory, p.lobe), p).names| <= LIMIT
    ensures Kept(Take(s, Serialize(p)).value)
  {
    var d := DictAt(s.memory, p.lobe);
    var t := Take(s, Serialize(p)).value;
    MemoryGrows(s, p, p.lobe);
    FreshPending(d, p);
    forall i | 0 <= i < |t.pending| ensures Pending(t.pending[i], DictAt(t.memory, t.pending[i].put.lobe).names) {
      if i < |s.pending| {
        var l := s.pending[i].put.lobe;
        MemoryGrows(s, p, l);
        PendingGrows(s.pending[i], DictAt(s.memory, l).names, DictAt(t.memory, l).names);
      }
    }
    forall l: U16 | l in t.entries ensures t.entries[l] <= DictAt(t.memory, l).names { MemoryGrows(s, p, l); }
  }

  lemma CommitNames(s: System, k: nat, l: U16)
    requires Kept(s) && k < |s.pending|
    ensures NamesAt(Committed(s.entries, s.pending[k]), l) <= DictAt(s.memory, l).names
  {
    assert Pending(s.pending[k], DictAt(s.memory, s.pending[k].put.lobe).names);
  }

  /** Before and after a commit, every record on disk is spelled by the names in memory. */
  lemma AllSpelledInMemory(s: System, k: nat, i: nat)
    requires Kept(s) && k < |s.pending| && i <= |s.stored|
    ensures var b := (s.stored + [s.pending[k]])[i]; Spelled(b, DictAt(s.memory, b.put.lobe).names)
  {
    if i < |s.stored| {
      var l := s.stored[i].put.lobe;
      assert NamesAt(s.entries, l) <= DictAt(s.memory, l).names;
      SpelledAbove(s.stored[i], NamesAt(s.entries, l), DictAt(s.memory, l).names);
    } else {
      assert Pending(s.pending[k], DictAt(s.memory, s.pending[k].put.lobe).names);
    }
  }

  /** Right after a commit a record on disk is spelled by the persisted names exactly when they cover it. */
  lemma CommitSpellsIff(s: System, k: nat, i: nat)
    requires Kept(s) && k < |s.pending| && i <= |s.stored|
    ensures var b := (s.stored + [s.pending[k]])[i];
            var names := NamesAt(Committed(s.entries, s.pending[k]), b.put.lobe);
            && HasIds(b) && SameHeader(b) && Distinct(names)
            && (Spelled(b, names) <==> Covered(b, |names|))
            && (Decoded(b.blob.ids, VectorOf(b), names) == b.put.record.fields <==> Covered(b, |names|))
  {
    var b := (s.stored + [s.pending[k]])[i];
    AllSpelledInMemory(s, k, i);
    CommitNames(s, k, b.put.lobe);
    SpelledBelowIff(b, NamesAt(Committed(s.entries, s.pending[k]), b.put.lobe), DictAt(s.memory, b.put.lobe).names);
  }

  lemma CommitKept(s: System, k: nat)
    requires Kept(s) && k < |s.pending| && Guarded(s, k)
    ensures Kept(Take(s, Commit(k)).value)
  {
    var t := Take(s, Commit(k)).value;
    assert Pending(s.pending[k], DictAt(s.memory, s.pending[k].put.lobe).names);
    forall i | 0 <= i < |t.stored| ensures Spelled(t.stored[i], NamesAt(t.entries, t.stored[i].put.lobe)) {
      CommitSpellsIff(s, k, i);
    }
    forall l: U16 | l in t.entries ensures t.entries[l] <= DictAt(t.memory, l).names { CommitNames(s, k, l); }
    PendingWithout(s, k);
  }

  lemma PendingWithout(s: System, k: nat)
    requires k < |s.pending|
    requires forall i | 0 <= i < |s.pending| :: Pending(s.pending[i], DictAt(s.memory, s.pending[i].put.lobe).names)
    ensures var rest := s.pending[..k] + s.pending[k + 1..];
            forall i | 0 <= i < |rest| :: Pending(rest[i], DictAt(s.memory, rest[i].put.lobe).names)
  {
    var rest := s.pending[..k] + s.pending[k + 1..];
    forall i | 0 <= i < |rest| ensures Pending(rest[i], DictAt(s.memory, rest[i].put.lobe).names) {
      assert rest[i] == if i < k then s.pending[i] else s.pending[i + 1];
    }
  }

  lemma CrashKept(s: System)
    requires Kept(s)
    ensures Kept(Take(s, Crash).value)
  {
    ReloadedIs(s.entries);
  }

  predicate GuardedStep(s: System, step: Step) {
    step.Commit? && step.k < |s.pending| ==> Guarded(s, step.k)
  }

  lemma StepKept(s: System, step: Step)
    requires Kept(s) && Take(s, step).Some? && FitsAll(Take(s, step)) && GuardedStep(s, step)
    ensures Kept(Take(s, step).value)
  {
    match step
    case Serialize(p) =>
      assert p.lobe in Take(s, step).value.memory;
      SerializeKept(s, p);
    case Commit(k) => CommitKept(s, k);
    case Abandon(k) => PendingWithout(s, k);
    case Crash => CrashKept(s);
  }

  // ─── Guarded runs are exactly the durable ones ─────────────────────────────

  predicate GuardedRun(steps: seq<Step>) {
    forall i | 0 <= i < |steps| :: Run(steps[..i]).Some? ==> GuardedStep(Run(steps[..i]).value, steps[i])
  }

  /** After a crash right now, every record on disk that has a field reads back whole. */
  predicate Survives(s: System) {
    && (forall l | l in Reloaded(s.entries) :: Distinct(Reloaded(s.entries)[l].names))
    && (forall i | 0 <= i < |s.stored| && s.stored[i].put.record.fields != map[] ::
          ReadStored(s.stored[i], Reloaded(s.entries)) == Some(s.stored[i].put.record))
  }

  lemma ReloadedDistinct(entries: Entries)
    requires GoodEntries(entries)
    ensures forall l | l in Reloaded(entries) :: Distinct(Reloaded(entries)[l].names)
    ensures forall l | l in Reloaded(entries) :: Reloaded(entries)[l].names == NamesAt(entries, l)
    ensures forall l: U16 :: l in Reloaded(entries) <==> NamesAt(entries, l) != []
  {
  }

  lemma ReadWithout(b: Batch, memory: Dicts)
    requires (forall l | l in memory :: Distinct(memory[l].names)) && HasIds(b) && b.put.lobe !in memory
    ensures ReadStored(b, memory) == None
  {
  }

  lemma ReadWith(b: Batch, memory: Dicts)
    requires (forall l | l in memory :: Distinct(memory[l].names)) && HasIds(b) && SameHeader(b) && b.put.lobe in memory
    ensures ReadStored(b, memory) == Some(b.put.record)
            <==> Decoded(b.blob.ids, VectorOf(b), memory[b.put.lobe].names) == b.put.record.fields
  {
    ReadBackDecodes(b, memory[b.put.lobe]);
  }

  lemma NothingFromNoNames(ids: IdFields, vec: Option<(U16, seq<F32>)>)
    ensures Decoded(ids, vec, []) == map[]
  {
  }

  /** What a crash leaves of a record on disk. */
  lemma ReadAfterCrash(entries: Entries, b: Batch)
    requires GoodEntries(entries) && HasIds(b) && SameHeader(b) && b.put.record.fields != map[]
    ensures Distinct(NamesAt(entries, b.put.lobe))
    ensures forall l | l in Reloaded(entries) :: Distinct(Reloaded(entries)[l].names)
    ensures ReadStored(b, Reloaded(entries)) == Some(b.put.record)
            <==> Decoded(b.blob.ids, VectorOf(b), NamesAt(entries, b.put.lobe)) == b.put.record.fields
  {
    ReloadedDistinct(entries);
    if b.put.lobe in Reloaded(entries) {
      ReadWith(b, Reloaded(entries));
    } else {
      ReadWithout(b, Reloaded(entries));
      NothingFromNoNames(b.blob.ids, VectorOf(b));
    }
  }

  lemma KeptSurvives(s: System)
    requires Kept(s)
    ensures Survives(s)
  {
    ReloadedDistinct(s.entries);
    forall i | 0 <= i < |s.stored| && s.stored[i].put.record.fields != map[]
      ensures ReadStored(s.stored[i], Reloaded(s.entries)) == Some(s.stored[i].put.record)
    {
      assert Spelled(s.stored[i], NamesAt(s.entries, s.stored[i].put.lobe));
      ReadAfterCrash(s.entries, s.stored[i]);
    }
  }

  lemma UncoveredHasFields(b: Batch, names: seq<string>, n: nat)
    requires Spelled(b, names) && !Covered(b, n)
    ensures b.put.record.fields != map[]
  {
    var ids, vec := b.blob.ids, VectorOf(b);
    if id :| id in ids {
      assert names[id] in Named(ids, names);
      assert names[id] in Decoded(ids, vec, names);
    } else {
      assert names[vec.value.0] in Decoded(ids, vec, names);
    }
  }

  /** A record the persisted names do not cover is lost in a crash. */
  lemma UncoveredIsLost(entries: Entries, b: Batch, more: seq<string>)
    requires GoodEntries(entries) && Spelled(b, more) && NamesAt(entries, b.put.lobe) <= more
    requires !Covered(b, |NamesAt(entries, b.put.lobe)|)
    ensures b.put.record.fields != map[]
    ensures (forall l | l in Reloaded(entries) :: Distinct(Reloaded(entries)[l].names))
            && ReadStored(b, Reloaded(entries)) != Some(b.put.record)
  {
    UncoveredHasFields(b, more, |NamesAt(entries, b.put.lobe)|);
    SpelledBelowIff(b, NamesAt(entries, b.put.lobe), more);
    ReadAfterCrash(entries, b);
  }

  lemma CommittedGood(s: System, k: nat)
    requires Kept(s) && k < |s.pending|
    ensures GoodEntries(Committed(s.entries, s.pending[k]))
  {
    assert Pending(s.pending[k], DictAt(s.memory, s.pending[k].put.lobe).names);
  }

  lemma LosesAt(s: System, k: nat, i: nat)
    requires Kept(s) && k < |s.pending| && i <= |s.stored|
    requires var b := (s.stored + [s.pending[k]])[i];
             !(HasIds(b) && Covered(b, |NamesAt(Committed(s.entries, s.pending[k]), b.put.lobe)|))
    ensures !Survives(Take(s, Commit(k)).value)
  {
    var b, later := (s.stored + [s.pending[k]])[i], Committed(s.entries, s.pending[k]);
    var t := Take(s, Commit(k)).value;
    assert t.entries == later && t.stored[i] == b && i < |t.stored|;
    LostByCommit(s, k, i);
    LostIsLost(t, i);
  }

  lemma LostByCommit(s: System, k: nat, i: nat)
    requires Kept(s) && k < |s.pending| && i <= |s.stored|
    requires var b := (s.stored + [s.pending[k]])[i];
             !(HasIds(b) && Covered(b, |NamesAt(Committed(s.entries, s.pending[k]), b.put.lobe)|))
    ensures var b, later := (s.stored + [s.pending[k]])[i], Committed(s.entries, s.pending[k]);
            && b.put.record.fields != map[]
            && (forall l | l in Reloaded(later) :: Distinct(Reloaded(later)[l].names))
            && ReadStored(b, Reloaded(later)) != Some(b.put.record)
  {
    var b := (s.stored + [s.pending[k]])[i];
    AllSpelledInMemory(s, k, i);
    CommitNames(s, k, b.put.lobe);
    CommittedGood(s, k);
    UncoveredIsLost(Committed(s.entries, s.pending[k]), b, DictAt(s.memory, b.put.lobe).names);
  }

  lemma LostIsLost(s: System, i: nat)
    requires i < |s.stored| && s.stored[i].put.record.fields != map[]
    requires (forall l | l in Reloaded(s.entries) :: Distinct(Reloaded(s.entries)[l].names))
             && ReadStored(s.stored[i], Reloaded(s.entries)) != Some(s.stored[i].put.record)
    ensures !Survives(s)
  {
  }

  /** An unguarded commit leaves a record that a crash loses. */
  lemma UnguardedLoses(s: System, k: nat)
    requires Kept(s) && k < |s.pending| && !Guarded(s, k)
    ensures !Survives(Take(s, Commit(k)).value)
  {
    var all, later := s.stored + [s.pending[k]], Committed(s.entries, s.pending[k]);
    var i :| 0 <= i < |all| && !(HasIds(all[i]) && Covered(all[i], |NamesAt(later, all[i].put.lobe)|));
    LosesAt(s, k, i);
  }

  lemma {:induction false} GuardedRunKept(steps: seq<Step>)
    requires Run(steps).Some? && WithinIds(steps) && GuardedRun(steps)
    ensures Kept(Run(steps).value)
  {
    if steps != [] {
      var front, last := steps[..|steps| - 1], steps[|steps| - 1];
      RunFront(steps);
      GuardedRunKept(front);
      assert GuardedStep(Run(front).value, last);
      StepKept(Run(front).value, last);
    }
  }

  lemma RunFront(steps: seq<Step>)
    requires steps != [] && Run(steps).Some? && WithinIds(steps)
    ensures var front := steps[..|steps| - 1]; Run(front).Some? && WithinIds(front) && FitsAll(Run(steps))
    ensures GuardedRun(steps) ==> GuardedRun(steps[..|steps| - 1])
  {
    var front := steps[..|steps| - 1];
    assert forall i | 0 <= i <= |front| :: front[..i] == steps[..i];
    assert steps[..|steps|] == steps;
  }

  /** Everything on disk survives a crash at every point of the run. */
  predicate AlwaysSurvives(steps: seq<Step>) {
    forall i | 0 <= i <= |steps| :: Run(steps[..i]).Some? ==> Survives(Run(steps[..i]).value)
  }

  lemma {:induction false} DurableIsGuarded(steps: seq<Step>)
    requires Run(steps).Some? && WithinIds(steps) && AlwaysSurvives(steps)
    ensures GuardedRun(steps)
  {
    if steps != [] {
      var front, last := steps[..|steps| - 1], steps[|steps| - 1];
      RunFront(steps);
      assert forall i | 0 <= i <= |front| :: front[..i] == steps[..i];
      DurableIsGuarded(front);
      GuardedRunKept(front);
      assert steps[..|steps|] == steps && Survives(Run(steps).value);
      if last.Commit? && !GuardedStep(Run(front).value, last) {
        UnguardedLoses(Run(front).value, last.k);
      }
    }
  }

  lemma GuardedIsDurable(steps: seq<Step>)
    requires Run(steps).Some? && WithinIds(steps) && GuardedRun(steps)
    ensures AlwaysSurvives(steps)
  {
    forall i | 0 <= i <= |steps| && Run(steps[..i]).Some? ensures Survives(Run(steps[..i]).value) {
      PrefixGuarded(steps, i);
      GuardedRunKept(steps[..i]);
      KeptSurvives(Run(steps[..i]).value);
    }
  }

  lemma PrefixGuarded(steps: seq<Step>, i: nat)
    requires i <= |steps| && WithinIds(steps) && GuardedRun(steps)
    ensures WithinIds(steps[..i]) && GuardedRun(steps[..i])
  {
    assert forall j | 0 <= j <= i :: steps[..i][..j] == steps[..j];
  }

  /**
   For every run within the id space, in whatever order batches commit or fail:
   every record on disk survives a crash at every point of the run exactly when
   each commit left the persisted names covering every record on disk.
   */
  lemma DurableIffGuarded(steps: seq<Step>)
    requires Run(steps).Some? && WithinIds(steps)
    ensures AlwaysSurvives(steps) <==> GuardedRun(steps)
  {
    if AlwaysSurvives(steps) { DurableIsGuarded(steps); }
    if GuardedRun(steps) { GuardedIsDurable(steps); }
  }
}
