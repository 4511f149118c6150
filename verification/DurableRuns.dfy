/**
 Every run of puts, commits, crashes and restarts: what each step keeps, which
 committed records read back, and why the commit order matters.
 */
module DurableRuns {
  import opened Bytes
  import opened Values
  import opened Filters
  import opened FieldDictionary
  import opened RecordCodec
  import opened Durability

  /** Memory and the batches under way are lost in a crash; entries and stored are on disk. */
  datatype System = System(memory: Dicts, pending: seq<Batch>, entries: Entries, stored: seq<Batch>)

  const EMPTY := System(map[], [], map[], [])

  datatype Step =
    | Serialize(p: Put)
    | Commit(k: nat)
    | Abandon(k: nat)
    | Crash

  /** One atomic batch: the record and, when present, the grown dictionary. */
  function Committed(entries: Entries, b: Batch): Entries {
    if b.entry.Some? then entries[b.put.lobe := b.entry.value] else entries
  }

  function Take(s: System, step: Step): Option<System> {
    match step
    case Serialize(p) =>
      if !WellFormed(p) then None
      else
        var d := DictAt(s.memory, p.lobe);
        Some(s.(memory := s.memory[p.lobe := After(d, p)], pending := s.pending + [Serialized(d, p)]))
    case Commit(k) =>
      if k >= |s.pending| then None
      else
        var b := s.pending[k];
        Some(s.(pending := s.pending[..k] + s.pending[k + 1..], entries := Committed(s.entries, b),
                stored := s.stored + [b]))
    case Abandon(k) =>
      if k >= |s.pending| then None else Some(s.(pending := s.pending[..k] + s.pending[k + 1..]))
    case Crash => Some(System(Reloaded(s.entries), [], s.entries, s.stored))
  }

  function Run(steps: seq<Step>): Option<System> {
    if steps == [] then Some(EMPTY)
    else match Run(steps[..|steps| - 1])
      case Some(s) => Take(s, steps[|steps| - 1])
      case None => None
  }

  /** Batches are committed in the order they were serialized and none is given up. */
  predicate InOrder(steps: seq<Step>) {
    forall i | 0 <= i < |steps| :: !steps[i].Abandon? && (steps[i].Commit? ==> steps[i].k == 0)
  }

  /** No lobe ever holds more names than there are ids. */
  predicate WithinIds(steps: seq<Step>) {
    forall i | 0 <= i <= |steps| :: FitsAll(Run(steps[..i]))
  }

  predicate FitsAll(s: Option<System>) {
    s.Some? ==> forall l | l in s.value.memory :: |s.value.memory[l].names| <= LIMIT
  }

  // ─── What every step keeps ─────────────────────────────────────────────────

  /** The batch was written against a dictionary that `names` still extends. */
  ghost predicate WrittenUnder(b: Batch, names: seq<string>) {
    WellFormed(b.put) && exists d: Dict :: Consistent(d) && Fresh(b, d, names)
  }

  predicate Fresh(b: Batch, d: Dict, names: seq<string>)
    requires WellFormed(b.put)
  {
    b == Serialized(d, b.put) && |After(d, b.put).names| <= LIMIT && After(d, b.put).names <= names
  }

  /**
   Committing the pending batches one by one only ever extends each lobe's
   persisted names, covers each batch when it lands, and ends at what memory holds.
   */
  ghost predicate Chain(entries: Entries, pending: seq<Batch>, memory: Dicts)
    decreases |pending|
  {
    if pending == [] then forall l: U16 :: NamesAt(entries, l) == DictAt(memory, l).names
    else
      var b := pending[0];
      && Lands(entries, b)
      && Chain(Committed(entries, b), pending[1..], memory)
  }

  ghost predicate Lands(entries: Entries, b: Batch) {
    var after := NamesAt(Committed(entries, b), b.put.lobe);
    NamesAt(entries, b.put.lobe) <= after && WrittenUnder(b, after)
  }

  predicate Sound(memory: Dicts) {
    forall l | l in memory :: Consistent(memory[l])
  }

  ghost predicate StoredReadable(stored: seq<Batch>, entries: Entries) {
    forall i | 0 <= i < |stored| :: WrittenUnder(stored[i], NamesAt(entries, stored[i].put.lobe))
  }

  predicate GoodEntries(entries: Entries) {
    forall l | l in entries :: entries[l] != [] && Distinct(entries[l]) && |entries[l]| <= LIMIT
  }

  predicate GoodBatch(b: Batch) {
    b.entry.Some? ==> b.entry.value != [] && Distinct(b.entry.value) && |b.entry.value| <= LIMIT
  }

  ghost predicate Inv(s: System) {
    && Sound(s.memory)
    && GoodEntries(s.entries)
    && (forall i | 0 <= i < |s.pending| :: GoodBatch(s.pending[i]))
    && Chain(s.entries, s.pending, s.memory)
    && StoredReadable(s.stored, s.entries)
  }

  lemma AfterKeeps(d: Dict, p: Put)
    requires WellFormed(p) && Consistent(d) && |After(d, p).names| <= LIMIT
    ensures Consistent(After(d, p)) && d.names <= After(d, p).names
  {
    match p.layout
    case Plain => GrownAllKeeps(d, p.order);
    case Split(search, _) =>
      var sv := SearchVector(p.record.fields, search);
      BaseV5Consistent(d, p.order, sv);
      GrownAllKeeps(BaseV5(d, sv), Rest(p.order, sv));
  }

  lemma SerializedEntry(d: Dict, p: Put)
    requires WellFormed(p)
    ensures Serialized(d, p).put == p && Serialized(d, p).entry == EntryOf(d, After(d, p))
  {
  }

  /** A batch serialized against what memory holds lands on top of what disk holds then. */
  lemma LandsOnMemory(entries: Entries, d: Dict, p: Put)
    requires WellFormed(p) && Consistent(d) && |After(d, p).names| <= LIMIT
    requires NamesAt(entries, p.lobe) == d.names
    ensures Lands(entries, Serialized(d, p)) && GoodBatch(Serialized(d, p))
    ensures NamesAt(Committed(entries, Serialized(d, p)), p.lobe) == After(d, p).names
  {
    AfterKeeps(d, p);
    SerializedEntry(d, p);
    var b := Serialized(d, p);
    assert NamesAt(Committed(entries, b), p.lobe) == After(d, p).names;
    assert Fresh(b, d, After(d, p).names);
  }

  lemma ChainOne(entries: Entries, memory: Dicts, p: Put)
    requires Chain(entries, [], memory) && WellFormed(p) && Sound(memory)
    requires |After(DictAt(memory, p.lobe), p).names| <= LIMIT
    ensures var d := DictAt(memory, p.lobe);
            && Lands(entries, Serialized(d, p))
            && Chain(Committed(entries, Serialized(d, p)), [], memory[p.lobe := After(d, p)])
  {
    var d := DictAt(memory, p.lobe);
    var b := Serialized(d, p);
    LandsOnMemory(entries, d, p);
    SerializedEntry(d, p);
    forall l: U16 ensures NamesAt(Committed(entries, b), l) == DictAt(memory[p.lobe := After(d, p)], l).names {
      assert NamesAt(entries, l) == DictAt(memory, l).names;
    }
  }

  lemma {:induction false} ChainAppend(entries: Entries, pending: seq<Batch>, memory: Dicts, p: Put)
    requires Chain(entries, pending, memory) && WellFormed(p) && Sound(memory)
    requires |After(DictAt(memory, p.lobe), p).names| <= LIMIT
    ensures var d := DictAt(memory, p.lobe);
            Chain(entries, pending + [Serialized(d, p)], memory[p.lobe := After(d, p)])
    decreases |pending|
  {
    var b := Serialized(DictAt(memory, p.lobe), p);
    var more := pending + [b];
    if pending == [] {
      ChainOne(entries, memory, p);
      assert more[0] == b && more[1..] == [];
    } else {
      ChainAppend(Committed(entries, pending[0]), pending[1..], memory, p);
      assert more[0] == pending[0] && more[1..] == pending[1..] + [b];
    }
  }

  lemma StoredGrows(stored: seq<Batch>, entries: Entries, b: Batch)
    requires StoredReadable(stored, entries) && Lands(entries, b)
    ensures StoredReadable(stored + [b], Committed(entries, b))
  {
    var later := Committed(entries, b);
    forall i | 0 <= i < |stored| ensures WrittenUnder(stored[i], NamesAt(later, stored[i].put.lobe)) {
      StaysWritten(stored[i], NamesAt(entries, stored[i].put.lobe), NamesAt(later, stored[i].put.lobe));
    }
  }

  lemma StaysWritten(b: Batch, names: seq<string>, more: seq<string>)
    requires WrittenUnder(b, names) && names <= more
    ensures WrittenUnder(b, more)
  {
    var d: Dict :| Consistent(d) && Fresh(b, d, names);
    assert Fresh(b, d, more);
  }

  lemma ReloadedIs(entries: Entries)
    requires GoodEntries(entries)
    ensures Sound(Reloaded(entries)) && Chain(entries, [], Reloaded(entries))
  {
    forall l | l in entries ensures Consistent(FromNames(entries[l])) {
      FromNamesConsistent(entries[l]);
    }
  }

  lemma SerializeKeeps(s: System, p: Put)
    requires Inv(s) && WellFormed(p) && |After(DictAt(s.memory, p.lobe), p).names| <= LIMIT
    ensures Inv(Take(s, Serialize(p)).value)
  {
    var d := DictAt(s.memory, p.lobe);
    ChainAppend(s.entries, s.pending, s.memory, p);
    AfterKeeps(d, p);
    assert GoodBatch(Serialized(d, p)) by { LandsOnMemory(map[p.lobe := d.names], d, p); }
  }

  lemma CommitKeeps(s: System)
    requires Inv(s) && s.pending != []
    ensures Inv(Take(s, Commit(0)).value)
  {
    assert s.pending[..0] + s.pending[1..] == s.pending[1..];
    StoredGrows(s.stored, s.entries, s.pending[0]);
  }

  lemma StepKeeps(s: System, step: Step)
    requires Inv(s) && Take(s, step).Some? && FitsAll(Take(s, step))
    requires !step.Abandon? && (step.Commit? ==> step.k == 0)
    ensures Inv(Take(s, step).value)
  {
    match step
    case Serialize(p) =>
      assert p.lobe in Take(s, step).value.memory;
      SerializeKeeps(s, p);
    case Commit(_) => CommitKeeps(s);
    case Crash => ReloadedIs(s.entries);
  }

  lemma {:induction false} EveryRunKeeps(steps: seq<Step>)
    requires Run(steps).Some? && InOrder(steps) && WithinIds(steps)
    ensures Inv(Run(steps).value)
  {
    if steps != [] {
      var front := steps[..|steps| - 1];
      forall i | 0 <= i <= |front| ensures FitsAll(Run(front[..i])) {
        assert front[..i] == steps[..i];
      }
      EveryRunKeeps(front);
      assert steps[..|steps|] == steps;
      StepKeeps(Run(front).value, steps[|steps| - 1]);
    }
  }

  // ─── What is read back ─────────────────────────────────────────────────────

  /** Read a committed record with whatever dictionary its lobe has in memory. */
  function ReadStored(b: Batch, memory: Dicts): Option<Record>
    requires forall l | l in memory :: Distinct(memory[l].names)
  {
    ReadBack(b.blob, b.column, b.put.record.lobe, if b.put.lobe in memory then Some(memory[b.put.lobe]) else None)
  }

  lemma WrittenReads(b: Batch, dict: Dict)
    requires WrittenUnder(b, dict.names) && Distinct(dict.names)
    ensures ReadBack(b.blob, b.column, b.put.record.lobe, Some(dict)) == Some(b.put.record)
  {
    var d: Dict :| Consistent(d) && Fresh(b, d, dict.names);
    var p := b.put;
    match p.layout
    case Plain => V2RoundTripIff(p.record, d, p.order, dict);
    case Split(search, norm) => V5RoundTripIff(p.record, d, search, p.order, norm, dict);
  }

  lemma {:induction false} ChainExtends(entries: Entries, pending: seq<Batch>, memory: Dicts, l: U16)
    requires Chain(entries, pending, memory)
    ensures NamesAt(entries, l) <= DictAt(memory, l).names
    decreases |pending|
  {
    if pending != [] {
      ChainExtends(Committed(entries, pending[0]), pending[1..], memory, l);
    }
  }

  /** A record with a field needs a name, so its lobe's dictionary is not empty. */
  lemma NamesNeeded(b: Batch, names: seq<string>)
    requires WrittenUnder(b, names) && b.put.record.fields != map[]
    ensures names != []
  {
    if names == [] {
      var d: Dict :| Consistent(d) && Fresh(b, d, names);
      var n :| n in b.put.record.fields;
      AfterHolds(d, b.put, n);
    }
  }

  lemma AfterHolds(d: Dict, p: Put, n: string)
    requires WellFormed(p) && Consistent(d) && |After(d, p).names| <= LIMIT && n in p.record.fields
    ensures After(d, p).names != []
  {
    match p.layout
    case Plain => GrownAllKeeps(d, p.order);
    case Split(search, _) =>
      var sv := SearchVector(p.record.fields, search);
      BaseV5Consistent(d, p.order, sv);
      RestListed(p.order, sv);
      GrownAllKeeps(BaseV5(d, sv), Rest(p.order, sv));
  }

  /**
   In every run that commits in serialization order and stays within the id
   space, at every point of it (after any crash, restart and later dictionary
   growth), a committed record reads back whole exactly when it has a field or
   its lobe has a dictionary in memory.
   */
  lemma EveryCommittedRecordReads(steps: seq<Step>, i: nat)
    requires Run(steps).Some? && InOrder(steps) && WithinIds(steps)
    requires i < |Run(steps).value.stored|
    ensures var s := Run(steps).value;
            && (forall l | l in s.memory :: Distinct(s.memory[l].names))
            && (ReadStored(s.stored[i], s.memory) == Some(s.stored[i].put.record)
                <==> (s.stored[i].put.record.fields != map[] || s.stored[i].put.lobe in s.memory))
  {
    EveryRunKeeps(steps);
    var s := Run(steps).value;
    var b := s.stored[i];
    var l := b.put.lobe;
    ChainExtends(s.entries, s.pending, s.memory, l);
    if b.put.record.fields != map[] {
      NamesNeeded(b, NamesAt(s.entries, l));
    }
    if l in s.memory {
      StaysWritten(b, NamesAt(s.entries, l), s.memory[l].names);
      WrittenReads(b, s.memory[l]);
    }
  }

  // ─── Why the conditions are there ──────────────────────────────────────────

  function Tiny(fields: Fields, order: seq<string>): Put {
    Put(7, Record(1, "lobe", fields, 0, 0), order, Plain)
  }

  const ONE_FIELD := Tiny(map["a" := Int(1)], ["a"])

  lemma TwoWrites()
    ensures Run([Serialize(ONE_FIELD), Serialize(ONE_FIELD)]).Some?
    ensures var s := Run([Serialize(ONE_FIELD), Serialize(ONE_FIELD)]).value;
            && |s.pending| == 2 && s.entries == map[] && s.stored == []
            && s.pending[1].put == ONE_FIELD && s.pending[1].entry == None
            && s.pending[1].blob.V2?
  {
    var two := [Serialize(ONE_FIELD), Serialize(ONE_FIELD)];
    var one := two[..1];
    assert one[..0] == [] && one[0] == two[0];
    assert WellFormed(ONE_FIELD);
    assert GrownAll(NO_NAMES, ["a"]) == Grown(NO_NAMES, "a");
    var d := Grown(NO_NAMES, "a");
    assert GrownAll(d, ["a"]) == Grown(d, "a") == d;
    assert Run([]) == Some(EMPTY);
    assert Run(one) == Take(EMPTY, one[0]);
    assert Run(two) == Take(Run(one).value, two[1]);
    assert DictAt(Run(one).value.memory, 7) == d;
    SerializedEntry(d, ONE_FIELD);
  }

  lemma RunOnce(steps: seq<Step>, step: Step)
    requires Run(steps).Some?
    ensures Run(steps + [step]) == Take(Run(steps).value, step)
  {
    assert (steps + [step])[..|steps|] == steps;
  }

  /**
   The second of two writes with the same new field name carries no dictionary:
   when it is committed first and the machine crashes, it cannot be decoded.
   */
  lemma OutOfOrderCommitLosesRecord()
    ensures var run := [Serialize(ONE_FIELD), Serialize(ONE_FIELD)] + [Commit(1)] + [Crash];
            && Run(run).Some? && |Run(run).value.stored| == 1 && Run(run).value.memory == map[]
            && ReadStored(Run(run).value.stored[0], map[]) == None
  {
    TwoWrites();
    RunOnce([Serialize(ONE_FIELD), Serialize(ONE_FIELD)], Commit(1));
    RunOnce([Serialize(ONE_FIELD), Serialize(ONE_FIELD)] + [Commit(1)], Crash);
  }

  /** The same record is lost when the first batch fails to commit and the second succeeds. */
  lemma AbandonedBatchLosesRecord()
    ensures var run := [Serialize(ONE_FIELD), Serialize(ONE_FIELD)] + [Abandon(0)] + [Commit(0)] + [Crash];
            && Run(run).Some? && |Run(run).value.stored| == 1 && Run(run).value.memory == map[]
            && ReadStored(Run(run).value.stored[0], map[]) == None
  {
    TwoWrites();
    RunOnce([Serialize(ONE_FIELD), Serialize(ONE_FIELD)], Abandon(0));
    RunOnce([Serialize(ONE_FIELD), Serialize(ONE_FIELD)] + [Abandon(0)], Commit(0));
    RunOnce([Serialize(ONE_FIELD), Serialize(ONE_FIELD)] + [Abandon(0)] + [Commit(0)], Crash);
  }
}
