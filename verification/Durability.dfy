/**
 The durability protocol of the field registry. Serializing a record may grow
 the in-memory dictionary of its lobe; the grown dictionary travels in the same
 atomic batch as the record; a crash forgets memory and whatever was not yet
 committed, and a restart reloads the dictionaries from disk.
 */
module Durability {
  import opened Bytes
  import opened Values
  import opened Filters
  import opened FieldDictionary
  import opened RecordCodec
  import Distance

  datatype Layout = Plain | Split(search: Option<string>, norm: F64)

  /** One write; `order` is the order in which the field map is iterated. */
  datatype Put = Put(lobe: U16, record: Record, order: seq<string>, layout: Layout)

  predicate WellFormed(p: Put) {
    Lists(p.order, p.record.fields.Keys) && (p.layout.Split? ==> InMemory(p.record, p.layout.search))
  }

  /** How a lobe lays its records out. */
  datatype Form = AsV2 | AsV5(search: Option<string>)

  /** The write of a record, with the norm that is stored beside its search vector. */
  function PutOf<F>(ar: Distance.Arith<F, F64>, lobe: U16, r: Record, order: seq<string>, form: Form): Put {
    Put(lobe, r, order,
        match form
        case AsV2 => Plain
        case AsV5(search) => Split(search, SearchNorm(ar, r.fields, search)))
  }

  /** What one commit writes: the blob, its column, and the dictionary if it grew. */
  datatype Batch = Batch(put: Put, blob: Blob, column: Option<seq<Byte>>, entry: Option<seq<string>>)

  type Dicts = map<U16, Dict>
  type Entries = map<U16, seq<string>>

  function DictAt(dicts: Dicts, lobe: U16): Dict {
    if lobe in dicts then dicts[lobe] else NO_NAMES
  }

  function NamesAt(entries: Entries, lobe: U16): seq<string> {
    if lobe in entries then entries[lobe] else []
  }

  function After(d: Dict, p: Put): Dict {
    match p.layout
    case Plain => GrownAll(d, p.order)
    case Split(search, _) => DictAfterV5(d, p.order, SearchVector(p.record.fields, search))
  }

  function EntryOf(before: Dict, after: Dict): Option<seq<string>> {
    if |after.names| > |before.names| then Some(after.names) else None
  }

  function Serialized(d: Dict, p: Put): Batch
    requires Lists(p.order, p.record.fields.Keys)
  {
    match p.layout
    case Plain => Batch(p, BlobV2(p.record, d, p.order), None, EntryOf(d, After(d, p)))
    case Split(search, norm) =>
      Batch(p, BlobV5(p.record, d, search, p.order), ColumnV5(p.record, d, search, norm), EntryOf(d, After(d, p)))
  }

  // ─── The registry ──────────────────────────────────────────────────────────

  /** `load_from_disk` over a scan of the dictionary keyspace. */
  function Loaded(entries: seq<(seq<Byte>, Option<seq<string>>)>): Dicts {
    if entries == [] then map[]
    else
      var front, e := Loaded(entries[..|entries| - 1]), entries[|entries| - 1];
      if |e.0| < 4 || e.1 == None || e.1.value == [] then front
      else front[LobeOf(e.0) := FromNames(e.1.value)]
  }

  function LobeOf(key: seq<Byte>): U16
    requires |key| >= 4
  {
    var hi: int := key[2];
    hi * 256 + key[3]
  }

  const REGISTRY: seq<Byte> := [0xFF, 0xFB]

  function RegistryKey(lobe: U16): (key: seq<Byte>)
    ensures |key| == 4 && LobeOf(key) == lobe
  {
    REGISTRY + [lobe / 256, lobe % 256]
  }

  /** The scan of the persisted dictionaries, lobes taken in a given order. */
  function Scan(entries: Entries, lobes: seq<U16>): seq<(seq<Byte>, Option<seq<string>>)>
    requires forall l | l in lobes :: l in entries
  {
    seq(|lobes|, i requires 0 <= i < |lobes| => (RegistryKey(lobes[i]), Some(entries[lobes[i]])))
  }

  /** The dictionaries a restart finds: every persisted non-empty name list. */
  function Reloaded(entries: Entries): Dicts {
    map l | l in entries && entries[l] != [] :: FromNames(entries[l])
  }

  /** Whatever order the keyspace is scanned in, loading finds exactly those. */
  lemma {:induction false} LoadedReloads(entries: Entries, lobes: seq<U16>)
    requires forall l | l in lobes :: l in entries
    ensures Loaded(Scan(entries, lobes)) == map l | l in lobes && entries[l] != [] :: FromNames(entries[l])
  {
    if lobes != [] {
      var front, last := lobes[..|lobes| - 1], lobes[|lobes| - 1];
      assert lobes == front + [last];
      assert Scan(entries, lobes)[..|lobes| - 1] == Scan(entries, front);
      LoadedReloads(entries, front);
    }
  }

  /** Serialize against one dictionary and report it when it grew. */
  method SerializeBatch<F>(ar: Distance.Arith<F, F64>, d: FieldDict, lobe: U16, r: Record, order: seq<string>,
                           form: Form)
    returns (batch: Batch)
    requires Lists(order, r.fields.Keys)
    modifies d
    ensures batch == Serialized(old(d.View()), PutOf(ar, lobe, r, order, form))
    ensures d.View() == After(old(d.View()), PutOf(ar, lobe, r, order, form))
  {
    var before, p := d.View(), PutOf(ar, lobe, r, order, form);
    match form
    case AsV2 =>
      var blob := SerializeV2(r, d, order);
      batch := Batch(p, blob, None, EntryOf(before, d.View()));
    case AsV5(search) =>
      var blob, column := SerializeV5(ar, r, d, search, order);
      batch := Batch(p, blob, column, EntryOf(before, d.View()));
  }

  class LobeFieldRegistry {
    var dicts: map<U16, FieldDict>

    /** Each lobe has a dictionary object of its own. */
    ghost predicate Valid()
      reads this
    {
      forall a, b | a in dicts && b in dicts && a != b :: dicts[a] != dicts[b]
    }

    ghost function View(): Dicts
      reads this, dicts.Values
    {
      map l | l in dicts :: dicts[l].View()
    }

    constructor ()
      ensures Valid() && View() == map[]
    {
      dicts := map[];
    }

    constructor LoadFromDisk(entries: seq<(seq<Byte>, Option<seq<string>>)>)
      ensures Valid() && View() == Loaded(entries) && forall l | l in dicts :: fresh(dicts[l])
    {
      dicts := map[];
      new;
      for i := 0 to |entries|
        invariant Valid() && View() == Loaded(entries[..i]) && forall l | l in dicts :: fresh(dicts[l])
      {
        assert entries[..i + 1][..i] == entries[..i];
        var key, value := entries[i].0, entries[i].1;
        if |key| < 4 || value == None {
          continue;
        }
        if value.value != [] {
          var d := new FieldDict.FromPersisted(value.value);
          dicts := dicts[LobeOf(key) := d];
        }
      }
      assert entries[..|entries|] == entries;
    }

    /** `entry(lobe).or_default()`. */
    method Entry(lobe: U16) returns (d: FieldDict)
      requires Valid()
      modifies this
      ensures Valid() && dicts == old(dicts)[lobe := d]
      ensures if lobe in old(dicts) then d == old(dicts[lobe]) else fresh(d)
      ensures d.View() == DictAt(old(View()), lobe)
    {
      if lobe !in dicts {
        var empty := new FieldDict();
        dicts := dicts[lobe := empty];
      }
      d := dicts[lobe];
    }

    method SerializeDurable<F>(ar: Distance.Arith<F, F64>, lobe: U16, r: Record, order: seq<string>, form: Form)
      returns (batch: Batch)
      requires Valid() && Lists(order, r.fields.Keys)
      modifies this, dicts.Values
      ensures Valid() && forall l | l in dicts && l !in old(dicts) :: fresh(dicts[l])
      ensures batch == Serialized(DictAt(old(View()), lobe), PutOf(ar, lobe, r, order, form))
      ensures View() == old(View())[lobe := After(DictAt(old(View()), lobe), PutOf(ar, lobe, r, order, form))]
    {
      var d := Entry(lobe);
      batch := SerializeBatch(ar, d, lobe, r, order, form);
    }
  }
}
