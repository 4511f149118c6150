/**
 Records on disk: field names replaced by dictionary ids, and in the split
 layout the search vector moved out of the blob into its own column.
 */
module RecordCodec {
  import opened Bytes
  import opened Values
  import opened Filters
  import opened FieldDictionary
  import opened Leb128
  import opened VectorColumn
  import Distance

  type IdFields = map<U16, Value>

  /** A stored blob by its format byte; the payload codec is taken as exact. */
  datatype Blob =
    | V1(lid: nat, fields: Fields, createdAt: I64, updatedAt: I64)
    | V2(lid: nat, ids: IdFields, createdAt: I64, updatedAt: I64)
    | V5(lid: nat, ids: IdFields, createdAt: I64, updatedAt: I64)
    | Legacy(record: Record)
    | Unreadable

  // ─── Assigning ids ─────────────────────────────────────────────────────────

  /** The dictionary after ids were requested for each name in turn. */
  function GrownAll(d: Dict, order: seq<string>): Dict {
    if order == [] then d else Grown(GrownAll(d, order[..|order| - 1]), order[|order| - 1])
  }

  /** The id-keyed fields the serialization loop collects. */
  function Collected(d: Dict, order: seq<string>, fields: Fields): IdFields
    requires forall n | n in order :: n in fields
  {
    if order == [] then map[]
    else
      var front, last := order[..|order| - 1], order[|order| - 1];
      Collected(d, front, fields)[IdOf(GrownAll(d, front), last) := fields[last]]
  }

  /** One listing of a record's field names. */
  predicate Lists(order: seq<string>, keys: set<string>) {
    (forall i | 0 <= i < |order| :: order[i] in keys) && (forall n | n in keys :: n in order) && Distinct(order)
  }

  predicate HasId(ids: IdFields, names: seq<string>, name: string) {
    exists id | id in ids :: id < |names| && names[id] == name
  }

  /** Every id stands for a field of the record and every field has an id. */
  predicate Written(ids: IdFields, fields: Fields, names: seq<string>) {
    && (forall id | id in ids :: id < |names| && names[id] in fields && ids[id] == fields[names[id]])
    && (forall n | n in fields :: HasId(ids, names, n))
  }

  lemma {:induction false} GrownAllKeeps(d: Dict, order: seq<string>)
    requires Consistent(d) && |GrownAll(d, order).names| <= LIMIT
    ensures Consistent(GrownAll(d, order)) && d.names <= GrownAll(d, order).names
    ensures forall n | n in order :: n in GrownAll(d, order).ids
  {
    if order != [] {
      var front, last := order[..|order| - 1], order[|order| - 1];
      GrownAllKeeps(d, front);
      GrownKeeps(GrownAll(d, front), last);
      assert order == front + [last];
    }
  }

  /** A later, longer dictionary reads the same record. */
  lemma WrittenExtends(ids: IdFields, fields: Fields, names: seq<string>, more: seq<string>)
    requires Written(ids, fields, names) && names <= more
    ensures Written(ids, fields, more)
  {
    forall n | n in fields ensures HasId(ids, more, n) {
      assert HasId(ids, names, n);
      var id :| id in ids && id < |names| && names[id] == n;
      assert more[id] == n;
    }
  }

  /** Writing one more field under an id that names it and is not taken. */
  lemma AddOneField(ids: IdFields, fields: Fields, names: seq<string>, id: U16, name: string, v: Value)
    requires Distinct(names) && Written(ids, fields, names)
    requires id < |names| && names[id] == name && name !in fields
    ensures Written(ids[id := v], fields[name := v], names)
  {
    var more := ids[id := v];
    assert id !in ids;
    forall n | n in fields ensures HasId(more, names, n) {
      assert HasId(ids, names, n);
      var i :| i in ids && i < |names| && names[i] == n;
      assert i in more;
    }
    assert id in more;
  }

  /** The fields of a record that a listing of names picks out. */
  function Picked(order: seq<string>, fields: Fields): Fields
    requires forall n | n in order :: n in fields
  {
    map n | n in order :: fields[n]
  }

  lemma PickedOne(order: seq<string>, fields: Fields)
    requires order != [] && forall n | n in order :: n in fields
    ensures forall n | n in order[..|order| - 1] :: n in fields
    ensures Picked(order, fields)
            == Picked(order[..|order| - 1], fields)[order[|order| - 1] := fields[order[|order| - 1]]]
  {
    assert order == order[..|order| - 1] + [order[|order| - 1]];
  }

  /** The collected ids name exactly the listed fields. */
  lemma {:induction false} CollectedWritten(d: Dict, order: seq<string>, fields: Fields)
    requires Consistent(d) && |GrownAll(d, order).names| <= LIMIT && Distinct(order)
    requires forall n | n in order :: n in fields
    ensures Written(Collected(d, order, fields), Picked(order, fields), GrownAll(d, order).names)
  {
    if order != [] {
      var front, last := order[..|order| - 1], order[|order| - 1];
      PickedOne(order, fields);
      var before := GrownAll(d, front);
      CollectedWritten(d, front, fields);
      GrownAllKeeps(d, front);
      GrownKeeps(before, last);
      var ids, names := Collected(d, front, fields), Grown(before, last).names;
      WrittenExtends(ids, Picked(front, fields), before.names, names);
      AddOneField(ids, Picked(front, fields), names, IdOf(before, last), last, fields[last]);
    }
  }

  // ─── Reading ───────────────────────────────────────────────────────────────

  /** Ids back to names; an id the dictionary does not know is dropped. */
  function Named(ids: IdFields, names: seq<string>): Fields
    requires Distinct(names)
  {
    map id | id in ids && id < |names| :: names[id] := ids[id]
  }

  /** A written record is read back whole. */
  lemma NamedInvertsWritten(ids: IdFields, fields: Fields, names: seq<string>)
    requires Distinct(names) && Written(ids, fields, names)
    ensures Named(ids, names) == fields
  {
    var r := Named(ids, names);
    forall n | n in fields ensures n in r {
      assert HasId(ids, names, n);
      var id :| id in ids && id < |names| && names[id] == n;
      assert names[id] in r;
    }
    assert r.Keys == fields.Keys;
  }

  /** `deserialize_record`: id-keyed formats need the lobe's dictionary. */
  function Deserialize(blob: Blob, lobe: string, dict: Option<Dict>): Option<Record>
    requires dict.Some? ==> Distinct(dict.value.names)
  {
    match blob
    case V1(lid, fields, c, u) => Some(Record(lid, lobe, fields, c, u))
    case V2(lid, ids, c, u) => if dict.Some? then Some(Record(lid, lobe, Named(ids, dict.value.names), c, u)) else None
    case V5(lid, ids, c, u) => if dict.Some? then Some(Record(lid, lobe, Named(ids, dict.value.names), c, u)) else None
    case Legacy(r) => Some(r)
    case Unreadable => None
  }

  /** `hydrate_vector`: put the column's vector back under its field name. */
  function Hydrate(r: Record, column: seq<Byte>, dict: Dict): (bool, Record) {
    match ReadColumn(column)
    case Some(p) =>
      (match NameOf(dict, p.id)
       case Some(name) => (true, r.(fields := r.fields[name := Vector(Unpack(p.floats))]))
       case None => (false, r))
    case None => (false, r)
  }

  /** `deserialize_hydrated`: a V5 blob gets its column's vector re-attached. */
  function ReadBack(blob: Blob, column: Option<seq<Byte>>, lobe: string, dict: Option<Dict>): Option<Record>
    requires dict.Some? ==> Distinct(dict.value.names)
  {
    match Deserialize(blob, lobe, dict)
    case Some(r) =>
      if blob.V5? && dict.Some? && column.Some? then Some(Hydrate(r, column.value, dict.value).1) else Some(r)
    case None => None
  }

  // ─── Writing ───────────────────────────────────────────────────────────────

  /** The serialization loop shared by both id-keyed formats. */
  method CollectIds(dict: FieldDict, order: seq<string>, fields: Fields) returns (ids: IdFields)
    requires forall n | n in order :: n in fields
    modifies dict
    ensures dict.View() == GrownAll(old(dict.View()), order)
    ensures ids == Collected(old(dict.View()), order, fields)
  {
    ids := map[];
    ghost var before := dict.View();
    for i := 0 to |order|
      invariant forall n | n in order[..i] :: n in fields
      invariant dict.View() == GrownAll(before, order[..i])
      invariant ids == Collected(before, order[..i], fields)
    {
      assert order[..i + 1][..i] == order[..i];
      assert forall n | n in order[..i + 1] :: n in order;
      var id, _ := dict.GetOrCreateId(order[i]);
      ids := ids[id := fields[order[i]]];
    }
    assert order[..|order|] == order;
  }

  method SerializeV2(r: Record, dict: FieldDict, order: seq<string>) returns (blob: Blob)
    requires Lists(order, r.fields.Keys)
    modifies dict
    ensures dict.View() == GrownAll(old(dict.View()), order)
    ensures blob == BlobV2(r, old(dict.View()), order)
  {
    var ids := CollectIds(dict, order, r.fields);
    blob := V2(r.lid, ids, r.createdAt, r.updatedAt);
  }

  /** The search field, if it holds a vector. */
  function SearchVector(fields: Fields, search: Option<string>): Option<(string, seq<F32>)> {
    if search.Some? && search.value in fields && fields[search.value].Vector?
    then Some((search.value, fields[search.value].floats)) else None
  }

  /** A record as it exists in memory: a 128-bit LID and a vector whose bytes can be addressed. */
  predicate InMemory(r: Record, search: Option<string>) {
    var sv := SearchVector(r.fields, search);
    r.lid < U128 && (sv.Some? ==> 4 * |sv.value.1| < USIZE)
  }

  function Rest(order: seq<string>, search: Option<(string, seq<F32>)>): seq<string> {
    if order == [] then []
    else Rest(order[..|order| - 1], search)
         + (if search.Some? && order[|order| - 1] == search.value.0 then [] else [order[|order| - 1]])
  }

  function DictAfterV5(d: Dict, order: seq<string>, search: Option<(string, seq<F32>)>): Dict {
    GrownAll(BaseV5(d, search), Rest(order, search))
  }

  lemma {:induction false} RestListed(order: seq<string>, search: Option<(string, seq<F32>)>)
    requires Distinct(order)
    ensures Distinct(Rest(order, search))
    ensures forall n :: n in Rest(order, search) <==> n in order && (search.Some? ==> n != search.value.0)
  {
    if order != [] {
      var front, last := order[..|order| - 1], order[|order| - 1];
      assert order == front + [last];
      RestListed(front, search);
      assert last !in front;
    }
  }

  /** The norm stored beside the search vector. */
  function SearchNorm<F>(ar: Distance.Arith<F, F64>, fields: Fields, search: Option<string>): F64 {
    var sv := SearchVector(fields, search);
    if sv.Some? then Distance.NormOf(ar, sv.value.1) else 0
  }

  /** The split writer, which computes the squared norm it stores. */
  method SerializeV5<F>(ar: Distance.Arith<F, F64>, r: Record, dict: FieldDict, search: Option<string>,
                        order: seq<string>)
    returns (blob: Blob, column: Option<seq<Byte>>)
    requires Lists(order, r.fields.Keys)
    modifies dict
    ensures dict.View() == DictAfterV5(old(dict.View()), order, SearchVector(r.fields, search))
    ensures blob == BlobV5(r, old(dict.View()), search, order)
    ensures column == ColumnV5(r, old(dict.View()), search, SearchNorm(ar, r.fields, search))
  {
    var sv := SearchVector(r.fields, search);
    RestListed(order, sv);
    column := None;
    if sv.Some? {
      var id, _ := dict.GetOrCreateId(sv.value.0);
      var norm := Distance.NormSq(ar, sv.value.1);
      var col := BuildColumn(r.lid, id, sv.value.1, norm);
      column := Some(col);
    }
    var ids := CollectIds(dict, Rest(order, sv), r.fields);
    blob := V5(r.lid, ids, r.createdAt, r.updatedAt);
  }

  // ─── Round trips ───────────────────────────────────────────────────────────

  lemma {:induction false} GrownAllAppends(d: Dict, order: seq<string>)
    ensures d.names <= GrownAll(d, order).names
    ensures forall i | |d.names| <= i < |GrownAll(d, order).names| :: GrownAll(d, order).names[i] in order
  {
    if order != [] {
      var front, last := order[..|order| - 1], order[|order| - 1];
      GrownAllAppends(d, front);
      assert order == front + [last];
    }
  }

  lemma PickedAll(order: seq<string>, fields: Fields)
    requires Lists(order, fields.Keys)
    ensures Picked(order, fields) == fields
  {
  }

  /** A name beyond the id space is never read back: every id stands for an earlier one. */
  lemma LostName(ids: IdFields, names: seq<string>)
    requires Distinct(names) && |names| > LIMIT
    ensures names[LIMIT] !in Named(ids, names)
  {
    assert forall id | id in ids && id < |names| :: id < LIMIT && names[id] != names[LIMIT];
  }

  function BlobV2(r: Record, d: Dict, order: seq<string>): Blob
    requires Lists(order, r.fields.Keys)
  {
    V2(r.lid, Collected(d, order, r.fields), r.createdAt, r.updatedAt)
  }

  /** The collected ids read back as the listed fields, under any longer dictionary. */
  lemma CollectedReads(d: Dict, order: seq<string>, fields: Fields, later: seq<string>)
    requires Consistent(d) && |GrownAll(d, order).names| <= LIMIT && Distinct(order)
    requires forall n | n in order :: n in fields
    requires Distinct(later) && GrownAll(d, order).names <= later
    ensures Named(Collected(d, order, fields), later) == Picked(order, fields)
  {
    CollectedWritten(d, order, fields);
    var ids, picked := Collected(d, order, fields), Picked(order, fields);
    WrittenExtends(ids, picked, GrownAll(d, order).names, later);
    NamedInvertsWritten(ids, picked, later);
  }

  /**
   A V2 record reads back whole under the dictionary it was written with and
   under every later extension of it, exactly when all its names got an id of
   their own.
   */
  lemma V2RoundTripIff(r: Record, d: Dict, order: seq<string>, later: Dict)
    requires Consistent(d) && Lists(order, r.fields.Keys)
    requires Distinct(later.names) && GrownAll(d, order).names <= later.names
    ensures Deserialize(BlobV2(r, d, order), r.lobe, Some(later)) == Some(r)
            <==> |GrownAll(d, order).names| <= LIMIT
  {
    if |GrownAll(d, order).names| <= LIMIT {
      CollectedReads(d, order, r.fields, later.names);
      PickedAll(order, r.fields);
    } else {
      V2Loses(r, d, order, later.names);
    }
  }

  lemma V2Loses(r: Record, d: Dict, order: seq<string>, later: seq<string>)
    requires Consistent(d) && Lists(order, r.fields.Keys) && |GrownAll(d, order).names| > LIMIT
    requires Distinct(later) && GrownAll(d, order).names <= later
    ensures Named(Collected(d, order, r.fields), later) != r.fields
  {
    GrownAllAppends(d, order);
    assert GrownAll(d, order).names[LIMIT] == later[LIMIT];
    assert later[LIMIT] in r.fields;
    LostName(Collected(d, order, r.fields), later);
  }

  function BaseV5(d: Dict, sv: Option<(string, seq<F32>)>): Dict {
    if sv.Some? then Grown(d, sv.value.0) else d
  }

  function BlobV5(r: Record, d: Dict, search: Option<string>, order: seq<string>): Blob
    requires Lists(order, r.fields.Keys)
  {
    var sv := SearchVector(r.fields, search);
    RestListed(order, sv);
    V5(r.lid, Collected(BaseV5(d, sv), Rest(order, sv), r.fields), r.createdAt, r.updatedAt)
  }

  function ColumnV5(r: Record, d: Dict, search: Option<string>, norm: F64): Option<seq<Byte>> {
    var sv := SearchVector(r.fields, search);
    if sv.Some? then Some(Column(r.lid, IdOf(d, sv.value.0), sv.value.1, norm)) else None
  }

  lemma BaseV5Consistent(d: Dict, order: seq<string>, sv: Option<(string, seq<F32>)>)
    requires Consistent(d) && |DictAfterV5(d, order, sv).names| <= LIMIT
    ensures Consistent(BaseV5(d, sv)) && BaseV5(d, sv).names <= DictAfterV5(d, order, sv).names
    ensures sv.Some? ==> NameOf(BaseV5(d, sv), IdOf(d, sv.value.0)) == Some(sv.value.0)
  {
    GrownAllAppends(BaseV5(d, sv), Rest(order, sv));
    if sv.Some? { GrownKeeps(d, sv.value.0); }
  }

  lemma PickedRest(order: seq<string>, fields: Fields, sv: Option<(string, seq<F32>)>)
    requires Lists(order, fields.Keys)
    ensures Distinct(Rest(order, sv)) && forall n | n in Rest(order, sv) :: n in fields
    ensures Picked(Rest(order, sv), fields) == if sv.Some? then fields - {sv.value.0} else fields
  {
    RestListed(order, sv);
  }

  /** What the blob alone decodes to: everything but the hoisted vector. */
  lemma V5BlobFields(r: Record, d: Dict, search: Option<string>, order: seq<string>, later: Dict)
    requires Consistent(d) && Lists(order, r.fields.Keys) && Distinct(later.names)
    requires |DictAfterV5(d, order, SearchVector(r.fields, search)).names| <= LIMIT
    requires DictAfterV5(d, order, SearchVector(r.fields, search)).names <= later.names
    ensures var sv := SearchVector(r.fields, search);
            Named(BlobV5(r, d, search, order).ids, later.names)
            == if sv.Some? then r.fields - {sv.value.0} else r.fields
  {
    var sv := SearchVector(r.fields, search);
    PickedRest(order, r.fields, sv);
    BaseV5Consistent(d, order, sv);
    CollectedReads(BaseV5(d, sv), Rest(order, sv), r.fields, later.names);
  }

  /** Hydration re-inserts the vector under the name its id stands for. */
  lemma HydrateColumn(r: Record, lid: nat, id: U16, v: seq<F32>, norm: F64, dict: Dict)
    requires lid < U128 && 4 * |v| < USIZE
    ensures Hydrate(r, Column(lid, id, v, norm), dict)
            == match NameOf(dict, id)
               case Some(name) => (true, r.(fields := r.fields[name := Vector(v)]))
               case None => (false, r)
  {
    WholeColumnReads(lid, id, v, norm);
    UnpackInvertsPack(v);
  }

  lemma Rehydrate(r: Record, name: string, id: U16, v: seq<F32>, norm: F64, dict: Dict)
    requires name in r.fields && r.fields[name] == Vector(v) && NameOf(dict, id) == Some(name)
    requires r.lid < U128 && 4 * |v| < USIZE
    ensures Hydrate(r.(fields := r.fields - {name}), Column(r.lid, id, v, norm), dict).1 == r
  {
    HydrateColumn(r.(fields := r.fields - {name}), r.lid, id, v, norm, dict);
    assert (r.fields - {name})[name := Vector(v)] == r.fields;
  }

  /** A blob that lacks one vector and the column that holds it make the record. */
  lemma ReadBackJoins(r: Record, blob: Blob, name: string, id: U16, v: seq<F32>, norm: F64, dict: Dict)
    requires blob.V5? && blob.lid == r.lid && blob.createdAt == r.createdAt && blob.updatedAt == r.updatedAt
    requires Distinct(dict.names) && Named(blob.ids, dict.names) == r.fields - {name}
    requires name in r.fields && r.fields[name] == Vector(v) && NameOf(dict, id) == Some(name)
    requires r.lid < U128 && 4 * |v| < USIZE
    ensures ReadBack(blob, Some(Column(r.lid, id, v, norm)), r.lobe, Some(dict)) == Some(r)
  {
    Rehydrate(r, name, id, v, norm, dict);
    assert Deserialize(blob, r.lobe, Some(dict)) == Some(r.(fields := r.fields - {name}));
  }

  lemma NameStays(d: Dict, order: seq<string>, sv: Option<(string, seq<F32>)>, later: Dict)
    requires Consistent(d) && |DictAfterV5(d, order, sv).names| <= LIMIT && sv.Some?
    requires DictAfterV5(d, order, sv).names <= later.names
    ensures NameOf(later, IdOf(d, sv.value.0)) == Some(sv.value.0)
  {
    BaseV5Consistent(d, order, sv);
    assert BaseV5(d, sv).names <= later.names;
  }

  lemma V5Reads(r: Record, d: Dict, search: Option<string>, order: seq<string>, norm: F64, later: Dict)
    requires Consistent(d) && Lists(order, r.fields.Keys) && Distinct(later.names)
    requires InMemory(r, search)
    requires |DictAfterV5(d, order, SearchVector(r.fields, search)).names| <= LIMIT
    requires DictAfterV5(d, order, SearchVector(r.fields, search)).names <= later.names
    ensures ReadBack(BlobV5(r, d, search, order), ColumnV5(r, d, search, norm), r.lobe, Some(later)) == Some(r)
  {
    var sv := SearchVector(r.fields, search);
    V5BlobFields(r, d, search, order, later);
    if sv.Some? {
      var name, id := sv.value.0, IdOf(d, sv.value.0);
      NameStays(d, order, sv, later);
      ReadBackJoins(r, BlobV5(r, d, search, order), name, id, sv.value.1, norm, later);
    }
  }

  /** No column can bring a name back that is beyond the id space. */
  lemma HydrateCannotRestore(r: Record, column: seq<Byte>, dict: Dict)
    requires Distinct(dict.names) && |dict.names| > LIMIT && dict.names[LIMIT] !in r.fields
    ensures dict.names[LIMIT] !in Hydrate(r, column, dict).1.fields
  {
  }

  lemma LostField(r: Record, d: Dict, search: Option<string>, order: seq<string>, later: Dict)
    requires Consistent(d) && Lists(order, r.fields.Keys) && Distinct(later.names)
    requires |DictAfterV5(d, order, SearchVector(r.fields, search)).names| > LIMIT
    requires DictAfterV5(d, order, SearchVector(r.fields, search)).names <= later.names
    ensures later.names[LIMIT] in r.fields
  {
    var sv := SearchVector(r.fields, search);
    RestListed(order, sv);
    GrownAllAppends(BaseV5(d, sv), Rest(order, sv));
    assert later.names[LIMIT] == DictAfterV5(d, order, sv).names[LIMIT];
  }

  lemma V5Loses(r: Record, d: Dict, search: Option<string>, order: seq<string>, norm: F64, later: Dict)
    requires Consistent(d) && Lists(order, r.fields.Keys) && Distinct(later.names)
    requires |DictAfterV5(d, order, SearchVector(r.fields, search)).names| > LIMIT
    requires DictAfterV5(d, order, SearchVector(r.fields, search)).names <= later.names
    ensures ReadBack(BlobV5(r, d, search, order), ColumnV5(r, d, search, norm), r.lobe, Some(later)) != Some(r)
  {
    LostField(r, d, search, order, later);
    LostAnyway(BlobV5(r, d, search, order), ColumnV5(r, d, search, norm), r.lobe, later);
  }

  lemma LostAnyway(blob: Blob, column: Option<seq<Byte>>, lobe: string, dict: Dict)
    requires blob.V5? && Distinct(dict.names) && |dict.names| > LIMIT
    ensures var back := ReadBack(blob, column, lobe, Some(dict));
            back.Some? && dict.names[LIMIT] !in back.value.fields
  {
    LostName(blob.ids, dict.names);
    if column.Some? {
      HydrateCannotRestore(Deserialize(blob, lobe, Some(dict)).value, column.value, dict);
    }
  }

  /** The split layout reads back whole exactly when every name got an id of its own. */
  lemma V5RoundTripIff(r: Record, d: Dict, search: Option<string>, order: seq<string>, norm: F64, later: Dict)
    requires Consistent(d) && Lists(order, r.fields.Keys) && Distinct(later.names)
    requires InMemory(r, search)
    requires DictAfterV5(d, order, SearchVector(r.fields, search)).names <= later.names
    ensures ReadBack(BlobV5(r, d, search, order), ColumnV5(r, d, search, norm), r.lobe, Some(later)) == Some(r)
            <==> |DictAfterV5(d, order, SearchVector(r.fields, search)).names| <= LIMIT
  {
    if |DictAfterV5(d, order, SearchVector(r.fields, search)).names| <= LIMIT {
      V5Reads(r, d, search, order, norm, later);
    } else {
      V5Loses(r, d, search, order, norm, later);
    }
  }

  /**
   The column a record is written with reads back as its vector's bytes and norm,
   and scoring those with the stored norm is the plain score of them, or a cut.
   */
  lemma WrittenVectorScores<F>(ar: Distance.Arith<F, F64>, r: Record, d: Dict, search: Option<string>,
                               a: seq<F32>, threshold: Option<F64>, block: nat)
    requires InMemory(r, search) && SearchVector(r.fields, search).Some?
    ensures var column := ColumnV5(r, d, search, SearchNorm(ar, r.fields, search)).value;
            && ReadColumn(column).Some?
            && var p := ReadColumn(column).value;
               && p.norm.Some? && Unpack(p.floats) == SearchVector(r.fields, search).value.1
               && Distance.SurvivesOrCut(ar, a, p.floats, p.norm, threshold, block)
  {
    var sv := SearchVector(r.fields, search).value;
    Distance.StoredNormIsLiveNorm(ar, r.lid, IdOf(d, sv.0), sv.1);
    Distance.StoredColumnScores(ar, r.lid, IdOf(d, sv.0), sv.1, a, threshold, block);
    UnpackInvertsPack(sv.1);
  }
}
