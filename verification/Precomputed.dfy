/**
 Answering a grouped aggregate from a ghost's precomputed groups: selecting
 groups by the query's Eq predicates must equal filtering and grouping the
 lobe. The module says exactly for which queries it does.
 */
module Precomputed {
  import opened Bytes
  import opened Values
  import opened Filters
  import opened Aggregates
  import opened GroupKeys
  import opened Router

  type Key = seq<Byte>
  type GroupMap = map<Key, State>

  // ─── Grouping ──────────────────────────────────────────────────────────────

  /** A group's state: every member record added in order. */
  function AddAll(fa: FloatArith, records: seq<Record>, ms: seq<Metric>): State {
    if records == [] then EMPTY_STATE
    else Added(fa, AddAll(fa, records[..|records| - 1], ms), records[|records| - 1].fields, ms)
  }

  function KeysOf(rd: Rendering, records: seq<Record>, gf: seq<string>): set<Key> {
    set k | 0 <= k < |records| :: GroupKey(rd, records[k].fields, gf)
  }

  function Members(rd: Rendering, records: seq<Record>, gf: seq<string>, key: Key): seq<Record> {
    Select(records, f => GroupKey(rd, f, gf) == key)
  }

  function Groups(fa: FloatArith, rd: Rendering, records: seq<Record>, gf: seq<string>, ms: seq<Metric>): GroupMap {
    map key | key in KeysOf(rd, records, gf) :: AddAll(fa, Members(rd, records, gf, key), ms)
  }

  // ─── Reading precomputed groups ────────────────────────────────────────────

  /** The literal of the first Eq predicate on a field. */
  function FirstEq(filters: seq<Predicate>, field: string): (v: Option<Value>)
    ensures v.Some? <==> exists k | 0 <= k < |filters| :: filters[k].op == OpEq && filters[k].field == field
    ensures v.Some? ==> exists k | 0 <= k < |filters| :: filters[k] == Predicate(field, OpEq, v.value)
  {
    if filters == [] then None
    else if filters[0].field == field && filters[0].op == OpEq then
      assert filters[0] == Predicate(field, OpEq, filters[0].value);
      Some(filters[0].value)
    else
      var v := FirstEq(filters[1..], field);
      assert forall k | 0 <= k < |filters| - 1 :: filters[1..][k] == filters[k + 1];
      assert forall k | 1 <= k < |filters| :: filters[k] == filters[1..][k - 1];
      v
  }

  type Pins = seq<Option<Fragment>>

  function PinsOf(rd: Rendering, gf: seq<string>, filters: seq<Predicate>): (pins: Pins)
    ensures |pins| == |gf|
  {
    seq(|gf|, i requires 0 <= i < |gf| =>
      match FirstEq(filters, gf[i]) case Some(v) => Some(FragmentOf(rd, Some(v))) case None => None)
  }

  predicate Pinned(parts: seq<Fragment>, pins: Pins) {
    forall i | 0 <= i < |pins| :: pins[i].Some? ==> i < |parts| && parts[i] == pins[i].value
  }

  function SelectGroups(groups: GroupMap, pins: Pins): GroupMap {
    map key | key in groups && Pinned(Decode(key), pins) :: groups[key]
  }

  /** Keys as the ghost writes them: one fragment per group field. */
  predicate WellKeyed(groups: GroupMap, n: nat) {
    forall key | key in groups :: |Decode(key)| == n && Encode(Decode(key)) == key && Addressable(Decode(key))
  }

  /**
   `read_precomputed` for an in-RAM group map: everything, a point lookup when
   every group field is pinned, or a filter over the decoded keys.
   */
  method ReadPrecomputed(rd: Rendering, groups: GroupMap, gf: seq<string>, filters: seq<Predicate>)
    returns (out: GroupMap)
    requires WellKeyed(groups, |gf|)
    requires forall i | 0 <= i < |gf| :: PinsOf(rd, gf, filters)[i].Some? ==> |PinsOf(rd, gf, filters)[i].value| < USIZE
    ensures out == SelectGroups(groups, PinsOf(rd, gf, filters))
  {
    var pins := PinsOf(rd, gf, filters);
    if forall i | 0 <= i < |pins| :: pins[i] == None {
      NoPins(groups, pins);
      out := groups;
    } else if forall i | 0 <= i < |pins| :: pins[i].Some? {
      var parts := seq(|pins|, i requires 0 <= i < |pins| => pins[i].value);
      var key := Encode(parts);
      PointLookup(groups, pins, parts);
      out := if key in groups then map[key := groups[key]] else map[];
    } else {
      out := map key | key in groups && Pinned(Decode(key), pins) :: groups[key];
    }
  }

  lemma NoPins(groups: GroupMap, pins: Pins)
    requires forall i | 0 <= i < |pins| :: pins[i] == None
    ensures SelectGroups(groups, pins) == groups
  {
    assert forall key | key in groups :: Pinned(Decode(key), pins);
  }

  lemma PinnedKey(key: Key, pins: Pins, parts: seq<Fragment>)
    requires |parts| == |pins| == |Decode(key)| && Encode(Decode(key)) == key && Decode(Encode(parts)) == parts
    requires forall i | 0 <= i < |pins| :: pins[i] == Some(parts[i])
    ensures Pinned(Decode(key), pins) <==> key == Encode(parts)
  {
    if Pinned(Decode(key), pins) {
      assert Decode(key) == parts;
    }
  }

  /** When every field is pinned, at most one key is selected. */
  lemma PointLookup(groups: GroupMap, pins: Pins, parts: seq<Fragment>)
    requires WellKeyed(groups, |pins|) && |parts| == |pins| && Addressable(parts)
    requires forall i | 0 <= i < |pins| :: pins[i] == Some(parts[i])
    ensures var key := Encode(parts);
            SelectGroups(groups, pins) == if key in groups then map[key := groups[key]] else map[]
  {
    var only := Encode(parts);
    DecodeInvertsEncode(parts);
    var out: GroupMap := if only in groups then map[only := groups[only]] else map[];
    forall key ensures At(SelectGroups(groups, pins), key) == At(out, key) {
      if key in groups { PinnedKey(key, pins, parts); }
    }
    SameGroups(SelectGroups(groups, pins), out);
  }

  // ─── Group selection is record selection ───────────────────────────────────

  predicate Selected(rd: Rendering, fields: Fields, gf: seq<string>, pins: Pins) {
    Pinned(Fragments(rd, fields, gf), pins)
  }

  ghost predicate LobeFits(rd: Rendering, lobe: seq<Record>, gf: seq<string>) {
    forall k | 0 <= k < |lobe| :: Addressable(Fragments(rd, lobe[k].fields, gf))
  }

  lemma {:induction false} SelectMember(records: seq<Record>, f: Fields -> bool, r: Record)
    ensures r in Select(records, f) <==> r in records && f(r.fields)
  {
    if records != [] {
      SelectMember(records[1..], f, r);
      assert records == [records[0]] + records[1..];
    }
  }

  lemma KeysMember(rd: Rendering, records: seq<Record>, gf: seq<string>, key: Key)
    ensures key in KeysOf(rd, records, gf) <==> exists r | r in records :: GroupKey(rd, r.fields, gf) == key
  {
    if r :| r in records && GroupKey(rd, r.fields, gf) == key {
      var k :| 0 <= k < |records| && records[k] == r;
    }
  }

  /** A selected group keeps all its members; an unselected one loses all of them. */
  lemma SelectedMembers(rd: Rendering, records: seq<Record>, gf: seq<string>, pins: Pins, key: Key)
    requires LobeFits(rd, records, gf)
    ensures Members(rd, Select(records, f => Selected(rd, f, gf, pins)), gf, key)
            == if Pinned(Decode(key), pins) then Members(rd, records, gf, key) else []
  {
    var inGroup, sel := (f: Fields) => GroupKey(rd, f, gf) == key, (f: Fields) => Selected(rd, f, gf, pins);
    var both, none := (f: Fields) => sel(f) && inGroup(f), (f: Fields) => false;
    SelectBoth(records, sel, inGroup);
    forall k | 0 <= k < |records|
      ensures inGroup(records[k].fields) ==> sel(records[k].fields) == Pinned(Decode(key), pins)
    {
      if inGroup(records[k].fields) {
        DecodeInvertsEncode(Fragments(rd, records[k].fields, gf));
      }
    }
    if Pinned(Decode(key), pins) {
      SelectSame(records, both, inGroup);
    } else {
      SelectSame(records, both, none);
      SelectNone(records);
    }
  }

  lemma {:induction false} SelectNone(records: seq<Record>)
    ensures Select(records, f => false) == []
  {
    if records != [] {
      SelectNone(records[1..]);
    }
  }

  lemma MembersEmpty(rd: Rendering, records: seq<Record>, gf: seq<string>, key: Key)
    ensures key in KeysOf(rd, records, gf) <==> Members(rd, records, gf, key) != []
  {
    var inGroup := (f: Fields) => GroupKey(rd, f, gf) == key;
    KeysMember(rd, records, gf, key);
    if r :| r in records && GroupKey(rd, r.fields, gf) == key {
      SelectMember(records, inGroup, r);
    }
    if Members(rd, records, gf, key) != [] {
      SelectMember(records, inGroup, Members(rd, records, gf, key)[0]);
    }
  }

  function At(groups: GroupMap, key: Key): Option<State> {
    if key in groups then Some(groups[key]) else None
  }

  lemma SameGroups(a: GroupMap, b: GroupMap)
    requires forall key :: At(a, key) == At(b, key)
    ensures a == b
  {
    assert forall key :: key in a <==> At(a, key).Some?;
    assert forall key :: key in b <==> At(b, key).Some?;
    assert a.Keys == b.Keys;
    assert forall key | key in a :: a[key] == At(a, key).value == b[key];
  }

  /** A group exists exactly when it has members. */
  lemma GroupsAt(fa: FloatArith, rd: Rendering, records: seq<Record>, gf: seq<string>, ms: seq<Metric>, key: Key)
    ensures var members := Members(rd, records, gf, key);
            At(Groups(fa, rd, records, gf, ms), key) == if members == [] then None else Some(AddAll(fa, members, ms))
  {
    MembersEmpty(rd, records, gf, key);
  }

  /** Selecting precomputed groups is grouping the selected records. */
  lemma SelectGroupsMeaning(fa: FloatArith, rd: Rendering, records: seq<Record>, gf: seq<string>, ms: seq<Metric>,
                            pins: Pins)
    requires LobeFits(rd, records, gf)
    ensures SelectGroups(Groups(fa, rd, records, gf, ms), pins)
            == Groups(fa, rd, Select(records, f => Selected(rd, f, gf, pins)), gf, ms)
  {
    var chosen := Select(records, f => Selected(rd, f, gf, pins));
    var all := Groups(fa, rd, records, gf, ms);
    var a, b := SelectGroups(all, pins), Groups(fa, rd, chosen, gf, ms);
    forall key ensures At(a, key) == At(b, key) {
      SelectedMembers(rd, records, gf, pins, key);
      GroupsAt(fa, rd, records, gf, ms, key);
      GroupsAt(fa, rd, chosen, gf, ms, key);
      assert At(a, key) == if Pinned(Decode(key), pins) then At(all, key) else None;
    }
    SameGroups(a, b);
  }

  // ─── Answers ───────────────────────────────────────────────────────────────

  /** What the ghost holds for a lobe. */
  function GhostRecords(m: Meta, lobe: seq<Record>): seq<Record> {
    Select(lobe, f => Matches(f, m.filter))
  }

  function PrecomputedAnswer(fa: FloatArith, rd: Rendering, m: Meta, q: Query, lobe: seq<Record>,
                             ms: seq<Metric>): GroupMap {
    SelectGroups(Groups(fa, rd, GhostRecords(m, lobe), m.groupFields, ms), PinsOf(rd, m.groupFields, q.filters))
  }

  function ScannedAnswer(fa: FloatArith, rd: Rendering, q: Query, lobe: seq<Record>, ms: seq<Metric>): GroupMap {
    Groups(fa, rd, LobeAnswer(q, lobe), q.groupBy, ms)
  }

  /** The records whose groups the ghost would return. */
  predicate Served(rd: Rendering, m: Meta, q: Query, f: Fields) {
    Matches(f, m.filter) && Selected(rd, f, m.groupFields, PinsOf(rd, m.groupFields, q.filters))
  }

  lemma PrecomputedIsServed(fa: FloatArith, rd: Rendering, m: Meta, q: Query, lobe: seq<Record>, ms: seq<Metric>)
    requires LobeFits(rd, lobe, m.groupFields)
    ensures PrecomputedAnswer(fa, rd, m, q, lobe, ms)
            == Groups(fa, rd, Select(lobe, f => Served(rd, m, q, f)), m.groupFields, ms)
  {
    var pins := PinsOf(rd, m.groupFields, q.filters);
    var inGhost, sel := (f: Fields) => Matches(f, m.filter), (f: Fields) => Selected(rd, f, m.groupFields, pins);
    forall k | 0 <= k < |GhostRecords(m, lobe)|
      ensures Addressable(Fragments(rd, GhostRecords(m, lobe)[k].fields, m.groupFields))
    {
      var r := GhostRecords(m, lobe)[k];
      SelectMember(lobe, inGhost, r);
      var j :| 0 <= j < |lobe| && lobe[j] == r;
    }
    SelectGroupsMeaning(fa, rd, GhostRecords(m, lobe), m.groupFields, ms, pins);
    SelectBoth(lobe, inGhost, sel);
    SelectSame(lobe, x => inGhost(x) && sel(x), f => Served(rd, m, q, f));
  }

  // ─── From a query to the groups it pins ────────────────────────────────────

  predicate Undotted(gf: seq<string>) {
    forall i | 0 <= i < |gf| :: '.' !in gf[i]
  }

  predicate Scalar(v: Value) {
    v.Text? || v.Int? || v.Null?
  }

  /** Every Eq on a group field has a text, integer or null literal. */
  predicate ScalarPins(m: Meta, q: Query) {
    forall k | 0 <= k < |q.filters| ::
      q.filters[k].op == OpEq && q.filters[k].field in m.groupFields ==> Scalar(q.filters[k].value)
  }

  lemma UndottedPath(fields: Fields, name: string)
    requires '.' !in name
    ensures ResolvePath(fields, name) == Lookup(fields, name)
  {
  }

  /** A record the query wants belongs to a group the ghost returns. */
  lemma WantedIsServed(rd: Rendering, m: Meta, q: Query, f: Fields)
    requires WellRegistered(m) && WellPosed(q) && Relevant(m, q) && Undotted(m.groupFields) && ScalarPins(m, q)
    requires MatchesOpt(f, q.expr)
    ensures Served(rd, m, q, f)
  {
    RelevantContainsAnswer(m, q, f);
    FlatMeaning(q, f);
    var gf := m.groupFields;
    var pins := PinsOf(rd, gf, q.filters);
    forall i | 0 <= i < |pins| && pins[i].Some? ensures Fragments(rd, f, gf)[i] == pins[i].value {
      var v := FirstEq(q.filters, gf[i]).value;
      var k :| 0 <= k < |q.filters| && q.filters[k] == Predicate(gf[i], OpEq, v);
      assert Holds(f, q.filters[k]);
      UndottedPath(f, gf[i]);
      assert gf[i] in gf;
    }
  }

  /** Every Eq on a group field agrees with the first one on it, and none asks for null. */
  predicate ConsistentPins(m: Meta, q: Query) {
    forall k | 0 <= k < |q.filters| :: q.filters[k].op == OpEq && q.filters[k].field in m.groupFields ==>
      q.filters[k].value != Null && FirstEq(q.filters, q.filters[k].field) == Some(q.filters[k].value)
  }

  /** A flat, consistently pinned query holds of every record in the groups it selects. */
  lemma ServedIsWanted(rd: Rendering, m: Meta, q: Query, f: Fields)
    requires WellRegistered(m) && WellPosed(q) && ServesAggregates(m, q) && Undotted(m.groupFields) && ScalarPins(m, q)
    requires FlatQuery(q) && ConsistentPins(m, q) && AsFlatAnd(m.filter).Some?
    requires Served(rd, m, q, f)
    ensures MatchesOpt(f, q.expr)
  {
    var gf := m.groupFields;
    FlatAndMeaning(f, m.filter);
    forall k | 0 <= k < |q.filters| ensures Holds(f, q.filters[k]) {
      var p := q.filters[k];
      assert Covered(m, p);
      if Among(p, m.filterFields) {
        var j :| 0 <= j < |m.filterFields| && SamePredicate(m.filterFields[j], p);
        SamePredicateSameMeaning(f, m.filterFields[j], p);
      } else {
        var i :| 0 <= i < |gf| && gf[i] == p.field;
        var pins := PinsOf(rd, gf, q.filters);
        assert pins[i] == Some(FragmentOf(rd, Some(p.value)));
        FragmentPins(rd, Lookup(f, gf[i]), p.value);
        UndottedPath(f, gf[i]);
      }
    }
    FlatMeaning(q, f);
  }

  /** What a caller can check before taking the precomputed route. */
  predicate SafeAggregate(m: Meta, q: Query) {
    && Undotted(m.groupFields) && ScalarPins(m, q)
    && ((q.expr.Some? && SameExpr(m.filter, q.expr.value))
        || (FlatQuery(q) && AsFlatAnd(m.filter).Some? && ConsistentPins(m, q)))
  }

  /** Metrics a query asks for, all precomputed by the ghost. */
  predicate Covers(gms: seq<Metric>, qms: seq<Metric>) {
    DistinctLabels(gms) && DistinctLabels(qms) && forall k | 0 <= k < |qms| :: qms[k] in gms
  }

  /** Two group maps show the same groups with the same values under the asked labels. */
  ghost predicate SameAnswer(a: GroupMap, b: GroupMap, qms: seq<Metric>) {
    && a.Keys == b.Keys
    && (forall key | key in a :: a[key].count == b[key].count)
    && (forall key, l | key in a && l in Labels(qms) :: a[key].At(l) == b[key].At(l))
  }

  lemma {:induction false} MoreMetrics(fa: FloatArith, records: seq<Record>, gms: seq<Metric>, qms: seq<Metric>, k: nat)
    requires Covers(gms, qms) && k < |qms|
    ensures AddAll(fa, records, gms).count == AddAll(fa, records, qms).count
    ensures AddAll(fa, records, gms).At(qms[k].name) == AddAll(fa, records, qms).At(qms[k].name)
  {
    if records != [] {
      var front, f := records[..|records| - 1], records[|records| - 1].fields;
      MoreMetrics(fa, front, gms, qms, k);
      var j :| 0 <= j < |gms| && gms[j] == qms[k];
      MetricForMember(gms, j);
      MetricForMember(qms, k);
      AddedAt(fa, AddAll(fa, front, gms), f, gms, qms[k].name);
      AddedAt(fa, AddAll(fa, front, qms), f, qms, qms[k].name);
    }
  }

  lemma {:induction false} CountIsLength(fa: FloatArith, records: seq<Record>, ms: seq<Metric>)
    ensures AddAll(fa, records, ms).count == |records|
  {
    if records != [] {
      CountIsLength(fa, records[..|records| - 1], ms);
    }
  }

  lemma MoreMetricsGroups(fa: FloatArith, rd: Rendering, records: seq<Record>, gf: seq<string>, gms: seq<Metric>,
                          qms: seq<Metric>)
    requires Covers(gms, qms)
    ensures SameAnswer(Groups(fa, rd, records, gf, gms), Groups(fa, rd, records, gf, qms), qms)
  {
    forall key | key in KeysOf(rd, records, gf)
      ensures var ms := Members(rd, records, gf, key);
              var a, b := AddAll(fa, ms, gms), AddAll(fa, ms, qms);
              a.count == b.count && forall l | l in Labels(qms) :: a.At(l) == b.At(l)
    {
      var ms := Members(rd, records, gf, key);
      CountIsLength(fa, ms, gms);
      CountIsLength(fa, ms, qms);
      forall l | l in Labels(qms) ensures AddAll(fa, ms, gms).At(l) == AddAll(fa, ms, qms).At(l) {
        var k :| 0 <= k < |qms| && qms[k].name == l;
        MoreMetrics(fa, ms, gms, qms, k);
      }
    }
  }

  /**
   The precomputed route is a pure rewrite: for a covered, safe query it returns
   the groups and values that filtering and grouping the whole lobe would.
   */
  lemma PrecomputedKeepsAnswer(fa: FloatArith, rd: Rendering, ghosts: map<string, Meta>, q: Query, src: Source,
                               lobe: seq<Record>, qms: seq<Metric>)
    requires Allowed(ghosts, q, src) && src.PreComputed? && WellPosed(q) && WellRegistered(ghosts[src.name])
    requires Covers(ghosts[src.name].aggregateSig, qms) && SafeAggregate(ghosts[src.name], q)
    requires LobeFits(rd, lobe, q.groupBy)
    ensures SameAnswer(PrecomputedAnswer(fa, rd, ghosts[src.name], q, lobe, ghosts[src.name].aggregateSig),
                       ScannedAnswer(fa, rd, q, lobe, qms), qms)
  {
    var m := ghosts[src.name];
    assert AggregateCandidate(ghosts, q, src.name);
    var served, wanted := (f: Fields) => Served(rd, m, q, f), (f: Fields) => MatchesOpt(f, q.expr);
    forall k | 0 <= k < |lobe| ensures served(lobe[k].fields) == wanted(lobe[k].fields) {
      ServedIffWanted(rd, m, q, lobe[k].fields);
    }
    PrecomputedIsServed(fa, rd, m, q, lobe, m.aggregateSig);
    SelectSame(lobe, served, wanted);
    MoreMetricsGroups(fa, rd, LobeAnswer(q, lobe), q.groupBy, m.aggregateSig, qms);
  }

  lemma ServedIffWanted(rd: Rendering, m: Meta, q: Query, f: Fields)
    requires WellRegistered(m) && WellPosed(q) && Relevant(m, q) && ServesAggregates(m, q) && SafeAggregate(m, q)
    ensures Served(rd, m, q, f) <==> MatchesOpt(f, q.expr)
  {
    if MatchesOpt(f, q.expr) {
      WantedIsServed(rd, m, q, f);
    } else if Served(rd, m, q, f) {
      if q.expr.Some? && SameExpr(m.filter, q.expr.value) {
        SameExprSameMeaning(f, m.filter, q.expr.value);
      } else {
        ServedIsWanted(rd, m, q, f);
      }
    }
  }

  /** Without GROUP BY, the ghost's global state is the aggregate of the filtered lobe. */
  lemma GlobalKeepsAnswer(fa: FloatArith, rd: Rendering, ghosts: map<string, Meta>, q: Query, src: Source,
                          lobe: seq<Record>, qms: seq<Metric>, k: nat)
    requires Allowed(ghosts, q, src) && src.PreComputed? && WellPosed(q) && WellRegistered(ghosts[src.name])
    requires Covers(ghosts[src.name].aggregateSig, qms) && SafeAggregate(ghosts[src.name], q) && q.groupBy == []
    requires k < |qms|
    ensures var m := ghosts[src.name];
            var global := AddAll(fa, GhostRecords(m, lobe), m.aggregateSig);
            var scanned := AddAll(fa, LobeAnswer(q, lobe), qms);
            global.count == scanned.count && global.At(qms[k].name) == scanned.At(qms[k].name)
  {
    var m := ghosts[src.name];
    assert AggregateCandidate(ghosts, q, src.name);
    forall j | 0 <= j < |lobe| ensures Matches(lobe[j].fields, m.filter) == MatchesOpt(lobe[j].fields, q.expr) {
      ServedIffWanted(rd, m, q, lobe[j].fields);
    }
    SelectSame(lobe, f => Matches(f, m.filter), f => MatchesOpt(f, q.expr));
    MoreMetrics(fa, LobeAnswer(q, lobe), m.aggregateSig, qms, k);
  }

  // ─── Exactly when the route is right ───────────────────────────────────────

  ghost predicate AlwaysRight(fa: FloatArith, rd: Rendering, m: Meta, q: Query, ms: seq<Metric>) {
    forall lobe: seq<Record> :: LobeFits(rd, lobe, m.groupFields) ==>
      PrecomputedAnswer(fa, rd, m, q, lobe, ms) == ScannedAnswer(fa, rd, q, lobe, ms)
  }

  /** The returned groups hold exactly the records that satisfy the query. */
  ghost predicate ServesExactly(rd: Rendering, m: Meta, q: Query) {
    forall f: Fields | Addressable(Fragments(rd, f, m.groupFields)) :: Served(rd, m, q, f) <==> MatchesOpt(f, q.expr)
  }

  /** Every record in the returned groups satisfies the query. */
  ghost predicate ServesOnlyWanted(rd: Rendering, m: Meta, q: Query) {
    forall f: Fields :: Addressable(Fragments(rd, f, m.groupFields)) && Served(rd, m, q, f) ==> MatchesOpt(f, q.expr)
  }

  /**
   For every literal and group field: the route is right for every lobe exactly
   when it serves exactly what is wanted.
   */
  lemma PrecomputedExact(fa: FloatArith, rd: Rendering, m: Meta, q: Query, ms: seq<Metric>)
    requires WellRegistered(m) && WellPosed(q) && Relevant(m, q) && ServesAggregates(m, q)
    ensures AlwaysRight(fa, rd, m, q, ms) <==> ServesExactly(rd, m, q)
  {
    if ServesExactly(rd, m, q) {
      forall lobe: seq<Record> | LobeFits(rd, lobe, m.groupFields)
        ensures PrecomputedAnswer(fa, rd, m, q, lobe, ms) == ScannedAnswer(fa, rd, q, lobe, ms)
      {
        RightOnLobe(fa, rd, m, q, lobe, ms);
      }
    } else {
      var f: Fields :| Addressable(Fragments(rd, f, m.groupFields)) && Served(rd, m, q, f) != MatchesOpt(f, q.expr);
      WrongOnOne(fa, rd, m, q, Filters.Record(0, "", f, 0, 0), ms);
    }
  }

  /** With plain group fields and text, integer or null literals nothing wanted is missed. */
  lemma ScalarExact(rd: Rendering, m: Meta, q: Query)
    requires WellRegistered(m) && WellPosed(q) && Relevant(m, q) && Undotted(m.groupFields) && ScalarPins(m, q)
    ensures ServesExactly(rd, m, q) <==> ServesOnlyWanted(rd, m, q)
  {
    forall f: Fields | MatchesOpt(f, q.expr) ensures Served(rd, m, q, f) { WantedIsServed(rd, m, q, f); }
  }

  lemma RightOnLobe(fa: FloatArith, rd: Rendering, m: Meta, q: Query, lobe: seq<Record>, ms: seq<Metric>)
    requires ServesAggregates(m, q) && ServesExactly(rd, m, q) && LobeFits(rd, lobe, m.groupFields)
    ensures PrecomputedAnswer(fa, rd, m, q, lobe, ms) == ScannedAnswer(fa, rd, q, lobe, ms)
  {
    var served, wanted := (f: Fields) => Served(rd, m, q, f), (f: Fields) => MatchesOpt(f, q.expr);
    forall k | 0 <= k < |lobe| ensures served(lobe[k].fields) == wanted(lobe[k].fields) {
      assert Addressable(Fragments(rd, lobe[k].fields, m.groupFields));
    }
    PrecomputedIsServed(fa, rd, m, q, lobe, ms);
    SelectSame(lobe, served, wanted);
  }

  /** One record that is served and not wanted, or wanted and not served, is enough to see the difference. */
  lemma WrongOnOne(fa: FloatArith, rd: Rendering, m: Meta, q: Query, r: Record, ms: seq<Metric>)
    requires ServesAggregates(m, q) && Addressable(Fragments(rd, r.fields, m.groupFields))
    requires Served(rd, m, q, r.fields) != MatchesOpt(r.fields, q.expr)
    ensures LobeFits(rd, [r], m.groupFields)
    ensures PrecomputedAnswer(fa, rd, m, q, [r], ms) != ScannedAnswer(fa, rd, q, [r], ms)
  {
    var served, wanted := (f: Fields) => Served(rd, m, q, f), (f: Fields) => MatchesOpt(f, q.expr);
    PrecomputedIsServed(fa, rd, m, q, [r], ms);
    SelectOne(r, served);
    SelectOne(r, wanted);
    OneGroup(fa, rd, r, m.groupFields, ms);
  }

  lemma OneGroup(fa: FloatArith, rd: Rendering, r: Record, gf: seq<string>, ms: seq<Metric>)
    ensures Groups(fa, rd, [r], gf, ms) != Groups(fa, rd, [], gf, ms)
  {
    var key := GroupKey(rd, r.fields, gf);
    assert [r][0] == r;
    assert key in Groups(fa, rd, [r], gf, ms) && key !in Groups(fa, rd, [], gf, ms);
  }

  /** The record that carries exactly the first literal of every pinned group field. */
  function Witness(m: Meta, q: Query): Fields {
    map l | l in m.groupFields && FirstEq(q.filters, l).Some? && FirstEq(q.filters, l).value != Null
      :: FirstEq(q.filters, l).value
  }

  lemma WitnessSelected(rd: Rendering, m: Meta, q: Query)
    ensures Selected(rd, Witness(m, q), m.groupFields, PinsOf(rd, m.groupFields, q.filters))
  {
    var gf := m.groupFields;
    var pins := PinsOf(rd, gf, q.filters);
    forall i | 0 <= i < |pins| && pins[i].Some? ensures Fragments(rd, Witness(m, q), gf)[i] == pins[i].value {
      assert gf[i] in gf;
    }
  }

  /**
   A ghost over the whole lobe, a pure AND query: the route is right exactly when
   no group field is pinned to two different literals and none is pinned to null.
   */
  lemma WholeLobeExact(fa: FloatArith, rd: Rendering, m: Meta, q: Query, ms: seq<Metric>)
    requires WellRegistered(m) && WellPosed(q) && Relevant(m, q) && ServesAggregates(m, q)
    requires Undotted(m.groupFields) && ScalarPins(m, q)
    requires m.filterFields == [] && AsFlatAnd(m.filter).Some? && FlatQuery(q)
    requires Addressable(Fragments(rd, Witness(m, q), m.groupFields))
    ensures AlwaysRight(fa, rd, m, q, ms) <==> ConsistentPins(m, q)
  {
    PrecomputedExact(fa, rd, m, q, ms);
    ScalarExact(rd, m, q);
    if ConsistentPins(m, q) {
      forall f: Fields | Served(rd, m, q, f) ensures MatchesOpt(f, q.expr) {
        ServedIsWanted(rd, m, q, f);
      }
    } else {
      var f := Witness(m, q);
      FlatAndMeaning(f, m.filter);
      WitnessSelected(rd, m, q);
      var k :| 0 <= k < |q.filters| && q.filters[k].op == OpEq && q.filters[k].field in m.groupFields
               && !(q.filters[k].value != Null && FirstEq(q.filters, q.filters[k].field) == Some(q.filters[k].value));
      WitnessFails(m, q, k);
      FlatMeaning(q, f);
    }
  }

  lemma WitnessFails(m: Meta, q: Query, k: nat)
    requires Undotted(m.groupFields) && ScalarPins(m, q)
    requires k < |q.filters| && q.filters[k].op == OpEq && q.filters[k].field in m.groupFields
    requires !(q.filters[k].value != Null && FirstEq(q.filters, q.filters[k].field) == Some(q.filters[k].value))
    ensures !Holds(Witness(m, q), q.filters[k])
  {
    var p := q.filters[k];
    var i :| 0 <= i < |m.groupFields| && m.groupFields[i] == p.field;
    UndottedPath(Witness(m, q), p.field);
    var first := FirstEq(q.filters, p.field).value;
    var j :| 0 <= j < |q.filters| && q.filters[j] == Predicate(p.field, OpEq, first);
    assert Scalar(q.filters[j].value) && Scalar(q.filters[k].value);
  }

  /**
   An OR/NOT query that reaches the aggregates of a whole-lobe ghost has no flat
   predicates left: the route is right exactly when the query excludes nothing.
   */
  lemma NonFlatExact(fa: FloatArith, rd: Rendering, m: Meta, q: Query, ms: seq<Metric>)
    requires WellRegistered(m) && WellPosed(q) && Relevant(m, q) && ServesAggregates(m, q)
    requires !FlatQuery(q) && !SameExpr(m.filter, q.expr.value)
    ensures AlwaysRight(fa, rd, m, q, ms)
            <==> forall f: Fields :: Addressable(Fragments(rd, f, m.groupFields)) ==> MatchesOpt(f, q.expr)
  {
    assert q.filters == [];
    assert m.filterFields != [] ==> Among(m.filterFields[0], q.filters);
    PrecomputedExact(fa, rd, m, q, ms);
    forall f: Fields ensures Served(rd, m, q, f) {
      FlatAndMeaning(f, m.filter);
    }
  }

  // ─── Inputs that show the route failing ────────────────────────────────────

  /** A ghost `GROUP BY g` over the whole lobe, with a count. */
  function CountByG(): Meta {
    Meta([], And([]), None, "", false, true, ["g"], [Metric("", CountOp, "count", None)], true, false)
  }

  function GroupQuery(e: FilterExpr): Query {
    Query(Some(e), FlatFilters(Some(e)), None, true, ["g"], false, None)
  }

  function G(v: Value): FilterExpr {
    Condition(Predicate("g", OpEq, v))
  }

  lemma GPath(fields: Fields)
    ensures ResolvePath(fields, "g") == Lookup(fields, "g")
  {
    UndottedPath(fields, "g");
  }

  /** `g = 1 OR g = 2`: the predicate is dropped and the group of 3 is returned. */
  lemma OrQueryExample(rd: Rendering)
    ensures var m, q, f := CountByG(), GroupQuery(Or([G(Int(1)), G(Int(2))])), map["g" := Int(3)];
            Relevant(m, q) && ServesAggregates(m, q) && Served(rd, m, q, f) && !MatchesOpt(f, q.expr)
  {
    var m, q, f := CountByG(), GroupQuery(Or([G(Int(1)), G(Int(2))])), map["g" := Int(3)];
    assert FlattenAll([]) == Some([]);
    assert q.filters == [];
    GPath(f);
    assert !Matches(f, G(Int(1))) && !Matches(f, G(Int(2)));
    assert q.expr.value.exprs[0] == G(Int(1)) && q.expr.value.exprs[1] == G(Int(2));
  }

  /** `g = 1 AND g = 2`: only the first literal is looked at. */
  lemma ConflictExample(rd: Rendering)
    ensures var m, q, f := CountByG(), GroupQuery(And([G(Int(1)), G(Int(2))])), map["g" := Int(1)];
            Relevant(m, q) && ServesAggregates(m, q) && Served(rd, m, q, f) && !MatchesOpt(f, q.expr)
  {
    var e := And([G(Int(1)), G(Int(2))]);
    var m, q, f := CountByG(), GroupQuery(e), map["g" := Int(1)];
    TwoConjuncts(G(Int(1)).p, G(Int(2)).p);
    assert q.filters == [G(Int(1)).p, G(Int(2)).p];
    assert FirstEq(q.filters, "g") == Some(Int(1));
    GPath(f);
    assert !Matches(f, e.exprs[1]);
  }

  /** `g = null`: records without the field share the null group but do not match. */
  lemma NullExample(rd: Rendering)
    ensures var m, q, f := CountByG(), GroupQuery(G(Null)), map[];
            Relevant(m, q) && ServesAggregates(m, q) && Served(rd, m, q, f) && !MatchesOpt(f, q.expr)
  {
    var m, q := CountByG(), GroupQuery(G(Null));
    assert q.filters == [G(Null).p];
    assert FirstEq(q.filters, "g") == Some(Null);
    GPath(map[]);
  }

  lemma TwoConjuncts(p: Predicate, p': Predicate)
    ensures FlattenAll([Condition(p), Condition(p')]) == Some([p, p'])
  {
    var es := [Condition(p), Condition(p')];
    assert es[1..] == [Condition(p')] && es[1..][1..] == [];
    assert FlattenAll([]) == Some([]);
    assert FlattenAll(es[1..]) == Some([p'] + []);
    assert [p] + ([p'] + []) == [p, p'];
  }
}
