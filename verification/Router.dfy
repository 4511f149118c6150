/**
 The ghost router: decides whether a scan reads the primary keyspace, a ghost
 that stores whole records, or a ghost's precomputed aggregates. Routing must
 never change an answer, whichever ghost the hash map happens to list first.
 */
module Router {
  import opened Bytes
  import opened Values
  import opened Filters
  import opened Aggregates

  datatype Source = Primary | Ghost(name: string) | PreComputed(name: string)

  datatype Meta = Meta(
    filterFields: seq<Predicate>,
    filter: FilterExpr,
    filterDesc: Option<string>,
    orderByField: string,
    sortInverted: bool,
    hasAggregates: bool,
    groupFields: seq<string>,
    aggregateSig: seq<Metric>,
    stateReady: bool,
    hasProjection: bool)

  datatype Query = Query(
    expr: Option<FilterExpr>,
    filters: seq<Predicate>,
    orderBy: Option<(string, bool)>,
    hasAggregates: bool,
    groupBy: seq<string>,
    hasLimit: bool,
    anchored: Option<set<string>>)

  /** A query as the engine poses it: its flat filters come from its expression. */
  predicate WellPosed(q: Query) {
    q.filters == FlatFilters(q.expr)
  }

  /** A ghost as the engine registers it: its tuples flatten its filter. */
  predicate WellRegistered(m: Meta) {
    m.filterFields == FlatFilters(Some(m.filter))
  }

  // ─── The tests plan_scan applies ───────────────────────────────────────────

  predicate Among(p: Predicate, ps: seq<Predicate>) {
    exists k | 0 <= k < |ps| :: SamePredicate(ps[k], p)
  }

  predicate AnchorEq(q: Query) {
    && q.anchored.Some?
    && exists k | 0 <= k < |q.filters| :: q.filters[k].op == OpEq && q.filters[k].field in q.anchored.value
  }

  predicate Relevant(m: Meta, q: Query) {
    && m.stateReady
    && ((q.expr.Some? && SameExpr(m.filter, q.expr.value))
        || (AsFlatAnd(m.filter).Some? && forall k | 0 <= k < |m.filterFields| :: Among(m.filterFields[k], q.filters)))
  }

  /** A predicate the precomputed groups can honour. */
  predicate Covered(m: Meta, p: Predicate) {
    Among(p, m.filterFields) || (p.op == OpEq && p.field in m.groupFields)
  }

  predicate ServesAggregates(m: Meta, q: Query) {
    && m.hasAggregates
    && m.groupFields == q.groupBy
    && forall k | 0 <= k < |q.filters| :: Covered(m, q.filters[k])
  }

  predicate ServesRecords(m: Meta, q: Query) {
    && !m.hasAggregates && m.groupFields == [] && !m.hasProjection
    && match q.orderBy
       case Some((field, descending)) => q.hasLimit && m.orderByField == field && m.sortInverted == descending
       case None => true
  }

  predicate AggregateCandidate(ghosts: map<string, Meta>, q: Query, name: string) {
    name in ghosts && Relevant(ghosts[name], q) && ServesAggregates(ghosts[name], q)
  }

  predicate RecordCandidate(ghosts: map<string, Meta>, q: Query, name: string) {
    name in ghosts && Relevant(ghosts[name], q) && ServesRecords(ghosts[name], q)
  }

  /** Every source `plan_scan` may answer with, for any iteration order. */
  ghost predicate Allowed(ghosts: map<string, Meta>, q: Query, src: Source) {
    if AnchorEq(q) then src == Primary
    else if q.hasAggregates && exists n :: AggregateCandidate(ghosts, q, n) then
      && src.PreComputed?
      && AggregateCandidate(ghosts, q, src.name)
      && forall n | AggregateCandidate(ghosts, q, n) :: |ghosts[n].filterFields| <= |ghosts[src.name].filterFields|
    else if exists n :: RecordCandidate(ghosts, q, n) then
      src.Ghost? && RecordCandidate(ghosts, q, src.name)
    else src == Primary
  }

  /** Some order in which a hash map lists its keys. */
  ghost predicate Enumerates(order: seq<string>, keys: set<string>) {
    (forall n :: n in order <==> n in keys) && forall i, j | 0 <= i < j < |order| :: order[i] != order[j]
  }

  predicate AllRegistered(ghosts: map<string, Meta>) {
    forall n | n in ghosts :: WellRegistered(ghosts[n])
  }

  lemma PutTwice(ghosts: map<string, Meta>, name: string, a: Meta, b: Meta)
    ensures ghosts[name := a][name := b] == ghosts[name := b]
  {
  }

  lemma PutRegistered(ghosts: map<string, Meta>, name: string, m: Meta)
    requires AllRegistered(ghosts) && WellRegistered(m)
    ensures AllRegistered(ghosts[name := m])
  {
  }

  class GhostRouter {
    var ghosts: map<string, Meta>

    constructor ()
      ensures ghosts == map[]
    {
      ghosts := map[];
    }

    predicate AllWellRegistered()
      reads this
    {
      AllRegistered(ghosts)
    }

    method RegisterGhost(name: string, filterFields: seq<Predicate>, orderByField: string, sortInverted: bool,
                         hasAggregates: bool, groupFields: seq<string>)
      modifies this
      ensures ghosts == old(ghosts)[name := Meta(filterFields, And([]), None, orderByField, sortInverted,
                                                 hasAggregates, groupFields, [], true, false)]
    {
      ghosts := ghosts[name := Meta(filterFields, And([]), None, orderByField, sortInverted,
                                    hasAggregates, groupFields, [], true, false)];
    }

    method SetFilter(name: string, filter: FilterExpr)
      modifies this
      ensures name in old(ghosts) ==> ghosts == old(ghosts)[name := old(ghosts)[name].(filter := filter)]
      ensures name !in old(ghosts) ==> ghosts == old(ghosts)
    {
      if name in ghosts {
        ghosts := ghosts[name := ghosts[name].(filter := filter)];
      }
    }

    method SetHasProjection(name: string, hasProjection: bool)
      modifies this
      ensures name in old(ghosts) ==> ghosts == old(ghosts)[name := old(ghosts)[name].(hasProjection := hasProjection)]
      ensures name !in old(ghosts) ==> ghosts == old(ghosts)
    {
      if name in ghosts {
        ghosts := ghosts[name := ghosts[name].(hasProjection := hasProjection)];
      }
    }

    method SetAggregateSig(name: string, sig: seq<Metric>)
      modifies this
      ensures name in old(ghosts) ==> ghosts == old(ghosts)[name := old(ghosts)[name].(aggregateSig := sig)]
      ensures name !in old(ghosts) ==> ghosts == old(ghosts)
    {
      if name in ghosts {
        ghosts := ghosts[name := ghosts[name].(aggregateSig := sig)];
      }
    }

    /** The engine's registration sequence: the only way a ghost enters a router. */
    method RegisterInRouter(name: string, filter: FilterExpr, orderByField: string, sortInverted: bool,
                            hasAggregates: bool, groupFields: seq<string>, hasProjection: bool, sig: seq<Metric>)
      requires AllWellRegistered()
      modifies this
      ensures AllWellRegistered()
      ensures ghosts == old(ghosts)[name := Meta(FlatFilters(Some(filter)), filter, None, orderByField, sortInverted,
                                                 hasAggregates, groupFields, sig, true, hasProjection)]
    {
      var flat := FlatFilters(Some(filter));
      ghost var g := ghosts;
      ghost var m := Meta(flat, And([]), None, orderByField, sortInverted, hasAggregates, groupFields, [], true, false);
      ghost var m1 := m.(filter := filter);
      ghost var m2 := m1.(hasProjection := hasProjection);
      ghost var m3 := m2.(aggregateSig := sig);
      PutRegistered(g, name, m3);
      RegisterGhost(name, flat, orderByField, sortInverted, hasAggregates, groupFields);
      assert ghosts == g[name := m];
      SetFilter(name, filter);
      assert ghosts == g[name := m1] by { PutTwice(g, name, m, m1); }
      SetHasProjection(name, hasProjection);
      assert ghosts == g[name := m2] by { PutTwice(g, name, m1, m2); }
      SetAggregateSig(name, sig);
      assert ghosts == g[name := m3] by { PutTwice(g, name, m2, m3); }
    }

    /** Promotion: the entry moves, everything it says stays. */
    method RenameGhost(oldName: string, newName: string) returns (renamed: bool)
      modifies this
      ensures renamed == (oldName in old(ghosts))
      ensures ghosts == if renamed then (old(ghosts) - {oldName})[newName := old(ghosts)[oldName]] else old(ghosts)
      ensures old(AllWellRegistered()) ==> AllWellRegistered()
    {
      renamed := oldName in ghosts;
      if renamed {
        var meta := ghosts[oldName];
        ghosts := ghosts - {oldName};
        ghosts := ghosts[newName := meta];
      }
    }

    method UnregisterGhost(name: string)
      modifies this
      ensures ghosts == old(ghosts) - {name}
      ensures old(AllWellRegistered()) ==> AllWellRegistered()
    {
      ghosts := ghosts - {name};
    }

    /** Whether every metric a query asks for is one the ghost precomputes. */
    method AggregateSigCovers(name: string, sig: seq<Metric>) returns (covers: bool)
      ensures covers <==> name in ghosts && forall m | m in sig :: m in ghosts[name].aggregateSig
    {
      if name !in ghosts {
        return false;
      }
      for i := 0 to |sig|
        invariant forall k | 0 <= k < i :: sig[k] in ghosts[name].aggregateSig
      {
        if sig[i] !in ghosts[name].aggregateSig {
          return false;
        }
      }
      return true;
    }

    /** Pick the best source, for one listing order of the hash map. */
    method PlanScan(order: seq<string>, q: Query) returns (src: Source)
      requires Enumerates(order, ghosts.Keys)
      ensures Allowed(ghosts, q, src)
    {
      if AnchorEq(q) {
        return Primary;
      }
      var relevant: seq<string> := [];
      for i := 0 to |order|
        invariant forall n :: n in relevant <==> n in order[..i] && Relevant(ghosts[n], q)
      {
        if Relevant(ghosts[order[i]], q) {
          relevant := relevant + [order[i]];
        }
      }
      assert order[..|order|] == order;
      if q.hasAggregates {
        var best := PickPreComputed(relevant, q);
        if best.Some? {
          assert AggregateCandidate(ghosts, q, best.value);
          return PreComputed(best.value);
        }
      }
      for i := 0 to |relevant|
        invariant forall k | 0 <= k < i :: !ServesRecords(ghosts[relevant[k]], q)
      {
        if ServesRecords(ghosts[relevant[i]], q) {
          assert RecordCandidate(ghosts, q, relevant[i]);
          return Ghost(relevant[i]);
        }
      }
      return Primary;
    }

    /** Pass 1a: the most specific ghost whose groups can answer the query. */
    method PickPreComputed(relevant: seq<string>, q: Query) returns (best: Option<string>)
      requires forall n | n in relevant :: n in ghosts
      ensures best.Some? ==> best.value in relevant && ServesAggregates(ghosts[best.value], q)
      ensures best == None ==> forall n | n in relevant :: !ServesAggregates(ghosts[n], q)
      ensures best.Some? ==> forall n | n in relevant && ServesAggregates(ghosts[n], q) ::
                |ghosts[n].filterFields| <= |ghosts[best.value].filterFields|
    {
      best := None;
      for i := 0 to |relevant|
        invariant best.Some? ==> best.value in relevant && ServesAggregates(ghosts[best.value], q)
        invariant best == None ==> forall k | 0 <= k < i :: !ServesAggregates(ghosts[relevant[k]], q)
        invariant best.Some? ==> forall k | 0 <= k < i && ServesAggregates(ghosts[relevant[k]], q) ::
                    |ghosts[relevant[k]].filterFields| <= |ghosts[best.value].filterFields|
      {
        var meta := ghosts[relevant[i]];
        if ServesAggregates(meta, q) {
          if best == None || |meta.filterFields| > |ghosts[best.value].filterFields| {
            best := Some(relevant[i]);
          }
        }
      }
    }
  }

  // ─── Record routing keeps answers ──────────────────────────────────────────

  /** A relevant ghost holds every record the query is looking for. */
  lemma RelevantContainsAnswer(m: Meta, q: Query, fields: Fields)
    requires WellRegistered(m) && WellPosed(q) && Relevant(m, q) && MatchesOpt(fields, q.expr)
    ensures Matches(fields, m.filter)
  {
    if q.expr.Some? && SameExpr(m.filter, q.expr.value) {
      SameExprSameMeaning(fields, m.filter, q.expr.value);
    } else {
      if q.expr.Some? && AsFlatAnd(q.expr.value).Some? {
        FlatAndMeaning(fields, q.expr.value);
      }
      assert HoldsAll(fields, q.filters);
      forall k | 0 <= k < |m.filterFields| ensures Holds(fields, m.filterFields[k]) {
        assert Among(m.filterFields[k], q.filters);
        var j :| 0 <= j < |q.filters| && SamePredicate(q.filters[j], m.filterFields[k]);
        SamePredicateSameMeaning(fields, q.filters[j], m.filterFields[k]);
      }
      FlatAndMeaning(fields, m.filter);
    }
  }

  lemma {:induction false} SelectTwice(records: seq<Record>, f: Fields -> bool, g: Fields -> bool)
    requires forall k | 0 <= k < |records| :: g(records[k].fields) ==> f(records[k].fields)
    ensures Select(Select(records, f), g) == Select(records, g)
  {
    if records != [] {
      var rest := Select(records[1..], f);
      forall k | 0 <= k < |records[1..]| ensures g(records[1..][k].fields) ==> f(records[1..][k].fields) {
        assert records[1..][k] == records[k + 1];
      }
      SelectTwice(records[1..], f, g);
      if f(records[0].fields) {
        assert ([records[0]] + rest)[1..] == rest;
      } else {
        assert !g(records[0].fields);
        assert [] + rest == rest;
      }
    }
  }

  /**
   Routing to a record ghost is a pure rewrite: the ghost stores whole ungrouped
   records, and re-filtering it by the query is filtering the lobe by the query.
   */
  lemma GhostScanKeepsAnswer(ghosts: map<string, Meta>, q: Query, src: Source, lobe: seq<Record>)
    requires Allowed(ghosts, q, src) && src.Ghost? && WellPosed(q)
    requires WellRegistered(ghosts[src.name])
    ensures var m := ghosts[src.name];
            && !m.hasAggregates && m.groupFields == [] && !m.hasProjection
            && Select(Select(lobe, f => Matches(f, m.filter)), f => MatchesOpt(f, q.expr))
               == Select(lobe, f => MatchesOpt(f, q.expr))
  {
    var m := ghosts[src.name];
    assert RecordCandidate(ghosts, q, src.name);
    var inGhost, wanted := (f: Fields) => Matches(f, m.filter), (f: Fields) => MatchesOpt(f, q.expr);
    forall k | 0 <= k < |lobe| ensures wanted(lobe[k].fields) ==> inGhost(lobe[k].fields) {
      if wanted(lobe[k].fields) {
        RelevantContainsAnswer(m, q, lobe[k].fields);
      }
    }
    SelectTwice(lobe, inGhost, wanted);
  }

  // ─── The lobe's answer and the flat predicates ─────────────────────────────

  function LobeAnswer(q: Query, lobe: seq<Record>): seq<Record> {
    Select(lobe, f => MatchesOpt(f, q.expr))
  }

  predicate FlatQuery(q: Query) {
    q.expr.Some? ==> AsFlatAnd(q.expr.value).Some?
  }

  /** The flat predicates of a query are implied by it, and are it when it is flat. */
  lemma FlatMeaning(q: Query, fields: Fields)
    requires WellPosed(q)
    ensures MatchesOpt(fields, q.expr) ==> HoldsAll(fields, q.filters)
    ensures FlatQuery(q) ==> (MatchesOpt(fields, q.expr) <==> HoldsAll(fields, q.filters))
  {
    if q.expr.Some? && AsFlatAnd(q.expr.value).Some? {
      FlatAndMeaning(fields, q.expr.value);
    }
  }

  lemma {:induction false} SelectSame(records: seq<Record>, f: Fields -> bool, g: Fields -> bool)
    requires forall k | 0 <= k < |records| :: f(records[k].fields) == g(records[k].fields)
    ensures Select(records, f) == Select(records, g)
  {
    if records != [] {
      assert forall k | 0 <= k < |records| - 1 :: records[1..][k] == records[k + 1];
      SelectSame(records[1..], f, g);
    }
  }

  lemma {:induction false} SelectBoth(records: seq<Record>, f: Fields -> bool, g: Fields -> bool)
    ensures Select(Select(records, f), g) == Select(records, x => f(x) && g(x))
  {
    if records != [] {
      SelectBoth(records[1..], f, g);
      var rest := Select(records[1..], f);
      if f(records[0].fields) {
        assert ([records[0]] + rest)[1..] == rest;
      } else {
        assert [] + rest == rest;
      }
    }
  }

  lemma SelectOne(r: Record, f: Fields -> bool)
    ensures Select([r], f) == if f(r.fields) then [r] else []
  {
    assert [r][1..] == [];
  }
}
