/**
 The pipeline planner: fused prefixes, the step loop over the current records,
 and how a budget stop of a fused SCAN | NEAREST travels to the answer.
 */
module Pipeline {
  import opened Bytes
  import opened Filters
  import opened TopN
  import opened Values

  datatype BudgetStop = BudgetStop(examined: nat, candidates: nat, found: nat, order: string)

  /** Statements are opaque here; a step carries the number of its statement. */
  datatype Step =
    | Find(s: nat) | Scan(s: nat) | ScanGhost(s: nat) | Pull(s: nat)
    | Set(s: nat) | Delete(s: nat) | Aggregate(s: nat) | GroupBy(fields: seq<string>)
    | Nearest(s: nat) | Follow(s: nat) | Take(top: Top) | Shape(keep: set<string>)

  datatype QueryResult =
    | Records(records: seq<Record>)
    | Paginated(records: seq<Record>, cursor: Option<string>, hasMore: bool, stop: Option<BudgetStop>)
    | Grouped(rows: seq<Row>)
    | Summary(text: string)

  datatype Answer = Success(result: QueryResult) | Failure(reason: string)

  type Current = Option<seq<Record>>

  /** One call into the engine's operations. */
  datatype Call = Call(step: Step, input: Current)

  /** What the engine's operations answer: single steps, the fused scans, and value display. */
  datatype Operations = Operations(
    execute: Call -> Answer,
    scanNearest: (Step, Step) -> (Option<(seq<Record>, Option<BudgetStop>)>),
    scanAggregate: (Step, Step) -> Answer,
    scanGroups: (Step, Step, Step, Option<Top>) -> Answer,
    render: Value -> seq<Byte>)

  // ─── One step ──────────────────────────────────────────────────────────────

  /** Steps that use the records up and answer with something else. */
  predicate Consumes(step: Step) {
    step.Set? || step.Delete? || step.Aggregate?
  }

  function Extract(a: Answer): Option<seq<Record>> {
    match a
    case Success(Records(rs)) => Some(rs)
    case Success(Paginated(rs, _, _, _)) => Some(rs)
    case _ => None
  }

  function Truncated(rs: seq<Record>, n: nat): seq<Record> {
    if n < |rs| then rs[..n] else rs
  }

  function Projected(r: Record, keep: set<string>): Record {
    r.(fields := map k | k in r.fields && k in keep :: r.fields[k])
  }

  function Project(rs: seq<Record>, keep: set<string>): (out: seq<Record>)
    ensures |out| == |rs|
  {
    seq(|rs|, i requires 0 <= i < |rs| => Projected(rs[i], keep))
  }

  /** What a step does to the loop: go on with records, or end it. */
  datatype Effect = Goes(records: seq<Record>, calls: seq<Call>) | Ends(answer: Answer, calls: seq<Call>)

  function FromRecords(a: Answer, call: Call): Effect {
    match Extract(a)
    case Some(rs) => Goes(rs, [call])
    case None => Ends(if a.Failure? then a else Failure("expected records"), [call])
  }

  function Apply(ops: Operations, step: Step, current: Current): Effect {
    if step.Find? || step.Scan? || step.ScanGhost? then FromRecords(ops.execute(Call(step, None)), Call(step, None))
    else if step.GroupBy? then Ends(Failure("GROUP BY is only supported behind SCAN"), [])
    else if step.Take? && step.top.metric.Some? then Ends(Failure("TAKE n BY needs GROUP BY"), [])
    else if current == None then Ends(Failure("requires preceding records"), [])
    else if step.Take? then Goes(Truncated(current.value, step.top.n), [])
    else if step.Shape? then Goes(Project(current.value, step.keep), [])
    else
      var call := Call(step, current);
      if Consumes(step) then Ends(ops.execute(call), [call]) else FromRecords(ops.execute(call), call)
  }

  function Finish(current: Current, stop: Option<BudgetStop>): Answer {
    match (current, stop)
    case (Some(rs), Some(_)) => Success(Paginated(rs, None, true, stop))
    case (Some(rs), None) => Success(Records(rs))
    case (None, _) => Success(Records([]))
  }

  const REFUSAL := Failure("refusing to run a mutating or aggregating step over a partial candidate set")

  /** The answer of the step loop and the calls it made. */
  function Run(ops: Operations, steps: seq<Step>, current: Current, stop: Option<BudgetStop>): (Answer, seq<Call>) {
    if steps == [] then (Finish(current, stop), [])
    else if stop.Some? && Consumes(steps[0]) then (REFUSAL, [])
    else match Apply(ops, steps[0], current)
      case Ends(a, calls) => (a, calls)
      case Goes(rs, calls) => var (a, more) := Run(ops, steps[1..], Some(rs), stop); (a, calls + more)
  }

  // ─── The fused shapes ──────────────────────────────────────────────────────

  predicate ScansAggregate(steps: seq<Step>) {
    |steps| == 2 && steps[0].Scan? && steps[1].Aggregate?
  }

  predicate ScansNearest(steps: seq<Step>) {
    |steps| >= 2 && steps[0].Scan? && steps[1].Nearest?
  }

  predicate ScansGroups(steps: seq<Step>) {
    |steps| == 3 && steps[0].Scan? && steps[1].GroupBy? && steps[2].Aggregate?
  }

  predicate ScansTop(steps: seq<Step>) {
    |steps| == 4 && steps[0].Scan? && steps[1].GroupBy? && steps[2].Aggregate? && steps[3].Take?
  }

  // ─── The loop ──────────────────────────────────────────────────────────────

  lemma RunGoesOn(ops: Operations, steps: seq<Step>, current: Current, stop: Option<BudgetStop>, done: seq<Call>)
    requires steps != [] && !(stop.Some? && Consumes(steps[0])) && Apply(ops, steps[0], current).Goes?
    ensures var e := Apply(ops, steps[0], current);
            var rest := Run(ops, steps[1..], Some(e.records), stop);
            Run(ops, steps, current, stop).0 == rest.0
            && done + Run(ops, steps, current, stop).1 == (done + e.calls) + rest.1
  {
  }

  class Engine {
    const ops: Operations
    var trace: seq<Call>

    constructor (ops: Operations)
      ensures this.ops == ops && trace == []
    {
      this.ops, trace := ops, [];
    }

    method RunSteps(steps: seq<Step>, seed: Current, stop: Option<BudgetStop>) returns (a: Answer)
      modifies this
      ensures a == Run(ops, steps, seed, stop).0 && trace == old(trace) + Run(ops, steps, seed, stop).1
    {
      var current := seed;
      var i := 0;
      assert steps[0..] == steps;
      while i < |steps|
        invariant i <= |steps|
        invariant Run(ops, steps, seed, stop).0 == Run(ops, steps[i..], current, stop).0
        invariant old(trace) + Run(ops, steps, seed, stop).1 == trace + Run(ops, steps[i..], current, stop).1
      {
        var step := steps[i];
        assert steps[i..][0] == step && steps[i..][1..] == steps[i + 1..];
        if stop.Some? && Consumes(step) {
          return REFUSAL;
        }
        var effect := Apply(ops, step, current);
        if effect.Ends? {
          trace := trace + effect.calls;
          return effect.answer;
        }
        RunGoesOn(ops, steps[i..], current, stop, trace);
        trace := trace + effect.calls;
        current := Some(effect.records);
        i := i + 1;
      }
      assert steps[i..] == [] && trace + [] == trace;
      return Finish(current, stop);
    }

    method ExecutePipeline(steps: seq<Step>) returns (a: Answer)
      modifies this
      ensures ScansAggregate(steps) ==> a == ops.scanAggregate(steps[0], steps[1])
      ensures ScansGroups(steps) ==> a == ops.scanGroups(steps[0], steps[1], steps[2], None)
      ensures ScansNearest(steps) ==>
                match ops.scanNearest(steps[0], steps[1])
                case None => a.Failure?
                case Some((records, stop)) =>
                  && a == Run(ops, steps[2..], Some(records), stop).0
                  && trace == old(trace) + Run(ops, steps[2..], Some(records), stop).1
      ensures ScansTop(steps) ==>
                var grouped, top := ops.scanGroups(steps[0], steps[1], steps[2], Some(steps[3].top)), steps[3].top;
                if !(grouped.Success? && grouped.result.Grouped?) then a == grouped
                else if top.metric == None || grouped.result.rows == []
                  || top.metric.value in grouped.result.rows[0] then
                  && a.Success? && a.result.Grouped?
                  && (top.metric == None ==>
                        a.result.rows
                        == if top.n < |grouped.result.rows| then grouped.result.rows[..top.n] else grouped.result.rows)
                  && (top.metric.Some? ==>
                        var cmp := RowOrder(Grouping(steps[1].fields, ops.render), top.metric.value, top.descending);
                        TopRows(cmp, grouped.result.rows, top.n, a.result.rows))
                else a.Failure?
      ensures !ScansAggregate(steps) && !ScansNearest(steps) && !ScansGroups(steps) && !ScansTop(steps) ==>
                a == Run(ops, steps, None, None).0 && trace == old(trace) + Run(ops, steps, None, None).1
    {
      if ScansAggregate(steps) {
        return ops.scanAggregate(steps[0], steps[1]);
      }
      if ScansNearest(steps) {
        a := AfterNearest(steps);
        return;
      }
      if ScansGroups(steps) {
        return ops.scanGroups(steps[0], steps[1], steps[2], None);
      }
      if ScansTop(steps) {
        var grouped := ops.scanGroups(steps[0], steps[1], steps[2], Some(steps[3].top));
        if grouped.Success? && grouped.result.Grouped? {
          var r := ApplyTop(grouped.result.rows, steps[3].top, Grouping(steps[1].fields, ops.render));
          return if r.Rows? then Success(Grouped(r.rows)) else Failure("not a metric in the AGGREGATE clause");
        }
        return grouped;
      }
      a := RunSteps(steps, None, None);
    }

    method AfterNearest(steps: seq<Step>) returns (a: Answer)
      requires ScansNearest(steps)
      modifies this
      ensures match ops.scanNearest(steps[0], steps[1])
              case None => a.Failure?
              case Some((records, stop)) =>
                && a == Run(ops, steps[2..], Some(records), stop).0
                && trace == old(trace) + Run(ops, steps[2..], Some(records), stop).1
    {
      var fused := ops.scanNearest(steps[0], steps[1]);
      if fused == None {
        return Failure("scan failed");
      }
      var (records, stop) := fused.value;
      if |steps| > 2 {
        a := RunSteps(steps[2..], Some(records), stop);
        return;
      }
      assert steps[2..] == [];
      if stop.Some? {
        return Success(Paginated(records, None, true, stop));
      }
      return Success(Records(records));
    }
  }

  // ─── A budget stop reaches the answer ──────────────────────────────────────

  /** Nothing that changes or sums up data was called. */
  predicate Harmless(calls: seq<Call>) {
    forall i | 0 <= i < |calls| :: !Consumes(calls[i].step)
  }

  lemma StepIsHarmless(ops: Operations, step: Step, current: Current)
    requires !Consumes(step)
    ensures Harmless(Apply(ops, step, current).calls)
    ensures Apply(ops, step, current).Ends? ==> Apply(ops, step, current).answer.Failure?
  {
  }

  /**
   After a fused prefix that hit its budget, every tail of steps ends in an error
   or in a page that says there is more and carries the same stop, and no SET,
   DELETE or AGGREGATE is ever called.
   */
  lemma {:induction false} BudgetStopTravels(ops: Operations, tail: seq<Step>, records: seq<Record>, stop: BudgetStop)
    ensures var (a, calls) := Run(ops, tail, Some(records), Some(stop));
            && (a.Failure?
                || (a.result.Paginated? && a.result.hasMore && a.result.stop == Some(stop) && a.result.cursor == None))
            && Harmless(calls)
    decreases |tail|
  {
    if tail != [] && !Consumes(tail[0]) {
      StepIsHarmless(ops, tail[0], Some(records));
      var effect := Apply(ops, tail[0], Some(records));
      if effect.Goes? {
        BudgetStopTravels(ops, tail[1..], effect.records, stop);
      }
    }
  }

  /** A tail with a consuming step anywhere in it is always refused. */
  lemma {:induction false} ConsumingTailFails(ops: Operations, tail: seq<Step>, records: seq<Record>,
                                              stop: BudgetStop, k: nat)
    requires k < |tail| && Consumes(tail[k])
    ensures Run(ops, tail, Some(records), Some(stop)).0.Failure?
    decreases |tail|
  {
    if !Consumes(tail[0]) {
      StepIsHarmless(ops, tail[0], Some(records));
      var effect := Apply(ops, tail[0], Some(records));
      if effect.Goes? {
        ConsumingTailFails(ops, tail[1..], effect.records, stop, k - 1);
      }
    }
  }

  /** A tail of projections and truncations never fails, with or without a stop, and calls nothing. */
  predicate PureTail(tail: seq<Step>) {
    forall i | 0 <= i < |tail| :: tail[i].Shape? || (tail[i].Take? && tail[i].top.metric == None)
  }

  function Lids(rs: seq<Record>): (out: seq<nat>)
    ensures |out| == |rs|
  {
    seq(|rs|, i requires 0 <= i < |rs| => rs[i].lid)
  }

  function Least(tail: seq<Step>, n: nat): nat {
    if tail == [] then n
    else Least(tail[1..], if tail[0].Take? && tail[0].top.n < n then tail[0].top.n else n)
  }

  /**
   Projections and truncations behind a fused SCAN | NEAREST keep its ranking:
   the answer holds the best records, as many as the smallest TAKE allows.
   */
  lemma {:induction false} PureTailKeepsRanking(ops: Operations, tail: seq<Step>, records: seq<Record>,
                                                stop: Option<BudgetStop>)
    requires PureTail(tail)
    ensures var (a, calls) := Run(ops, tail, Some(records), stop);
            && a.Success? && calls == [] && (a.result.Records? || a.result.Paginated?)
            && Least(tail, |records|) <= |records|
            && Lids(a.result.records) == Lids(records)[..Least(tail, |records|)]
    decreases |tail|
  {
    if tail != [] {
      var next := Apply(ops, tail[0], Some(records)).records;
      assert forall i | 0 <= i < |tail[1..]| :: tail[1..][i] == tail[i + 1];
      PureTailKeepsRanking(ops, tail[1..], next, stop);
      assert Lids(next) == Lids(records)[..|next|];
    } else {
      assert Lids(records)[..|records|] == Lids(records);
    }
  }
}
