/** Which recent units accompany the mandatory input. */
module ContextSelection {
  // Which recent units of two histories accompany the mandatory input. The measurer is any stateless
  // function: nothing is assumed about how sizes relate to one another.

  import opened Wrappers
  import Projection

  const MAX_CONTEXT_MEASUREMENTS := 512
  const USIZE := 0x1_0000_0000_0000_0000

  type usize = n: int | 0 <= n < USIZE

  datatype Budget = Budget(sourceTokens: usize, hostTokens: usize, contextTokens: usize, outputTokens: usize)

  /** Every request is for suffixes, so a request names where each of them starts. */
  datatype Request = Source(start: nat) | Host(start: nat) | Complete(source: nat, host: nat)

  type Measurer<!E> = Request -> Result<usize, E>

  datatype Selection = Selection(source: nat, host: nat, promptTokens: usize, measurements: nat)

  datatype SelectionError<E> = InvalidBudget | UnitLimit | MeasurementLimit | Measurement(error: E) | MandatoryInputTooLarge

  /** Entry `k` of the trimming chain: the oldest host units go first, then the oldest source units. */
  function Chain(source: nat, host: nat, hostUnits: nat, k: nat): (nat, nat)
    requires host <= hostUnits
  {
    if k <= hostUnits - host then (source, host + k) else (source + (k - (hostUnits - host)), hostUnits)
  }

  /** The whole framed input and the output fit; a sum past the machine width does not. */
  predicate Fits<E>(budget: Budget, measure: Measurer<E>, at: (nat, nat)) {
    var m := measure(Complete(at.0, at.1));
    m.Ok? && m.value + budget.outputTokens < USIZE && m.value + budget.outputTokens <= budget.contextTokens
  }

  predicate WithinShare<E>(share: usize, measured: Result<usize, E>) {
    measured.Ok? && measured.value <= share
  }

  /** The two histories, and the request for the suffix of one that starts at `k`. */
  datatype Side = OfSource | OfHost

  function Ask(side: Side, k: nat): Request {
    if side.OfSource? then Source(k) else Host(k)
  }

  /**
   Where the suffix of one history starts: everything from there on was measured within its own
   share, and one more unit was not (or there is none, or the history is switched off).
   */
  ghost predicate IsSuffixStart<E>(share: usize, units: nat, measure: Measurer<E>, side: Side, start: nat) {
    && start <= units
    && (forall k | start <= k < units :: WithinShare(share, measure(Ask(side, k))))
    && (share == 0 ==> start == units)
    && (share != 0 && start > 0 ==>
          measure(Ask(side, start - 1)).Ok? && !WithinShare(share, measure(Ask(side, start - 1))))
  }

  /** So the starts that the two greedy passes find are determined by the measurer alone. */
  lemma SuffixStartUnique<E>(share: usize, units: nat, measure: Measurer<E>, side: Side, a: nat, b: nat)
    requires IsSuffixStart(share, units, measure, side, a) && IsSuffixStart(share, units, measure, side, b)
    ensures a == b
  {
  }

  // ---------- What the work would cost without a limit ----------

  /** Where the greedy pass ends, or the error that it meets, if it is at `start` now. */
  function PassEnd<E>(share: usize, measure: Measurer<E>, side: Side, start: nat): Result<nat, E> {
    if share == 0 || start == 0 then Ok(start)
    else
      var size :- measure(Ask(side, start - 1));
      if size > share then Ok(start) else PassEnd(share, measure, side, start - 1)
  }

  /** How many measurements the pass still takes from `start`. */
  function PassCost<E>(share: usize, measure: Measurer<E>, side: Side, start: nat): nat {
    if share == 0 || start == 0 then 0
    else 1 + if WithinShare(share, measure(Ask(side, start - 1))) then PassCost(share, measure, side, start - 1) else 0
  }

  /** A pass measures each unit it keeps, and one more that it does not, if there is one. */
  lemma {:induction false} PassCounts<E>(share: usize, measure: Measurer<E>, side: Side, units: nat)
    requires PassEnd(share, measure, side, units).Ok?
    ensures var start := PassEnd(share, measure, side, units).value;
            && IsSuffixStart(share, units, measure, side, start)
            && PassCost(share, measure, side, units)
               == if share == 0 then 0 else units - start + if start > 0 then 1 else 0
  {
    if share != 0 && units > 0 && WithinShare(share, measure(Ask(side, units - 1))) {
      PassCounts(share, measure, side, units - 1);
    }
  }

  /** How many measurements the trimming takes from entry `k` of the chain on. */
  function TrimCost<E>(budget: Budget, sourceUnits: nat, hostUnits: nat, measure: Measurer<E>, source: nat, host: nat, k: nat): nat
    requires source <= sourceUnits && host <= hostUnits && k <= (hostUnits - host) + (sourceUnits - source)
    decreases (hostUnits - host) + (sourceUnits - source) - k
  {
    var at := Chain(source, host, hostUnits, k);
    if measure(Complete(at.0, at.1)).Err? || Fits(budget, measure, at) || k == (hostUnits - host) + (sourceUnits - source) then 1
    else 1 + TrimCost(budget, sourceUnits, hostUnits, measure, source, host, k + 1)
  }

  /** All measurements that a selection without any limit on them would take. */
  ghost function Demand<E>(budget: Budget, sourceUnits: nat, hostUnits: nat, measure: Measurer<E>): nat {
    var source := PassEnd(budget.sourceTokens, measure, OfSource, sourceUnits);
    var host := PassEnd(budget.hostTokens, measure, OfHost, hostUnits);
    PassCost(budget.sourceTokens, measure, OfSource, sourceUnits)
    + if source.Err? then 0
      else
        PassCost(budget.hostTokens, measure, OfHost, hostUnits)
        + if host.Err? then 0
          else
            PassCounts(budget.sourceTokens, measure, OfSource, sourceUnits);
            PassCounts(budget.hostTokens, measure, OfHost, hostUnits);
            TrimCost(budget, sourceUnits, hostUnits, measure, source.value, host.value, 0)
  }

  // ---------- The selection ----------

  /** The limit is reported exactly when the pass would need more than is left of it. */
  method SuffixStart<E>(share: usize, units: nat, measure: Measurer<E>, side: Side, used: nat)
    returns (r: Result<nat, SelectionError<E>>, now: nat)
    requires used <= MAX_CONTEXT_MEASUREMENTS
    ensures used <= now <= MAX_CONTEXT_MEASUREMENTS
    ensures r == Err(MeasurementLimit) <==> used + PassCost(share, measure, side, units) > MAX_CONTEXT_MEASUREMENTS
    ensures r != Err(MeasurementLimit) ==> now == used + PassCost(share, measure, side, units)
    ensures r != Err(MeasurementLimit) ==>
              var end := PassEnd(share, measure, side, units);
              if end.Ok? then r == Ok(end.value) && IsSuffixStart(share, units, measure, side, end.value)
              else r == Err(Measurement(end.error)) && exists k :: 0 <= k < units && measure(Ask(side, k)) == Err(end.error)
  {
    now := used;
    if share == 0 { return Ok(units), now; }
    var start: nat := units;
    while start > 0
      invariant start <= units && used <= now <= MAX_CONTEXT_MEASUREMENTS
      invariant now + PassCost(share, measure, side, start) == used + PassCost(share, measure, side, units)
      invariant PassEnd(share, measure, side, start) == PassEnd(share, measure, side, units)
      invariant forall k | start <= k < units :: WithinShare(share, measure(Ask(side, k)))
    {
      if now >= MAX_CONTEXT_MEASUREMENTS { return Err(MeasurementLimit), now; }
      now := now + 1;
      var m := measure(Ask(side, start - 1));
      if m.Err? { return Err(Measurement(m.error)), now; }
      if m.value > share { return Ok(start), now; }
      start := start - 1;
    }
    return Ok(start), now;
  }

  /** Outcome of trimming from the given starts: the first entry of the chain that fits. */
  ghost predicate IsFirstFit<E>(budget: Budget, sourceUnits: nat, hostUnits: nat, measure: Measurer<E>,
                                source: nat, host: nat, chosen: (nat, nat))
    requires source <= sourceUnits && host <= hostUnits
  {
    exists k: nat ::
      && k <= (hostUnits - host) + (sourceUnits - source)
      && Chain(source, host, hostUnits, k) == chosen && Fits(budget, measure, chosen)
      && forall j: nat | j < k :: !Fits(budget, measure, Chain(source, host, hostUnits, j))
  }

  /** A request for suffixes of the two histories at hand. */
  predicate Requested(sourceUnits: nat, hostUnits: nat, request: Request) {
    match request
    case Source(start) => start < sourceUnits
    case Host(start) => start < hostUnits
    case Complete(source, host) => source <= sourceUnits && host <= hostUnits
  }

  /** Drops the oldest host unit, then the oldest source unit, until the complete input fits. */
  method Trim<E>(budget: Budget, sourceUnits: nat, hostUnits: nat, measure: Measurer<E>, sourceStart: nat, hostStart: nat,
                 used: nat) returns (r: Result<Selection, SelectionError<E>>, now: nat)
    requires sourceStart <= sourceUnits && hostStart <= hostUnits && used <= MAX_CONTEXT_MEASUREMENTS
    ensures now <= MAX_CONTEXT_MEASUREMENTS
    ensures var cost := TrimCost(budget, sourceUnits, hostUnits, measure, sourceStart, hostStart, 0);
            && (r == Err(MeasurementLimit) <==> used + cost > MAX_CONTEXT_MEASUREMENTS)
            && (r != Err(MeasurementLimit) ==> now == used + cost)
    ensures r.Err? && r.error.Measurement? ==>
              exists request :: Requested(sourceUnits, hostUnits, request) && measure(request) == Err(r.error.error)
    ensures r.Ok? ==>
              && IsFirstFit(budget, sourceUnits, hostUnits, measure, sourceStart, hostStart, (r.value.source, r.value.host))
              && measure(Complete(r.value.source, r.value.host)) == Ok(r.value.promptTokens)
              && r.value.measurements == now
              && sourceStart <= r.value.source <= sourceUnits && hostStart <= r.value.host <= hostUnits
    ensures r == Err(MandatoryInputTooLarge) ==>
              forall k: nat | k <= (hostUnits - hostStart) + (sourceUnits - sourceStart) ::
                !Fits(budget, measure, Chain(sourceStart, hostStart, hostUnits, k))
    ensures r.Err? ==> r.error != InvalidBudget && r.error != UnitLimit
  {
    now := used;
    var source, host := sourceStart, hostStart;
    ghost var tried: nat := 0;
    while true
      invariant sourceStart <= source <= sourceUnits && hostStart <= host <= hostUnits && now <= MAX_CONTEXT_MEASUREMENTS
      invariant tried == (host - hostStart) + (source - sourceStart) && (host < hostUnits ==> source == sourceStart)
      invariant Chain(sourceStart, hostStart, hostUnits, tried) == (source, host)
      invariant now + TrimCost(budget, sourceUnits, hostUnits, measure, sourceStart, hostStart, tried)
             == used + TrimCost(budget, sourceUnits, hostUnits, measure, sourceStart, hostStart, 0)
      invariant forall j: nat | j < tried :: !Fits(budget, measure, Chain(sourceStart, hostStart, hostUnits, j))
      decreases (hostUnits - host) + (sourceUnits - source)
    {
      if now >= MAX_CONTEXT_MEASUREMENTS { return Err(MeasurementLimit), now; }
      now := now + 1;
      var m := measure(Complete(source, host));
      if m.Err? {
        assert Requested(sourceUnits, hostUnits, Complete(source, host));
        return Err(Measurement(m.error)), now;
      }
      if m.value + budget.outputTokens < USIZE && m.value + budget.outputTokens <= budget.contextTokens {
        return Ok(Selection(source, host, m.value, now)), now;
      }
      if host < hostUnits {
        host := host + 1;
      } else if source < sourceUnits {
        source := source + 1;
      } else {
        return Err(MandatoryInputTooLarge), now;
      }
      tried := tried + 1;
    }
  }

  /**
   A success is the first fitting entry of the chain that starts from the two greedy suffixes;
   "mandatory input too large" means that no entry of that chain fits; and the measurement limit
   is reported exactly when the same work without the limit would take more than 512.
   */
  method SelectContext<E>(budget: Budget, sourceUnits: nat, hostUnits: nat, measure: Measurer<E>)
    returns (r: Result<Selection, SelectionError<E>>, ghost greedy: (nat, nat), ghost measurements: nat)
    ensures budget.contextTokens == 0 || budget.outputTokens >= budget.contextTokens <==> r == Err(InvalidBudget)
    ensures r == Err(UnitLimit) <==>
              budget.outputTokens < budget.contextTokens && sourceUnits + hostUnits > Projection.MAX_DOCUMENT_PARTS
    ensures r == Err(MeasurementLimit) <==>
              && budget.outputTokens < budget.contextTokens && sourceUnits + hostUnits <= Projection.MAX_DOCUMENT_PARTS
              && Demand(budget, sourceUnits, hostUnits, measure) > MAX_CONTEXT_MEASUREMENTS
    ensures measurements <= MAX_CONTEXT_MEASUREMENTS
    ensures r != Err(MeasurementLimit) && r != Err(InvalidBudget) && r != Err(UnitLimit) ==>
              measurements == Demand(budget, sourceUnits, hostUnits, measure)
    ensures r.Err? && r.error.Measurement? ==>
              exists request :: Requested(sourceUnits, hostUnits, request) && measure(request) == Err(r.error.error)
    ensures r.Ok? || r == Err(MandatoryInputTooLarge) ==>
              && IsSuffixStart(budget.sourceTokens, sourceUnits, measure, OfSource, greedy.0)
              && IsSuffixStart(budget.hostTokens, hostUnits, measure, OfHost, greedy.1)
    ensures r.Ok? ==>
              && IsFirstFit(budget, sourceUnits, hostUnits, measure, greedy.0, greedy.1, (r.value.source, r.value.host))
              && measure(Complete(r.value.source, r.value.host)) == Ok(r.value.promptTokens)
              && r.value.measurements == measurements
              && (r.value.source < sourceUnits ==> WithinShare(budget.sourceTokens, measure(Source(r.value.source))))
              && (r.value.host < hostUnits ==> WithinShare(budget.hostTokens, measure(Host(r.value.host))))
    ensures r == Err(MandatoryInputTooLarge) ==>
              forall k: nat | k <= (hostUnits - greedy.1) + (sourceUnits - greedy.0) ::
                !Fits(budget, measure, Chain(greedy.0, greedy.1, hostUnits, k))
  {
    greedy, measurements := (sourceUnits, hostUnits), 0;
    if budget.contextTokens == 0 || budget.outputTokens >= budget.contextTokens {
      return Err(InvalidBudget), greedy, measurements;
    }
    if sourceUnits + hostUnits > Projection.MAX_DOCUMENT_PARTS { return Err(UnitLimit), greedy, measurements; }
    var sourceStart, used := SuffixStart(budget.sourceTokens, sourceUnits, measure, OfSource, 0);
    measurements := used;
    if sourceStart.Err? {
      if sourceStart.error.Measurement? {
        ghost var k :| 0 <= k < sourceUnits && measure(Ask(OfSource, k)) == Err(sourceStart.error.error);
        assert Requested(sourceUnits, hostUnits, Source(k));
      }
      return Err(sourceStart.error), greedy, measurements;
    }
    var hostStart, used' := SuffixStart(budget.hostTokens, hostUnits, measure, OfHost, used);
    used, measurements := used', used';
    if hostStart.Err? {
      if hostStart.error.Measurement? {
        ghost var k :| 0 <= k < hostUnits && measure(Ask(OfHost, k)) == Err(hostStart.error.error);
        assert Requested(sourceUnits, hostUnits, Host(k));
      }
      return Err(hostStart.error), greedy, measurements;
    }
    greedy := (sourceStart.value, hostStart.value);
    r, measurements := Trim(budget, sourceUnits, hostUnits, measure, sourceStart.value, hostStart.value, used);
    if r.Ok? {
      assert r.value.source < sourceUnits ==> WithinShare(budget.sourceTokens, measure(Ask(OfSource, r.value.source)));
      assert r.value.host < hostUnits ==> WithinShare(budget.hostTokens, measure(Ask(OfHost, r.value.host)));
    }
  }
}
