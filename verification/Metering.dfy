/**
 Inference metering (`packages/db/src/budgets.ts`): counters incremented by the statement that reads
 them, and an alert state moved by compare-and-set, under any interleaving of callers.
 */
module Metering {
  import opened Maybe

  /** Scope key and period key. */
  type UsageKey = (string, string)

  datatype Amounts = Amounts(inputTokens: int, outputTokens: int, usdMicros: int, calls: int, unpricedCalls: int)

  datatype UsageRow = UsageRow(amounts: Amounts, alertedState: string)

  type Usage = map<UsageKey, UsageRow>

  datatype UsageCall = UsageCall(key: UsageKey, inputTokens: int, outputTokens: int, usdMicros: int, unpriced: bool)

  const ZERO: Amounts := Amounts(0, 0, 0, 0, 0)

  function Plus(a: Amounts, b: Amounts): Amounts {
    Amounts(a.inputTokens + b.inputTokens, a.outputTokens + b.outputTokens, a.usdMicros + b.usdMicros,
            a.calls + b.calls, a.unpricedCalls + b.unpricedCalls)
  }

  function Cost(c: UsageCall): Amounts {
    Amounts(c.inputTokens, c.outputTokens, c.usdMicros, 1, if c.unpriced then 1 else 0)
  }

  /** The column default a new row starts announced at. */
  const UNANNOUNCED: string := "ok"

  function AfterAdd(usage: Usage, c: UsageCall): Usage {
    usage[c.key := if c.key in usage then usage[c.key].(amounts := Plus(usage[c.key].amounts, Cost(c)))
                   else UsageRow(Cost(c), UNANNOUNCED)]
  }

  predicate AlertWins(usage: Usage, key: UsageKey, from: string) {
    key in usage && usage[key].alertedState == from
  }

  function AfterAlert(usage: Usage, key: UsageKey, from: string, to: string): Usage {
    if AlertWins(usage, key, from) then usage[key := usage[key].(alertedState := to)] else usage
  }

  class InferenceMeter {
    var usage: Usage

    constructor ()
      ensures usage == map[]
    {
      usage := map[];
    }

    /** One upsert: the row returned is the row as this call left it. */
    method AddInferenceUsage(c: UsageCall) returns (row: UsageRow)
      modifies this
      ensures usage == AfterAdd(old(usage), c)
      ensures row == usage[c.key]
      ensures usage.Keys == old(usage).Keys + {c.key} && forall k :: k in old(usage) && k != c.key ==> usage[k] == old(usage)[k]
      ensures var before := if c.key in old(usage) then old(usage)[c.key] else UsageRow(Amounts(0, 0, 0, 0, 0), "ok");
              && row.amounts.inputTokens == before.amounts.inputTokens + c.inputTokens
              && row.amounts.outputTokens == before.amounts.outputTokens + c.outputTokens
              && row.amounts.usdMicros == before.amounts.usdMicros + c.usdMicros
              && row.amounts.calls == before.amounts.calls + 1
              && row.amounts.unpricedCalls == before.amounts.unpricedCalls + One(c.unpriced)
              && row.alertedState == before.alertedState
    {
      if c.key !in usage {
        usage := usage[c.key := UsageRow(Amounts(c.inputTokens, c.outputTokens, c.usdMicros, 1, if c.unpriced then 1 else 0),
                                         UNANNOUNCED)];
      } else {
        var a := usage[c.key].amounts;
        usage := usage[c.key := usage[c.key].(amounts := Amounts(
          a.inputTokens + c.inputTokens, a.outputTokens + c.outputTokens, a.usdMicros + c.usdMicros,
          a.calls + 1, a.unpricedCalls + if c.unpriced then 1 else 0))];
      }
      row := usage[c.key];
    }

    method ClaimInferenceAlert(key: UsageKey, from: string, to: string) returns (won: bool)
      modifies this
      ensures won <==> key in old(usage) && old(usage)[key].alertedState == from
      ensures usage == AfterAlert(old(usage), key, from, to)
      ensures usage.Keys == old(usage).Keys && forall k :: k in usage ==> usage[k].amounts == old(usage)[k].amounts
      ensures forall k :: k in usage ==> usage[k].alertedState == if won && k == key then to else old(usage)[k].alertedState
    {
      won := key in usage && usage[key].alertedState == from;
      if won {
        usage := usage[key := usage[key].(alertedState := to)];
      }
    }
  }

  // ---------- runs ----------

  datatype Step = Add(call: UsageCall) | Alert(key: UsageKey, from: string, to: string)

  function Next(usage: Usage, s: Step): Usage {
    match s
    case Add(call) => AfterAdd(usage, call)
    case Alert(key, from, to) => AfterAlert(usage, key, from, to)
  }

  function Run(usage: Usage, steps: seq<Step>): Usage
    decreases |steps|
  {
    if steps == [] then usage else Run(Next(usage, steps[0]), steps[1..])
  }

  function AmountsAt(usage: Usage, key: UsageKey): Amounts {
    if key in usage then usage[key].amounts else ZERO
  }

  /** The sum of every call made to a key. */
  function Spent(steps: seq<Step>, key: UsageKey): Amounts {
    if steps == [] then ZERO
    else
      var rest := Spent(steps[1..], key);
      if steps[0].Add? && steps[0].call.key == key then Plus(Cost(steps[0].call), rest) else rest
  }

  /** Nothing is lost or counted twice: each counter is what it was plus the sum over all calls. */
  lemma {:induction false} MeteringConserves(usage: Usage, steps: seq<Step>, key: UsageKey)
    ensures AmountsAt(Run(usage, steps), key) == Plus(AmountsAt(usage, key), Spent(steps, key))
    decreases |steps|
  {
    var before := AmountsAt(usage, key);
    if steps == [] {
      PlusLaws(before, ZERO, ZERO);
    } else {
      var s, rest := steps[0], steps[1..];
      StepAdds(usage, s, key);
      MeteringConserves(Next(usage, s), rest, key);
      if s.Add? && s.call.key == key { PlusLaws(before, Cost(s.call), Spent(rest, key)); }
    }
  }

  lemma PlusLaws(a: Amounts, b: Amounts, c: Amounts)
    ensures Plus(Plus(a, b), c) == Plus(a, Plus(b, c)) && Plus(a, ZERO) == a
  {
  }

  lemma StepAdds(usage: Usage, s: Step, key: UsageKey)
    ensures AmountsAt(Next(usage, s), key) ==
              if s.Add? && s.call.key == key then Plus(AmountsAt(usage, key), Cost(s.call)) else AmountsAt(usage, key)
  {
  }

  lemma {:induction false} RunInTwo(usage: Usage, steps: seq<Step>, k: nat)
    requires k <= |steps|
    ensures Run(usage, steps) == Run(Run(usage, steps[..k]), steps[k..])
    decreases k
  {
    if k > 0 {
      RunInTwo(Next(usage, steps[0]), steps[1..], k - 1);
      assert steps[..k][1..] == steps[1..][..k - 1] && steps[1..][k - 1..] == steps[k..];
    }
  }

  /** The row the i-th caller gets back is the total of every call served up to and including its own. */
  lemma ReturnedRowsArePrefixSums(usage: Usage, steps: seq<Step>, i: nat)
    requires i < |steps| && steps[i].Add?
    ensures var key := steps[i].call.key;
            Next(Run(usage, steps[..i]), steps[i])[key].amounts == Plus(AmountsAt(usage, key), Spent(steps[..i + 1], key))
  {
    var key := steps[i].call.key;
    MeteringConserves(usage, steps[..i + 1], key);
    RunInTwo(usage, steps[..i + 1], i);
    assert steps[..i + 1][..i] == steps[..i] && steps[..i + 1][i..] == [steps[i]];
    var before := Run(usage, steps[..i]);
    assert Run(before, [steps[i]]) == Next(before, steps[i]) by { assert [steps[i]][1..] == []; }
  }

  // ---------- crossing a limit ----------

  datatype Dimension = InputTokens | OutputTokens | UsdMicros

  function Total(a: Amounts, d: Dimension): int {
    match d case InputTokens => a.inputTokens case OutputTokens => a.outputTokens case UsdMicros => a.usdMicros
  }

  /** This call takes the key's total from below the limit to at or above it. */
  predicate Crosses(usage: Usage, s: Step, key: UsageKey, d: Dimension, limit: int) {
    s.Add? && s.call.key == key
    && Total(AmountsAt(usage, key), d) < limit <= Total(AmountsAt(Next(usage, s), key), d)
  }

  function Crossings(usage: Usage, steps: seq<Step>, key: UsageKey, d: Dimension, limit: int): nat
    decreases |steps|
  {
    if steps == [] then 0
    else (if Crosses(usage, steps[0], key, d, limit) then 1 else 0) + Crossings(Next(usage, steps[0]), steps[1..], key, d, limit)
  }

  predicate NeverNegative(steps: seq<Step>) {
    forall i :: 0 <= i < |steps| && steps[i].Add? ==>
      steps[i].call.inputTokens >= 0 && steps[i].call.outputTokens >= 0 && steps[i].call.usdMicros >= 0
  }

  /** Exactly one call crosses when the run as a whole crosses, and none otherwise. */
  lemma {:induction false} OneCallerCrosses(usage: Usage, steps: seq<Step>, key: UsageKey, d: Dimension, limit: int)
    requires NeverNegative(steps)
    ensures Total(AmountsAt(usage, key), d) <= Total(AmountsAt(Run(usage, steps), key), d)
    ensures Crossings(usage, steps, key, d, limit) ==
              if Total(AmountsAt(usage, key), d) < limit <= Total(AmountsAt(Run(usage, steps), key), d) then 1 else 0
    decreases |steps|
  {
    if steps != [] {
      assert NeverNegative(steps[1..]);
      OneCallerCrosses(Next(usage, steps[0]), steps[1..], key, d, limit);
    }
  }

  // ---------- alerts ----------

  function StateAt(usage: Usage, key: UsageKey): Option<string> {
    if key in usage then Some(usage[key].alertedState) else None
  }

  predicate Leaves(usage: Usage, s: Step, key: UsageKey, state: string) {
    s.Alert? && s.key == key && s.from == state && AlertWins(usage, key, state)
  }

  predicate Enters(usage: Usage, s: Step, key: UsageKey, state: string) {
    || (s.Alert? && s.key == key && s.to == state && AlertWins(usage, key, s.from))
    || (s.Add? && s.call.key == key && key !in usage && state == UNANNOUNCED)
  }

  function Departures(usage: Usage, steps: seq<Step>, key: UsageKey, state: string): nat
    decreases |steps|
  {
    if steps == [] then 0 else One(Leaves(usage, steps[0], key, state)) + Departures(Next(usage, steps[0]), steps[1..], key, state)
  }

  function Arrivals(usage: Usage, steps: seq<Step>, key: UsageKey, state: string): nat
    decreases |steps|
  {
    if steps == [] then 0 else One(Enters(usage, steps[0], key, state)) + Arrivals(Next(usage, steps[0]), steps[1..], key, state)
  }

  /** Winning claims balance: alerts sent from a state are its arrivals, up to the one still standing. */
  lemma {:induction false} AlertsBalance(usage: Usage, steps: seq<Step>, key: UsageKey, state: string)
    ensures Departures(usage, steps, key, state) + One(StateAt(Run(usage, steps), key) == Some(state))
              == One(StateAt(usage, key) == Some(state)) + Arrivals(usage, steps, key, state)
    decreases |steps|
  {
    if steps != [] {
      AlertsBalance(Next(usage, steps[0]), steps[1..], key, state);
    }
  }

  /** Every claim on the key moves to a later state. */
  ghost predicate OnlyForward(steps: seq<Step>, key: UsageKey, rank: string -> int) {
    forall i :: 0 <= i < |steps| && steps[i].Alert? && steps[i].key == key ==> rank(steps[i].from) < rank(steps[i].to)
  }

  lemma {:induction false} PastStatesStayPast(usage: Usage, steps: seq<Step>, key: UsageKey, rank: string -> int, state: string)
    requires OnlyForward(steps, key, rank) && key in usage && rank(state) < rank(usage[key].alertedState)
    ensures Departures(usage, steps, key, state) == 0
    decreases |steps|
  {
    if steps != [] {
      assert OnlyForward(steps[1..], key, rank);
      PastStatesStayPast(Next(usage, steps[0]), steps[1..], key, rank, state);
    }
  }

  /** While states only move forward, each is left by one winner at most, so each alert is sent once. */
  lemma {:induction false} AlertFiresOnce(usage: Usage, steps: seq<Step>, key: UsageKey, rank: string -> int, state: string)
    requires OnlyForward(steps, key, rank)
    ensures Departures(usage, steps, key, state) <= 1
    decreases |steps|
  {
    if steps != [] {
      assert OnlyForward(steps[1..], key, rank);
      if Leaves(usage, steps[0], key, state) {
        PastStatesStayPast(Next(usage, steps[0]), steps[1..], key, rank, state);
      } else {
        AlertFiresOnce(Next(usage, steps[0]), steps[1..], key, rank, state);
      }
    }
  }
}
