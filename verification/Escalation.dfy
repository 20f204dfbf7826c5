/**
 The escalation proof (`packages/core/src/types.ts`): a walk over what was read of a policy stack
 that claims a call made a little later cannot be allowed, and when exactly the claim is made.
 */
module Escalation {
  import opened Maybe
  import opened Policy

  datatype PolicyModuleKind = SpendCapKind | RateLimitKind | WhitelistKind | TimeWindowKind | StackKind | UnknownKind

  /** A cap's text, as `BigInt` takes it. */
  datatype CapText = Reads(amount: int) | Garbled

  /** What was read of one module for the queried node; `modules` is empty when a stack was not expanded. */
  datatype PolicyModuleInfo = PolicyModuleInfo(
    kind: PolicyModuleKind,
    cap: Option<CapText>,
    maxActions: Option<int>,
    windowSeconds: Option<int>,
    windowStartSec: Option<int>,
    actionsUsed: Option<int>,
    modules: seq<PolicyModuleInfo>
  )

  datatype ProofContext = ProofContext(value: int, nowSec: int, rateWindowMarginSec: int)

  function CapForces(info: PolicyModuleInfo, ctx: ProofContext): bool {
    info.kind.SpendCapKind? && info.cap.Some? && info.cap.value.Reads? && ctx.value > info.cap.value.amount
  }

  function RateLimitForcesEscalation(info: PolicyModuleInfo, ctx: ProofContext): bool {
    if info.maxActions.None? || info.windowSeconds.None? || info.windowStartSec.None? || info.actionsUsed.None? then false
    else if info.windowStartSec.value <= 0 then false
    else if info.actionsUsed.value < info.maxActions.value then false
    else
      var windowEndsSec := info.windowStartSec.value + info.windowSeconds.value;
      if ctx.nowSec >= windowEndsSec then false else windowEndsSec - ctx.nowSec > ctx.rateWindowMarginSec
  }

  function ModuleForces(info: PolicyModuleInfo, ctx: ProofContext): bool {
    || CapForces(info, ctx)
    || (info.kind.RateLimitKind? && RateLimitForcesEscalation(info, ctx))
    || PolicyForcesEscalation(info.modules, ctx)
  }

  /** One forcing module anywhere settles it. */
  function PolicyForcesEscalation(modules: seq<PolicyModuleInfo>, ctx: ProofContext): bool {
    modules != [] && (ModuleForces(modules[0], ctx) || PolicyForcesEscalation(modules[1..], ctx))
  }

  // ---------- reading a deployed stack ----------

  predicate Tells(field: Option<int>, actual: int) {
    field.Some? ==> field.value == actual
  }

  /** Whatever was read of the module is what it held for this agent; anything may have gone unread. */
  predicate Describes(info: PolicyModuleInfo, m: Module, agent: Address, w: World) {
    match info.kind
    case SpendCapKind =>
      info.modules == [] && m.SpendCap?
      && (info.cap.Some? && info.cap.value.Reads? ==> info.cap.value.amount == CapOf(w, m.at, agent))
    case RateLimitKind =>
      info.modules == [] && m.RateLimit?
      && Tells(info.maxActions, w.limits(m.at).maxActions)
      && Tells(info.windowSeconds, w.limits(m.at).windowSeconds)
      && Tells(info.windowStartSec, WindowOf(w, m.at, agent).windowStart)
      && Tells(info.actionsUsed, WindowOf(w, m.at, agent).count)
    case WhitelistKind => info.modules == [] && m.Whitelist?
    case TimeWindowKind => info.modules == [] && m.TimeWindow?
    case StackKind => m.Stack? && (info.modules == [] || DescribesAll(info.modules, m.modules, agent, w))
    case UnknownKind => info.modules == []
  }

  predicate DescribesAll(infos: seq<PolicyModuleInfo>, ms: seq<Module>, agent: Address, w: World) {
    |infos| == |ms|
    && (infos != [] ==> Describes(infos[0], ms[0], agent, w) && DescribesAll(infos[1..], ms[1..], agent, w))
  }

  // ---------- soundness ----------

  /** The module cannot allow the call at any moment up to the deadline. */
  predicate Stuck(m: Module, call: Call, w: World, deadline: int) {
    match m
    case SpendCap(at) => call.value > CapOf(w, at, call.agent)
    case RateLimit(at) =>
      var win := WindowOf(w, at, call.agent);
      win.windowStart > 0 && win.count >= w.limits(at).maxActions && win.windowStart + w.limits(at).windowSeconds > deadline
    case Stack(modules) => SomeStuck(modules, call, w, deadline)
    case _ => false
  }

  predicate SomeStuck(ms: seq<Module>, call: Call, w: World, deadline: int) {
    ms != [] && (Stuck(ms[0], call, w, deadline) || SomeStuck(ms[1..], call, w, deadline))
  }

  lemma {:induction false} ForcedIsStuck(info: PolicyModuleInfo, m: Module, call: Call, w: World, ctx: ProofContext)
    requires Describes(info, m, call.agent, w) && ctx.value == call.value && ModuleForces(info, ctx)
    ensures Stuck(m, call, w, ctx.nowSec + ctx.rateWindowMarginSec)
    decreases info, 0
  {
    if info.kind.StackKind? {
      SomeForcedIsStuck(info.modules, m.modules, call, w, ctx);
    }
  }

  lemma {:induction false} SomeForcedIsStuck(infos: seq<PolicyModuleInfo>, ms: seq<Module>, call: Call, w: World, ctx: ProofContext)
    requires DescribesAll(infos, ms, call.agent, w) && ctx.value == call.value && PolicyForcesEscalation(infos, ctx)
    ensures SomeStuck(ms, call, w, ctx.nowSec + ctx.rateWindowMarginSec)
    decreases infos, 1
  {
    if ModuleForces(infos[0], ctx) {
      ForcedIsStuck(infos[0], ms[0], call, w, ctx);
    } else {
      SomeForcedIsStuck(infos[1..], ms[1..], call, w, ctx);
    }
  }

  /** The agent's own cap is raised to the call's value or above. */
  predicate FreesCap(e: Event, call: Call) {
    e.SetAgentCap? && e.agent == call.agent && e.cap >= call.value
  }

  /** Recording more actions, waiting, any foreign change and any other cap write keep a stuck module stuck. */
  lemma {:induction false} StaysStuck(m: Module, call: Call, w: World, e: Event, deadline: int)
    requires Stuck(m, call, w, deadline) && !FreesCap(e, call) && Next(w, e).now <= deadline
    ensures Stuck(m, call, Next(w, e), deadline)
    decreases m, 0
  {
    if m.Stack? { SomeStaysStuck(m.modules, call, w, e, deadline); }
  }

  lemma {:induction false} SomeStaysStuck(ms: seq<Module>, call: Call, w: World, e: Event, deadline: int)
    requires SomeStuck(ms, call, w, deadline) && !FreesCap(e, call) && Next(w, e).now <= deadline
    ensures SomeStuck(ms, call, Next(w, e), deadline)
    decreases ms, 1
  {
    if Stuck(ms[0], call, w, deadline) {
      StaysStuck(ms[0], call, w, e, deadline);
    } else {
      SomeStaysStuck(ms[1..], call, w, e, deadline);
    }
  }

  lemma {:induction false} StuckNeverAllows(m: Module, call: Call, w: World, deadline: int)
    requires Stuck(m, call, w, deadline) && w.now <= deadline
    ensures Check(m, call, w) != ALLOW
    decreases m, 0
  {
    if m.Stack? { SomeStuckNeverAllows(m.modules, call, w, deadline, false); }
  }

  lemma {:induction false} SomeStuckNeverAllows(ms: seq<Module>, call: Call, w: World, deadline: int, escalate: bool)
    requires (SomeStuck(ms, call, w, deadline) || escalate) && w.now <= deadline
    ensures CheckAll(ms, call, w, escalate) != ALLOW
    decreases ms, 1
  {
    if ms != [] {
      if Stuck(ms[0], call, w, deadline) { StuckNeverAllows(ms[0], call, w, deadline); }
      if Check(ms[0], call, w) == DENY { return; }
      SomeStuckNeverAllows(ms[1..], call, w, deadline, escalate || Check(ms[0], call, w) == ESCALATE);
    }
  }

  /** No cap of the agent is raised to the call's value; caps may be lowered, and other agents' may move freely. */
  predicate CapsHold(events: seq<Event>, call: Call) {
    forall i :: 0 <= i < |events| ==> !FreesCap(events[i], call)
  }

  lemma {:induction false} StuckUntil(ms: seq<Module>, call: Call, w: World, events: seq<Event>, deadline: int)
    requires SomeStuck(ms, call, w, deadline) && CapsHold(events, call) && Later(w, events).now <= deadline
    ensures SomeStuck(ms, call, Later(w, events), deadline)
    decreases |events|
  {
    if events != [] {
      TimeOnlyPasses(Next(w, events[0]), events[1..]);
      SomeStaysStuck(ms, call, w, events[0], deadline);
      StuckUntil(ms, call, Next(w, events[0]), events[1..], deadline);
    }
  }

  /**
   A proof made from a faithful read holds until the margin runs out: whatever is recorded, allowed or
   done by modules nobody could read, the stack does not answer ALLOW while no cap is raised to the call.
   */
  lemma EscalationIsSound(
    infos: seq<PolicyModuleInfo>, ms: seq<Module>, call: Call, w: World, events: seq<Event>, ctx: ProofContext)
    requires DescribesAll(infos, ms, call.agent, w) && ctx.value == call.value
    requires PolicyForcesEscalation(infos, ctx)
    requires CapsHold(events, call) && Later(w, events).now <= ctx.nowSec + ctx.rateWindowMarginSec
    ensures Check(Stack(ms), call, Later(w, events)) != ALLOW
  {
    var deadline := ctx.nowSec + ctx.rateWindowMarginSec;
    SomeForcedIsStuck(infos, ms, call, w, ctx);
    StuckUntil(ms, call, w, events, deadline);
    SomeStuckNeverAllows(ms, call, Later(w, events), deadline, false);
  }

  /** The agent's cap at one module after the events: the last one written, or the one it had. */
  function CapAfter(cap: nat, events: seq<Event>, at: Address, agent: Address): nat {
    if events == [] then cap
    else
      var last := events[|events| - 1];
      if last.SetAgentCap? && last.at == at && last.agent == agent then last.cap
      else CapAfter(cap, events[..|events| - 1], at, agent)
  }

  lemma {:induction false} CapAfterEvents(w: World, events: seq<Event>, at: Address, agent: Address)
    ensures CapOf(Later(w, events), at, agent) == CapAfter(CapOf(w, at, agent), events, at, agent)
  {
    if events != [] {
      var init, last := events[..|events| - 1], events[|events| - 1];
      assert events == init + [last];
      LaterSnoc(w, init, last);
      CapAfterEvents(w, init, at, agent);
    }
  }

  /** For a lone spend cap the condition is exact: after the events the call is allowed exactly when the cap then in force covers it. */
  lemma LoneCapExactly(w: World, at: Address, call: Call, events: seq<Event>)
    ensures Check(Stack([SpendCap(at)]), call, Later(w, events)) == ALLOW <==>
              CapAfter(CapOf(w, at, call.agent), events, at, call.agent) >= call.value
  {
    var later := Later(w, events);
    CapAfterEvents(w, events, at, call.agent);
    assert CheckAll([SpendCap(at)][1..], call, later, Check(SpendCap(at), call, later) == ESCALATE) == Check(SpendCap(at), call, later);
  }

  /** One raise to the call's value undoes a proof. */
  lemma CapRaiseBreaksTheProof(w: World, at: Address, call: Call, cap: nat) returns (infos: seq<PolicyModuleInfo>, ctx: ProofContext)
    requires call.value > CapOf(w, at, call.agent)
    ensures DescribesAll(infos, [SpendCap(at)], call.agent, w) && ctx.value == call.value
    ensures PolicyForcesEscalation(infos, ctx)
    ensures Check(Stack([SpendCap(at)]), call, Next(w, SetAgentCap(at, call.agent, cap))) == ALLOW <==> cap >= call.value
  {
    var info := PolicyModuleInfo(SpendCapKind, Some(Reads(CapOf(w, at, call.agent))), None, None, None, None, []);
    infos := [info];
    ctx := ProofContext(call.value, w.now, 0);
    var events := [SetAgentCap(at, call.agent, cap)];
    assert events[1..] == [];
    LoneCapExactly(w, at, call, events);
  }

  // ---------- exactness ----------

  /** The moment the margin runs out, with nothing else having happened. */
  function AtMargin(w: World, margin: nat): World {
    Next(w, Elapse(margin))
  }

  /** A spend cap that was read, or a rate limit read in full, escalates. */
  predicate ReadLeafEscalates(info: PolicyModuleInfo, m: Module, call: Call, w: World) {
    match info.kind
    case SpendCapKind => info.cap.Some? && info.cap.value.Reads? && Check(m, call, w) == ESCALATE
    case RateLimitKind =>
      info.maxActions.Some? && info.windowSeconds.Some? && info.windowStartSec.Some? && info.actionsUsed.Some?
      && Check(m, call, w) == ESCALATE
    case _ => false
  }

  /** Somewhere in the tree that was read. */
  predicate ReadEscalates(info: PolicyModuleInfo, m: Module, call: Call, w: World) {
    ReadLeafEscalates(info, m, call, w) || (m.Stack? && SomeReadEscalates(info.modules, m.modules, call, w))
  }

  predicate SomeReadEscalates(infos: seq<PolicyModuleInfo>, ms: seq<Module>, call: Call, w: World) {
    infos != [] && ms != []
    && (ReadEscalates(infos[0], ms[0], call, w) || SomeReadEscalates(infos[1..], ms[1..], call, w))
  }

  lemma {:induction false} ForcesIffReadEscalates(info: PolicyModuleInfo, m: Module, call: Call, w: World, margin: nat)
    requires Describes(info, m, call.agent, w)
    ensures ModuleForces(info, ProofContext(call.value, w.now, margin)) <==> ReadEscalates(info, m, call, AtMargin(w, margin))
    decreases info, 0
  {
    if info.kind.StackKind? && info.modules != [] {
      SomeForcesIffReadEscalates(info.modules, m.modules, call, w, margin);
    }
  }

  lemma {:induction false} SomeForcesIffReadEscalates(infos: seq<PolicyModuleInfo>, ms: seq<Module>, call: Call, w: World, margin: nat)
    requires DescribesAll(infos, ms, call.agent, w)
    ensures PolicyForcesEscalation(infos, ProofContext(call.value, w.now, margin)) <==>
              SomeReadEscalates(infos, ms, call, AtMargin(w, margin))
    decreases infos, 1
  {
    if infos != [] {
      ForcesIffReadEscalates(infos[0], ms[0], call, w, margin);
      SomeForcesIffReadEscalates(infos[1..], ms[1..], call, w, margin);
    }
  }

  /**
   From any faithful read, however partial, and for every margin, the walk says yes exactly when some
   spend cap or rate limit that was read escalates at the moment the margin runs out.
   */
  lemma ProvenExactly(infos: seq<PolicyModuleInfo>, ms: seq<Module>, call: Call, w: World, margin: nat)
    requires DescribesAll(infos, ms, call.agent, w)
    ensures PolicyForcesEscalation(infos, ProofContext(call.value, w.now, margin)) <==>
              SomeReadEscalates(infos, ms, call, AtMargin(w, margin))
  {
    SomeForcesIffReadEscalates(infos, ms, call, w, margin);
  }

  /** Everything the walk looks at was read. */
  predicate FullyRead(info: PolicyModuleInfo, m: Module) {
    match info.kind
    case SpendCapKind => info.cap.Some? && info.cap.value.Reads?
    case RateLimitKind =>
      info.maxActions.Some? && info.windowSeconds.Some? && info.windowStartSec.Some? && info.actionsUsed.Some?
    case StackKind => m.Stack? && AllFullyRead(info.modules, m.modules)
    case UnknownKind => false
    case _ => true
  }

  predicate AllFullyRead(infos: seq<PolicyModuleInfo>, ms: seq<Module>) {
    |infos| == |ms| && (infos != [] ==> FullyRead(infos[0], ms[0]) && AllFullyRead(infos[1..], ms[1..]))
  }

  lemma {:induction false} FullReadShows(info: PolicyModuleInfo, m: Module, call: Call, w: World, later: World)
    requires Describes(info, m, call.agent, w) && FullyRead(info, m)
    ensures ReadEscalates(info, m, call, later) <==> Escalates(m, call, later)
    decreases info, 0
  {
    if info.kind.StackKind? {
      if info.modules == [] { return; }
      FullReadsShow(info.modules, m.modules, call, w, later);
    }
  }

  lemma {:induction false} FullReadsShow(infos: seq<PolicyModuleInfo>, ms: seq<Module>, call: Call, w: World, later: World)
    requires DescribesAll(infos, ms, call.agent, w) && AllFullyRead(infos, ms)
    ensures SomeReadEscalates(infos, ms, call, later) <==> exists i :: 0 <= i < |ms| && Escalates(ms[i], call, later)
    decreases infos, 1
  {
    if infos != [] {
      FullReadShows(infos[0], ms[0], call, w, later);
      FullReadsShow(infos[1..], ms[1..], call, w, later);
      assert forall i :: 1 <= i < |ms| ==> ms[i] == ms[1..][i - 1];
      if i :| 0 <= i < |ms[1..]| && Escalates(ms[1..][i], call, later) {
        assert Escalates(ms[i + 1], call, later);
      }
    }
  }

  /**
   With everything read, for every margin, the walk says yes exactly when some leaf escalates as the
   margin runs out, so it decides the stack's verdict then wherever no leaf denies.
   */
  lemma EscalationIsExact(infos: seq<PolicyModuleInfo>, ms: seq<Module>, call: Call, w: World, margin: nat)
    requires DescribesAll(infos, ms, call.agent, w) && AllFullyRead(infos, ms)
    ensures var forced := PolicyForcesEscalation(infos, ProofContext(call.value, w.now, margin));
            var later := AtMargin(w, margin);
            && (forced <==> Escalates(Stack(ms), call, later))
            && (Check(Stack(ms), call, later) == ESCALATE <==> forced && !Denies(Stack(ms), call, later))
            && (Check(Stack(ms), call, later) == ALLOW <==> !forced && !Denies(Stack(ms), call, later))
  {
    ProvenExactly(infos, ms, call, w, margin);
    FullReadsShow(infos, ms, call, w, AtMargin(w, margin));
    LeavesDecide(Stack(ms), call, AtMargin(w, margin));
  }

  /** Only spend caps and rate limits, at any depth. */
  predicate NeverDenies(m: Module) {
    match m
    case SpendCap(_) => true
    case RateLimit(_) => true
    case Stack(modules) => forall i :: 0 <= i < |modules| ==> NeverDenies(modules[i])
    case _ => false
  }

  lemma {:induction false} NoLeafDenies(m: Module, call: Call, w: World)
    requires NeverDenies(m)
    ensures !Denies(m, call, w)
  {
    if m.Stack? {
      forall i | 0 <= i < |m.modules| ensures !Denies(m.modules[i], call, w) {
        NoLeafDenies(m.modules[i], call, w);
      }
    }
  }

  /** On trees of spend caps and rate limits the walk is the stack's own verdict as the margin runs out. */
  lemma EscalationIsTheVerdict(infos: seq<PolicyModuleInfo>, ms: seq<Module>, call: Call, w: World, margin: nat)
    requires DescribesAll(infos, ms, call.agent, w) && AllFullyRead(infos, ms) && NeverDenies(Stack(ms))
    ensures PolicyForcesEscalation(infos, ProofContext(call.value, w.now, margin)) <==>
              Check(Stack(ms), call, AtMargin(w, margin)) == ESCALATE
  {
    EscalationIsExact(infos, ms, call, w, margin);
    NoLeafDenies(Stack(ms), call, AtMargin(w, margin));
  }

  /** On such trees a proof at the read holds the verdict at ESCALATE all the way to the margin, and none is made that would not. */
  lemma ProofSpansTheMargin(infos: seq<PolicyModuleInfo>, ms: seq<Module>, call: Call, w: World, margin: nat)
    requires DescribesAll(infos, ms, call.agent, w) && AllFullyRead(infos, ms) && NeverDenies(Stack(ms))
    ensures PolicyForcesEscalation(infos, ProofContext(call.value, w.now, margin)) <==>
              forall d: nat :: d <= margin ==> Check(Stack(ms), call, AtMargin(w, d)) == ESCALATE
  {
    var ctx := ProofContext(call.value, w.now, margin);
    EscalationIsTheVerdict(infos, ms, call, w, margin);
    if PolicyForcesEscalation(infos, ctx) {
      forall d: nat | d <= margin ensures Check(Stack(ms), call, AtMargin(w, d)) == ESCALATE {
        var events := [Elapse(d)];
        assert events[1..] == [] && Later(w, events) == AtMargin(w, d);
        EscalationIsSound(infos, ms, call, w, events, ctx);
        LeavesDecide(Stack(ms), call, AtMargin(w, d));
        NoLeafDenies(Stack(ms), call, AtMargin(w, d));
      }
    }
  }
}
