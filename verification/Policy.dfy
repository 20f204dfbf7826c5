/**
 The onchain policy modules an agent's calls are checked against: what each `check` answers, how a
 stack combines the answers, and what may happen to the state they read between two blocks.
 */
module Policy {

  type Address = nat

  datatype Verdict = ALLOW | ESCALATE | DENY

  datatype Call = Call(agent: Address, target: Address, value: nat, data: string)

  /** A deployed module. A foreign module is one whose code is not known. */
  datatype Module =
    | SpendCap(at: Address)
    | RateLimit(at: Address)
    | Whitelist(at: Address)
    | TimeWindow(startSecondOfDay: nat, endSecondOfDay: nat)
    | Stack(modules: seq<Module>)
    | Foreign(at: Address)

  datatype Limits = Limits(maxActions: nat, windowSeconds: nat)

  datatype Window = Window(windowStart: nat, count: nat)

  /** Block time and contract storage. Foreign modules answer whatever they answer in this state. */
  datatype World = World(
    now: nat,
    defaultCap: Address -> nat,
    agentCap: map<(Address, Address), nat>,
    limits: Address -> Limits,
    windows: map<(Address, Address), Window>,
    allowed: set<(Address, Address)>,
    foreign: (Address, Call) -> Verdict
  )

  const SECONDS_PER_DAY: nat := 86400
  const UINT32_MAX: nat := 0xFFFF_FFFF
  const UINT64_SIZE: nat := 0x1_0000_0000_0000_0000

  function CapOf(w: World, at: Address, agent: Address): nat {
    if (at, agent) in w.agentCap then w.agentCap[(at, agent)] else w.defaultCap(at)
  }

  function WindowOf(w: World, at: Address, agent: Address): Window {
    if (at, agent) in w.windows then w.windows[(at, agent)] else Window(0, 0)
  }

  predicate Lapsed(win: Window, windowSeconds: nat, now: nat) {
    win.windowStart == 0 || now >= win.windowStart + windowSeconds
  }

  function Check(m: Module, call: Call, w: World): Verdict {
    match m
    case SpendCap(at) => if call.value <= CapOf(w, at, call.agent) then ALLOW else ESCALATE
    case RateLimit(at) =>
      var win := WindowOf(w, at, call.agent);
      if Lapsed(win, w.limits(at).windowSeconds, w.now) then ALLOW
      else if win.count >= w.limits(at).maxActions then ESCALATE
      else ALLOW
    case Whitelist(at) => if (at, call.target) in w.allowed then ALLOW else DENY
    case TimeWindow(start, end) =>
      var tod := w.now % SECONDS_PER_DAY;
      if tod < start || tod >= end then DENY else ALLOW
    case Stack(modules) => CheckAll(modules, call, w, false)
    case Foreign(at) => w.foreign(at, call)
  }

  /** The loop of `PolicyStack.check`: the first DENY returns, an ESCALATE is remembered. */
  function CheckAll(modules: seq<Module>, call: Call, w: World, escalate: bool): Verdict {
    if modules == [] then if escalate then ESCALATE else ALLOW
    else
      var v := Check(modules[0], call, w);
      if v == DENY then DENY else CheckAll(modules[1..], call, w, escalate || v == ESCALATE)
  }

  // ---------- what happens between a read and a propose ----------

  datatype Event =
    | Elapse(seconds: nat)
    | Record(at: Address, agent: Address)
    | SetAgentCap(at: Address, agent: Address, cap: nat)
    | SetAllowed(at: Address, target: Address, isAllowed: bool)
    | ForeignChange(answers: (Address, Call) -> Verdict)

  /** `RateLimitPolicy.record`: a lapsed window starts over, a live one counts up or reverts at its width. */
  function Recorded(win: Window, windowSeconds: nat, now: nat): Window {
    if Lapsed(win, windowSeconds, now) then Window(now % UINT64_SIZE, 1)
    else if win.count >= UINT32_MAX then win
    else Window(win.windowStart, win.count + 1)
  }

  function Next(w: World, e: Event): World {
    match e
    case Elapse(seconds) => w.(now := w.now + seconds)
    case Record(at, agent) =>
      w.(windows := w.windows[(at, agent) := Recorded(WindowOf(w, at, agent), w.limits(at).windowSeconds, w.now)])
    case SetAgentCap(at, agent, cap) => w.(agentCap := w.agentCap[(at, agent) := cap])
    case SetAllowed(at, target, isAllowed) =>
      w.(allowed := if isAllowed then w.allowed + {(at, target)} else w.allowed - {(at, target)})
    case ForeignChange(answers) => w.(foreign := answers)
  }

  function Later(w: World, events: seq<Event>): World
    decreases |events|
  {
    if events == [] then w else Later(Next(w, events[0]), events[1..])
  }

  lemma {:induction false} TimeOnlyPasses(w: World, events: seq<Event>)
    ensures Later(w, events).now >= w.now
    decreases |events|
  {
    if events != [] { TimeOnlyPasses(Next(w, events[0]), events[1..]); }
  }

  // ---------- how a stack decides ----------

  /** Some leaf, however deep, denies. */
  predicate Denies(m: Module, call: Call, w: World) {
    match m
    case Stack(modules) => exists i :: 0 <= i < |modules| && Denies(modules[i], call, w)
    case _ => Check(m, call, w) == DENY
  }

  /** Some leaf, however deep, escalates. */
  predicate Escalates(m: Module, call: Call, w: World) {
    match m
    case Stack(modules) => exists i :: 0 <= i < |modules| && Escalates(modules[i], call, w)
    case _ => Check(m, call, w) == ESCALATE
  }

  /** A tree denies when any leaf denies, escalates when any leaf escalates and none denies, and allows otherwise. */
  lemma {:induction false} LeavesDecide(m: Module, call: Call, w: World)
    ensures Check(m, call, w) == DENY <==> Denies(m, call, w)
    ensures Check(m, call, w) == ESCALATE <==> Escalates(m, call, w) && !Denies(m, call, w)
    decreases m, 0
  {
    if m.Stack? {
      MembersDecide(m.modules, call, w, false);
    }
  }

  lemma {:induction false} MembersDecide(ms: seq<Module>, call: Call, w: World, escalate: bool)
    ensures CheckAll(ms, call, w, escalate) == DENY <==> exists i :: 0 <= i < |ms| && Denies(ms[i], call, w)
    ensures CheckAll(ms, call, w, escalate) == ESCALATE <==>
              (escalate || exists i :: 0 <= i < |ms| && Escalates(ms[i], call, w))
              && !exists i :: 0 <= i < |ms| && Denies(ms[i], call, w)
    decreases ms, 1
  {
    if ms != [] {
      LeavesDecide(ms[0], call, w);
      MembersDecide(ms[1..], call, w, escalate || Check(ms[0], call, w) == ESCALATE);
      assert ms == [ms[0]] + ms[1..];
      assert forall i :: 1 <= i < |ms| ==> ms[i] == ms[1..][i - 1];
      assert (exists i :: 0 <= i < |ms| && Denies(ms[i], call, w)) <==>
               Denies(ms[0], call, w) || exists i :: 0 <= i < |ms[1..]| && Denies(ms[1..][i], call, w);
      assert (exists i :: 0 <= i < |ms| && Escalates(ms[i], call, w)) <==>
               Escalates(ms[0], call, w) || exists i :: 0 <= i < |ms[1..]| && Escalates(ms[1..][i], call, w);
    }
  }

  /** A target off a whitelist, or a time outside a window, denies the whole stack, whatever else is in it. */
  lemma OneDenialDecides(ms: seq<Module>, i: nat, call: Call, w: World)
    requires i < |ms|
    requires match ms[i]
             case Whitelist(at) => (at, call.target) !in w.allowed
             case TimeWindow(start, end) => w.now % 86400 < start || w.now % 86400 >= end
             case _ => false
    ensures Check(Stack(ms), call, w) == DENY
  {
    assert Denies(ms[i], call, w);
    LeavesDecide(Stack(ms), call, w);
  }

  // ---------- a rate limit being used up ----------

  function Records(at: Address, agent: Address, k: nat): seq<Event> {
    if k == 0 then [] else Records(at, agent, k - 1) + [Record(at, agent)]
  }

  lemma {:induction false} LaterSnoc(w: World, events: seq<Event>, last: Event)
    ensures Later(w, events + [last]) == Next(Later(w, events), last)
    decreases |events|
  {
    if events == [] {
      assert events + [last] == [last] && [last][1..] == [];
    } else {
      assert (events + [last])[1..] == events[1..] + [last];
      LaterSnoc(Next(w, events[0]), events[1..], last);
    }
  }

  /** The first action of a lapsed window opens a new one now, and each further action adds one, while time stands still. */
  lemma {:induction false} RecordsCount(w: World, at: Address, agent: Address, k: nat)
    requires 1 <= k <= UINT32_MAX && 0 < w.now < UINT64_SIZE && w.limits(at).windowSeconds > 0
    requires Lapsed(WindowOf(w, at, agent), w.limits(at).windowSeconds, w.now)
    ensures var later := Later(w, Records(at, agent, k));
            && WindowOf(later, at, agent) == Window(w.now, k)
            && later == w.(windows := later.windows)
  {
    LaterSnoc(w, Records(at, agent, k - 1), Record(at, agent));
    if k > 1 {
      RecordsCount(w, at, agent, k - 1);
    } else {
      assert Later(w, []) == w;
    }
  }

  /** In a fresh window a rate limit allows until its allowance is spent, and escalates from then on until the window lapses. */
  lemma AllowanceIsSpent(w: World, at: Address, call: Call, k: nat, wait: nat)
    requires 1 <= k <= 4_294_967_295 && 0 < w.now < UINT64_SIZE && w.limits(at).windowSeconds > 0
    requires Lapsed(WindowOf(w, at, call.agent), w.limits(at).windowSeconds, w.now)
    ensures var later := Next(Later(w, Records(at, call.agent, k)), Elapse(wait));
            Check(RateLimit(at), call, later) ==
              if wait < w.limits(at).windowSeconds && k >= w.limits(at).maxActions then ESCALATE else ALLOW
  {
    RecordsCount(w, at, call.agent, k);
  }
}
