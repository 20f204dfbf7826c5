/**
 Session scopes and key narrowing (`packages/core/src/types.ts`), against the router that reads them
 (`contracts/src/EscalationRouter.sol`): dropping settlement from a key is invisible when the call is
 proven to escalate.
 */
module SessionScopes {
  import opened Maybe
  import opened Policy
  import Escalation

  datatype SessionScope = ProposeIntent | SpendWhitelist

  const SESSION_SCOPES: seq<SessionScope> := [ProposeIntent, SpendWhitelist]

  function ScopeName(s: SessionScope): string {
    match s case ProposeIntent => "propose:intent" case SpendWhitelist => "spend:whitelist"
  }

  function ScopeNamed(name: string): (scope: Option<SessionScope>)
    ensures scope.Some? ==> ScopeName(scope.value) == name
    ensures scope.None? ==> forall s :: ScopeName(s) != name
  {
    if name == "propose:intent" then Some(ProposeIntent)
    else if name == "spend:whitelist" then Some(SpendWhitelist)
    else None
  }

  /** A scope mask: bit 0 is proposing, bit 1 is settling. */
  type Mask = nat

  function ScopeBit(s: SessionScope): Mask {
    match s case ProposeIntent => 1 case SpendWhitelist => 2
  }

  /** `mask & bit != 0` for a single bit. */
  predicate Has(mask: Mask, s: SessionScope) {
    mask / ScopeBit(s) % 2 == 1
  }

  /** `mask | bit` for a single bit. */
  function WithBit(mask: Mask, s: SessionScope): Mask {
    if Has(mask, s) then mask else mask + ScopeBit(s)
  }

  function MaskOf(scopes: seq<SessionScope>): Mask {
    if scopes == [] then 0 else WithBit(MaskOf(scopes[..|scopes| - 1]), scopes[|scopes| - 1])
  }

  function Named(names: seq<string>): seq<SessionScope>
    requires forall i :: 0 <= i < |names| ==> ScopeNamed(names[i]).Some?
  {
    seq(|names|, i requires 0 <= i < |names| => ScopeNamed(names[i]).value)
  }

  function SessionScopesFromMask(mask: Mask): seq<SessionScope> {
    (if Has(mask, ProposeIntent) then [ProposeIntent] else []) + (if Has(mask, SpendWhitelist) then [SpendWhitelist] else [])
  }

  lemma SetBit(mask: Mask, s: SessionScope, t: SessionScope)
    ensures Has(WithBit(mask, s), t) <==> Has(mask, t) || s == t
  {
    var q, r := mask / 4, mask % 4;
    assert mask == 4 * q + r;
    LowBits(q, r);
    if !Has(mask, s) { LowBits(q, r + ScopeBit(s)); }
  }

  lemma LowBits(q: nat, r: nat)
    requires r < 4
    ensures Has(4 * q + r, ProposeIntent) <==> r == 1 || r == 3
    ensures Has(4 * q + r, SpendWhitelist) <==> r >= 2
  {
  }

  lemma NoBits(s: SessionScope)
    ensures !Has(0, s)
  {
  }

  /** A scope's bit is set exactly when the scope was listed. */
  lemma {:induction false} MaskHolds(scopes: seq<SessionScope>, s: SessionScope)
    ensures Has(MaskOf(scopes), s) <==> s in scopes
  {
    if scopes == [] {
      NoBits(s);
    } else {
      var init, last := scopes[..|scopes| - 1], scopes[|scopes| - 1];
      MaskHolds(init, s);
      SetBit(MaskOf(init), last, s);
      assert scopes == init + [last];
    }
  }

  lemma TwoLowBits(x: Mask, y: Mask)
    requires x < 4 && forall s :: Has(x, s) == Has(y, s)
    ensures x == y % 4
  {
    assert Has(x, ProposeIntent) == Has(y, ProposeIntent) && Has(x, SpendWhitelist) == Has(y, SpendWhitelist);
    assert y == 4 * (y / 4) + y % 4;
    LowBits(y / 4, y % 4);
    LowBits(0, x);
  }

  lemma {:induction false} OnlyKnownBits(scopes: seq<SessionScope>)
    ensures MaskOf(scopes) < 4
  {
    if scopes != [] { OnlyKnownBits(scopes[..|scopes| - 1]); }
  }

  /** The mask of a list of known names has bit 0 exactly when proposing is listed, bit 1 exactly when settling is, and no other. */
  lemma NamesHeld(names: seq<string>)
    requires forall i :: 0 <= i < |names| ==> ScopeNamed(names[i]).Some?
    ensures MaskOf(Named(names)) < 4
    ensures Has(MaskOf(Named(names)), ProposeIntent) <==> "propose:intent" in names
    ensures Has(MaskOf(Named(names)), SpendWhitelist) <==> "spend:whitelist" in names
  {
    OnlyKnownBits(Named(names));
    MaskHolds(Named(names), ProposeIntent);
    MaskHolds(Named(names), SpendWhitelist);
    NamedHolds(names, ProposeIntent);
    NamedHolds(names, SpendWhitelist);
  }

  lemma NamedHolds(names: seq<string>, s: SessionScope)
    requires forall i :: 0 <= i < |names| ==> ScopeNamed(names[i]).Some?
    ensures s in Named(names) <==> (match s case ProposeIntent => "propose:intent" case SpendWhitelist => "spend:whitelist") in names
  {
    var name := match s case ProposeIntent => "propose:intent" case SpendWhitelist => "spend:whitelist";
    if s in Named(names) {
      var i :| 0 <= i < |names| && Named(names)[i] == s;
      assert names[i] == name;
    }
    if name in names {
      var i :| 0 <= i < |names| && names[i] == name;
      assert Named(names)[i] == s;
    }
  }

  /** Either every name is known and the mask is theirs, or the first unknown name is refused. */
  method SessionScopeMask(names: seq<string>) returns (r: Result<Mask, string>)
    ensures r.Ok? ==> (forall i :: 0 <= i < |names| ==> ScopeNamed(names[i]).Some?) && r.value == MaskOf(Named(names))
    ensures r.Err? ==> exists i :: 0 <= i < |names| && r.error == names[i] && ScopeNamed(names[i]).None?
                                   && forall j :: 0 <= j < i ==> ScopeNamed(names[j]).Some?
  {
    var mask: Mask := 0;
    for i := 0 to |names|
      invariant forall j :: 0 <= j < i ==> ScopeNamed(names[j]).Some?
      invariant mask == MaskOf(Named(names[..i]))
    {
      var scope := ScopeNamed(names[i]);
      if scope.None? { return Err(names[i]); }
      assert Named(names[..i + 1])[..i] == Named(names[..i]);
      mask := WithBit(mask, scope.value);
    }
    assert names[..|names|] == names;
    r := Ok(mask);
  }

  /** The known bits are the two lowest. */
  lemma KnownBits(mask: Mask)
    ensures MaskOf(SessionScopesFromMask(mask)) == mask % 4
  {
    var scopes := SessionScopesFromMask(mask);
    OnlyKnownBits(scopes);
    MaskHolds(scopes, ProposeIntent);
    MaskHolds(scopes, SpendWhitelist);
    forall s ensures Has(MaskOf(scopes), s) == Has(mask, s) {
      match s case ProposeIntent => case SpendWhitelist =>
    }
    TwoLowBits(MaskOf(scopes), mask);
  }

  /** Encoding then decoding lists exactly the scopes that were encoded, each once and in canonical order. */
  lemma MaskRoundTrip(scopes: seq<SessionScope>)
    ensures SessionScopesFromMask(MaskOf(scopes)) ==
              (if ProposeIntent in scopes then [ProposeIntent] else []) + (if SpendWhitelist in scopes then [SpendWhitelist] else [])
  {
    MaskHolds(scopes, ProposeIntent);
    MaskHolds(scopes, SpendWhitelist);
  }

  // ---------- narrowing ----------

  function WithoutSpend(scopes: seq<SessionScope>): seq<SessionScope> {
    if scopes == [] then []
    else if scopes[0] == SpendWhitelist then WithoutSpend(scopes[1..])
    else [scopes[0]] + WithoutSpend(scopes[1..])
  }

  function NarrowScopesForEscalation(standing: seq<SessionScope>, forcesEscalation: bool): seq<SessionScope> {
    if !forcesEscalation then standing
    else
      var narrowed := WithoutSpend(standing);
      if |narrowed| > 0 then narrowed else standing
  }

  lemma {:induction false} WithoutSpendKeeps(scopes: seq<SessionScope>)
    ensures forall s :: s in WithoutSpend(scopes) <==> s in scopes && s != SpendWhitelist
  {
    if scopes != [] {
      WithoutSpendKeeps(scopes[1..]);
      assert scopes == [scopes[0]] + scopes[1..];
    }
  }

  /** Narrowing never widens, never empties, and drops settlement exactly when something is left. */
  lemma NarrowingIsSubset(standing: seq<SessionScope>, forced: bool)
    ensures var narrowed := NarrowScopesForEscalation(standing, forced);
            && (forall s :: s in narrowed ==> s in standing)
            && (standing != [] ==> narrowed != [])
            && (SpendWhitelist in narrowed <==> SpendWhitelist in standing && !(forced && ProposeIntent in standing))
            && (ProposeIntent in narrowed <==> ProposeIntent in standing)
  {
    WithoutSpendKeeps(standing);
    if WithoutSpend(standing) != [] {
      assert WithoutSpend(standing)[0] in WithoutSpend(standing);
    }
  }

  lemma {:induction false} WithoutSpendCounts(scopes: seq<SessionScope>)
    ensures |WithoutSpend(scopes)| == multiset(scopes)[ProposeIntent]
  {
    if scopes != [] {
      WithoutSpendCounts(scopes[1..]);
      assert scopes == [scopes[0]] + scopes[1..];
    }
  }

  /** The narrowed list, in full: every proposing entry of a proven list that has one, and any other list as it stands. */
  lemma NarrowedExactly(standing: seq<SessionScope>, forced: bool)
    ensures var narrowed := NarrowScopesForEscalation(standing, forced);
            if forced && ProposeIntent in standing
            then |narrowed| == multiset(standing)[ProposeIntent] && forall i :: 0 <= i < |narrowed| ==> narrowed[i] == ProposeIntent
            else narrowed == standing
  {
    WithoutSpendKeeps(standing);
    WithoutSpendCounts(standing);
    forall i | 0 <= i < |WithoutSpend(standing)| ensures WithoutSpend(standing)[i] == ProposeIntent {
      assert WithoutSpend(standing)[i] in WithoutSpend(standing);
    }
  }

  // ---------- the router ----------

  /** `SessionRegistry` issues a key only for a non-empty mask of known bits (`mask & ~ALL == 0`). */
  predicate Issuable(mask: Mask) {
    0 < mask < 4
  }

  datatype Revert =
    | InactiveAgent
    | ProtectedTarget
    | InvalidSession
    | SessionScopeDenied(required: SessionScope, granted: Mask)
    | SessionValueExceeded
    | SessionTargetDenied
    | SessionTimeWindowDenied
    | RateLimitExceeded
    | UnexpectedVerdict
    | NoApprover

  datatype Proposed = Reverted(why: Revert) | Settled | IntentCreated

  /** Everything `propose` consults besides the mask and the verdict. */
  datatype Gate = Gate(
    agentActive: bool,
    targetProtected: bool,
    registryWired: bool,
    senderIsAgent: bool,
    keyValid: bool,
    maxValue: nat,
    targetAllowed: bool,
    inTimeWindow: bool,
    withinRate: bool,
    hasParent: bool
  )

  /** `type(uint256).max` */
  const ALL_BITS: Mask := 0xFFFF_FFFF_FFFF_FFFF_FFFF_FFFF_FFFF_FFFF_FFFF_FFFF_FFFF_FFFF_FFFF_FFFF_FFFF_FFFF

  /** `_requireValidSession`: the mask the call is made under, or why the key is refused. */
  function ValidSession(g: Gate, call: Call, mask: Mask): Result<Mask, Revert> {
    if !g.registryWired || g.senderIsAgent then Ok(ALL_BITS)
    else if !g.keyValid then Err(InvalidSession)
    else if !Has(mask, ProposeIntent) then Err(SessionScopeDenied(ProposeIntent, mask))
    else if call.value > g.maxValue then Err(SessionValueExceeded)
    else if !g.targetAllowed then Err(SessionTargetDenied)
    else if !g.inTimeWindow then Err(SessionTimeWindowDenied)
    else Ok(mask)
  }

  /** `EscalationRouter.propose`. */
  function Propose(g: Gate, call: Call, mask: Mask, verdict: Verdict): Proposed {
    if !g.agentActive then Reverted(InactiveAgent)
    else if g.targetProtected then Reverted(ProtectedTarget)
    else
      match ValidSession(g, call, mask)
      case Err(why) => Reverted(why)
      case Ok(granted) =>
        if g.registryWired && !g.withinRate then Reverted(RateLimitExceeded)
        else
          match verdict
          case DENY => Reverted(UnexpectedVerdict)
          case ALLOW =>
            if g.registryWired && !Has(granted, SpendWhitelist) then Reverted(SessionScopeDenied(SpendWhitelist, granted))
            else Settled
          case ESCALATE => if !g.hasParent then Reverted(NoApprover) else IntentCreated
  }

  /** The key, or the agent itself, may propose this call now. */
  predicate Admitted(g: Gate, call: Call, mask: Mask) {
    && g.agentActive && !g.targetProtected
    && (g.registryWired && !g.senderIsAgent ==>
          g.keyValid && Has(mask, ProposeIntent) && call.value <= g.maxValue && g.targetAllowed && g.inTimeWindow)
    && (g.registryWired ==> g.withinRate)
  }

  /**
   An admitted call becomes an intent exactly on ESCALATE with someone to approve it, and settles exactly on
   ALLOW unless the key lacks settlement.
   */
  lemma ProposeOutcomes(g: Gate, call: Call, mask: Mask, verdict: Verdict)
    ensures Propose(g, call, mask, verdict) == IntentCreated <==> Admitted(g, call, mask) && verdict == ESCALATE && g.hasParent
    ensures Propose(g, call, mask, verdict) == Settled <==>
              Admitted(g, call, mask) && verdict == ALLOW && (g.registryWired && !g.senderIsAgent ==> Has(mask, SpendWhitelist))
  {
  }

  lemma SameMaskUnlessDropped(standing: seq<SessionScope>, forced: bool)
    ensures var narrowed := NarrowScopesForEscalation(standing, forced);
            narrowed == standing || (Has(MaskOf(narrowed), ProposeIntent) && Has(MaskOf(standing), ProposeIntent))
  {
    var narrowed := NarrowScopesForEscalation(standing, forced);
    MaskHolds(standing, ProposeIntent);
    MaskHolds(narrowed, ProposeIntent);
    WithoutSpendKeeps(standing);
    if narrowed != standing { assert narrowed[0] in narrowed; }
  }

  /**
   When the escalation is proven from a faithful read, a propose under the narrowed key comes out as it
   would under the standing key, revert data included, at every moment of the margin.
   */
  lemma NarrowingIsUnobservable(
    standing: seq<SessionScope>, infos: seq<Escalation.PolicyModuleInfo>, ms: seq<Module>, call: Call, w: World, events: seq<Event>,
    ctx: Escalation.ProofContext, g: Gate)
    requires Escalation.DescribesAll(infos, ms, call.agent, w) && ctx.value == call.value
    requires Escalation.CapsHold(events, call) && Later(w, events).now <= ctx.nowSec + ctx.rateWindowMarginSec
    ensures var narrowed := NarrowScopesForEscalation(standing, Escalation.PolicyForcesEscalation(infos, ctx));
            var verdict := Check(Stack(ms), call, Later(w, events));
            Propose(g, call, MaskOf(narrowed), verdict) == Propose(g, call, MaskOf(standing), verdict)
  {
    if Escalation.PolicyForcesEscalation(infos, ctx) {
      Escalation.EscalationIsSound(infos, ms, call, w, events, ctx);
      SameMaskUnlessDropped(standing, true);
    }
  }

  /** A narrowed key can be issued exactly when the standing one can. */
  lemma NarrowedIsIssuable(standing: seq<SessionScope>, forced: bool)
    ensures Issuable(MaskOf(NarrowScopesForEscalation(standing, forced))) <==> Issuable(MaskOf(standing))
  {
    NarrowingIsSubset(standing, forced);
    IssuableIfAny(standing);
    IssuableIfAny(NarrowScopesForEscalation(standing, forced));
  }

  lemma IssuableIfAny(scopes: seq<SessionScope>)
    ensures Issuable(MaskOf(scopes)) <==> scopes != []
  {
  }

  /** The proof is needed: on an ALLOW the narrowed key is refused where the standing key settles. */
  lemma NarrowingShowsOnAllow(g: Gate, call: Call)
    requires g == Gate(true, false, true, false, true, g.maxValue, true, true, true, g.hasParent) && call.value <= g.maxValue
    ensures Propose(g, call, MaskOf(SESSION_SCOPES), ALLOW) == Settled
    ensures Propose(g, call, MaskOf(NarrowScopesForEscalation(SESSION_SCOPES, true)), ALLOW)
              == Reverted(SessionScopeDenied(SpendWhitelist, ScopeBit(ProposeIntent)))
  {
    var narrowed := NarrowScopesForEscalation(SESSION_SCOPES, true);
    assert SESSION_SCOPES[1..] == [SpendWhitelist] && [SpendWhitelist][1..] == [];
    assert narrowed == [ProposeIntent];
    assert MaskOf(narrowed) == ScopeBit(ProposeIntent) by { assert narrowed[..0] == []; }
    MaskHolds(SESSION_SCOPES, ProposeIntent);
    MaskHolds(SESSION_SCOPES, SpendWhitelist);
    MaskHolds(narrowed, ProposeIntent);
    MaskHolds(narrowed, SpendWhitelist);
  }
}
