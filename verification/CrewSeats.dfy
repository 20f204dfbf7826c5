/**
 Which account each blueprint seat landed on (`packages/flows/src/crewSeats.ts`): a stored role id
 first, a unique label second, and no account twice.
 */
module CrewSeats {
  import opened Maybe
  import opened Text

  datatype CrewSeatNode = CrewSeatNode(
    account: Option<string>,
    caption: Option<string>,
    kind: Option<string>,
    roleId: Option<string>
  )

  datatype CrewRole = CrewRole(id: string, caption: string)

  datatype BoundBy = ByRoleId | ByLabel

  datatype CrewSeatBinding = CrewSeatBinding(role: string, account: string, boundBy: BoundBy)

  datatype CrewSeatResolution = CrewSeatResolution(
    roles: map<string, string>,
    bindings: seq<CrewSeatBinding>,
    missing: seq<string>,
    ambiguous: seq<string>,
    renamed: seq<CrewSeatBinding>
  )

  /** How accounts and labels are compared: trimmed and lower-cased. */
  function Key(s: string): string {
    Lower(Trim(s))
  }

  predicate OccursAt(s: string, part: string, i: nat) {
    i + |part| <= |s| && s[i..i + |part|] == part
  }

  predicate Contains(s: string, part: string) {
    exists i: nat :: i <= |s| && OccursAt(s, part, i)
  }

  predicate IsHuman(n: CrewSeatNode) {
    Contains(Lower(OrEmpty(n.kind)), "human")
  }

  /** The node carries an account at all. */
  predicate Present(n: CrewSeatNode) {
    n.account.Some? && n.account.value != ""
  }

  function AccountKey(n: CrewSeatNode): string
    requires Present(n)
  {
    Key(n.account.value)
  }

  /** `nodes.find(...)` for the workspace's human seat. */
  function RootOf(nodes: seq<CrewSeatNode>): Option<string> {
    if nodes == [] then None
    else if IsHuman(nodes[0]) && Present(nodes[0]) then nodes[0].account
    else RootOf(nodes[1..])
  }

  predicate Carries(n: CrewSeatNode, id: string) {
    Present(n) && n.roleId.Some? && Trim(n.roleId.value) != "" && Trim(n.roleId.value) == id
  }

  /** The first node that stores this role id. */
  function StoredFor(nodes: seq<CrewSeatNode>, id: string): (n: Option<CrewSeatNode>)
    ensures n.Some? ==> n.value in nodes && Carries(n.value, id)
    ensures n.None? ==> forall m :: m in nodes ==> !Carries(m, id)
  {
    if nodes == [] then None
    else if Carries(nodes[0], id) then Some(nodes[0])
    else StoredFor(nodes[1..], id)
  }

  predicate Matches(n: CrewSeatNode, taken: set<string>, caption: string) {
    Present(n) && AccountKey(n) !in taken && Key(OrEmpty(n.caption)) == Key(caption)
  }

  function Matching(nodes: seq<CrewSeatNode>, taken: set<string>, caption: string): (r: seq<CrewSeatNode>)
    ensures forall n :: n in r <==> n in nodes && Matches(n, taken, caption)
  {
    if nodes == [] then []
    else (if Matches(nodes[0], taken, caption) then [nodes[0]] else []) + Matching(nodes[1..], taken, caption)
  }

  // ---------- one role at a time ----------

  datatype Progress = Progress(
    roles: map<string, string>,
    bindings: seq<CrewSeatBinding>,
    ambiguous: seq<string>,
    renamed: seq<CrewSeatBinding>,
    taken: set<string>
  )

  function Begin(nodes: seq<CrewSeatNode>): Progress {
    match RootOf(nodes)
    case None => Progress(map[], [], [], [], {})
    case Some(root) => Progress(map["root" := root], [], [], [], {Key(root)})
  }

  /** The stored node answers: it exists and its account is unclaimed. */
  predicate StoredAnswers(p: Progress, role: CrewRole, nodes: seq<CrewSeatNode>) {
    var stored := StoredFor(nodes, role.id);
    stored.Some? && AccountKey(stored.value) !in p.taken
  }

  function Bind(p: Progress, role: CrewRole, n: CrewSeatNode, how: BoundBy): Progress
    requires Present(n)
  {
    var binding := CrewSeatBinding(role.id, n.account.value, how);
    p.(roles := p.roles[role.id := n.account.value],
       bindings := p.bindings + [binding],
       renamed := if how.ByRoleId? && Key(OrEmpty(n.caption)) != Key(role.caption) then p.renamed + [binding] else p.renamed,
       taken := p.taken + {AccountKey(n)})
  }

  function Seat(p: Progress, role: CrewRole, nodes: seq<CrewSeatNode>): Progress {
    if StoredAnswers(p, role, nodes) then Bind(p, role, StoredFor(nodes, role.id).value, ByRoleId)
    else
      var matches := Matching(nodes, p.taken, role.caption);
      if |matches| > 1 then p.(ambiguous := p.ambiguous + [role.id])
      else if |matches| == 1 then
        assert matches[0] in matches;
        Bind(p, role, matches[0], ByLabel)
      else p
  }

  function SeatAll(roles: seq<CrewRole>, nodes: seq<CrewSeatNode>): Progress {
    if roles == [] then Begin(nodes) else Seat(SeatAll(roles[..|roles| - 1], nodes), roles[|roles| - 1], nodes)
  }

  function Unbound(roles: seq<CrewRole>, bound: map<string, string>): (ids: seq<string>)
    ensures forall id :: id in ids <==> id !in bound && exists i :: 0 <= i < |roles| && roles[i].id == id
    ensures (forall i :: 0 <= i < |roles| ==> roles[i].id in bound) ==> ids == []
  {
    if roles == [] then []
    else
      var rest := Unbound(roles[..|roles| - 1], bound);
      if roles[|roles| - 1].id in bound then rest else rest + [roles[|roles| - 1].id]
  }

  function Resolved(roles: seq<CrewRole>, nodes: seq<CrewSeatNode>): CrewSeatResolution {
    var p := SeatAll(roles, nodes);
    CrewSeatResolution(p.roles, p.bindings, Sort(Unbound(roles, p.roles)), Sort(p.ambiguous), p.renamed)
  }

  method ResolveCrewSeats(bpRoles: seq<CrewRole>, nodes: seq<CrewSeatNode>) returns (r: CrewSeatResolution)
    ensures r == Resolved(bpRoles, nodes)
  {
    var roles: map<string, string> := map[];
    var bindings: seq<CrewSeatBinding> := [];
    var ambiguous: seq<string> := [];
    var renamed: seq<CrewSeatBinding> := [];
    var taken: set<string> := {};

    var root := RootOf(nodes);
    if root.Some? {
      roles := roles["root" := root.value];
      taken := {Key(root.value)};
    }
    var byRole := IndexByRole(nodes);

    for i := 0 to |bpRoles|
      invariant Progress(roles, bindings, ambiguous, renamed, taken) == SeatAll(bpRoles[..i], nodes)
    {
      var role := bpRoles[i];
      assert bpRoles[..i + 1][..i] == bpRoles[..i];
      if role.id in byRole && AccountKey(byRole[role.id]) !in taken {
        var stored := byRole[role.id];
        var binding := CrewSeatBinding(role.id, stored.account.value, ByRoleId);
        roles := roles[role.id := stored.account.value];
        bindings := bindings + [binding];
        taken := taken + {AccountKey(stored)};
        if Key(OrEmpty(stored.caption)) != Key(role.caption) { renamed := renamed + [binding]; }
        continue;
      }
      var matches := Matching(nodes, taken, role.caption);
      if |matches| > 1 {
        ambiguous := ambiguous + [role.id];
        continue;
      }
      if |matches| == 1 {
        var hit := matches[0];
        assert hit in matches;
        roles := roles[role.id := hit.account.value];
        bindings := bindings + [CrewSeatBinding(role.id, hit.account.value, ByLabel)];
        taken := taken + {AccountKey(hit)};
      }
    }
    assert bpRoles[..|bpRoles|] == bpRoles;
    var missing := Unbound(bpRoles, roles);
    r := CrewSeatResolution(roles, bindings, Sort(missing), Sort(ambiguous), renamed);
  }

  /** The `byRole` map: the first node carrying each id. */
  method IndexByRole(nodes: seq<CrewSeatNode>) returns (byRole: map<string, CrewSeatNode>)
    ensures forall id :: id in byRole <==> StoredFor(nodes, id).Some?
    ensures forall id :: id in byRole ==> StoredFor(nodes, id) == Some(byRole[id])
  {
    byRole := map[];
    for i := 0 to |nodes|
      invariant forall id :: id in byRole <==> StoredFor(nodes[..i], id).Some?
      invariant forall id :: id in byRole ==> StoredFor(nodes[..i], id) == Some(byRole[id])
    {
      var node := nodes[i];
      forall id ensures StoredFor(nodes[..i + 1], id) ==
          if StoredFor(nodes[..i], id).Some? then StoredFor(nodes[..i], id) else if Carries(node, id) then Some(node) else None
      {
        StoredForSnoc(nodes[..i], node, id);
        assert nodes[..i + 1] == nodes[..i] + [node];
      }
      if node.roleId.Some? && Trim(node.roleId.value) != "" && Present(node) && Trim(node.roleId.value) !in byRole {
        byRole := byRole[Trim(node.roleId.value) := node];
      }
    }
    assert nodes[..|nodes|] == nodes;
  }

  lemma {:induction false} StoredForSnoc(nodes: seq<CrewSeatNode>, last: CrewSeatNode, id: string)
    ensures StoredFor(nodes + [last], id) ==
              if StoredFor(nodes, id).Some? then StoredFor(nodes, id) else if Carries(last, id) then Some(last) else None
  {
    if nodes == [] {
      assert nodes + [last] == [last] && [last][1..] == [];
    } else {
      assert (nodes + [last])[1..] == nodes[1..] + [last];
      StoredForSnoc(nodes[1..], last, id);
    }
  }

  function SeatRoleMap(r: CrewSeatResolution): map<string, string> {
    RoleMap(r.bindings)
  }

  function RoleMap(bindings: seq<CrewSeatBinding>): map<string, string> {
    if bindings == [] then map[]
    else RoleMap(bindings[..|bindings| - 1])[bindings[|bindings| - 1].role := bindings[|bindings| - 1].account]
  }

  // ---------- no account answers twice ----------

  ghost predicate Claims(p: Progress) {
    && (forall id :: id in p.roles ==> Key(p.roles[id]) in p.taken)
    && (forall a, b :: a in p.roles && b in p.roles && a != b ==> Key(p.roles[a]) != Key(p.roles[b]))
  }

  lemma {:induction false} SeatingClaims(roles: seq<CrewRole>, nodes: seq<CrewSeatNode>)
    ensures Claims(SeatAll(roles, nodes))
  {
    if roles != [] {
      SeatingClaims(roles[..|roles| - 1], nodes);
      SeatClaims(SeatAll(roles[..|roles| - 1], nodes), roles[|roles| - 1], nodes);
    }
  }

  lemma BindClaims(p: Progress, role: CrewRole, n: CrewSeatNode, how: BoundBy)
    requires Claims(p) && Present(n) && AccountKey(n) !in p.taken
    ensures Claims(Bind(p, role, n, how))
  {
    var q := Bind(p, role, n, how);
    assert Key(q.roles[role.id]) == AccountKey(n);
    forall a, b | a in q.roles && b in q.roles && a != b ensures Key(q.roles[a]) != Key(q.roles[b]) {
      assert a != role.id ==> a in p.roles && q.roles[a] == p.roles[a];
      assert b != role.id ==> b in p.roles && q.roles[b] == p.roles[b];
    }
  }

  lemma SeatClaims(p: Progress, role: CrewRole, nodes: seq<CrewSeatNode>)
    requires Claims(p)
    ensures Claims(Seat(p, role, nodes))
  {
    var matches := Matching(nodes, p.taken, role.caption);
    if StoredAnswers(p, role, nodes) {
      BindClaims(p, role, StoredFor(nodes, role.id).value, ByRoleId);
    } else if |matches| == 1 {
      assert matches[0] in matches;
      BindClaims(p, role, matches[0], ByLabel);
    }
  }

  /** No account, however it is spelled, answers for two roles or for a role and the root. */
  lemma NoAccountTwice(roles: seq<CrewRole>, nodes: seq<CrewSeatNode>)
    ensures var bound := Resolved(roles, nodes).roles;
            forall a, b :: a in bound && b in bound && a != b ==> Lower(Trim(bound[a])) != Lower(Trim(bound[b]))
  {
    SeatingClaims(roles, nodes);
  }

  // ---------- every role is bound or missing ----------

  predicate DistinctIds(roles: seq<CrewRole>) {
    && (forall i :: 0 <= i < |roles| ==> roles[i].id != "root")
    && (forall i, j :: 0 <= i < j < |roles| ==> roles[i].id != roles[j].id)
  }

  ghost predicate BoundAs(p: Progress, id: string, account: string) {
    exists k :: 0 <= k < |p.bindings| && p.bindings[k].role == id && p.bindings[k].account == account
  }

  ghost predicate Names(roles: seq<CrewRole>, id: string) {
    exists i :: 0 <= i < |roles| && roles[i].id == id
  }

  lemma NamesSnoc(roles: seq<CrewRole>, role: CrewRole)
    requires DistinctIds(roles + [role])
    ensures DistinctIds(roles) && role.id != "root" && !Names(roles, role.id)
    ensures forall id :: Names(roles + [role], id) <==> Names(roles, id) || id == role.id
  {
    var all := roles + [role];
    assert all[|roles|] == role;
    assert forall i :: 0 <= i < |roles| ==> all[i] == roles[i];
    forall id ensures Names(all, id) <==> Names(roles, id) || id == role.id {
      if Names(roles, id) {
        var i :| 0 <= i < |roles| && roles[i].id == id;
        assert all[i].id == id;
      }
    }
  }

  /** The map and the list say the same, and an ambiguous role is in neither. */
  ghost predicate Ledgered(p: Progress, roles: seq<CrewRole>) {
    && (forall k :: 0 <= k < |p.bindings| ==>
          Names(roles, p.bindings[k].role) && p.bindings[k].role in p.roles && p.roles[p.bindings[k].role] == p.bindings[k].account)
    && (forall id :: id in p.roles && id != "root" ==> BoundAs(p, id, p.roles[id]))
    && (forall k :: 0 <= k < |p.ambiguous| ==> Names(roles, p.ambiguous[k]) && p.ambiguous[k] !in p.roles)
    && (forall k, l :: 0 <= k < l < |p.bindings| ==> p.bindings[k].role != p.bindings[l].role)
  }

  lemma BindLists(p: Progress, role: CrewRole, n: CrewSeatNode, how: BoundBy, id: string)
    requires Present(n) && id in Bind(p, role, n, how).roles && (id == role.id || BoundAs(p, id, p.roles[id]))
    ensures var q := Bind(p, role, n, how); BoundAs(q, id, q.roles[id])
  {
    var q := Bind(p, role, n, how);
    if id == role.id {
      assert q.bindings[|p.bindings|].role == id;
    } else {
      var k :| 0 <= k < |p.bindings| && p.bindings[k].role == id && p.bindings[k].account == p.roles[id];
      assert q.bindings[k] == p.bindings[k];
    }
  }

  lemma BindLedgers(p: Progress, roles: seq<CrewRole>, role: CrewRole, n: CrewSeatNode, how: BoundBy)
    requires Ledgered(p, roles) && DistinctIds(roles + [role]) && Present(n)
    ensures Ledgered(Bind(p, role, n, how), roles + [role])
  {
    NamesSnoc(roles, role);
    var q := Bind(p, role, n, how);
    forall id | id in q.roles && id != "root" ensures BoundAs(q, id, q.roles[id]) {
      assert id != role.id ==> id in p.roles;
      BindLists(p, role, n, how, id);
    }
  }

  lemma PassLedgers(p: Progress, roles: seq<CrewRole>, role: CrewRole, unsure: bool)
    requires Ledgered(p, roles) && DistinctIds(roles + [role])
    ensures Ledgered(if unsure then p.(ambiguous := p.ambiguous + [role.id]) else p, roles + [role])
  {
    NamesSnoc(roles, role);
    var q := if unsure then p.(ambiguous := p.ambiguous + [role.id]) else p;
    assert role.id in p.roles ==> BoundAs(p, role.id, p.roles[role.id]);
    forall id | id in q.roles && id != "root" ensures BoundAs(q, id, q.roles[id]) {
      assert BoundAs(p, id, p.roles[id]);
    }
  }

  lemma {:induction false} SeatingLedgers(roles: seq<CrewRole>, nodes: seq<CrewSeatNode>)
    requires DistinctIds(roles)
    ensures Ledgered(SeatAll(roles, nodes), roles)
  {
    if roles != [] {
      var init, role := roles[..|roles| - 1], roles[|roles| - 1];
      assert roles == init + [role];
      SeatingLedgers(init, nodes);
      var p := SeatAll(init, nodes);
      var matches := Matching(nodes, p.taken, role.caption);
      if StoredAnswers(p, role, nodes) {
        BindLedgers(p, init, role, StoredFor(nodes, role.id).value, ByRoleId);
      } else if |matches| == 1 {
        assert matches[0] in matches;
        BindLedgers(p, init, role, matches[0], ByLabel);
      } else {
        PassLedgers(p, init, role, |matches| > 1);
      }
    }
  }

  /** Every role is bound once or missing, never both, and an ambiguous role is missing. */
  lemma BoundOrMissing(roles: seq<CrewRole>, nodes: seq<CrewSeatNode>, i: nat)
    requires DistinctIds(roles) && i < |roles|
    ensures var r := Resolved(roles, nodes);
            && (roles[i].id in r.missing <==> roles[i].id !in r.roles)
            && (roles[i].id in r.roles <==> exists k :: 0 <= k < |r.bindings| && r.bindings[k].role == roles[i].id)
            && (forall k, l :: 0 <= k < l < |r.bindings| ==> r.bindings[k].role != r.bindings[l].role)
            && (forall id :: id in r.ambiguous ==> id in r.missing)
  {
    SeatingLedgers(roles, nodes);
    var p := SeatAll(roles, nodes);
    var ids := Unbound(roles, p.roles);
    SortKeepsMembers(ids);
    SortKeepsMembers(p.ambiguous);
    if roles[i].id in p.roles { assert BoundAs(p, roles[i].id, p.roles[roles[i].id]); }
  }

  lemma SortKeepsMembers(s: seq<string>)
    ensures forall x :: x in Sort(s) <==> x in s
  {
    forall x ensures x in Sort(s) <==> x in s {
      assert x in multiset(Sort(s)) <==> x in multiset(s);
    }
  }

  // ---------- why a role got what it got ----------

  function AccountsOf(bindings: seq<CrewSeatBinding>): set<string> {
    if bindings == [] then {} else AccountsOf(bindings[..|bindings| - 1]) + {Key(bindings[|bindings| - 1].account)}
  }

  function RootClaim(nodes: seq<CrewSeatNode>): set<string> {
    if RootOf(nodes).Some? then {Key(RootOf(nodes).value)} else {}
  }

  /** What was claimed when role i's turn came: the root's account and every account bound so far. */
  function ClaimedBefore(roles: seq<CrewRole>, nodes: seq<CrewSeatNode>, i: nat): set<string>
    requires i <= |roles|
  {
    RootClaim(nodes) + AccountsOf(SeatAll(roles[..i], nodes).bindings)
  }

  lemma SeatTakes(p: Progress, role: CrewRole, nodes: seq<CrewSeatNode>, base: set<string>)
    requires p.taken == base + AccountsOf(p.bindings)
    ensures Seat(p, role, nodes).taken == base + AccountsOf(Seat(p, role, nodes).bindings)
  {
  }

  lemma {:induction false} TakenIsClaimed(roles: seq<CrewRole>, nodes: seq<CrewSeatNode>, i: nat)
    requires i <= |roles|
    ensures SeatAll(roles[..i], nodes).taken == ClaimedBefore(roles, nodes, i)
  {
    if i > 0 {
      TakenIsClaimed(roles, nodes, i - 1);
      assert roles[..i][..i - 1] == roles[..i - 1];
      SeatTakes(SeatAll(roles[..i - 1], nodes), roles[i - 1], nodes, RootClaim(nodes));
    }
  }

  /** From p to q nothing about this role changed, and bindings were only added. */
  predicate Keeps(p: Progress, q: Progress, id: string) {
    && (id in p.roles <==> id in q.roles) && (id in p.roles ==> p.roles[id] == q.roles[id])
    && (id in p.ambiguous <==> id in q.ambiguous)
    && p.bindings <= q.bindings
  }

  /** A turn keeps every other role. */
  lemma TurnKeeps(p: Progress, role: CrewRole, nodes: seq<CrewSeatNode>, id: string)
    requires id != role.id
    ensures Keeps(p, Seat(p, role, nodes), id)
  {
  }

  /** Later turns do not touch an earlier role. */
  lemma {:induction false} TurnIsFinal(roles: seq<CrewRole>, nodes: seq<CrewSeatNode>, i: nat)
    requires DistinctIds(roles) && i < |roles|
    ensures Keeps(SeatAll(roles[..i + 1], nodes), SeatAll(roles, nodes), roles[i].id)
    decreases |roles|
  {
    if i + 1 == |roles| {
      assert roles[..i + 1] == roles;
    } else {
      var init, last := roles[..|roles| - 1], roles[|roles| - 1];
      assert init[..i + 1] == roles[..i + 1] && roles[i].id != last.id;
      TurnIsFinal(init, nodes, i);
      TurnKeeps(SeatAll(init, nodes), last, nodes, roles[i].id);
    }
  }

  /** One turn's outcome, given what was claimed before it. */
  ghost predicate Outcome(role: CrewRole, nodes: seq<CrewSeatNode>, claimed: set<string>, roles: map<string, string>,
                          bindings: seq<CrewSeatBinding>, ambiguous: seq<string>)
  {
    var stored, matches := StoredFor(nodes, role.id), Matching(nodes, claimed, role.caption);
    if stored.Some? && AccountKey(stored.value) !in claimed then
      role.id in roles && roles[role.id] == stored.value.account.value
      && CrewSeatBinding(role.id, roles[role.id], ByRoleId) in bindings
    else if |matches| == 1 then
      role.id in roles && Some(roles[role.id]) == matches[0].account
      && CrewSeatBinding(role.id, roles[role.id], ByLabel) in bindings
    else
      role.id !in roles && (role.id in ambiguous <==> |matches| > 1)
  }

  lemma SeatDecides(p: Progress, role: CrewRole, nodes: seq<CrewSeatNode>)
    requires role.id !in p.roles && role.id !in p.ambiguous
    ensures var q := Seat(p, role, nodes); Outcome(role, nodes, p.taken, q.roles, q.bindings, q.ambiguous)
  {
    var matches := Matching(nodes, p.taken, role.caption);
    if StoredAnswers(p, role, nodes) {
      BindsLast(p, role, StoredFor(nodes, role.id).value, ByRoleId);
    } else if |matches| == 1 {
      assert matches[0] in matches;
      BindsLast(p, role, matches[0], ByLabel);
    }
  }

  lemma BindsLast(p: Progress, role: CrewRole, n: CrewSeatNode, how: BoundBy)
    requires Present(n)
    ensures CrewSeatBinding(role.id, n.account.value, how) in Bind(p, role, n, how).bindings
  {
  }

  lemma OutcomeCarries(role: CrewRole, nodes: seq<CrewSeatNode>, claimed: set<string>, q: Progress, full: Progress)
    requires Outcome(role, nodes, claimed, q.roles, q.bindings, q.ambiguous) && Keeps(q, full, role.id)
    ensures Outcome(role, nodes, claimed, full.roles, full.bindings, full.ambiguous)
  {
  }

  lemma DecidedInTurn(roles: seq<CrewRole>, nodes: seq<CrewSeatNode>, i: nat)
    requires DistinctIds(roles) && i < |roles|
    ensures var q := SeatAll(roles[..i + 1], nodes);
            Outcome(roles[i], nodes, ClaimedBefore(roles, nodes, i), q.roles, q.bindings, q.ambiguous)
  {
    TakenIsClaimed(roles, nodes, i);
    NotYetSeen(roles, nodes, i);
    SeatDecides(SeatAll(roles[..i], nodes), roles[i], nodes);
    NextTurn(roles, nodes, i);
  }

  lemma NextTurn(roles: seq<CrewRole>, nodes: seq<CrewSeatNode>, i: nat)
    requires i < |roles|
    ensures SeatAll(roles[..i + 1], nodes) == Seat(SeatAll(roles[..i], nodes), roles[i], nodes)
  {
    assert roles[..i + 1][..i] == roles[..i];
  }

  lemma DecidedForGood(roles: seq<CrewRole>, nodes: seq<CrewSeatNode>, i: nat)
    requires DistinctIds(roles) && i < |roles|
    ensures var p := SeatAll(roles, nodes);
            Outcome(roles[i], nodes, ClaimedBefore(roles, nodes, i), p.roles, p.bindings, p.ambiguous)
  {
    DecidedInTurn(roles, nodes, i);
    TurnIsFinal(roles, nodes, i);
    OutcomeCarries(roles[i], nodes, ClaimedBefore(roles, nodes, i), SeatAll(roles[..i + 1], nodes), SeatAll(roles, nodes));
  }

  /**
   Role by role: an unclaimed stored account wins; failing that the only unclaimed seat with the label;
   failing that nothing, reported as missing, and as ambiguous exactly when there were several.
   */
  lemma DecidedAtItsTurn(roles: seq<CrewRole>, nodes: seq<CrewSeatNode>, i: nat)
    requires DistinctIds(roles) && i < |roles|
    ensures var r := Resolved(roles, nodes);
            && Outcome(roles[i], nodes, ClaimedBefore(roles, nodes, i), r.roles, r.bindings, r.ambiguous)
            && (roles[i].id in r.missing <==> roles[i].id !in r.roles)
  {
    var p := SeatAll(roles, nodes);
    DecidedForGood(roles, nodes, i);
    BoundOrMissing(roles, nodes, i);
    SortKeepsMembers(p.ambiguous);
    SameMembers(roles[i], nodes, ClaimedBefore(roles, nodes, i), p.roles, p.bindings, p.ambiguous, Sort(p.ambiguous));
  }

  lemma SameMembers(role: CrewRole, nodes: seq<CrewSeatNode>, claimed: set<string>, roles: map<string, string>,
                    bindings: seq<CrewSeatBinding>, a: seq<string>, b: seq<string>)
    requires Outcome(role, nodes, claimed, roles, bindings, a) && forall x :: x in a <==> x in b
    ensures Outcome(role, nodes, claimed, roles, bindings, b)
  {
  }

  lemma NotYetSeen(roles: seq<CrewRole>, nodes: seq<CrewSeatNode>, i: nat)
    requires DistinctIds(roles) && i < |roles|
    ensures var p := SeatAll(roles[..i], nodes); roles[i].id !in p.roles && roles[i].id !in p.ambiguous
  {
    var p := SeatAll(roles[..i], nodes);
    SeatingLedgers(roles[..i], nodes);
    assert !Names(roles[..i], roles[i].id);
    assert roles[i].id in p.roles ==> BoundAs(p, roles[i].id, p.roles[roles[i].id]);
  }

  // ---------- the same, node by node ----------

  /** The node has an account. */
  predicate HasAccount(n: CrewSeatNode) {
    n.account.Some? && n.account.value != ""
  }

  predicate Human(n: CrewSeatNode) {
    n.kind.Some? && exists i :: 0 <= i <= |n.kind.value| - 5 && HumanAt(n.kind.value, i)
  }

  /** "human", in any case, stands at this place. */
  predicate HumanAt(kind: string, i: nat)
    requires i + 5 <= |kind|
  {
    Lower(kind)[i..i + 5] == "human"
  }

  ghost predicate FirstHuman(nodes: seq<CrewSeatNode>, k: int) {
    0 <= k < |nodes| && Human(nodes[k]) && HasAccount(nodes[k])
    && forall j :: 0 <= j < k ==> !(Human(nodes[j]) && HasAccount(nodes[j]))
  }

  lemma HumanIsHuman(n: CrewSeatNode)
    ensures IsHuman(n) <==> Human(n)
  {
    var kind := OrEmpty(n.kind);
    if IsHuman(n) {
      var i: nat :| i <= |Lower(kind)| && OccursAt(Lower(kind), "human", i);
      assert HumanAt(kind, i);
    }
    if Human(n) {
      var i :| 0 <= i <= |kind| - 5 && HumanAt(kind, i);
      assert OccursAt(Lower(kind), "human", i);
    }
  }

  /** The root is the account of the first human node that has one, and there is none only when no human has an account. */
  lemma {:induction false} RootIsFirstHuman(nodes: seq<CrewSeatNode>)
    ensures RootOf(nodes).None? ==> forall k :: 0 <= k < |nodes| ==> !(Human(nodes[k]) && HasAccount(nodes[k]))
    ensures forall k :: FirstHuman(nodes, k) ==> RootOf(nodes) == nodes[k].account
  {
    if nodes != [] {
      HumanIsHuman(nodes[0]);
      RootIsFirstHuman(nodes[1..]);
      forall k | FirstHuman(nodes, k) ensures RootOf(nodes) == nodes[k].account {
        if k > 0 {
          assert nodes[1..][k - 1] == nodes[k];
          assert FirstHuman(nodes[1..], k - 1);
        }
      }
    }
  }

  /** The node has an account and stores this role id, but for white space around it. */
  predicate SeatFor(n: CrewSeatNode, id: string) {
    HasAccount(n) && n.roleId.Some? && Trim(n.roleId.value) != "" && Trim(n.roleId.value) == id
  }

  ghost predicate FirstSeat(nodes: seq<CrewSeatNode>, k: int, id: string) {
    0 <= k < |nodes| && SeatFor(nodes[k], id) && forall j :: 0 <= j < k ==> !SeatFor(nodes[j], id)
  }

  /** The node has an account nobody claimed and the label, both compared trimmed and in lower case. */
  predicate Fits(n: CrewSeatNode, claimed: set<string>, caption: string) {
    HasAccount(n) && Lower(Trim(n.account.value)) !in claimed && Lower(Trim(OrEmpty(n.caption))) == Lower(Trim(caption))
  }

  ghost predicate OnlyFit(nodes: seq<CrewSeatNode>, k: int, claimed: set<string>, caption: string) {
    0 <= k < |nodes| && Fits(nodes[k], claimed, caption) && forall j :: 0 <= j < |nodes| && j != k ==> !Fits(nodes[j], claimed, caption)
  }

  ghost predicate TwoFit(nodes: seq<CrewSeatNode>, claimed: set<string>, caption: string) {
    exists j, k :: 0 <= j < k < |nodes| && Fits(nodes[j], claimed, caption) && Fits(nodes[k], claimed, caption)
  }

  lemma {:induction false} StoredIsFirstSeat(nodes: seq<CrewSeatNode>, id: string)
    ensures forall k :: FirstSeat(nodes, k, id) ==> StoredFor(nodes, id) == Some(nodes[k])
    ensures StoredFor(nodes, id).Some? ==> exists k :: FirstSeat(nodes, k, id)
  {
    if nodes != [] {
      StoredIsFirstSeat(nodes[1..], id);
      forall k | FirstSeat(nodes, k, id) ensures StoredFor(nodes, id) == Some(nodes[k]) {
        if k > 0 { assert nodes[1..][k - 1] == nodes[k] && FirstSeat(nodes[1..], k - 1, id); }
      }
      if Carries(nodes[0], id) {
        assert FirstSeat(nodes, 0, id);
      } else if StoredFor(nodes, id).Some? {
        var k :| FirstSeat(nodes[1..], k, id);
        assert FirstSeat(nodes, k + 1, id);
      }
    }
  }

  lemma {:induction false} MatchingCounts(nodes: seq<CrewSeatNode>, claimed: set<string>, caption: string)
    ensures |Matching(nodes, claimed, caption)| >= 2 <==> TwoFit(nodes, claimed, caption)
    ensures |Matching(nodes, claimed, caption)| == 0 <==> forall k :: 0 <= k < |nodes| ==> !Fits(nodes[k], claimed, caption)
  {
    if nodes != [] {
      var rest := nodes[1..];
      MatchingCounts(rest, claimed, caption);
      TwoFitCons(nodes, claimed, caption);
      assert forall k :: 1 <= k < |nodes| ==> nodes[k] == rest[k - 1];
      assert Matches(nodes[0], claimed, caption) <==> Fits(nodes[0], claimed, caption);
    }
  }

  lemma TwoFitCons(nodes: seq<CrewSeatNode>, claimed: set<string>, caption: string)
    requires nodes != []
    ensures TwoFit(nodes, claimed, caption) <==>
              TwoFit(nodes[1..], claimed, caption)
              || (Fits(nodes[0], claimed, caption) && exists k :: 0 <= k < |nodes[1..]| && Fits(nodes[1..][k], claimed, caption))
  {
    var rest := nodes[1..];
    if j, k :| 0 <= j < k < |nodes| && Fits(nodes[j], claimed, caption) && Fits(nodes[k], claimed, caption) {
      assert rest[k - 1] == nodes[k];
      if j > 0 { assert rest[j - 1] == nodes[j]; }
    }
    if j, k :| 0 <= j < k < |rest| && Fits(rest[j], claimed, caption) && Fits(rest[k], claimed, caption) {
      assert nodes[j + 1] == rest[j] && nodes[k + 1] == rest[k];
    }
    if k :| 0 <= k < |rest| && Fits(rest[k], claimed, caption) {
      assert nodes[k + 1] == rest[k];
    }
  }

  lemma OneMatchIsOnlyFit(nodes: seq<CrewSeatNode>, claimed: set<string>, caption: string)
    ensures forall k :: OnlyFit(nodes, k, claimed, caption) ==> Matching(nodes, claimed, caption) == [nodes[k]]
    ensures |Matching(nodes, claimed, caption)| == 1 ==> exists k :: OnlyFit(nodes, k, claimed, caption)
  {
    var matches := Matching(nodes, claimed, caption);
    MatchingCounts(nodes, claimed, caption);
    if |matches| == 1 {
      assert matches[0] in matches;
      var k :| 0 <= k < |nodes| && nodes[k] == matches[0];
      assert Fits(nodes[k], claimed, caption) && !TwoFit(nodes, claimed, caption);
      assert OnlyFit(nodes, k, claimed, caption);
      assert matches == [nodes[k]];
    }
    forall k | OnlyFit(nodes, k, claimed, caption) ensures matches == [nodes[k]] {
      assert !TwoFit(nodes, claimed, caption);
    }
  }

  /** The first seat that stores the role's id has an account nobody claimed. */
  ghost predicate IdAnswers(nodes: seq<CrewSeatNode>, id: string, claimed: set<string>) {
    exists k :: FirstSeat(nodes, k, id) && Lower(Trim(nodes[k].account.value)) !in claimed
  }

  /** What a role gets, over the nodes themselves. */
  lemma DecidedByTheNodes(roles: seq<CrewRole>, nodes: seq<CrewSeatNode>, i: nat)
    requires DistinctIds(roles) && i < |roles|
    ensures var r, role, claimed := Resolved(roles, nodes), roles[i], ClaimedBefore(roles, nodes, i);
            if IdAnswers(nodes, role.id, claimed) then
              forall k :: FirstSeat(nodes, k, role.id) ==> CrewSeatBinding(role.id, nodes[k].account.value, ByRoleId) in r.bindings
            else
              && (forall k :: OnlyFit(nodes, k, claimed, role.caption) ==>
                    CrewSeatBinding(role.id, nodes[k].account.value, ByLabel) in r.bindings)
              && (role.id in r.missing <==> forall k :: !OnlyFit(nodes, k, claimed, role.caption))
              && (role.id in r.ambiguous ==> role.id in r.missing)
              && (role.id in r.missing ==> (role.id in r.ambiguous <==> TwoFit(nodes, claimed, role.caption)))
  {
    var claimed := ClaimedBefore(roles, nodes, i);
    DecidedAtItsTurn(roles, nodes, i);
    BoundOrMissing(roles, nodes, i);
    StoredIsFirstSeat(nodes, roles[i].id);
    MatchingCounts(nodes, claimed, roles[i].caption);
    OneMatchIsOnlyFit(nodes, claimed, roles[i].caption);
  }

  // ---------- when stored ids win ----------

  lemma OneBindingEach(bindings: seq<CrewSeatBinding>, a: CrewSeatBinding, b: CrewSeatBinding)
    requires forall k, l :: 0 <= k < l < |bindings| ==> bindings[k].role != bindings[l].role
    requires a in bindings && b in bindings && a.role == b.role
    ensures a == b
  {
  }

  /** A stored id wins exactly when neither the root nor an earlier turn has claimed its account. */
  lemma StoredIdWinsExactly(roles: seq<CrewRole>, nodes: seq<CrewSeatNode>, i: nat)
    requires DistinctIds(roles) && i < |roles| && StoredFor(nodes, roles[i].id).Some?
    ensures var stored := StoredFor(nodes, roles[i].id).value;
            CrewSeatBinding(roles[i].id, stored.account.value, ByRoleId) in Resolved(roles, nodes).bindings
            <==> AccountKey(stored) !in ClaimedBefore(roles, nodes, i)
  {
    var r, stored := Resolved(roles, nodes), StoredFor(nodes, roles[i].id).value;
    var mine := CrewSeatBinding(roles[i].id, stored.account.value, ByRoleId);
    DecidedAtItsTurn(roles, nodes, i);
    BoundOrMissing(roles, nodes, i);
    if AccountKey(stored) in ClaimedBefore(roles, nodes, i) && roles[i].id in r.roles && mine in r.bindings {
      OneBindingEach(r.bindings, mine, CrewSeatBinding(roles[i].id, r.roles[roles[i].id], ByLabel));
    }
  }

  lemma {:induction false} RenamedAreBound(roles: seq<CrewRole>, nodes: seq<CrewSeatNode>, b: CrewSeatBinding)
    ensures b in SeatAll(roles, nodes).renamed ==> b in SeatAll(roles, nodes).bindings
  {
    if roles != [] { RenamedAreBound(roles[..|roles| - 1], nodes, b); }
  }

  /** The stored seat of this role carries a label that no longer is the role's. */
  predicate Drifted(role: CrewRole, nodes: seq<CrewSeatNode>) {
    var stored := StoredFor(nodes, role.id);
    stored.Some? && Key(OrEmpty(stored.value.caption)) != Key(role.caption)
  }

  /** One turn reports its own binding as renamed exactly when it should, and touches no other. */
  lemma SeatRenames(p: Progress, role: CrewRole, nodes: seq<CrewSeatNode>, b: CrewSeatBinding)
    ensures var q := Seat(p, role, nodes);
            if b.role != role.id then (b in q.bindings <==> b in p.bindings) && (b in q.renamed <==> b in p.renamed)
            else b !in p.bindings && b !in p.renamed ==>
                   (b in q.renamed <==> b in q.bindings && b.boundBy.ByRoleId? && Drifted(role, nodes))
  {
  }

  lemma {:induction false} SeatingRenames(roles: seq<CrewRole>, nodes: seq<CrewSeatNode>, i: nat, b: CrewSeatBinding)
    requires DistinctIds(roles) && i < |roles| && b.role == roles[i].id
    ensures var p := SeatAll(roles, nodes);
            b in p.renamed <==> b in p.bindings && b.boundBy.ByRoleId? && Drifted(roles[i], nodes)
    decreases |roles|
  {
    var init, last := roles[..|roles| - 1], roles[|roles| - 1];
    SeatRenames(SeatAll(init, nodes), last, nodes, b);
    if i < |init| {
      assert init[i] == roles[i] && roles[i].id != last.id;
      SeatingRenames(init, nodes, i, b);
    } else {
      NotBoundYet(roles, nodes, b);
      RenamedAreBound(init, nodes, b);
    }
  }

  lemma NotBoundYet(roles: seq<CrewRole>, nodes: seq<CrewSeatNode>, b: CrewSeatBinding)
    requires DistinctIds(roles) && roles != [] && b.role == roles[|roles| - 1].id
    ensures b !in SeatAll(roles[..|roles| - 1], nodes).bindings
  {
    var init := roles[..|roles| - 1];
    assert roles == init + [roles[|roles| - 1]];
    NamesSnoc(init, roles[|roles| - 1]);
    SeatingLedgers(init, nodes);
  }

  /** Reported as renamed are exactly the bindings a stored id made that the label could not have. */
  lemma RenamedAreDrifted(roles: seq<CrewRole>, nodes: seq<CrewSeatNode>, i: nat, b: CrewSeatBinding)
    requires DistinctIds(roles) && i < |roles| && b.role == roles[i].id
    ensures var r := Resolved(roles, nodes);
            b in r.renamed <==> b in r.bindings && b.boundBy.ByRoleId? && Drifted(roles[i], nodes)
  {
    SeatingRenames(roles, nodes, i, b);
  }

  /** The label of `n` fits an earlier role without a stored id while a later role has one. */
  predicate Offers(nodes: seq<CrewSeatNode>, earlier: CrewRole, later: CrewRole, n: CrewSeatNode) {
    StoredFor(nodes, earlier.id).None? && StoredFor(nodes, later.id).Some? && Present(n)
    && Key(OrEmpty(n.caption)) == Key(earlier.caption)
  }

  /** Stored accounts are distinct, none is the root's, and none is offered by label to an earlier role without a stored id. */
  ghost predicate Uncontested(roles: seq<CrewRole>, nodes: seq<CrewSeatNode>) {
    && (forall j :: 0 <= j < |roles| && StoredFor(nodes, roles[j].id).Some? ==>
          RootOf(nodes).None? || Key(RootOf(nodes).value) != AccountKey(StoredFor(nodes, roles[j].id).value))
    && (forall i, j :: 0 <= i < j < |roles| && StoredFor(nodes, roles[i].id).Some? && StoredFor(nodes, roles[j].id).Some? ==>
          AccountKey(StoredFor(nodes, roles[i].id).value) != AccountKey(StoredFor(nodes, roles[j].id).value))
    && (forall i, j, n :: 0 <= i < j < |roles| && n in nodes && Offers(nodes, roles[i], roles[j], n) ==>
          AccountKey(n) != AccountKey(StoredFor(nodes, roles[j].id).value))
  }

  lemma {:induction false} LaterStoredUnclaimed(roles: seq<CrewRole>, nodes: seq<CrewSeatNode>, i: nat, j: nat)
    requires Uncontested(roles, nodes) && i <= j < |roles| && StoredFor(nodes, roles[j].id).Some?
    ensures AccountKey(StoredFor(nodes, roles[j].id).value) !in SeatAll(roles[..i], nodes).taken
    decreases i
  {
    if i > 0 {
      assert roles[..i][..i - 1] == roles[..i - 1];
      LaterStoredUnclaimed(roles, nodes, i - 1, j);
      var p, role := SeatAll(roles[..i - 1], nodes), roles[i - 1];
      if StoredFor(nodes, role.id).Some? {
        LaterStoredUnclaimed(roles, nodes, i - 1, i - 1);
      } else {
        var matches := Matching(nodes, p.taken, role.caption);
        if |matches| == 1 {
          assert matches[0] in matches;
          assert Offers(nodes, role, roles[j], matches[0]);
        }
      }
    }
  }

  /** On an uncontested chart every stored id wins, whatever the labels say. */
  lemma StoredIdsWin(roles: seq<CrewRole>, nodes: seq<CrewSeatNode>, i: nat)
    requires DistinctIds(roles) && Uncontested(roles, nodes) && i < |roles| && StoredFor(nodes, roles[i].id).Some?
    ensures var r, stored := Resolved(roles, nodes), StoredFor(nodes, roles[i].id).value;
            && roles[i].id in r.roles && r.roles[roles[i].id] == stored.account.value
            && CrewSeatBinding(roles[i].id, stored.account.value, ByRoleId) in r.bindings
  {
    LaterStoredUnclaimed(roles, nodes, i, i);
    TakenIsClaimed(roles, nodes, i);
    DecidedAtItsTurn(roles, nodes, i);
  }

  /** A stored id does not always win: an earlier role's label can take the account stored for a later one. */
  lemma LabelTakesStoredAccount(account: string, a: CrewRole, b: CrewRole) returns (nodes: seq<CrewSeatNode>)
    requires account != "" && DistinctIds([a, b]) && Trim(b.id) == b.id && b.id != ""
    ensures StoredFor(nodes, b.id).Some?
    ensures var r := Resolved([a, b], nodes);
            b.id in r.missing && CrewSeatBinding(a.id, account, ByLabel) in r.bindings
  {
    var n := CrewSeatNode(Some(account), Some(a.caption), None, Some(b.id));
    nodes := [n];
    var roles := [a, b];
    assert a.id != b.id by { assert roles[0].id != roles[1].id; }
    assert !IsHuman(n) by { assert Lower("") == ""; }
    assert nodes[1..] == [] && RootOf(nodes).None?;
    assert roles[..0] == [] && roles[..1] == [a] && [a][..0] == [];
    assert SeatAll(roles[..0], nodes) == Begin(nodes);
    assert ClaimedBefore(roles, nodes, 0) == {};
    assert Matching(nodes, {}, a.caption) == [n];
    DecidedAtItsTurn(roles, nodes, 0);
    var claimed := ClaimedBefore(roles, nodes, 1);
    var p := SeatAll(roles[..1], nodes);
    assert p == Seat(Begin(nodes), a, nodes) && p.bindings == [CrewSeatBinding(a.id, account, ByLabel)];
    assert AccountsOf(p.bindings) == {Key(account)} by { assert p.bindings[..0] == []; }
    assert Matching(nodes, claimed, b.caption) == [];
    DecidedAtItsTurn(roles, nodes, 1);
  }
}
