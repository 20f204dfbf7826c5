/**
 Renames: what a resolution learned, stored and layered back over the same accounts under any new
 labels, resolves to the same seats, and every one of them by its stored id.
 */
module SeatRename {
  import opened Maybe
  import Text
  import opened CrewSeats
  import opened CrewBindings

  /** Writing each entry in turn; one unusable entry stores nothing. */
  function PersistAll(entries: seq<CrewRoleBindingInput>, at: string): Result<seq<CrewRoleBinding>, BindingError> {
    if entries == [] then Ok([])
    else
      match NormalizeCrewBinding(entries[0], at)
      case Err(e) => Err(e)
      case Ok(b) =>
        match PersistAll(entries[1..], at)
        case Err(e) => Err(e)
        case Ok(rest) => Ok([b] + rest)
  }

  /** The entries are the role map's, in any order and with any labels, crew or blueprint beside them. */
  ghost predicate EntriesOf(entries: seq<CrewRoleBindingInput>, roles: map<string, string>) {
    && (forall i :: 0 <= i < |entries| ==> entries[i].roleId in roles && entries[i].account == roles[entries[i].roleId])
    && (forall id :: id in roles ==> exists i :: 0 <= i < |entries| && entries[i].roleId == id)
  }

  /** The same accounts, kinds and ids; only the labels differ. */
  predicate Relabelled(before: seq<CrewSeatNode>, after: seq<CrewSeatNode>) {
    |before| == |after| && forall i :: 0 <= i < |before| ==> after[i] == before[i].(caption := after[i].caption)
  }

  predicate CleanIds(roles: seq<CrewRole>) {
    forall i :: 0 <= i < |roles| ==> roles[i].id != "" && Text.Trim(roles[i].id) == roles[i].id
  }

  /** No node carries the id of a role bound elsewhere, and no bound account carries some other id. */
  ghost predicate NoForeignIds(nodes: seq<CrewSeatNode>, roles: seq<CrewRole>, bound: map<string, string>) {
    forall n, i :: n in nodes && 0 <= i < |roles| && Present(n) && OrEmpty(n.roleId) != "" && roles[i].id in bound ==>
      (Text.Trim(OrEmpty(n.roleId)) == roles[i].id <==> AccountKey(n) == Key(bound[roles[i].id]))
  }

  // ---------- the stored list ----------

  lemma {:induction false} StoredEntries(entries: seq<CrewRoleBindingInput>, at: string)
    requires PersistAll(entries, at).Ok?
    ensures var stored := PersistAll(entries, at).value;
            && |stored| == |entries|
            && forall i :: 0 <= i < |entries| ==>
                 stored[i].roleId == Text.Trim(entries[i].roleId) != "" && stored[i].account == Key(entries[i].account)
  {
    if entries != [] { StoredEntries(entries[1..], at); }
  }

  lemma {:induction false} RoleIdForFinds(bindings: seq<CrewRoleBinding>, account: string)
    ensures var id := RoleIdFor(bindings, account);
            if id.Some? then exists i :: 0 <= i < |bindings| && bindings[i].account == account && bindings[i].roleId == id.value
            else forall i :: 0 <= i < |bindings| ==> bindings[i].account != account
  {
    if bindings != [] && bindings[0].account != account {
      RoleIdForFinds(bindings[1..], account);
      if i :| 0 <= i < |bindings[1..]| && bindings[1..][i].account == account
              && RoleIdFor(bindings, account) == Some(bindings[1..][i].roleId) {
        assert bindings[i + 1].account == account;
      }
    }
  }

  lemma {:induction false} RoleMapHas(bindings: seq<CrewSeatBinding>)
    requires forall k, l :: 0 <= k < l < |bindings| ==> bindings[k].role != bindings[l].role
    ensures forall k :: 0 <= k < |bindings| ==>
              bindings[k].role in RoleMap(bindings) && RoleMap(bindings)[bindings[k].role] == bindings[k].account
    ensures forall id :: id in RoleMap(bindings) ==> exists k :: 0 <= k < |bindings| && bindings[k].role == id
  {
    if bindings != [] {
      var init := bindings[..|bindings| - 1];
      RoleMapHas(init);
      forall id | id in RoleMap(bindings) ensures exists k :: 0 <= k < |bindings| && bindings[k].role == id {
        if id == bindings[|bindings| - 1].role {
        } else {
          assert id in RoleMap(init);
          var k :| 0 <= k < |init| && init[k].role == id;
          assert bindings[k].role == id;
        }
      }
    }
  }

  /** What is persisted is the resolution without the root. */
  lemma SeatRoleMapIsRoles(roles: seq<CrewRole>, nodes: seq<CrewSeatNode>)
    requires DistinctIds(roles)
    ensures var r := Resolved(roles, nodes); SeatRoleMap(r) == map id | id in r.roles && id != "root" :: r.roles[id]
  {
    SeatingLedgers(roles, nodes);
    var p := SeatAll(roles, nodes);
    forall id ensures id in RoleMap(p.bindings) <==> id in p.roles && id != "root" { ListedIsMapped(p, roles, id); }
    forall id | id in RoleMap(p.bindings) ensures RoleMap(p.bindings)[id] == p.roles[id] { ListedIsMapped(p, roles, id); }
  }

  lemma ListedIsMapped(p: Progress, roles: seq<CrewRole>, id: string)
    requires Ledgered(p, roles) && DistinctIds(roles)
    ensures id in RoleMap(p.bindings) <==> id in p.roles && id != "root"
    ensures id in RoleMap(p.bindings) ==> RoleMap(p.bindings)[id] == p.roles[id]
  {
    RoleMapHas(p.bindings);
    if id in p.roles && id != "root" { assert BoundAs(p, id, p.roles[id]); }
    if id in RoleMap(p.bindings) {
      var k :| 0 <= k < |p.bindings| && p.bindings[k].role == id;
      assert Names(roles, id);
    }
  }

  ghost predicate Injective(bound: map<string, string>) {
    forall a, b :: a in bound && b in bound && a != b ==> Key(bound[a]) != Key(bound[b])
  }

  /** The stored list says of every role but the root which account key it has, and nothing else. */
  ghost predicate Stores(stored: seq<CrewRoleBinding>, bound: map<string, string>) {
    && (forall k :: 0 <= k < |stored| ==>
          var id := stored[k].roleId;
          id != "" && Text.Trim(id) == id && id != "root" && id in bound && stored[k].account == Key(bound[id]))
    && (forall id :: id in bound && id != "root" ==> exists k :: 0 <= k < |stored| && stored[k].roleId == id)
  }

  lemma BoundIsRole(roles: seq<CrewRole>, nodes: seq<CrewSeatNode>, id: string)
    requires DistinctIds(roles) && CleanIds(roles) && id in Resolved(roles, nodes).roles && id != "root"
    ensures id != "" && Text.Trim(id) == id
  {
    SeatingLedgers(roles, nodes);
    var p := SeatAll(roles, nodes);
    assert BoundAs(p, id, p.roles[id]);
    assert Names(roles, id);
  }

  lemma PersistedStores(roles: seq<CrewRole>, nodes: seq<CrewSeatNode>, entries: seq<CrewRoleBindingInput>, at: string)
    requires DistinctIds(roles) && CleanIds(roles)
    requires EntriesOf(entries, SeatRoleMap(Resolved(roles, nodes))) && PersistAll(entries, at).Ok?
    ensures Stores(PersistAll(entries, at).value, Resolved(roles, nodes).roles)
  {
    var bound, stored := Resolved(roles, nodes).roles, PersistAll(entries, at).value;
    StoredEntries(entries, at);
    SeatRoleMapIsRoles(roles, nodes);
    forall k | 0 <= k < |stored|
      ensures stored[k].roleId == entries[k].roleId && stored[k].account == Key(bound[entries[k].roleId])
    {
      BoundIsRole(roles, nodes, entries[k].roleId);
    }
    forall id | id in bound && id != "root" ensures exists k :: 0 <= k < |stored| && stored[k].roleId == id {
      assert id in SeatRoleMap(Resolved(roles, nodes));
      var k :| 0 <= k < |entries| && entries[k].roleId == id;
      assert stored[k].roleId == id;
    }
  }

  /** Looking an account up in the stored list gives the role bound to it and nothing else. */
  lemma LookupIsTheRole(stored: seq<CrewRoleBinding>, bound: map<string, string>, account: string, id: string)
    requires Stores(stored, bound) && Injective(bound) && id in bound && id != "root"
    ensures RoleIdFor(stored, account) == Some(id) <==> Key(bound[id]) == account
    ensures var found := RoleIdFor(stored, account); found.Some? ==> found.value != "" && Text.Trim(found.value) == found.value
  {
    RoleIdForFinds(stored, account);
    var k :| 0 <= k < |stored| && stored[k].roleId == id;
  }

  // ---------- the layered chart ----------

  /** After layering, the nodes carrying a role's id are exactly the nodes of its account. */
  lemma CarriersAreTheSeat(
    nodes: seq<CrewSeatNode>, roles: seq<CrewRole>, stored: seq<CrewRoleBinding>, bound: map<string, string>, n: CrewSeatNode, i: nat)
    requires Stores(stored, bound) && Injective(bound) && NoForeignIds(nodes, roles, bound)
    requires n in nodes && Present(n) && i < |roles| && roles[i].id in bound && roles[i].id != "root" && roles[i].id != ""
    ensures Carries(WithRoleId(n, stored), roles[i].id) == (AccountKey(n) == Key(bound[roles[i].id]))
  {
    LookupIsTheRole(stored, bound, AccountKey(n), roles[i].id);
    assert Text.Trim("") == "";
  }

  lemma ForeignnessIgnoresLabels(
    before: seq<CrewSeatNode>, after: seq<CrewSeatNode>, roles: seq<CrewRole>, bound: map<string, string>)
    requires Relabelled(before, after) && NoForeignIds(before, roles, bound)
    ensures NoForeignIds(after, roles, bound)
  {
  }

  lemma {:induction false} SameRoot(before: seq<CrewSeatNode>, after: seq<CrewSeatNode>)
    requires |before| == |after|
    requires forall i :: 0 <= i < |before| ==> after[i].account == before[i].account && after[i].kind == before[i].kind
    ensures RootOf(after) == RootOf(before)
  {
    if before != [] { SameRoot(before[1..], after[1..]); }
  }

  /** The account of a bound role belongs to some node. */
  lemma BoundAccountHasNode(roles: seq<CrewRole>, nodes: seq<CrewSeatNode>, i: nat) returns (k: nat)
    requires DistinctIds(roles) && i < |roles| && roles[i].id in Resolved(roles, nodes).roles
    ensures k < |nodes| && Present(nodes[k]) && AccountKey(nodes[k]) == Key(Resolved(roles, nodes).roles[roles[i].id])
  {
    DecidedAtItsTurn(roles, nodes, i);
    var stored := StoredFor(nodes, roles[i].id);
    var matches := Matching(nodes, ClaimedBefore(roles, nodes, i), roles[i].caption);
    if stored.Some? && AccountKey(stored.value) !in ClaimedBefore(roles, nodes, i) {
      k :| 0 <= k < |nodes| && nodes[k] == stored.value;
    } else {
      assert matches[0] in matches;
      k :| 0 <= k < |nodes| && nodes[k] == matches[0];
    }
  }

  /** Each bound role finds, in the layered chart, a stored node of its own account. */
  lemma StoredSeat(
    roles: seq<CrewRole>, nodes: seq<CrewSeatNode>, after: seq<CrewSeatNode>, stored: seq<CrewRoleBinding>, i: nat)
    requires DistinctIds(roles) && CleanIds(roles) && i < |roles| && Relabelled(nodes, after)
    requires roles[i].id in Resolved(roles, nodes).roles
    requires Stores(stored, Resolved(roles, nodes).roles) && Injective(Resolved(roles, nodes).roles)
    requires NoForeignIds(after, roles, Resolved(roles, nodes).roles)
    ensures var found := StoredFor(Layered(after, stored), roles[i].id);
            found.Some? && AccountKey(found.value) == Key(Resolved(roles, nodes).roles[roles[i].id])
  {
    var bound, layered := Resolved(roles, nodes).roles, Layered(after, stored);
    var k := BoundAccountHasNode(roles, nodes, i);
    assert AccountKey(after[k]) == AccountKey(nodes[k]);
    var found := StoredFor(layered, roles[i].id);
    LayeredCarrier(after, roles, stored, bound, k, i);
    var l :| 0 <= l < |layered| && layered[l] == found.value;
    LayeredCarrier(after, roles, stored, bound, l, i);
  }

  /** In the layered chart a node carries a role's id exactly when the account is the role's. */
  lemma LayeredCarrier(
    nodes: seq<CrewSeatNode>, roles: seq<CrewRole>, stored: seq<CrewRoleBinding>, bound: map<string, string>, k: nat, i: nat)
    requires Stores(stored, bound) && Injective(bound) && NoForeignIds(nodes, roles, bound)
    requires k < |nodes| && Present(nodes[k]) && i < |roles| && roles[i].id in bound && roles[i].id != "root" && roles[i].id != ""
    ensures var n := Layered(nodes, stored)[k];
            && n in Layered(nodes, stored) && Present(n) && AccountKey(n) == AccountKey(nodes[k])
            && (Carries(n, roles[i].id) <==> AccountKey(n) == Key(bound[roles[i].id]))
  {
    CarriersAreTheSeat(nodes, roles, stored, bound, nodes[k], i);
    assert Layered(nodes, stored)[k] == WithRoleId(nodes[k], stored);
  }

  lemma LayeredIsUncontested(
    roles: seq<CrewRole>, nodes: seq<CrewSeatNode>, after: seq<CrewSeatNode>, stored: seq<CrewRoleBinding>)
    requires DistinctIds(roles) && CleanIds(roles) && Relabelled(nodes, after)
    requires forall i :: 0 <= i < |roles| ==> roles[i].id in Resolved(roles, nodes).roles
    requires Stores(stored, Resolved(roles, nodes).roles) && NoForeignIds(nodes, roles, Resolved(roles, nodes).roles)
    ensures var bound, layered := Resolved(roles, nodes).roles, Layered(after, stored);
            && Uncontested(roles, layered)
            && forall i :: 0 <= i < |roles| ==>
                 StoredFor(layered, roles[i].id).Some? && AccountKey(StoredFor(layered, roles[i].id).value) == Key(bound[roles[i].id])
  {
    var bound, layered := Resolved(roles, nodes).roles, Layered(after, stored);
    NoAccountTwice(roles, nodes);
    ForeignnessIgnoresLabels(nodes, after, roles, bound);
    forall i | 0 <= i < |roles|
      ensures StoredFor(layered, roles[i].id).Some? && AccountKey(StoredFor(layered, roles[i].id).value) == Key(bound[roles[i].id])
    {
      StoredSeat(roles, nodes, after, stored, i);
    }
    SameRoot(nodes, layered);
    RootStaysApart(roles, nodes);
    AllStoredUncontested(roles, layered, bound);
  }

  /** A chart where every role has a stored account of its own, and none is the root's, is uncontested. */
  lemma AllStoredUncontested(roles: seq<CrewRole>, nodes: seq<CrewSeatNode>, bound: map<string, string>)
    requires DistinctIds(roles) && Injective(bound)
    requires forall i :: 0 <= i < |roles| ==>
               roles[i].id in bound && StoredFor(nodes, roles[i].id).Some?
               && AccountKey(StoredFor(nodes, roles[i].id).value) == Key(bound[roles[i].id])
    requires forall i :: 0 <= i < |roles| && RootOf(nodes).Some? ==> Key(bound[roles[i].id]) != Key(RootOf(nodes).value)
    ensures Uncontested(roles, nodes)
  {
  }

  /** Each role, resolved over the layered chart, is bound by its stored id to the account it had. */
  lemma RolesRebound(
    roles: seq<CrewRole>, nodes: seq<CrewSeatNode>, after: seq<CrewSeatNode>, stored: seq<CrewRoleBinding>)
    requires DistinctIds(roles) && CleanIds(roles) && Resolved(roles, nodes).missing == [] && Relabelled(nodes, after)
    requires Stores(stored, Resolved(roles, nodes).roles) && NoForeignIds(nodes, roles, Resolved(roles, nodes).roles)
    ensures var before, again := Resolved(roles, nodes).roles, Resolved(roles, Layered(after, stored));
            forall i :: 0 <= i < |roles| ==>
              && roles[i].id in before && roles[i].id in again.roles
              && Key(again.roles[roles[i].id]) == Key(before[roles[i].id])
              && CrewSeatBinding(roles[i].id, again.roles[roles[i].id], ByRoleId) in again.bindings
  {
    var layered := Layered(after, stored);
    forall i | 0 <= i < |roles| ensures roles[i].id in Resolved(roles, nodes).roles { BoundOrMissing(roles, nodes, i); }
    LayeredIsUncontested(roles, nodes, after, stored);
    forall i | 0 <= i < |roles|
      ensures var again := Resolved(roles, layered);
              && roles[i].id in again.roles
              && again.roles[roles[i].id] == StoredFor(layered, roles[i].id).value.account.value
              && CrewSeatBinding(roles[i].id, again.roles[roles[i].id], ByRoleId) in again.bindings
    {
      StoredIdsWin(roles, layered, i);
    }
  }

  /** The map holds these roles, and the root exactly when there is one. */
  ghost predicate HoldsRolesAndRoot(bound: map<string, string>, roles: seq<CrewRole>, root: Option<string>) {
    && (forall id :: id in bound <==> Names(roles, id) || (id == "root" && root.Some?))
    && (root.Some? ==> bound["root"] == root.value)
  }

  lemma SameRoleMap(before: map<string, string>, again: map<string, string>, roles: seq<CrewRole>, root: Option<string>)
    requires HoldsRolesAndRoot(before, roles, root) && HoldsRolesAndRoot(again, roles, root)
    requires forall i :: 0 <= i < |roles| ==>
               roles[i].id in before && roles[i].id in again && Key(again[roles[i].id]) == Key(before[roles[i].id])
    ensures again.Keys == before.Keys && forall id :: id in before ==> Key(again[id]) == Key(before[id])
  {
    forall id | id in before ensures id in again && Key(again[id]) == Key(before[id]) {
      if Names(roles, id) {
        var i :| 0 <= i < |roles| && roles[i].id == id;
      }
    }
  }

  /**
   When nothing was missing and no node carried a foreign id, persisting what was resolved and
   layering it over the same accounts under any new labels gives the same role map, root included,
   account for account, and binds every role by its stored id.
   */
  lemma RenameSurvives(
    roles: seq<CrewRole>, nodes: seq<CrewSeatNode>, after: seq<CrewSeatNode>, entries: seq<CrewRoleBindingInput>, at: string)
    requires DistinctIds(roles) && CleanIds(roles)
    requires Resolved(roles, nodes).missing == []
    requires NoForeignIds(nodes, roles, Resolved(roles, nodes).roles)
    requires EntriesOf(entries, SeatRoleMap(Resolved(roles, nodes))) && PersistAll(entries, at).Ok?
    requires Relabelled(nodes, after)
    ensures var before := Resolved(roles, nodes);
            var again := Resolved(roles, Layered(after, PersistAll(entries, at).value));
            && again.missing == []
            && again.roles.Keys == before.roles.Keys
            && (forall id :: id in before.roles ==> Key(again.roles[id]) == Key(before.roles[id]))
            && (forall i :: 0 <= i < |roles| ==>
                  roles[i].id in again.roles && CrewSeatBinding(roles[i].id, again.roles[roles[i].id], ByRoleId) in again.bindings)
            && (forall b :: b in again.bindings ==> b.boundBy == ByRoleId)
  {
    var stored := PersistAll(entries, at).value;
    var layered := Layered(after, stored);
    PersistedStores(roles, nodes, entries, at);
    RolesRebound(roles, nodes, after, stored);
    AllByRoleId(roles, layered);
    SameRoot(nodes, layered);
    RolesAndRoot(roles, nodes);
    RolesAndRoot(roles, layered);
    SameRoleMap(Resolved(roles, nodes).roles, Resolved(roles, layered).roles, roles, RootOf(nodes));
  }

  /** With nothing missing, the role map holds the blueprint's roles, and the root exactly when the chart has one. */
  lemma RolesAndRoot(roles: seq<CrewRole>, nodes: seq<CrewSeatNode>)
    requires DistinctIds(roles) && Resolved(roles, nodes).missing == []
    ensures HoldsRolesAndRoot(Resolved(roles, nodes).roles, roles, RootOf(nodes))
  {
    var p := SeatAll(roles, nodes);
    SeatingLedgers(roles, nodes);
    RootIsBound(roles, nodes);
    forall i | 0 <= i < |roles| ensures roles[i].id in p.roles { BoundOrMissing(roles, nodes, i); }
    forall id | id in p.roles && id != "root" ensures Names(roles, id) { assert BoundAs(p, id, p.roles[id]); }
  }

  /** The root keeps its own account, so no role is bound to it. */
  lemma RootStaysApart(roles: seq<CrewRole>, nodes: seq<CrewSeatNode>)
    requires DistinctIds(roles)
    ensures forall i :: 0 <= i < |roles| && RootOf(nodes).Some? && roles[i].id in Resolved(roles, nodes).roles ==>
              Key(Resolved(roles, nodes).roles[roles[i].id]) != Key(RootOf(nodes).value)
  {
    if RootOf(nodes).Some? { RootIsBound(roles, nodes); }
    NoAccountTwice(roles, nodes);
  }

  lemma {:induction false} RootIsBound(roles: seq<CrewRole>, nodes: seq<CrewSeatNode>)
    requires DistinctIds(roles)
    ensures "root" in SeatAll(roles, nodes).roles <==> RootOf(nodes).Some?
    ensures RootOf(nodes).Some? ==> SeatAll(roles, nodes).roles["root"] == RootOf(nodes).value
  {
    if roles != [] {
      RootIsBound(roles[..|roles| - 1], nodes);
    }
  }

  lemma AllByRoleId(roles: seq<CrewRole>, nodes: seq<CrewSeatNode>)
    requires DistinctIds(roles)
    requires forall i :: 0 <= i < |roles| ==>
               roles[i].id in Resolved(roles, nodes).roles
               && CrewSeatBinding(roles[i].id, Resolved(roles, nodes).roles[roles[i].id], ByRoleId) in Resolved(roles, nodes).bindings
    ensures Resolved(roles, nodes).missing == []
    ensures forall b :: b in Resolved(roles, nodes).bindings ==> b.boundBy == ByRoleId
  {
    var r, p := Resolved(roles, nodes), SeatAll(roles, nodes);
    SeatingLedgers(roles, nodes);
    forall b | b in r.bindings ensures b.boundBy == ByRoleId {
      var k :| 0 <= k < |r.bindings| && r.bindings[k] == b;
      assert Names(roles, b.role);
      var i :| 0 <= i < |roles| && roles[i].id == b.role;
      var l :| 0 <= l < |r.bindings| && r.bindings[l] == CrewSeatBinding(roles[i].id, r.roles[roles[i].id], ByRoleId);
      assert k == l;
    }
    assert Unbound(roles, p.roles) == [];
  }
}
