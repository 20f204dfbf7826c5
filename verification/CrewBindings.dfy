/**
 The stored mapping from blueprint roles to accounts (`packages/flows/src/crewBindings.ts`): how a
 binding is keyed, canonicalized, read back for one crew and layered over a node list.
 */
module CrewBindings {
  import opened Maybe
  import opened Text
  import CrewSeats

  datatype CrewRoleBinding = CrewRoleBinding(
    roleId: string,
    account: string,
    caption: Option<string>,
    blueprintId: Option<string>,
    crewId: Option<string>,
    at: string
  )

  datatype CrewRoleBindingInput = CrewRoleBindingInput(
    roleId: string,
    account: string,
    caption: Option<string>,
    blueprintId: Option<string>,
    crewId: Option<string>
  )

  datatype BindingError = RoleRequired | AccountInvalid

  /** The scope of a binding: its crew, else its blueprint, else the workspace. */
  function CrewBindingScope(crewId: Option<string>, blueprintId: Option<string>): string {
    if Trim(OrEmpty(crewId)) != "" then "crew:" + Lower(Trim(OrEmpty(crewId)))
    else if Trim(OrEmpty(blueprintId)) != "" then "blueprint:" + Lower(Trim(OrEmpty(blueprintId)))
    else "workspace"
  }

  /** Trimmed, there is nothing. */
  predicate IsBlank(s: Option<string>) {
    s.None? || Trim(s.value) == ""
  }

  /** The same but for white space around it and case. */
  predicate SameId(a: Option<string>, b: Option<string>) {
    !IsBlank(a) && !IsBlank(b) && Lower(Trim(a.value)) == Lower(Trim(b.value))
  }

  /** Both name the same crew; or neither a crew and both the same blueprint; or neither anything. */
  predicate Together(crew1: Option<string>, blueprint1: Option<string>, crew2: Option<string>, blueprint2: Option<string>) {
    || SameId(crew1, crew2)
    || (IsBlank(crew1) && IsBlank(crew2) && SameId(blueprint1, blueprint2))
    || (IsBlank(crew1) && IsBlank(crew2) && IsBlank(blueprint1) && IsBlank(blueprint2))
  }

  /** Two bindings share a scope exactly when they belong together. */
  lemma ScopesCoincide(crew1: Option<string>, blueprint1: Option<string>, crew2: Option<string>, blueprint2: Option<string>)
    ensures CrewBindingScope(crew1, blueprint1) == CrewBindingScope(crew2, blueprint2) <==>
              Together(crew1, blueprint1, crew2, blueprint2)
  {
    var c1, c2 := Lower(Trim(OrEmpty(crew1))), Lower(Trim(OrEmpty(crew2)));
    var b1, b2 := Lower(Trim(OrEmpty(blueprint1))), Lower(Trim(OrEmpty(blueprint2)));
    assert Trim("") == "";
    SameTail("crew:", c1, c2);
    SameTail("blueprint:", b1, b2);
    assert ("crew:" + c1)[0] == 'c' && ("crew:" + c2)[0] == 'c';
    assert ("blueprint:" + b1)[0] == 'b' && ("blueprint:" + b2)[0] == 'b' && "workspace"[0] == 'w';
  }

  function ScopeOf(b: CrewRoleBinding): string {
    CrewBindingScope(b.crewId, b.blueprintId)
  }

  /** A trimmed value, dropped when blank. */
  function Kept(s: Option<string>): Option<string> {
    if Trim(OrEmpty(s)) != "" then Some(Trim(OrEmpty(s))) else None
  }

  function NormalizeCrewBinding(input: CrewRoleBindingInput, at: string): Result<CrewRoleBinding, BindingError> {
    if Trim(input.roleId) == "" then Err(RoleRequired)
    else if !IsAddress(Trim(input.account)) then Err(AccountInvalid)
    else Ok(CrewRoleBinding(Trim(input.roleId), Lower(Trim(input.account)), Kept(input.caption),
                            Kept(input.blueprintId), Kept(input.crewId), at))
  }

  function Again(b: CrewRoleBinding): CrewRoleBindingInput {
    CrewRoleBindingInput(b.roleId, b.account, b.caption, b.blueprintId, b.crewId)
  }

  lemma AddressIsTrimmed(s: string)
    requires IsAddress(s)
    ensures Trim(s) == s && IsAddress(Lower(s))
  {
  }

  /** What is stored is canonical: normalizing it again changes nothing, and its scope and account key are the caller's. */
  lemma NormalizedIsCanonical(input: CrewRoleBindingInput, at: string)
    requires NormalizeCrewBinding(input, at).Ok?
    ensures var b := NormalizeCrewBinding(input, at).value;
            && NormalizeCrewBinding(Again(b), at) == Ok(b)
            && b.account == CrewSeats.Key(input.account) && CrewSeats.Key(b.account) == b.account
            && ScopeOf(b) == CrewBindingScope(input.crewId, input.blueprintId)
  {
    AddressIsTrimmed(Trim(input.account));
    LowerTwice(Trim(input.account));
    AddressIsTrimmed(Lower(Trim(input.account)));
    TrimTwice(input.roleId);
    TrimTwice(OrEmpty(input.caption));
    TrimTwice(OrEmpty(input.blueprintId));
    TrimTwice(OrEmpty(input.crewId));
  }

  /**
   A binding is stored exactly when it names a role and a well-formed account, and stored as handed over but
   for white space and the account's case.
   */
  lemma NormalizedExactly(input: CrewRoleBindingInput, at: string)
    ensures var r := NormalizeCrewBinding(input, at);
            && (r.Ok? <==> Trim(input.roleId) != "" && IsAddress(Trim(input.account)))
            && (r == Err(RoleRequired) <==> Trim(input.roleId) == "")
            && (r.Ok? ==>
                  && r.value.roleId == Trim(input.roleId) && r.value.account == Lower(Trim(input.account)) && r.value.at == at
                  && StoredAs(input.caption, r.value.caption) && StoredAs(input.blueprintId, r.value.blueprintId)
                  && StoredAs(input.crewId, r.value.crewId))
  {
    assert Trim("") == "";
  }

  /** Dropped when blank, trimmed otherwise. */
  predicate StoredAs(given: Option<string>, stored: Option<string>) {
    if IsBlank(given) then stored.None? else stored == Some(Trim(given.value))
  }

  // ---------- reading a scope back ----------

  predicate InScope(b: CrewRoleBinding, scope: Option<string>) {
    scope.Some? ==> ScopeOf(b) == scope.value
  }

  function RolesIn(bindings: seq<CrewRoleBinding>, scope: Option<string>): map<string, string> {
    if bindings == [] then map[]
    else
      var before, last := RolesIn(bindings[..|bindings| - 1], scope), bindings[|bindings| - 1];
      if InScope(last, scope) then before[last.roleId := last.account] else before
  }

  method CrewBindingRoles(bindings: seq<CrewRoleBinding>, scope: Option<string>) returns (roles: map<string, string>)
    ensures roles == RolesIn(bindings, scope)
  {
    roles := map[];
    for i := 0 to |bindings|
      invariant roles == RolesIn(bindings[..i], scope)
    {
      assert bindings[..i + 1][..i] == bindings[..i];
      if InScope(bindings[i], scope) {
        roles := roles[bindings[i].roleId := bindings[i].account];
      }
    }
    assert bindings[..|bindings|] == bindings;
  }

  predicate Applies(b: CrewRoleBinding, scope: Option<string>, id: string) {
    InScope(b, scope) && b.roleId == id
  }

  /** A role reads as its last binding in the scope. */
  lemma {:induction false} LastInScopeWins(bindings: seq<CrewRoleBinding>, scope: Option<string>, i: nat)
    requires i < |bindings| && InScope(bindings[i], scope)
    requires forall j :: i < j < |bindings| ==> !Applies(bindings[j], scope, bindings[i].roleId)
    ensures var roles := RolesIn(bindings, scope);
            bindings[i].roleId in roles && roles[bindings[i].roleId] == bindings[i].account
  {
    if i + 1 < |bindings| {
      LastInScopeWins(bindings[..|bindings| - 1], scope, i);
    }
  }

  /** Only bindings of the scope are read. */
  lemma {:induction false} OtherScopesAreLeftOut(bindings: seq<CrewRoleBinding>, scope: Option<string>, id: string)
    requires forall i :: 0 <= i < |bindings| ==> !Applies(bindings[i], scope, id)
    ensures id !in RolesIn(bindings, scope)
  {
    if bindings != [] {
      assert !Applies(bindings[|bindings| - 1], scope, id);
      OtherScopesAreLeftOut(bindings[..|bindings| - 1], scope, id);
    }
  }

  /** The binding names this role and belongs with this crew or blueprint. */
  predicate BelongsAs(b: CrewRoleBinding, crew: Option<string>, blueprint: Option<string>, id: string) {
    b.roleId == id && Together(b.crewId, b.blueprintId, crew, blueprint)
  }

  lemma BelongsApplies(b: CrewRoleBinding, crew: Option<string>, blueprint: Option<string>, id: string)
    ensures BelongsAs(b, crew, blueprint, id) <==> Applies(b, Some(CrewBindingScope(crew, blueprint)), id)
  {
    ScopesCoincide(b.crewId, b.blueprintId, crew, blueprint);
  }

  /** Binding i is the last of those. */
  ghost predicate LastAs(bindings: seq<CrewRoleBinding>, i: int, crew: Option<string>, blueprint: Option<string>, id: string) {
    && 0 <= i < |bindings| && BelongsAs(bindings[i], crew, blueprint, id)
    && forall j :: i < j < |bindings| ==> !BelongsAs(bindings[j], crew, blueprint, id)
  }

  /**
   Reading the roles of a crew, of a blueprint's bindings without a crew, or of the workspace: a role is
   there exactly when some binding that belongs there names it, and has the account of the last one.
   */
  lemma ReadsItsOwn(bindings: seq<CrewRoleBinding>, crew: Option<string>, blueprint: Option<string>, id: string)
    ensures var roles := RolesIn(bindings, Some(CrewBindingScope(crew, blueprint)));
            && (id in roles <==> exists i :: 0 <= i < |bindings| && BelongsAs(bindings[i], crew, blueprint, id))
            && forall i :: LastAs(bindings, i, crew, blueprint, id) ==> id in roles && roles[id] == bindings[i].account
  {
    var scope := Some(CrewBindingScope(crew, blueprint));
    forall i | 0 <= i < |bindings|
      ensures BelongsAs(bindings[i], crew, blueprint, id) <==> Applies(bindings[i], scope, id)
    {
      BelongsApplies(bindings[i], crew, blueprint, id);
    }
    forall i | LastAs(bindings, i, crew, blueprint, id)
      ensures id in RolesIn(bindings, scope) && RolesIn(bindings, scope)[id] == bindings[i].account
    {
      LastInScopeWins(bindings, scope, i);
    }
    if k :| 0 <= k < |bindings| && BelongsAs(bindings[k], crew, blueprint, id) {
      var i := LastNaming(bindings, crew, blueprint, id, k);
    } else {
      OtherScopesAreLeftOut(bindings, scope, id);
    }
  }

  lemma {:induction false} LastNaming(
    bindings: seq<CrewRoleBinding>, crew: Option<string>, blueprint: Option<string>, id: string, k: nat) returns (i: nat)
    requires k < |bindings| && BelongsAs(bindings[k], crew, blueprint, id)
    ensures LastAs(bindings, i, crew, blueprint, id)
    decreases |bindings| - k
  {
    if j :| k < j < |bindings| && BelongsAs(bindings[j], crew, blueprint, id) {
      i := LastNaming(bindings, crew, blueprint, id, j);
    } else {
      i := k;
    }
  }

  /** A crew never reads an account that is stored only for other crews. */
  lemma OtherCrewsAreNotRead(bindings: seq<CrewRoleBinding>, crew: string, blueprint: Option<string>, id: string)
    requires Trim(crew) != "" && id in RolesIn(bindings, Some(CrewBindingScope(Some(crew), blueprint)))
    ensures exists i :: 0 <= i < |bindings|
              && bindings[i].crewId.Some? && Lower(Trim(bindings[i].crewId.value)) == Lower(Trim(crew))
              && bindings[i].roleId == id
              && bindings[i].account == RolesIn(bindings, Some(CrewBindingScope(Some(crew), blueprint)))[id]
  {
    ReadsItsOwn(bindings, Some(crew), blueprint, id);
    var k :| 0 <= k < |bindings| && BelongsAs(bindings[k], Some(crew), blueprint, id);
    var i := LastNaming(bindings, Some(crew), blueprint, id, k);
  }

  // ---------- layering ids over nodes ----------

  /** The role of the first binding that names this account. */
  function RoleIdFor(bindings: seq<CrewRoleBinding>, account: string): Option<string> {
    if bindings == [] then None
    else if bindings[0].account == account then Some(bindings[0].roleId)
    else RoleIdFor(bindings[1..], account)
  }

  /** A node keeps an id it has; otherwise it gets the one stored for its account, if any. */
  function WithRoleId(n: CrewSeats.CrewSeatNode, bindings: seq<CrewRoleBinding>): CrewSeats.CrewSeatNode {
    if !CrewSeats.Present(n) || OrEmpty(n.roleId) != "" then n
    else
      var id := RoleIdFor(bindings, CrewSeats.AccountKey(n));
      if id.Some? && id.value != "" then n.(roleId := id) else n
  }

  function Layered(nodes: seq<CrewSeats.CrewSeatNode>, bindings: seq<CrewRoleBinding>): seq<CrewSeats.CrewSeatNode> {
    seq(|nodes|, i requires 0 <= i < |nodes| => WithRoleId(nodes[i], bindings))
  }

  /** Binding k is the first that names the node's account, compared trimmed and in lower case. */
  predicate FirstOf(bindings: seq<CrewRoleBinding>, k: int, n: CrewSeats.CrewSeatNode)
    requires CrewSeats.Present(n)
  {
    && 0 <= k < |bindings| && bindings[k].account == Lower(Trim(n.account.value))
    && forall j :: 0 <= j < k ==> bindings[j].account != Lower(Trim(n.account.value))
  }

  predicate NoneOf(bindings: seq<CrewRoleBinding>, n: CrewSeats.CrewSeatNode)
    requires CrewSeats.Present(n)
  {
    forall j :: 0 <= j < |bindings| ==> bindings[j].account != Lower(Trim(n.account.value))
  }

  lemma {:induction false} RoleIdForIs(bindings: seq<CrewRoleBinding>, n: CrewSeats.CrewSeatNode, k: int)
    requires CrewSeats.Present(n)
    ensures FirstOf(bindings, k, n) ==> RoleIdFor(bindings, Lower(Trim(n.account.value))) == Some(bindings[k].roleId)
    ensures NoneOf(bindings, n) ==> RoleIdFor(bindings, Lower(Trim(n.account.value))).None?
  {
    if bindings != [] {
      RoleIdForIs(bindings[1..], n, k - 1);
      if k > 0 && FirstOf(bindings, k, n) { assert bindings[1..][k - 1] == bindings[k]; }
    }
  }

  /** A node with an id, without an account or with one nobody bound is served as it came; any other gets the first binding's role. */
  ghost predicate ServedAs(n: CrewSeats.CrewSeatNode, served: CrewSeats.CrewSeatNode, bindings: seq<CrewRoleBinding>) {
    if !CrewSeats.Present(n) || OrEmpty(n.roleId) != "" || NoneOf(bindings, n) then served == n
    else exists k :: FirstOf(bindings, k, n)
                     && served == n.(roleId := if bindings[k].roleId != "" then Some(bindings[k].roleId) else n.roleId)
  }

  lemma {:induction false} SomeFirst(bindings: seq<CrewRoleBinding>, n: CrewSeats.CrewSeatNode) returns (k: nat)
    requires CrewSeats.Present(n) && !NoneOf(bindings, n)
    ensures FirstOf(bindings, k, n)
  {
    if bindings[0].account == Lower(Trim(n.account.value)) {
      k := 0;
    } else {
      assert !NoneOf(bindings[1..], n) by {
        var j :| 0 <= j < |bindings| && bindings[j].account == Lower(Trim(n.account.value));
        assert bindings[1..][j - 1] == bindings[j];
      }
      var rest := SomeFirst(bindings[1..], n);
      k := rest + 1;
    }
  }

  lemma WithRoleIdServes(n: CrewSeats.CrewSeatNode, bindings: seq<CrewRoleBinding>)
    ensures ServedAs(n, WithRoleId(n, bindings), bindings)
  {
    if CrewSeats.Present(n) {
      RoleIdForIs(bindings, n, 0);
      if !NoneOf(bindings, n) {
        var k := SomeFirst(bindings, n);
        RoleIdForIs(bindings, n, k);
      }
    }
  }

  method ApplyCrewRoleIds(nodes: seq<CrewSeats.CrewSeatNode>, bindings: seq<CrewRoleBinding>) returns (out: seq<CrewSeats.CrewSeatNode>)
    ensures out == Layered(nodes, bindings)
    ensures |out| == |nodes| && forall i :: 0 <= i < |nodes| ==> ServedAs(nodes[i], out[i], bindings)
  {
    forall i | 0 <= i < |nodes| ensures ServedAs(nodes[i], Layered(nodes, bindings)[i], bindings) {
      WithRoleIdServes(nodes[i], bindings);
    }
    if |bindings| == 0 {
      assert Layered(nodes, bindings) == nodes;
      return nodes;
    }
    var byAccount: map<string, string> := map[];
    for i := 0 to |bindings|
      invariant forall a :: a in byAccount <==> RoleIdFor(bindings[..i], a).Some?
      invariant forall a :: a in byAccount ==> RoleIdFor(bindings[..i], a) == Some(byAccount[a])
    {
      forall a { RoleIdForSnoc(bindings[..i], bindings[i], a); }
      assert bindings[..i + 1] == bindings[..i] + [bindings[i]];
      if bindings[i].account !in byAccount {
        byAccount := byAccount[bindings[i].account := bindings[i].roleId];
      }
    }
    assert bindings[..|bindings|] == bindings;
    out := [];
    for i := 0 to |nodes|
      invariant out == Layered(nodes, bindings)[..i]
    {
      var node := nodes[i];
      var served := node;
      if CrewSeats.Present(node) && OrEmpty(node.roleId) == "" {
        var account := CrewSeats.AccountKey(node);
        if account in byAccount && byAccount[account] != "" { served := node.(roleId := Some(byAccount[account])); }
      }
      assert served == Layered(nodes, bindings)[i];
      out := out + [served];
    }
  }

  lemma {:induction false} RoleIdForSnoc(bindings: seq<CrewRoleBinding>, last: CrewRoleBinding, account: string)
    ensures RoleIdFor(bindings + [last], account) ==
              if RoleIdFor(bindings, account).Some? then RoleIdFor(bindings, account)
              else if last.account == account then Some(last.roleId) else None
  {
    if bindings == [] {
      assert bindings + [last] == [last] && [last][1..] == [];
    } else {
      assert (bindings + [last])[1..] == bindings[1..] + [last];
      RoleIdForSnoc(bindings[1..], last, account);
    }
  }
}
