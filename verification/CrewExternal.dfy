/**
 Seats in sibling crews (`packages/flows/src/crewExternal.ts`): a reference binds only when exactly one
 candidate could be meant, so more candidates can unbind it but never point it elsewhere.
 */
module CrewExternal {
  import opened Maybe
  import opened Text
  import CrewSeats
  import CrewBindings

  datatype CrewExternalSeat = CrewExternalSeat(id: string, crewBlueprintId: Option<string>, roleId: string)

  datatype CrewExternalCandidate = CrewExternalCandidate(
    roleId: string,
    account: string,
    blueprintId: Option<string>,
    crewId: Option<string>
  )

  datatype CrewExternalBinding = CrewExternalBinding(ref: string, account: string, crewId: Option<string>, blueprintId: Option<string>)

  datatype CrewExternalResolution = CrewExternalResolution(
    external: map<string, string>,
    bindings: seq<CrewExternalBinding>,
    missing: seq<string>,
    ambiguous: seq<string>
  )

  predicate Candidate(seat: CrewExternalSeat, c: CrewExternalCandidate) {
    && Trim(c.roleId) == seat.roleId
    && Trim(c.account) != ""
    && (OrEmpty(seat.crewBlueprintId) != "" ==> c.blueprintId.Some? && Trim(c.blueprintId.value) == OrEmpty(seat.crewBlueprintId))
  }

  /** The operator's pick of a crew for a reference, if one was made. */
  function Chosen(choices: map<string, string>, id: string): string {
    if id in choices then Trim(choices[id]) else ""
  }

  function ExternalSeatCandidates(seat: CrewExternalSeat, candidates: seq<CrewExternalCandidate>): seq<CrewExternalCandidate> {
    if candidates == [] then []
    else (if Candidate(seat, candidates[0]) then [candidates[0]] else []) + ExternalSeatCandidates(seat, candidates[1..])
  }

  function OfCrew(candidates: seq<CrewExternalCandidate>, crew: string): seq<CrewExternalCandidate> {
    if candidates == [] then []
    else (if candidates[0].crewId.Some? && Trim(candidates[0].crewId.value) == crew then [candidates[0]] else [])
         + OfCrew(candidates[1..], crew)
  }

  function Pool(seat: CrewExternalSeat, candidates: seq<CrewExternalCandidate>, choices: map<string, string>): seq<CrewExternalCandidate> {
    var all := ExternalSeatCandidates(seat, candidates);
    if Chosen(choices, seat.id) != "" then OfCrew(all, Chosen(choices, seat.id)) else all
  }

  function BindingOf(ref: string, hit: CrewExternalCandidate): CrewExternalBinding {
    CrewExternalBinding(ref, Trim(hit.account), CrewBindings.Kept(hit.crewId), CrewBindings.Kept(hit.blueprintId))
  }

  function Bind(r: CrewExternalResolution, seat: CrewExternalSeat, hit: CrewExternalCandidate): CrewExternalResolution {
    r.(external := r.external[seat.id := Trim(hit.account)],
       bindings := r.bindings + [BindingOf(seat.id, hit)])
  }

  /** The resolution before its lists are sorted. */
  function Drafted(seats: seq<CrewExternalSeat>, candidates: seq<CrewExternalCandidate>, choices: map<string, string>): CrewExternalResolution {
    if seats == [] then CrewExternalResolution(map[], [], [], [])
    else
      var r, seat := Drafted(seats[..|seats| - 1], candidates, choices), seats[|seats| - 1];
      var pool := Pool(seat, candidates, choices);
      if |pool| > 1 then r.(ambiguous := r.ambiguous + [seat.id], missing := r.missing + [seat.id])
      else if |pool| == 0 then r.(missing := r.missing + [seat.id])
      else Bind(r, seat, pool[0])
  }

  function Resolved(seats: seq<CrewExternalSeat>, candidates: seq<CrewExternalCandidate>, choices: map<string, string>): CrewExternalResolution {
    var r := Drafted(seats, candidates, choices);
    r.(missing := Sort(r.missing), ambiguous := Sort(r.ambiguous))
  }

  method ResolveExternalSeats(seats: seq<CrewExternalSeat>, candidates: seq<CrewExternalCandidate>, choices: map<string, string>)
    returns (r: CrewExternalResolution)
    ensures r == Resolved(seats, candidates, choices)
  {
    var external: map<string, string> := map[];
    var bindings: seq<CrewExternalBinding> := [];
    var missing: seq<string> := [];
    var ambiguous: seq<string> := [];
    for i := 0 to |seats|
      invariant CrewExternalResolution(external, bindings, missing, ambiguous) == Drafted(seats[..i], candidates, choices)
    {
      var seat := seats[i];
      assert seats[..i + 1][..i] == seats[..i];
      var all := ExternalSeatCandidates(seat, candidates);
      var chosen := Chosen(choices, seat.id);
      var pool := if chosen != "" then OfCrew(all, chosen) else all;
      if |pool| > 1 {
        ambiguous := ambiguous + [seat.id];
        missing := missing + [seat.id];
        continue;
      }
      if |pool| == 0 {
        missing := missing + [seat.id];
        continue;
      }
      var account := Trim(pool[0].account);
      external := external[seat.id := account];
      bindings := bindings + [BindingOf(seat.id, pool[0])];
    }
    assert seats[..|seats|] == seats;
    r := CrewExternalResolution(external, bindings, Sort(missing), Sort(ambiguous));
  }

  // ---------- the pool is exactly who could be meant ----------

  lemma {:induction false} CandidateCounts(seat: CrewExternalSeat, candidates: seq<CrewExternalCandidate>, c: CrewExternalCandidate)
    ensures multiset(ExternalSeatCandidates(seat, candidates))[c] == if Candidate(seat, c) then multiset(candidates)[c] else 0
  {
    if candidates != [] {
      assert candidates == [candidates[0]] + candidates[1..];
      CandidateCounts(seat, candidates[1..], c);
    }
  }

  lemma {:induction false} CrewCounts(candidates: seq<CrewExternalCandidate>, crew: string, c: CrewExternalCandidate)
    ensures multiset(OfCrew(candidates, crew))[c]
              == if c.crewId.Some? && Trim(c.crewId.value) == crew then multiset(candidates)[c] else 0
  {
    if candidates != [] {
      assert candidates == [candidates[0]] + candidates[1..];
      CrewCounts(candidates[1..], crew, c);
    }
  }

  /** The text, trimmed, is exactly this. */
  predicate Reads(text: Option<string>, expected: string) {
    text.Some? && Trim(text.value) == expected
  }

  /**
   The candidate holds the seat's role, has an account, comes from the blueprint the seat names, if any, and
   from the crew the operator chose, if one was.
   */
  predicate CouldBeMeant(seat: CrewExternalSeat, choices: map<string, string>, c: CrewExternalCandidate) {
    && Trim(c.roleId) == seat.roleId && Trim(c.account) != ""
    && (seat.crewBlueprintId.Some? && seat.crewBlueprintId.value != "" ==> Reads(c.blueprintId, seat.crewBlueprintId.value))
    && (seat.id in choices && Trim(choices[seat.id]) != "" ==> Reads(c.crewId, Trim(choices[seat.id])))
  }

  /** The pool holds each candidate that could be meant as often as it was served, and nobody else. */
  lemma PoolCounts(seat: CrewExternalSeat, candidates: seq<CrewExternalCandidate>, choices: map<string, string>, c: CrewExternalCandidate)
    ensures multiset(Pool(seat, candidates, choices))[c] == if CouldBeMeant(seat, choices, c) then multiset(candidates)[c] else 0
  {
    CandidateCounts(seat, candidates, c);
    CrewCounts(ExternalSeatCandidates(seat, candidates), Chosen(choices, seat.id), c);
  }

  // ---------- what each reference gets ----------

  predicate DistinctRefs(seats: seq<CrewExternalSeat>) {
    forall i, j :: 0 <= i < j < |seats| ==> seats[i].id != seats[j].id
  }

  function Ids(seats: seq<CrewExternalSeat>): seq<string> {
    seq(|seats|, i requires 0 <= i < |seats| => seats[i].id)
  }

  /** Only references of the blueprint are reported. */
  lemma {:induction false} OnlyDeclaredRefs(
    seats: seq<CrewExternalSeat>, candidates: seq<CrewExternalCandidate>, choices: map<string, string>, id: string)
    requires id !in Ids(seats)
    ensures var r := Drafted(seats, candidates, choices);
            id !in r.external && id !in r.missing && id !in r.ambiguous
  {
    if seats != [] {
      var init := seats[..|seats| - 1];
      assert Ids(seats) == Ids(init) + [seats[|seats| - 1].id];
      OnlyDeclaredRefs(init, candidates, choices, id);
    }
  }

  /** The binding names the reference, the hit's account, and its crew and blueprint unless blank, all trimmed. */
  predicate ReportsHit(b: CrewExternalBinding, ref: string, hit: CrewExternalCandidate) {
    && b.ref == ref && b.account == Trim(hit.account)
    && CrewBindings.StoredAs(hit.crewId, b.crewId) && CrewBindings.StoredAs(hit.blueprintId, b.blueprintId)
  }

  lemma BindingReports(ref: string, hit: CrewExternalCandidate)
    ensures ReportsHit(BindingOf(ref, hit), ref, hit)
  {
    assert Trim("") == "";
  }

  /** Whether the reference is bound, and to whom, is decided by its pool alone. */
  ghost predicate Decided(r: CrewExternalResolution, id: string, pool: seq<CrewExternalCandidate>) {
    && (id in r.external <==> |pool| == 1)
    && (|pool| == 1 ==>
          && r.external[id] == Trim(pool[0].account)
          && (exists b :: b in r.bindings && ReportsHit(b, id, pool[0])))
    && (id in r.missing <==> |pool| != 1)
    && (id in r.ambiguous <==> |pool| > 1)
  }

  lemma LastDecided(seats: seq<CrewExternalSeat>, candidates: seq<CrewExternalCandidate>, choices: map<string, string>)
    requires DistinctRefs(seats) && |seats| > 0
    ensures var last := seats[|seats| - 1];
            Decided(Drafted(seats, candidates, choices), last.id, Pool(last, candidates, choices))
  {
    var init, last := seats[..|seats| - 1], seats[|seats| - 1];
    assert last.id !in Ids(init) by {
      forall k | 0 <= k < |init| ensures Ids(init)[k] != last.id { assert init[k] == seats[k]; }
    }
    OnlyDeclaredRefs(init, candidates, choices, last.id);
    var before, pool := Drafted(init, candidates, choices), Pool(last, candidates, choices);
    if |pool| == 1 {
      assert Drafted(seats, candidates, choices) == Bind(before, last, pool[0]);
      BindingReports(last.id, pool[0]);
      assert Bind(before, last, pool[0]).bindings[|before.bindings|] == BindingOf(last.id, pool[0]);
    }
  }

  lemma {:induction false} DraftDecides(
    seats: seq<CrewExternalSeat>, candidates: seq<CrewExternalCandidate>, choices: map<string, string>, i: nat)
    requires DistinctRefs(seats) && i < |seats|
    ensures Decided(Drafted(seats, candidates, choices), seats[i].id, Pool(seats[i], candidates, choices))
    decreases |seats|
  {
    if i + 1 == |seats| {
      LastDecided(seats, candidates, choices);
    } else {
      assert seats[..|seats| - 1][i] == seats[i] && seats[i].id != seats[|seats| - 1].id;
      DraftDecides(seats[..|seats| - 1], candidates, choices, i);
    }
  }

  /** A reference is bound exactly when one candidate could be meant, missing otherwise, and ambiguous exactly when several could. */
  lemma BoundOnlyWhenSure(
    seats: seq<CrewExternalSeat>, candidates: seq<CrewExternalCandidate>, choices: map<string, string>, i: nat)
    requires DistinctRefs(seats) && i < |seats|
    ensures Decided(Resolved(seats, candidates, choices), seats[i].id, Pool(seats[i], candidates, choices))
  {
    DraftDecides(seats, candidates, choices, i);
    var r := Drafted(seats, candidates, choices);
    CrewSeats.SortKeepsMembers(r.missing);
    CrewSeats.SortKeepsMembers(r.ambiguous);
  }

  /** Every reference is reported once: bound or missing. */
  lemma {:induction false} RefsCounted(seats: seq<CrewExternalSeat>, candidates: seq<CrewExternalCandidate>, choices: map<string, string>)
    ensures var r := Resolved(seats, candidates, choices);
            |r.bindings| + |r.missing| == |seats| && |r.ambiguous| <= |r.missing| && Ascending(r.missing) && Ascending(r.ambiguous)
  {
    if seats != [] { RefsCounted(seats[..|seats| - 1], candidates, choices); }
    var r := Drafted(seats, candidates, choices);
    assert |multiset(Sort(r.missing))| == |multiset(r.missing)| && |multiset(Sort(r.ambiguous))| == |multiset(r.ambiguous)|;
  }

  lemma PoolGrows(
    seat: CrewExternalSeat, fewer: seq<CrewExternalCandidate>, more: seq<CrewExternalCandidate>, choices: map<string, string>)
    requires multiset(fewer) <= multiset(more)
    ensures multiset(Pool(seat, fewer, choices)) <= multiset(Pool(seat, more, choices))
  {
    forall c ensures multiset(Pool(seat, fewer, choices))[c] <= multiset(Pool(seat, more, choices))[c] {
      PoolCounts(seat, fewer, choices, c);
      PoolCounts(seat, more, choices, c);
    }
  }

  lemma SingletonInside(a: seq<CrewExternalCandidate>, b: seq<CrewExternalCandidate>)
    requires multiset(a) <= multiset(b) && |a| == 1 && |b| <= 1
    ensures a == b
  {
  }

  /** Serving more candidates, in any order, may unbind a bound reference but never binds it to another account. */
  lemma NeverRetargets(
    seats: seq<CrewExternalSeat>, fewer: seq<CrewExternalCandidate>, more: seq<CrewExternalCandidate>,
    choices: map<string, string>, i: nat)
    requires DistinctRefs(seats) && i < |seats| && multiset(fewer) <= multiset(more)
    ensures var id, before, after := seats[i].id, Resolved(seats, fewer, choices).external, Resolved(seats, more, choices).external;
            id in before && id in after ==> before[id] == after[id]
    ensures var id := seats[i].id;
            id in Resolved(seats, fewer, choices).external && id !in Resolved(seats, more, choices).external ==>
              id in Resolved(seats, more, choices).ambiguous
  {
    BoundOnlyWhenSure(seats, fewer, choices, i);
    BoundOnlyWhenSure(seats, more, choices, i);
    PoolGrows(seats[i], fewer, more, choices);
    var a, b := Pool(seats[i], fewer, choices), Pool(seats[i], more, choices);
    if |a| == 1 {
      assert a[0] in multiset(b);
      if |b| == 1 { SingletonInside(a, b); }
    }
  }
}
