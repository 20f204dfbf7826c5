/**
 What a cron expression matches (`packages/flows/src/cron.ts`), hand by hand: the five hands of the
 clock against the terms their fields are written with, without the sets the parser builds.
 */
module CronClock {
  import opened Maybe
  import opened Text
  import opened Cron

  function StepOf(t: Term): nat
    requires WellFormed(t)
  {
    match t.step case None => 1 case Some(step) => ToNat(step)
  }

  predicate ByStep(lo: int, hi: int, step: nat, v: int) {
    step >= 1 && lo <= v <= hi && (v - lo) % step == 0
  }

  /** The numbers a term is written with lie in the field's range, in order, and its step is not zero. */
  predicate Legal(t: Term, range: FieldRange) {
    && WellFormed(t) && StepOf(t) >= 1
    && match t.body
       case Star => true
       case One(at) => range.min <= ToNat(at) <= range.max
       case Span(from, to) => range.min <= ToNat(from) <= ToNat(to) <= range.max
  }

  predicate Covers(t: Term, range: FieldRange, v: int) {
    WellFormed(t) &&
    match t.body
    case Star => ByStep(range.min, range.max, StepOf(t), v)
    case One(at) => if t.step.None? then v == ToNat(at) else ByStep(ToNat(at), range.max, StepOf(t), v)
    case Span(from, to) => ByStep(ToNat(from), ToNat(to), StepOf(t), v)
  }

  /** The hands in the order of the fields. */
  function Hand(at: ZonedParts, i: nat): int
    requires i < 5
  {
    if i == 0 then at.minute else if i == 1 then at.hour else if i == 2 then at.day else if i == 3 then at.month else at.weekday
  }

  /** A term of field i covers what the hand shows; on the last field Sunday is 0 and may be written 7. */
  predicate CoversHand(t: Term, i: nat, v: int)
    requires i < 5
  {
    if i == 4 then 0 <= v <= 6 && (Covers(t, FIELDS[4], v) || (v == 0 && Covers(t, FIELDS[4], 7)))
    else Covers(t, FIELDS[i], v)
  }

  ghost predicate SomeCovers(terms: seq<Term>, i: nat, v: int)
    requires i < 5
  {
    exists k :: 0 <= k < |terms| && CoversHand(terms[k], i, v)
  }

  ghost predicate WrittenWith(raw: string, terms: seq<Term>, i: nat)
    requires i < 5
  {
    |terms| >= 1 && raw == Join(TermTexts(terms), ',') && forall k :: 0 <= k < |terms| ==> Legal(terms[k], FIELDS[i])
  }

  /** The text of field i is a comma list of legal terms, one of which covers what the hand shows. */
  ghost predicate FieldShows(raw: string, i: nat, v: int)
    requires i < 5
  {
    exists terms :: WrittenWith(raw, terms, i) && SomeCovers(terms, i, v)
  }

  /** The expression is five fields, and every one of them shows its hand of the clock. */
  ghost predicate ShowsClock(expr: string, at: ZonedParts) {
    exists l :: LaysOut(l, expr) && forall i :: 0 <= i < 5 ==> FieldShows(l.fields[i], i, Hand(at, i))
  }

  // ---------- terms and what the parser makes of them ----------

  lemma {:induction false} MulGrows(d: nat, k: nat)
    requires k >= 1
    ensures d * k >= d
  {
    if k > 1 {
      MulGrows(d, k - 1);
      assert d * k == d * (k - 1) + d;
    }
  }

  lemma NonzeroMultiple(d: nat, k: int)
    requires k != 0
    ensures d * k >= d || d * k <= 0 - d
  {
    if k >= 1 {
      MulGrows(d, k);
    } else {
      MulGrows(d, -k);
      assert d * k == 0 - d * (-k);
    }
  }

  lemma SameRemainder(d: nat, p: int, r: int, q: int, s: int)
    requires d >= 1 && d * p + r == d * q + s && 0 <= r < d && 0 <= s < d
    ensures r == s
  {
    assert d * (p - q) == d * p - d * q;
    if p != q { NonzeroMultiple(d, p - q); }
  }

  lemma DivModUnique(x: int, d: nat, q: int, r: int)
    requires d >= 1 && x == d * q + r && 0 <= r < d
    ensures x % d == r
  {
    SameRemainder(d, x / d, x % d, q, r);
  }

  lemma ModStep(x: int, d: nat)
    requires d >= 1
    ensures (x - d) % d == x % d
  {
    var q := x / d;
    assert x - d == d * (q - 1) + x % d;
    DivModUnique(x - d, d, q - 1, x % d);
  }

  lemma {:induction false} ReachedByStep(lo: int, v: int, step: nat)
    requires step >= 1
    ensures Reached(lo, v, step) <==> v >= lo && (v - lo) % step == 0
    decreases v - lo
  {
    if v - lo >= step {
      ReachedByStep(lo, v - step, step);
      ModStep(v - lo, step);
    } else if v >= lo {
      DivModUnique(v - lo, step, 0, v - lo);
    }
  }

  lemma LegalIsAdmissible(t: Term, range: FieldRange)
    requires range.min <= range.max
    ensures Legal(t, range) <==> Admissible(t, range)
  {
  }

  lemma CoversIsHit(t: Term, range: FieldRange, v: int)
    requires Admissible(t, range)
    ensures Covers(t, range, v) <==> Hits(Reach(t, range), v)
  {
    ReachedByStep(Reach(t, range).lo, v, Reach(t, range).step);
  }

  lemma CoversHandIsGiven(t: Term, i: nat, w: int)
    requires i < 5 && Admissible(t, FIELDS[i])
    ensures CoversHand(t, i, w) <==> exists v :: TermGives(t, FIELDS[i], v, w)
  {
    var range := FIELDS[i];
    CoversIsHit(t, range, w);
    CoversIsHit(t, range, 7);
    if CoversHand(t, i, w) {
      assert TermGives(t, range, w, w) || TermGives(t, range, 7, w);
    }
    if v :| TermGives(t, range, v, w) {
      CoversIsHit(t, range, v);
    }
  }

  lemma AllCoverAsGiven(terms: seq<Term>, i: nat, w: int)
    requires i < 5 && forall k :: 0 <= k < |terms| ==> Admissible(terms[k], FIELDS[i])
    ensures SomeCovers(terms, i, w) <==> exists k, v :: 0 <= k < |terms| && TermGives(terms[k], FIELDS[i], v, w)
  {
    forall k | 0 <= k < |terms| ensures CoversHand(terms[k], i, w) <==> exists v :: TermGives(terms[k], FIELDS[i], v, w) {
      CoversHandIsGiven(terms[k], i, w);
    }
    if k, v :| 0 <= k < |terms| && TermGives(terms[k], FIELDS[i], v, w) {
      assert CoversHand(terms[k], i, w);
    }
  }

  lemma WrittenFieldParses(raw: string, terms: seq<Term>, i: nat)
    requires i < 5 && WrittenWith(raw, terms, i)
    ensures FieldValues(raw, FIELDS[i]).Some? && Means(terms, FIELDS[i], FieldValues(raw, FIELDS[i]).value)
  {
    var range := FIELDS[i];
    forall k | 0 <= k < |terms| ensures Admissible(terms[k], range) { LegalIsAdmissible(terms[k], range); }
    TermTextsRead(terms, range);
    SplitJoin(TermTexts(terms), ',');
    SameGives(TermTexts(terms), terms, range);
    ValuesAreMeant(TermTexts(terms), terms, range);
  }

  lemma FieldShowsItsValues(raw: string, i: nat, v: int)
    requires i < 5
    ensures FieldShows(raw, i, v) <==> FieldValues(raw, FIELDS[i]).Some? && v in FieldValues(raw, FIELDS[i]).value
  {
    var range := FIELDS[i];
    if FieldShows(raw, i, v) {
      var terms :| WrittenWith(raw, terms, i) && SomeCovers(terms, i, v);
      WrittenFieldParses(raw, terms, i);
      AllCoverAsGiven(terms, i, v);
    }
    if FieldValues(raw, range).Some? && v in FieldValues(raw, range).value {
      ParsedFieldIsText(raw, range);
      var terms :| |terms| >= 1 && raw == Join(TermTexts(terms), ',') && Means(terms, range, FieldValues(raw, range).value);
      forall k | 0 <= k < |terms| ensures Legal(terms[k], range) { LegalIsAdmissible(terms[k], range); }
      AllCoverAsGiven(terms, i, v);
      assert WrittenWith(raw, terms, i);
    }
  }

  // ---------- the match, hand by hand ----------

  lemma FiresByHand(sets: seq<set<int>>, at: ZonedParts)
    requires |sets| == 5
    ensures Fires(sets, at) <==> forall i :: 0 <= i < 5 ==> Hand(at, i) in sets[i]
  {
    if forall i :: 0 <= i < 5 ==> Hand(at, i) in sets[i] {
      assert Hand(at, 0) in sets[0] && Hand(at, 1) in sets[1] && Hand(at, 2) in sets[2] && Hand(at, 3) in sets[3] && Hand(at, 4) in sets[4];
    }
  }

  lemma FieldsShow(fields: seq<string>, at: ZonedParts)
    requires |fields| == 5
    ensures (forall i :: 0 <= i < 5 ==> FieldShows(fields[i], i, Hand(at, i))) <==>
              forall i :: 0 <= i < 5 ==>
                FieldValues(fields[i], FIELDS[i]).Some? && Hand(at, i) in FieldValues(fields[i], FIELDS[i]).value
  {
    forall i | 0 <= i < 5
      ensures FieldShows(fields[i], i, Hand(at, i)) <==>
                FieldValues(fields[i], FIELDS[i]).Some? && Hand(at, i) in FieldValues(fields[i], FIELDS[i]).value
    {
      FieldShowsItsValues(fields[i], i, Hand(at, i));
    }
  }

  lemma ShownIsMatched(expr: string, t: int, zone: Zone, l: Layout)
    requires LaysOut(l, expr) && forall i :: 0 <= i < 5 ==> FieldShows(l.fields[i], i, Hand(zone(t), i))
    ensures CronMatchesInZone(expr, t, zone)
  {
    LayoutSplits(l, expr);
    FieldsShow(l.fields, zone(t));
    FiresByHand(CronSets(expr).value, zone(t));
  }

  lemma MatchedIsShown(expr: string, t: int, zone: Zone)
    requires CronMatchesInZone(expr, t, zone)
    ensures ShowsClock(expr, zone(t))
  {
    var l := SplitsLayOut(expr);
    FiresByHand(CronSets(expr).value, zone(t));
    assert forall i :: 0 <= i < 5 ==> CronSets(expr).value[i] == FieldValues(l.fields[i], FIELDS[i]).value;
    FieldsShow(l.fields, zone(t));
  }

  /** An expression matches a minute exactly when it is five fields and each of them shows its hand of the zone's clock. */
  lemma MatchesHandByHand(expr: string, t: int, zone: Zone)
    ensures CronMatchesInZone(expr, t, zone) <==> ShowsClock(expr, zone(t))
  {
    if CronMatchesInZone(expr, t, zone) { MatchedIsShown(expr, t, zone); }
    if ShowsClock(expr, zone(t)) {
      var l :| LaysOut(l, expr) && forall i :: 0 <= i < 5 ==> FieldShows(l.fields[i], i, Hand(zone(t), i));
      ShownIsMatched(expr, t, zone, l);
    }
  }

  /** One hand that its field does not show is enough for no match, the day of the month and the day of the week alike. */
  lemma OneHandForbids(expr: string, t: int, zone: Zone, l: Layout, i: nat)
    requires LaysOut(l, expr) && i < 5 && !FieldShows(l.fields[i], i, Hand(zone(t), i))
    ensures !CronMatchesInZone(expr, t, zone)
  {
    MatchesHandByHand(expr, t, zone);
    if ShowsClock(expr, zone(t)) {
      var m :| LaysOut(m, expr) && forall j :: 0 <= j < 5 ==> FieldShows(m.fields[j], j, Hand(zone(t), j));
      LayoutSplits(l, expr);
      LayoutSplits(m, expr);
    }
  }

  /** The parser's sets hold only what the hands of a clock can show. */
  lemma SetsFitTheClock(expr: string, i: nat, v: int)
    requires CronSets(expr).Some? && i < 5 && v in CronSets(expr).value[i]
    ensures match i
            case 0 => 0 <= v <= 59
            case 1 => 0 <= v <= 23
            case 2 => 1 <= v <= 31
            case 3 => 1 <= v <= 12
            case _ => 0 <= v <= 6
  {
    var raw := SplitSpaces(Trim(expr))[i];
    FieldShowsItsValues(raw, i, v);
    var terms :| WrittenWith(raw, terms, i) && SomeCovers(terms, i, v);
    var k :| 0 <= k < |terms| && CoversHand(terms[k], i, v);
    assert Legal(terms[k], FIELDS[i]);
  }
}
