/**
 The five-field cron matcher of `packages/flows/src/cron.ts`: the parser against a grammar and its
 meaning, the matcher, and the smallest gap between two firing minutes.
 */
module Cron {
  import opened Maybe
  import opened Text

  // ---------- one field ----------

  datatype FieldRange = FieldRange(min: nat, max: nat)

  /** Minute, hour, day of month, month, day of week (where 7 is Sunday, like 0). */
  const FIELDS: seq<FieldRange> := [
    FieldRange(0, 59), FieldRange(0, 23), FieldRange(1, 31), FieldRange(1, 12), FieldRange(0, 7)
  ]

  /** The stepped range lo, lo + step, lo + 2*step, ... up to hi. */
  datatype Steps = Steps(lo: nat, hi: nat, step: nat)

  /** `v` is reached from `lo` by whole steps. */
  predicate Reached(lo: int, v: int, step: nat)
    decreases v - lo
  {
    v == lo || (step >= 1 && v - step >= lo && Reached(lo, v - step, step))
  }

  predicate Hits(s: Steps, v: int) {
    s.lo <= v <= s.hi && Reached(s.lo, v, s.step)
  }

  function Fold(v: int, range: FieldRange): int {
    if v == 7 && range.max == 7 then 0 else v
  }

  /** Bounds of the part before the slash; a bare number with a step runs to the end of the range. */
  function ReadBody(body: string, stepped: bool, range: FieldRange): Option<(nat, nat)> {
    if body == "*" then Some((range.min, range.max))
    else if IsNumeral(body) then
      Some((ToNat(body), if stepped then range.max else ToNat(body)))
    else
      var ends := Split(body, '-');
      if |ends| == 2 && IsNumeral(ends[0]) && IsNumeral(ends[1])
      then Some((ToNat(ends[0]), ToNat(ends[1])))
      else None
  }

  /** One comma-separated part. Whatever follows a second slash is not looked at. */
  function ReadPart(part: string, range: FieldRange): Option<Steps> {
    var pieces := Split(part, '/');
    var stepped := |pieces| > 1;
    if pieces[0] == "" || (stepped && !IsNumeral(pieces[1])) then None
    else
      var step := if stepped then ToNat(pieces[1]) else 1;
      if step < 1 then None
      else
        match ReadBody(pieces[0], stepped, range)
        case None => None
        case Some((lo, hi)) =>
          if lo < range.min || hi > range.max || lo > hi then None else Some(Steps(lo, hi, step))
  }

  ghost function StepValues(s: Steps, range: FieldRange): set<int> {
    set v | s.lo <= v <= s.hi && Hits(s, v) :: Fold(v, range)
  }

  /** The union over the first k parts. */
  ghost function ValuesOf(parts: seq<string>, k: nat, range: FieldRange): set<int>
    requires k <= |parts| && forall i :: 0 <= i < k ==> ReadPart(parts[i], range).Some?
  {
    if k == 0 then {} else ValuesOf(parts, k - 1, range) + StepValues(ReadPart(parts[k - 1], range).value, range)
  }

  /** The field's value set, or None when any part is malformed. */
  ghost function FieldValues(raw: string, range: FieldRange): Option<set<int>> {
    var parts := Split(raw, ',');
    if forall i :: 0 <= i < |parts| ==> ReadPart(parts[i], range).Some?
    then Some(ValuesOf(parts, |parts|, range))
    else None
  }

  ghost predicate PartGives(part: string, range: FieldRange, v: int, w: int) {
    ReadPart(part, range).Some? && Hits(ReadPart(part, range).value, v) && w == Fold(v, range)
  }

  lemma StepValuesHas(part: string, range: FieldRange, w: int)
    requires ReadPart(part, range).Some?
    ensures w in StepValues(ReadPart(part, range).value, range) <==> exists v :: PartGives(part, range, v, w)
  {
    var s := ReadPart(part, range).value;
    if w in StepValues(s, range) {
      var v :| s.lo <= v <= s.hi && Hits(s, v) && w == Fold(v, range);
      assert PartGives(part, range, v, w);
    }
  }

  lemma {:induction false} ValuesOfHas(parts: seq<string>, k: nat, range: FieldRange, w: int)
    requires k <= |parts| && forall i :: 0 <= i < k ==> ReadPart(parts[i], range).Some?
    ensures w in ValuesOf(parts, k, range) <==> exists i, v :: 0 <= i < k && PartGives(parts[i], range, v, w)
  {
    if k > 0 {
      ValuesOfHas(parts, k - 1, range, w);
      StepValuesHas(parts[k - 1], range, w);
      if i, v :| 0 <= i < k && PartGives(parts[i], range, v, w) {
        assert i < k - 1 || PartGives(parts[k - 1], range, v, w);
      }
    }
  }

  lemma PartBounds(part: string, range: FieldRange)
    requires ReadPart(part, range).Some?
    ensures var s := ReadPart(part, range).value;
            range.min <= s.lo <= s.hi <= range.max && s.step >= 1 && Hits(s, s.lo)
  {
  }

  method ParseField(raw: string, range: FieldRange) returns (out: Option<set<int>>)
    ensures out == FieldValues(raw, range)
  {
    var values: set<int> := {};
    var parts := Split(raw, ',');
    for i := 0 to |parts|
      invariant forall j :: 0 <= j < i ==> ReadPart(parts[j], range).Some?
      invariant values == ValuesOf(parts, i, range)
    {
      match ReadPart(parts[i], range)
      case None => return None;
      case Some(s) =>
        values := AddSteps(values, s, range);
    }
    out := Some(values);
  }

  /** The inner loop: `for (let v = lo; v <= hi; v += step) out.add(...)`. */
  method AddSteps(values: set<int>, s: Steps, range: FieldRange) returns (out: set<int>)
    requires s.step >= 1 && s.lo <= s.hi
    ensures out == values + StepValues(s, range)
  {
    out := values;
    var v := s.lo;
    while v <= s.hi
      invariant v >= s.lo && Reached(s.lo, v, s.step)
      invariant out == values + set w | s.lo <= w <= s.hi && w < v && Hits(s, w) :: Fold(w, range)
      decreases s.hi - v
    {
      NoneBetween(s.lo, v, s.step);
      ghost var before := set w | s.lo <= w <= s.hi && w < v && Hits(s, w) :: Fold(w, range);
      ghost var after := set w | s.lo <= w <= s.hi && w < v + s.step && Hits(s, w) :: Fold(w, range);
      assert Hits(s, v);
      assert after == before + {Fold(v, range)};
      out := out + {Fold(v, range)};
      v := v + s.step;
    }
    assert StepValues(s, range) == set w | s.lo <= w <= s.hi && w < v && Hits(s, w) :: Fold(w, range);
  }

  /** From one reached value the next is a whole step away. */
  lemma {:induction false} NoneBetween(lo: int, v: int, step: nat)
    requires step >= 1 && v >= lo && Reached(lo, v, step)
    ensures forall w :: v < w < v + step ==> !Reached(lo, w, step)
    decreases v - lo
  {
    forall w | v < w < v + step ensures !Reached(lo, w, step) {
      if v != lo { NoneBetween(lo, v - step, step); }
    }
  }

  /** Every accepted field is non-empty and inside its bounds; a 7 survives only where 7 is not Sunday. */
  lemma FieldBounds(raw: string, range: FieldRange)
    requires FieldValues(raw, range).Some?
    ensures var out := FieldValues(raw, range).value;
            && out != {}
            && (forall v :: v in out ==> (range.min <= v || range.max == 7) && 0 <= v <= range.max)
            && (range.max == 7 ==> 7 !in out)
  {
    var parts := Split(raw, ',');
    assert ReadPart(parts[0], range).Some?;
    PartBounds(parts[0], range);
    var s := ReadPart(parts[0], range).value;
    var out := FieldValues(raw, range).value;
    assert PartGives(parts[0], range, s.lo, Fold(s.lo, range));
    ValuesOfHas(parts, |parts|, range, Fold(s.lo, range));
    forall w | w in out ensures 0 <= w <= range.max && (range.min <= w || range.max == 7) && !(w == 7 && range.max == 7) {
      ValuesOfHas(parts, |parts|, range, w);
      var i, v :| 0 <= i < |parts| && PartGives(parts[i], range, v, w);
      PartBounds(parts[i], range);
    }
  }

  // ---------- the grammar a field is written in ----------

  datatype Body = Star | One(at: string) | Span(from: string, to: string)

  /** A term as text: a body, an optional step, and anything after a second slash. */
  datatype Term = Term(body: Body, step: Option<string>, rest: string)

  function BodyText(b: Body): string {
    match b
    case Star => "*"
    case One(at) => at
    case Span(from, to) => from + ['-'] + to
  }

  function TermText(t: Term): string {
    BodyText(t.body) + (match t.step case None => "" case Some(step) => ['/'] + step + t.rest)
  }

  predicate WellFormed(t: Term) {
    && (match t.body case Star => true case One(at) => IsNumeral(at) case Span(from, to) => IsNumeral(from) && IsNumeral(to))
    && (match t.step
        case None => t.rest == ""
        case Some(step) => IsNumeral(step) && (t.rest != "" ==> t.rest[0] == '/') && Without(t.rest, ','))
  }

  /** What a term means: a whole range, one value, a value to the end, or a span, by its step. */
  function Reach(t: Term, range: FieldRange): Steps
    requires WellFormed(t)
  {
    var step := match t.step case None => 1 case Some(step) => ToNat(step);
    match t.body
    case Star => Steps(range.min, range.max, step)
    case One(at) => Steps(ToNat(at), if t.step.Some? then range.max else ToNat(at), step)
    case Span(from, to) => Steps(ToNat(from), ToNat(to), step)
  }

  predicate Admissible(t: Term, range: FieldRange) {
    WellFormed(t) &&
    var s := Reach(t, range);
    s.step >= 1 && range.min <= s.lo <= s.hi <= range.max
  }

  lemma NumeralWithout(s: string, c: char)
    requires IsNumeral(s) && !IsDigit(c)
    ensures Without(s, c)
  {
  }

  lemma SpanReads(from: string, to: string)
    requires IsNumeral(from) && IsNumeral(to)
    ensures var body := BodyText(Span(from, to));
            body != "*" && !IsNumeral(body) && Split(body, '-') == [from, to]
  {
    assert BodyText(Span(from, to))[|from|] == '-';
    NumeralWithout(from, '-');
    NumeralWithout(to, '-');
    SplitHead(from, to, '-');
    SplitHead(to, "", '-');
  }

  lemma BodyReads(t: Term, range: FieldRange)
    requires WellFormed(t)
    ensures BodyText(t.body) != "" && Without(BodyText(t.body), '/') && Without(BodyText(t.body), ',')
    ensures ReadBody(BodyText(t.body), t.step.Some?, range) == Some((Reach(t, range).lo, Reach(t, range).hi))
  {
    if t.body.Span? { SpanReads(t.body.from, t.body.to); }
  }

  /** The first two slash-separated pieces of a stepped term are its body and its step. */
  lemma SteppedSplits(body: string, step: string, rest: string)
    requires Without(body, '/') && IsNumeral(step) && (rest != "" ==> rest[0] == '/')
    ensures var pieces := Split(body + (['/'] + step + rest), '/');
            |pieces| > 1 && pieces[0] == body && pieces[1] == step
  {
    NumeralWithout(step, '/');
    assert body + (['/'] + step + rest) == body + ['/'] + (step + rest);
    SplitHead(body, step + rest, '/');
    if rest == "" {
      assert step + rest == step;
      SplitHead(step, "", '/');
    } else {
      assert step + rest == step + ['/'] + rest[1..];
      SplitHead(step, rest[1..], '/');
    }
  }

  /** The reader understands every admissible term as what it means. */
  lemma TermReads(t: Term, range: FieldRange)
    requires Admissible(t, range)
    ensures ReadPart(TermText(t), range) == Some(Reach(t, range))
  {
    BodyReads(t, range);
    var body := BodyText(t.body);
    match t.step
    case None =>
      assert TermText(t) == body;
      SplitHead(body, "", '/');
    case Some(step) =>
      SteppedSplits(body, step, t.rest);
  }

  lemma TermHasNoComma(t: Term, range: FieldRange)
    requires WellFormed(t)
    ensures Without(TermText(t), ',')
  {
  }

  /** Everything the reader accepts is the text of an admissible term. */
  lemma PartIsTerm(part: string, range: FieldRange) returns (t: Term)
    requires ReadPart(part, range).Some? && Without(part, ',')
    ensures Admissible(t, range) && TermText(t) == part && Reach(t, range) == ReadPart(part, range).value
  {
    var pieces := Split(part, '/');
    JoinSplit(part, '/');
    var body := BodyIsTerm(pieces[0], |pieces| > 1, range);
    if |pieces| == 1 {
      t := Term(body, None, "");
    } else {
      var rest := SecondSlash(part);
      t := Term(body, Some(pieces[1]), rest);
    }
  }

  /** What stands behind the first two slash-separated pieces. */
  lemma SecondSlash(part: string) returns (rest: string)
    requires |Split(part, '/')| > 1 && Without(part, ',')
    ensures var pieces := Split(part, '/');
            part == pieces[0] + (['/'] + pieces[1] + rest)
    ensures (rest != "" ==> rest[0] == '/') && Without(rest, ',')
  {
    var pieces := Split(part, '/');
    JoinSplit(part, '/');
    var tail := Join(pieces[1..], '/');
    assert part == pieces[0] + ['/'] + tail;
    assert pieces[1..][0] == pieces[1];
    rest := tail[|pieces[1]|..];
    assert tail == pieces[1] + rest;
    var skip := |pieces[0]| + 1 + |pieces[1]|;
    assert rest == part[skip..];
  }

  lemma BodyIsTerm(body: string, stepped: bool, range: FieldRange) returns (b: Body)
    requires ReadBody(body, stepped, range).Some?
    ensures BodyText(b) == body && WellFormed(Term(b, None, ""))
    ensures forall t: Term :: WellFormed(t) && t.body == b && t.step.Some? == stepped ==>
              ReadBody(body, stepped, range) == Some((Reach(t, range).lo, Reach(t, range).hi))
  {
    if body == "*" { return Star; }
    if IsNumeral(body) { return One(body); }
    var ends := Split(body, '-');
    JoinSplit(body, '-');
    assert Join(ends, '-') == ends[0] + ['-'] + Join(ends[1..], '-');
    b := Span(ends[0], ends[1]);
  }

  function TermTexts(terms: seq<Term>): seq<string> {
    seq(|terms|, i requires 0 <= i < |terms| => TermText(terms[i]))
  }

  ghost predicate TermGives(t: Term, range: FieldRange, v: int, w: int) {
    WellFormed(t) && Hits(Reach(t, range), v) && w == Fold(v, range)
  }

  /** The meaning of a field: the union of its terms, with 7 folded to 0 for the day of week. */
  ghost predicate Means(terms: seq<Term>, range: FieldRange, out: set<int>) {
    && (forall i :: 0 <= i < |terms| ==> Admissible(terms[i], range))
    && (forall w :: w in out <==> exists i, v :: 0 <= i < |terms| && TermGives(terms[i], range, v, w))
  }

  /** `raw` is a comma list of admissible terms denoting `out`. */
  ghost predicate FieldText(raw: string, range: FieldRange, out: set<int>) {
    exists terms :: |terms| >= 1 && raw == Join(TermTexts(terms), ',') && Means(terms, range, out)
  }

  lemma FieldTextParses(raw: string, range: FieldRange, out: set<int>)
    requires FieldText(raw, range, out)
    ensures FieldValues(raw, range) == Some(out)
  {
    var terms :| |terms| >= 1 && raw == Join(TermTexts(terms), ',') && Means(terms, range, out);
    TermTextsRead(terms, range);
    var parts := TermTexts(terms);
    SplitJoin(parts, ',');
    assert Split(raw, ',') == parts;
    SameGives(parts, terms, range);
    SameMeaning(parts, terms, range, out);
  }

  lemma SameMeaning(parts: seq<string>, terms: seq<Term>, range: FieldRange, out: set<int>)
    requires |parts| == |terms| && Means(terms, range, out)
    requires forall i :: 0 <= i < |parts| ==> ReadPart(parts[i], range).Some?
    requires forall i, v, w :: 0 <= i < |parts| ==> PartGives(parts[i], range, v, w) == TermGives(terms[i], range, v, w)
    ensures ValuesOf(parts, |parts|, range) == out
  {
    forall w ensures w in ValuesOf(parts, |parts|, range) <==> w in out {
      ValuesOfHas(parts, |parts|, range, w);
    }
  }

  lemma TermTextsRead(terms: seq<Term>, range: FieldRange)
    requires forall i :: 0 <= i < |terms| ==> Admissible(terms[i], range)
    ensures forall i :: 0 <= i < |terms| ==>
              && Admissible(terms[i], range) && Without(TermTexts(terms)[i], ',')
              && ReadPart(TermTexts(terms)[i], range) == Some(Reach(terms[i], range))
  {
    forall i | 0 <= i < |terms|
      ensures Without(TermTexts(terms)[i], ',') && ReadPart(TermTexts(terms)[i], range) == Some(Reach(terms[i], range))
    {
      TermReads(terms[i], range);
      TermHasNoComma(terms[i], range);
    }
  }

  lemma SameGives(parts: seq<string>, terms: seq<Term>, range: FieldRange)
    requires |parts| == |terms|
    requires forall i :: 0 <= i < |parts| ==>
               Admissible(terms[i], range) && ReadPart(parts[i], range) == Some(Reach(terms[i], range))
    ensures forall i, v, w :: 0 <= i < |parts| ==> PartGives(parts[i], range, v, w) == TermGives(terms[i], range, v, w)
  {
  }

  lemma ParsedFieldIsText(raw: string, range: FieldRange)
    requires FieldValues(raw, range).Some?
    ensures FieldText(raw, range, FieldValues(raw, range).value)
  {
    var parts := Split(raw, ',');
    JoinSplit(raw, ',');
    var terms := TermsOf(parts, range);
    assert TermTexts(terms) == parts;
    SameGives(parts, terms, range);
    ValuesAreMeant(parts, terms, range);
  }

  lemma ValuesAreMeant(parts: seq<string>, terms: seq<Term>, range: FieldRange)
    requires |parts| == |terms| && forall i :: 0 <= i < |terms| ==> Admissible(terms[i], range)
    requires forall i :: 0 <= i < |parts| ==> ReadPart(parts[i], range).Some?
    requires forall i, v, w :: 0 <= i < |parts| ==> PartGives(parts[i], range, v, w) == TermGives(terms[i], range, v, w)
    ensures Means(terms, range, ValuesOf(parts, |parts|, range))
  {
    var out := ValuesOf(parts, |parts|, range);
    forall w ensures w in out <==> exists i, v :: 0 <= i < |terms| && TermGives(terms[i], range, v, w) {
      ValuesOfHas(parts, |parts|, range, w);
    }
  }

  lemma {:induction false} TermsOf(parts: seq<string>, range: FieldRange) returns (terms: seq<Term>)
    requires forall i :: 0 <= i < |parts| ==> ReadPart(parts[i], range).Some? && Without(parts[i], ',')
    ensures |terms| == |parts|
    ensures forall i :: 0 <= i < |parts| ==>
              Admissible(terms[i], range) && TermText(terms[i]) == parts[i] && Reach(terms[i], range) == ReadPart(parts[i], range).value
  {
    if parts == [] {
      terms := [];
    } else {
      var t := PartIsTerm(parts[0], range);
      var rest := TermsOf(parts[1..], range);
      terms := [t] + rest;
    }
  }

  /** A field parses to a set exactly when its text denotes that set. */
  lemma FieldMeetsGrammar(raw: string, range: FieldRange, out: set<int>)
    ensures FieldValues(raw, range) == Some(out) <==> FieldText(raw, range, out)
  {
    if FieldValues(raw, range) == Some(out) { ParsedFieldIsText(raw, range); }
    if FieldText(raw, range, out) { FieldTextParses(raw, range, out); }
  }

  // ---------- the whole expression ----------

  ghost function CronSets(expr: string): Option<seq<set<int>>> {
    var parts := SplitSpaces(Trim(expr));
    if |parts| == 5 && forall i :: 0 <= i < 5 ==> FieldValues(parts[i], FIELDS[i]).Some?
    then Some(seq(5, i requires 0 <= i < 5 => FieldValues(parts[i], FIELDS[i]).value))
    else None
  }

  method ParseCron(expr: string) returns (r: Option<seq<set<int>>>)
    ensures r == CronSets(expr)
  {
    var parts := SplitSpaces(Trim(expr));
    if |parts| != 5 { return None; }
    var sets: seq<set<int>> := [];
    for i := 0 to 5
      invariant |sets| == i
      invariant forall j :: 0 <= j < i ==> FieldValues(parts[j], FIELDS[j]) == Some(sets[j])
    {
      var field := ParseField(parts[i], FIELDS[i]);
      if field.None? { return None; }
      sets := sets + [field.value];
    }
    assert sets == CronSets(expr).value;
    r := Some(sets);
  }

  datatype Layout = Layout(lead: string, fields: seq<string>, gaps: seq<string>, trail: string)

  /** Five fields between runs of white space, with anything blank around them. */
  predicate LaysOut(l: Layout, expr: string) {
    && Blank(l.lead) && Blank(l.trail) && |l.fields| == 5 && FieldLayout(l.fields, l.gaps)
    && expr == l.lead + Spaced(l.fields, l.gaps) + l.trail
  }

  /** The grammar and meaning of an expression. */
  ghost predicate CronText(expr: string, sets: seq<set<int>>) {
    |sets| == 5 &&
    exists l :: LaysOut(l, expr) && FieldTexts(l.fields, sets)
  }

  lemma LayoutSplits(l: Layout, expr: string)
    requires LaysOut(l, expr)
    ensures SplitSpaces(Trim(expr)) == l.fields
  {
    SpacedSolidEnds(l.fields, l.gaps);
    TrimDrops(l.lead, Spaced(l.fields, l.gaps), l.trail);
    SplitSpaced(l.fields, l.gaps);
  }

  lemma SplitsLayOut(expr: string) returns (l: Layout)
    requires |SplitSpaces(Trim(expr))| == 5
    ensures LaysOut(l, expr) && l.fields == SplitSpaces(Trim(expr))
  {
    var lead, trail := TrimSplits(expr);
    var gaps := SplitSpacesLayout(Trim(expr));
    l := Layout(lead, SplitSpaces(Trim(expr)), gaps, trail);
  }

  ghost predicate FieldTexts(fields: seq<string>, sets: seq<set<int>>)
    requires |fields| == 5 && |sets| == 5
  {
    forall i :: 0 <= i < 5 ==> FieldText(fields[i], FIELDS[i], sets[i])
  }

  lemma FieldsMeetGrammar(fields: seq<string>, sets: seq<set<int>>)
    requires |fields| == 5 && |sets| == 5
    ensures (forall i :: 0 <= i < 5 ==> FieldValues(fields[i], FIELDS[i]) == Some(sets[i])) <==> FieldTexts(fields, sets)
  {
    forall i | 0 <= i < 5
      ensures FieldValues(fields[i], FIELDS[i]) == Some(sets[i]) <==> FieldText(fields[i], FIELDS[i], sets[i])
    {
      FieldMeetsGrammar(fields[i], FIELDS[i], sets[i]);
    }
  }

  lemma CronSetsByField(expr: string, sets: seq<set<int>>)
    ensures CronSets(expr) == Some(sets) <==>
              var parts := SplitSpaces(Trim(expr));
              |parts| == 5 && |sets| == 5 && forall i :: 0 <= i < 5 ==> FieldValues(parts[i], FIELDS[i]) == Some(sets[i])
  {
    var parts := SplitSpaces(Trim(expr));
    if |parts| == 5 && |sets| == 5 && forall i :: 0 <= i < 5 ==> FieldValues(parts[i], FIELDS[i]) == Some(sets[i]) {
      assert CronSets(expr).value == sets;
    }
  }

  /** The parser accepts exactly the five-field grammar, and each set is exactly what its field denotes. */
  lemma CronMeetsGrammar(expr: string, sets: seq<set<int>>)
    ensures CronSets(expr) == Some(sets) <==> CronText(expr, sets)
  {
    CronSetsByField(expr, sets);
    var parts := SplitSpaces(Trim(expr));
    if |parts| == 5 && |sets| == 5 {
      FieldsMeetGrammar(parts, sets);
      if FieldTexts(parts, sets) {
        var l := SplitsLayOut(expr);
      }
    }
    if CronText(expr, sets) {
      var l :| LaysOut(l, expr) && FieldTexts(l.fields, sets);
      LayoutSplits(l, expr);
    }
  }

  /** Trimming first changes nothing: the scheduler reads the untrimmed text the validator trimmed. */
  lemma TrimmedSame(expr: string)
    ensures CronSets(Trim(expr)) == CronSets(expr)
  {
    TrimTwice(expr);
  }

  /** The minute field of a valid expression holds minutes of the hour, and at least one. */
  lemma MinutesInHour(expr: string)
    requires CronSets(expr).Some?
    ensures var minutes := CronSets(expr).value[0];
            minutes != {} && forall m :: m in minutes ==> 0 <= m < 60
  {
    FieldBounds(SplitSpaces(Trim(expr))[0], FIELDS[0]);
  }

  // ---------- matching in a zone ----------

  datatype ZonedParts = ZonedParts(minute: int, hour: int, day: int, month: int, weekday: int)

  /** A zone: the wall-clock fields of each minute since the epoch. */
  type Zone = int -> ZonedParts

  /** The minute hand keeps step with time: UTC, and every zone whose shifts are whole hours. */
  ghost predicate Steady(zone: Zone) {
    exists shift :: SteadyBy(zone, shift)
  }

  ghost predicate SteadyBy(zone: Zone, shift: int) {
    forall t :: zone(t).minute == (t + shift) % 60
  }

  ghost predicate Fires(sets: seq<set<int>>, at: ZonedParts)
    requires |sets| == 5
  {
    at.minute in sets[0] && at.hour in sets[1] && at.day in sets[2] && at.month in sets[3] && at.weekday in sets[4]
  }

  /** Whether the expression matches minute `t` since the epoch as read in the zone. */
  ghost predicate CronMatchesInZone(expr: string, t: int, zone: Zone) {
    CronSets(expr).Some? && Fires(CronSets(expr).value, zone(t))
  }

  // ---------- the smallest gap ----------

  /** Minutes from one minute of the hour to the next time the other comes round. */
  function Wait(a: int, b: int): int {
    if a == b then 60 else (b - a) % 60
  }

  ghost predicate AtLeastApart(minutes: set<int>, gap: int) {
    forall a, b :: a in minutes && b in minutes ==> gap <= Wait(a, b)
  }

  ghost predicate IsMinuteGap(minutes: set<int>, gap: int) {
    AtLeastApart(minutes, gap) && exists a, b :: a in minutes && b in minutes && gap == Wait(a, b)
  }

  method SortAscending(s: set<int>) returns (m: seq<int>)
    ensures |m| == |s| && (forall v :: v in s <==> v in m)
    ensures forall i, j :: 0 <= i < j < |m| ==> m[i] < m[j]
  {
    m := [];
    var left := s;
    while left != {}
      invariant |m| + |left| == |s|
      invariant left <= s && forall v :: v in s <==> v in m || v in left
      invariant forall i, j :: 0 <= i < j < |m| ==> m[i] < m[j]
      invariant forall i, v :: 0 <= i < |m| && v in left ==> m[i] < v
      decreases |left|
    {
      var least := Least(left);
      assert |left - {least}| == |left| - 1;
      m := m + [least];
      left := left - {least};
    }
  }

  method Least(s: set<int>) returns (least: int)
    requires s != {}
    ensures least in s && forall v :: v in s ==> least <= v
  {
    HasMember(s);
    least :| least in s;
    var left := s - {least};
    while left != {}
      invariant left <= s && least in s
      invariant forall v :: v in s && v !in left ==> least <= v
      decreases left
    {
      HasMember(left);
      var v :| v in left;
      if v < least { least := v; }
      left := left - {v};
    }
  }

  lemma HasMember(s: set<int>)
    requires s != {}
    ensures exists v :: v in s
  {
    if forall v :: v !in s { assert false; }
  }

  method CronMinuteGap(expr: string) returns (gap: Option<int>)
    ensures gap.Some? <==> CronSets(expr).Some?
    ensures gap.Some? ==> IsMinuteGap(CronSets(expr).value[0], gap.value)
  {
    var sets := ParseCron(expr);
    if sets.None? { return None; }
    MinutesInHour(expr);
    var minutes := SortAscending(sets.value[0]);
    ghost var values := sets.value[0];
    assert |minutes| > 0 by { HasMember(values); }
    forall i | 0 <= i < |minutes| ensures minutes[i] in values && 0 <= minutes[i] < 60 { }
    if |minutes| == 1 {
      assert Wait(minutes[0], minutes[0]) == 60;
      GapOfList(values, minutes, 60);
      return Some(60);
    }
    var g := SmallestStep(minutes);
    SortedGap(minutes, g);
    GapOfList(values, minutes, g);
    gap := Some(g);
  }

  /** The loop over the sorted minutes: the wrap past the hour, then every neighbouring pair. */
  method SmallestStep(minutes: seq<int>) returns (g: int)
    requires |minutes| >= 2 && forall i :: 0 <= i < |minutes| ==> 0 <= minutes[i] < 60
    requires forall i, j :: 0 <= i < j < |minutes| ==> minutes[i] < minutes[j]
    ensures g <= 60 - minutes[|minutes| - 1] + minutes[0]
    ensures forall j :: 1 <= j < |minutes| ==> g <= minutes[j] - minutes[j - 1]
    ensures exists a, b :: 0 <= a < |minutes| && 0 <= b < |minutes| && g == Wait(minutes[a], minutes[b])
  {
    g := 60 - minutes[|minutes| - 1] + minutes[0];
    ghost var a, b := |minutes| - 1, 0;
    WaitIs(minutes[a], minutes[b]);
    for i := 1 to |minutes|
      invariant g <= 60 - minutes[|minutes| - 1] + minutes[0]
      invariant forall j :: 1 <= j < i ==> g <= minutes[j] - minutes[j - 1]
      invariant 0 <= a < |minutes| && 0 <= b < |minutes| && g == Wait(minutes[a], minutes[b])
    {
      if minutes[i] - minutes[i - 1] < g {
        g := minutes[i] - minutes[i - 1];
        a, b := i - 1, i;
        WaitIs(minutes[a], minutes[b]);
      }
    }
  }

  /** In ascending order, neighbours and the wrap past the hour bound every pair. */
  lemma SortedGap(minutes: seq<int>, g: int)
    requires |minutes| >= 2 && forall i :: 0 <= i < |minutes| ==> 0 <= minutes[i] < 60
    requires forall i, j :: 0 <= i < j < |minutes| ==> minutes[i] < minutes[j]
    requires g <= 60 - minutes[|minutes| - 1] + minutes[0]
    requires forall j :: 1 <= j < |minutes| ==> g <= minutes[j] - minutes[j - 1]
    ensures forall i, j :: 0 <= i < |minutes| && 0 <= j < |minutes| ==> g <= Wait(minutes[i], minutes[j])
  {
    forall i, j | 0 <= i < |minutes| && 0 <= j < |minutes| ensures g <= Wait(minutes[i], minutes[j]) {
      WaitIs(minutes[i], minutes[j]);
      if i < j {
        assert minutes[j - 1] >= minutes[i];
      } else {
        assert minutes[i] <= minutes[|minutes| - 1] && minutes[0] <= minutes[j];
      }
    }
  }

  lemma GapOfList(values: set<int>, minutes: seq<int>, g: int)
    requires forall v :: v in values <==> v in minutes
    requires forall i, j :: 0 <= i < |minutes| && 0 <= j < |minutes| ==> g <= Wait(minutes[i], minutes[j])
    requires exists a, b :: 0 <= a < |minutes| && 0 <= b < |minutes| && g == Wait(minutes[a], minutes[b])
    ensures IsMinuteGap(values, g)
  {
  }

  lemma WaitIs(a: int, b: int)
    requires 0 <= a < 60 && 0 <= b < 60
    ensures Wait(a, b) == if a < b then b - a else 60 + b - a
  {
  }

  /** Two firing minutes are never closer than the gap, whatever the other four fields say. */
  lemma GapIsLowerBound(expr: string, zone: Zone, t1: int, t2: int, gap: int)
    requires CronSets(expr).Some? && AtLeastApart(CronSets(expr).value[0], gap)
    requires Steady(zone) && t1 < t2
    requires CronMatchesInZone(expr, t1, zone) && CronMatchesInZone(expr, t2, zone)
    ensures t2 - t1 >= gap
  {
    MinutesApart(CronSets(expr).value[0], zone, t1, t2, gap);
  }

  lemma MinutesApart(minutes: set<int>, zone: Zone, t1: int, t2: int, gap: int)
    requires AtLeastApart(minutes, gap) && Steady(zone) && t1 < t2
    requires zone(t1).minute in minutes && zone(t2).minute in minutes
    ensures t2 - t1 >= gap
  {
    var shift :| SteadyBy(zone, shift);
    ApartOnOneSide(minutes, gap, t1 + shift, t2 + shift);
  }

  lemma WaitBounds(x: int, y: int)
    requires x < y
    ensures Wait(x % 60, y % 60) <= y - x
    ensures 1 <= Wait(x % 60, y % 60) <= 60
  {
  }

  /** The full range of a wildcard field, with Sunday counted once. */
  lemma StarField(range: FieldRange)
    requires range.min <= range.max
    ensures FieldValues("*", range).Some?
    ensures forall v :: range.min <= v <= range.max ==> Fold(v, range) in FieldValues("*", range).value
  {
    var t := Term(Star, None, "");
    assert Admissible(t, range);
    TermReads(t, range);
    assert TermText(t) == "*";
    SplitHead("*", "", ',');
    var parts := Split("*", ',');
    assert parts == ["*"];
    forall v | range.min <= v <= range.max ensures Fold(v, range) in FieldValues("*", range).value {
      UnitSteps(range.min, v);
      assert PartGives(parts[0], range, v, Fold(v, range));
      ValuesOfHas(parts, 1, range, Fold(v, range));
    }
  }

  lemma {:induction false} UnitSteps(lo: int, v: int)
    requires lo <= v
    ensures Reached(lo, v, 1)
    decreases v - lo
  {
    if lo < v { UnitSteps(lo, v - 1); }
  }

  /** The wall-clock fields are in their ranges, as `zonedParts` reports them. */
  ghost predicate InRange(zone: Zone) {
    forall t :: 0 <= zone(t).hour <= 23 && 1 <= zone(t).day <= 31 && 1 <= zone(t).month <= 12 && 0 <= zone(t).weekday <= 6
  }

  lemma WildcardsFire(expr: string, zone: Zone, t: int)
    requires SplitSpaces(Trim(expr))[1..] == ["*", "*", "*", "*"] && CronSets(expr).Some? && InRange(zone)
    requires zone(t).minute in CronSets(expr).value[0]
    ensures CronMatchesInZone(expr, t, zone)
  {
    var fields := SplitSpaces(Trim(expr));
    assert forall i :: 1 <= i < 5 ==> fields[i] == fields[1..][i - 1] == "*";
    var sets, at := CronSets(expr).value, zone(t);
    StarHas(sets[1], FIELDS[1], at.hour);
    StarHas(sets[2], FIELDS[2], at.day);
    StarHas(sets[3], FIELDS[3], at.month);
    StarHas(sets[4], FIELDS[4], at.weekday);
  }

  lemma StarHas(values: set<int>, range: FieldRange, v: int)
    requires FieldValues("*", range) == Some(values) && range.min <= v <= range.max && Fold(v, range) == v
    ensures v in values
  {
    StarField(range);
  }

  /** With the other four fields wildcards, some pair is exactly the gap apart, after any start. */
  lemma GapIsAttained(expr: string, zone: Zone, start: int, gap: int) returns (t1: int, t2: int)
    requires CronSets(expr).Some? && IsMinuteGap(CronSets(expr).value[0], gap)
    requires SplitSpaces(Trim(expr))[1..] == ["*", "*", "*", "*"]
    requires Steady(zone) && InRange(zone)
    ensures start <= t1 < t2 && t2 - t1 == gap
    ensures CronMatchesInZone(expr, t1, zone) && CronMatchesInZone(expr, t2, zone)
  {
    MinutesInHour(expr);
    t1, t2 := MinutesMeet(CronSets(expr).value[0], zone, start, gap);
    WildcardsFire(expr, zone, t1);
    WildcardsFire(expr, zone, t2);
  }

  lemma MinutesMeet(minutes: set<int>, zone: Zone, start: int, gap: int) returns (t1: int, t2: int)
    requires IsMinuteGap(minutes, gap) && Steady(zone) && forall m :: m in minutes ==> 0 <= m < 60
    ensures start <= t1 < t2 && t2 - t1 == gap
    ensures zone(t1).minute in minutes && zone(t2).minute in minutes
  {
    var shift :| SteadyBy(zone, shift);
    var a, b :| a in minutes && b in minutes && gap == Wait(a, b);
    t1 := start + (a - start - shift) % 60;
    t2 := t1 + gap;
    ReachMinute(start, shift, a);
    WaitLands(t1 + shift, b);
    assert t2 + shift == (t1 + shift) + gap;
    assert zone(t1).minute == a && zone(t2).minute == b;
  }

  lemma ReachMinute(start: int, shift: int, a: int)
    requires 0 <= a < 60
    ensures (start + (a - start - shift) % 60 + shift) % 60 == a
  {
  }

  lemma WaitLands(x: int, b: int)
    requires 0 <= b < 60
    ensures (x + Wait(x % 60, b)) % 60 == b && Wait(x % 60, b) >= 1
  {
  }

  // ---------- a clock that is put forward or back once ----------

  /** The minute hand is moved by d minutes at time `at`, and keeps step with time otherwise. */
  ghost predicate ShiftsOnce(zone: Zone, at: int, d: int) {
    exists shift :: ShiftsOnceFrom(zone, shift, at, d)
  }

  ghost predicate ShiftsOnceFrom(zone: Zone, shift: int, at: int, d: int) {
    forall t :: zone(t).minute == (t + shift + if t < at then 0 else d) % 60
  }

  /** The wait from any minute, once the clock has moved by d, to any other is no shorter than the gap. */
  ghost predicate KeepsGapAcross(minutes: set<int>, d: int, gap: int) {
    forall a, b :: a in minutes && b in minutes ==> gap <= Wait((a + d) % 60, b)
  }

  /** Minutes that keep the gap across a shift keep it whenever the shift comes, whatever the other four fields say. */
  lemma GapAcrossShift(expr: string, zone: Zone, at: int, d: int, t1: int, t2: int, gap: int)
    requires CronSets(expr).Some? && AtLeastApart(CronSets(expr).value[0], gap) && KeepsGapAcross(CronSets(expr).value[0], d, gap)
    requires ShiftsOnce(zone, at, d) && t1 < t2
    requires CronMatchesInZone(expr, t1, zone) && CronMatchesInZone(expr, t2, zone)
    ensures t2 - t1 >= gap
  {
    MinutesApartAcross(CronSets(expr).value[0], zone, at, d, t1, t2, gap);
  }

  lemma MinutesApartAcross(minutes: set<int>, zone: Zone, at: int, d: int, t1: int, t2: int, gap: int)
    requires AtLeastApart(minutes, gap) && KeepsGapAcross(minutes, d, gap) && ShiftsOnce(zone, at, d) && t1 < t2
    requires zone(t1).minute in minutes && zone(t2).minute in minutes
    ensures t2 - t1 >= gap
  {
    var shift :| ShiftsOnceFrom(zone, shift, at, d);
    if t1 < at <= t2 {
      ApartAcross(minutes, d, gap, t1 + shift, t2 + shift + d);
    } else {
      var moved := shift + if t1 < at then 0 else d;
      ApartOnOneSide(minutes, gap, t1 + moved, t2 + moved);
    }
  }

  lemma ApartOnOneSide(minutes: set<int>, gap: int, x: int, y: int)
    requires AtLeastApart(minutes, gap) && x % 60 in minutes && y % 60 in minutes && x < y
    ensures gap <= y - x
  {
    WaitBounds(x, y);
  }

  lemma ApartAcross(minutes: set<int>, d: int, gap: int, x: int, y: int)
    requires KeepsGapAcross(minutes, d, gap) && x % 60 in minutes && y % 60 in minutes && x + d < y
    ensures gap <= y - x - d
  {
    WaitBounds(x + d, y);
    ModPlus(x, d);
    assert gap <= Wait((x % 60 + d) % 60, y % 60);
  }

  lemma ModPlus(x: int, d: int)
    ensures (x % 60 + d) % 60 == (x + d) % 60
  {
  }

  /** A clock that shows minute a at time 0 and is then moved by d minutes, through a day of hour 0. */
  function MovedClock(a: int, d: int): Zone {
    t => ZonedParts((t + a + if t < 1 then 0 else d) % 60, 0, 1, 1, 0)
  }

  lemma MovedClockShows(a: int, d: int, b: int)
    requires 0 <= a < 60 && 0 <= b < 60
    ensures InRange(MovedClock(a, d)) && ShiftsOnce(MovedClock(a, d), 1, d)
    ensures var w := Wait((a + d) % 60, b);
            w >= 1 && MovedClock(a, d)(0).minute == a && MovedClock(a, d)(w).minute == b
  {
    assert ShiftsOnceFrom(MovedClock(a, d), a, 1, d);
    WaitLands(a + d, b);
  }

  /**
   Minutes that do not keep the gap across a shift lose it: with the other fields wildcards, some clock
   moved by d has two firing minutes closer than the gap.
   */
  lemma GapLostAcrossShift(expr: string, d: int, gap: int) returns (zone: Zone, t1: int, t2: int)
    requires SplitSpaces(Trim(expr))[1..] == ["*", "*", "*", "*"] && CronSets(expr).Some?
    requires !KeepsGapAcross(CronSets(expr).value[0], d, gap)
    ensures ShiftsOnce(zone, 1, d) && InRange(zone) && t1 < t2 && t2 - t1 < gap
    ensures CronMatchesInZone(expr, t1, zone) && CronMatchesInZone(expr, t2, zone)
  {
    var minutes := CronSets(expr).value[0];
    MinutesInHour(expr);
    var a, b :| a in minutes && b in minutes && gap > Wait((a + d) % 60, b);
    zone, t1, t2 := MovedClock(a, d), 0, Wait((a + d) % 60, b);
    MovedClockShows(a, d, b);
    WildcardsFire(expr, zone, t1);
    WildcardsFire(expr, zone, t2);
  }
}
