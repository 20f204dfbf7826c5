/**
 Strings as the TypeScript sources handle them: decimal digits, trimming, splitting and joining,
 ASCII lower-casing and the default array sort.
 */
module Text {

  // ---------- decimal digits ----------

  predicate IsDigit(c: char) {
    '0' <= c <= '9'
  }

  predicate OnlyDigits(s: string) {
    forall i :: 0 <= i < |s| ==> IsDigit(s[i])
  }

  /** The regular expression `^\d+$`. */
  predicate IsNumeral(s: string) {
    s != "" && OnlyDigits(s)
  }

  /** `Number(s)` for a numeral. */
  function ToNat(s: string): nat
    requires OnlyDigits(s)
  {
    if s == "" then 0 else ToNat(s[..|s| - 1]) * 10 + (s[|s| - 1] as int - '0' as int)
  }

  function DigitChar(d: nat): char
    requires d < 10
  {
    ('0' as int + d) as char
  }

  /** A number in a template string. */
  function ToDec(n: nat): string {
    if n < 10 then [DigitChar(n)] else ToDec(n / 10) + [DigitChar(n % 10)]
  }

  function Pow10(k: nat): nat {
    if k == 0 then 1 else 10 * Pow10(k - 1)
  }

  /** Printing a number and reading it back gives the number. */
  lemma {:induction false} DecimalRoundTrip(n: nat)
    ensures IsNumeral(ToDec(n)) && ToNat(ToDec(n)) == n
  {
    if n < 10 {
      assert ToDec(n)[..0] == "";
    } else {
      DecimalRoundTrip(n / 10);
      assert ToDec(n)[..|ToDec(n)| - 1] == ToDec(n / 10);
    }
  }

  /** k digits hold exactly the numbers below 10^k. */
  lemma {:induction false} DecimalLength(n: nat, k: nat)
    requires k >= 1
    ensures |ToDec(n)| <= k <==> n < Pow10(k)
  {
    if n >= 10 && k > 1 {
      DecimalLength(n / 10, k - 1);
    } else if k == 1 {
      assert Pow10(1) == 10 * Pow10(0);
    } else {
      Pow10Grows(k);
    }
  }

  lemma {:induction false} Pow10Grows(k: nat)
    requires k >= 1
    ensures Pow10(k) >= 10
  {
    if k > 1 { Pow10Grows(k - 1); } else { assert Pow10(1) == 10 * Pow10(0); }
  }

  // ---------- addresses ----------

  predicate IsHex(c: char) {
    IsDigit(c) || 'a' <= c <= 'f' || 'A' <= c <= 'F'
  }

  lemma HexDigits(c: char)
    ensures IsHex(c) <==> c in "0123456789abcdefABCDEF"
  {
  }

  /** `^0x[0-9a-fA-F]{40}$` */
  predicate IsAddress(s: string) {
    |s| == 42 && s[0] == '0' && s[1] == 'x' && forall i :: 2 <= i < 42 ==> IsHex(s[i])
  }

  // ---------- split and join ----------

  lemma SameTail(head: string, a: string, b: string)
    ensures head + a == head + b <==> a == b
  {
    assert (head + a)[|head|..] == a && (head + b)[|head|..] == b;
  }

  /** `s.split(sep)` for a one-character separator: never empty. */
  function Split(s: string, sep: char): (parts: seq<string>)
    ensures |parts| >= 1
  {
    if s == "" then [""]
    else
      var rest := Split(s[1..], sep);
      if s[0] == sep then [""] + rest else [[s[0]] + rest[0]] + rest[1..]
  }

  /** `parts.join(sep)`. */
  function Join(parts: seq<string>, sep: char): string {
    if parts == [] then ""
    else if |parts| == 1 then parts[0]
    else parts[0] + [sep] + Join(parts[1..], sep)
  }

  predicate Without(s: string, c: char) {
    forall i :: 0 <= i < |s| ==> s[i] != c
  }

  lemma {:induction false} PartsWithout(s: string, sep: char)
    ensures forall i :: 0 <= i < |Split(s, sep)| ==> Without(Split(s, sep)[i], sep)
  {
    if s != "" {
      PartsWithout(s[1..], sep);
      var rest := Split(s[1..], sep);
      var all := Split(s, sep);
      assert all == if s[0] == sep then [""] + rest else [[s[0]] + rest[0]] + rest[1..];
      assert Without(rest[0], sep);
      forall i | 1 <= i < |all| ensures Without(all[i], sep) {
        if s[0] == sep { assert all[i] == rest[i - 1]; } else { assert all[i] == rest[i]; }
      }
    }
  }

  lemma JoinGrown(c: char, parts: seq<string>, sep: char)
    requires |parts| >= 1
    ensures Join([[c] + parts[0]] + parts[1..], sep) == [c] + Join(parts, sep)
  {
    var grown := [[c] + parts[0]] + parts[1..];
    assert grown[1..] == parts[1..];
    if |parts| > 1 {
      assert Join(grown, sep) == [c] + (parts[0] + [sep] + Join(parts[1..], sep));
    }
  }

  lemma {:induction false} JoinSplit(s: string, sep: char)
    ensures Join(Split(s, sep), sep) == s
    ensures forall i :: 0 <= i < |Split(s, sep)| ==> Without(Split(s, sep)[i], sep)
  {
    PartsWithout(s, sep);
    if s != "" {
      JoinSplit(s[1..], sep);
      var rest := Split(s[1..], sep);
      assert s == [s[0]] + s[1..];
      if s[0] == sep {
        assert ([""] + rest)[1..] == rest;
      } else {
        JoinGrown(s[0], rest, sep);
      }
    }
  }

  /** A piece free of the separator comes back whole, followed by whatever follows the separator. */
  lemma {:induction false} SplitHead(head: string, tail: string, sep: char)
    requires Without(head, sep)
    ensures Split(head, sep) == [head]
    ensures Split(head + [sep] + tail, sep) == [head] + Split(tail, sep)
  {
    var s := head + [sep] + tail;
    if head == "" {
      assert s[1..] == tail;
    } else {
      assert Without(head[1..], sep) && head[0] != sep;
      SplitHead(head[1..], tail, sep);
      assert s[1..] == head[1..] + [sep] + tail;
      assert [head[0]] + head[1..] == head;
      assert Split(s, sep) == [[s[0]] + head[1..]] + Split(tail, sep);
    }
  }

  lemma {:induction false} SplitJoin(parts: seq<string>, sep: char)
    requires |parts| >= 1
    requires forall i :: 0 <= i < |parts| ==> Without(parts[i], sep)
    ensures Split(Join(parts, sep), sep) == parts
  {
    assert Without(parts[0], sep);
    if |parts| == 1 {
      SplitHead(parts[0], "", sep);
    } else {
      assert forall i :: 0 <= i < |parts[1..]| ==> Without(parts[1..][i], sep);
      SplitJoin(parts[1..], sep);
      SplitHead(parts[0], Join(parts[1..], sep), sep);
    }
  }

  // ---------- white space ----------

  /** JavaScript's WhiteSpace and LineTerminator characters: what `trim` strips and `\s` matches. */
  predicate IsSpace(c: char) {
    var u := c as int;
    || 0x09 <= u <= 0x0D || u == 0x20 || u == 0xA0 || u == 0x1680 || 0x2000 <= u <= 0x200A
    || u == 0x2028 || u == 0x2029 || u == 0x202F || u == 0x205F || u == 0x3000 || u == 0xFEFF
  }

  /** Among the ASCII characters these six are white space. */
  lemma AsciiSpaces(c: char)
    requires (c as int) < 128
    ensures IsSpace(c) <==> c in ['\t', '\n', '\U{000B}', '\U{000C}', '\r', ' ']
  {
  }

  predicate Blank(s: string) {
    forall i :: 0 <= i < |s| ==> IsSpace(s[i])
  }

  predicate Solid(s: string) {
    forall i :: 0 <= i < |s| ==> !IsSpace(s[i])
  }

  function TrimStart(s: string): string {
    if s != "" && IsSpace(s[0]) then TrimStart(s[1..]) else s
  }

  function TrimEnd(s: string): string {
    if s != "" && IsSpace(s[|s| - 1]) then TrimEnd(s[..|s| - 1]) else s
  }

  function Trim(s: string): string {
    TrimEnd(TrimStart(s))
  }

  /** No white space at either end. */
  predicate Trimmed(s: string) {
    s != "" ==> !IsSpace(s[0]) && !IsSpace(s[|s| - 1])
  }

  lemma {:induction false} TrimStartSplits(s: string) returns (lead: string)
    ensures Blank(lead) && s == lead + TrimStart(s)
    ensures TrimStart(s) != "" ==> !IsSpace(TrimStart(s)[0])
  {
    if s != "" && IsSpace(s[0]) {
      var rest := TrimStartSplits(s[1..]);
      lead := [s[0]] + rest;
      assert TrimStart(s) == TrimStart(s[1..]);
      assert s == [s[0]] + (rest + TrimStart(s)) == lead + TrimStart(s);
    } else {
      lead := "";
    }
  }

  lemma {:induction false} TrimEndSplits(s: string) returns (trail: string)
    ensures Blank(trail) && s == TrimEnd(s) + trail
    ensures TrimEnd(s) != "" ==> !IsSpace(TrimEnd(s)[|TrimEnd(s)| - 1])
  {
    if s != "" && IsSpace(s[|s| - 1]) {
      var rest := TrimEndSplits(s[..|s| - 1]);
      trail := rest + [s[|s| - 1]];
      assert s == s[..|s| - 1] + [s[|s| - 1]];
    } else {
      trail := "";
    }
  }

  /** `trim` removes exactly the outer white space. */
  lemma TrimSplits(s: string) returns (lead: string, trail: string)
    ensures Blank(lead) && Blank(trail) && s == lead + Trim(s) + trail
    ensures Trimmed(Trim(s))
  {
    lead := TrimStartSplits(s);
    trail := TrimEndSplits(TrimStart(s));
    assert TrimStart(s) == Trim(s) + trail;
  }

  lemma {:induction false} TrimStartDrops(lead: string, s: string)
    requires Blank(lead) && (s == "" || !IsSpace(s[0]))
    ensures TrimStart(lead + s) == s
  {
    if lead == "" {
      assert lead + s == s;
    } else {
      assert (lead + s)[1..] == lead[1..] + s;
      TrimStartDrops(lead[1..], s);
    }
  }

  lemma {:induction false} TrimEndDrops(s: string, trail: string)
    requires Blank(trail) && (s == "" || !IsSpace(s[|s| - 1]))
    ensures TrimEnd(s + trail) == s
  {
    if trail == "" {
      assert s + trail == s;
    } else {
      assert (s + trail)[..|s + trail| - 1] == s + trail[..|trail| - 1];
      TrimEndDrops(s, trail[..|trail| - 1]);
    }
  }

  /** Any text with white space around it trims to the text. */
  lemma TrimDrops(lead: string, s: string, trail: string)
    requires Blank(lead) && Blank(trail) && Trimmed(s)
    ensures Trim(lead + s + trail) == s
  {
    if s == "" {
      assert lead + s + trail == (lead + trail) + "";
      TrimStartDrops(lead + trail, "");
      TrimEndDrops("", "");
    } else {
      assert lead + s + trail == lead + (s + trail);
      TrimStartDrops(lead, s + trail);
      TrimEndDrops(s, trail);
    }
  }

  lemma TrimFixes(s: string)
    requires Trimmed(s)
    ensures Trim(s) == s
  {
  }

  lemma TrimTwice(s: string)
    ensures Trim(Trim(s)) == Trim(s)
  {
    var lead, trail := TrimSplits(s);
    TrimFixes(Trim(s));
  }

  /** `s.split(/\s+/)`. */
  function SplitSpaces(s: string): (parts: seq<string>)
    ensures |parts| >= 1
    decreases |s|
  {
    if s == "" then [""]
    else if IsSpace(s[0]) then
      StartShorter(s);
      [""] + SplitSpaces(TrimStart(s))
    else
      var rest := SplitSpaces(s[1..]);
      [[s[0]] + rest[0]] + rest[1..]
  }

  lemma {:induction false} StartShorter(s: string)
    ensures |TrimStart(s)| <= |s|
    ensures s != "" && IsSpace(s[0]) ==> |TrimStart(s)| < |s|
  {
    if s != "" && IsSpace(s[0]) { StartShorter(s[1..]); }
  }

  /** Fields laid out with the given gaps between them. */
  function Spaced(fields: seq<string>, gaps: seq<string>): string
    requires |fields| == |gaps| + 1
  {
    if gaps == [] then fields[0] else fields[0] + gaps[0] + Spaced(fields[1..], gaps[1..])
  }

  predicate FieldLayout(fields: seq<string>, gaps: seq<string>) {
    && |fields| == |gaps| + 1
    && (forall i :: 0 <= i < |fields| ==> fields[i] != "" && Solid(fields[i]))
    && (forall i :: 0 <= i < |gaps| ==> gaps[i] != "" && Blank(gaps[i]))
  }

  lemma {:induction false} SplitSpacesHead(head: string, tail: string)
    requires Solid(head) && (tail == "" || IsSpace(tail[0]))
    ensures SplitSpaces(head + tail) == [head] + SplitSpaces(tail)[1..]
  {
    if head == "" {
      assert head + tail == tail;
    } else {
      assert (head + tail)[1..] == head[1..] + tail;
      SplitSpacesHead(head[1..], tail);
      assert [head[0]] + head[1..] == head;
    }
  }

  lemma SpacedSolidEnds(fields: seq<string>, gaps: seq<string>)
    requires FieldLayout(fields, gaps)
    ensures Spaced(fields, gaps) != "" && Trimmed(Spaced(fields, gaps))
    decreases |gaps|
  {
  }

  lemma {:induction false} SplitSpaced(fields: seq<string>, gaps: seq<string>)
    requires FieldLayout(fields, gaps)
    ensures SplitSpaces(Spaced(fields, gaps)) == fields
    decreases |gaps|
  {
    assert Solid(fields[0]);
    if gaps == [] {
      SplitSpacesHead(fields[0], "");
      assert fields[0] + "" == fields[0];
    } else {
      var rest := Spaced(fields[1..], gaps[1..]);
      SplitSpaced(fields[1..], gaps[1..]);
      SpacedSolidEnds(fields[1..], gaps[1..]);
      assert gaps[0] != "" && Blank(gaps[0]);
      assert Spaced(fields, gaps) == fields[0] + (gaps[0] + rest);
      SplitSpacesHead(fields[0], gaps[0] + rest);
      TrimStartDrops(gaps[0], rest);
    }
  }

  /** One more field and gap in front of a layout. */
  lemma LayoutCons(field: string, gap: string, fields: seq<string>, gaps: seq<string>)
    requires FieldLayout(fields, gaps) && field != "" && Solid(field) && gap != "" && Blank(gap)
    ensures FieldLayout([field] + fields, [gap] + gaps)
    ensures Spaced([field] + fields, [gap] + gaps) == field + gap + Spaced(fields, gaps)
  {
  }

  /** One more character in front of a layout's first field. */
  lemma LayoutGrow(c: char, fields: seq<string>, gaps: seq<string>)
    requires FieldLayout(fields, gaps) && !IsSpace(c)
    ensures FieldLayout([[c] + fields[0]] + fields[1..], gaps)
    ensures Spaced([[c] + fields[0]] + fields[1..], gaps) == [c] + Spaced(fields, gaps)
  {
  }

  lemma SplitAcrossGap(c: char, gap: string, rest: string)
    requires !IsSpace(c) && gap != "" && Blank(gap) && rest != "" && !IsSpace(rest[0])
    ensures SplitSpaces([c] + (gap + rest)) == [[c]] + SplitSpaces(rest)
  {
    SplitSpacesHead([c], gap + rest);
    TrimStartDrops(gap, rest);
  }

  lemma {:induction false} TrimStartKeepsEnd(s: string)
    requires s != "" && !IsSpace(s[|s| - 1])
    ensures TrimStart(s) != "" && TrimStart(s)[|TrimStart(s)| - 1] == s[|s| - 1]
  {
    if IsSpace(s[0]) { TrimStartKeepsEnd(s[1..]); }
  }

  /** The gap in front of the next field, and a layout of what follows it, make a layout of the whole. */
  lemma LayoutAcrossGap(c: char, gap: string, rest: string, gaps: seq<string>)
    requires !IsSpace(c) && gap != "" && Blank(gap) && rest != "" && !IsSpace(rest[0])
    requires FieldLayout(SplitSpaces(rest), gaps) && Spaced(SplitSpaces(rest), gaps) == rest
    ensures FieldLayout(SplitSpaces([c] + (gap + rest)), [gap] + gaps)
    ensures Spaced(SplitSpaces([c] + (gap + rest)), [gap] + gaps) == [c] + (gap + rest)
  {
    SplitAcrossGap(c, gap, rest);
    LayoutCons([c], gap, SplitSpaces(rest), gaps);
  }

  /** Every non-empty trimmed text is some layout of the fields it splits into. */
  lemma {:induction false} SplitSpacesLayout(s: string) returns (gaps: seq<string>)
    requires s != "" && !IsSpace(s[0]) && !IsSpace(s[|s| - 1])
    ensures FieldLayout(SplitSpaces(s), gaps) && Spaced(SplitSpaces(s), gaps) == s
    decreases |s|
  {
    if |s| == 1 {
      gaps := [];
      assert SplitSpaces(s) == [s] by { SplitSpacesHead(s, ""); assert s + "" == s; }
      return;
    }
    var tail := s[1..];
    assert s == [s[0]] + tail;
    if IsSpace(tail[0]) {
      var gap := TrimStartSplits(tail);
      var rest := TrimStart(tail);
      TrimStartKeepsEnd(tail);
      StartShorter(tail);
      var more := SplitSpacesLayout(rest);
      LayoutAcrossGap(s[0], gap, rest, more);
      gaps := [gap] + more;
    } else {
      gaps := SplitSpacesLayout(tail);
      LayoutGrow(s[0], SplitSpaces(tail), gaps);
    }
  }

  // ---------- case and order ----------

  function LowerChar(c: char): (l: char)
    ensures !('A' <= l <= 'Z')
    ensures c != l ==> 'A' <= c <= 'Z' && 'a' <= l <= 'z' && l as int - c as int == 'a' as int - 'A' as int
  {
    if 'A' <= c <= 'Z' then ((c as int) + 32) as char else c
  }

  /** `s.toLowerCase()` on ASCII letters. */
  function Lower(s: string): (r: string)
    ensures |r| == |s|
    ensures forall i :: 0 <= i < |s| ==> r[i] == LowerChar(s[i])
  {
    if s == "" then "" else [LowerChar(s[0])] + Lower(s[1..])
  }

  lemma SameLetterLowers(c: char, d: char)
    ensures LowerChar(c) == LowerChar(d) <==> SameLetter(c, d)
  {
  }

  predicate SameLetters(a: string, b: string) {
    |a| == |b| && forall i :: 0 <= i < |a| ==> SameLetter(a[i], b[i])
  }

  /** Texts are equal in lower case exactly when they are character by character, but for the case of letters. */
  lemma {:induction false} LowerIgnoresCase(a: string, b: string)
    ensures Lower(a) == Lower(b) <==> SameLetters(a, b)
  {
    if a != "" && b != "" {
      LowerIgnoresCase(a[1..], b[1..]);
      SameLetterLowers(a[0], b[0]);
      SameLettersCons(a, b);
      ConsEqual(LowerChar(a[0]), Lower(a[1..]), LowerChar(b[0]), Lower(b[1..]));
    }
  }

  lemma ConsEqual(c: char, s: string, d: char, t: string)
    ensures [c] + s == [d] + t <==> c == d && s == t
  {
    assert ([c] + s)[0] == c && ([d] + t)[0] == d && ([c] + s)[1..] == s && ([d] + t)[1..] == t;
  }

  lemma SameLettersCons(a: string, b: string)
    requires a != "" && b != ""
    ensures SameLetters(a, b) <==> SameLetter(a[0], b[0]) && SameLetters(a[1..], b[1..])
  {
    if SameLetters(a[1..], b[1..]) && SameLetter(a[0], b[0]) {
      forall i | 0 <= i < |a| ensures SameLetter(a[i], b[i]) {
        if i > 0 { assert a[i] == a[1..][i - 1] && b[i] == b[1..][i - 1]; }
      }
    }
  }

  predicate SameLetter(c: char, d: char) {
    || c == d
    || ('A' <= c <= 'Z' && d as int == c as int + 32)
    || ('A' <= d <= 'Z' && c as int == d as int + 32)
  }

  lemma LowerTwice(s: string)
    ensures Lower(Lower(s)) == Lower(s)
  {
  }

  /** The default order of `Array.prototype.sort` on strings. */
  predicate AtMost(a: string, b: string) {
    a == "" || (b != "" && (a[0] < b[0] || (a[0] == b[0] && AtMost(a[1..], b[1..]))))
  }

  /** One text comes before another exactly when it begins it, or is smaller at the first place they differ. */
  lemma {:induction false} AtMostExactly(a: string, b: string)
    ensures AtMost(a, b) <==> a <= b || exists i :: SmallerAt(a, b, i)
  {
    if a != "" && b != "" && a[0] == b[0] {
      AtMostExactly(a[1..], b[1..]);
      forall i ensures SmallerAt(a, b, i) <==> i >= 1 && SmallerAt(a[1..], b[1..], i - 1) { SmallerAtRest(a, b, i); }
      assert a <= b <==> a[1..] <= b[1..];
      if i :| SmallerAt(a[1..], b[1..], i) { assert SmallerAt(a, b, i + 1); }
      if i :| SmallerAt(a, b, i) { assert SmallerAt(a[1..], b[1..], i - 1); }
    } else if a != "" && b != "" && a[0] < b[0] {
      assert SmallerAt(a, b, 0);
    }
  }

  ghost predicate SmallerAt(a: string, b: string, i: int) {
    0 <= i < |a| && i < |b| && a[..i] == b[..i] && a[i] < b[i]
  }

  lemma SmallerAtRest(a: string, b: string, i: int)
    requires a != "" && b != "" && a[0] == b[0]
    ensures SmallerAt(a, b, i) <==> i >= 1 && SmallerAt(a[1..], b[1..], i - 1)
  {
    if 1 <= i < |a| && i < |b| {
      assert a[1..][..i - 1] == a[..i][1..] && b[1..][..i - 1] == b[..i][1..];
      assert a[..i] == [a[0]] + a[..i][1..] && b[..i] == [b[0]] + b[..i][1..];
    }
  }

  predicate Ascending(s: seq<string>) {
    forall i, j :: 0 <= i < j < |s| ==> AtMost(s[i], s[j])
  }

  lemma {:induction false} AtMostTotal(a: string, b: string)
    ensures AtMost(a, b) || AtMost(b, a)
  {
    if a != "" && b != "" { AtMostTotal(a[1..], b[1..]); }
  }

  lemma {:induction false} AtMostTransitive(a: string, b: string, c: string)
    requires AtMost(a, b) && AtMost(b, c)
    ensures AtMost(a, c)
  {
    if a != "" && a[0] == b[0] == c[0] { AtMostTransitive(a[1..], b[1..], c[1..]); }
  }

  function Insert(x: string, s: seq<string>): (r: seq<string>)
    requires Ascending(s)
    ensures Ascending(r) && multiset(r) == multiset(s) + multiset{x}
  {
    if s == [] then [x]
    else if AtMost(x, s[0]) then
      assert forall j :: 0 <= j < |s| ==> AtMost(x, s[j]) by {
        forall j | 0 < j < |s| ensures AtMost(x, s[j]) { AtMostTransitive(x, s[0], s[j]); }
      }
      [x] + s
    else
      AtMostTotal(x, s[0]);
      var rest := Insert(x, s[1..]);
      assert s == [s[0]] + s[1..];
      assert forall j :: 0 <= j < |rest| ==> AtMost(s[0], rest[j]) by {
        forall j | 0 <= j < |rest| ensures AtMost(s[0], rest[j]) {
          assert rest[j] in multiset(rest);
          assert rest[j] in multiset(s[1..]) || rest[j] == x;
          if rest[j] != x { assert rest[j] in s[1..]; }
        }
      }
      [s[0]] + rest
  }

  /** `xs.sort()`: the same strings, in order. */
  function Sort(s: seq<string>): (r: seq<string>)
    ensures Ascending(r) && multiset(r) == multiset(s)
  {
    if s == [] then []
    else
      assert s == [s[0]] + s[1..];
      Insert(s[0], Sort(s[1..]))
  }
}
