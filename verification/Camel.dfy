/**
 The constant's name that printed code exports (`camel` in `packages/flows/src/codegen.ts`): separators
 dropped and the letter after them raised, then everything dropped that a name cannot hold.
 */
module Camel {
  import Text

  predicate IsLetter(c: char) {
    'a' <= c <= 'z' || 'A' <= c <= 'Z'
  }

  /** The class `\w`. */
  predicate IsWord(c: char) {
    IsLetter(c) || Text.IsDigit(c) || c == '_'
  }

  /** The class `[-_\s]`; the underscore is in both. */
  predicate IsSeparator(c: char) {
    c == '-' || c == '_' || Text.IsSpace(c)
  }

  function UpperChar(c: char): (u: char)
    ensures !('a' <= u <= 'z') && Text.LowerChar(u) == Text.LowerChar(c)
  {
    if 'a' <= c <= 'z' then ((c as int) - 32) as char else c
  }

  /** How many separators stand at the front. */
  function Separators(s: string): (n: nat)
    ensures n <= |s|
    ensures forall i :: 0 <= i < n ==> IsSeparator(s[i])
    ensures n < |s| ==> !IsSeparator(s[n])
  {
    if s != "" && IsSeparator(s[0]) then 1 + Separators(s[1..]) else 0
  }

  /** Where a greedy `[-_\s]+(\w)` ends: the last word character behind separators only, or 0 for no match. */
  function MatchEnd(s: string, k: nat): (end: nat)
    requires k <= |s|
    ensures end <= k && (end > 0 ==> end < |s| && IsWord(s[end]))
    ensures forall i :: end < i <= k && i < |s| ==> !IsWord(s[i])
  {
    if k == 0 then 0 else if k < |s| && IsWord(s[k]) then k else MatchEnd(s, k - 1)
  }

  /** `id.replace(/[-_\s]+(\w)/g, ...)`. */
  function Humped(s: string): string
    decreases |s|
  {
    if s == "" then ""
    else
      var end := MatchEnd(s, Separators(s));
      if end == 0 then [s[0]] + Humped(s[1..]) else [UpperChar(s[end])] + Humped(s[end + 1..])
  }

  /** `.replace(/[^\w]/g, "")`. */
  function WordsOnly(s: string): (r: string)
    ensures forall i :: 0 <= i < |r| ==> IsWord(r[i])
  {
    if s == "" then "" else (if IsWord(s[0]) then [s[0]] else []) + WordsOnly(s[1..])
  }

  function CamelName(id: string): string {
    var s := WordsOnly(Humped(id));
    if s != "" && (IsLetter(s[0]) || s[0] == '_') then s else "flow" + s
  }

  /** Whatever the id, the name is one a constant could be spelled with. */
  lemma CamelIsIdentifier(id: string)
    ensures var name := CamelName(id);
            name != "" && (IsLetter(name[0]) || name[0] == '_') && forall i :: 0 <= i < |name| ==> IsWord(name[i])
  {
  }

  // ---------- ids made of words and dashes ----------

  predicate Plain(s: string) {
    s != "" && forall i :: 0 <= i < |s| ==> IsLetter(s[i]) || Text.IsDigit(s[i])
  }

  function Raised(word: string): string {
    if word == "" then "" else [UpperChar(word[0])] + word[1..]
  }

  /** The words run together, each raised. */
  function RaisedAll(words: seq<string>): string {
    if words == [] then "" else Raised(words[0]) + RaisedAll(words[1..])
  }

  lemma UnseparatedStays(c: char, rest: string)
    requires !IsSeparator(c)
    ensures Humped([c] + rest) == [c] + Humped(rest)
  {
    assert Separators([c] + rest) == 0;
    assert ([c] + rest)[1..] == rest;
  }

  lemma HeadFirst(word: string, tail: string)
    requires word != ""
    ensures word + tail == [word[0]] + (word[1..] + tail)
  {
  }

  predicate Unseparated(s: string) {
    forall i :: 0 <= i < |s| ==> !IsSeparator(s[i])
  }

  lemma {:induction false} PlainStays(word: string, tail: string)
    requires Unseparated(word)
    ensures Humped(word + tail) == word + Humped(tail)
  {
    if word == "" {
      assert word + tail == tail;
    } else {
      PlainStays(word[1..], tail);
      HeadFirst(word, tail);
      UnseparatedStays(word[0], word[1..] + tail);
      HeadFirst(word, Humped(tail));
    }
  }

  /** One or more separators, in any mixture of dashes, underscores and blanks. */
  predicate Gap(s: string) {
    s != "" && forall i :: 0 <= i < |s| ==> s[i] == '-' || s[i] == '_' || Text.IsSpace(s[i])
  }

  lemma {:induction false} SeparatorsOfGap(gap: string, tail: string)
    requires (forall i :: 0 <= i < |gap| ==> IsSeparator(gap[i])) && tail != "" && !IsSeparator(tail[0])
    ensures Separators(gap + tail) == |gap|
  {
    if gap == "" {
      assert gap + tail == tail;
    } else {
      assert (gap + tail)[1..] == gap[1..] + tail;
      SeparatorsOfGap(gap[1..], tail);
    }
  }

  lemma GapRaises(gap: string, tail: string)
    requires Gap(gap) && tail != "" && IsWord(tail[0]) && !IsSeparator(tail[0])
    ensures Humped(gap + tail) == [UpperChar(tail[0])] + Humped(tail[1..])
  {
    SeparatorsOfGap(gap, tail);
    assert (gap + tail)[|gap|] == tail[0];
    assert (gap + tail)[|gap| + 1..] == tail[1..];
  }

  lemma WordRaises(gap: string, word: string, tail: string)
    requires Gap(gap) && Plain(word)
    ensures Humped(gap + (word + tail)) == Raised(word) + Humped(tail)
  {
    calc {
      Humped(gap + (word + tail));
      { GapRaises(gap, word + tail); }
      [UpperChar(word[0])] + Humped((word + tail)[1..]);
      { assert (word + tail)[1..] == word[1..] + tail; }
      [UpperChar(word[0])] + Humped(word[1..] + tail);
      { PlainStays(word[1..], tail); }
      [UpperChar(word[0])] + (word[1..] + Humped(tail));
      Raised(word) + Humped(tail);
    }
  }

  /** Each word behind its gap. */
  function Spread(gaps: seq<string>, words: seq<string>): string
    requires |gaps| == |words|
  {
    if words == [] then "" else gaps[0] + (words[0] + Spread(gaps[1..], words[1..]))
  }

  predicate AllGaps(gaps: seq<string>) {
    forall i :: 0 <= i < |gaps| ==> Gap(gaps[i])
  }

  predicate AllPlain(words: seq<string>) {
    forall i :: 0 <= i < |words| ==> Plain(words[i])
  }

  lemma {:induction false} SpreadRaises(gaps: seq<string>, words: seq<string>)
    requires |gaps| == |words| && AllGaps(gaps) && AllPlain(words)
    ensures Humped(Spread(gaps, words)) == RaisedAll(words)
    decreases |words|
  {
    if words != [] {
      assert Gap(gaps[0]) && Plain(words[0]);
      WordRaises(gaps[0], words[0], Spread(gaps[1..], words[1..]));
      SpreadRaises(gaps[1..], words[1..]);
    }
  }

  lemma {:induction false} WordsKept(s: string)
    requires forall i :: 0 <= i < |s| ==> IsWord(s[i])
    ensures WordsOnly(s) == s
  {
    if s != "" { WordsKept(s[1..]); }
  }

  lemma {:induction false} RaisedAreWords(words: seq<string>)
    requires AllPlain(words)
    ensures forall i :: 0 <= i < |RaisedAll(words)| ==> IsWord(RaisedAll(words)[i])
  {
    if words != [] {
      assert Plain(words[0]);
      RaisedAreWords(words[1..]);
    }
  }

  lemma NamedAfter(id: string, s: string)
    requires Humped(id) == s && s != "" && (forall i :: 0 <= i < |s| ==> IsWord(s[i])) && s[0] != '_'
    ensures CamelName(id) == (if IsLetter(s[0]) then "" else "flow") + s
  {
    WordsKept(s);
    assert "" + s == s;
  }

  /**
   An id of plain words with gaps between them is named by its words run together, each but the first
   raised, behind `flow` when it starts with a digit.
   */
  lemma WordsBecomeCamel(first: string, gaps: seq<string>, words: seq<string>)
    requires Plain(first) && |gaps| == |words| && AllGaps(gaps) && AllPlain(words)
    ensures CamelName(first + Spread(gaps, words)) == (if IsLetter(first[0]) then "" else "flow") + (first + RaisedAll(words))
  {
    PlainStays(first, Spread(gaps, words));
    SpreadRaises(gaps, words);
    RaisedAreWords(words);
    NamedAfter(first + Spread(gaps, words), first + RaisedAll(words));
  }

  /** An id that is one plain word starting with a letter names itself. */
  lemma OneWordNamesItself(id: string)
    requires Plain(id) && IsLetter(id[0])
    ensures CamelName(id) == id
  {
    WordsBecomeCamel(id, [], []);
    assert id + Spread([], []) == id && "" + (id + RaisedAll([])) == id;
  }

  /** An underscore with nothing behind it separates nothing, so it is kept. */
  lemma TrailingUnderscoreStays(first: string)
    requires Plain(first) && IsLetter(first[0])
    ensures CamelName(first + "_") == first + "_"
  {
    PlainStays(first, "_");
    assert "_"[1..] == "" && MatchEnd("_", 1) == 0 && Humped("_") == "_";
    NamedAfter(first + "_", first + "_");
    assert "" + (first + "_") == first + "_";
  }

  lemma {:induction false} NoWordsLeft(s: string)
    requires forall i :: 0 <= i < |s| ==> !IsWord(s[i])
    ensures WordsOnly(Humped(s)) == ""
    decreases |s|
  {
    if s != "" {
      assert MatchEnd(s, Separators(s)) == 0;
      NoWordsLeft(s[1..]);
      assert ([s[0]] + Humped(s[1..]))[1..] == Humped(s[1..]);
    }
  }

  /** An id without one word character, as any in a script other than Latin, is named `flow`. */
  lemma WordlessIsFlow(id: string)
    requires forall i :: 0 <= i < |id| ==> !IsWord(id[i])
    ensures CamelName(id) == "flow"
  {
    NoWordsLeft(id);
  }

  // ---------- names that cannot be declared beside the import ----------

  /** Words a module may not declare as a constant. */
  predicate Reserved(w: string) {
    || w in ["await", "break", "case", "catch", "class", "const", "continue", "debugger", "default", "delete", "do"]
    || w in ["else", "enum", "export", "extends", "false", "finally", "for", "function", "if", "import", "in"]
    || w in ["instanceof", "new", "null", "return", "super", "switch", "this", "throw", "true", "try", "typeof"]
    || w in ["var", "void", "while", "with", "yield", "let", "static", "implements", "interface", "package"]
    || w in ["private", "protected", "public", "eval", "arguments"]
  }
}
