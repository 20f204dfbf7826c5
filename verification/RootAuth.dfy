/**
 The statement a wallet root signs and the check a client makes before signing it
 (`packages/core/src/rootAuth.ts`). A statement is one line per field.
 */
module RootAuth {
  import opened Maybe
  import opened Text

  const TITLE := "LaCrew root authorization"

  const CHAIN := "chainId: "

  const CHAIN_DIGITS := 15

  datatype Challenge = Challenge(action: string, subject: string, challenge: string, statement: string)

  datatype Refusal = OtherAction | MalformedChainId | NotCanonical

  function Lines(action: string, subject: string, challenge: string, chainId: Option<nat>): seq<string> {
    [TITLE, "action: " + action, "subject: " + subject, "challenge: " + challenge]
    + (if chainId.Some? then [CHAIN + ToDec(chainId.value)] else [])
  }

  function RootChallengeStatement(action: string, subject: string, challenge: string, chainId: Option<nat>): string {
    Join(Lines(action, subject, challenge, chainId), '\n')
  }

  /** `lines.find(line => line.startsWith("chainId: "))`. */
  function ChainLine(lines: seq<string>): (line: Option<string>)
    ensures line.Some? ==> CHAIN <= line.value
  {
    if lines == [] then None
    else if CHAIN <= lines[0] then Some(lines[0])
    else ChainLine(lines[1..])
  }

  /** The chain id read off a statement: absent, a number, or malformed. */
  function ReadChainId(statement: string): Result<Option<nat>, Refusal> {
    var line := ChainLine(Split(statement, '\n'));
    if line.None? then Ok(None)
    else
      var raw := line.value[|CHAIN|..];
      if IsNumeral(raw) && |raw| <= CHAIN_DIGITS then Ok(Some(ToNat(raw))) else Err(MalformedChainId)
  }

  function CheckedRootChallengeStatement(issued: Challenge, action: string, subject: string): Result<string, Refusal> {
    if issued.action != action || issued.subject != subject then Err(OtherAction)
    else
      match ReadChainId(issued.statement)
      case Err(e) => Err(e)
      case Ok(chainId) =>
        var canonical := RootChallengeStatement(action, subject, issued.challenge, chainId);
        if canonical != issued.statement then Err(NotCanonical) else Ok(canonical)
  }

  /** The text, line by line. */
  lemma StatementText(action: string, subject: string, challenge: string, chainId: Option<nat>)
    ensures RootChallengeStatement(action, subject, challenge, chainId) ==
              "LaCrew root authorization" + ("\n" + ("action: " + action)) + ("\n" + ("subject: " + subject))
              + ("\n" + ("challenge: " + challenge)) + (if chainId.Some? then "\n" + ("chainId: " + ToDec(chainId.value)) else "")
  {
    var a, b, c := "action: " + action, "subject: " + subject, "challenge: " + challenge;
    var lines := [TITLE, a, b, c];
    JoinFour(TITLE, a, b, c);
    if chainId.Some? {
      var d := CHAIN + ToDec(chainId.value);
      assert Lines(action, subject, challenge, chainId) == lines + [d];
      JoinEnd(lines, d);
      assert Join(lines, '\n') + ['\n'] + d == Join(lines, '\n') + ("\n" + d);
    } else {
      assert Lines(action, subject, challenge, chainId) == lines;
    }
  }

  lemma JoinFour(a: string, b: string, c: string, d: string)
    ensures Join([a, b, c, d], '\n') == a + ("\n" + b) + ("\n" + c) + ("\n" + d)
  {
    JoinEnd([a], b);
    JoinEnd([a, b], c);
    JoinEnd([a, b, c], d);
    assert [a] + [b] == [a, b] && [a, b] + [c] == [a, b, c] && [a, b, c] + [d] == [a, b, c, d];
  }

  predicate OneLine(s: string) {
    Without(s, '\n')
  }

  // ---------- the statement determines its fields ----------

  lemma DigitsAreOneLine(n: nat)
    ensures OneLine(ToDec(n))
  {
  }

  lemma LinesAreOneLine(action: string, subject: string, challenge: string, chainId: Option<nat>)
    requires OneLine(action) && OneLine(subject) && OneLine(challenge)
    ensures var lines := Lines(action, subject, challenge, chainId);
            forall i :: 0 <= i < |lines| ==> Without(lines[i], '\n')
  {
    if chainId.Some? { DigitsAreOneLine(chainId.value); }
  }

  lemma StatementSplits(action: string, subject: string, challenge: string, chainId: Option<nat>)
    requires OneLine(action) && OneLine(subject) && OneLine(challenge)
    ensures Split(RootChallengeStatement(action, subject, challenge, chainId), '\n') == Lines(action, subject, challenge, chainId)
  {
    LinesAreOneLine(action, subject, challenge, chainId);
    SplitJoin(Lines(action, subject, challenge, chainId), '\n');
  }

  /** Two statements over fields without line breaks are equal only when every field is. */
  lemma StatementDeterminesFields(
    a1: string, s1: string, c1: string, n1: Option<nat>, a2: string, s2: string, c2: string, n2: Option<nat>)
    requires OneLine(a1) && OneLine(s1) && OneLine(c1) && OneLine(a2) && OneLine(s2) && OneLine(c2)
    requires RootChallengeStatement(a1, s1, c1, n1) == RootChallengeStatement(a2, s2, c2, n2)
    ensures a1 == a2 && s1 == s2 && c1 == c2 && n1 == n2
  {
    StatementSplits(a1, s1, c1, n1);
    StatementSplits(a2, s2, c2, n2);
    var l1, l2 := Lines(a1, s1, c1, n1), Lines(a2, s2, c2, n2);
    assert l1[1] == l2[1] && l1[2] == l2[2] && l1[3] == l2[3] && |l1| == |l2|;
    SameTail("action: ", a1, a2);
    SameTail("subject: ", s1, s2);
    SameTail("challenge: ", c1, c2);
    if n1.Some? {
      assert l1[4] == l2[4];
      SameTail(CHAIN, ToDec(n1.value), ToDec(n2.value));
      DecimalRoundTrip(n1.value);
      DecimalRoundTrip(n2.value);
    }
  }

  // ---------- what the checker accepts ----------

  lemma ChainLineAfter4(lines: seq<string>)
    requires |lines| >= 4 && forall i :: 0 <= i < 4 ==> !(CHAIN <= lines[i])
    ensures ChainLine(lines) == ChainLine(lines[4..])
  {
    assert lines[1..][1..] == lines[2..] && lines[2..][1..] == lines[3..] && lines[3..][1..] == lines[4..];
    assert ChainLine(lines) == ChainLine(lines[2..]);
  }

  lemma ChainLineOfLines(action: string, subject: string, challenge: string, chainId: Option<nat>)
    ensures ChainLine(Lines(action, subject, challenge, chainId))
              == if chainId.Some? then Some(CHAIN + ToDec(chainId.value)) else None
  {
    var lines := Lines(action, subject, challenge, chainId);
    assert lines[0][0] != CHAIN[0] && lines[1][0] != CHAIN[0] && lines[2][0] != CHAIN[0] && lines[3][4] != CHAIN[4];
    ChainLineAfter4(lines);
    if chainId.Some? {
      assert lines[4..] == [CHAIN + ToDec(chainId.value)];
    }
  }

  lemma ChainIdReadsBack(action: string, subject: string, challenge: string, chainId: Option<nat>)
    requires OneLine(action) && OneLine(subject) && OneLine(challenge)
    ensures ReadChainId(RootChallengeStatement(action, subject, challenge, chainId)) ==
              if chainId.Some? && chainId.value >= Pow10(CHAIN_DIGITS) then Err(MalformedChainId) else Ok(chainId)
  {
    StatementSplits(action, subject, challenge, chainId);
    ChainLineOfLines(action, subject, challenge, chainId);
    if chainId.Some? {
      var raw := ToDec(chainId.value);
      assert (CHAIN + raw)[|CHAIN|..] == raw;
      DecimalRoundTrip(chainId.value);
      DecimalLength(chainId.value, CHAIN_DIGITS);
    }
  }

  lemma FifteenDigits()
    ensures Pow10(CHAIN_DIGITS) == 1_000_000_000_000_000
  {
    assert Pow10(3) == 1000;
    assert Pow10(6) == 1_000_000;
    assert Pow10(9) == 1_000_000_000;
    assert Pow10(12) == 1_000_000_000_000;
  }

  /** The checker takes a statement the printer made for one-line fields exactly when its chain id is absent or has at most 15 digits. */
  lemma PrintedIsAccepted(action: string, subject: string, challenge: string, chainId: Option<nat>)
    requires OneLine(action) && OneLine(subject) && OneLine(challenge)
    ensures var text := RootChallengeStatement(action, subject, challenge, chainId);
            CheckedRootChallengeStatement(Challenge(action, subject, challenge, text), action, subject) ==
              if chainId.None? || chainId.value < 1_000_000_000_000_000 then Ok(text) else Err(MalformedChainId)
  {
    FifteenDigits();
    ChainIdReadsBack(action, subject, challenge, chainId);
  }

  /** Whatever the issuer sends, what comes back is the statement it sent, and is canonical for what the caller asked. */
  lemma OnlyCanonicalIsReturned(issued: Challenge, action: string, subject: string)
    requires CheckedRootChallengeStatement(issued, action, subject).Ok?
    ensures var text := CheckedRootChallengeStatement(issued, action, subject).value;
            && text == issued.statement
            && ReadChainId(text).Ok?
            && text == RootChallengeStatement(action, subject, issued.challenge, ReadChainId(text).value)
            && (ReadChainId(text).value.Some? ==> ReadChainId(text).value.value < Pow10(CHAIN_DIGITS))
  {
    var line := ChainLine(Split(issued.statement, '\n'));
    if line.Some? { NumeralBound(line.value[|CHAIN|..], CHAIN_DIGITS); }
  }

  lemma {:induction false} NumeralBound(s: string, k: nat)
    requires OnlyDigits(s) && |s| <= k
    ensures ToNat(s) < Pow10(k)
  {
    if s == "" {
      Pow10Positive(k);
    } else {
      NumeralBound(s[..|s| - 1], k - 1);
    }
  }

  lemma {:induction false} Pow10Positive(k: nat)
    ensures Pow10(k) >= 1
  {
    if k > 0 { Pow10Positive(k - 1); }
  }

  /**
   No statement that the printer makes for another action or subject is ever returned, whatever chain it
   names: with one-line fields, the text a caller signs names only what the caller asked for.
   */
  lemma NeverSignsAnother(
    issued: Challenge, action: string, subject: string,
    otherAction: string, otherSubject: string, otherChallenge: string, otherChain: Option<nat>)
    requires OneLine(action) && OneLine(subject) && OneLine(issued.challenge)
    requires OneLine(otherAction) && OneLine(otherSubject) && OneLine(otherChallenge)
    requires CheckedRootChallengeStatement(issued, action, subject)
               == Ok(RootChallengeStatement(otherAction, otherSubject, otherChallenge, otherChain))
    ensures otherAction == action && otherSubject == subject && otherChallenge == issued.challenge
  {
    OnlyCanonicalIsReturned(issued, action, subject);
    StatementDeterminesFields(action, subject, issued.challenge, ReadChainId(issued.statement).value,
                              otherAction, otherSubject, otherChallenge, otherChain);
  }

  /**
   A statement is returned exactly when it was issued for the action and subject the caller asked for and
   is canonical for some chain id of at most 15 digits, or for none.
   */
  lemma ReturnedExactlyWhenCanonical(issued: Challenge, action: string, subject: string)
    requires OneLine(action) && OneLine(subject) && OneLine(issued.challenge)
    ensures CheckedRootChallengeStatement(issued, action, subject).Ok? <==>
              issued.action == action && issued.subject == subject && exists chainId: Option<nat> ::
                && (chainId.Some? ==> chainId.value < 1_000_000_000_000_000)
                && issued.statement == RootChallengeStatement(action, subject, issued.challenge, chainId)
  {
    if CheckedRootChallengeStatement(issued, action, subject).Ok? {
      FifteenDigits();
      OnlyCanonicalIsReturned(issued, action, subject);
    }
    forall chainId: Option<nat> |
      && (chainId.Some? ==> chainId.value < 1_000_000_000_000_000)
      && issued.statement == RootChallengeStatement(action, subject, issued.challenge, chainId)
      && issued.action == action && issued.subject == subject
      ensures CheckedRootChallengeStatement(issued, action, subject).Ok?
    {
      PrintedIsAccepted(action, subject, issued.challenge, chainId);
    }
  }

  // ---------- why the fields must be one line each ----------

  lemma {:induction false} JoinEnd(lines: seq<string>, last: string)
    requires lines != []
    ensures Join(lines + [last], '\n') == Join(lines, '\n') + ['\n'] + last
  {
    if |lines| > 1 {
      assert (lines + [last])[1..] == lines[1..] + [last];
      JoinEnd(lines[1..], last);
    }
  }

  function OwnChainLine(n: nat): string {
    ['\n'] + (CHAIN + ToDec(n))
  }

  lemma ChainIsLastLine(action: string, subject: string, challenge: string, n: nat)
    ensures RootChallengeStatement(action, subject, challenge, Some(n))
              == RootChallengeStatement(action, subject, challenge, None) + OwnChainLine(n)
  {
    JoinEnd(Lines(action, subject, challenge, None), CHAIN + ToDec(n));
    assert Lines(action, subject, challenge, Some(n)) == Lines(action, subject, challenge, None) + [CHAIN + ToDec(n)];
  }

  lemma ChallengeIsLastLine(action: string, subject: string, first: string, rest: string)
    ensures RootChallengeStatement(action, subject, first + rest, None) == RootChallengeStatement(action, subject, first, None) + rest
  {
    var head := [TITLE, "action: " + action, "subject: " + subject];
    JoinEnd(head, "challenge: " + (first + rest));
    JoinEnd(head, "challenge: " + first);
    assert Lines(action, subject, first + rest, None) == head + ["challenge: " + (first + rest)];
    assert Lines(action, subject, first, None) == head + ["challenge: " + first];
  }

  /**
   A challenge that carries a chain line of its own prints the very statement of another challenge with a
   chain id, and the checker refuses it: it reads that line as the chain id and prints it twice.
   */
  lemma LineBreakDefeatsTheCheck(action: string, subject: string, challenge: string, n: nat)
    requires OneLine(action) && OneLine(subject) && OneLine(challenge)
    ensures var broken := challenge + OwnChainLine(n);
            var text := RootChallengeStatement(action, subject, broken, None);
            && text == RootChallengeStatement(action, subject, challenge, Some(n))
            && CheckedRootChallengeStatement(Challenge(action, subject, broken, text), action, subject).Err?
  {
    var broken := challenge + OwnChainLine(n);
    var text := RootChallengeStatement(action, subject, broken, None);
    ChallengeIsLastLine(action, subject, challenge, OwnChainLine(n));
    ChainIsLastLine(action, subject, challenge, n);
    ChainIdReadsBack(action, subject, challenge, Some(n));
    ChainIsLastLine(action, subject, broken, n);
    assert |RootChallengeStatement(action, subject, broken, Some(n))| > |text|;
  }
}
