/**
 A definition printed as builder code (`packages/flows/src/codegen.ts`) and that code run again. The
 printed text is a sequence of tokens; a JSON literal is one token carrying its value.
 */
module FlowCode {
  import opened Maybe
  import opened FlowBuilders
  import Camel

  datatype Token = Sym(c: char) | Word(w: string) | Lit(v: Json)

  datatype Arg = Value(v: Json) | Undefined | Opts(pairs: seq<(string, Json)>)

  datatype Call = Call(name: string, args: seq<Arg>)

  // ---------- the calls printed for a definition ----------

  function KindName(kind: Kind): string {
    match kind
    case Model => "model"
    case Gate => "gate"
    case Branch => "branch"
    case Switch => "switch"
    case Agent => "agent"
    case Org => "org"
    case Budget => "budget"
    case Governance => "governance"
    case Human => "human"
    case Wait => "wait"
  }

  function OptionKeys(kind: Kind): seq<string> {
    match kind
    case Model => ["label", "system", "prompt", "model", "next"]
    case Gate => ["label", "agent", "target", "value", "onAllow", "onEscalate", "onDeny"]
    case Branch => ["label", "when", "onTrue", "onFalse"]
    case Switch => ["label", "when", "cases", "onDefault"]
    case Agent => ["label", "action", "agent", "prompt", "flowId", "next"]
    case Org => ["label", "action", "node", "parent", "nodeKind", "cap", "target", "allowed", "onAllow", "onEscalate", "onDeny"]
    case Budget => ["label", "action", "node", "amount", "onAllow", "onEscalate", "onDeny"]
    case Governance => ["label", "action", "proposalId", "support", "tier", "target", "data", "next"]
    case Human => ["label", "prompt", "options", "assignee", "timeoutMs", "timeoutPort"]
    case Wait => ["label", "reason", "token", "detail", "next"]
  }

  const TOOL_KEYS := ["label", "next"]

  /** The options that are set, in the order they are printed. */
  function Pairs(fields: map<string, Json>, keys: seq<string>): seq<(string, Json)> {
    if keys == [] then []
    else (if keys[0] in fields then [(keys[0], fields[keys[0]])] else []) + Pairs(fields, keys[1..])
  }

  function StepCall(step: FlowStep): Call {
    match step
    case KeyedStep(kind, id, fields) => Call(KindName(kind), [Value(Text(id)), Opts(Pairs(fields, OptionKeys(kind)))])
    case ToolStep(id, tool, args, fields) =>
      var opts := Pairs(fields, TOOL_KEYS);
      var third := if args.Some? && args.value.Keys != {} then [Value(Object(args.value))]
                   else if opts != [] then [Undefined] else [];
      var fourth := if opts != [] then [Opts(opts)] else [];
      Call("tool", [Value(Text(id)), Value(Text(tool))] + third + fourth)
  }

  function StepCalls(steps: seq<FlowStep>): seq<Call> {
    seq(|steps|, i requires 0 <= i < |steps| => StepCall(steps[i]))
  }

  /** A call that sets one string, left out when the string is missing or empty. */
  function TextCall(name: string, value: Option<string>): seq<Call> {
    if value.Some? && value.value != "" then [Call(name, [Value(Text(value.value))])] else []
  }

  function ScopeCall(scope: Option<FlowScope>): seq<Call> {
    if scope.None? then []
    else if scope.value.level == "org" then [Call("scope", [Value(Text("org"))])]
    else [Call("scope", [Value(Text(scope.value.level)), Value(Text(OrEmpty(scope.value.ref)))])]
  }

  /** "manual" is the default trigger, so it is not printed. */
  function PrintedTrigger(trigger: Option<string>): Option<string> {
    if trigger == Some("manual") then None else trigger
  }

  function HeadCalls(def: FlowDefinition): seq<Call> {
    TextCall("describe", def.description) + TextCall("trigger", PrintedTrigger(def.trigger))
    + TextCall("schedule", def.schedule) + ScopeCall(def.scope) + TextCall("entry", def.entry)
  }

  function Calls(def: FlowDefinition): seq<Call> {
    HeadCalls(def) + StepCalls(def.steps)
  }

  // ---------- spelling ----------

  function SpellPairs(pairs: seq<(string, Json)>): seq<Token> {
    if pairs == [] then []
    else
      [Word(pairs[0].0), Sym(':'), Lit(pairs[0].1)]
      + (if |pairs| == 1 then [] else [Sym(',')] + SpellPairs(pairs[1..]))
  }

  function SpellArg(arg: Arg): seq<Token> {
    match arg
    case Value(v) => [Lit(v)]
    case Undefined => [Word("undefined")]
    case Opts(pairs) => [Sym('{')] + SpellPairs(pairs) + [Sym('}')]
  }

  function SpellArgs(args: seq<Arg>): seq<Token> {
    if args == [] then []
    else SpellArg(args[0]) + (if |args| == 1 then [] else [Sym(',')] + SpellArgs(args[1..]))
  }

  function SpellCall(call: Call): seq<Token> {
    [Sym('.'), Word(call.name), Sym('(')] + SpellArgs(call.args) + [Sym(')')]
  }

  function SpellChain(calls: seq<Call>): seq<Token> {
    if calls == [] then [] else [Sym('\n')] + SpellCall(calls[0]) + SpellChain(calls[1..])
  }

  const IMPORT: seq<Token> :=
    [Word("import"), Sym('{'), Word("flow"), Sym('}'), Word("from"), Lit(Text("@lacrew/flows")), Sym(';')]

  function FlowLine(binding: string, id: string, name: string): seq<Token> {
    [Word("export"), Word("const"), Word(binding), Sym('='), Word("flow"), Sym('('), Lit(Text(id)), Sym(','), Lit(Text(name)), Sym(')')]
  }

  /** The whole printed module. */
  function Code(def: FlowDefinition): seq<Token> {
    IMPORT + [Sym('\n'), Sym('\n')] + FlowLine(Camel.CamelName(def.id), def.id, def.name) + SpellChain(Calls(def)) + [Sym(';')]
  }

  function JoinLines(lines: seq<seq<Token>>): seq<Token> {
    if lines == [] then []
    else if |lines| == 1 then lines[0]
    else JoinLines(lines[..|lines| - 1]) + [Sym('\n')] + lines[|lines| - 1]
  }

  function SpellLines(calls: seq<Call>): seq<seq<Token>> {
    seq(|calls|, i requires 0 <= i < |calls| => SpellCall(calls[i]))
  }

  lemma Regroup<T>(a: seq<T>, b: seq<T>, c: seq<T>, d: seq<T>, e: seq<T>)
    ensures a + (b + c) + d + e == a + (b + (c + d + e))
    ensures a + b + c + d == a + (b + c + d)
    ensures a + b + c == a + (b + c)
  {
  }

  lemma ChainCons(first: Call, more: seq<Call>)
    ensures SpellChain([first] + more) == [Sym('\n')] + SpellCall(first) + SpellChain(more)
  {
  }

  lemma {:induction false} ChainSnoc(calls: seq<Call>, last: Call)
    ensures SpellChain(calls + [last]) == SpellChain(calls) + [Sym('\n')] + SpellCall(last)
  {
    if calls == [] {
      ChainCons(last, []);
      assert [last] + [] == [] + [last] && calls + [last] == [] + [last];
    } else {
      var more := calls[1..];
      ChainSnoc(more, last);
      ChainCons(calls[0], more + [last]);
      ChainCons(calls[0], more);
      assert calls + [last] == [calls[0]] + (more + [last]) && calls == [calls[0]] + more;
      Regroup([Sym('\n')] + SpellCall(calls[0]), SpellChain(more), [Sym('\n')], SpellCall(last), []);
    }
  }

  lemma JoinSnoc(lines: seq<seq<Token>>, last: seq<Token>)
    requires lines != []
    ensures JoinLines(lines + [last]) == JoinLines(lines) + [Sym('\n')] + last
  {
  }

  lemma {:induction false} JoinedChain(head: seq<seq<Token>>, calls: seq<Call>)
    requires head != []
    ensures JoinLines(head + SpellLines(calls)) == JoinLines(head) + SpellChain(calls)
  {
    if calls == [] {
      assert head + SpellLines(calls) == head;
    } else {
      var init, last := calls[..|calls| - 1], calls[|calls| - 1];
      assert calls == init + [last];
      assert head + SpellLines(calls) == head + SpellLines(init) + [SpellCall(last)];
      JoinedChain(head, init);
      JoinSnoc(head + SpellLines(init), SpellCall(last));
      ChainSnoc(init, last);
      Regroup(JoinLines(head), SpellChain(init), [Sym('\n')], SpellCall(last), []);
    }
  }

  lemma SpelledTogether(first: seq<Call>, second: seq<Call>)
    ensures SpellLines(first + second) == SpellLines(first) + SpellLines(second)
  {
  }

  method PushText(lines: seq<seq<Token>>, name: string, value: Option<string>) returns (out: seq<seq<Token>>)
    ensures out == lines + SpellLines(TextCall(name, value))
  {
    out := lines;
    if value.Some? && value.value != "" {
      out := out + [SpellCall(Call(name, [Value(Text(value.value))]))];
    }
  }

  method PushScope(lines: seq<seq<Token>>, scope: Option<FlowScope>) returns (out: seq<seq<Token>>)
    ensures out == lines + SpellLines(ScopeCall(scope))
  {
    out := lines;
    if scope.Some? && scope.value.level != "org" {
      out := out + [SpellCall(Call("scope", [Value(Text(scope.value.level)), Value(Text(OrEmpty(scope.value.ref)))]))];
    } else if scope.Some? {
      out := out + [SpellCall(Call("scope", [Value(Text(scope.value.level))]))];
    }
  }

  lemma HeadSpelled(def: FlowDefinition)
    ensures SpellLines(HeadCalls(def))
              == SpellLines(TextCall("describe", def.description)) + SpellLines(TextCall("trigger", PrintedTrigger(def.trigger)))
                 + SpellLines(TextCall("schedule", def.schedule)) + SpellLines(ScopeCall(def.scope))
                 + SpellLines(TextCall("entry", def.entry))
  {
  }

  /** What is added to the last line ends the text. */
  lemma JoinedEnd(lines: seq<seq<Token>>, end: seq<Token>)
    requires lines != []
    ensures JoinLines(lines[|lines| - 1 := lines[|lines| - 1] + end]) == JoinLines(lines) + end
  {
  }

  lemma JoinedHeader(first: seq<Token>, last: seq<Token>)
    ensures JoinLines([first, [], last]) == first + [Sym('\n'), Sym('\n')] + last
  {
    assert [first, [], last][..2] == [first, []];
    assert [first, []][..1] == [first];
    assert JoinLines([first, []]) == first + [Sym('\n')] + [];
  }

  function Opening(def: FlowDefinition): (lines: seq<seq<Token>>)
    ensures |lines| == 3
  {
    [IMPORT, [], FlowLine(Camel.CamelName(def.id), def.id, def.name)]
  }

  lemma LinesAreCode(def: FlowDefinition, lines: seq<seq<Token>>)
    requires lines == Opening(def) + SpellLines(HeadCalls(def)) + SpellLines(StepCalls(def.steps))
    ensures JoinLines(lines[|lines| - 1 := lines[|lines| - 1] + [Sym(';')]]) == Code(def)
  {
    SpelledTogether(HeadCalls(def), StepCalls(def.steps));
    Regroup(Opening(def), SpellLines(HeadCalls(def)), SpellLines(StepCalls(def.steps)), [], []);
    JoinedChain(Opening(def), Calls(def));
    JoinedHeader(IMPORT, FlowLine(Camel.CamelName(def.id), def.id, def.name));
    JoinedEnd(lines, [Sym(';')]);
  }

  lemma SpelledSnoc(calls: seq<Call>, call: Call)
    ensures SpellLines(calls + [call]) == SpellLines(calls) + [SpellCall(call)]
  {
  }

  lemma StepCallsSnoc(steps: seq<FlowStep>, i: nat)
    requires i < |steps|
    ensures StepCalls(steps[..i + 1]) == StepCalls(steps[..i]) + [StepCall(steps[i])]
  {
  }

  lemma StepsSpelledSnoc(steps: seq<FlowStep>, i: nat)
    requires i < |steps|
    ensures SpellLines(StepCalls(steps[..i + 1])) == SpellLines(StepCalls(steps[..i])) + [SpellCall(StepCall(steps[i]))]
  {
    StepCallsSnoc(steps, i);
    SpelledSnoc(StepCalls(steps[..i]), StepCall(steps[i]));
  }

  lemma RegroupFive<T>(o: seq<T>, a: seq<T>, b: seq<T>, c: seq<T>, d: seq<T>, e: seq<T>)
    ensures o + a + b + c + d + e == o + (a + b + c + d + e)
  {
  }

  /** The lines before the steps. */
  method PushHead(def: FlowDefinition) returns (lines: seq<seq<Token>>)
    ensures lines == Opening(def) + SpellLines(HeadCalls(def))
  {
    lines := Opening(def);
    lines := PushText(lines, "describe", def.description);
    lines := PushText(lines, "trigger", PrintedTrigger(def.trigger));
    lines := PushText(lines, "schedule", def.schedule);
    lines := PushScope(lines, def.scope);
    lines := PushText(lines, "entry", def.entry);
    RegroupFive(Opening(def), SpellLines(TextCall("describe", def.description)),
                SpellLines(TextCall("trigger", PrintedTrigger(def.trigger))), SpellLines(TextCall("schedule", def.schedule)),
                SpellLines(ScopeCall(def.scope)), SpellLines(TextCall("entry", def.entry)));
    HeadSpelled(def);
  }

  method FlowToCode(def: FlowDefinition) returns (code: seq<Token>)
    ensures code == Code(def)
  {
    var lines := PushHead(def);
    ghost var head := lines;
    for i := 0 to |def.steps|
      invariant lines == head + SpellLines(StepCalls(def.steps[..i]))
    {
      StepsSpelledSnoc(def.steps, i);
      lines := lines + [SpellCall(StepCall(def.steps[i]))];
    }
    assert def.steps[..|def.steps|] == def.steps;
    LinesAreCode(def, lines);
    lines := lines[|lines| - 1 := lines[|lines| - 1] + [Sym(';')]];
    code := JoinLines(lines);
  }

  // ---------- reading the code back ----------

  type Rest<T> = Option<(T, seq<Token>)>

  /** Options after their opening brace, up to and including the closing one. */
  function ReadPairs(ts: seq<Token>): (r: Rest<seq<(string, Json)>>)
    ensures r.Some? ==> |r.value.1| < |ts|
  {
    if |ts| >= 1 && ts[0] == Sym('}') then Some(([], ts[1..]))
    else if |ts| >= 4 && ts[0].Word? && ts[1] == Sym(':') && ts[2].Lit? then
      var pair := (ts[0].w, ts[2].v);
      if ts[3] == Sym('}') then Some(([pair], ts[4..]))
      else if ts[3] == Sym(',') then
        match ReadPairs(ts[4..])
        case None => None
        case Some((more, rest)) => Some(([pair] + more, rest))
      else None
    else None
  }

  function ReadArg(ts: seq<Token>): (r: Rest<Arg>)
    ensures r.Some? ==> |r.value.1| < |ts|
  {
    if ts == [] then None
    else match ts[0]
      case Lit(v) => Some((Value(v), ts[1..]))
      case Word(w) => if w == "undefined" then Some((Undefined, ts[1..])) else None
      case Sym(c) =>
        if c != '{' then None
        else match ReadPairs(ts[1..])
          case None => None
          case Some((pairs, rest)) => Some((Opts(pairs), rest))
  }

  /** Arguments up to and including the closing parenthesis. */
  function ReadArgs(ts: seq<Token>): (r: Rest<seq<Arg>>)
    ensures r.Some? ==> |r.value.1| < |ts|
    decreases |ts|
  {
    match ReadArg(ts)
    case None => None
    case Some((arg, rest)) =>
      if rest == [] then None
      else if rest[0] == Sym(')') then Some(([arg], rest[1..]))
      else if rest[0] == Sym(',') then
        match ReadArgs(rest[1..])
        case None => None
        case Some((more, after)) => Some(([arg] + more, after))
      else None
  }

  /** One chained call on a line of its own. */
  function ReadCall(ts: seq<Token>): (r: Rest<Call>)
    ensures r.Some? ==> |r.value.1| < |ts|
  {
    if |ts| >= 4 && ts[0] == Sym('\n') && ts[1] == Sym('.') && ts[2].Word? && ts[3] == Sym('(') then
      match ReadArgs(ts[4..])
      case None => None
      case Some((args, rest)) => Some((Call(ts[2].w, args), rest))
    else None
  }

  /** The chained calls up to the final semicolon. */
  function ReadChain(ts: seq<Token>): Option<seq<Call>>
    decreases |ts|
  {
    if ts == [Sym(';')] then Some([])
    else
      match ReadCall(ts)
      case None => None
      case Some((call, rest)) =>
        match ReadChain(rest)
        case None => None
        case Some(more) => Some([call] + more)
  }

  lemma {:induction false} PairsReadBack(pairs: seq<(string, Json)>, rest: seq<Token>)
    ensures ReadPairs(SpellPairs(pairs) + [Sym('}')] + rest) == Some((pairs, rest))
  {
    var ts := SpellPairs(pairs) + [Sym('}')] + rest;
    if pairs == [] {
      assert ts[1..] == rest;
    } else if |pairs| == 1 {
      assert ts[4..] == rest && pairs == [pairs[0]];
    } else {
      PairsReadBack(pairs[1..], rest);
      assert ts[4..] == SpellPairs(pairs[1..]) + [Sym('}')] + rest;
      assert pairs == [pairs[0]] + pairs[1..];
    }
  }

  lemma OptsReadBack(pairs: seq<(string, Json)>, rest: seq<Token>)
    ensures ReadArg(SpellArg(Opts(pairs)) + rest) == Some((Opts(pairs), rest))
  {
    var tail := SpellPairs(pairs) + [Sym('}')] + rest;
    PairsReadBack(pairs, rest);
    Regroup([Sym('{')], SpellPairs(pairs), [Sym('}')], rest, []);
    assert ([Sym('{')] + tail)[1..] == tail;
  }

  lemma ArgReadsBack(arg: Arg, rest: seq<Token>)
    ensures ReadArg(SpellArg(arg) + rest) == Some((arg, rest))
  {
    if arg.Opts? {
      OptsReadBack(arg.pairs, rest);
    } else {
      assert (SpellArg(arg) + rest)[1..] == rest;
    }
  }

  lemma LastArgReadsBack(arg: Arg, rest: seq<Token>)
    ensures ReadArgs(SpellArg(arg) + ([Sym(')')] + rest)) == Some(([arg], rest))
  {
    ArgReadsBack(arg, [Sym(')')] + rest);
    assert ([Sym(')')] + rest)[1..] == rest;
  }

  lemma NextArgReadsBack(arg: Arg, more: seq<Arg>, tail: seq<Token>, rest: seq<Token>)
    requires ReadArgs(tail) == Some((more, rest))
    ensures ReadArgs(SpellArg(arg) + ([Sym(',')] + tail)) == Some(([arg] + more, rest))
  {
    ArgReadsBack(arg, [Sym(',')] + tail);
    assert ([Sym(',')] + tail)[1..] == tail;
  }

  lemma ArgsSpelled(args: seq<Arg>, rest: seq<Token>)
    requires args != []
    ensures SpellArgs(args) + [Sym(')')] + rest ==
              if |args| == 1 then SpellArg(args[0]) + ([Sym(')')] + rest)
              else SpellArg(args[0]) + ([Sym(',')] + (SpellArgs(args[1..]) + [Sym(')')] + rest))
  {
    var first := SpellArg(args[0]);
    if |args| == 1 {
      assert SpellArgs(args) == first + [];
      Regroup(first, [], [], [Sym(')')], rest);
    } else {
      Regroup(first, [Sym(',')], SpellArgs(args[1..]), [Sym(')')], rest);
    }
  }

  lemma {:induction false} ArgsReadBack(args: seq<Arg>, rest: seq<Token>)
    requires args != []
    ensures ReadArgs(SpellArgs(args) + [Sym(')')] + rest) == Some((args, rest))
    decreases |args|
  {
    ArgsSpelled(args, rest);
    if |args| == 1 {
      assert args == [args[0]];
      LastArgReadsBack(args[0], rest);
    } else {
      var tail := SpellArgs(args[1..]) + [Sym(')')] + rest;
      calc {
        ReadArgs(SpellArgs(args) + [Sym(')')] + rest);
        ReadArgs(SpellArg(args[0]) + ([Sym(',')] + tail));
        { ArgsReadBack(args[1..], rest); NextArgReadsBack(args[0], args[1..], tail, rest); }
        Some(([args[0]] + args[1..], rest));
        { assert args == [args[0]] + args[1..]; }
        Some((args, rest));
      }
    }
  }

  lemma CallStarts(a: Token, b: Token, c: Token, d: Token, args: seq<Token>, end: Token, after: seq<Token>)
    ensures var ts := [a] + ([b, c, d] + args + [end]) + after;
            |ts| >= 4 && ts[0] == a && ts[1] == b && ts[2] == c && ts[3] == d && ts[4..] == args + [end] + after
  {
  }

  lemma CallReadsBack(call: Call, after: seq<Token>)
    requires call.args != []
    ensures ReadCall([Sym('\n')] + SpellCall(call) + after) == Some((call, after))
  {
    CallStarts(Sym('\n'), Sym('.'), Word(call.name), Sym('('), SpellArgs(call.args), Sym(')'), after);
    ArgsReadBack(call.args, after);
  }

  predicate Spellable(calls: seq<Call>) {
    forall i :: 0 <= i < |calls| ==> calls[i].args != []
  }

  /** The spelling of a chain of calls determines the calls, their order and every argument. */
  lemma {:induction false} ChainReadsBack(calls: seq<Call>)
    requires Spellable(calls)
    ensures ReadChain(SpellChain(calls) + [Sym(';')]) == Some(calls)
  {
    var ts := SpellChain(calls) + [Sym(';')];
    if calls == [] {
      assert ts == [Sym(';')];
    } else {
      var after := SpellChain(calls[1..]) + [Sym(';')];
      ChainReadsBack(calls[1..]);
      CallReadsBack(calls[0], after);
      assert ts == [Sym('\n')] + SpellCall(calls[0]) + after;
      assert calls == [calls[0]] + calls[1..];
    }
  }

  // ---------- running the code ----------

  function KindNamed(name: string): Option<Kind> {
    if name == "model" then Some(Model)
    else if name == "gate" then Some(Gate)
    else if name == "branch" then Some(Branch)
    else if name == "switch" then Some(Switch)
    else if name == "agent" then Some(Agent)
    else if name == "org" then Some(Org)
    else if name == "budget" then Some(Budget)
    else if name == "governance" then Some(Governance)
    else if name == "human" then Some(Human)
    else if name == "wait" then Some(Wait)
    else None
  }

  /** An options object literal: a key given twice keeps its last value. */
  function MapOf(pairs: seq<(string, Json)>): map<string, Json> {
    if pairs == [] then map[] else map[pairs[0].0 := pairs[0].1] + MapOf(pairs[1..])
  }

  predicate TextArg(arg: Arg) {
    arg.Value? && arg.v.Text?
  }

  function StepOf(call: Call): Option<FlowStep> {
    var n := |call.args|;
    if n < 2 || !TextArg(call.args[0]) then None
    else if call.name == "tool" then
      if n > 4 || !TextArg(call.args[1]) || (n >= 3 && !IsArgs(call.args[2])) || (n == 4 && !call.args[3].Opts?) then None
      else Some(ToolStep(call.args[0].v.text, call.args[1].v.text,
                         if n >= 3 then ArgsOf(call.args[2]) else None,
                         if n == 4 then MapOf(call.args[3].pairs) else map[]))
    else
      var kind := KindNamed(call.name);
      if n != 2 || kind.None? || !call.args[1].Opts? then None
      else Some(KeyedStep(kind.value, call.args[0].v.text, MapOf(call.args[1].pairs)))
  }

  predicate IsArgs(arg: Arg) {
    arg.Undefined? || (arg.Value? && arg.v.Object?)
  }

  function ArgsOf(arg: Arg): Option<map<string, Json>>
    requires IsArgs(arg)
  {
    if arg.Undefined? then None else Some(arg.v.keys)
  }

  /** What one call of the chain does to the definition being built. */
  function Performed(def: FlowDefinition, call: Call): Option<FlowDefinition> {
    var n := |call.args|;
    if call.name == "source" then
      if n == 1 && call.args[0].Value? then Some(def.(source := Some(call.args[0].v))) else None
    else if n == 0 || !TextArg(call.args[0]) then None
    else
      var text := call.args[0].v.text;
      if call.name == "scope" then
        if n == 1 then Some(def.(scope := Some(FlowScope(text, None, NO_LIMITS))))
        else if n == 2 && TextArg(call.args[1]) then Some(def.(scope := Some(FlowScope(text, Some(call.args[1].v.text), NO_LIMITS))))
        else None
      else if n > 1 then
        var step := StepOf(call);
        if step.Some? then Some(WithStep(def, step.value)) else None
      else if call.name == "describe" then Some(def.(description := Some(text)))
      else if call.name == "trigger" then Some(def.(trigger := Some(text)))
      else if call.name == "schedule" then Some(def.(schedule := Some(text)))
      else if call.name == "entry" then Some(def.(entry := Some(text)))
      else None
  }

  function AllPerformed(def: FlowDefinition, calls: seq<Call>): Option<FlowDefinition>
    decreases |calls|
  {
    if calls == [] then Some(def)
    else
      var next := Performed(def, calls[0]);
      if next.None? then None else AllPerformed(next.value, calls[1..])
  }

  const CHAIN_AT := |IMPORT| + 2 + 10

  predicate StartsAsFlow(code: seq<Token>) {
    && |code| >= CHAIN_AT
    && code[..|IMPORT|] == IMPORT && code[|IMPORT|] == Sym('\n') && code[|IMPORT| + 1] == Sym('\n')
    && var line := code[|IMPORT| + 2..CHAIN_AT];
       && line[2].Word? && line[6].Lit? && line[6].v.Text? && line[8].Lit? && line[8].v.Text?
       && line == FlowLine(line[2].w, line[6].v.text, line[8].v.text)
  }

  predicate UsesUndefined(calls: seq<Call>) {
    exists i :: 0 <= i < |calls| && Undefined in calls[i].args
  }

  /**
   The module can declare this constant: the name is not reserved, not the import's, and when it is
   `undefined` the calls that initialize it do not read it.
   */
  predicate Declares(binding: string, calls: seq<Call>) {
    !Camel.Reserved(binding) && binding != "flow" && !(binding == "undefined" && UsesUndefined(calls))
  }

  /** The constant's name and the calls that make it, read off a module of builder code. */
  function ReadModule(code: seq<Token>): Option<(string, FlowDefinition, seq<Call>)> {
    if !StartsAsFlow(code) then None
    else
      var line := code[|IMPORT| + 2..CHAIN_AT];
      match ReadChain(code[CHAIN_AT..])
      case None => None
      case Some(calls) => Some((line[2].w, Fresh(line[6].v.text, line[8].v.text), calls))
  }

  /** The definition a module of builder code exports; none when it does not load. */
  function Meaning(code: seq<Token>): Option<FlowDefinition> {
    match ReadModule(code)
    case None => None
    case Some((binding, start, calls)) => if Declares(binding, calls) then AllPerformed(start, calls) else None
  }

  /** One call of the chain, made on the builder. */
  method Perform(b: FlowBuilder, call: Call) returns (ok: bool)
    modifies b
    ensures ok <==> Performed(old(b.def), call).Some?
    ensures ok ==> Some(b.def) == Performed(old(b.def), call)
  {
    var n, self := |call.args|, b;
    if call.name == "source" {
      ok := n == 1 && call.args[0].Value?;
      if ok { self := b.Source(Some(call.args[0].v)); }
      return;
    }
    if n == 0 || !TextArg(call.args[0]) { return false; }
    var text := call.args[0].v.text;
    ok := true;
    if call.name == "scope" {
      if n == 1 {
        self := b.Scope(text, None, NO_LIMITS);
      } else if n == 2 && TextArg(call.args[1]) {
        self := b.Scope(text, Some(call.args[1].v.text), NO_LIMITS);
      } else {
        ok := false;
      }
    } else if n > 1 {
      ok := PerformStep(b, call);
    } else if call.name == "describe" {
      self := b.Describe(text);
    } else if call.name == "trigger" {
      self := b.Trigger(text);
    } else if call.name == "schedule" {
      self := b.Schedule(text);
    } else if call.name == "entry" {
      self := b.Entry(text);
    } else {
      ok := false;
    }
  }

  method PerformStep(b: FlowBuilder, call: Call) returns (ok: bool)
    modifies b
    ensures ok <==> StepOf(call).Some?
    ensures ok ==> b.def == WithStep(old(b.def), StepOf(call).value)
  {
    var step := StepOf(call);
    if step.None? { return false; }
    var self := b;
    match step.value {
      case ToolStep(id, tool, args, opts) => self := b.Tool(id, tool, args, opts);
      case KeyedStep(kind, id, opts) => self := b.Keyed(kind, id, opts);
    }
    ok := true;
  }

  /** Running builder code on a real builder object gives its meaning. */
  method RunCode(code: seq<Token>) returns (def: Option<FlowDefinition>)
    ensures def == Meaning(code)
  {
    var read := ReadModule(code);
    if read.None? { return None; }
    var (binding, start, calls) := read.value;
    if !Declares(binding, calls) { return None; }
    var b := new FlowBuilder(start.id, start.name);
    for i := 0 to |calls|
      invariant fresh(b) && AllPerformed(b.def, calls[i..]) == Meaning(code)
    {
      var ok := Perform(b, calls[i]);
      assert calls[i..][0] == calls[i] && calls[i..][1..] == calls[i + 1..];
      if !ok { return None; }
    }
    var copy := b.ToJSON();
    def := Some(copy);
  }

  // ---------- what the printer erases ----------

  function Only(fields: map<string, Json>, keys: set<string>): map<string, Json> {
    map k | k in fields && k in keys :: fields[k]
  }

  /** Of what a step declares, its label and its own fields are printed; its note, its canvas data and whether it may be run twice are not. */
  function ErasedStep(step: FlowStep): FlowStep {
    match step
    case KeyedStep(kind, id, fields) => KeyedStep(kind, id, Only(fields, {"label"} + OwnFields(kind)))
    case ToolStep(id, tool, args, fields) =>
      ToolStep(id, tool, if args.Some? && args.value.Keys != {} then args else None, Only(fields, {"label"} + TOOL_FIELDS))
  }

  function ErasedSteps(steps: seq<FlowStep>): seq<FlowStep> {
    seq(|steps|, i requires 0 <= i < |steps| => ErasedStep(steps[i]))
  }

  function NonEmpty(s: Option<string>): Option<string> {
    if s == Some("") then None else s
  }

  function ErasedScope(scope: FlowScope): FlowScope {
    FlowScope(scope.level, if scope.level == "org" then None else Some(OrEmpty(scope.ref)), NO_LIMITS)
  }

  /** The definition with exactly what the printer drops dropped. */
  function Erased(def: FlowDefinition): FlowDefinition {
    FlowDefinition(
      def.id, def.name, NonEmpty(def.description), NonEmpty(PrintedTrigger(def.trigger)), NonEmpty(def.schedule),
      if def.scope.Some? then Some(ErasedScope(def.scope.value)) else None,
      NonEmpty(def.entry),
      ErasedSteps(def.steps),
      None)
  }

  predicate StepSurvives(step: FlowStep) {
    match step
    case KeyedStep(kind, _, fields) => fields.Keys <= {"label"} + OwnFields(kind)
    case ToolStep(_, _, args, fields) => args != Some(map[]) && fields.Keys <= {"label"} + TOOL_FIELDS
  }

  /** Beside its steps, nothing in the definition is of the kind the printer drops. */
  predicate HeadSurvives(def: FlowDefinition) {
    && def.source.None?
    && def.description != Some("") && def.schedule != Some("") && def.entry != Some("")
    && def.trigger != Some("") && def.trigger != Some("manual")
    && (def.scope.Some? ==>
          && def.scope.value.limits == NO_LIMITS
          && (def.scope.value.ref.Some? <==> def.scope.value.level != "org"))
  }

  predicate Survives(def: FlowDefinition) {
    HeadSurvives(def) && forall i :: 0 <= i < |def.steps| ==> StepSurvives(def.steps[i])
  }

  lemma {:induction false} PairsHoldTheFields(fields: map<string, Json>, keys: seq<string>)
    ensures MapOf(Pairs(fields, keys)) == map k | k in fields && k in keys :: fields[k]
  {
    if keys != [] {
      PairsHoldTheFields(fields, keys[1..]);
      var rest := Pairs(fields, keys[1..]);
      assert keys == [keys[0]] + keys[1..];
      if keys[0] in fields {
        assert ([(keys[0], fields[keys[0]])] + rest)[1..] == rest;
      } else {
        assert [] + rest == rest;
      }
    }
  }

  /** The printer's list for a kind names its label and exactly the fields its step type declares. */
  lemma KeysAreDeclared(kind: Kind)
    ensures forall k :: k in OptionKeys(kind) <==> k in {"label"} + OwnFields(kind)
    ensures forall k :: k in TOOL_KEYS <==> k in {"label"} + TOOL_FIELDS
  {
  }

  lemma PairsHoldTheDeclared(fields: map<string, Json>, kind: Kind)
    ensures MapOf(Pairs(fields, OptionKeys(kind))) == Only(fields, {"label"} + OwnFields(kind))
    ensures MapOf(Pairs(fields, TOOL_KEYS)) == Only(fields, {"label"} + TOOL_FIELDS)
  {
    KeysAreDeclared(kind);
    PairsHoldTheFields(fields, OptionKeys(kind));
    PairsHoldTheFields(fields, TOOL_KEYS);
  }

  lemma KindNamesAreDistinct(kind: Kind)
    ensures KindNamed(KindName(kind)) == Some(kind) && KindName(kind) == KindText(kind)
    ensures KindName(kind) !in ["tool", "describe", "trigger", "schedule", "scope", "source", "entry"]
  {
  }

  /** The call printed for a step makes that step again, less what is erased. */
  lemma StepCallMakesStep(step: FlowStep)
    ensures StepOf(StepCall(step)) == Some(ErasedStep(step))
    ensures var call := StepCall(step);
            call.name != "scope" && call.name != "source" && |call.args| >= 2 && TextArg(call.args[0])
  {
    match step {
      case KeyedStep(kind, id, fields) =>
        KindNamesAreDistinct(kind);
        PairsHoldTheDeclared(fields, kind);
      case ToolStep(id, tool, args, fields) =>
        PairsHoldTheDeclared(fields, Model);
    }
  }

  lemma {:induction false} PerformedInTurn(def: FlowDefinition, first: seq<Call>, second: seq<Call>)
    requires AllPerformed(def, first).Some?
    ensures AllPerformed(def, first + second) == AllPerformed(AllPerformed(def, first).value, second)
    decreases |first|
  {
    if first == [] {
      assert first + second == second;
    } else {
      assert (first + second)[0] == first[0] && (first + second)[1..] == first[1..] + second;
      PerformedInTurn(Performed(def, first[0]).value, first[1..], second);
    }
  }

  lemma StepPerformed(def: FlowDefinition, step: FlowStep)
    ensures Performed(def, StepCall(step)) == Some(WithStep(def, ErasedStep(step)))
  {
    StepCallMakesStep(step);
  }

  lemma FirstPerformed(def: FlowDefinition, call: Call, next: FlowDefinition, more: seq<Call>)
    requires Performed(def, call) == Some(next)
    ensures AllPerformed(def, [call] + more) == AllPerformed(next, more)
  {
  }

  lemma CallsSplit(steps: seq<FlowStep>)
    requires steps != []
    ensures StepCalls(steps) == [StepCall(steps[0])] + StepCalls(steps[1..])
  {
  }

  lemma ErasedSplit(steps: seq<FlowStep>)
    requires steps != []
    ensures ErasedSteps(steps) == [ErasedStep(steps[0])] + ErasedSteps(steps[1..])
  {
  }

  lemma {:induction false} StepsPerformed(def: FlowDefinition, steps: seq<FlowStep>)
    ensures AllPerformed(def, StepCalls(steps)) == Some(def.(steps := def.steps + ErasedSteps(steps)))
    decreases |steps|
  {
    if steps == [] {
      assert def.steps + ErasedSteps(steps) == def.steps;
    } else {
      var next := WithStep(def, ErasedStep(steps[0]));
      StepPerformed(def, steps[0]);
      CallsSplit(steps);
      ErasedSplit(steps);
      FirstPerformed(def, StepCall(steps[0]), next, StepCalls(steps[1..]));
      StepsPerformed(next, steps[1..]);
      Regroup(def.steps, [ErasedStep(steps[0])], ErasedSteps(steps[1..]), [], []);
    }
  }

  /** A printed setter call sets its field; one that is left out leaves the field unset. */
  lemma TextPerformed(def: FlowDefinition, name: string, value: Option<string>)
    requires name in ["describe", "trigger", "schedule", "entry"]
    requires name == "describe" ==> def.description.None?
    requires name == "trigger" ==> def.trigger.None?
    requires name == "schedule" ==> def.schedule.None?
    requires name == "entry" ==> def.entry.None?
    ensures AllPerformed(def, TextCall(name, value)) == Some(
              if name == "describe" then def.(description := NonEmpty(value))
              else if name == "trigger" then def.(trigger := NonEmpty(value))
              else if name == "schedule" then def.(schedule := NonEmpty(value))
              else def.(entry := NonEmpty(value)))
  {
  }

  lemma ScopePerformed(def: FlowDefinition, scope: Option<FlowScope>)
    requires def.scope.None?
    ensures AllPerformed(def, ScopeCall(scope)) == Some(def.(scope := if scope.Some? then Some(ErasedScope(scope.value)) else None))
  {
  }

  lemma HeadPerformed(def: FlowDefinition)
    ensures AllPerformed(Fresh(def.id, def.name), HeadCalls(def)) == Some(Erased(def).(steps := []))
  {
    var d0 := Fresh(def.id, def.name);
    var d1 := d0.(description := NonEmpty(def.description));
    var d2 := d1.(trigger := NonEmpty(PrintedTrigger(def.trigger)));
    var d3 := d2.(schedule := NonEmpty(def.schedule));
    var d4 := d3.(scope := Erased(def).scope);
    var c1, c2, c3, c4 := TextCall("describe", def.description), TextCall("trigger", PrintedTrigger(def.trigger)),
      TextCall("schedule", def.schedule), ScopeCall(def.scope);
    var c5 := TextCall("entry", def.entry);
    TextPerformed(d0, "describe", def.description);
    TextPerformed(d1, "trigger", PrintedTrigger(def.trigger));
    TextPerformed(d2, "schedule", def.schedule);
    ScopePerformed(d3, def.scope);
    TextPerformed(d4, "entry", def.entry);
    PerformedInTurn(d0, c1, c2);
    PerformedInTurn(d0, c1 + c2, c3);
    PerformedInTurn(d0, c1 + c2 + c3, c4);
    PerformedInTurn(d0, c1 + c2 + c3 + c4, c5);
  }

  lemma CallsAreSpellable(def: FlowDefinition)
    ensures Spellable(Calls(def))
  {
  }

  lemma CallsPerformed(def: FlowDefinition)
    ensures AllPerformed(Fresh(def.id, def.name), Calls(def)) == Some(Erased(def))
  {
    HeadPerformed(def);
    PerformedInTurn(Fresh(def.id, def.name), HeadCalls(def), StepCalls(def.steps));
    StepsPerformed(Erased(def).(steps := []), def.steps);
    assert [] + Erased(def).steps == Erased(def).steps;
  }

  lemma CodeStartsAsFlow(binding: string, id: string, name: string, chain: seq<Token>)
    ensures var code := IMPORT + [Sym('\n'), Sym('\n')] + FlowLine(binding, id, name) + chain;
            StartsAsFlow(code) && code[|IMPORT| + 2..CHAIN_AT] == FlowLine(binding, id, name) && code[CHAIN_AT..] == chain
  {
  }

  lemma CodeReadsBack(def: FlowDefinition)
    ensures ReadModule(Code(def)) == Some((Camel.CamelName(def.id), Fresh(def.id, def.name), Calls(def)))
  {
    var chain := SpellChain(Calls(def)) + [Sym(';')];
    CodeStartsAsFlow(Camel.CamelName(def.id), def.id, def.name, chain);
    assert Code(def) == IMPORT + [Sym('\n'), Sym('\n')] + FlowLine(Camel.CamelName(def.id), def.id, def.name) + chain;
    CallsAreSpellable(def);
    ChainReadsBack(Calls(def));
  }

  /** A tool step whose printed options stand behind arguments it does not have. */
  predicate SkipsArgs(step: FlowStep) {
    step.ToolStep? && (step.args.None? || step.args.value.Keys == {}) && exists k :: k in TOOL_KEYS && k in step.fields
  }

  /** The code printed for the definition loads: its id names a constant the module can declare. */
  predicate Loads(def: FlowDefinition) {
    var name := Camel.CamelName(def.id);
    && !Camel.Reserved(name) && name != "flow"
    && (name == "undefined" ==> forall i :: 0 <= i < |def.steps| ==> !SkipsArgs(def.steps[i]))
  }

  lemma {:induction false} NoPairsExactly(fields: map<string, Json>, keys: seq<string>)
    ensures Pairs(fields, keys) == [] <==> forall k :: k in keys ==> k !in fields
  {
    if keys != [] {
      NoPairsExactly(fields, keys[1..]);
      assert keys == [keys[0]] + keys[1..];
    }
  }

  lemma PlaceholderPrinted(step: FlowStep)
    ensures Undefined in StepCall(step).args <==> SkipsArgs(step)
  {
    match step {
      case KeyedStep(kind, id, fields) => assert StepCall(step).args == [Value(Text(id)), Opts(Pairs(fields, OptionKeys(kind)))];
      case ToolStep(id, tool, args, fields) =>
        NoPairsExactly(fields, TOOL_KEYS);
    }
  }

  lemma UsesInEither(first: seq<Call>, second: seq<Call>)
    ensures UsesUndefined(first + second) <==> UsesUndefined(first) || UsesUndefined(second)
  {
    var all := first + second;
    if i :| 0 <= i < |first| && Undefined in first[i].args { assert Undefined in all[i].args; }
    if i :| 0 <= i < |second| && Undefined in second[i].args { assert Undefined in all[|first| + i].args; }
  }

  lemma SettersReadNothing(def: FlowDefinition)
    ensures !UsesUndefined(HeadCalls(def))
  {
  }

  lemma PlaceholdersPrinted(def: FlowDefinition)
    ensures UsesUndefined(Calls(def)) <==> exists i :: 0 <= i < |def.steps| && SkipsArgs(def.steps[i])
  {
    UsesInEither(HeadCalls(def), StepCalls(def.steps));
    SettersReadNothing(def);
    forall i | 0 <= i < |def.steps| ensures Undefined in StepCalls(def.steps)[i].args <==> SkipsArgs(def.steps[i]) {
      PlaceholderPrinted(def.steps[i]);
    }
  }

  lemma LoadsExactly(def: FlowDefinition)
    ensures Declares(Camel.CamelName(def.id), Calls(def)) <==> Loads(def)
  {
    PlaceholdersPrinted(def);
  }

  /**
   Running the printed code gives the definition back, less exactly what the printer erases, whenever the
   code loads; when the id's name cannot be declared, it does not run at all.
   */
  lemma CodeRoundTrip(def: FlowDefinition)
    ensures Meaning(Code(def)) == if Loads(def) then Some(Erased(def)) else None
  {
    CodeReadsBack(def);
    LoadsExactly(def);
    CallsPerformed(def);
  }

  /** The law fails for every id without a Latin letter, digit or underscore: the constant collides with the import. */
  lemma WordlessIdDoesNotLoad(def: FlowDefinition)
    requires forall i :: 0 <= i < |def.id| ==> !Camel.IsWord(def.id[i])
    ensures Meaning(Code(def)) == None
  {
    Camel.WordlessIsFlow(def.id);
    CodeRoundTrip(def);
  }

  /** Nor do ids that are words of the language, `flow` among them. */
  lemma LanguageWordDoesNotLoad(def: FlowDefinition)
    requires def.id in ["flow", "new", "delete", "import", "export", "default", "switch", "return", "package", "public"]
    ensures Meaning(Code(def)) == None
  {
    Camel.OneWordNamesItself(def.id);
    CodeRoundTrip(def);
  }

  /** The printed module exports a flow of this id and this name, in this order, under the name made of the id. */
  lemma HeaderNamesTheFlow(def: FlowDefinition)
    ensures var code := Code(def);
            && |code| > 18 && code[9] == Word("export") && code[10] == Word("const") && code[11] == Word(Camel.CamelName(def.id))
            && code[13] == Word("flow") && code[15] == Lit(Text(def.id)) && code[17] == Lit(Text(def.name))
            && code[|code| - 1] == Sym(';')
  {
    CodeStartsAsFlow(Camel.CamelName(def.id), def.id, def.name, SpellChain(Calls(def)) + [Sym(';')]);
  }

  /** A definition comes back whole exactly when its code loads and it holds nothing the printer drops. */
  lemma WholeExactlyWhenSurvives(def: FlowDefinition)
    ensures Meaning(Code(def)) == Some(def) <==> Loads(def) && Survives(def)
  {
    CodeRoundTrip(def);
    ErasesNothingExactly(def);
  }

  lemma ErasesNothingExactly(def: FlowDefinition)
    ensures Erased(def) == def <==> Survives(def)
  {
    forall i | 0 <= i < |def.steps| ensures StepSurvives(def.steps[i]) <==> ErasedStep(def.steps[i]) == def.steps[i] {
      StepSurvivesExactly(def.steps[i]);
    }
    if Erased(def) == def {
      assert forall i :: 0 <= i < |def.steps| ==> Erased(def).steps[i] == def.steps[i];
    }
    if Survives(def) {
      assert Erased(def).steps == def.steps;
    }
  }

  lemma StepSurvivesExactly(step: FlowStep)
    ensures StepSurvives(step) <==> ErasedStep(step) == step
  {
  }

  lemma {:induction false} PairsOfOnly(fields: map<string, Json>, all: set<string>, keys: seq<string>)
    requires forall k :: k in keys ==> k in all
    ensures Pairs(Only(fields, all), keys) == Pairs(fields, keys)
  {
    if keys != [] { PairsOfOnly(fields, all, keys[1..]); }
  }

  // ---------- definitions the step types admit ----------

  /** Nothing is set that the printer leaves out of a well-typed step. */
  predicate AllPrinted(step: FlowStep) {
    && "note" !in step.fields && "idempotent" !in step.fields && "ui" !in step.fields
    && (step.ToolStep? ==> step.args != Some(map[]))
  }

  lemma NotOwn(kind: Kind, key: string)
    requires key in ["note", "idempotent", "ui"]
    ensures key !in {"label"} + OwnFields(kind) && key !in {"label"} + TOOL_FIELDS
  {
  }

  lemma UnprintedAreNotOwn(kind: Kind)
    ensures forall k :: k in BASE_FIELDS + OwnFields(kind) ==>
              (k in {"label"} + OwnFields(kind) <==> k !in ["note", "idempotent", "ui"])
    ensures forall k :: k in BASE_FIELDS + TOOL_FIELDS ==>
              (k in {"label"} + TOOL_FIELDS <==> k !in ["note", "idempotent", "ui"])
  {
    NotOwn(kind, "note");
    NotOwn(kind, "idempotent");
    NotOwn(kind, "ui");
  }

  lemma AllPrintedSurvives(step: FlowStep)
    requires WellTyped(step)
    ensures StepSurvives(step) <==> AllPrinted(step)
  {
    UnprintedAreNotOwn(if step.KeyedStep? then step.kind else Model);
    assert "note" in step.fields ==> "note" in step.fields.Keys;
    assert "idempotent" in step.fields ==> "idempotent" in step.fields.Keys;
    assert "ui" in step.fields ==> "ui" in step.fields.Keys;
  }

  /** A well-typed step comes back whole exactly when it sets no note, no canvas data, nothing on running it twice, and no empty arguments. */
  lemma TypedStepComesBack(step: FlowStep)
    requires WellTyped(step)
    ensures StepOf(StepCall(step)) == Some(step) <==> AllPrinted(step)
  {
    StepCallMakesStep(step);
    StepSurvivesExactly(step);
    AllPrintedSurvives(step);
  }

  /** Whatever of its own a well-typed step sets is among the options printed for it. */
  lemma TypedFieldsArePrinted(step: FlowStep, key: string)
    requires WellTyped(step) && key in step.fields && key !in ["note", "idempotent", "ui"]
    ensures exists i :: 0 <= i < |StepCall(step).args|
              && StepCall(step).args[i].Opts? && (key, step.fields[key]) in StepCall(step).args[i].pairs
  {
    match step {
      case KeyedStep(kind, id, fields) =>
        KeysAreDeclared(kind);
        PairHeld(fields, OptionKeys(kind), key);
        assert StepCall(step).args[1] == Opts(Pairs(fields, OptionKeys(kind)));
      case ToolStep(id, tool, args, fields) =>
        KeysAreDeclared(Model);
        PairHeld(fields, TOOL_KEYS, key);
        assert StepCall(step).args[3] == Opts(Pairs(fields, TOOL_KEYS));
    }
  }

  lemma {:induction false} PairHeld(fields: map<string, Json>, keys: seq<string>, key: string)
    requires key in keys && key in fields
    ensures (key, fields[key]) in Pairs(fields, keys)
  {
    if keys[0] == key {
      assert Pairs(fields, keys)[0] == (key, fields[key]);
    } else {
      assert keys == [keys[0]] + keys[1..];
      PairHeld(fields, keys[1..], key);
    }
  }

  /** A well-typed definition comes back whole exactly when its code loads and nothing unprinted is set. */
  lemma TypedFlowComesBack(def: FlowDefinition)
    requires forall i :: 0 <= i < |def.steps| ==> WellTyped(def.steps[i])
    ensures Meaning(Code(def)) == Some(def) <==>
              Loads(def) && HeadSurvives(def) && forall i :: 0 <= i < |def.steps| ==> AllPrinted(def.steps[i])
  {
    WholeExactlyWhenSurvives(def);
    forall i | 0 <= i < |def.steps| ensures StepSurvives(def.steps[i]) <==> AllPrinted(def.steps[i]) {
      AllPrintedSurvives(def.steps[i]);
    }
  }

  /** The setter calls are printed in this order, each at most once. */
  function Rank(name: string): int {
    if name == "describe" then 0 else if name == "trigger" then 1 else if name == "schedule" then 2
    else if name == "scope" then 3 else if name == "entry" then 4 else 5
  }

  predicate InRanks(calls: seq<Call>, lo: int, hi: int) {
    && (forall i :: 0 <= i < |calls| ==> lo <= Rank(calls[i].name) < hi)
    && (forall i, j :: 0 <= i < j < |calls| ==> Rank(calls[i].name) < Rank(calls[j].name))
  }

  lemma RanksJoin(first: seq<Call>, second: seq<Call>, lo: int, mid: int, hi: int)
    requires lo <= mid <= hi && InRanks(first, lo, mid) && InRanks(second, mid, hi)
    ensures InRanks(first + second, lo, hi)
  {
  }

  lemma SettersInOrder(def: FlowDefinition)
    ensures InRanks(HeadCalls(def), 0, 5)
  {
    var c1, c2, c3, c4 := TextCall("describe", def.description), TextCall("trigger", PrintedTrigger(def.trigger)),
      TextCall("schedule", def.schedule), ScopeCall(def.scope);
    RanksJoin(c1, c2, 0, 1, 2);
    RanksJoin(c1 + c2, c3, 0, 2, 3);
    RanksJoin(c1 + c2 + c3, c4, 0, 3, 4);
    RanksJoin(c1 + c2 + c3 + c4, TextCall("entry", def.entry), 0, 4, 5);
  }

  /** Printing the definition that comes back gives the same code again. */
  lemma PrintedAgain(def: FlowDefinition)
    ensures Code(Erased(def)) == Code(def)
    ensures Erased(Erased(def)) == Erased(def)
  {
    forall i | 0 <= i < |def.steps| ensures StepCall(ErasedStep(def.steps[i])) == StepCall(def.steps[i]) {
      match def.steps[i] {
        case KeyedStep(kind, id, fields) =>
          KeysAreDeclared(kind);
          PairsOfOnly(fields, {"label"} + OwnFields(kind), OptionKeys(kind));
        case ToolStep(id, tool, args, fields) =>
          KeysAreDeclared(Model);
          PairsOfOnly(fields, {"label"} + TOOL_FIELDS, TOOL_KEYS);
      }
    }
    assert StepCalls(Erased(def).steps) == StepCalls(def.steps);
    assert HeadCalls(Erased(def)) == HeadCalls(def);
    CodeTellsErased(def);
    CodeTellsErased(Erased(def));
  }

  /** What the calls make does not depend on whether the constant can be declared. */
  lemma CodeTellsErased(def: FlowDefinition)
    ensures var read := ReadModule(Code(def)); read.Some? && AllPerformed(read.value.1, read.value.2) == Some(Erased(def))
  {
    CodeReadsBack(def);
    CallsPerformed(def);
  }

  /** Two definitions print the same code exactly when they differ only in what is erased. */
  lemma SameCodeSameFlow(a: FlowDefinition, b: FlowDefinition)
    ensures Code(a) == Code(b) <==> Erased(a) == Erased(b)
  {
    CodeTellsErased(a);
    CodeTellsErased(b);
    PrintedAgain(a);
    PrintedAgain(b);
  }
}
