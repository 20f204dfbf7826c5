/**
 Flow definitions and the code-first builder (`packages/flows/src/types.ts`, `packages/flows/src/builder.ts`):
 an object whose chaining methods fill in one definition.
 */
module FlowBuilders {
  import opened Maybe

  /** A JSON value; `Object` holds a plain object's own keys. */
  datatype Json = Null | Bool(b: bool) | Number(n: int) | Text(text: string) | List(items: seq<Json>) | Object(keys: map<string, Json>)

  /** Every step kind but "tool", whose builder call has its own shape. */
  datatype Kind = Model | Gate | Branch | Switch | Agent | Org | Budget | Governance | Human | Wait

  /** A step: what is keyed by name is in `fields`, and a key that is absent is `undefined`. */
  datatype FlowStep =
    | KeyedStep(kind: Kind, id: string, fields: map<string, Json>)
    | ToolStep(id: string, tool: string, args: Option<map<string, Json>>, fields: map<string, Json>)

  /** The kind as a definition's JSON spells it. */
  function KindText(kind: Kind): string {
    match kind
    case Model => "model"
    case Gate => "gate"
    case Branch => "branch"
    case Switch => "switch"
    case Agent => "agent"
    case Org => "org"
    case Budget => "budget"
    case Governance => "governance"
    case Human => "human"
    case Wait => "wait"
  }

  /** What every step may declare besides its id and kind; the builders alone use `note` and `ui`. */
  const BASE_FIELDS: set<string> := {"label", "note", "idempotent", "ui"}

  const GATED_FIELDS: set<string> := {"onAllow", "onEscalate", "onDeny"}

  /** What a kind's step type declares of its own. */
  function OwnFields(kind: Kind): set<string> {
    match kind
    case Model => {"system", "prompt", "model", "next"}
    case Gate => GATED_FIELDS + {"agent", "target", "value"}
    case Branch => {"when", "onTrue", "onFalse"}
    case Switch => {"when", "cases", "onDefault"}
    case Agent => {"action", "agent", "prompt", "flowId", "next"}
    case Org => GATED_FIELDS + {"action", "node", "parent", "nodeKind", "cap", "target", "allowed"}
    case Budget => GATED_FIELDS + {"action", "node", "amount"}
    case Governance => {"action", "proposalId", "support", "tier", "target", "data", "next"}
    case Human => {"prompt", "options", "assignee", "timeoutMs", "timeoutPort"}
    case Wait => {"reason", "token", "detail", "next"}
  }

  /** What a tool step declares of its own, besides its tool and arguments. */
  const TOOL_FIELDS: set<string> := {"next"}

  /** The step sets only fields its type declares. */
  predicate WellTyped(step: FlowStep) {
    match step
    case KeyedStep(kind, _, fields) => fields.Keys <= BASE_FIELDS + OwnFields(kind)
    case ToolStep(_, _, _, fields) => fields.Keys <= BASE_FIELDS + TOOL_FIELDS
  }

  datatype Window = Window(start: int, end: int)

  datatype Rate = Rate(maxProposals: int, ratePeriod: int)

  datatype Limits = Limits(window: Option<Window>, rate: Option<Rate>, scopes: Option<seq<string>>)

  const NO_LIMITS := Limits(None, None, None)

  datatype FlowScope = FlowScope(level: string, ref: Option<string>, limits: Limits)

  datatype FlowDefinition = FlowDefinition(
    id: string,
    name: string,
    description: Option<string>,
    trigger: Option<string>,
    schedule: Option<string>,
    scope: Option<FlowScope>,
    entry: Option<string>,
    steps: seq<FlowStep>,
    source: Option<Json>
  )

  function Fresh(id: string, name: string): FlowDefinition {
    FlowDefinition(id, name, None, None, None, None, None, [], None)
  }

  function WithStep(def: FlowDefinition, step: FlowStep): FlowDefinition {
    def.(steps := def.steps + [step])
  }

  class FlowBuilder {
    var def: FlowDefinition

    constructor (id: string, name: string)
      ensures def == Fresh(id, name)
    {
      def := Fresh(id, name);
    }

    method Describe(description: string) returns (self: FlowBuilder)
      modifies this
      ensures self == this && def == old(def).(description := Some(description))
    {
      def := def.(description := Some(description));
      self := this;
    }

    method Entry(stepId: string) returns (self: FlowBuilder)
      modifies this
      ensures self == this && def == old(def).(entry := Some(stepId))
    {
      def := def.(entry := Some(stepId));
      self := this;
    }

    method Trigger(trigger: string) returns (self: FlowBuilder)
      modifies this
      ensures self == this && def == old(def).(trigger := Some(trigger))
    {
      def := def.(trigger := Some(trigger));
      self := this;
    }

    method Schedule(schedule: string) returns (self: FlowBuilder)
      modifies this
      ensures self == this && def == old(def).(schedule := Some(schedule))
    {
      def := def.(schedule := Some(schedule));
      self := this;
    }

    method Source(source: Option<Json>) returns (self: FlowBuilder)
      modifies this
      ensures self == this && def == old(def).(source := source)
    {
      def := def.(source := source);
      self := this;
    }

    method Scope(level: string, ref: Option<string>, limits: Limits) returns (self: FlowBuilder)
      modifies this
      ensures self == this && def == old(def).(scope := Some(FlowScope(level, ref, limits)))
    {
      def := def.(scope := Some(FlowScope(level, ref, limits)));
      self := this;
    }

    method Tool(id: string, tool: string, args: Option<map<string, Json>>, opts: map<string, Json>) returns (self: FlowBuilder)
      modifies this
      ensures self == this && def == WithStep(old(def), ToolStep(id, tool, args, opts))
    {
      def := WithStep(def, ToolStep(id, tool, args, opts));
      self := this;
    }

    /** The ten methods named after the other kinds: each pushes its own kind and spreads its options. */
    method Keyed(kind: Kind, id: string, opts: map<string, Json>) returns (self: FlowBuilder)
      modifies this
      ensures self == this && def == WithStep(old(def), KeyedStep(kind, id, opts))
    {
      def := WithStep(def, KeyedStep(kind, id, opts));
      self := this;
    }

    method Step(step: FlowStep) returns (self: FlowBuilder)
      modifies this
      ensures self == this && def == WithStep(old(def), step)
    {
      def := WithStep(def, step);
      self := this;
    }

    method ToJSON() returns (copy: FlowDefinition)
      ensures copy == def
    {
      copy := def;
    }
  }
}
