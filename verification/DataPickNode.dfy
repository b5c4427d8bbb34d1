/**
 * The data-pick operator node: it parses its path once and remembers its last answer, and
 * still answers like an evaluator that remembers nothing.
 */
module DataPickNode {
  import opened Sequences
  import opened Wrappers
  import opened JsonValue
  import opened DataPickPath

  datatype ValueType = AnyValue | NumberValue | StringValue | BoolValue

  function LowerChar(c: char): char {
    if 'A' <= c <= 'Z' then (c as int - 'A' as int + 'a' as int) as char else c
  }

  function Lower(s: string): string {
    seq(|s|, i requires 0 <= i < |s| => LowerChar(s[i]))
  }

  function NormalizeValueType(value: Json): ValueType {
    var text := if value.String? then Lower(value.s) else "any";
    if text == "number" then NumberValue
    else if text == "string" then StringValue
    else if text == "bool" || text == "boolean" then BoolValue
    else AnyValue
  }

  /** The names of the types, in any mixture of upper and lower case; anything else is any type. */
  lemma TypeNames(name: string)
    ensures var lower := Lower(name);
            var t := NormalizeValueType(String(name));
            && (t == NumberValue <==> lower == "number") && (t == StringValue <==> lower == "string")
            && (t == BoolValue <==> lower in {"bool", "boolean"})
    ensures |Lower(name)| == |name|
    ensures forall i :: 0 <= i < |name| ==>
              if 'A' <= name[i] <= 'Z' then Lower(name)[i] - 'a' == name[i] - 'A' else Lower(name)[i] == name[i]
    ensures forall value: Json :: !value.String? ==> NormalizeValueType(value) == AnyValue
  {
    assert Lower("any") == "any";
    assert "any"[0] == 'a' && "number"[0] == 'n' && "string"[0] == 's' && "bool"[0] == 'b' && "boolean"[0] == 'b';
    assert |"number"| == 6 && |"string"| == 6 && |"bool"| == 4 && |"boolean"| == 7;
  }

  function PathText(value: Json): string {
    if value.String? then value.s else ""
  }

  /** The port a node answers on or listens to: a preferred name if present, else the first one. */
  function DefaultPort(ports: seq<string>, preferred: string): string {
    if preferred in ports then preferred else if ports != [] then ports[0] else ""
  }

  /** A node's settings, and what they make of an input without any memory. */
  datatype Settings = Settings(path: string, valueType: ValueType, fallback: Json)

  ghost predicate Accepted(path: string) {
    Meaning(path).Ok?
  }

  type Coercion = (Json, ValueType, Json) -> Json

  ghost function Evaluate(s: Settings, coerce: Coercion, input: Option<Json>): Json {
    match Meaning(s.path)
    case Err(_) => s.fallback
    case Ok(path) =>
      if input.None? then s.fallback
      else match Picked(input.value, path)
        case None => s.fallback
        case Some(value) => coerce(value, s.valueType, s.fallback)
  }

  class DataPick {
    const inPorts: seq<string>
    const outPorts: seq<string>
    const coerce: Coercion
    var path: string
    var valueType: ValueType
    var fallback: Json
    var parsedPath: seq<Segment>
    var lastOutputs: map<string, Json>
    var lastCtxId: Option<int>
    var pathReady: bool
    var dirty: bool
    /** Whether the node's error is reported. */
    var failing: bool
    /** The input the last answer was computed from. */
    ghost var lastInput: Option<Json>

    ghost function CurrentSettings(): Settings
      reads this
    {
      Settings(path, valueType, fallback)
    }

    ghost predicate Remembers(ctxId: int)
      reads this
    {
      !dirty && lastCtxId == Some(ctxId)
    }

    ghost predicate Valid()
      reads this
    {
      && (pathReady ==> Meaning(path) == Ok(parsedPath))
      && (!dirty && lastCtxId.Some? ==>
            && OutPort() in lastOutputs
            && lastOutputs[OutPort()] == Evaluate(CurrentSettings(), coerce, lastInput)
            && (failing <==> !Accepted(path)))
    }

    constructor (inPorts: seq<string>, outPorts: seq<string>, coerce: Coercion, settings: Settings)
      ensures Valid() && CurrentSettings() == settings && lastCtxId == None
      ensures this.inPorts == inPorts && this.outPorts == outPorts && this.coerce == coerce
    {
      this.inPorts, this.outPorts, this.coerce := inPorts, outPorts, coerce;
      path, valueType, fallback := settings.path, settings.valueType, settings.fallback;
      parsedPath := [];
      lastOutputs := map[];
      lastCtxId := None;
      pathReady, dirty, failing := false, true, false;
      lastInput := None;
    }

    function OutPort(): string {
      DefaultPort(outPorts, "out")
    }

    function InPort(): string {
      DefaultPort(inPorts, "msg")
    }

    method OnState(field: string, value: Json)
      requires Valid()
      modifies this
      ensures Valid() && lastCtxId == old(lastCtxId) && lastInput == old(lastInput)
      ensures dirty == (old(dirty) || IsSetting(field))
      ensures CurrentSettings() == Configured(old(CurrentSettings()), field, value)
    {
      if field == "path" {
        path := PathText(value);
        pathReady := false;
        dirty := true;
        return;
      }
      if field == "valueType" {
        valueType := NormalizeValueType(value);
        dirty := true;
        return;
      }
      if field == "fallback" {
        fallback := value;
        dirty := true;
      }
    }

    /**
     * `input` is what pulling the input port yields in this context. An answer already given in
     * the context is repeated, whatever the input has become.
     */
    method ComputeOutput(port: string, ctxId: int, input: Option<Json>) returns (r: Json)
      requires Valid()
      modifies this
      ensures Valid() && CurrentSettings() == old(CurrentSettings())
      ensures OutPort() == "" || port != OutPort() ==>
                r == Null && lastCtxId == old(lastCtxId) && lastInput == old(lastInput) && dirty == old(dirty)
      ensures OutPort() != "" && port == OutPort() ==>
                && lastInput == (if old(Remembers(ctxId)) then old(lastInput) else input)
                && Remembers(ctxId)
                && r == Evaluate(CurrentSettings(), coerce, lastInput)
                && (failing <==> !Accepted(path))
    {
      var outputPort := OutPort();
      if outputPort == "" || port != outputPort {
        return Null;
      }
      if !dirty && lastCtxId.Some? && lastCtxId.value == ctxId && port in lastOutputs {
        return lastOutputs[port];
      }
      r := Refresh(ctxId, input);
    }

    /** An execution asks for an answer in the context of its id, and emits one that is not null. */
    method OnExec(execId: int, input: Option<Json>) returns (emitted: Option<(string, Json)>)
      requires Valid()
      modifies this
      ensures Valid() && CurrentSettings() == old(CurrentSettings())
      ensures OutPort() == "" ==>
                emitted.None? && lastCtxId == old(lastCtxId) && lastInput == old(lastInput) && dirty == old(dirty)
      ensures OutPort() != "" ==>
                var answer := Evaluate(CurrentSettings(), coerce, lastInput);
                && lastInput == (if old(Remembers(execId)) then old(lastInput) else input) && Remembers(execId)
                && emitted == if answer == Null then None else Some((OutPort(), answer))
    {
      var output := ComputeOutput(OutPort(), execId, input);
      emitted := if output == Null then None else Some((OutPort(), output));
    }

    /** New data on the input port asks for an answer in the context of its time, and emits one that is not null. */
    method OnData(port: string, timestamp: int, input: Option<Json>) returns (emitted: Option<(string, Json)>)
      requires Valid()
      modifies this
      ensures Valid() && CurrentSettings() == old(CurrentSettings())
      ensures port != InPort() || OutPort() == "" ==>
                emitted.None? && lastCtxId == old(lastCtxId) && lastInput == old(lastInput) && dirty == old(dirty)
      ensures port == InPort() && OutPort() != "" ==>
                var answer := Evaluate(CurrentSettings(), coerce, lastInput);
                && lastInput == (if old(Remembers(timestamp)) then old(lastInput) else input) && Remembers(timestamp)
                && emitted == if answer == Null then None else Some((OutPort(), answer))
    {
      if port != InPort() {
        return None;
      }
      var output := ComputeOutput(OutPort(), timestamp, input);
      emitted := if output == Null then None else Some((OutPort(), output));
    }

    /** A fresh answer, and what is remembered of it. */
    method Refresh(ctxId: int, input: Option<Json>) returns (r: Json)
      requires pathReady ==> Meaning(path) == Ok(parsedPath)
      modifies this
      ensures Valid() && CurrentSettings() == old(CurrentSettings())
      ensures Remembers(ctxId) && lastInput == input && r == Evaluate(CurrentSettings(), coerce, input)
    {
      hide Meaning;
      var ok;
      r, ok := Compute(input);
      lastOutputs := map[OutPort() := r];
      failing, lastCtxId, dirty, lastInput := !ok, Some(ctxId), false, input;
    }

    /** The guarded part of an answer: when the path does not parse, the fallback. */
    method Compute(input: Option<Json>) returns (picked: Json, ok: bool)
      requires pathReady ==> Meaning(path) == Ok(parsedPath)
      modifies this`parsedPath, this`pathReady
      ensures picked == Evaluate(CurrentSettings(), coerce, input)
      ensures ok <==> Accepted(path)
      ensures pathReady ==> Meaning(path) == Ok(parsedPath)
    {
      ok := CompilePathIfNeeded();
      picked := fallback;
      if ok && input.Some? {
        picked := PickOrFallback(input.value);
      }
    }

    /** False stands for the parser's exception. */
    method CompilePathIfNeeded() returns (ok: bool)
      requires pathReady ==> Meaning(path) == Ok(parsedPath)
      modifies this`parsedPath, this`pathReady
      ensures ok <==> Accepted(path)
      ensures ok <==> pathReady
      ensures ok ==> Meaning(path) == Ok(parsedPath)
    {
      if pathReady {
        return true;
      }
      var parsed := ParseDataPickPath(path);
      if parsed.Err? {
        return false;
      }
      parsedPath := parsed.value;
      pathReady := true;
      ok := true;
    }

    method PickOrFallback(input: Json) returns (r: Json)
      requires Meaning(path) == Ok(parsedPath)
      ensures r == Evaluate(CurrentSettings(), coerce, Some(input))
    {
      var picked := PickJsonPath(input, parsedPath);
      if picked.None? {
        return fallback;
      }
      r := coerce(picked.value, valueType, fallback);
    }
  }

  predicate IsSetting(field: string) {
    field in {"path", "valueType", "fallback"}
  }

  ghost function Configured(s: Settings, field: string, value: Json): Settings {
    match field
    case "path" => s.(path := PathText(value))
    case "valueType" => s.(valueType := NormalizeValueType(value))
    case "fallback" => s.(fallback := value)
    case _ => s
  }

  // ---------------------------------------------------------------------------------------
  // Whole runs
  // ---------------------------------------------------------------------------------------

  /** What reaches a node; `input` is what pulling its input port yields at that moment. */
  datatype Event =
    | SetState(field: string, value: Json)
    | Ask(port: string, ctxId: int, input: Option<Json>)
    | Exec(execId: int, input: Option<Json>)
    | Data(port: string, timestamp: int, input: Option<Json>)

  datatype Reply = Silent | Answered(value: Json) | Emitted(port: string, value: Json)

  datatype Ports = Ports(inPort: string, outPort: string)

  /** Whether an event wants an answer, and in which context. */
  function Wants(ports: Ports, e: Event): bool {
    ports.outPort != "" && match e
    case SetState(_, _) => false
    case Ask(port, _, _) => port == ports.outPort
    case Exec(_, _) => true
    case Data(port, _, _) => port == ports.inPort
  }

  function Context(e: Event): int
    requires !e.SetState?
  {
    match e
    case Ask(_, ctxId, _) => ctxId
    case Exec(execId, _) => execId
    case Data(_, timestamp, _) => timestamp
  }

  function ReplyTo(ports: Ports, e: Event, answer: Json): Reply {
    match e
    case SetState(_, _) => Silent
    case Ask(_, _, _) => Answered(if Wants(ports, e) then answer else Null)
    case _ => if Wants(ports, e) && answer != Null then Emitted(ports.outPort, answer) else Silent
  }

  ghost function SettingsAfter(s: Settings, events: seq<Event>): Settings {
    if events == [] then s
    else
      var before := SettingsAfter(s, Front(events));
      if Last(events).SetState? then Configured(before, Last(events).field, Last(events).value) else before
  }

  /** The context answered last and the input it was first asked with, since the last change of a setting. */
  datatype Held = Held(ctxId: int, input: Option<Json>)

  ghost function HeldAfter(ports: Ports, events: seq<Event>): Option<Held> {
    if events == [] then None
    else
      var before, e := HeldAfter(ports, Front(events)), Last(events);
      if e.SetState? then if IsSetting(e.field) then None else before
      else if !Wants(ports, e) || (before.Some? && before.value.ctxId == Context(e)) then before
      else Some(Held(Context(e), e.input))
  }

  /** The replies of a node that repeats itself within a context. */
  ghost function HeldRun(s: Settings, ports: Ports, coerce: Coercion, events: seq<Event>): seq<Reply> {
    if events == [] then []
    else
      var e, held := Last(events), HeldAfter(ports, events);
      var input := if held.Some? then held.value.input else None;
      HeldRun(s, ports, coerce, Front(events))
      + [ReplyTo(ports, e, Evaluate(SettingsAfter(s, events), coerce, input))]
  }

  /** The replies of a node without memory. */
  ghost function PlainRun(s: Settings, ports: Ports, coerce: Coercion, events: seq<Event>): seq<Reply> {
    if events == [] then []
    else
      var e := Last(events);
      PlainRun(s, ports, coerce, Front(events))
      + [ReplyTo(ports, e, Evaluate(SettingsAfter(s, events), coerce, if e.SetState? then None else e.input))]
  }

  predicate SameInContext(ports: Ports, a: Event, b: Event) {
    Wants(ports, a) && Wants(ports, b) && Context(a) == Context(b) ==> a.input == b.input
  }

  ghost predicate ConstantInContexts(ports: Ports, events: seq<Event>) {
    forall i, j :: 0 <= i < j < |events| ==> SameInContext(ports, events[i], events[j])
  }

  ghost predicate HeldBy(ports: Ports, e: Event, held: Held) {
    Wants(ports, e) && Context(e) == held.ctxId && e.input == held.input
  }

  lemma {:induction false} HeldFromEvent(ports: Ports, events: seq<Event>) returns (k: nat)
    requires HeldAfter(ports, events).Some?
    ensures k < |events| && HeldBy(ports, events[k], HeldAfter(ports, events).value)
  {
    var before := HeldAfter(ports, Front(events));
    if before == HeldAfter(ports, events) {
      k := HeldFromEvent(ports, Front(events));
    } else {
      k := |events| - 1;
    }
  }

  /** If the input does not change within a context, memory does not show. */
  lemma {:induction false} MemoryNeverShows(s: Settings, ports: Ports, coerce: Coercion, events: seq<Event>)
    requires ConstantInContexts(ports, events)
    ensures HeldRun(s, ports, coerce, events) == PlainRun(s, ports, coerce, events)
  {
    hide Evaluate;
    if events != [] {
      assert forall i :: 0 <= i < |Front(events)| ==> Front(events)[i] == events[i];
      MemoryNeverShows(s, ports, coerce, Front(events));
      if Wants(ports, Last(events)) {
        var k := HeldFromEvent(ports, events);
        assert k < |events| - 1 ==> SameInContext(ports, events[k], events[|events| - 1]);
      }
    }
  }

  /** Executions and timestamps are not told apart: with the same number the second repeats the first. */
  lemma ExecutionAndTimeCollide(s: Settings, ports: Ports, coerce: Coercion, n: int, a: Option<Json>, b: Option<Json>)
    requires ports.outPort != ""
    ensures var both := [Exec(n, a), Data(ports.inPort, n, b)];
            HeldRun(s, ports, coerce, both) == PlainRun(s, ports, coerce, [Exec(n, a), Data(ports.inPort, n, a)])
  {
    hide Evaluate;
    var first, both := [Exec(n, a)], [Exec(n, a), Data(ports.inPort, n, b)];
    var same := [Exec(n, a), Data(ports.inPort, n, a)];
    assert Front(both) == first && Front(same) == first && Front(first) == [];
    assert HeldAfter(ports, []) == None;
    assert HeldAfter(ports, first) == Some(Held(n, a)) && HeldAfter(ports, both) == Some(Held(n, a));
    assert SettingsAfter(s, first) == SettingsAfter(s, []);
    assert SettingsAfter(s, both) == s && SettingsAfter(s, same) == s;
    assert HeldRun(s, ports, coerce, []) == PlainRun(s, ports, coerce, []);
    assert HeldRun(s, ports, coerce, first) == PlainRun(s, ports, coerce, first);
  }

  /** The node replies to every run as one that repeats itself within a context, in both ways of being asked. */
  method Drive(inPorts: seq<string>, outPorts: seq<string>, coerce: Coercion, settings: Settings, events: seq<Event>)
    returns (replies: seq<Reply>)
    ensures var ports := Ports(DefaultPort(inPorts, "msg"), DefaultPort(outPorts, "out"));
            && replies == HeldRun(settings, ports, coerce, events)
            && (ConstantInContexts(ports, events) ==> replies == PlainRun(settings, ports, coerce, events))
  {
    hide Meaning, Evaluate;
    var node := new DataPick(inPorts, outPorts, coerce, settings);
    ghost var ports := Ports(DefaultPort(inPorts, "msg"), DefaultPort(outPorts, "out"));
    replies := [];
    var i := 0;
    while i < |events|
      invariant 0 <= i <= |events| && node.Valid()
      invariant node.inPorts == inPorts && node.outPorts == outPorts && node.coerce == coerce
      invariant node.CurrentSettings() == SettingsAfter(settings, events[..i])
      invariant HeldAfter(ports, events[..i]) ==
                if node.dirty || node.lastCtxId.None? then None else Some(Held(node.lastCtxId.value, node.lastInput))
      invariant replies == HeldRun(settings, ports, coerce, events[..i])
    {
      assert Front(events[..i + 1]) == events[..i] && Last(events[..i + 1]) == events[i];
      var reply := Hear(node, events[i]);
      replies := replies + [reply];
      i := i + 1;
    }
    assert events[..i] == events;
    if ConstantInContexts(ports, events) {
      MemoryNeverShows(settings, ports, coerce, events);
    }
  }

  /** One event. */
  method Hear(node: DataPick, e: Event) returns (reply: Reply)
    requires node.Valid()
    modifies node
    ensures node.Valid()
    ensures var ports := Ports(node.InPort(), node.OutPort());
            var answer := Evaluate(node.CurrentSettings(), node.coerce, node.lastInput);
            && reply == ReplyTo(ports, e, answer)
            && node.CurrentSettings() == (if e.SetState? then Configured(old(node.CurrentSettings()), e.field, e.value)
                                          else old(node.CurrentSettings()))
            && (if Wants(ports, e) then
                  && node.Remembers(Context(e))
                  && node.lastInput == if old(node.Remembers(Context(e))) then old(node.lastInput) else e.input
                else
                  && node.lastCtxId == old(node.lastCtxId) && node.lastInput == old(node.lastInput)
                  && node.dirty == (old(node.dirty) || (e.SetState? && IsSetting(e.field))))
  {
    match e {
      case SetState(field, value) =>
        node.OnState(field, value);
        reply := Silent;
      case Ask(port, ctxId, input) =>
        var answer := node.ComputeOutput(port, ctxId, input);
        reply := Answered(answer);
      case Exec(execId, input) =>
        var emitted := node.OnExec(execId, input);
        reply := if emitted.None? then Silent else Emitted(emitted.value.0, emitted.value.1);
      case Data(port, timestamp, input) =>
        var emitted := node.OnData(port, timestamp, input);
        reply := if emitted.None? then Silent else Emitted(emitted.value.0, emitted.value.1);
    }
  }
}
