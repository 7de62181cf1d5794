/** Invoking an adapter: the checks, the authorisation, the run, and the audit records around it. */
module InvocationAudit {
  import opened Optional
  import Schema = SchemaSubset
  import opened SchemaMeaning
  import opened Lookup
  import opened AdapterRelease
  import opened AdapterPublication

  datatype Kind = ValueError | RuntimeError | OtherError

  /** A check that passes, or the kind of exception it raises. */
  datatype Check = Passes | Raises(kind: Kind)

  /** What the adapter process prints: no JSON, or a JSON value. */
  datatype Printed = NotJson | Printed(value: Schema.Json)

  /** How a run ends; an interrupt is no ordinary exception and is not caught. */
  datatype Run = Threw | Interrupted | Finished(timedOut: bool, outputLimited: bool, returnCode: int, stdout: Printed)

  /**
   * A call and what its surroundings answer: the latest fingerprint, the input rules, routing,
   * authorisation, the run and the result rules.
   */
  datatype Call = Call(
    id: nat, robotId: string, operation: string, payload: Schema.Json, expectedRelease: Option<string>,
    expectedFingerprint: Option<string>, expectedCatalog: Option<Digest>, expectedGraph: Option<Digest>,
    latest: Option<string>, inputRules: Check, routing: Check, authorization: Check, run: Run,
    contentRules: Check, configRules: Check)

  datatype Outcome = STARTED | SUCCEEDED | FAILED | TIMED_OUT | OUTPUT_LIMITED | INVALID_RESULT

  /** What a call does that can be seen from outside. */
  datatype Event =
    | Authorized(id: nat)
    | Audited(id: nat, operation: string, releaseId: string, outcome: Outcome)
    | Ran(id: nat)

  datatype Answer = Returned(result: Schema.Json) | Raised(kind: Kind)

  // ---- what a call does ----

  function AsCheck(o: Schema.Outcome): Check {
    match o
    case Pass => Passes
    case ValueError => Raises(Kind.ValueError)
    case _ => Raises(OtherError)
  }

  function Both(a: Check, b: Check): Check {
    if a.Passes? then b else a
  }

  /** The first tool or entry of that operation. */
  function FirstTool(tools: seq<Tool>, operation: string): (t: Option<Tool>)
    ensures t.Some? ==> t.value in tools && t.value.operation == operation
    ensures t.None? ==> forall u :: u in tools ==> u.operation != operation
  {
    if tools == [] then None
    else if tools[0].operation == operation then Some(tools[0])
    else FirstTool(tools[1..], operation)
  }

  function FirstEntry(entries: seq<Entry>, operation: string): (e: Option<Entry>)
    ensures e.Some? ==> e.value in entries && e.value.operation == operation
    ensures e.None? ==> forall u :: u in entries ==> u.operation != operation
  {
    if entries == [] then None
    else if entries[0].operation == operation then Some(entries[0])
    else FirstEntry(entries[1..], operation)
  }

  predicate AsPinned(c: Call, m: Manifest) {
    && (c.expectedRelease.Some? ==> c.expectedRelease.value == m.releaseId)
    && (c.expectedFingerprint.Some? ==> c.expectedFingerprint.value == m.fingerprint)
    && (c.expectedCatalog.Some? ==> c.expectedCatalog.value == m.catalog.digest)
    && (c.expectedGraph.Some? ==> c.expectedGraph.value == m.graph.digest)
  }

  /** The tool and its entry are bound to each other. */
  predicate Invocable(b: Bundle, t: Tool, e: Option<Entry>) {
    && t.availability == "VERIFIED" && e.Some?
    && t.adapter == AdapterName(b, e.value)
    && t.contractVersion == Some(e.value.contractVersion) && t.contractDigest == Some(e.value.contractDigest)
  }

  /** Everything up to and including authorisation. */
  function Admission(s: State, c: Call): (Check, Option<Tool>, string) {
    var loaded := LoadCurrent(s, c.robotId, c.latest);
    if loaded.NoCurrent? then (Raises(OtherError), None, "")
    else if !loaded.Current? then (Raises(Kind.ValueError), None, "")
    else
      var r := loaded.release;
      var tool := FirstTool(r.catalog.tools, c.operation);
      if !AsPinned(c, r.manifest) || tool.None?
         || !Invocable(r.bundle, tool.value, FirstEntry(r.bundle.operations, c.operation))
      then (Raises(Kind.ValueError), None, "")
      else
        (Both(AsCheck(Schema.CheckObject(c.payload, tool.value.inputSchema)),
              Both(c.inputRules, Both(c.routing, c.authorization))),
         tool, r.manifest.releaseId)
  }

  /** All checks of a result that is a JSON object, in order. */
  function ResultChecks(c: Call, t: Tool, result: Schema.Json): Check {
    Both(AsCheck(Schema.CheckObject(result, t.outputSchema)), Both(c.contentRules, c.configRules))
  }

  /** The terminal record of a run, and the answer. */
  function Ending(c: Call, t: Tool): (Option<Outcome>, Answer) {
    match c.run
    case Threw => (Some(FAILED), Raised(OtherError))
    case Interrupted => (None, Raised(OtherError))
    case Finished(timedOut, outputLimited, code, stdout) =>
      if timedOut then (Some(TIMED_OUT), Raised(RuntimeError))
      else if outputLimited then (Some(OUTPUT_LIMITED), Raised(RuntimeError))
      else if code != 0 then (Some(FAILED), Raised(RuntimeError))
      else if stdout.NotJson? || !stdout.value.Obj? then (Some(INVALID_RESULT), Raised(RuntimeError))
      else
        match ResultChecks(c, t, stdout.value)
        case Passes => (Some(SUCCEEDED), Returned(stdout.value))
        case Raises(kind) => (if kind.OtherError? then None else Some(INVALID_RESULT), Raised(kind))
  }

  function Script(s: State, c: Call): seq<Event> {
    var (admitted, tool, releaseId) := Admission(s, c);
    if !admitted.Passes? || tool.None? then []
    else
      [Authorized(c.id), Audited(c.id, c.operation, releaseId, STARTED), Ran(c.id)]
      + match Ending(c, tool.value).0
        case None => []
        case Some(outcome) => [Audited(c.id, c.operation, releaseId, outcome)]
  }

  function Reply(s: State, c: Call): Answer {
    var (admitted, tool, _) := Admission(s, c);
    match admitted
    case Raises(kind) => Raised(kind)
    case Passes => if tool.None? then Raised(OtherError) else Ending(c, tool.value).1
  }

  // ---- the code ----

  class AdapterRuntime {
    var trace: seq<Event>

    constructor ()
      ensures trace == []
    {
      trace := [];
    }

    /** `write_adapter_execution_audit`. */
    method WriteAudit(c: Call, releaseId: string, outcome: Outcome)
      modifies this`trace
      ensures trace == old(trace) + [Audited(c.id, c.operation, releaseId, outcome)]
    {
      trace := trace + [Audited(c.id, c.operation, releaseId, outcome)];
    }

    /** The part of `invoke_adapter` before the first audit record. */
    method Admit(outputs: AdapterOutputs, c: Call) returns (admitted: Check, tool: Option<Tool>, releaseId: string)
      ensures (admitted, tool, releaseId) == Admission(outputs.Contents(), c)
      ensures admitted.Passes? ==> tool.Some?
    {
      var loaded := outputs.LoadCurrentRelease(c.robotId, c.latest);
      if !loaded.Current? {
        return Raises(if loaded.NoCurrent? then OtherError else Kind.ValueError), None, "";
      }
      hide LoadCurrent;
      var r := loaded.release;
      if !AsPinned(c, r.manifest) {
        return Raises(Kind.ValueError), None, "";
      }
      var descriptor := FindTool(r.catalog.tools, c.operation);
      if descriptor.None? || descriptor.value.availability != "VERIFIED" {
        return Raises(Kind.ValueError), None, "";
      }
      var entry := FindEntry(r.bundle.operations, c.operation);
      if entry.None? {
        return Raises(Kind.ValueError), None, "";
      }
      if descriptor.value.adapter != AdapterName(r.bundle, entry.value) {
        return Raises(Kind.ValueError), None, "";
      }
      if descriptor.value.contractVersion != Some(entry.value.contractVersion)
         || descriptor.value.contractDigest != Some(entry.value.contractDigest) {
        return Raises(Kind.ValueError), None, "";
      }
      tool, releaseId := descriptor, r.manifest.releaseId;
      admitted := AsCheck(Schema.CheckObject(c.payload, tool.value.inputSchema));
      if admitted.Passes? {
        admitted := Both(c.inputRules, c.routing);
      }
      if admitted.Passes? {
        admitted := c.authorization;
      }
    }

    method FindTool(tools: seq<Tool>, operation: string) returns (t: Option<Tool>)
      ensures t == FirstTool(tools, operation)
    {
      for i := 0 to |tools|
        invariant FirstTool(tools, operation) == FirstTool(tools[i..], operation)
      {
        if tools[i].operation == operation {
          return Some(tools[i]);
        }
        assert tools[i..][1..] == tools[i + 1..];
      }
      return None;
    }

    method FindEntry(entries: seq<Entry>, operation: string) returns (e: Option<Entry>)
      ensures e == FirstEntry(entries, operation)
    {
      for i := 0 to |entries|
        invariant FirstEntry(entries, operation) == FirstEntry(entries[i..], operation)
      {
        if entries[i].operation == operation {
          return Some(entries[i]);
        }
        assert entries[i..][1..] == entries[i + 1..];
      }
      return None;
    }

    /** `invoke_adapter`. */
    method InvokeAdapter(outputs: AdapterOutputs, c: Call) returns (answer: Answer)
      modifies this`trace
      ensures trace == old(trace) + Script(outputs.Contents(), c)
      ensures answer == Reply(outputs.Contents(), c)
    {
      var admitted, tool, releaseId := Admit(outputs, c);
      hide Admission, Schema.CheckObject;
      if !admitted.Passes? {
        return Raised(admitted.kind);
      }
      trace := trace + [Authorized(c.id)];
      WriteAudit(c, releaseId, STARTED);
      trace := trace + [Ran(c.id)];
      match c.run {
        case Threw =>
          WriteAudit(c, releaseId, FAILED);
          return Raised(OtherError);
        case Interrupted =>
          return Raised(OtherError);
        case Finished(timedOut, outputLimited, code, stdout) =>
          if timedOut {
            WriteAudit(c, releaseId, TIMED_OUT);
            return Raised(RuntimeError);
          }
          if outputLimited {
            WriteAudit(c, releaseId, OUTPUT_LIMITED);
            return Raised(RuntimeError);
          }
          if code != 0 {
            WriteAudit(c, releaseId, FAILED);
            return Raised(RuntimeError);
          }
          var raised := CheckResult(c, tool.value, stdout);
          if raised.Raises? {
            if raised.kind.ValueError? || raised.kind.RuntimeError? {
              WriteAudit(c, releaseId, INVALID_RESULT);
            }
            return Raised(raised.kind);
          }
          WriteAudit(c, releaseId, SUCCEEDED);
          return Returned(stdout.value);
      }
    }

    /** The body of the `try` around the result. */
    method CheckResult(c: Call, t: Tool, stdout: Printed) returns (raised: Check)
      ensures raised == if stdout.NotJson? || !stdout.value.Obj? then Raises(RuntimeError) else ResultChecks(c, t, stdout.value)
    {
      if stdout.NotJson? || !stdout.value.Obj? {
        return Raises(RuntimeError);
      }
      raised := AsCheck(Schema.CheckObject(stdout.value, t.outputSchema));
      if raised.Passes? {
        raised := c.contentRules;
      }
      if raised.Passes? {
        raised := c.configRules;
      }
    }
  }
}
