/** The audit protocol over all calls, interleaved and cut short anywhere. */
module InvocationProtocol {
  import opened Optional
  import Schema = SchemaSubset
  import opened SchemaMeaning
  import opened SchemaChoices
  import opened SchemaEscapes
  import opened Lookup
  import opened AdapterRelease
  import opened AdapterPublication
  import opened AdapterSample
  import opened InvocationAudit

  // ---- one call ----

  predicate IsStart(e: Event) { e.Audited? && e.outcome.STARTED? }

  predicate IsTerminal(e: Event) { e.Audited? && !e.outcome.STARTED? }

  /** A call so far: authorised, started, run, ended, in that order and nothing twice. */
  predicate InProtocol(o: seq<Event>) {
    && |o| <= 4
    && (|o| > 0 ==> o[0].Authorized?)
    && (|o| > 1 ==> IsStart(o[1]))
    && (|o| > 2 ==> o[2].Ran?)
    && (|o| > 3 ==> IsTerminal(o[3]))
  }

  /** The call was admitted with that tool. */
  predicate AdmittedWith(s: State, c: Call, t: Tool) {
    Admission(s, c).0.Passes? && Admission(s, c).1 == Some(t)
  }

  /** A result that is a JSON object was printed by a run that ended well. */
  predicate Answered(c: Call) {
    && c.run.Finished? && !c.run.timedOut && !c.run.outputLimited && c.run.returnCode == 0
    && c.run.stdout.Printed? && c.run.stdout.value.Obj?
  }

  /** The run was interrupted, or the first result check to fail raises neither ValueError nor RuntimeError. */
  predicate Escapes(c: Call, t: Tool) {
    c.run.Interrupted? || (Answered(c) && ResultChecks(c, t, c.run.stdout.value) == Raises(OtherError))
  }

  predicate Succeeds(c: Call, t: Tool) {
    Answered(c) && ResultChecks(c, t, c.run.stdout.value).Passes?
  }

  /** What a whole call leaves: nothing, or a full protocol that lacks its end exactly when the call escapes. */
  lemma ScriptFollowsProtocol(s: State, c: Call)
    ensures var o := Script(s, c);
            && InProtocol(o) && (forall i :: 0 <= i < |o| ==> o[i].id == c.id)
            && (o == [] <==> !Admission(s, c).0.Passes? || Admission(s, c).1.None?)
            && (o != [] ==> |o| >= 3)
    ensures forall t :: AdmittedWith(s, c, t) ==>
              && (|Script(s, c)| == 4 <==> !Escapes(c, t))
              && (|Script(s, c)| == 4 ==> (Script(s, c)[3].outcome.SUCCEEDED? <==> Succeeds(c, t)))
  {
    hide Admission, ResultChecks;
  }

  // ---- all calls ----

  /** How far a call has come; `state` is what it read at its start, and releases never change. */
  datatype Progress = Progress(call: Call, state: State, done: nat)

  datatype World = World(trace: seq<Event>, calls: map<nat, Progress>)

  /** A new call with an unused id, or the next visible act of one under way. */
  datatype Step = Begin(call: Call, state: State) | Advance(id: nat)

  const NOTHING := World([], map[])

  function Next(w: World, step: Step): World {
    match step
    case Begin(c, s) => if c.id in w.calls then w else w.(calls := w.calls[c.id := Progress(c, s, 0)])
    case Advance(id) =>
      if id !in w.calls || w.calls[id].done >= |ScriptOf(w, id)| then w
      else
        var p := w.calls[id];
        World(w.trace + [ScriptOf(w, id)[p.done]], w.calls[id := p.(done := p.done + 1)])
  }

  function ScriptOf(w: World, id: nat): seq<Event>
    requires id in w.calls
  {
    Script(w.calls[id].state, w.calls[id].call)
  }

  function After(w: World, steps: seq<Step>): World {
    if steps == [] then w else Next(After(w, steps[..|steps| - 1]), steps[|steps| - 1])
  }

  /** The events of one call, in order. */
  function Of(trace: seq<Event>, id: nat): (o: seq<Event>)
    ensures forall e :: e in o ==> e in trace && e.id == id
  {
    if trace == [] then []
    else
      var last := trace[|trace| - 1];
      Of(trace[..|trace| - 1], id) + if last.id == id then [last] else []
  }

  lemma OfAppend(trace: seq<Event>, e: Event, id: nat)
    ensures Of(trace + [e], id) == Of(trace, id) + if e.id == id then [e] else []
  {
    assert (trace + [e])[..|trace|] == trace;
  }

  /** The call has left exactly the part of its script that it has been through. */
  ghost predicate CallFaithful(w: World, id: nat)
    requires id in w.calls
  {
    && w.calls[id].call.id == id && w.calls[id].done <= |ScriptOf(w, id)|
    && Of(w.trace, id) == ScriptOf(w, id)[..w.calls[id].done]
  }

  ghost predicate Faithful(w: World) {
    && (forall id :: id in w.calls ==> CallFaithful(w, id))
    && forall id :: id !in w.calls ==> Of(w.trace, id) == []
  }

  lemma OwnEvents(w: World, id: nat, n: nat)
    requires Faithful(w) && id in w.calls && n < |ScriptOf(w, id)|
    ensures ScriptOf(w, id)[n].id == id
  {
    assert CallFaithful(w, id);
    ScriptFollowsProtocol(w.calls[id].state, w.calls[id].call);
    hide Script, InProtocol;
  }

  lemma AdvanceKeepsFaithful(w: World, id: nat)
    requires Faithful(w) && id in w.calls && w.calls[id].done < |ScriptOf(w, id)|
    ensures Faithful(Next(w, Advance(id)))
  {
    hide Script, Of, Admission;
    var t := Next(w, Advance(id));
    var n := w.calls[id].done;
    var e := ScriptOf(w, id)[n];
    OwnEvents(w, id, n);
    forall x | x in t.calls ensures CallFaithful(t, x) {
      assert CallFaithful(w, x);
      OfAppend(w.trace, e, x);
      assert x == id ==> ScriptOf(w, id)[..n] + [e] == ScriptOf(w, id)[..n + 1];
    }
    forall x | x !in t.calls ensures Of(t.trace, x) == [] {
      OfAppend(w.trace, e, x);
    }
  }

  lemma BeginKeepsFaithful(w: World, c: Call, s: State)
    requires Faithful(w) && c.id !in w.calls
    ensures Faithful(Next(w, Begin(c, s)))
  {
    hide Script, Of;
    var t := Next(w, Begin(c, s));
    forall x | x in t.calls ensures CallFaithful(t, x) {
      assert x in w.calls ==> CallFaithful(w, x);
    }
  }

  lemma StepKeepsFaithful(w: World, step: Step)
    requires Faithful(w)
    ensures Faithful(Next(w, step))
  {
    hide Script, Faithful;
    match step {
      case Begin(c, s) =>
        if c.id !in w.calls {
          BeginKeepsFaithful(w, c, s);
        }
      case Advance(id) =>
        if id in w.calls && w.calls[id].done < |ScriptOf(w, id)| {
          AdvanceKeepsFaithful(w, id);
        }
    }
  }

  lemma {:induction false} RunIsFaithful(steps: seq<Step>)
    ensures Faithful(After(NOTHING, steps))
  {
    if steps != [] {
      RunIsFaithful(steps[..|steps| - 1]);
      hide Faithful, Next;
      StepKeepsFaithful(After(NOTHING, steps[..|steps| - 1]), steps[|steps| - 1]);
    }
  }

  // ---- the guarantees ----

  /** At any moment the events of each call are in protocol. */
  lemma CallsStayInProtocol(steps: seq<Step>, id: nat)
    ensures InProtocol(Of(After(NOTHING, steps).trace, id))
  {
    RunIsFaithful(steps);
    hide *;
    CallIsInProtocol(After(NOTHING, steps), id);
  }

  lemma CallIsInProtocol(w: World, id: nat)
    requires Faithful(w)
    ensures InProtocol(Of(w.trace, id))
  {
    if id in w.calls {
      assert CallFaithful(w, id);
      ScriptFollowsProtocol(w.calls[id].state, w.calls[id].call);
      PrefixIsInProtocol(ScriptOf(w, id), w.calls[id].done);
    }
    hide Script, Of, AdmittedWith, InProtocol;
  }

  lemma PrefixIsInProtocol(o: seq<Event>, n: nat)
    requires InProtocol(o) && n <= |o|
    ensures InProtocol(o[..n]) && InProtocol([])
  {
  }

  /** The events of a call up to some moment begin its events up to any later one. */
  lemma {:induction false} OfGrows(trace: seq<Event>, i: nat, id: nat)
    requires i <= |trace|
    ensures Of(trace[..i], id) <= Of(trace, id)
  {
    if i < |trace| {
      OfGrows(trace[..|trace| - 1], i, id);
      assert trace[..|trace| - 1][..i] == trace[..i];
    } else {
      assert trace[..i] == trace;
    }
  }

  /**
   * The adapter is run only after the same call was authorised and audited as started, and never
   * twice; a terminal record comes only after all of these, and never twice.
   */
  lemma ProtocolInTheTrace(steps: seq<Step>, i: nat)
    requires i < |After(NOTHING, steps).trace|
    ensures var trace := After(NOTHING, steps).trace;
            var e := trace[i];
            var before := Of(trace[..i], e.id);
            && (e.Ran? ==> |before| == 2 && before[0].Authorized? && IsStart(before[1]))
            && (IsTerminal(e) ==> |before| == 3 && before[0].Authorized? && IsStart(before[1]) && before[2].Ran?)
            && (IsStart(e) ==> |before| == 1 && before[0].Authorized?)
            && (forall b :: b in before ==> b in trace[..i] && b.id == e.id)
  {
    var trace := After(NOTHING, steps).trace;
    CallsStayInProtocol(steps, trace[i].id);
    hide *;
    EventComesAfter(trace, i);
  }

  lemma EventComesAfter(trace: seq<Event>, i: nat)
    requires i < |trace| && InProtocol(Of(trace, trace[i].id))
    ensures var e := trace[i];
            var before := Of(trace[..i], e.id);
            && (e.Ran? ==> |before| == 2 && before[0].Authorized? && IsStart(before[1]))
            && (IsTerminal(e) ==> |before| == 3 && before[0].Authorized? && IsStart(before[1]) && before[2].Ran?)
            && (IsStart(e) ==> |before| == 1 && before[0].Authorized?)
            && (forall b :: b in before ==> b in trace[..i] && b.id == e.id)
  {
    hide Of;
    var e := trace[i];
    var before, all := Of(trace[..i], e.id), Of(trace, e.id);
    OfGrows(trace, i + 1, e.id);
    OfAppend(trace[..i], e, e.id);
    assert trace[..i + 1] == trace[..i] + [e];
    BeforeDecides(before, e, all);
  }

  lemma BeforeDecides(before: seq<Event>, e: Event, all: seq<Event>)
    requires before + [e] <= all && InProtocol(all)
    ensures e.Ran? ==> |before| == 2 && before[0].Authorized? && IsStart(before[1])
    ensures IsTerminal(e) ==> |before| == 3 && before[0].Authorized? && IsStart(before[1]) && before[2].Ran?
    ensures IsStart(e) ==> |before| == 1 && before[0].Authorized?
  {
    assert e == (before + [e])[|before|] == all[|before|];
    assert forall k :: 0 <= k < |before| ==> before[k] == (before + [e])[k] == all[k];
  }

  /**
   * A call that has run to its end and was started has exactly one terminal record, unless it
   * escapes: interrupted, or failed by a result check with an exception of neither kind.
   */
  lemma StartedCallsEndExactly(steps: seq<Step>, id: nat)
    requires var w := After(NOTHING, steps); id in w.calls && w.calls[id].done == |ScriptOf(w, id)| > 0
    ensures var w := After(NOTHING, steps);
            var c, o := w.calls[id].call, Of(w.trace, id);
            && |o| >= 3 && IsStart(o[1])
            && forall t :: AdmittedWith(w.calls[id].state, c, t) ==> (|o| == 4 && IsTerminal(o[3]) <==> !Escapes(c, t))
  {
    hide *;
    RunIsFaithful(steps);
    FinishedCallEndsExactly(After(NOTHING, steps), id);
  }

  lemma FinishedCallEndsExactly(w: World, id: nat)
    requires Faithful(w) && id in w.calls && w.calls[id].done == |ScriptOf(w, id)| > 0
    ensures var c, o := w.calls[id].call, Of(w.trace, id);
            && |o| >= 3 && IsStart(o[1])
            && forall t :: AdmittedWith(w.calls[id].state, c, t) ==> (|o| == 4 && IsTerminal(o[3]) <==> !Escapes(c, t))
  {
    assert CallFaithful(w, id);
    ScriptFollowsProtocol(w.calls[id].state, w.calls[id].call);
    var script := ScriptOf(w, id);
    assert script[..|script|] == script;
    hide Script, Of, Escapes, AdmittedWith;
  }

  /** Success is audited only for a result that passed every check. */
  lemma SucceededMeansChecked(steps: seq<Step>, e: Event)
    requires e in After(NOTHING, steps).trace && e.Audited? && e.outcome.SUCCEEDED?
    ensures var w := After(NOTHING, steps);
            && e.id in w.calls
            && Admission(w.calls[e.id].state, w.calls[e.id].call).1.Some?
            && Succeeds(w.calls[e.id].call, Admission(w.calls[e.id].state, w.calls[e.id].call).1.value)
  {
    RunIsFaithful(steps);
    hide *;
    AuditedSuccessIsChecked(After(NOTHING, steps), e);
  }

  lemma AuditedSuccessIsChecked(w: World, e: Event)
    requires Faithful(w) && e in w.trace && e.Audited? && e.outcome.SUCCEEDED?
    ensures e.id in w.calls
    ensures var p := w.calls[e.id];
            Admission(p.state, p.call).1.Some? && Succeeds(p.call, Admission(p.state, p.call).1.value)
  {
    EventIsOfItsCall(w.trace, e);
    assert e.id in w.calls && CallFaithful(w, e.id);
    var p := w.calls[e.id];
    hide Script, Of, Succeeds, Admission, Faithful;
    assert e in ScriptOf(w, e.id);
    ScriptSuccess(p.state, p.call, e);
  }

  lemma ScriptSuccess(s: State, c: Call, e: Event)
    requires e in Script(s, c) && e.Audited? && e.outcome.SUCCEEDED?
    ensures Admission(s, c).1.Some? && Succeeds(c, Admission(s, c).1.value)
  {
    hide Admission, ResultChecks;
  }

  lemma {:induction false} EventIsOfItsCall(trace: seq<Event>, e: Event)
    requires e in trace
    ensures e in Of(trace, e.id)
  {
    var last := trace[|trace| - 1];
    assert trace == trace[..|trace| - 1] + [last];
    if e != last {
      EventIsOfItsCall(trace[..|trace| - 1], e);
    }
  }

  // ---- what keeps a call from escaping ----

  predicate Ordinary(check: Check) {
    check.Raises? ==> !check.kind.OtherError?
  }

  predicate OrdinaryRules(c: Call) {
    Ordinary(c.contentRules) && Ordinary(c.configRules)
  }

  /** A result that is an object repeats no name. */
  ghost predicate ProperResult(c: Call) {
    Answered(c) ==> Proper(c.run.stdout.value)
  }

  /** With result rules that raise as expected, a call escapes only at the output schema. */
  lemma EscapesAtSchema(c: Call, t: Tool)
    requires OrdinaryRules(c) && !c.run.Interrupted?
    ensures Escapes(c, t) <==> Answered(c) && !Clean(Schema.CheckObject(c.run.stdout.value, t.outputSchema))
  {
    hide Schema.CheckObject;
  }

  /** Every admitted call with this output schema that is not interrupted leaves a terminal record, whatever its result. */
  ghost predicate CallsEnd(output: Schema.Json) {
    forall s, c, t ::
      AdmittedWith(s, c, t) && t.outputSchema == output && OrdinaryRules(c) && !c.run.Interrupted? && ProperResult(c)
      ==> |Script(s, c)| == 4
  }

  /** A sound output schema keeps every call from escaping, and any other lets some call escape. */
  lemma CallsEndExactly(output: Schema.Json)
    requires Proper(output)
    ensures CallsEnd(output) <==> Sound(output)
    ensures Sound(output) <==> !Schema.CheckDefinition(output).TypeError?
                               && (WellFormed(output) && Typed(output, "object") ==> Harmless(output))
  {
    hide Schema.CheckObject, Schema.CheckDefinition, WellFormed, Harmless, Proper, AdmittedWith, Script, Answered;
    ObjectEscapesExactly(output);
    if Sound(output) {
      forall s, c, t | AdmittedWith(s, c, t) && t.outputSchema == output && OrdinaryRules(c) && !c.run.Interrupted?
                       && ProperResult(c)
        ensures |Script(s, c)| == 4
      {
        SoundCallEnds(s, c, t);
      }
    } else {
      var v := ObjectOffender(output);
      var s, c, t := AdmittedCall(output, v);
      OffendingCallDoesNotEnd(s, c, t);
      hide OrdinaryRules, ProperResult;
      assert !CallsEnd(output);
    }
  }

  lemma SoundCallEnds(s: State, c: Call, t: Tool)
    requires AdmittedWith(s, c, t) && OrdinaryRules(c) && !c.run.Interrupted? && ProperResult(c) && Sound(t.outputSchema)
    ensures |Script(s, c)| == 4
  {
    hide Schema.CheckObject, Proper, Script, AdmittedWith;
    EscapesAtSchema(c, t);
    ScriptFollowsProtocol(s, c);
    hide Escapes;
  }

  lemma OffendingCallDoesNotEnd(s: State, c: Call, t: Tool)
    requires AdmittedWith(s, c, t) && OrdinaryRules(c) && Answered(c)
    requires !Clean(Schema.CheckObject(c.run.stdout.value, t.outputSchema))
    ensures |Script(s, c)| == 3 && IsStart(Script(s, c)[1]) && Script(s, c)[2].Ran? && Reply(s, c) == Raised(OtherError)
  {
    hide Schema.CheckObject, Admission;
    EscapesAtSchema(c, t);
  }

  // ---- a call that is admitted ----

  const ROBOT: Key := Key("robot-1", "release-1")

  const ENTRY: Entry := Entry("status", "main", "1.0.0", "contract-1")

  /** An input schema with one integer field. */
  const INTEGER: Schema.Json := Schema.Obj([Schema.Member("type", Schema.Str("integer"))])

  function ToolOf(output: Schema.Json): Tool {
    Tool("status", Some("1.0.0"), Some("contract-1"), "VERIFIED", "bundle:bundle-1#main", OneField(INTEGER), output)
  }

  function CallOf(result: Schema.Json): Call {
    Call(0, "robot-1", "status", Schema.Obj([Schema.Member("n", Schema.Int(0))]), None, None, None, None, Some("fingerprint-1"),
         Passes, Passes, Passes, Finished(false, false, 0, Printed.Printed(result)), Passes, Passes)
  }

  /** One release published into an empty output root, and activated. */
  function Activated(output: Schema.Json): State {
    var published := Publish(State(map[], map[]), PlainRequest(ROBOT), PlainSources(ROBOT, [ENTRY], [ToolOf(output)]), false).0;
    Activate(published, ROBOT, None, Some("fingerprint-1")).0
  }

  lemma ToolIsBound(output: Schema.Json)
    ensures CatalogBinds(PlainBundle(ROBOT, [ENTRY]), PlainCatalog(ROBOT, [ToolOf(output)]))
    ensures FirstTool([ToolOf(output)], "status") == Some(ToolOf(output)) && FirstEntry([ENTRY], "status") == Some(ENTRY)
    ensures Invocable(PlainBundle(ROBOT, [ENTRY]), ToolOf(output), Some(ENTRY))
  {
    var b, c := PlainBundle(ROBOT, [ENTRY]), PlainCatalog(ROBOT, [ToolOf(output)]);
    assert b.operations[0].operation == "status" && OperationOf(c.tools[0]) == "status";
    assert "bundle:" + "bundle-1" + "#" + "main" == "bundle:bundle-1#main";
    assert EntryBound(b, c, ENTRY);
  }

  lemma PayloadIsAccepted()
    ensures Schema.CheckObject(Schema.Obj([Schema.Member("n", Schema.Int(0))]), OneField(INTEGER)).Pass?
  {
    hide Schema.CheckObject, Schema.CheckValue, WellFormed, OneField;
    IntegerIsPlain();
    OneFieldDecides(INTEGER, Schema.Int(0));
  }

  lemma IntegerIsPlain()
    ensures WellFormed(INTEGER) && Schema.CheckValue(Schema.Int(0), INTEGER).Pass?
  {
    assert INTEGER.members[0].name == "type";
    assert Typed(INTEGER, "integer");
    assert Schema.Get(INTEGER, "enum") == None && Schema.Get(INTEGER, "minimum") == None && Schema.Get(INTEGER, "maximum") == None;
    hide Schema.Get, Schema.Names;
  }

  /** The published release is loaded as the current one. */
  lemma ActivatedLoads(output: Schema.Json)
    ensures var loaded := LoadCurrent(Activated(output), "robot-1", Some("fingerprint-1"));
            loaded.Current? && loaded.release.bundle == PlainBundle(ROBOT, [ENTRY])
            && loaded.release.catalog == PlainCatalog(ROBOT, [ToolOf(output)])
  {
    ToolIsBound(output);
    assert SafeKey(ROBOT);
    hide PlainSources, CatalogBinds, Publish, Activate, LoadCurrent;
    PlainIsCurrent(ROBOT, [ENTRY], [ToolOf(output)]);
  }

  /** Every output schema and every object occur in an admitted call as schema and result. */
  lemma AdmittedCall(output: Schema.Json, result: Schema.Json) returns (s: State, c: Call, t: Tool)
    requires result.Obj?
    ensures s == Activated(output) && AdmittedWith(s, c, t) && t.outputSchema == output
    ensures OrdinaryRules(c) && Answered(c) && c.run.stdout.value == result
    ensures !c.run.Interrupted? && (Proper(result) ==> ProperResult(c))
  {
    s, c, t := Activated(output), CallOf(result), ToolOf(output);
    ActivatedLoads(output);
    ToolIsBound(output);
    PayloadIsAccepted();
    hide Activated, LoadCurrent, Schema.CheckObject, CatalogBinds, Invocable, OneField;
  }

  lemma TextualBoundIsUnsound()
    ensures Proper(OneField(TEXTUAL_BOUND)) && !Sound(OneField(TEXTUAL_BOUND))
  {
    var v := Schema.Obj([Schema.Member("n", Schema.Int(0))]);
    assert Proper(v) && v.Obj?;
    TextualBoundIsProper();
    hide Schema.CheckObject, Proper, OneField, Schema.CheckDefinition;
    TextualBoundEscapes(0);
    assert !Clean(Schema.CheckObject(v, OneField(TEXTUAL_BOUND)));
  }

  /** For instance an integer field with a textual bound: any integer as result, and a started call is left without an end. */
  lemma TextualBoundLosesTheEnd(i: int)
    ensures Schema.CheckDefinition(OneField(TEXTUAL_BOUND)).Pass? && !CallsEnd(OneField(TEXTUAL_BOUND))
    ensures forall s, c, t :: AdmittedWith(s, c, t) && OrdinaryRules(c) && Answered(c) && t.outputSchema == OneField(TEXTUAL_BOUND)
              && c.run.stdout.value == Schema.Obj([Schema.Member("n", Schema.Int(i))])
              ==> |Script(s, c)| == 3 && IsStart(Script(s, c)[1]) && Script(s, c)[2].Ran? && Reply(s, c) == Raised(OtherError)
  {
    var output, v := OneField(TEXTUAL_BOUND), Schema.Obj([Schema.Member("n", Schema.Int(i))]);
    hide Schema.CheckObject, Schema.CheckDefinition, OneField, AdmittedWith, Script, Reply, OrdinaryRules, CallsEnd,
      Sound, Harmless, WellFormed;
    TextualBoundEscapes(i);
    TextualBoundIsUnsound();
    CallsEndExactly(output);
    forall s, c, t | AdmittedWith(s, c, t) && OrdinaryRules(c) && Answered(c) && t.outputSchema == output && c.run.stdout.value == v
      ensures |Script(s, c)| == 3 && IsStart(Script(s, c)[1]) && Script(s, c)[2].Ran? && Reply(s, c) == Raised(OtherError)
    {
      OffendingCallDoesNotEnd(s, c, t);
    }
  }

  /**
   * For a verified release whose catalog lists each operation once, the availability of a tool is
   * all that an invocation needs to look at: its other binding checks repeat what loading has made sure of.
   */
  lemma BindingChecksNeverFail(files: Files, robotId: string, releaseId: string, path: Path, expected: Option<Digest>,
                               operation: string)
    requires VerifiedRelease(files, robotId, releaseId, path, expected).Some?
    requires var r := VerifiedRelease(files, robotId, releaseId, path, expected).value; DistinctKeys(r.catalog.tools, OperationOf)
    ensures var r := VerifiedRelease(files, robotId, releaseId, path, expected).value;
            var tool := FirstTool(r.catalog.tools, operation);
            tool.Some? ==> (Invocable(r.bundle, tool.value, FirstEntry(r.bundle.operations, operation))
                            <==> tool.value.availability == "VERIFIED")
  {
    var r := VerifiedRelease(files, robotId, releaseId, path, expected).value;
    assert CatalogBinds(r.bundle, r.catalog);
    hide VerifiedRelease, DocumentsBelong, HashesHold, FilesAgree, CatalogBinds;
    VerifiedToolIsBound(r.bundle, r.catalog, operation);
  }

  lemma VerifiedToolIsBound(b: Bundle, c: Catalog, operation: string)
    requires CatalogBinds(b, c) && DistinctKeys(c.tools, OperationOf)
    ensures var tool := FirstTool(c.tools, operation);
            tool.Some? && tool.value.availability == "VERIFIED" ==>
              Invocable(b, tool.value, FirstEntry(b.operations, operation))
  {
    var tool := FirstTool(c.tools, operation);
    if tool.Some? && tool.value.availability == "VERIFIED" {
      var i :| 0 <= i < |c.tools| && c.tools[i] == tool.value;
      DistinctKeysAreKept(c.tools, OperationOf, i);
      assert Bundled(b, operation);
      var entry := FirstEntry(b.operations, operation);
      var j :| 0 <= j < |b.operations| && b.operations[j] == entry.value;
      assert EntryBound(b, c, b.operations[j]);
    }
  }
}
