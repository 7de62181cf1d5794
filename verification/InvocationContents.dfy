/** Which calls an invocation lets through, and what each ending of a run leaves, item by item. */
module InvocationContents {
  import opened Optional
  import Schema = SchemaSubset
  import opened AdapterRelease
  import opened AdapterPublication
  import opened InvocationAudit

  // ---- who is let through ----

  /** The first tool of that operation, and the first entry. */
  predicate IsTool(c: Catalog, operation: string, i: nat) {
    i < |c.tools| && c.tools[i].operation == operation && forall j :: 0 <= j < i ==> c.tools[j].operation != operation
  }

  predicate IsEntry(b: Bundle, operation: string, i: nat) {
    i < |b.operations| && b.operations[i].operation == operation && forall j :: 0 <= j < i ==> b.operations[j].operation != operation
  }

  lemma {:induction false} FirstToolIs(tools: seq<Tool>, operation: string)
    ensures var t := FirstTool(tools, operation);
            && (t.Some? ==> exists i :: 0 <= i < |tools| && tools[i] == t.value && tools[i].operation == operation
                              && forall j :: 0 <= j < i ==> tools[j].operation != operation)
            && (forall i :: 0 <= i < |tools| && tools[i].operation == operation && (forall j :: 0 <= j < i ==> tools[j].operation != operation)
                  ==> t == Some(tools[i]))
  {
    if tools != [] && tools[0].operation != operation {
      FirstToolIs(tools[1..], operation);
      var t := FirstTool(tools[1..], operation);
      if t.Some? {
        var i :| 0 <= i < |tools[1..]| && tools[1..][i] == t.value && tools[1..][i].operation == operation
                 && forall j :: 0 <= j < i ==> tools[1..][j].operation != operation;
        assert tools[i + 1] == t.value && forall j :: 0 <= j < i + 1 ==> tools[j].operation != operation by {
          assert forall j :: 0 < j < |tools| ==> tools[j] == tools[1..][j - 1];
        }
      }
      assert forall i :: 0 < i < |tools| ==> tools[i] == tools[1..][i - 1];
    }
  }

  lemma {:induction false} FirstEntryIs(entries: seq<Entry>, operation: string)
    ensures var t := FirstEntry(entries, operation);
            && (t.Some? ==> exists i :: 0 <= i < |entries| && entries[i] == t.value && entries[i].operation == operation
                              && forall j :: 0 <= j < i ==> entries[j].operation != operation)
            && (forall i :: 0 <= i < |entries| && entries[i].operation == operation && (forall j :: 0 <= j < i ==> entries[j].operation != operation)
                  ==> t == Some(entries[i]))
  {
    if entries != [] && entries[0].operation != operation {
      FirstEntryIs(entries[1..], operation);
      var t := FirstEntry(entries[1..], operation);
      if t.Some? {
        var i :| 0 <= i < |entries[1..]| && entries[1..][i] == t.value && entries[1..][i].operation == operation
                 && forall j :: 0 <= j < i ==> entries[1..][j].operation != operation;
        assert entries[i + 1] == t.value && forall j :: 0 <= j < i + 1 ==> entries[j].operation != operation by {
          assert forall j :: 0 < j < |entries| ==> entries[j] == entries[1..][j - 1];
        }
      }
      assert forall i :: 0 < i < |entries| ==> entries[i] == entries[1..][i - 1];
    }
  }

  /** What is pinned is what the manifest says, and tool `i` is verified and bound to entry `k`. */
  predicate Bound(c: Call, r: Release, i: nat, k: nat)
    requires i < |r.catalog.tools| && k < |r.bundle.operations|
  {
    var t, e := r.catalog.tools[i], r.bundle.operations[k];
    && t.availability == "VERIFIED" && t.adapter == "bundle:" + r.bundle.bundleId + "#" + e.entrypoint
    && t.contractVersion == Some(e.contractVersion) && t.contractDigest == Some(e.contractDigest)
  }

  lemma BoundIsInvocable(c: Call, r: Release, i: nat, k: nat)
    requires IsTool(r.catalog, c.operation, i) && IsEntry(r.bundle, c.operation, k)
    ensures FirstTool(r.catalog.tools, c.operation) == Some(r.catalog.tools[i])
    ensures FirstEntry(r.bundle.operations, c.operation) == Some(r.bundle.operations[k])
    ensures Invocable(r.bundle, r.catalog.tools[i], Some(r.bundle.operations[k])) <==> Bound(c, r, i, k)
  {
    FirstToolIs(r.catalog.tools, c.operation);
    FirstEntryIs(r.bundle.operations, c.operation);
    hide FirstTool, FirstEntry;
  }

  /**
   * An invocation leaves a record at all if and only if: a release is current; whatever release id,
   * fingerprint, catalog digest and graph digest the call expects is the manifest's; the first tool
   * of the operation is verified and bound to the first entry of it; the payload passes the tool's
   * input schema; and the input rules, the routing and the authorisation pass.
   */
  lemma StartedExactly(s: State, c: Call)
    ensures Script(s, c) != [] <==>
              var loaded := LoadCurrent(s, c.robotId, c.latest);
              && loaded.Current?
              && var r := loaded.release;
                 && (c.expectedRelease.Some? ==> c.expectedRelease.value == r.manifest.releaseId)
                 && (c.expectedFingerprint.Some? ==> c.expectedFingerprint.value == r.manifest.fingerprint)
                 && (c.expectedCatalog.Some? ==> c.expectedCatalog.value == r.manifest.catalog.digest)
                 && (c.expectedGraph.Some? ==> c.expectedGraph.value == r.manifest.graph.digest)
                 && exists i: nat, k: nat ::
                      && IsTool(r.catalog, c.operation, i) && IsEntry(r.bundle, c.operation, k) && Bound(c, r, i, k)
                      && Schema.CheckObject(c.payload, r.catalog.tools[i].inputSchema).Pass?
                      && c.inputRules.Passes? && c.routing.Passes? && c.authorization.Passes?
  {
    hide LoadCurrent, Schema.CheckObject;
    var loaded := LoadCurrent(s, c.robotId, c.latest);
    if loaded.Current? {
      var r := loaded.release;
      ToolAndEntry(c, r);
      hide FirstTool, FirstEntry, Invocable, Bound, IsTool, IsEntry;
      forall i: nat, k: nat | IsTool(r.catalog, c.operation, i) && IsEntry(r.bundle, c.operation, k)
        ensures i < |r.catalog.tools| && k < |r.bundle.operations|
        ensures FirstTool(r.catalog.tools, c.operation) == Some(r.catalog.tools[i])
        ensures FirstEntry(r.bundle.operations, c.operation) == Some(r.bundle.operations[k])
        ensures Invocable(r.bundle, r.catalog.tools[i], Some(r.bundle.operations[k])) <==> Bound(c, r, i, k)
      {
        InBounds(c, r, i, k);
        BoundIsInvocable(c, r, i, k);
      }
      StartedWithRelease(s, c, r);
    }
  }

  lemma InBounds(c: Call, r: Release, i: nat, k: nat)
    requires IsTool(r.catalog, c.operation, i) && IsEntry(r.bundle, c.operation, k)
    ensures i < |r.catalog.tools| && k < |r.bundle.operations|
  {
  }

  lemma ToolAndEntry(c: Call, r: Release)
    ensures FirstTool(r.catalog.tools, c.operation).Some? ==> exists i: nat :: IsTool(r.catalog, c.operation, i)
    ensures FirstEntry(r.bundle.operations, c.operation).Some? ==> exists k: nat :: IsEntry(r.bundle, c.operation, k)
  {
    FirstToolIs(r.catalog.tools, c.operation);
    FirstEntryIs(r.bundle.operations, c.operation);
    if FirstTool(r.catalog.tools, c.operation).Some? {
      var i :| 0 <= i < |r.catalog.tools| && r.catalog.tools[i].operation == c.operation
               && forall j :: 0 <= j < i ==> r.catalog.tools[j].operation != c.operation;
      assert IsTool(r.catalog, c.operation, i);
    }
    if FirstEntry(r.bundle.operations, c.operation).Some? {
      var k :| 0 <= k < |r.bundle.operations| && r.bundle.operations[k].operation == c.operation
               && forall j :: 0 <= j < k ==> r.bundle.operations[j].operation != c.operation;
      assert IsEntry(r.bundle, c.operation, k);
    }
    hide FirstTool, FirstEntry;
  }

  lemma StartedWithRelease(s: State, c: Call, r: Release)
    requires LoadCurrent(s, c.robotId, c.latest) == Current(r)
    ensures var tool := FirstTool(r.catalog.tools, c.operation);
            Script(s, c) != [] <==>
              && (c.expectedRelease.Some? ==> c.expectedRelease.value == r.manifest.releaseId)
              && (c.expectedFingerprint.Some? ==> c.expectedFingerprint.value == r.manifest.fingerprint)
              && (c.expectedCatalog.Some? ==> c.expectedCatalog.value == r.manifest.catalog.digest)
              && (c.expectedGraph.Some? ==> c.expectedGraph.value == r.manifest.graph.digest)
              && tool.Some? && FirstEntry(r.bundle.operations, c.operation).Some?
              && Invocable(r.bundle, tool.value, FirstEntry(r.bundle.operations, c.operation))
              && Schema.CheckObject(c.payload, tool.value.inputSchema).Pass?
              && c.inputRules.Passes? && c.routing.Passes? && c.authorization.Passes?
  {
    hide LoadCurrent, Schema.CheckObject, FirstTool, FirstEntry;
  }

  /**
   * The answer of a call that is not let through: no current release is an error of another kind;
   * a stale or broken one, a pinned value that differs, and a tool that is missing or not bound are
   * ValueErrors; then the first of payload, input rules, routing and authorisation to fail decides.
   */
  lemma RefusedAs(s: State, c: Call)
    requires Script(s, c) == []
    ensures var loaded := LoadCurrent(s, c.robotId, c.latest);
            && (loaded.NoCurrent? ==> Reply(s, c) == Raised(OtherError))
            && (loaded.Failed? || loaded.Stale? ==> Reply(s, c) == Raised(Kind.ValueError))
            && (loaded.Current? ==>
                  var r := loaded.release;
                  var tool := FirstTool(r.catalog.tools, c.operation);
                  if (c.expectedRelease.Some? && c.expectedRelease.value != r.manifest.releaseId)
                     || (c.expectedFingerprint.Some? && c.expectedFingerprint.value != r.manifest.fingerprint)
                     || (c.expectedCatalog.Some? && c.expectedCatalog.value != r.manifest.catalog.digest)
                     || (c.expectedGraph.Some? && c.expectedGraph.value != r.manifest.graph.digest)
                     || tool.None? || !Invocable(r.bundle, tool.value, FirstEntry(r.bundle.operations, c.operation))
                  then Reply(s, c) == Raised(Kind.ValueError)
                  else
                    var payload := Schema.CheckObject(c.payload, tool.value.inputSchema);
                    if payload.ValueError? then Reply(s, c) == Raised(Kind.ValueError)
                    else if !payload.Pass? then Reply(s, c) == Raised(OtherError)
                    else if c.inputRules.Raises? then Reply(s, c) == Raised(c.inputRules.kind)
                    else if c.routing.Raises? then Reply(s, c) == Raised(c.routing.kind)
                    else c.authorization.Raises? && Reply(s, c) == Raised(c.authorization.kind))
  {
    hide LoadCurrent, Schema.CheckObject, FirstTool, FirstEntry, Invocable;
  }

  // ---- what a started call leaves ----

  /** What a call leaves from its run on: the outcome audited, if any, and the answer. */
  ghost predicate Leaves(s: State, c: Call, outcome: Option<Outcome>, answer: Answer) {
    && LoadCurrent(s, c.robotId, c.latest).Current? && Reply(s, c) == answer
    && var releaseId := LoadCurrent(s, c.robotId, c.latest).release.manifest.releaseId;
       Script(s, c) == [Authorized(c.id), Audited(c.id, c.operation, releaseId, STARTED), Ran(c.id)]
                       + (if outcome.Some? then [Audited(c.id, c.operation, releaseId, outcome.value)] else [])
  }

  /**
   * Every ending of a started call: a run that throws is FAILED; one that is interrupted leaves no
   * end; a run that timed out is TIMED_OUT, else one over its output limit is OUTPUT_LIMITED, else
   * one with another return code than 0 is FAILED; output that is no JSON object is INVALID_RESULT.
   * Otherwise the first of output schema, content rules and configuration rules to fail decides: a
   * ValueError or RuntimeError is INVALID_RESULT, anything else leaves no end.  If all pass, the call
   * is SUCCEEDED and returns the very object that was printed.
   */
  lemma EndsExactly(s: State, c: Call, t: Tool)
    requires Script(s, c) != [] && Admission(s, c).1 == Some(t)
    ensures LoadCurrent(s, c.robotId, c.latest).Current?
    ensures match c.run
            case Threw => Leaves(s, c, Some(FAILED), Raised(OtherError))
            case Interrupted => Leaves(s, c, None, Raised(OtherError))
            case Finished(timedOut, outputLimited, code, stdout) =>
              if timedOut then Leaves(s, c, Some(TIMED_OUT), Raised(RuntimeError))
              else if outputLimited then Leaves(s, c, Some(OUTPUT_LIMITED), Raised(RuntimeError))
              else if code != 0 then Leaves(s, c, Some(FAILED), Raised(RuntimeError))
              else if stdout.NotJson? || !stdout.value.Obj? then Leaves(s, c, Some(INVALID_RESULT), Raised(RuntimeError))
              else
                var checked := Schema.CheckObject(stdout.value, t.outputSchema);
                if checked.ValueError? then Leaves(s, c, Some(INVALID_RESULT), Raised(Kind.ValueError))
                else if !checked.Pass? then Leaves(s, c, None, Raised(OtherError))
                else if c.contentRules.Raises? then
                  Leaves(s, c, if c.contentRules.kind.OtherError? then None else Some(INVALID_RESULT), Raised(c.contentRules.kind))
                else if c.configRules.Raises? then
                  Leaves(s, c, if c.configRules.kind.OtherError? then None else Some(INVALID_RESULT), Raised(c.configRules.kind))
                else Leaves(s, c, Some(SUCCEEDED), Returned(stdout.value))
  {
    hide LoadCurrent, Schema.CheckObject, FirstTool, FirstEntry, Invocable, AsPinned;
  }

  /** The tool a started call uses is the first of its operation in the current catalog. */
  lemma StartedTool(s: State, c: Call)
    requires Script(s, c) != []
    ensures var loaded := LoadCurrent(s, c.robotId, c.latest);
            loaded.Current? && Admission(s, c).1.Some?
            && exists i: nat :: IsTool(loaded.release.catalog, c.operation, i) && Admission(s, c).1 == Some(loaded.release.catalog.tools[i])
  {
    hide LoadCurrent, Schema.CheckObject, FirstEntry, Invocable, AsPinned;
    var r := LoadCurrent(s, c.robotId, c.latest).release;
    FirstToolIs(r.catalog.tools, c.operation);
    hide FirstTool;
    var i :| 0 <= i < |r.catalog.tools| && r.catalog.tools[i] == FirstTool(r.catalog.tools, c.operation).value
             && r.catalog.tools[i].operation == c.operation && forall j :: 0 <= j < i ==> r.catalog.tools[j].operation != c.operation;
    assert IsTool(r.catalog, c.operation, i);
  }
}
