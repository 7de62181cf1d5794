/** What contracts, catalogs and compatibility reports say, field by field. */
module ContractContents {
  import opened Lookup
  import opened Optional
  import opened SchemaSubset
  import opened SchemaMeaning
  import opened ContractCatalog
  import opened ContractCompatibility

  // ---- schemas ----

  /** The schema lists `name` among its properties. */
  predicate Has(s: Json, name: string) {
    match Get(s, "properties")
    case None => false
    case Some(properties) => properties.Obj? && exists i :: 0 <= i < |properties.members| && properties.members[i].name == name
  }

  /** The schema lists `name` as required. */
  predicate Asks(s: Json, name: string) {
    match Get(s, "required") case None => false case Some(names) => names.Arr? && Str(name) in names.items
  }

  /** A bound of a stream or session: a positive number as its minimum, and a maximum. */
  predicate Limited(s: Json, name: string) {
    && Field(s, name).Some?
    && var field := Field(s, name).value;
       && Get(field, "maximum").Some? && Get(field, "maximum").value != Null
       && Get(field, "minimum").Some?
       && match Get(field, "minimum").value
          case Int(i) => i > 0
          case Float(x) => x > 0.0
          case Bool(on) => on
          case _ => false
  }

  lemma HasExactly(s: Json, name: string)
    ensures name in PropertyNames(s) <==> Has(s, name)
  {
  }

  lemma AsksExactly(s: Json, name: string)
    ensures name in RequiredNames(s) <==> Asks(s, name)
  {
    if Asks(s, name) {
      var items := Get(s, "required").value.items;
      var i :| 0 <= i < |items| && items[i] == Str(name);
    }
  }

  lemma LimitedExactly(s: Json, name: string)
    ensures PositivelyBounded(s, name) <==> Limited(s, name)
  {
  }

  // ---- one contract ----

  /** A deprecated contract names another operation as its replacement, any other names none. */
  predicate LifecycleFits(c: Contract) {
    if c.lifecycle == DEPRECATED then c.replacement != None && c.replacement != Some("") && c.replacement != Some(c.operation)
    else c.replacement == None
  }

  /** What risk and access demand of one another and of the rest. */
  predicate RiskFits(c: Contract) {
    && (c.access == Read ==>
          && (c.risk == R0 || c.risk == R1)
          && (c.risk == R0 ==> c.overhead != ELEVATED)
          && (c.risk == R1 ==> c.overhead == ELEVATED && c.sideEffects != [] && c.rateLimit != "on_demand"))
    && (c.risk == R3 ==> c.preconditions != [] && c.postconditions != [] && c.sideEffects != [] && c.resourceLocks != [])
    && (c.requiresQuiescence ==> c.access == Write && c.risk == R2 && c.maxDuration <= 115.0)
  }

  /** What the mode demands. */
  predicate ModeFits(c: Contract) {
    var s, o := c.inputSchema, c.outputSchema;
    match c.mode
    case REQUEST_RESPONSE => c.paired == None
    case BOUNDED_STREAM =>
      && c.paired == None && c.access == Read && c.risk == R1 && c.overhead == ELEVATED && c.cancelable
      && Asks(s, "duration_s") && Asks(s, "max_items") && Asks(s, "max_bytes")
      && Limited(s, "duration_s") && Limited(s, "max_items") && Limited(s, "max_bytes")
      && Numeric(Get(Field(s, "duration_s").value, "maximum").value)
      && Number(Get(Field(s, "duration_s").value, "maximum").value) <= c.maxDuration
      && Asks(o, "status") && Asks(o, "observed_at") && Asks(o, "truncated") && (Has(o, "items") || Has(o, "artifact_ref"))
    case SESSION_START =>
      && c.paired != None && c.paired != Some("") && c.access == Write && c.sideEffects != [] && c.resourceLocks != []
      && Asks(s, "ttl_s") && Asks(s, "max_bytes") && Limited(s, "ttl_s") && Limited(s, "max_bytes")
      && Asks(o, "status") && Asks(o, "session_id") && Asks(o, "expires_at")
    case SESSION_STOP =>
      && c.paired != None && c.paired != Some("") && c.access == Write && c.sideEffects != [] && c.resourceLocks != []
      && Asks(s, "session_id") && Asks(o, "status") && Asks(o, "session_id")
  }

  /** The semantics is the one that mode and access call for. */
  predicate SemanticsFits(c: Contract) {
    && (c.semantics == SESSION_HANDLE <==> c.mode == SESSION_START)
    && (c.mode != SESSION_START ==> (c.semantics == OBSERVATION <==> c.access == Read))
  }

  /** What the schemas demand of one another and of the rest. */
  ghost predicate SchemasFit(c: Contract) {
    && CheckDefinition(c.inputSchema) == Outcome.Pass && CheckDefinition(c.outputSchema) == Outcome.Pass
    && (forall x :: x in c.placeholders ==> x == "operation" || x == "robot_id" || x == "input_json" || Has(c.inputSchema, x))
    && (exists x :: Has(c.outputSchema, x)) && (c.access == Write ==> Asks(c.outputSchema, "status"))
  }

  /** What an accepted contract is: every rule, on the fields and on the names its schemas list. */
  lemma ContractExactly(c: Contract)
    ensures ContractAccepted(c) <==>
              && c.contractId == c.operation && c.classification != Classification.SECRET
              && (c.cancelable ==> c.access == Write || c.mode == BOUNDED_STREAM)
              && LifecycleFits(c) && RiskFits(c) && SemanticsFits(c) && ModeFits(c) && SchemasFit(c)
  {
    ModeExactly(c);
    SchemasExactly(c);
    hide PropertyNames, RequiredNames, CheckDefinition, ModeAccepted, ModeFits, SchemasFit;
    assert LifecycleFits(c) <==>
           if c.lifecycle.DEPRECATED? then c.replacement.Some? && c.replacement.value !in {"", c.operation} else c.replacement.None?;
    hide LifecycleFits;
    assert SemanticsFits(c) <==> c.semantics == ExpectedSemantics(c);
    hide SemanticsFits, ExpectedSemantics;
  }

  lemma SchemasExactly(c: Contract)
    ensures SchemasFit(c) <==>
              && c.placeholders <= {"operation", "robot_id", "input_json"} + PropertyNames(c.inputSchema)
              && CheckDefinition(c.inputSchema).Pass? && CheckDefinition(c.outputSchema).Pass?
              && PropertyNames(c.outputSchema) != {} && (c.access.Write? ==> "status" in RequiredNames(c.outputSchema))
  {
    NamesExactly(c.inputSchema);
    NamesExactly(c.outputSchema);
    hide PropertyNames, RequiredNames, Has, Asks, CheckDefinition, PositivelyBounded, Limited;
  }

  lemma ModeExactly(c: Contract)
    ensures ModeAccepted(c) <==> ModeFits(c)
  {
    NamesExactly(c.inputSchema);
    NamesExactly(c.outputSchema);
    hide PropertyNames, RequiredNames, Has, Asks, PositivelyBounded, Limited;
    DurationExactly(c);
    hide DurationCovered;
    assert {"items", "artifact_ref"} * PropertyNames(c.outputSchema) != {}
           <==> Has(c.outputSchema, "items") || Has(c.outputSchema, "artifact_ref") by {
      assert forall x :: x in {"items", "artifact_ref"} * PropertyNames(c.outputSchema) ==> x == "items" || x == "artifact_ref";
      if "items" in PropertyNames(c.outputSchema) {
        assert "items" in {"items", "artifact_ref"} * PropertyNames(c.outputSchema);
      }
      if "artifact_ref" in PropertyNames(c.outputSchema) {
        assert "artifact_ref" in {"items", "artifact_ref"} * PropertyNames(c.outputSchema);
      }
    }
  }

  lemma NamesExactly(s: Json)
    ensures forall x :: x in PropertyNames(s) <==> Has(s, x)
    ensures forall x :: x in RequiredNames(s) <==> Asks(s, x)
    ensures forall x :: PositivelyBounded(s, x) <==> Limited(s, x)
  {
    forall x
      ensures (x in PropertyNames(s) <==> Has(s, x)) && (x in RequiredNames(s) <==> Asks(s, x))
      ensures PositivelyBounded(s, x) <==> Limited(s, x)
    {
      HasExactly(s, x);
      AsksExactly(s, x);
      LimitedExactly(s, x);
    }
  }

  lemma DurationExactly(c: Contract)
    ensures Limited(c.inputSchema, "duration_s") ==>
              (DurationCovered(c) <==>
                 && Numeric(Get(Field(c.inputSchema, "duration_s").value, "maximum").value)
                 && Number(Get(Field(c.inputSchema, "duration_s").value, "maximum").value) <= c.maxDuration)
  {
  }

  // ---- the catalog ----

  /** `d` is a session control of the other mode, and each names the other. */
  predicate Partners(c: Contract, d: Contract) {
    && c.paired == Some(d.operation) && d.paired == Some(c.operation)
    && (if c.mode == SESSION_START then d.mode == SESSION_STOP else d.mode == SESSION_START)
  }

  /**
   * An accepted catalog: distinct operations; a replacement that is there and not deprecated; a
   * compensation that is there, not deprecated, and writes, for every write that can be cancelled;
   * and a partner of the other session mode that is paired in turn.
   */
  lemma CatalogExactly(cs: seq<Contract>)
    ensures CatalogAccepted(cs) <==>
              && (forall i, j :: 0 <= i < j < |cs| ==> cs[i].operation != cs[j].operation)
              && forall c :: c in cs ==>
                   && (c.replacement != None ==> exists d :: d in cs && c.replacement == Some(d.operation) && d.lifecycle != DEPRECATED)
                   && (c.compensation != None ==>
                         exists d :: d in cs && c.compensation == Some(d.operation) && d.lifecycle != DEPRECATED && d.access == Write)
                   && (c.access == Write && c.cancelable ==> c.compensation != None)
                   && (c.paired != None ==> exists d :: d in cs && Partners(c, d))
  {
    assert DistinctKeys(cs, OperationOf) <==> forall i, j :: 0 <= i < j < |cs| ==> cs[i].operation != cs[j].operation;
    forall c: Contract
      ensures ReplacementFound(c, cs) <==>
                (c.replacement != None ==> exists d :: d in cs && c.replacement == Some(d.operation) && d.lifecycle != DEPRECATED)
      ensures CompensationFound(c, cs) <==>
                && (c.compensation != None ==>
                      exists d :: d in cs && c.compensation == Some(d.operation) && d.lifecycle != DEPRECATED && d.access == Write)
                && (c.access == Write && c.cancelable ==> c.compensation != None)
      ensures PartnerFound(c, cs) <==> (c.paired != None ==> exists d :: d in cs && Partners(c, d))
    {
      LinksExactly(c, cs);
    }
    hide DistinctKeys, ReplacementFound, CompensationFound, PartnerFound, Partners;
  }

  lemma LinksExactly(c: Contract, cs: seq<Contract>)
    ensures ReplacementFound(c, cs) <==>
              (c.replacement != None ==> exists d :: d in cs && c.replacement == Some(d.operation) && d.lifecycle != DEPRECATED)
    ensures CompensationFound(c, cs) <==>
              && (c.compensation != None ==>
                    exists d :: d in cs && c.compensation == Some(d.operation) && d.lifecycle != DEPRECATED && d.access == Write)
              && (c.access == Write && c.cancelable ==> c.compensation != None)
    ensures PartnerFound(c, cs) <==> (c.paired != None ==> exists d :: d in cs && Partners(c, d))
  {
    forall d: Contract ensures Partners(c, d) <==> Pairs(c, d) {
    }
  }

  // ---- the report ----

  /** The levels, from the least protected on. */
  const LEVELS := [PUBLIC, INTERNAL, SENSITIVE, Classification.SECRET]

  /**
   * A report on two versions of one operation.  A message is there exactly when its fields changed so,
   * with exactly the names that were lost or are newly asked for; the last is about the others.
   */
  lemma ReportExactly(issues: seq<Issue>, p: Contract, c: Contract)
    requires p.operation == c.operation && Reported(issues, p, c, 11)
    ensures IdentityChanged !in issues
    ensures MajorDecreased in issues <==> c.major < p.major
    ensures AccessOrRiskChanged in issues <==> p.access != c.access || p.risk != c.risk
    ensures SemanticsChanged in issues <==> p.semantics != c.semantics
    ensures OverheadChanged in issues <==> p.overhead != c.overhead
    ensures ModeOrPairingChanged in issues <==> p.mode != c.mode || p.paired != c.paired
    ensures ClassificationWeakened in issues
            <==> exists i, j :: 0 <= i < j < 4 && LEVELS[i] == c.classification && LEVELS[j] == p.classification
    ensures forall names :: InputRemoved(names) in issues
                            <==> names != {} && forall x :: x in names <==> Has(p.inputSchema, x) && !Has(c.inputSchema, x)
    ensures forall names :: NewRequired(names) in issues
                            <==> names != {} && forall x :: x in names <==> Asks(c.inputSchema, x) && !Asks(p.inputSchema, x)
    ensures forall names :: OutputRemoved(names) in issues
                            <==> names != {} && forall x :: x in names <==> Has(p.outputSchema, x) && !Has(c.outputSchema, x)
    ensures NeedsNewMajor in issues <==> c.major <= p.major && exists issue :: issue in issues && issue != NeedsNewMajor
  {
    NamesExactly(p.inputSchema);
    NamesExactly(c.inputSchema);
    NamesExactly(p.outputSchema);
    NamesExactly(c.outputSchema);
    hide PropertyNames, RequiredNames, Has, Asks, PositivelyBounded, Limited;
    forall issue ensures issue in issues <==> Holds(issue, p, c) {
      assert Place(issue) < 11;
    }
    forall names ensures InputRemoved(names) in issues
                         <==> names != {} && forall x :: x in names <==> Has(p.inputSchema, x) && !Has(c.inputSchema, x) {
      assert Holds(InputRemoved(names), p, c) <==> InputRemoved(names) in issues;
    }
    forall names ensures NewRequired(names) in issues
                         <==> names != {} && forall x :: x in names <==> Asks(c.inputSchema, x) && !Asks(p.inputSchema, x) {
      assert Holds(NewRequired(names), p, c) <==> NewRequired(names) in issues;
    }
    forall names ensures OutputRemoved(names) in issues
                         <==> names != {} && forall x :: x in names <==> Has(p.outputSchema, x) && !Has(c.outputSchema, x) {
      assert Holds(OutputRemoved(names), p, c) <==> OutputRemoved(names) in issues;
    }
    SomethingElseReported(issues, p, c);
    hide Reported, Compatible, Place;
    if Rank(c.classification) < Rank(p.classification) {
      assert LEVELS[Rank(c.classification)] == c.classification && LEVELS[Rank(p.classification)] == p.classification;
    }
  }

  lemma NothingLost(before: set<string>, after: set<string>)
    ensures Lost(before, after) == {} <==> before <= after
  {
    assert forall x :: x in before && x !in Lost(before, after) ==> x in after;
  }

  lemma SomethingElseReported(issues: seq<Issue>, p: Contract, c: Contract)
    requires p.operation == c.operation && Reported(issues, p, c, 11)
    ensures (exists issue :: issue in issues && issue != NeedsNewMajor) <==> !Compatible(p, c)
  {
    hide PropertyNames, RequiredNames, Rank;
    var removed := Lost(PropertyNames(p.inputSchema), PropertyNames(c.inputSchema));
    var required := Lost(RequiredNames(c.inputSchema), RequiredNames(p.inputSchema));
    var gone := Lost(PropertyNames(p.outputSchema), PropertyNames(c.outputSchema));
    NothingLost(PropertyNames(p.inputSchema), PropertyNames(c.inputSchema));
    NothingLost(RequiredNames(c.inputSchema), RequiredNames(p.inputSchema));
    NothingLost(PropertyNames(p.outputSchema), PropertyNames(c.outputSchema));
    if !Compatible(p, c) {
      var issue :=
        if c.major < p.major then MajorDecreased
        else if p.access != c.access || p.risk != c.risk then AccessOrRiskChanged
        else if p.semantics != c.semantics then SemanticsChanged
        else if p.overhead != c.overhead then OverheadChanged
        else if p.mode != c.mode || p.paired != c.paired then ModeOrPairingChanged
        else if Rank(c.classification) < Rank(p.classification) then ClassificationWeakened
        else if removed != {} then InputRemoved(removed)
        else if required != {} then NewRequired(required) else OutputRemoved(gone);
      assert Holds(issue, p, c) && Place(issue) < 11;
      assert issue in issues;
    }
  }
}
