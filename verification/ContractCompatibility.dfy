/** What an accepted contract guarantees of the payloads its schemas let through, and across its versions. */
module ContractCompatibility {
  import opened Optional
  import opened SchemaSubset
  import opened SchemaMeaning
  import opened ContractCatalog

  // ---- bounded streams ----

  function Field(s: Json, name: string): (field: Option<Json>)
    ensures field.Some? ==> field.value < s
  {
    match Get(s, "properties") case None => None case Some(properties) => Get(properties, name)
  }

  predicate NumberTyped(s: Json) {
    Typed(s, "number") || Typed(s, "integer")
  }

  function BoundOf(field: Json, keyword: string): real {
    match Get(field, keyword) case None => 0.0 case Some(b) => if Numeric(b) then Number(b) else 0.0
  }

  /** A required field is there, with a value its own definition admits. */
  lemma RequiredFieldIsAdmitted(v: Json, s: Json, name: string)
    requires Meaningful(s) && Typed(s, "object") && Admits(Meaning(s), v) && name in RequiredNames(s)
    ensures Field(s, name).Some? && Meaningful(Field(s, name).value)
    ensures Get(v, name).Some? && Admits(Meaning(Field(s, name).value), Get(v, name).value)
  {
    KindDecided(s);
    var names := Required(s).value;
    var i :| 0 <= i < |names| && names[i].Str? && names[i].text == name;
    assert RequiredKnown(s, i);
    PropertyIsMeaningful(s, name);
    var kind := KindOf(s);
    assert name in kind.required && name in kind.fields;
    hide WellFormed, BoundsNumeric, Meaning, KindOf, Admits;
    FirstIsAdmitted(v, kind, name);
    assert FieldsOf(s)[name] == Meaning(Field(s, name).value);
  }

  lemma FirstIsAdmitted(v: Json, kind: Kind, name: string)
    requires kind.Objects? && AdmitsKind(kind, v) && name in kind.required && name in kind.fields
    ensures Get(v, name).Some? && Admits(kind.fields[name], Get(v, name).value)
  {
    var k := IndexOf(v.members, name, 0);
    assert v.members[k].name == name;
    hide Admits;
  }

  lemma NumberIsWithin(v: Json, s: Json)
    requires Meaningful(s) && Admits(Meaning(s), v)
    ensures v.Int? || v.Float? <==> NumberTyped(s)
    ensures NumberTyped(s) && Get(s, "minimum").Some? ==> Number(v) >= BoundOf(s, "minimum")
    ensures NumberTyped(s) && Get(s, "maximum").Some? ==> Number(v) <= BoundOf(s, "maximum")
  {
    KindDecided(s);
    assert AdmitsKind(KindOf(s), v);
    if NumberTyped(s) {
      assert NumericIfAny(s, "minimum") && NumericIfAny(s, "maximum");
      assert Within(Number(v), Range(Bound(s, "minimum"), Bound(s, "maximum")));
    }
    hide WellFormed, BoundsNumeric;
  }

  /** What the contract rules say of one bound of a stream. */
  lemma StreamRules(c: Contract, name: string)
    requires ContractAccepted(c) && c.mode.BOUNDED_STREAM? && name in {"duration_s", "max_items", "max_bytes"}
    ensures name in RequiredNames(c.inputSchema) && PositivelyBounded(c.inputSchema, name)
    ensures name == "duration_s" ==> DurationCovered(c)
  {
    hide CheckDefinition, PositivelyBounded, DurationCovered, RequiredNames, PropertyNames;
    assert ModeAccepted(c);
  }

  /**
   * A payload accepted for a bounded stream carries each of the three bounds.  The contract rules
   * look at the keywords of a bound and never at its type: the value is a number exactly when the
   * field is typed as one, and then it is positive, within the declared maximum and, for the
   * duration, within the duration of the contract.
   */
  lemma StreamPayloadIsBounded(c: Contract, v: Json, name: string)
    requires ContractAccepted(c) && c.mode.BOUNDED_STREAM? && BoundsNumeric(c.inputSchema)
    requires CheckObject(v, c.inputSchema).Pass? && name in {"duration_s", "max_items", "max_bytes"}
    ensures Get(v, name).Some? && Field(c.inputSchema, name).Some?
    ensures var sent, field := Get(v, name).value, Field(c.inputSchema, name).value;
            && (sent.Int? || sent.Float? <==> NumberTyped(field))
            && (NumberTyped(field) ==>
                  && 0.0 < Number(sent) <= BoundOf(field, "maximum")
                  && (name == "duration_s" ==> Number(sent) <= c.maxDuration))
  {
    var s := c.inputSchema;
    StreamRules(c, name);
    hide ContractAccepted, WellFormed, BoundsNumeric, Admits, Meaning, CheckObject;
    ObjectCheckedExactly(v, s);
    RequiredFieldIsAdmitted(v, s, name);
    NumberIsWithin(Get(v, name).value, Field(s, name).value);
  }

  // ---- versions of a contract ----

  /** The messages, with the names they list. */
  datatype Issue =
    | IdentityChanged | MajorDecreased | AccessOrRiskChanged | SemanticsChanged | OverheadChanged
    | ModeOrPairingChanged | ClassificationWeakened | InputRemoved(names: set<string>)
    | NewRequired(names: set<string>) | OutputRemoved(names: set<string>) | NeedsNewMajor

  function Rank(c: Classification): nat {
    match c case PUBLIC => 0 case INTERNAL => 1 case SENSITIVE => 2 case SECRET => 3
  }

  function Lost(before: set<string>, after: set<string>): set<string> {
    before - after
  }

  /** What `issue` says of two versions of one operation; a list of names is exact. */
  predicate Holds(issue: Issue, p: Contract, c: Contract) {
    match issue
    case IdentityChanged => false
    case MajorDecreased => c.major < p.major
    case AccessOrRiskChanged => p.access != c.access || p.risk != c.risk
    case SemanticsChanged => p.semantics != c.semantics
    case OverheadChanged => p.overhead != c.overhead
    case ModeOrPairingChanged => p.mode != c.mode || p.paired != c.paired
    case ClassificationWeakened => Rank(c.classification) < Rank(p.classification)
    case InputRemoved(names) => names == Lost(PropertyNames(p.inputSchema), PropertyNames(c.inputSchema)) != {}
    case NewRequired(names) => names == Lost(RequiredNames(c.inputSchema), RequiredNames(p.inputSchema)) != {}
    case OutputRemoved(names) => names == Lost(PropertyNames(p.outputSchema), PropertyNames(c.outputSchema)) != {}
    case NeedsNewMajor => c.major <= p.major && !Compatible(p, c)
  }

  /** Nothing a caller of the previous version relies on is gone. */
  predicate Compatible(p: Contract, c: Contract) {
    && p.operation == c.operation && p.major <= c.major
    && p.access == c.access && p.risk == c.risk && p.semantics == c.semantics && p.overhead == c.overhead
    && p.mode == c.mode && p.paired == c.paired && Rank(p.classification) <= Rank(c.classification)
    && PropertyNames(p.inputSchema) <= PropertyNames(c.inputSchema)
    && RequiredNames(c.inputSchema) <= RequiredNames(p.inputSchema)
    && PropertyNames(p.outputSchema) <= PropertyNames(c.outputSchema)
  }

  /** Where an issue stands in the report. */
  function Place(issue: Issue): nat {
    match issue
    case IdentityChanged => 0 case MajorDecreased => 1 case AccessOrRiskChanged => 2 case SemanticsChanged => 3
    case OverheadChanged => 4 case ModeOrPairingChanged => 5 case ClassificationWeakened => 6 case InputRemoved(_) => 7
    case NewRequired(_) => 8 case OutputRemoved(_) => 9 case NeedsNewMajor => 10
  }

  /** The report up to a place: every issue that holds, once, in order. */
  ghost predicate Reported(issues: seq<Issue>, p: Contract, c: Contract, upTo: nat) {
    && (forall issue :: issue in issues <==> Holds(issue, p, c) && Place(issue) < upTo)
    && forall i, j :: 0 <= i < j < |issues| ==> Place(issues[i]) < Place(issues[j])
  }

  /** No other issue that holds stands at the same place. */
  ghost predicate Alone(issue: Issue, p: Contract, c: Contract) {
    forall other :: Place(other) == Place(issue) && Holds(other, p, c) ==> other == issue
  }

  lemma ReportNext(issues: seq<Issue>, p: Contract, c: Contract, issue: Issue)
    requires Reported(issues, p, c, Place(issue)) && Alone(issue, p, c)
    ensures Reported(if Holds(issue, p, c) then issues + [issue] else issues, p, c, Place(issue) + 1)
  {
    hide Holds, Place;
    var next := if Holds(issue, p, c) then issues + [issue] else issues;
    forall other ensures other in next <==> Holds(other, p, c) && Place(other) < Place(issue) + 1 {
    }
    forall i, j | 0 <= i < j < |next| ensures Place(next[i]) < Place(next[j]) {
      assert i < |issues| && issues[i] in issues;
    }
  }

  lemma FlagsHold(p: Contract, c: Contract)
    ensures Place(IdentityChanged) == 0 && Place(MajorDecreased) == 1 && Place(AccessOrRiskChanged) == 2
    ensures Place(SemanticsChanged) == 3 && Place(OverheadChanged) == 4 && Place(ModeOrPairingChanged) == 5
    ensures Place(ClassificationWeakened) == 6 && Place(NeedsNewMajor) == 10
    ensures Alone(IdentityChanged, p, c) && Alone(MajorDecreased, p, c) && Alone(AccessOrRiskChanged, p, c)
    ensures Alone(SemanticsChanged, p, c) && Alone(OverheadChanged, p, c) && Alone(ModeOrPairingChanged, p, c)
    ensures Alone(ClassificationWeakened, p, c) && Alone(NeedsNewMajor, p, c)
    ensures !Holds(IdentityChanged, p, c) && (Holds(MajorDecreased, p, c) <==> c.major < p.major)
    ensures Holds(AccessOrRiskChanged, p, c) <==> p.access != c.access || p.risk != c.risk
    ensures Holds(SemanticsChanged, p, c) <==> p.semantics != c.semantics
    ensures Holds(OverheadChanged, p, c) <==> p.overhead != c.overhead
    ensures Holds(ModeOrPairingChanged, p, c) <==> p.mode != c.mode || p.paired != c.paired
    ensures Holds(ClassificationWeakened, p, c) <==> Rank(c.classification) < Rank(p.classification)
    ensures Holds(NeedsNewMajor, p, c) <==> c.major <= p.major && !Compatible(p, c)
  {
    hide PropertyNames, RequiredNames, Rank, Compatible;
  }

  lemma NamesHold(p: Contract, c: Contract, removed: set<string>, required: set<string>, gone: set<string>)
    requires removed == Lost(PropertyNames(p.inputSchema), PropertyNames(c.inputSchema))
    requires required == Lost(RequiredNames(c.inputSchema), RequiredNames(p.inputSchema))
    requires gone == Lost(PropertyNames(p.outputSchema), PropertyNames(c.outputSchema))
    ensures Place(InputRemoved(removed)) == 7 && Alone(InputRemoved(removed), p, c)
    ensures Place(NewRequired(required)) == 8 && Alone(NewRequired(required), p, c)
    ensures Place(OutputRemoved(gone)) == 9 && Alone(OutputRemoved(gone), p, c)
    ensures Holds(InputRemoved(removed), p, c) <==> removed != {}
    ensures Holds(NewRequired(required), p, c) <==> required != {}
    ensures Holds(OutputRemoved(gone), p, c) <==> gone != {}
  {
    hide PropertyNames, RequiredNames, Rank, Compatible;
  }

  /** The issues about policy, up to the classification. */
  method PolicyIssues(p: Contract, c: Contract) returns (issues: seq<Issue>)
    ensures Reported(issues, p, c, 7)
  {
    FlagsHold(p, c);
    assert Reported([], p, c, 0);
    hide Holds, Place, Alone, Reported, Compatible, Rank;
    issues := [];
    ReportNext(issues, p, c, IdentityChanged);
    ReportNext(issues, p, c, MajorDecreased);
    if c.major < p.major {
      issues := issues + [MajorDecreased];
    }
    ReportNext(issues, p, c, AccessOrRiskChanged);
    if p.access != c.access || p.risk != c.risk {
      issues := issues + [AccessOrRiskChanged];
    }
    ReportNext(issues, p, c, SemanticsChanged);
    if p.semantics != c.semantics {
      issues := issues + [SemanticsChanged];
    }
    ReportNext(issues, p, c, OverheadChanged);
    if p.overhead != c.overhead {
      issues := issues + [OverheadChanged];
    }
    ReportNext(issues, p, c, ModeOrPairingChanged);
    if p.mode != c.mode || p.paired != c.paired {
      issues := issues + [ModeOrPairingChanged];
    }
    ReportNext(issues, p, c, ClassificationWeakened);
    if Rank(c.classification) < Rank(p.classification) {
      issues := issues + [ClassificationWeakened];
    }
  }

  /** One issue about names, if there are any. */
  method AppendNames(issues: seq<Issue>, names: set<string>, issue: Issue, ghost p: Contract, ghost c: Contract)
    returns (next: seq<Issue>)
    requires Reported(issues, p, c, Place(issue)) && Alone(issue, p, c) && (Holds(issue, p, c) <==> names != {})
    ensures Reported(next, p, c, Place(issue) + 1)
  {
    ReportNext(issues, p, c, issue);
    next := issues;
    if names != {} {
      next := next + [issue];
    }
  }

  /** The issues about names: what is gone, and what is newly asked for. */
  method NameIssues(p: Contract, c: Contract, before: seq<Issue>) returns (issues: seq<Issue>)
    requires Reported(before, p, c, 7)
    ensures Reported(issues, p, c, 10)
  {
    var removed := Lost(PropertyNames(p.inputSchema), PropertyNames(c.inputSchema));
    var required := Lost(RequiredNames(c.inputSchema), RequiredNames(p.inputSchema));
    var gone := Lost(PropertyNames(p.outputSchema), PropertyNames(c.outputSchema));
    NamesHold(p, c, removed, required, gone);
    hide *;
    issues := AppendNames(before, removed, InputRemoved(removed), p, c);
    issues := AppendNames(issues, required, NewRequired(required), p, c);
    issues := AppendNames(issues, gone, OutputRemoved(gone), p, c);
  }

  /** `compatibility_issues`. */
  method CompatibilityIssues(p: Contract, c: Contract) returns (issues: seq<Issue>)
    ensures p.operation != c.operation ==> issues == [IdentityChanged]
    ensures p.operation == c.operation ==> Reported(issues, p, c, 11)
    ensures issues == [] <==> Compatible(p, c)
  {
    if p.operation != c.operation {
      return [IdentityChanged];
    }
    FlagsHold(p, c);
    hide Holds, Place, Alone, Reported, Compatible, Rank;
    issues := PolicyIssues(p, c);
    issues := NameIssues(p, c, issues);
    NothingReportedMeansCompatible(issues, p, c);
    ReportNext(issues, p, c, NeedsNewMajor);
    if issues != [] && c.major <= p.major {
      issues := issues + [NeedsNewMajor];
    }
  }

  lemma NothingReportedMeansCompatible(issues: seq<Issue>, p: Contract, c: Contract)
    requires p.operation == c.operation && Reported(issues, p, c, 10)
    ensures issues == [] <==> Compatible(p, c)
  {
    hide PropertyNames, RequiredNames, Rank;
    var removed := Lost(PropertyNames(p.inputSchema), PropertyNames(c.inputSchema));
    var required := Lost(RequiredNames(c.inputSchema), RequiredNames(p.inputSchema));
    var gone := Lost(PropertyNames(p.outputSchema), PropertyNames(c.outputSchema));
    if issues == [] {
      forall issue | Place(issue) < 10 ensures !Holds(issue, p, c) {
        assert issue !in issues;
      }
      assert !Holds(MajorDecreased, p, c) && !Holds(AccessOrRiskChanged, p, c) && !Holds(SemanticsChanged, p, c);
      assert !Holds(OverheadChanged, p, c) && !Holds(ModeOrPairingChanged, p, c) && !Holds(ClassificationWeakened, p, c);
      assert !Holds(InputRemoved(removed), p, c) && !Holds(NewRequired(required), p, c) && !Holds(OutputRemoved(gone), p, c);
      assert removed == {} && required == {} && gone == {};
      assert forall name :: name in PropertyNames(p.inputSchema) && name !in removed ==> name in PropertyNames(c.inputSchema);
      assert forall name :: name in RequiredNames(c.inputSchema) && name !in required ==> name in RequiredNames(p.inputSchema);
      assert forall name :: name in PropertyNames(p.outputSchema) && name !in gone ==> name in PropertyNames(c.outputSchema);
    } else {
      assert issues[0] in issues;
      assert Holds(issues[0], p, c);
    }
  }

  /** "No issues" is reflexive and transitive. */
  lemma CompatibilityIsAPreorder(a: Contract, b: Contract, c: Contract)
    ensures Compatible(a, a)
    ensures Compatible(a, b) && Compatible(b, c) ==> Compatible(a, c)
  {
  }

  // ---- what compatibility gives a caller ----

  predicate Open(s: Json) {
    Get(s, "additionalProperties") == Some(Bool(true))
  }

  /** A payload the previous input schema accepts passes the name checks of the current one. */
  predicate NamesStillPass(v: Json, p: Contract, c: Contract) {
    CheckObject(v, p.inputSchema).Pass? ==> CheckNames(v, c.inputSchema).Pass?
  }

  lemma AcceptedNames(v: Json, s: Json)
    requires CheckObject(v, s).Pass?
    ensures WellFormed(s) && Typed(s, "object") && v.Obj? && RequiredNames(s) <= Names(v)
    ensures Open(s) || Names(v) <= PropertyNames(s)
  {
    DefinitionAcceptedExactly(s);
    assert CheckKind(v, s).Pass?;
    assert CheckNames(v, s).Pass?;
    NamesDecided(v, s);
  }

  /** The name checks against a well-formed object definition. */
  lemma NamesDecided(v: Json, s: Json)
    requires WellFormed(s) && Typed(s, "object")
    ensures CheckNames(v, s).Pass? <==> RequiredNames(s) <= Names(v) && (Open(s) || Names(v) <= PropertyNames(s))
  {
    var names := Required(s).value;
    forall i | 0 <= i < |names| ensures names[i].Str? && names[i].text in Texts(names) {
      assert RequiredKnown(s, i);
    }
    hide WellFormed;
  }

  /**
   * Compatible versions protect a caller: a payload the old version accepts has no missing and no
   * unknown field under the new one, provided the old schema is closed or the new one open.
   */
  lemma CallersAreProtected(p: Contract, c: Contract, v: Json)
    requires Compatible(p, c) && CheckDefinition(c.inputSchema).Pass? && Typed(c.inputSchema, "object")
    requires !Open(p.inputSchema) || Open(c.inputSchema)
    ensures NamesStillPass(v, p, c)
  {
    hide CheckNames, CheckObject, WellFormed, RequiredNames, PropertyNames, CheckDefinition, Open;
    if CheckObject(v, p.inputSchema).Pass? {
      AcceptedNames(v, p.inputSchema);
      DefinitionAcceptedExactly(c.inputSchema);
      NamesDecided(v, c.inputSchema);
    }
  }

  /** Some name is in no given finite set: one longer than all of them. */
  lemma {:induction false} UnusedName(names: set<string>) returns (unused: string)
    ensures forall name :: name in names ==> |name| < |unused|
  {
    if names == {} {
      unused := "x";
    } else {
      var name :| name in names;
      unused := UnusedName(names - {name});
      unused := if |unused| > |name| then unused else name + "x";
    }
  }

  /** An open definition without choices accepts a payload with one more, undeclared member. */
  lemma ExtraMemberIsAccepted(v: Json, s: Json, name: string)
    requires CheckObject(v, s).Pass? && Open(s) && Get(s, "enum").None?
    requires name !in Names(v) && name !in PropertyNames(s)
    ensures var w := Obj(v.members + [Member(name, Null)]);
            CheckObject(w, s).Pass? && Names(w) == Names(v) + {name}
  {
    AcceptedNames(v, s);
    assert CheckKind(v, s).Pass?;
    var w := Obj(v.members + [Member(name, Null)]);
    forall x ensures x in Names(w) <==> x in Names(v) || x == name {
      if x in Names(v) {
        var i :| 0 <= i < |v.members| && v.members[i].name == x;
        assert w.members[i].name == x;
      }
      assert w.members[|v.members|].name == name;
    }
    var properties := Get(s, "properties").value;
    forall i | 0 <= i < |w.members| ensures MemberChecks(w, properties)[i].Pass? {
      if i < |v.members| {
        assert MemberChecks(v, properties)[i].Pass?;
      } else {
        assert Get(properties, name).None?;
      }
    }
    NamesDecided(w, s);
    assert CheckKind(w, s).Pass?;
    hide WellFormed, CheckNames, Names, CheckDefinition, CheckLow, CheckHigh, RequiredNames, PropertyNames;
  }

  /** An accepted payload exists, and the definition does not list whole payloads. */
  ghost predicate Usable(s: Json) {
    Get(s, "enum").None? && exists v :: CheckObject(v, s).Pass?
  }

  /**
   * That proviso is exact: between compatible versions callers are protected if and only if the old
   * schema is closed or the new one open.
   */
  lemma CallersAreProtectedExactly(p: Contract, c: Contract)
    requires Compatible(p, c) && Usable(p.inputSchema)
    requires CheckDefinition(c.inputSchema).Pass? && Typed(c.inputSchema, "object")
    ensures (forall v :: NamesStillPass(v, p, c)) <==> !Open(p.inputSchema) || Open(c.inputSchema)
  {
    hide CheckNames, CheckObject, WellFormed, RequiredNames, PropertyNames, CheckDefinition, Open, Names;
    if !Open(p.inputSchema) || Open(c.inputSchema) {
      forall v ensures NamesStillPass(v, p, c) {
        CallersAreProtected(p, c, v);
      }
    } else {
      var v :| CheckObject(v, p.inputSchema).Pass?;
      var name := UnusedName(Names(v) + PropertyNames(p.inputSchema) + PropertyNames(c.inputSchema));
      AcceptedNames(v, p.inputSchema);
      ExtraMemberIsAccepted(v, p.inputSchema, name);
      var w := Obj(v.members + [Member(name, Null)]);
      DefinitionAcceptedExactly(c.inputSchema);
      NamesDecided(w, c.inputSchema);
      assert name in Names(w) && name !in PropertyNames(c.inputSchema);
      assert !NamesStillPass(w, p, c);
    }
  }

  /** A definition that only names a scalar type. */
  function Scalar(t: string): Json {
    Obj([Member("type", Str(t))])
  }

  lemma ScalarDecides(t: string)
    requires t in {"integer", "string"}
    ensures WellFormed(Scalar(t)) && CheckValue(Int(1), Scalar(t)) == if t == "integer" then Pass else ValueError
  {
    var s := Scalar(t);
    assert s.members[0].name == "type";
    assert Typed(s, t) && Get(s, "enum") == None && Get(s, "minimum") == None && Get(s, "maximum") == None;
    hide Get, Names;
  }

  lemma OneFieldNames(field: Json)
    ensures PropertyNames(OneField(field)) == {"n"} && RequiredNames(OneField(field)) == {}
  {
    OneFieldParts(field);
    hide OneField, Get, Names;
  }

  /**
   * The fields themselves are not compared: of two compatible versions that differ in the type of
   * one field, the new one refuses what the old one accepts.
   */
  lemma FieldTypesAreNotCompared(p: Contract, c: Contract)
    requires p.inputSchema == OneField(Scalar("integer")) && c == p.(inputSchema := OneField(Scalar("string")))
    ensures Compatible(p, c)
    ensures var v := Obj([Member("n", Int(1))]);
            CheckObject(v, p.inputSchema).Pass? && CheckObject(v, c.inputSchema) == ValueError
  {
    ScalarDecides("integer");
    ScalarDecides("string");
    OneFieldNames(Scalar("integer"));
    OneFieldNames(Scalar("string"));
    OneFieldDecides(Scalar("integer"), Int(1));
    OneFieldDecides(Scalar("string"), Int(1));
    hide CheckObject, CheckValue, WellFormed, PropertyNames, RequiredNames, OneField, Scalar;
  }
}
