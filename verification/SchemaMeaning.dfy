/** What an accepted definition means, apart from any order of checks, and that the checks decide just that. */
module SchemaMeaning {
  import opened Optional
  import opened SchemaSubset

  // ---- meanings ----

  datatype Range = Range(low: Option<real>, high: Option<real>)

  datatype Kind =
    | Strings(length: Range)
    | Numbers(range: Range)
    | Integers(range: Range)
    | Booleans
    | Objects(fields: map<string, Shape>, required: set<string>, open: bool)
    | Arrays(size: Range, element: Shape)

  /** A kind of value, perhaps narrowed to a list of choices. */
  datatype Shape = Shape(choices: Option<seq<Json>>, kind: Kind)

  predicate Within(x: real, r: Range) {
    (r.low.Some? ==> r.low.value <= x) && (r.high.Some? ==> x <= r.high.value)
  }

  /** The values of a shape. */
  predicate Admits(shape: Shape, v: Json)
    decreases v, 1
  {
    (shape.choices.Some? ==> Among(v, shape.choices.value)) && AdmitsKind(shape.kind, v)
  }

  predicate AdmitsKind(kind: Kind, v: Json)
    decreases v, 0
  {
    match kind
    case Strings(length) => v.Str? && Within(|v.text| as real, length)
    case Numbers(range) => (v.Int? || v.Float?) && Within(Number(v), range)
    case Integers(range) => v.Int? && Within(Number(v), range)
    case Booleans => v.Bool?
    case Objects(fields, required, open) =>
      && v.Obj? && required <= Names(v) && (open || Names(v) <= fields.Keys)
      && forall i :: 0 <= i < |v.members| && v.members[i].name in fields ==>
           Admits(fields[v.members[i].name], v.members[i].value)
    case Arrays(size, element) =>
      v.Arr? && Within(|v.items| as real, size) && forall i :: 0 <= i < |v.items| ==> Admits(element, v.items[i])
  }

  // ---- which definitions have a meaning ----

  /** The definition has type `t`. */
  predicate Typed(s: Json, t: string) {
    Get(s, "type") == Some(Str(t))
  }

  function Properties(s: Json): seq<Member> {
    match Get(s, "properties") case None => [] case Some(p) => if p.Obj? then p.members else []
  }

  predicate RequiredKnown(s: Json, i: nat)
    requires Get(s, "properties").Some? && Required(s).Some? && i < |Required(s).value|
  {
    Required(s).value[i].Str? && Required(s).value[i].text in Names(Get(s, "properties").value)
  }

  /** The object rules of a definition, apart from its children. */
  predicate ObjectRules(s: Json) {
    && Get(s, "properties").Some? && Get(s, "properties").value.Obj?
    && Get(s, "additionalProperties").Some? && Get(s, "additionalProperties").value.Bool?
    && Required(s).Some?
    && forall i :: 0 <= i < |Required(s).value| ==> RequiredKnown(s, i)
  }

  /** The shape of a definition, all the way down. */
  ghost predicate WellFormed(s: Json) {
    && s.Obj? && Names(s) <= KEYWORDS
    && (exists t :: t in TYPES && Typed(s, t))
    && (Get(s, "enum").Some? ==> Get(s, "enum").value.Arr?)
    && (Typed(s, "object") ==>
          && ObjectRules(s)
          && forall i :: 0 <= i < |Properties(s)| ==> WellFormed(Properties(s)[i].value))
    && (Typed(s, "array") ==> Get(s, "items").Some? && WellFormed(Get(s, "items").value))
  }

  predicate NumericIfAny(s: Json, keyword: string) {
    Get(s, keyword).Some? ==> Numeric(Get(s, keyword).value)
  }

  /** Every bound that applies to the type of its definition is a number, which nothing else checks. */
  ghost predicate BoundsNumeric(s: Json) {
    && (Typed(s, "string") ==> NumericIfAny(s, "minLength") && NumericIfAny(s, "maxLength"))
    && (Typed(s, "number") || Typed(s, "integer") ==> NumericIfAny(s, "minimum") && NumericIfAny(s, "maximum"))
    && (Typed(s, "array") ==>
          && NumericIfAny(s, "minItems") && NumericIfAny(s, "maxItems")
          && (Get(s, "items").Some? ==> BoundsNumeric(Get(s, "items").value)))
    && (Typed(s, "object") ==> forall i :: 0 <= i < |Properties(s)| ==> BoundsNumeric(Properties(s)[i].value))
  }

  ghost predicate Meaningful(s: Json) {
    WellFormed(s) && BoundsNumeric(s)
  }

  function Bound(s: Json, keyword: string): Option<real>
    requires NumericIfAny(s, keyword)
  {
    match Get(s, keyword) case None => None case Some(b) => Some(Number(b))
  }

  function Texts(names: seq<Json>): set<string> {
    set i | 0 <= i < |names| && names[i].Str? :: names[i].text
  }

  lemma PropertyIsMeaningful(s: Json, name: string)
    requires Meaningful(s) && Typed(s, "object") && name in Names(Get(s, "properties").value)
    ensures var child := Get(Get(s, "properties").value, name); child.Some? && child.value < s && Meaningful(child.value)
  {
    var properties := Get(s, "properties").value;
    var k := IndexOf(properties.members, name, 0);
    assert WellFormed(Properties(s)[k].value) && BoundsNumeric(Properties(s)[k].value);
  }

  ghost function Meaning(s: Json): Shape
    requires Meaningful(s)
    decreases s, 2
  {
    var choices := match Get(s, "enum") case None => None case Some(e) => Some(e.items);
    Shape(choices, KindOf(s))
  }

  ghost function KindOf(s: Json): Kind
    requires Meaningful(s)
    decreases s, 1
  {
    if Typed(s, "string") then Strings(Range(Bound(s, "minLength"), Bound(s, "maxLength")))
    else if Typed(s, "number") then Numbers(Range(Bound(s, "minimum"), Bound(s, "maximum")))
    else if Typed(s, "integer") then Integers(Range(Bound(s, "minimum"), Bound(s, "maximum")))
    else if Typed(s, "boolean") then Booleans
    else if Typed(s, "array") then
      Arrays(Range(Bound(s, "minItems"), Bound(s, "maxItems")), Meaning(Get(s, "items").value))
    else
      var properties := Get(s, "properties").value;
      Objects(FieldsOf(s), Texts(Required(s).value), Get(s, "additionalProperties").value.on)
  }

  ghost function FieldsOf(s: Json): (fields: map<string, Shape>)
    requires Meaningful(s) && Typed(s, "object")
    decreases s, 0
  {
    var properties := Get(s, "properties").value;
    map name | name in Names(properties) :: PropertyIsMeaningful(s, name); Meaning(Get(properties, name).value)
  }

  // ---- the checks decide the meaning ----

  /** A definition is accepted exactly when it is well formed. */
  lemma {:induction false} DefinitionAcceptedExactly(s: Json)
    ensures CheckDefinition(s).Pass? <==> WellFormed(s)
    decreases s, 1
  {
    if Typed(s, "object") {
      ObjectAcceptedExactly(s);
    }
    if Typed(s, "array") && Get(s, "items").Some? {
      DefinitionAcceptedExactly(Get(s, "items").value);
    }
  }

  lemma {:induction false} ObjectAcceptedExactly(s: Json)
    ensures CheckObjectDefinition(s).Pass? <==>
              ObjectRules(s) && forall i :: 0 <= i < |Properties(s)| ==> WellFormed(Properties(s)[i].value)
    decreases s, 0
  {
    if Get(s, "properties").Some? && Get(s, "properties").value.Obj? && Required(s).Some? {
      var members := Properties(s);
      forall i | 0 <= i < |members| ensures CheckDefinition(members[i].value).Pass? <==> WellFormed(members[i].value) {
        DefinitionAcceptedExactly(members[i].value);
      }
      var names := Required(s).value;
      var checks := seq(|names|, i requires 0 <= i < |names| => CheckRequiredName(names[i], Get(s, "properties").value));
      assert First(checks).Pass? <==> forall i :: 0 <= i < |names| ==> checks[i].Pass?;
      assert forall i :: 0 <= i < |names| ==> (checks[i].Pass? <==> RequiredKnown(s, i));
    }
  }

  /** One level of an accepted definition, in the terms of the JSON it is. */
  lemma DefinitionExactly(s: Json)
    ensures CheckDefinition(s).Pass? <==>
              && s.Obj?
              && Names(s) <= {"type", "properties", "required", "additionalProperties", "items", "enum", "minimum", "maximum",
                              "minLength", "maxLength", "minItems", "maxItems", "description"}
              && Get(s, "type").Some? && Get(s, "type").value.Str?
              && Get(s, "type").value.text in {"object", "array", "string", "number", "integer", "boolean"}
              && (Get(s, "enum").Some? ==> Get(s, "enum").value.Arr?)
              && (Get(s, "type").value.text == "array" ==> Get(s, "items").Some? && CheckDefinition(Get(s, "items").value).Pass?)
              && (Get(s, "type").value.text == "object" ==> ObjectDefinition(s))
  {
    ObjectDefinitionExactly(s);
    hide CheckObjectDefinition, ObjectDefinition, Get, Names;
  }

  /** Properties, a boolean for others, and a list of required names that are all declared; each property accepted in turn. */
  ghost predicate ObjectDefinition(s: Json) {
    && Get(s, "properties").Some? && Get(s, "properties").value.Obj?
    && Get(s, "additionalProperties").Some? && Get(s, "additionalProperties").value.Bool?
    && (Get(s, "required").Some? ==>
          && Get(s, "required").value.Arr?
          && var names := Get(s, "required").value.items;
             forall i :: 0 <= i < |names| ==> names[i].Str? && names[i].text in Names(Get(s, "properties").value))
    && forall i :: 0 <= i < |Get(s, "properties").value.members| ==>
         CheckDefinition(Get(s, "properties").value.members[i].value).Pass?
  }

  lemma ObjectDefinitionExactly(s: Json)
    ensures CheckObjectDefinition(s).Pass? <==> ObjectDefinition(s)
  {
    hide CheckDefinition, Names;
    if Get(s, "properties").Some? && Get(s, "properties").value.Obj? && Required(s).Some? {
      var names, members := Required(s).value, Get(s, "properties").value.members;
      var checks := seq(|names|, i requires 0 <= i < |names| => CheckRequiredName(names[i], Get(s, "properties").value));
      assert First(checks).Pass? <==> forall i :: 0 <= i < |names| ==> checks[i].Pass?;
      assert forall i :: 0 <= i < |names| ==>
               (checks[i].Pass? <==> names[i].Str? && names[i].text in Names(Get(s, "properties").value));
      var children := ChildChecks(Get(s, "properties").value);
      assert First(children).Pass? <==> forall i :: 0 <= i < |members| ==> children[i].Pass?;
    }
  }

  predicate Clean(o: Outcome) {
    o.Pass? || o.ValueError?
  }

  lemma RangeExactly(x: real, s: Json, low: string, high: string)
    requires NumericIfAny(s, low) && NumericIfAny(s, high)
    ensures var o := Then(CheckLow(x, s, low), CheckHigh(x, s, high));
            Clean(o) && (o.Pass? <==> Within(x, Range(Bound(s, low), Bound(s, high))))
  {
  }

  lemma EnumExactly(v: Json, s: Json)
    requires Meaningful(s)
    ensures Clean(CheckEnum(v, s))
    ensures CheckEnum(v, s).Pass? <==> (Meaning(s).choices.Some? ==> Among(v, Meaning(s).choices.value))
  {
  }

  lemma NamesExactly(v: Json, s: Json)
    requires Meaningful(s) && Typed(s, "object") && v.Obj?
    ensures Clean(CheckNames(v, s))
    ensures var kind := KindOf(s);
            CheckNames(v, s).Pass? <==>
              kind.required <= Names(v) && (kind.open || Names(v) <= kind.fields.Keys)
  {
    var names := Required(s).value;
    forall i | 0 <= i < |names| ensures names[i].Str? {
      assert RequiredKnown(s, i);
    }
    assert Texts(names) <= Names(v) <==> forall i :: 0 <= i < |names| ==> names[i].text in Names(v) by {
      assert forall i :: 0 <= i < |names| ==> names[i].text in Texts(names);
    }
    hide WellFormed, BoundsNumeric, Meaning;
  }

  lemma {:induction false} MembersExactly(v: Json, s: Json)
    requires Meaningful(s) && Typed(s, "object") && v.Obj?
    ensures var o := First(MemberChecks(v, Get(s, "properties").value));
            Clean(o) &&
            (o.Pass? <==> forall i :: 0 <= i < |v.members| && v.members[i].name in FieldsOf(s) ==>
                            Admits(FieldsOf(s)[v.members[i].name], v.members[i].value))
    decreases v, 0
  {
    var properties := Get(s, "properties").value;
    var checks := MemberChecks(v, properties);
    forall i | 0 <= i < |v.members|
      ensures Clean(checks[i])
      ensures checks[i].Pass? <==> (v.members[i].name in FieldsOf(s) ==>
                                      Admits(FieldsOf(s)[v.members[i].name], v.members[i].value))
    {
      var name := v.members[i].name;
      if name in Names(properties) {
        PropertyIsMeaningful(s, name);
        ValueCheckedExactly(v.members[i].value, Get(properties, name).value);
      }
    }
  }

  lemma {:induction false} ItemsExactly(v: Json, s: Json)
    requires Meaningful(s) && Typed(s, "array") && v.Arr?
    ensures var o := First(ItemChecks(v, s));
            Clean(o) && (o.Pass? <==> forall i :: 0 <= i < |v.items| ==> Admits(Meaning(Get(s, "items").value), v.items[i]))
    decreases v, 0
  {
    var checks := ItemChecks(v, s);
    var items := Get(s, "items").value;
    forall i | 0 <= i < |v.items|
      ensures Clean(checks[i]) && (checks[i].Pass? <==> Admits(Meaning(items), v.items[i]))
    {
      ValueCheckedExactly(v.items[i], items);
    }
  }

  /** Past the type check and the choices. */
  lemma {:induction false} KindCheckedExactly(v: Json, s: Json, t: string)
    requires Meaningful(s) && Typed(s, t) && t in TYPES && HasType(v, t)
    ensures Clean(CheckKind(v, s)) && (CheckKind(v, s).Pass? <==> AdmitsKind(KindOf(s), v))
    decreases v, 1
  {
    KindDecided(s);
    match v {
      case Int(_) => RangeExactly(Number(v), s, "minimum", "maximum");
      case Float(_) => RangeExactly(Number(v), s, "minimum", "maximum");
      case Str(text) => RangeExactly(|text| as real, s, "minLength", "maxLength");
      case Obj(_) => NamesExactly(v, s); MembersExactly(v, s);
      case Arr(items) => RangeExactly(|items| as real, s, "minItems", "maxItems"); ItemsExactly(v, s);
      case _ =>
    }
    hide WellFormed, CheckNames, CheckLow, CheckHigh, First, Within, FieldsOf, Names;
  }

  /**
   * Against a meaningful definition the checks end in acceptance or a ValueError, and accept
   * exactly the values that the definition's meaning admits.
   */
  lemma {:induction false} ValueCheckedExactly(v: Json, s: Json)
    requires Meaningful(s)
    ensures Clean(CheckValue(v, s))
    ensures CheckValue(v, s).Pass? <==> Admits(Meaning(s), v)
    decreases v, 2
  {
    EnumExactly(v, s);
    KindDecided(s);
    var t :| t in TYPES && Typed(s, t);
    if HasType(v, t) {
      KindCheckedExactly(v, s, t);
    } else {
      WrongTypeIsNotAdmitted(v, s, t);
    }
    hide WellFormed, BoundsNumeric, CheckEnum, CheckKind, Get, KindOf, AdmitsKind, HasType;
  }

  lemma WrongTypeIsNotAdmitted(v: Json, s: Json, t: string)
    requires Meaningful(s) && Typed(s, t) && t in TYPES && !HasType(v, t)
    ensures !AdmitsKind(KindOf(s), v)
  {
    KindDecided(s);
    hide WellFormed, BoundsNumeric, KindOf;
  }

  /** Each definition has exactly one type, and its meaning is of that kind. */
  lemma KindDecided(s: Json)
    requires Meaningful(s)
    ensures exists t :: t in TYPES && Typed(s, t)
    ensures Typed(s, "string") <==> KindOf(s).Strings?
    ensures Typed(s, "number") <==> KindOf(s).Numbers?
    ensures Typed(s, "integer") <==> KindOf(s).Integers?
    ensures Typed(s, "boolean") <==> KindOf(s).Booleans?
    ensures Typed(s, "array") <==> KindOf(s).Arrays?
    ensures Typed(s, "object") <==> KindOf(s).Objects?
  {
    hide BoundsNumeric, ObjectRules;
  }

  // ---- the whole check, and what escapes it ----

  /**
   * `validate_object` accepts exactly well-formed object definitions with a value they admit.  Past
   * the definition check it never runs into a missing key or a type it does not expect.
   */
  lemma ObjectCheckedExactly(v: Json, s: Json)
    requires BoundsNumeric(s)
    ensures CheckObject(v, s).Pass? <==> WellFormed(s) && Typed(s, "object") && Admits(Meaning(s), v)
    ensures CheckDefinition(s).Pass? ==> Clean(CheckObject(v, s))
  {
    DefinitionAcceptedExactly(s);
    if WellFormed(s) {
      ValueCheckedExactly(v, s);
    }
    hide WellFormed, BoundsNumeric, CheckDefinition, CheckValue, Admits, Meaning;
  }

  /** No `type` and no required name is a list or an object, all the way down. */
  ghost predicate NamesHashable(s: Json) {
    && (Get(s, "type").Some? ==> Hashable(Get(s, "type").value))
    && (Required(s).Some? ==> forall i :: 0 <= i < |Required(s).value| ==> Hashable(Required(s).value[i]))
    && (forall i :: 0 <= i < |Properties(s)| ==> NamesHashable(Properties(s)[i].value))
    && (Get(s, "items").Some? ==> NamesHashable(Get(s, "items").value))
  }

  /** The definition check fails with a ValueError, unless an unhashable name is in the way. */
  lemma {:induction false} DefinitionFailsCleanly(s: Json)
    ensures CheckDefinition(s) in {Pass, ValueError, TypeError}
    ensures NamesHashable(s) ==> Clean(CheckDefinition(s))
  {
    if Get(s, "properties").Some? && Get(s, "properties").value.Obj? {
      var checks := ChildChecks(Get(s, "properties").value);
      forall i | 0 <= i < |checks|
        ensures checks[i] in {Pass, ValueError, TypeError} && (NamesHashable(s) ==> Clean(checks[i]))
      {
        DefinitionFailsCleanly(Properties(s)[i].value);
      }
    }
    if Get(s, "items").Some? {
      DefinitionFailsCleanly(Get(s, "items").value);
    }
  }

  /** A closed object definition with one optional field `n`. */
  function OneField(field: Json): Json {
    Obj([Member("type", Str("object")), Member("properties", Obj([Member("n", field)])),
         Member("additionalProperties", Bool(false))])
  }

  lemma OneFieldParts(field: Json)
    ensures var s := OneField(field);
            && s.Obj? && Typed(s, "object") && Get(s, "properties") == Some(Obj([Member("n", field)]))
            && Get(s, "additionalProperties") == Some(Bool(false)) && Get(s, "required") == None && Get(s, "enum") == None
            && Names(s) <= KEYWORDS && Names(Obj([Member("n", field)])) == {"n"}
            && Get(Obj([Member("n", field)]), "n") == Some(field)
  {
    var s := OneField(field);
    var properties := Obj([Member("n", field)]);
    assert s.members[0].name == "type" && s.members[1].name == "properties" && s.members[2].name == "additionalProperties";
    assert properties.members[0].name == "n";
  }

  /** The definition is accepted, and checking a payload with that one field is checking the field. */
  lemma OneFieldDecides(field: Json, x: Json)
    requires WellFormed(field)
    ensures CheckDefinition(OneField(field)).Pass?
    ensures CheckObject(Obj([Member("n", x)]), OneField(field)) == CheckValue(x, field)
  {
    var s, v := OneField(field), Obj([Member("n", x)]);
    OneFieldParts(field);
    OneFieldParts(x);
    hide Get, Names, OneField;
    assert WellFormed(s);
    DefinitionAcceptedExactly(s);
    var checks := MemberChecks(v, Get(s, "properties").value);
    assert checks[0] == CheckValue(x, field);
    hide WellFormed, CheckDefinition;
    FirstOfOne(checks);
    assert CheckNames(v, s).Pass?;
    assert CheckKind(v, s) == CheckValue(x, field);
    assert CheckValue(v, s) == CheckKind(v, s);
  }

  lemma FirstOfOne(outcomes: seq<Outcome>)
    requires |outcomes| == 1
    ensures First(outcomes) == outcomes[0]
  {
  }

  /** An integer field with a textual lower bound. */
  const TEXTUAL_BOUND := Obj([Member("type", Str("integer")), Member("minimum", Str("0"))])

  lemma TextualBoundRaises(i: int)
    ensures WellFormed(TEXTUAL_BOUND) && CheckValue(Int(i), TEXTUAL_BOUND) == TypeError
  {
    assert TEXTUAL_BOUND.members[0].name == "type" && TEXTUAL_BOUND.members[1].name == "minimum";
    assert Typed(TEXTUAL_BOUND, "integer");
  }

  /** An accepted operation input with a textual bound: every integer sent in that field raises a TypeError. */
  lemma TextualBoundEscapes(i: int)
    ensures CheckDefinition(OneField(TEXTUAL_BOUND)).Pass?
    ensures CheckObject(Obj([Member("n", Int(i))]), OneField(TEXTUAL_BOUND)) == TypeError
  {
    TextualBoundRaises(i);
    OneFieldDecides(TEXTUAL_BOUND, Int(i));
    hide CheckObject, CheckDefinition, CheckValue, WellFormed, OneField;
  }
}
