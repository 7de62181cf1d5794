/** The subset of JSON Schema the adapter runtime enforces, and what a definition in it means. */
module SchemaSubset {
  import opened Optional

  // ---- JSON values ----

  /** A member of an object; objects keep their order and, being dictionaries, never repeat a name. */
  datatype Member = Member(name: string, value: Json)

  datatype Json =
    | Null
    | Bool(on: bool)
    | Int(i: int)
    | Float(x: real)
    | Str(text: string)
    | Arr(items: seq<Json>)
    | Obj(members: seq<Member>)

  function IndexOf(members: seq<Member>, name: string, from: nat): (k: nat)
    requires from <= |members|
    ensures from <= k <= |members|
    ensures k < |members| ==> members[k].name == name
    ensures forall i :: from <= i < k ==> members[i].name != name
    decreases |members| - from
  {
    if from == |members| || members[from].name == name then from else IndexOf(members, name, from + 1)
  }

  /** `value.get(name)`. */
  function Get(j: Json, name: string): (r: Option<Json>)
    ensures r.Some? ==> r.value < j
    ensures r.Some? <==> j.Obj? && name in Names(j)
  {
    if !j.Obj? then None
    else
      var k := IndexOf(j.members, name, 0);
      if k < |j.members| then Some(j.members[k].value) else None
  }

  function Names(j: Json): set<string> {
    if j.Obj? then set i | 0 <= i < |j.members| :: j.members[i].name else {}
  }

  /** Booleans are integers. */
  predicate Numeric(j: Json) {
    j.Bool? || j.Int? || j.Float?
  }

  function Number(j: Json): real
    requires Numeric(j)
  {
    match j
    case Bool(on) => if on then 1.0 else 0.0
    case Int(i) => i as real
    case Float(x) => x
  }

  /** `==`: numbers by value, lists item by item, objects name by name in any order. */
  predicate Same(a: Json, b: Json) {
    match a
    case Null => b.Null?
    case Str(text) => b.Str? && b.text == text
    case Arr(items) => b.Arr? && |b.items| == |items| && forall i :: 0 <= i < |items| ==> Same(items[i], b.items[i])
    case Obj(members) =>
      && b.Obj? && |b.members| == |members|
      && forall i :: 0 <= i < |members| ==>
           Get(b, members[i].name).Some? && Same(members[i].value, Get(b, members[i].name).value)
    case Bool(_) => Numeric(b) && Number(a) == Number(b)
    case Int(_) => Numeric(b) && Number(a) == Number(b)
    case Float(_) => Numeric(b) && Number(a) == Number(b)
  }

  predicate Among(v: Json, choices: seq<Json>) {
    exists i :: 0 <= i < |choices| && Same(v, choices[i])
  }

  // ---- the checks, as they raise ----

  /** `Malformed` is what a definition of the wrong shape can lead to, whichever exception that is. */
  datatype Outcome = Pass | ValueError | TypeError | KeyError | Malformed

  const KEYWORDS: set<string> :=
    {"type", "properties", "required", "additionalProperties", "items", "enum", "minimum", "maximum",
     "minLength", "maxLength", "minItems", "maxItems", "description"}

  const TYPES: set<string> := {"object", "array", "string", "number", "integer", "boolean"}

  function Then(a: Outcome, b: Outcome): Outcome {
    if a.Pass? then b else a
  }

  /** The first failure of a loop. */
  function First(outcomes: seq<Outcome>): (r: Outcome)
    ensures r.Pass? <==> forall i :: 0 <= i < |outcomes| ==> outcomes[i].Pass?
    ensures !r.Pass? ==> exists i :: 0 <= i < |outcomes| && outcomes[i] == r
  {
    if outcomes == [] then Pass
    else if !outcomes[0].Pass? then outcomes[0]
    else
      assert forall i :: 0 < i < |outcomes| ==> outcomes[i] == outcomes[1..][i - 1];
      First(outcomes[1..])
  }

  /** Lists and objects cannot be looked up in a set or a dictionary. */
  predicate Hashable(j: Json) {
    !j.Arr? && !j.Obj?
  }

  function CheckRequiredName(name: Json, properties: Json): Outcome {
    if !Hashable(name) then TypeError
    else if name.Str? && name.text in Names(properties) then Pass
    else ValueError
  }

  /** The list `schema.get("required", [])`, or nothing if it is no list. */
  function Required(s: Json): Option<seq<Json>> {
    match Get(s, "required")
    case None => Some([])
    case Some(r) => if r.Arr? then Some(r.items) else None
  }

  /** `validate_schema_definition`. */
  function CheckDefinition(s: Json): Outcome {
    if !s.Obj? then ValueError
    else if !(Names(s) <= KEYWORDS) then ValueError
    else match Get(s, "type")
      case None => ValueError
      case Some(t) =>
        if !Hashable(t) then TypeError
        else if !t.Str? || t.text !in TYPES then ValueError
        else if Get(s, "enum").Some? && !Get(s, "enum").value.Arr? then ValueError
        else if t.text == "object" then CheckObjectDefinition(s)
        else if t.text == "array" then
          if Get(s, "items").None? then ValueError else CheckDefinition(Get(s, "items").value)
        else Pass
  }

  function CheckObjectDefinition(s: Json): Outcome
    decreases s, 0
  {
    var properties := Get(s, "properties");
    var extra := Get(s, "additionalProperties");
    if properties.None? || !properties.value.Obj? then ValueError
    else if extra.None? || !extra.value.Bool? then ValueError
    else if Required(s).None? then ValueError
    else
      var names := Required(s).value;
      Then(First(seq(|names|, i requires 0 <= i < |names| => CheckRequiredName(names[i], properties.value))),
           First(ChildChecks(properties.value)))
  }

  function ChildChecks(properties: Json): (r: seq<Outcome>)
    requires properties.Obj?
    ensures |r| == |properties.members|
    ensures forall i :: 0 <= i < |r| ==> r[i] == CheckDefinition(properties.members[i].value)
  {
    seq(|properties.members|, i requires 0 <= i < |properties.members| => CheckDefinition(properties.members[i].value))
  }

  predicate HasType(v: Json, t: string) {
    || (t == "string" && v.Str?)
    || (t == "number" && (v.Int? || v.Float?))
    || (t == "integer" && v.Int?)
    || (t == "boolean" && v.Bool?)
    || (t == "object" && v.Obj?)
    || (t == "array" && v.Arr?)
  }

  function CheckEnum(v: Json, s: Json): Outcome {
    match Get(s, "enum")
    case None => Pass
    case Some(e) => if !e.Arr? then Malformed else if Among(v, e.items) then Pass else ValueError
  }

  function CheckLow(x: real, s: Json, keyword: string): Outcome {
    match Get(s, keyword)
    case None => Pass
    case Some(bound) => if !Numeric(bound) then TypeError else if x < Number(bound) then ValueError else Pass
  }

  function CheckHigh(x: real, s: Json, keyword: string): Outcome {
    match Get(s, keyword)
    case None => Pass
    case Some(bound) => if !Numeric(bound) then TypeError else if x > Number(bound) then ValueError else Pass
  }

  function CheckNames(v: Json, s: Json): Outcome {
    var properties := Get(s, "properties");
    if properties.None? then KeyError
    else if Required(s).None? || !properties.value.Obj? then Malformed
    else
      var names := Required(s).value;
      if exists i :: 0 <= i < |names| && !Hashable(names[i]) then TypeError
      else if exists i :: 0 <= i < |names| && !(names[i].Str? && names[i].text in Names(v)) then ValueError
      else if Names(v) <= Names(properties.value) then Pass
      else match Get(s, "additionalProperties")
        case None => KeyError
        case Some(extra) => if extra == Bool(false) then ValueError else Pass
  }

  /** `validate_schema_value`. */
  function CheckValue(v: Json, s: Json): Outcome
    decreases v, 2
  {
    match Get(s, "type")
    case None => if s.Obj? then KeyError else Malformed
    case Some(t) =>
      if !Hashable(t) then TypeError
      else if !t.Str? || t.text !in TYPES then KeyError
      else if !HasType(v, t.text) then ValueError
      else Then(CheckEnum(v, s), CheckKind(v, s))
  }

  /** The checks of a value that has the type asked for. */
  function CheckKind(v: Json, s: Json): Outcome
    decreases v, 1
  {
    match v
    case Int(_) => Then(CheckLow(Number(v), s, "minimum"), CheckHigh(Number(v), s, "maximum"))
    case Float(_) => Then(CheckLow(Number(v), s, "minimum"), CheckHigh(Number(v), s, "maximum"))
    case Str(text) => Then(CheckLow(|text| as real, s, "minLength"), CheckHigh(|text| as real, s, "maxLength"))
    case Obj(members) =>
      Then(CheckNames(v, s),
           if Get(s, "properties").None? then KeyError else First(MemberChecks(v, Get(s, "properties").value)))
    case Arr(items) =>
      Then(Then(CheckLow(|items| as real, s, "minItems"), CheckHigh(|items| as real, s, "maxItems")),
           First(ItemChecks(v, s)))
    case _ => Pass
  }

  function ItemChecks(v: Json, s: Json): (r: seq<Outcome>)
    requires v.Arr?
    ensures |r| == |v.items|
    ensures forall i :: 0 <= i < |r| ==>
      r[i] == if Get(s, "items").None? then KeyError else CheckValue(v.items[i], Get(s, "items").value)
    decreases v, 0
  {
    seq(|v.items|, i requires 0 <= i < |v.items| =>
      if Get(s, "items").None? then KeyError else CheckValue(v.items[i], Get(s, "items").value))
  }

  /** Members that are not declared are passed over. */
  function MemberChecks(v: Json, properties: Json): (r: seq<Outcome>)
    requires v.Obj?
    ensures |r| == |v.members|
    ensures forall i :: 0 <= i < |r| ==>
      var child := Get(properties, v.members[i].name);
      r[i] == if child.None? then Pass else CheckValue(v.members[i].value, child.value)
    decreases v, 0
  {
    seq(|v.members|, i requires 0 <= i < |v.members| =>
      var child := Get(properties, v.members[i].name);
      if child.None? then Pass else CheckValue(v.members[i].value, child.value))
  }

  /** `validate_object`. */
  function CheckObject(v: Json, s: Json): Outcome {
    Then(CheckDefinition(s),
      if Get(s, "type") != Some(Str("object")) then ValueError else CheckValue(v, s))
  }
}
