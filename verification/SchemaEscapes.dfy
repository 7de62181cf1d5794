/** Which accepted definitions can make the value check fail with something other than a ValueError. */
module SchemaEscapes {
  import opened Optional
  import opened SchemaSubset
  import opened SchemaMeaning
  import opened SchemaChoices

  // ---- the condition ----

  predicate LongEnough(s: Json, n: nat)
    requires NumericIfAny(s, "minItems")
  {
    Bound(s, "minItems").Some? ==> Bound(s, "minItems").value <= n as real
  }

  /** The least number of items, at least one, that is not below `minItems`. */
  function LeastLength(s: Json): (n: nat)
    requires NumericIfAny(s, "minItems")
    ensures n >= 1 && LongEnough(s, n)
    ensures forall k: nat :: k >= 1 && LongEnough(s, k) ==> n <= k
  {
    match Bound(s, "minItems")
    case None => 1
    case Some(low) => if low <= 1.0 then 1 else -((-low).Floor)
  }

  /** Some list with an item passes the size bounds. */
  predicate ItemsReached(s: Json) {
    && NumericIfAny(s, "minItems") && NumericIfAny(s, "maxItems")
    && (Bound(s, "maxItems").Some? ==> LeastLength(s) as real <= Bound(s, "maxItems").value)
  }

  /**
   * Every bound that a value can get as far as is a number, all the way down: bounds of items matter
   * only if a list with items passes the size bounds, and choices leave only themselves to be checked.
   */
  predicate Harmless(s: Json) {
    if Get(s, "enum").Some? then forall i :: 0 <= i < |Choices(s)| ==> !CanTrip(Choices(s)[i], s)
    else
      && (Typed(s, "string") ==> NumericIfAny(s, "minLength") && NumericIfAny(s, "maxLength"))
      && (Typed(s, "number") || Typed(s, "integer") ==> NumericIfAny(s, "minimum") && NumericIfAny(s, "maximum"))
      && (Typed(s, "array") ==>
            && NumericIfAny(s, "minItems") && NumericIfAny(s, "maxItems")
            && (Get(s, "items").Some? && ItemsReached(s) ==> Harmless(Get(s, "items").value)))
      && (Typed(s, "object") && Get(s, "properties").Some? ==>
            forall name :: name in Names(Get(s, "properties").value) ==> Harmless(Get(Get(s, "properties").value, name).value))
  }

  /** A definition is a dictionary itself, and so are its parts. */
  lemma ProperParts(s: Json)
    requires Proper(s) && WellFormed(s)
    ensures forall i :: 0 <= i < |Choices(s)| ==> Proper(Choices(s)[i])
    ensures Typed(s, "array") ==> Proper(Get(s, "items").value)
    ensures Typed(s, "object") ==>
              forall name :: name in Names(Get(s, "properties").value) ==> Proper(Get(Get(s, "properties").value, name).value)
  {
    if Get(s, "enum").Some? {
      ProperMember(s, "enum");
    }
    if Typed(s, "array") {
      ProperMember(s, "items");
    }
    if Typed(s, "object") {
      ProperMember(s, "properties");
      forall name | name in Names(Get(s, "properties").value) ensures Proper(Get(Get(s, "properties").value, name).value) {
        ProperMember(Get(s, "properties").value, name);
      }
    }
    hide WellFormed;
  }

  lemma PropertyIsWellFormed(s: Json, name: string)
    requires WellFormed(s) && Typed(s, "object") && name in Names(Get(s, "properties").value)
    ensures var child := Get(Get(s, "properties").value, name); child.Some? && child.value < s && WellFormed(child.value)
  {
    var properties := Get(s, "properties").value;
    var k := IndexOf(properties.members, name, 0);
    assert WellFormed(Properties(s)[k].value);
  }

  // ---- bounds ----

  lemma LengthsReached(s: Json, n: nat)
    requires NumericIfAny(s, "minItems") && NumericIfAny(s, "maxItems")
    ensures var o := Then(CheckLow(n as real, s, "minItems"), CheckHigh(n as real, s, "maxItems"));
            && Clean(o) && (n >= 1 && o.Pass? ==> ItemsReached(s))
            && (n == LeastLength(s) && ItemsReached(s) ==> o.Pass?)
  {
    TripsExactly(n as real, s, "minItems", "maxItems");
    if n >= 1 && LongEnough(s, n) {
      assert LeastLength(s) <= n;
    }
  }

  // ---- harmless definitions check cleanly ----

  lemma ScalarIsClean(v: Json, s: Json, t: string)
    requires WellFormed(s) && Typed(s, t) && t in {"string", "number", "integer", "boolean"} && Harmless(s)
    requires Get(s, "enum").None?
    ensures Clean(CheckValue(v, s))
  {
    TypedCheck(v, s, t);
    EnumIsClean(v, s);
    if HasType(v, t) {
      ScalarKind(v, s, t);
      TripsExactly(Measure(v), s, LowOf(t), HighOf(t));
    }
    hide WellFormed, CheckValue, CheckEnum, CheckKind, CheckLow, CheckHigh;
  }

  /** With choices given, a value of any other kind is refused, and none of them trips. */
  lemma ChoicesAreClean(v: Json, s: Json)
    requires WellFormed(s) && Proper(s) && Harmless(s) && Get(s, "enum").Some? && Proper(v)
    ensures Clean(CheckValue(v, s))
  {
    TypeIsDecided(s);
    TypedCheck(v, s, TypeOf(s));
    EnumIsClean(v, s);
    hide WellFormed, CheckValue, CheckEnum, CanTrip, Proper;
    if !Clean(CheckValue(v, s)) {
      var i :| 0 <= i < |Choices(s)| && Same(v, Choices(s)[i]);
      ProperParts(s);
      Spellings(v, Choices(s)[i], s);
    }
  }

  lemma {:induction false} ItemsAreClean(v: Json, s: Json)
    requires WellFormed(s) && Proper(s) && Typed(s, "array") && Harmless(s) && Get(s, "enum").None? && Proper(v) && v.Arr?
    ensures Clean(CheckKind(v, s))
    decreases v, 0
  {
    LengthsReached(s, |v.items|);
    ProperParts(s);
    var checks := ItemChecks(v, s);
    if ItemsReached(s) {
      forall i | 0 <= i < |checks| ensures Clean(checks[i]) {
        HarmlessIsClean(v.items[i], Get(s, "items").value);
      }
    }
    hide CheckLow, CheckHigh, ItemsReached;
  }

  lemma {:induction false} MembersAreClean(v: Json, s: Json)
    requires WellFormed(s) && Proper(s) && Typed(s, "object") && Harmless(s) && Get(s, "enum").None? && Proper(v) && v.Obj?
    ensures Clean(CheckKind(v, s))
    decreases v, 0
  {
    var properties := Get(s, "properties").value;
    var checks := MemberChecks(v, properties);
    ProperParts(s);
    forall i | 0 <= i < |checks| ensures Clean(checks[i]) {
      var name := v.members[i].name;
      if name in Names(properties) {
        PropertyIsWellFormed(s, name);
        HarmlessIsClean(v.members[i].value, Get(properties, name).value);
      }
    }
    NamesAreClean(v, s);
    hide CheckNames, Harmless, WellFormed;
  }

  lemma {:induction false} HarmlessIsClean(v: Json, s: Json)
    requires WellFormed(s) && Proper(s) && Harmless(s) && Proper(v)
    ensures Clean(CheckValue(v, s))
    decreases v, 1
  {
    TypeIsDecided(s);
    var t := TypeOf(s);
    if Get(s, "enum").Some? {
      ChoicesAreClean(v, s);
    } else if t != "array" && t != "object" {
      ScalarIsClean(v, s, t);
    } else {
      TypedCheck(v, s, t);
      EnumIsClean(v, s);
      if HasType(v, t) {
        if t == "array" {
          ItemsAreClean(v, s);
        } else {
          MembersAreClean(v, s);
        }
      }
    }
    hide WellFormed, CheckValue, CheckEnum, CheckKind, Proper;
  }

  // ---- for any other there is a value that trips ----

  lemma ScalarOffends(s: Json, t: string) returns (v: Json)
    requires WellFormed(s) && Typed(s, t) && t in {"string", "number", "integer", "boolean"} && !Harmless(s)
    requires Get(s, "enum").None?
    ensures Proper(v) && HasType(v, t) && CheckValue(v, s).TypeError?
  {
    var low := Get(s, LowOf(t));
    var n := if low.Some? && Numeric(low.value) && Number(low.value) >= 0.0 then Number(low.value).Floor + 1 else 1;
    v := if t == "string" then Str(seq(n, _ => 'x')) else Int(n);
    TypedCheck(v, s, t);
    EnumIsClean(v, s);
    ScalarKind(v, s, t);
    TripsExactly(Measure(v), s, LowOf(t), HighOf(t));
    hide WellFormed, CheckValue, CheckEnum, CheckLow, CheckHigh, CheckKind;
  }

  lemma FirstIsFirst(outcomes: seq<Outcome>)
    requires outcomes != [] && !outcomes[0].Pass?
    ensures First(outcomes) == outcomes[0]
  {
  }

  /** A list of the least admitted length of offending items. */
  lemma ListOffends(s: Json, item: Json) returns (v: Json)
    requires WellFormed(s) && Typed(s, "array") && Get(s, "enum").None? && Proper(item)
    requires NumericIfAny(s, "minItems") && NumericIfAny(s, "maxItems") ==>
               ItemsReached(s) && !Clean(CheckValue(item, Get(s, "items").value))
    ensures Proper(v) && v.Arr? && !Clean(CheckValue(v, s))
  {
    var n := if NumericIfAny(s, "minItems") then LeastLength(s) else 0;
    v := Arr(seq(n, _ => item));
    TypedCheck(v, s, "array");
    EnumIsClean(v, s);
    TripsExactly(n as real, s, "minItems", "maxItems");
    if NumericIfAny(s, "minItems") && NumericIfAny(s, "maxItems") {
      LengthsReached(s, n);
      FirstIsFirst(ItemChecks(v, s));
    }
    hide WellFormed, CheckValue, CheckEnum, CheckLow, CheckHigh, ItemsReached, First;
  }

  lemma NamesJoin(member: Member, rest: seq<Member>)
    ensures Names(Obj([member] + rest)) == {member.name} + Names(Obj(rest))
  {
    var all := [member] + rest;
    assert forall i :: 0 <= i < |rest| ==> all[i + 1] == rest[i];
    forall name | name in {member.name} + Names(Obj(rest)) ensures name in Names(Obj(all)) {
      if name == member.name {
        assert all[0].name == name;
      } else {
        var i :| 0 <= i < |rest| && rest[i].name == name;
        assert all[i + 1].name == name;
      }
    }
  }

  lemma ProperJoin(member: Member, rest: seq<Member>)
    requires Proper(member.value) && Proper(Obj(rest)) && member.name !in Names(Obj(rest))
    ensures Proper(Obj([member] + rest))
  {
    var all := [member] + rest;
    var v := Obj(all);
    assert forall i :: 0 <= i < |rest| ==> rest[i].name in Names(Obj(rest));
    assert Proper(Obj(rest)) && Obj(rest).members == rest;
    hide Names;
    forall i, j | 0 <= i < j < |v.members| ensures v.members[i].name != v.members[j].name {
      assert all[j] == rest[j - 1] && (i > 0 ==> all[i] == rest[i - 1]);
    }
    forall i | 0 <= i < |v.members| ensures Proper(v.members[i].value) {
      assert i > 0 ==> all[i] == rest[i - 1];
    }
  }

  lemma {:induction false} NullMembers(names: set<string>) returns (members: seq<Member>)
    ensures Proper(Obj(members)) && Names(Obj(members)) == names
  {
    assert Proper(Obj([])) && Proper(Null) && Names(Obj([])) == {};
    hide Proper, Names;
    members := [];
    if names != {} {
      var name :| name in names;
      var rest := NullMembers(names - {name});
      members := [Member(name, Null)] + rest;
      NamesJoin(Member(name, Null), rest);
      ProperJoin(Member(name, Null), rest);
    }
  }

  /** An object with the offending member first, and null for the other required names. */
  lemma ObjectOffends(s: Json, name: string, x: Json) returns (v: Json)
    requires WellFormed(s) && Typed(s, "object") && Get(s, "enum").None? && Proper(x)
    requires name in Names(Get(s, "properties").value) && !Clean(CheckValue(x, Get(Get(s, "properties").value, name).value))
    ensures Proper(v) && v.Obj? && !Clean(CheckValue(v, s))
  {
    var properties := Get(s, "properties").value;
    RequiredAreDeclared(s);
    var rest := NullMembers(Texts(Required(s).value) - {name});
    v := Obj([Member(name, x)] + rest);
    NamesJoin(Member(name, x), rest);
    ProperJoin(Member(name, x), rest);
    hide WellFormed, Proper, Texts, Names;
    NamesAreClean(v, s);
    TypedCheck(v, s, "object");
    EnumIsClean(v, s);
    hide CheckEnum, CheckNames, CheckValue;
    var checks := MemberChecks(v, properties);
    assert checks[0] == CheckValue(x, Get(properties, name).value);
    FirstIsFirst(checks);
    hide First;
  }

  lemma RequiredAreDeclared(s: Json)
    requires WellFormed(s) && Typed(s, "object")
    ensures Texts(Required(s).value) <= Names(Get(s, "properties").value)
  {
    var names := Required(s).value;
    forall i | 0 <= i < |names| && names[i].Str? ensures names[i].text in Names(Get(s, "properties").value) {
      assert RequiredKnown(s, i);
    }
  }

  lemma ChoiceOffends(s: Json) returns (v: Json)
    requires WellFormed(s) && Proper(s) && Get(s, "enum").Some? && !Harmless(s)
    ensures Proper(v) && !Clean(CheckValue(v, s))
  {
    var i :| 0 <= i < |Choices(s)| && CanTrip(Choices(s)[i], s);
    ProperParts(s);
    v := Tripping(Choices(s)[i], s);
    hide CheckValue, WellFormed, CanTrip;
  }

  /** A value on which the check of a definition that is not harmless fails with no ValueError. */
  lemma {:induction false} Offends(s: Json) returns (v: Json)
    requires WellFormed(s) && Proper(s) && !Harmless(s)
    ensures Proper(v) && !Clean(CheckValue(v, s))
    ensures Typed(s, "object") ==> v.Obj?
  {
    TypeIsDecided(s);
    ProperParts(s);
    var t := TypeOf(s);
    if Get(s, "enum").Some? {
      v := ChoiceOffends(s);
    } else if t == "array" {
      var item := Null;
      if NumericIfAny(s, "minItems") && NumericIfAny(s, "maxItems") {
        item := Offends(Get(s, "items").value);
      }
      v := ListOffends(s, item);
    } else if t == "object" {
      var properties := Get(s, "properties").value;
      var name :| name in Names(properties) && !Harmless(Get(properties, name).value);
      PropertyIsWellFormed(s, name);
      var x := Offends(Get(properties, name).value);
      v := ObjectOffends(s, name, x);
    } else {
      v := ScalarOffends(s, t);
    }
    TypedCheck(v, s, t);
    hide CheckValue, WellFormed, Proper, Choices;
  }

  lemma TextualBoundIsProper()
    ensures Proper(OneField(TEXTUAL_BOUND))
  {
    var s := OneField(TEXTUAL_BOUND);
    assert s.members[0].name == "type" && s.members[1].name == "properties" && s.members[2].name == "additionalProperties";
    assert TEXTUAL_BOUND.members[0].name == "type" && TEXTUAL_BOUND.members[1].name == "minimum";
    assert Proper(TEXTUAL_BOUND);
    assert Proper(s.members[1].value);
  }

  // ---- exactly ----

  /**
   * The definition check does not look at bounds.  For an accepted definition this is exactly what
   * can go wrong: every value is accepted or refused with a ValueError if and only if it is harmless.
   */
  lemma HarmlessExactly(s: Json)
    requires WellFormed(s) && Proper(s)
    ensures CheckDefinition(s).Pass?
    ensures Harmless(s) <==> forall v :: Proper(v) ==> Clean(CheckValue(v, s))
    ensures BoundsNumeric(s) ==> Harmless(s)
  {
    DefinitionAcceptedExactly(s);
    hide WellFormed, CheckDefinition, CheckValue, Harmless, Proper, BoundsNumeric;
    if Harmless(s) {
      forall v | Proper(v) ensures Clean(CheckValue(v, s)) {
        HarmlessIsClean(v, s);
      }
    } else {
      var v := Offends(s);
      if BoundsNumeric(s) {
        ValueCheckedExactly(v, s);
      }
    }
  }

  /** No payload or result makes the whole check of this definition fail with anything but a ValueError. */
  ghost predicate Sound(s: Json) {
    forall v :: Proper(v) && v.Obj? ==> Clean(CheckObject(v, s))
  }

  lemma ObjectCheckParts(v: Json, s: Json)
    ensures CheckObject(v, s)
            == if !WellFormed(s) then CheckDefinition(s) else if Typed(s, "object") then CheckValue(v, s) else ValueError
    ensures CheckDefinition(s) in {Pass, ValueError, TypeError} && (WellFormed(s) <==> CheckDefinition(s).Pass?)
  {
    DefinitionFailsCleanly(s);
    DefinitionAcceptedExactly(s);
    hide WellFormed, CheckDefinition, CheckValue;
  }

  /** A result on which the whole check escapes, if there can be one. */
  lemma ObjectOffender(s: Json) returns (v: Json)
    requires Proper(s)
    requires CheckDefinition(s).TypeError? || (WellFormed(s) && Typed(s, "object") && !Harmless(s))
    ensures Proper(v) && v.Obj? && !Clean(CheckObject(v, s))
  {
    v := Obj([]);
    assert Proper(v);
    hide WellFormed, CheckDefinition, CheckValue, Harmless, Proper, CheckObject;
    ObjectCheckParts(v, s);
    if WellFormed(s) {
      v := Offends(s);
      ObjectCheckParts(v, s);
    }
  }

  /**
   * For `validate_object`: every object is accepted or refused with a ValueError if and only if the
   * definition check does not raise a TypeError and an accepted object definition is harmless.
   */
  lemma ObjectEscapesExactly(s: Json)
    requires Proper(s)
    ensures Sound(s) <==> !CheckDefinition(s).TypeError? && (WellFormed(s) && Typed(s, "object") ==> Harmless(s))
  {
    hide WellFormed, CheckDefinition, CheckValue, Harmless, Proper, CheckObject;
    if CheckDefinition(s).TypeError? || (WellFormed(s) && Typed(s, "object") && !Harmless(s)) {
      var v := ObjectOffender(s);
    } else {
      forall v | Proper(v) && v.Obj? ensures Clean(CheckObject(v, s)) {
        ObjectCheckParts(v, s);
        if WellFormed(s) && Typed(s, "object") {
          HarmlessIsClean(v, s);
        }
      }
    }
  }
}
