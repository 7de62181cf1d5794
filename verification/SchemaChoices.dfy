/**
 * Definitions that list their choices: `==` lets a value differ from its choice in the way numbers
 * are written and in the order of members.  What the check can make of any of these spellings.
 */
module SchemaChoices {
  import opened Optional
  import opened SchemaSubset
  import opened SchemaMeaning

  /** As a dictionary is: no object repeats a name. */
  ghost predicate Proper(v: Json) {
    match v
    case Arr(items) => forall i :: 0 <= i < |items| ==> Proper(items[i])
    case Obj(members) =>
      && (forall i, j :: 0 <= i < j < |members| ==> members[i].name != members[j].name)
      && forall i :: 0 <= i < |members| ==> Proper(members[i].value)
    case _ => true
  }

  // ---- equality ----

  lemma OwnMember(c: Json, i: nat)
    requires Proper(c) && c.Obj? && i < |c.members|
    ensures Get(c, c.members[i].name) == Some(c.members[i].value)
  {
    var k := IndexOf(c.members, c.members[i].name, 0);
  }

  lemma {:induction false} SameIsReflexive(c: Json)
    requires Proper(c)
    ensures Same(c, c)
  {
    match c {
      case Arr(items) =>
        forall i | 0 <= i < |items| ensures Same(items[i], items[i]) {
          SameIsReflexive(items[i]);
        }
      case Obj(members) =>
        forall i | 0 <= i < |members|
          ensures Get(c, members[i].name).Some? && Same(members[i].value, Get(c, members[i].name).value)
        {
          OwnMember(c, i);
          SameIsReflexive(members[i].value);
        }
      case _ =>
    }
  }

  lemma {:induction false} SameIsTransitive(a: Json, b: Json, c: Json)
    requires Same(a, b) && Same(b, c)
    ensures Same(a, c)
  {
    match a {
      case Arr(items) =>
        forall i | 0 <= i < |items| ensures Same(items[i], c.items[i]) {
          SameIsTransitive(items[i], b.items[i], c.items[i]);
        }
      case Obj(members) =>
        forall i | 0 <= i < |members|
          ensures Get(c, members[i].name).Some? && Same(members[i].value, Get(c, members[i].name).value)
        {
          var k := IndexOf(b.members, members[i].name, 0);
          assert b.members[k].name == members[i].name;
          SameIsTransitive(members[i].value, b.members[k].value, Get(c, members[i].name).value);
        }
      case _ =>
    }
  }

  lemma {:induction false} NamesAreAsMany(members: seq<Member>)
    requires forall i, j :: 0 <= i < j < |members| ==> members[i].name != members[j].name
    ensures |Names(Obj(members))| == |members|
  {
    if members == [] {
      assert Names(Obj(members)) == {};
    } else {
      var init, last := members[..|members| - 1], members[|members| - 1];
      NamesAreAsMany(init);
      forall name ensures name in Names(Obj(members)) <==> name in Names(Obj(init)) + {last.name} {
        if name in Names(Obj(init)) {
          var i :| 0 <= i < |init| && init[i].name == name;
          assert members[i].name == name;
        }
        assert members[|members| - 1].name == last.name;
      }
      assert Names(Obj(members)) == Names(Obj(init)) + {last.name};
      assert last.name !in Names(Obj(init));
    }
  }

  lemma SubsetOfSameSize(a: set<string>, b: set<string>)
    requires a <= b && |a| == |b|
    ensures a == b
  {
    assert |b - a| == |b| - |a|;
  }

  lemma SameNames(v: Json, c: Json)
    requires Proper(v) && Proper(c) && Same(v, c) && v.Obj?
    ensures c.Obj? && Names(v) == Names(c)
  {
    NamesAreAsMany(v.members);
    NamesAreAsMany(c.members);
    SubsetOfSameSize(Names(v), Names(c));
  }

  lemma {:induction false} SameIsSymmetric(v: Json, c: Json)
    requires Proper(v) && Proper(c) && Same(v, c)
    ensures Same(c, v)
  {
    match v {
      case Arr(items) =>
        forall i | 0 <= i < |items| ensures Same(c.items[i], items[i]) {
          SameIsSymmetric(items[i], c.items[i]);
        }
      case Obj(members) =>
        SameNames(v, c);
        forall i | 0 <= i < |c.members|
          ensures Get(v, c.members[i].name).Some? && Same(c.members[i].value, Get(v, c.members[i].name).value)
        {
          assert c.members[i].name in Names(v);
          var k := IndexOf(members, c.members[i].name, 0);
          OwnMember(c, i);
          SameIsSymmetric(members[k].value, c.members[i].value);
        }
      case _ =>
    }
  }

  // ---- what a spelling of a choice can come to ----

  /** Comparing `x` with the bounds raises a TypeError: a bound it gets to is no number. */
  predicate Trips(x: real, s: Json, low: string, high: string) {
    if !NumericIfAny(s, low) then true
    else !NumericIfAny(s, high) && (Get(s, low).Some? ==> Number(Get(s, low).value) <= x)
  }

  predicate Integral(x: real) {
    x == x.Floor as real
  }

  function Choices(s: Json): seq<Json> {
    match Get(s, "enum") case None => [] case Some(e) => if e.Arr? then e.items else []
  }

  predicate Listed(c: Json, s: Json) {
    Get(s, "enum").Some? ==> Among(c, Choices(s))
  }

  function TypeOf(s: Json): string {
    match Get(s, "type") case None => "" case Some(t) => if t.Str? then t.text else ""
  }

  /** Some value that equals `c` has type `t`. */
  predicate Spellable(c: Json, t: string) {
    || (t == "string" && c.Str?)
    || (t == "number" && Numeric(c))
    || (t == "integer" && Numeric(c) && Integral(Number(c)))
    || (t == "boolean" && Numeric(c) && (Number(c) == 0.0 || Number(c) == 1.0))
    || (t == "object" && c.Obj?)
    || (t == "array" && c.Arr?)
  }

  /** What the bounds of a type look at. */
  function Measure(c: Json): real {
    match c
    case Str(text) => |text| as real
    case Arr(items) => |items| as real
    case Obj(_) => 0.0
    case Null => 0.0
    case _ => Number(c)
  }

  function LowOf(t: string): string {
    if t == "string" then "minLength" else if t == "array" then "minItems" else "minimum"
  }

  function HighOf(t: string): string {
    if t == "string" then "maxLength" else if t == "array" then "maxItems" else "maximum"
  }

  const BOUNDED: set<string> := {"string", "number", "integer", "array"}

  predicate BoundsPass(x: real, s: Json, t: string) {
    Then(CheckLow(x, s, LowOf(t)), CheckHigh(x, s, HighOf(t))).Pass?
  }

  function ChildOf(s: Json, name: string): Option<Json> {
    match Get(s, "properties") case None => None case Some(properties) => Get(properties, name)
  }

  /** Some value that equals `c` is accepted. */
  predicate CanPass(c: Json, s: Json) {
    var t := TypeOf(s);
    && Spellable(c, t) && Listed(c, s)
    && (t in BOUNDED ==> BoundsPass(Measure(c), s, t))
    && (t == "array" && Get(s, "items").Some? ==> forall i :: 0 <= i < |c.items| ==> CanPass(c.items[i], Get(s, "items").value))
    && (t == "object" ==>
          && CheckNames(c, s).Pass?
          && forall i :: 0 <= i < |c.members| && ChildOf(s, c.members[i].name).Some? ==>
               CanPass(c.members[i].value, ChildOf(s, c.members[i].name).value))
  }

  /** Some value that equals `c` makes the check raise a TypeError. */
  predicate CanTrip(c: Json, s: Json) {
    var t := TypeOf(s);
    && Spellable(c, t) && Listed(c, s)
    && ((t in BOUNDED && Trips(Measure(c), s, LowOf(t), HighOf(t)))
        || (t == "array" && BoundsPass(Measure(c), s, t) && Get(s, "items").Some?
            && exists i :: 0 <= i < |c.items| && CanTrip(c.items[i], Get(s, "items").value)
                 && forall j :: 0 <= j < i ==> CanPass(c.items[j], Get(s, "items").value))
        || (t == "object" && CheckNames(c, s).Pass?
            && exists i :: 0 <= i < |c.members| && ChildOf(s, c.members[i].name).Some?
                 && CanTrip(c.members[i].value, ChildOf(s, c.members[i].name).value)))
  }

  // ---- the parts of the check ----

  lemma TypeIsDecided(s: Json)
    requires WellFormed(s)
    ensures TypeOf(s) in TYPES && Typed(s, TypeOf(s))
  {
  }

  lemma ChildIsWellFormed(s: Json, name: string)
    requires WellFormed(s) && Typed(s, "object") && ChildOf(s, name).Some?
    ensures ChildOf(s, name).value < s && WellFormed(ChildOf(s, name).value)
  {
    var properties := Get(s, "properties").value;
    var k := IndexOf(properties.members, name, 0);
    assert WellFormed(Properties(s)[k].value);
  }

  lemma TripsExactly(x: real, s: Json, low: string, high: string)
    ensures var o := Then(CheckLow(x, s, low), CheckHigh(x, s, high));
            && (o.TypeError? <==> Trips(x, s, low, high)) && (Clean(o) <==> !o.TypeError?)
            && (!Trips(x, s, low, high) && NumericIfAny(s, high) ==>
                  (o.Pass? <==> Within(x, Range(Bound(s, low), Bound(s, high)))))
  {
  }

  /** What the check of a value comes to, past the type. */
  lemma TypedCheck(v: Json, s: Json, t: string)
    requires Typed(s, t) && t in TYPES
    ensures CheckValue(v, s) == if HasType(v, t) then Then(CheckEnum(v, s), CheckKind(v, s)) else ValueError
  {
  }

  lemma EnumIsClean(v: Json, s: Json)
    requires WellFormed(s)
    ensures Clean(CheckEnum(v, s))
    ensures CheckEnum(v, s).Pass? <==> Listed(v, s)
  {
  }

  lemma NamesAreClean(v: Json, s: Json)
    requires WellFormed(s) && Typed(s, "object") && v.Obj?
    ensures Clean(CheckNames(v, s))
    ensures CheckNames(v, s).Pass? <== Texts(Required(s).value) <= Names(v) <= Names(Get(s, "properties").value)
  {
    var names := Required(s).value;
    forall i | 0 <= i < |names| ensures names[i].Str? && names[i].text in Texts(names) {
      assert RequiredKnown(s, i);
    }
  }

  /** The first failure of a loop is no ValueError exactly when everything before some such failure passes. */
  lemma {:induction false} FirstUnclean(outcomes: seq<Outcome>) returns (i: nat)
    requires !Clean(First(outcomes))
    ensures i < |outcomes| && !Clean(outcomes[i]) && forall j :: 0 <= j < i ==> outcomes[j].Pass?
  {
    if outcomes[0].Pass? {
      i := FirstUnclean(outcomes[1..]);
      i := i + 1;
    } else {
      i := 0;
    }
  }

  lemma {:induction false} FirstIsAt(outcomes: seq<Outcome>, i: nat)
    requires i < |outcomes| && !outcomes[i].Pass? && forall j :: 0 <= j < i ==> outcomes[j].Pass?
    ensures First(outcomes) == outcomes[i]
  {
    if i > 0 {
      FirstIsAt(outcomes[1..], i - 1);
    }
  }

  // ---- every spelling comes to one of these ----

  lemma SameIsListed(v: Json, c: Json, s: Json)
    requires Proper(v) && Proper(c) && Same(v, c)
    ensures Listed(v, s) <==> Listed(c, s)
  {
    SameIsSymmetric(v, c);
    forall i | 0 <= i < |Choices(s)| ensures Same(v, Choices(s)[i]) <==> Same(c, Choices(s)[i]) {
      if Same(v, Choices(s)[i]) {
        SameIsTransitive(c, v, Choices(s)[i]);
      }
      if Same(c, Choices(s)[i]) {
        SameIsTransitive(v, c, Choices(s)[i]);
      }
    }
  }

  lemma SameIsSpelled(v: Json, c: Json, t: string)
    requires Same(v, c) && HasType(v, t)
    ensures Spellable(c, t) && (t in BOUNDED ==> Measure(v) == Measure(c))
  {
  }

  /** The check of a scalar of the right type. */
  lemma ScalarKind(v: Json, s: Json, t: string)
    requires HasType(v, t) && t in {"string", "number", "integer", "boolean"}
    ensures CheckKind(v, s) == if t == "boolean" then Pass
                               else Then(CheckLow(Measure(v), s, LowOf(t)), CheckHigh(Measure(v), s, HighOf(t)))
  {
  }

  lemma {:induction false} SpellingsOfItems(v: Json, c: Json, s: Json)
    requires Proper(v) && Proper(c) && Same(v, c) && WellFormed(s) && Typed(s, "array") && v.Arr?
    requires Listed(c, s)
    ensures CheckKind(v, s).Pass? ==> CanPass(c, s)
    ensures !Clean(CheckKind(v, s)) ==> CanTrip(c, s)
    decreases v, 0
  {
    var items := Get(s, "items").value;
    TripsExactly(Measure(c), s, "minItems", "maxItems");
    var checks := ItemChecks(v, s);
    forall i | 0 <= i < |v.items|
      ensures checks[i].Pass? ==> CanPass(c.items[i], items)
      ensures !Clean(checks[i]) ==> CanTrip(c.items[i], items)
    {
      Spellings(v.items[i], c.items[i], items);
    }
    if !Clean(CheckKind(v, s)) && BoundsPass(Measure(c), s, "array") {
      var i := FirstUnclean(checks);
      assert CanTrip(c.items[i], items);
    }
    hide CheckLow, CheckHigh, WellFormed, Listed, First;
  }

  /** What each member of the value comes to is what the member of `c` of that name can come to. */
  predicate MembersSpelled(v: Json, c: Json, s: Json)
    requires v.Obj? && Get(s, "properties").Some?
  {
    var checks := MemberChecks(v, Get(s, "properties").value);
    forall i :: 0 <= i < |v.members| && ChildOf(s, v.members[i].name).Some? && Get(c, v.members[i].name).Some? ==>
      && (checks[i].Pass? ==> CanPass(Get(c, v.members[i].name).value, ChildOf(s, v.members[i].name).value))
      && (!Clean(checks[i]) ==> CanTrip(Get(c, v.members[i].name).value, ChildOf(s, v.members[i].name).value))
  }

  lemma ObjectKind(v: Json, c: Json, s: Json)
    requires v.Obj? && c.Obj? && Names(v) == Names(c) && WellFormed(s) && Typed(s, "object")
    ensures CheckKind(v, s) == Then(CheckNames(c, s), First(MemberChecks(v, Get(s, "properties").value)))
    ensures Clean(CheckNames(c, s))
  {
    NamesAreClean(c, s);
    assert CheckNames(v, s) == CheckNames(c, s);
    hide CheckNames;
  }

  /** What an object has to be for a spelling of it to pass, or to trip. */
  lemma ObjectCan(c: Json, s: Json)
    requires c.Obj? && TypeOf(s) == "object" && Listed(c, s)
    ensures CanPass(c, s) <==> CheckNames(c, s).Pass? && forall i :: 0 <= i < |c.members| && ChildOf(s, c.members[i].name).Some? ==>
              CanPass(c.members[i].value, ChildOf(s, c.members[i].name).value)
    ensures CanTrip(c, s) <==> CheckNames(c, s).Pass? && exists i ::
              && 0 <= i < |c.members| && ChildOf(s, c.members[i].name).Some?
              && CanTrip(c.members[i].value, ChildOf(s, c.members[i].name).value)
  {
    assert Spellable(c, "object") && "object" !in BOUNDED;
    hide CheckNames, Listed, ChildOf;
  }

  lemma SpelledMembersPass(v: Json, c: Json, s: Json)
    requires v.Obj? && c.Obj? && Proper(c) && Names(v) == Names(c) && WellFormed(s) && Typed(s, "object") && Listed(c, s)
    requires MembersSpelled(v, c, s) && CheckKind(v, s).Pass?
    ensures CanPass(c, s)
  {
    ObjectKind(v, c, s);
    ObjectCan(c, s);
    var checks := MemberChecks(v, Get(s, "properties").value);
    hide CheckNames, WellFormed, Listed, CheckKind, CanPass, CanTrip, CheckValue;
    forall k | 0 <= k < |c.members| && ChildOf(s, c.members[k].name).Some?
      ensures CanPass(c.members[k].value, ChildOf(s, c.members[k].name).value)
    {
      assert c.members[k].name in Names(v);
      var i :| 0 <= i < |v.members| && v.members[i].name == c.members[k].name;
      OwnMember(c, k);
      assert checks[i].Pass?;
    }
  }

  lemma SpelledMembersTrip(v: Json, c: Json, s: Json)
    requires v.Obj? && c.Obj? && Proper(c) && Names(v) == Names(c) && WellFormed(s) && Typed(s, "object") && Listed(c, s)
    requires MembersSpelled(v, c, s) && !Clean(CheckKind(v, s))
    ensures CanTrip(c, s)
  {
    assert TypeOf(s) == "object" && Get(s, "properties").Some?;
    hide WellFormed, CheckNames, MemberChecks, MembersSpelled, First, CanTrip, CheckKind, Proper, Listed;
    ObjectKind(v, c, s);
    var checks := MemberChecks(v, Get(s, "properties").value);
    UncleanMemberTrips(v, c, s, checks);
  }

  lemma UncleanMemberTrips(v: Json, c: Json, s: Json, checks: seq<Outcome>)
    requires v.Obj? && c.Obj? && Proper(c) && Names(v) == Names(c) && TypeOf(s) == "object" && Listed(c, s)
    requires Get(s, "properties").Some? && MembersSpelled(v, c, s) && checks == MemberChecks(v, Get(s, "properties").value)
    requires CheckNames(c, s).Pass? && !Clean(First(checks))
    ensures CanTrip(c, s)
  {
    hide *;
    var i := FirstUnclean(checks);
    var k := MemberTrips(v, c, s, i);
    MemberMakesTrip(c, s, k);
  }

  lemma MemberMakesTrip(c: Json, s: Json, k: nat)
    requires c.Obj? && TypeOf(s) == "object" && Listed(c, s) && CheckNames(c, s).Pass?
    requires k < |c.members| && ChildOf(s, c.members[k].name).Some?
    requires CanTrip(c.members[k].value, ChildOf(s, c.members[k].name).value)
    ensures CanTrip(c, s)
  {
    ObjectCan(c, s);
    hide CanTrip, CanPass, CheckNames, Listed, ChildOf;
  }

  lemma MemberTrips(v: Json, c: Json, s: Json, i: nat) returns (k: nat)
    requires v.Obj? && c.Obj? && Proper(c) && Names(v) == Names(c) && Get(s, "properties").Some? && i < |v.members|
    requires MembersSpelled(v, c, s) && !Clean(MemberChecks(v, Get(s, "properties").value)[i])
    ensures k < |c.members| && ChildOf(s, c.members[k].name).Some?
    ensures CanTrip(c.members[k].value, ChildOf(s, c.members[k].name).value)
  {
    assert v.members[i].name in Names(v);
    k := IndexOf(c.members, v.members[i].name, 0);
    OwnMember(c, k);
    hide CanPass, CanTrip, CheckValue, Proper, Names;
  }

  lemma {:induction false} SpellingsOfMembers(v: Json, c: Json, s: Json)
    requires Proper(v) && Proper(c) && Same(v, c) && WellFormed(s) && Typed(s, "object") && v.Obj?
    requires Listed(c, s)
    ensures CheckKind(v, s).Pass? ==> CanPass(c, s)
    ensures !Clean(CheckKind(v, s)) ==> CanTrip(c, s)
    decreases v, 0
  {
    SameNames(v, c);
    var properties := Get(s, "properties").value;
    var checks := MemberChecks(v, properties);
    forall i | 0 <= i < |v.members| && ChildOf(s, v.members[i].name).Some?
      ensures Get(c, v.members[i].name).Some?
      ensures checks[i].Pass? ==> CanPass(Get(c, v.members[i].name).value, ChildOf(s, v.members[i].name).value)
      ensures !Clean(checks[i]) ==> CanTrip(Get(c, v.members[i].name).value, ChildOf(s, v.members[i].name).value)
    {
      ChildIsWellFormed(s, v.members[i].name);
      ProperMember(c, v.members[i].name);
      Spellings(v.members[i].value, Get(c, v.members[i].name).value, ChildOf(s, v.members[i].name).value);
    }
    hide WellFormed, Listed, CanPass, CanTrip, CheckValue, CheckKind, First;
    assert MembersSpelled(v, c, s);
    if CheckKind(v, s).Pass? {
      SpelledMembersPass(v, c, s);
    }
    if !Clean(CheckKind(v, s)) {
      SpelledMembersTrip(v, c, s);
    }
  }

  lemma ProperMember(c: Json, name: string)
    requires Proper(c) && Get(c, name).Some?
    ensures Proper(Get(c, name).value)
  {
    var k := IndexOf(c.members, name, 0);
  }

  /** A value that equals `c` is accepted only if `c` can pass, and raises a TypeError only if `c` can trip. */
  lemma {:induction false} Spellings(v: Json, c: Json, s: Json)
    requires Proper(v) && Proper(c) && Same(v, c) && WellFormed(s)
    ensures CheckValue(v, s).Pass? ==> CanPass(c, s)
    ensures !Clean(CheckValue(v, s)) ==> CanTrip(c, s)
    decreases v, 1
  {
    TypeIsDecided(s);
    var t := TypeOf(s);
    TypedCheck(v, s, t);
    EnumIsClean(v, s);
    SameIsListed(v, c, s);
    if HasType(v, t) && Listed(c, s) {
      SameIsSpelled(v, c, t);
      if t == "array" {
        SpellingsOfItems(v, c, s);
      } else if t == "object" {
        SpellingsOfMembers(v, c, s);
      } else {
        ScalarKind(v, s, t);
        TripsExactly(Measure(c), s, LowOf(t), HighOf(t));
      }
    }
    hide WellFormed, CheckValue, CheckEnum, CheckKind, Listed, Same, Proper, CheckLow, CheckHigh;
  }

  // ---- and each of these has a spelling ----

  function Spelled(c: Json, t: string): Json {
    match t
    case "number" => if Numeric(c) then Float(Number(c)) else c
    case "integer" => if Numeric(c) then Int(Number(c).Floor) else c
    case "boolean" => if Numeric(c) then Bool(Number(c) == 1.0) else c
    case _ => c
  }

  lemma SpelledScalar(c: Json, t: string)
    requires t in {"string", "number", "integer", "boolean"} && Spellable(c, t)
    ensures var v := Spelled(c, t); Proper(v) && Same(v, c) && HasType(v, t) && (t != "boolean" ==> Measure(v) == Measure(c))
  {
  }

  lemma ScalarSpelling(c: Json, s: Json) returns (v: Json)
    requires Proper(c) && WellFormed(s) && TypeOf(s) != "array" && TypeOf(s) != "object" && (CanPass(c, s) || CanTrip(c, s))
    ensures Proper(v) && Same(v, c)
    ensures CanPass(c, s) ==> CheckValue(v, s).Pass?
    ensures CanTrip(c, s) ==> !Clean(CheckValue(v, s))
  {
    TypeIsDecided(s);
    var t := TypeOf(s);
    v := Spelled(c, t);
    SpelledScalar(c, t);
    TypedCheck(v, s, t);
    EnumIsClean(v, s);
    SameIsListed(v, c, s);
    ScalarKind(v, s, t);
    TripsExactly(Measure(c), s, LowOf(t), HighOf(t));
    hide WellFormed, CheckValue, CheckEnum, CheckKind, Listed, Same, Proper, CheckLow, CheckHigh, Spelled;
  }

  /** The value passes, for a spelling of `c`. */
  ghost predicate Spells(v: Json, c: Json) {
    Proper(v) && Same(v, c)
  }

  lemma {:induction false} PassingItems(c: Json, s: Json, n: nat) returns (vs: seq<Json>)
    requires Proper(c) && c.Arr? && n <= |c.items| && WellFormed(s) && forall j :: 0 <= j < n ==> CanPass(c.items[j], s)
    ensures |vs| == n && forall j :: 0 <= j < n ==> Spells(vs[j], c.items[j]) && CheckValue(vs[j], s).Pass?
    decreases c, 0, n
  {
    hide Spells, CheckValue, WellFormed, CanPass;
    vs := [];
    if n > 0 {
      var init := PassingItems(c, s, n - 1);
      var last := Passing(c.items[n - 1], s);
      vs := init + [last];
    }
  }

  lemma {:induction false} PassingMembers(c: Json, s: Json, n: nat) returns (vs: seq<Json>)
    requires Proper(c) && c.Obj? && n <= |c.members| && WellFormed(s) && Typed(s, "object")
    requires forall j :: 0 <= j < n && ChildOf(s, c.members[j].name).Some? ==>
               CanPass(c.members[j].value, ChildOf(s, c.members[j].name).value)
    ensures |vs| == n
    ensures forall j :: 0 <= j < n ==> Spells(vs[j], c.members[j].value)
    ensures forall j :: 0 <= j < n && ChildOf(s, c.members[j].name).Some? ==>
              CheckValue(vs[j], ChildOf(s, c.members[j].name).value).Pass?
    decreases c, 0, n
  {
    hide Spells, Proper, CheckValue, CanPass, WellFormed, ChildOf;
    vs := [];
    if n > 0 {
      var init := PassingMembers(c, s, n - 1);
      var last := PassingMember(c, s, n - 1);
      vs := init + [last];
    }
  }

  lemma {:induction false} PassingMember(c: Json, s: Json, i: nat) returns (x: Json)
    requires Proper(c) && c.Obj? && i < |c.members| && WellFormed(s) && Typed(s, "object")
    requires ChildOf(s, c.members[i].name).Some? ==> CanPass(c.members[i].value, ChildOf(s, c.members[i].name).value)
    ensures Spells(x, c.members[i].value)
    ensures ChildOf(s, c.members[i].name).Some? ==> CheckValue(x, ChildOf(s, c.members[i].name).value).Pass?
    decreases c, 0, 0
  {
    ProperMembers(c, i);
    hide Spells, Proper, CheckValue, CanPass;
    x := c.members[i].value;
    if ChildOf(s, c.members[i].name).Some? {
      ChildIsWellFormed(s, c.members[i].name);
      hide WellFormed, ChildOf;
      x := Passing(c.members[i].value, ChildOf(s, c.members[i].name).value);
    }
  }

  lemma ProperMembers(c: Json, i: nat)
    requires Proper(c) && c.Obj? && i < |c.members|
    ensures Proper(c.members[i].value) && Spells(c.members[i].value, c.members[i].value)
  {
    SameIsReflexive(c.members[i].value);
  }

  lemma SpelledList(c: Json, vs: seq<Json>)
    requires c.Arr? && |vs| == |c.items| && forall j :: 0 <= j < |vs| ==> Spells(vs[j], c.items[j])
    ensures Spells(Arr(vs), c) && Measure(Arr(vs)) == Measure(c)
  {
  }

  /** The check of a list whose size passes is the first failure of its items. */
  lemma ListCheck(vs: seq<Json>, c: Json, s: Json)
    requires WellFormed(s) && Typed(s, "array") && Proper(c) && Spells(Arr(vs), c) && Listed(c, s)
    ensures CheckValue(Arr(vs), s)
            == Then(Then(CheckLow(Measure(c), s, "minItems"), CheckHigh(Measure(c), s, "maxItems")), First(ItemChecks(Arr(vs), s)))
  {
    TypedCheck(Arr(vs), s, "array");
    EnumIsClean(Arr(vs), s);
    SameIsListed(Arr(vs), c, s);
    hide WellFormed, CheckValue, CheckEnum, Listed, CheckLow, CheckHigh;
  }

  lemma ListPasses(vs: seq<Json>, c: Json, s: Json)
    requires WellFormed(s) && Typed(s, "array") && Proper(c) && Spells(Arr(vs), c) && CanPass(c, s)
    requires forall j :: 0 <= j < |vs| ==> CheckValue(vs[j], Get(s, "items").value).Pass?
    ensures CheckValue(Arr(vs), s).Pass?
  {
    ListCheck(vs, c, s);
    hide WellFormed, CheckValue, CheckEnum, Listed, CheckLow, CheckHigh, Spells;
    assert BoundsPass(Measure(c), s, "array");
    assert forall j :: 0 <= j < |vs| ==> ItemChecks(Arr(vs), s)[j].Pass?;
  }

  function Renamed(members: seq<Member>, vs: seq<Json>): (r: seq<Member>)
    requires |vs| == |members|
    ensures |r| == |members| && forall i :: 0 <= i < |r| ==> r[i] == Member(members[i].name, vs[i])
  {
    seq(|members|, i requires 0 <= i < |members| => Member(members[i].name, vs[i]))
  }

  lemma SpelledObject(c: Json, vs: seq<Json>)
    requires Proper(c) && c.Obj? && |vs| == |c.members| && forall j :: 0 <= j < |vs| ==> Spells(vs[j], c.members[j].value)
    ensures Spells(Obj(Renamed(c.members, vs)), c) && Names(Obj(Renamed(c.members, vs))) == Names(c)
  {
    var v := Obj(Renamed(c.members, vs));
    forall i | 0 <= i < |v.members| ensures Get(c, v.members[i].name) == Some(c.members[i].value) {
      OwnMember(c, i);
    }
    SameNames(v, c);
  }

  /** The check of an object that spells `c` is the names check of `c`, then the first failure of its members. */
  lemma ObjectCheck(v: Json, c: Json, s: Json)
    requires WellFormed(s) && Typed(s, "object") && Proper(c) && c.Obj? && Spells(v, c) && Listed(c, s)
    ensures v.Obj? && CheckValue(v, s) == Then(CheckNames(c, s), First(MemberChecks(v, Get(s, "properties").value)))
  {
    TypedCheck(v, s, "object");
    EnumIsClean(v, s);
    SameIsListed(v, c, s);
    SameNames(v, c);
    ObjectKind(v, c, s);
    hide WellFormed, CheckValue, CheckEnum, Listed, CheckNames, CheckKind;
  }

  lemma AllMembersPass(vs: seq<Json>, c: Json, s: Json)
    requires c.Obj? && |vs| == |c.members| && Get(s, "properties").Some?
    requires forall j :: 0 <= j < |vs| && ChildOf(s, c.members[j].name).Some? ==>
              CheckValue(vs[j], ChildOf(s, c.members[j].name).value).Pass?
    ensures First(MemberChecks(Obj(Renamed(c.members, vs)), Get(s, "properties").value)).Pass?
  {
    hide CheckValue, Renamed;
    var checks := MemberChecks(Obj(Renamed(c.members, vs)), Get(s, "properties").value);
    assert forall j :: 0 <= j < |vs| ==> checks[j].Pass?;
  }

  lemma ObjectPasses(vs: seq<Json>, c: Json, s: Json)
    requires WellFormed(s) && Typed(s, "object") && Proper(c) && c.Obj? && CanPass(c, s) && |vs| == |c.members|
    requires forall j :: 0 <= j < |vs| ==> Spells(vs[j], c.members[j].value)
    requires forall j :: 0 <= j < |vs| && ChildOf(s, c.members[j].name).Some? ==>
              CheckValue(vs[j], ChildOf(s, c.members[j].name).value).Pass?
    ensures var v := Obj(Renamed(c.members, vs)); Spells(v, c) && CheckValue(v, s).Pass?
  {
    assert Listed(c, s) && CheckNames(c, s).Pass?;
    hide CheckValue, Spells, Proper, CheckNames, Listed, CanPass, MemberChecks, Renamed, First;
    SpelledObject(c, vs);
    AllMembersPass(vs, c, s);
    ObjectCheck(Obj(Renamed(c.members, vs)), c, s);
    hide WellFormed;
  }

  lemma {:induction false} Passing(c: Json, s: Json) returns (v: Json)
    requires Proper(c) && WellFormed(s) && CanPass(c, s)
    ensures Spells(v, c) && CheckValue(v, s).Pass?
    decreases c, 1, 0
  {
    TypeIsDecided(s);
    if TypeOf(s) == "array" {
      var vs := PassingItems(c, Get(s, "items").value, |c.items|);
      SpelledList(c, vs);
      ListPasses(vs, c, s);
      v := Arr(vs);
    } else if TypeOf(s) == "object" {
      var vs := PassingMembers(c, s, |c.members|);
      ObjectPasses(vs, c, s);
      v := Obj(Renamed(c.members, vs));
    } else {
      v := ScalarSpelling(c, s);
    }
    hide CheckValue, WellFormed, Proper, CheckNames, CheckLow, CheckHigh, Listed;
  }

  // ---- tripping ----

  /** Passing spellings up to the item that trips. */
  lemma ListTrips(c: Json, s: Json, init: seq<Json>, x: Json) returns (v: Json)
    requires WellFormed(s) && Typed(s, "array") && Proper(c) && c.Arr? && Listed(c, s) && |init| < |c.items|
    requires BoundsPass(Measure(c), s, "array")
    requires forall j :: 0 <= j < |init| ==> Spells(init[j], c.items[j]) && CheckValue(init[j], Get(s, "items").value).Pass?
    requires Spells(x, c.items[|init|]) && !Clean(CheckValue(x, Get(s, "items").value))
    ensures Spells(v, c) && !Clean(CheckValue(v, s))
  {
    var vs := init + [x] + c.items[|init| + 1..];
    TripsAmong(c, init, x);
    v := Arr(vs);
    hide WellFormed, CheckValue, CheckEnum, Listed, CheckLow, CheckHigh, Spells, Proper;
    SpelledList(c, vs);
    ListCheck(vs, c, s);
    var checks := ItemChecks(v, s);
    assert checks[|init|] == CheckValue(x, Get(s, "items").value);
    assert forall j :: 0 <= j < |init| ==> checks[j] == CheckValue(init[j], Get(s, "items").value);
    hide ItemChecks, First;
    FirstIsAt(checks, |init|);
  }

  lemma TripsAmong(c: Json, init: seq<Json>, x: Json)
    requires Proper(c) && c.Arr? && |init| < |c.items| && Spells(x, c.items[|init|])
    requires forall j :: 0 <= j < |init| ==> Spells(init[j], c.items[j])
    ensures var vs := init + [x] + c.items[|init| + 1..];
            |vs| == |c.items| && forall j :: 0 <= j < |vs| ==> Spells(vs[j], c.items[j])
  {
    var vs := init + [x] + c.items[|init| + 1..];
    forall j | 0 <= j < |vs| ensures Spells(vs[j], c.items[j]) {
      if j > |init| {
        assert vs[j] == c.items[j];
        SameIsReflexive(c.items[j]);
      }
    }
  }

  function OldPlace(i: nat, k: nat): nat {
    if i == 0 then k else if i <= k then i - 1 else i
  }

  function MovedFirst(members: seq<Member>, k: nat, x: Json): (r: seq<Member>)
    requires k < |members|
    ensures |r| == |members| && r[0] == Member(members[k].name, x)
    ensures forall i :: 0 < i < |r| ==> r[i] == members[OldPlace(i, k)]
  {
    [Member(members[k].name, x)] + members[..k] + members[k + 1..]
  }

  /** The member that trips is moved to the front. */
  lemma MovedToFront(c: Json, k: nat, x: Json)
    requires Proper(c) && c.Obj? && k < |c.members| && Spells(x, c.members[k].value)
    ensures Spells(Obj(MovedFirst(c.members, k, x)), c)
  {
    var v := Obj(MovedFirst(c.members, k, x));
    forall i | 0 <= i < |v.members|
      ensures v.members[i].name == c.members[OldPlace(i, k)].name && Spells(v.members[i].value, c.members[OldPlace(i, k)].value)
    {
      SameIsReflexive(c.members[OldPlace(i, k)].value);
    }
    hide MovedFirst;
    MovedIsProper(v, c, k);
    forall i | 0 <= i < |v.members|
      ensures Get(c, v.members[i].name).Some? && Same(v.members[i].value, Get(c, v.members[i].name).value)
    {
      OwnMember(c, OldPlace(i, k));
    }
    hide Proper;
  }

  lemma MovedIsProper(v: Json, c: Json, k: nat)
    requires Proper(c) && v.Obj? && c.Obj? && |v.members| == |c.members| && k < |c.members|
    requires forall i :: 0 <= i < |v.members| ==>
               v.members[i].name == c.members[OldPlace(i, k)].name && Spells(v.members[i].value, c.members[OldPlace(i, k)].value)
    ensures Proper(v)
  {
    hide Same;
    forall i, j | 0 <= i < j < |v.members| ensures v.members[i].name != v.members[j].name {
      assert OldPlace(i, k) != OldPlace(j, k);
    }
  }

  lemma ObjectTrips(c: Json, s: Json, k: nat, x: Json) returns (v: Json)
    requires WellFormed(s) && Typed(s, "object") && Proper(c) && c.Obj? && Listed(c, s) && CheckNames(c, s).Pass?
    requires k < |c.members| && Spells(x, c.members[k].value)
    requires ChildOf(s, c.members[k].name).Some? && !Clean(CheckValue(x, ChildOf(s, c.members[k].name).value))
    ensures Spells(v, c) && !Clean(CheckValue(v, s))
  {
    v := Obj(MovedFirst(c.members, k, x));
    hide WellFormed, CheckValue, CheckEnum, Listed, CheckNames, Spells, Proper;
    MovedToFront(c, k, x);
    ObjectCheck(v, c, s);
    var checks := MemberChecks(v, Get(s, "properties").value);
    assert checks[0] == CheckValue(x, ChildOf(s, c.members[k].name).value);
    FirstIsAt(checks, 0);
    hide First;
  }

  lemma {:induction false} Tripping(c: Json, s: Json) returns (v: Json)
    requires Proper(c) && WellFormed(s) && CanTrip(c, s)
    ensures Spells(v, c) && !Clean(CheckValue(v, s))
    decreases c, 1
  {
    TypeIsDecided(s);
    if TypeOf(s) == "array" {
      v := TrippingList(c, s);
    } else if TypeOf(s) == "object" {
      v := TrippingObject(c, s);
    } else {
      v := ScalarSpelling(c, s);
    }
    hide CheckValue, WellFormed, CheckNames, CheckLow, CheckHigh, Listed, Same;
  }

  lemma {:induction false} TrippingObject(c: Json, s: Json) returns (v: Json)
    requires Proper(c) && WellFormed(s) && CanTrip(c, s) && Typed(s, "object")
    ensures Spells(v, c) && !Clean(CheckValue(v, s))
    decreases c, 0
  {
    assert Listed(c, s);
    ObjectCan(c, s);
    var k :| 0 <= k < |c.members| && ChildOf(s, c.members[k].name).Some?
             && CanTrip(c.members[k].value, ChildOf(s, c.members[k].name).value);
    ProperMembers(c, k);
    ChildIsWellFormed(s, c.members[k].name);
    hide CheckValue, CheckNames, Listed, CanTrip, CanPass, Proper, Spells;
    var x := Tripping(c.members[k].value, ChildOf(s, c.members[k].name).value);
    v := ObjectTrips(c, s, k, x);
    hide WellFormed;
  }

  lemma {:induction false} TrippingList(c: Json, s: Json) returns (v: Json)
    requires Proper(c) && WellFormed(s) && CanTrip(c, s) && Typed(s, "array")
    ensures Spells(v, c) && !Clean(CheckValue(v, s))
    decreases c, 0
  {
    var items := Get(s, "items").value;
    if Trips(Measure(c), s, "minItems", "maxItems") {
      SameIsReflexive(c);
      v := c;
      TripsExactly(Measure(c), s, "minItems", "maxItems");
      ListCheck(c.items, c, s);
    } else {
      var k :| 0 <= k < |c.items| && CanTrip(c.items[k], items) && forall j :: 0 <= j < k ==> CanPass(c.items[j], items);
      var init := PassingItems(c, items, k);
      var x := Tripping(c.items[k], items);
      v := ListTrips(c, s, init, x);
    }
    hide CheckValue, WellFormed, CheckLow, CheckHigh, Listed, Same, First;
  }

  /**
   * Of the values that equal `c`: one is accepted if and only if `c` can pass, and one raises a
   * TypeError if and only if `c` can trip.
   */
  lemma SpellingsExactly(c: Json, s: Json)
    requires Proper(c) && WellFormed(s)
    ensures CanPass(c, s) <==> exists v :: Spells(v, c) && CheckValue(v, s).Pass?
    ensures CanTrip(c, s) <==> exists v :: Spells(v, c) && !Clean(CheckValue(v, s))
  {
    if CanPass(c, s) {
      var v := Passing(c, s);
    }
    if CanTrip(c, s) {
      var v := Tripping(c, s);
    }
    forall v | Spells(v, c)
      ensures (CheckValue(v, s).Pass? ==> CanPass(c, s)) && (!Clean(CheckValue(v, s)) ==> CanTrip(c, s))
    {
      Spellings(v, c, s);
    }
    hide CheckValue, CanPass, CanTrip, WellFormed;
  }
}
