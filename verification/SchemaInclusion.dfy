/** A test on two definitions: whether the second accepts every value that the first accepts. */
module SchemaInclusion {
  import opened Optional
  import opened SchemaSubset
  import opened SchemaMeaning
  import opened SchemaChoices
  import opened SchemaEscapes
  import Catalog = ContractCatalog
  import opened ContractCompatibility
  import opened ContractPayloads

  // ---- ranges ----

  function Ceiling(x: real): (n: int)
    ensures x <= n as real < x + 1.0
  {
    -((-x).Floor)
  }

  predicate IntWithin(n: int, r: Range) {
    Within(n as real, r)
  }

  /** Some whole number is in the range. */
  predicate SomeInts(r: Range) {
    r.low.Some? && r.high.Some? ==> Ceiling(r.low.value) as real <= r.high.value
  }

  predicate SomeReals(r: Range) {
    r.low.Some? && r.high.Some? ==> r.low.value <= r.high.value
  }

  /** Every whole number of `p` is in `c`, if `p` has any. */
  predicate IntsFit(p: Range, c: Range) {
    && (c.low.Some? ==> p.low.Some? && c.low.value <= Ceiling(p.low.value) as real)
    && (c.high.Some? ==> p.high.Some? && p.high.value.Floor as real <= c.high.value)
  }

  predicate RealsFit(p: Range, c: Range) {
    && (c.low.Some? ==> p.low.Some? && c.low.value <= p.low.value)
    && (c.high.Some? ==> p.high.Some? && p.high.value <= c.high.value)
  }

  lemma SomeInt(r: Range) returns (n: int)
    requires SomeInts(r)
    ensures IntWithin(n, r)
  {
    n := if r.low.Some? then Ceiling(r.low.value) else if r.high.Some? then r.high.value.Floor else 0;
  }

  lemma InRangeIsSome(n: int, r: Range)
    requires IntWithin(n, r)
    ensures SomeInts(r)
  {
    if r.low.Some? && r.high.Some? {
      assert Ceiling(r.low.value) <= n;
    }
  }

  lemma IntsFitIsSound(n: int, p: Range, c: Range)
    requires IntsFit(p, c) && IntWithin(n, p)
    ensures IntWithin(n, c)
  {
    if p.low.Some? {
      assert Ceiling(p.low.value) <= n;
    }
    if p.high.Some? {
      assert n <= p.high.value.Floor;
    }
  }

  lemma IntsMisfit(p: Range, c: Range) returns (n: int)
    requires SomeInts(p) && !IntsFit(p, c)
    ensures IntWithin(n, p) && !IntWithin(n, c)
  {
    if c.low.Some? && !(p.low.Some? && c.low.value <= Ceiling(p.low.value) as real) {
      if p.low.Some? {
        n := Ceiling(p.low.value);
      } else {
        n := c.low.value.Floor - 1;
        if p.high.Some? && p.high.value < n as real {
          n := p.high.value.Floor;
        }
      }
    } else {
      if p.high.Some? {
        n := p.high.value.Floor;
        assert p.low.Some? ==> Ceiling(p.low.value) <= n;
      } else {
        n := c.high.value.Floor + 1;
        if p.low.Some? && n as real < p.low.value {
          n := Ceiling(p.low.value);
        }
      }
    }
  }

  lemma SomeReal(r: Range) returns (x: real)
    requires SomeReals(r)
    ensures Within(x, r)
  {
    x := if r.low.Some? then r.low.value else if r.high.Some? then r.high.value else 0.0;
  }

  lemma RealsMisfit(p: Range, c: Range) returns (x: real)
    requires SomeReals(p) && !RealsFit(p, c)
    ensures Within(x, p) && !Within(x, c)
  {
    if c.low.Some? && !(p.low.Some? && c.low.value <= p.low.value) {
      x := if p.low.Some? then p.low.value else c.low.value - 1.0;
      if p.low.None? && p.high.Some? && p.high.value < x {
        x := p.high.value;
      }
    } else {
      x := if p.high.Some? then p.high.value else c.high.value + 1.0;
      if p.high.None? && p.low.Some? && x < p.low.value {
        x := p.low.value;
      }
    }
  }

  /** The part of the range from `floor` on. */
  function From(r: Range, floor: int): (clipped: Range)
    ensures forall n: int :: IntWithin(n, clipped) <==> n >= floor && IntWithin(n, r)
  {
    Range(Some(if r.low.Some? && r.low.value > floor as real then r.low.value else floor as real), r.high)
  }

  /** Zero, if it is in the range. */
  function OnlyZero(r: Range): (clipped: Range)
    ensures forall n: int :: IntWithin(n, clipped) <==> n == 0 && IntWithin(n, r)
  {
    Range(From(r, 0).low, Some(if r.high.Some? && r.high.value < 0.0 then r.high.value else 0.0))
  }

  // ---- the test ----

  predicate BoundsAreNumbers(s: Json, t: string) {
    NumericIfAny(s, LowOf(t)) && NumericIfAny(s, HighOf(t))
  }

  function RangeOf(s: Json, t: string): Range
    requires BoundsAreNumbers(s, t)
  {
    Range(Bound(s, LowOf(t)), Bound(s, HighOf(t)))
  }

  /** Some value is accepted. */
  predicate Inhabited(s: Json) {
    var t := TypeOf(s);
    if Get(s, "enum").Some? then exists i :: 0 <= i < |Choices(s)| && CanPass(Choices(s)[i], s)
    else if t == "object" then
      forall name :: name in Catalog.RequiredNames(s) && Declared(s, name) ==> Inhabited(Field(s, name).value)
    else
      t in BOUNDED ==>
        && BoundsAreNumbers(s, t)
        && (t == "string" ==> SomeInts(From(RangeOf(s, t), 0)))
        && (t == "integer" ==> SomeInts(RangeOf(s, t)))
        && (t == "number" ==> SomeReals(RangeOf(s, t)))
        && (t == "array" && Get(s, "items").Some? ==>
              SomeInts(if Inhabited(Get(s, "items").value) then From(RangeOf(s, t), 0) else OnlyZero(RangeOf(s, t))))
  }

  /** The sizes that lists of that definition can have. */
  function Sizes(s: Json): Range
    requires BoundsAreNumbers(s, "array") && Get(s, "items").Some?
  {
    if Inhabited(Get(s, "items").value) then From(RangeOf(s, "array"), 0) else OnlyZero(RangeOf(s, "array"))
  }

  /** All choices of `p` that can pass are choices of `c`. */
  predicate ChoicesFit(p: Json, c: Json) {
    Get(c, "enum").Some? ==>
      Get(p, "enum").Some? && forall i :: 0 <= i < |Choices(p)| && CanPass(Choices(p)[i], p) ==> Listed(Choices(p)[i], c)
  }

  predicate FieldsFit(p: Json, c: Json)
    decreases p, 0
  {
    && Catalog.RequiredNames(c) <= Catalog.RequiredNames(p)
    && (Open(p) ==> Open(c) && Catalog.PropertyNames(c) <= Catalog.PropertyNames(p))
    && forall name :: name in Catalog.PropertyNames(p) && Declared(p, name) ==>
         if Declared(c, name) then Fits(Field(p, name).value, Field(c, name).value)
         else Open(c) || !Inhabited(Field(p, name).value)
  }

  /** Type by type; a whole number is a number. */
  predicate KindFits(p: Json, c: Json)
    decreases p, 1
  {
    var t, u := TypeOf(p), TypeOf(c);
    if t == "object" then u == "object" && FieldsFit(p, c)
    else if t == "boolean" then u == "boolean"
    else
      && BoundsAreNumbers(p, t) && BoundsAreNumbers(c, u)
      && (t == "string" ==> u == "string" && IntsFit(From(RangeOf(p, t), 0), RangeOf(c, u)))
      && (t == "integer" ==> (u == "integer" || u == "number") && IntsFit(RangeOf(p, t), RangeOf(c, u)))
      && (t == "number" ==> u == "number" && RealsFit(RangeOf(p, t), RangeOf(c, u)))
      && (t == "array" ==>
            && u == "array" && Get(p, "items").Some? && Get(c, "items").Some?
            && IntsFit(Sizes(p), RangeOf(c, u))
            && (SomeInts(From(RangeOf(p, t), 1)) ==> Fits(Get(p, "items").value, Get(c, "items").value)))
  }

  /** `c` accepts what `p` accepts. */
  predicate Fits(p: Json, c: Json)
    decreases p, 2
  {
    !Inhabited(p) || (ChoicesFit(p, c) && KindFits(p, c))
  }

  // ---- what a definition accepts, type by type ----

  lemma BoundsPassExactly(x: real, s: Json, t: string)
    ensures BoundsPass(x, s, t) <==> BoundsAreNumbers(s, t) && Within(x, RangeOf(s, t))
  {
    TripsExactly(x, s, LowOf(t), HighOf(t));
  }

  lemma ScalarAccepted(v: Json, s: Json)
    requires WellFormed(s) && TypeOf(s) !in {"array", "object"}
    ensures CheckValue(v, s).Pass? <==>
              HasType(v, TypeOf(s)) && Listed(v, s) && (TypeOf(s) != "boolean" ==> BoundsPass(Measure(v), s, TypeOf(s)))
  {
    TypeIsDecided(s);
    TypedCheck(v, s, TypeOf(s));
    EnumIsClean(v, s);
    if HasType(v, TypeOf(s)) {
      ScalarKind(v, s, TypeOf(s));
    }
    hide WellFormed, CheckValue, CheckEnum, CheckKind, CheckLow, CheckHigh, Listed;
  }

  lemma ListAccepted(v: Json, s: Json)
    requires WellFormed(s) && TypeOf(s) == "array"
    ensures CheckValue(v, s).Pass? <==>
              && v.Arr? && Listed(v, s) && BoundsPass(|v.items| as real, s, "array")
              && forall i :: 0 <= i < |v.items| ==> CheckValue(v.items[i], Get(s, "items").value).Pass?
  {
    TypeIsDecided(s);
    TypedCheck(v, s, "array");
    EnumIsClean(v, s);
    if v.Arr? {
      var checks := ItemChecks(v, s);
      assert First(checks).Pass? <==> forall i :: 0 <= i < |v.items| ==> CheckValue(v.items[i], Get(s, "items").value).Pass?;
      assert CheckKind(v, s)
             == Then(Then(CheckLow(|v.items| as real, s, "minItems"), CheckHigh(|v.items| as real, s, "maxItems")), First(checks));
    }
    hide WellFormed, CheckValue, CheckEnum, CheckKind, CheckLow, CheckHigh, Listed;
  }

  lemma RecordAccepted(v: Json, s: Json)
    requires WellFormed(s) && TypeOf(s) == "object"
    ensures CheckValue(v, s).Pass? <==>
              && v.Obj? && Listed(v, s) && Catalog.RequiredNames(s) <= Names(v) && (Open(s) || Names(v) <= Catalog.PropertyNames(s))
              && MembersPass(v, s)
  {
    TypeIsDecided(s);
    TypedCheck(v, s, "object");
    EnumIsClean(v, s);
    if v.Obj? {
      ObjectAccepted(v, s);
    }
    hide WellFormed, CheckValue, CheckEnum, CheckKind, Listed, Open, Names, Catalog.RequiredNames, Catalog.PropertyNames, MembersPass;
  }

  // ---- what is accepted makes a definition inhabited ----

  lemma {:induction false} AcceptedIsInhabited(v: Json, s: Json)
    requires WellFormed(s) && Proper(s) && Proper(v) && CheckValue(v, s).Pass?
    ensures Inhabited(s)
    decreases v, 1
  {
    TypeIsDecided(s);
    ProperParts(s);
    if Get(s, "enum").Some? {
      ChoiceIsInhabited(v, s);
    } else if TypeOf(s) == "array" {
      ListIsInhabited(v, s);
    } else if TypeOf(s) == "object" {
      RecordIsInhabited(v, s);
    } else {
      ScalarIsInhabited(v, s);
    }
    hide WellFormed, CheckValue, Inhabited;
  }

  lemma ChoiceIsInhabited(v: Json, s: Json)
    requires WellFormed(s) && Proper(s) && Proper(v) && CheckValue(v, s).Pass? && Get(s, "enum").Some?
    ensures Inhabited(s)
  {
    TypeIsDecided(s);
    TypedCheck(v, s, TypeOf(s));
    EnumIsClean(v, s);
    ProperParts(s);
    var i :| 0 <= i < |Choices(s)| && Same(v, Choices(s)[i]);
    Spellings(v, Choices(s)[i], s);
    hide WellFormed, CheckValue, CanPass, Proper;
  }

  lemma ScalarIsInhabited(v: Json, s: Json)
    requires WellFormed(s) && CheckValue(v, s).Pass? && TypeOf(s) !in {"array", "object"} && Get(s, "enum").None?
    ensures Inhabited(s)
  {
    ScalarAccepted(v, s);
    TypeIsDecided(s);
    hide WellFormed, CheckValue, Listed;
    var t := TypeOf(s);
    if t != "boolean" {
      BoundsPassExactly(Measure(v), s, t);
      hide BoundsPass;
      match v {
        case Str(text) => InRangeIsSome(|text|, From(RangeOf(s, t), 0)); assert IntWithin(|text|, RangeOf(s, t));
        case Int(n) => InRangeIsSome(n, RangeOf(s, t));
        case _ =>
      }
    }
  }

  lemma {:induction false} ListIsInhabited(v: Json, s: Json)
    requires WellFormed(s) && Proper(s) && Proper(v) && CheckValue(v, s).Pass? && TypeOf(s) == "array" && Get(s, "enum").None?
    ensures Inhabited(s)
    decreases v, 0
  {
    ListAccepted(v, s);
    BoundsPassExactly(|v.items| as real, s, "array");
    TypeIsDecided(s);
    ProperParts(s);
    var n: int := |v.items|;
    if n > 0 {
      AcceptedIsInhabited(v.items[0], Get(s, "items").value);
    }
    hide WellFormed, CheckValue, Listed, BoundsPass, Proper;
    assert IntWithin(n, RangeOf(s, "array"));
    InRangeIsSome(n, Sizes(s));
  }

  lemma {:induction false} RecordIsInhabited(v: Json, s: Json)
    requires WellFormed(s) && Proper(s) && Proper(v) && CheckValue(v, s).Pass? && TypeOf(s) == "object" && Get(s, "enum").None?
    ensures Inhabited(s)
    decreases v, 0
  {
    RecordAccepted(v, s);
    TypeIsDecided(s);
    ProperParts(s);
    forall name | name in Catalog.RequiredNames(s) && Declared(s, name) ensures Inhabited(Field(s, name).value) {
      assert name in Names(v);
      var i :| 0 <= i < |v.members| && v.members[i].name == name;
      FieldIsWellFormed(s, name);
      AcceptedIsInhabited(v.members[i].value, Field(s, name).value);
    }
    hide WellFormed, CheckValue, Listed, Catalog.RequiredNames, Open;
  }

  // ---- the test is sound ----

  lemma {:induction false} FitsIsSound(v: Json, p: Json, c: Json)
    requires WellFormed(p) && WellFormed(c) && Proper(p) && Proper(c) && Proper(v) && Fits(p, c) && CheckValue(v, p).Pass?
    ensures CheckValue(v, c).Pass?
    decreases v, 1
  {
    AcceptedIsInhabited(v, p);
    TypeIsDecided(p);
    TypeIsDecided(c);
    ChoicesAreListed(v, p, c);
    if TypeOf(p) == "array" {
      ListStillFits(v, p, c);
    } else if TypeOf(p) == "object" {
      RecordStillFits(v, p, c);
    } else {
      ScalarStillFits(v, p, c);
    }
    hide WellFormed, CheckValue, KindFits, Inhabited, Proper;
  }

  lemma ChoicesAreListed(v: Json, p: Json, c: Json)
    requires WellFormed(p) && Proper(p) && Proper(v) && ChoicesFit(p, c) && CheckValue(v, p).Pass?
    ensures Listed(v, c)
  {
    TypeIsDecided(p);
    TypedCheck(v, p, TypeOf(p));
    EnumIsClean(v, p);
    if Get(c, "enum").Some? {
      ProperParts(p);
      var i :| 0 <= i < |Choices(p)| && Same(v, Choices(p)[i]);
      Spellings(v, Choices(p)[i], p);
      SameIsListed(v, Choices(p)[i], c);
    }
    hide WellFormed, CheckValue, CanPass, Proper, Same;
  }

  lemma ScalarStillFits(v: Json, p: Json, c: Json)
    requires WellFormed(p) && WellFormed(c) && TypeOf(p) !in {"array", "object"} && KindFits(p, c) && Listed(v, c)
    requires CheckValue(v, p).Pass?
    ensures CheckValue(v, c).Pass?
  {
    ScalarAccepted(v, p);
    TypeIsDecided(p);
    hide WellFormed, CheckValue, Listed;
    ScalarAccepted(v, c);
    var t, u := TypeOf(p), TypeOf(c);
    if t != "boolean" {
      BoundsPassExactly(Measure(v), p, t);
      BoundsPassExactly(Measure(v), c, u);
      hide BoundsPass;
      match v {
        case Str(text) => assert IntWithin(|text|, RangeOf(p, t)); IntsFitIsSound(|text|, From(RangeOf(p, t), 0), RangeOf(c, u));
        case Int(n) => if t == "integer" { IntsFitIsSound(n, RangeOf(p, t), RangeOf(c, u)); }
        case _ =>
      }
    }
  }

  lemma {:induction false} ListStillFits(v: Json, p: Json, c: Json)
    requires WellFormed(p) && WellFormed(c) && Proper(p) && Proper(c) && Proper(v)
    requires TypeOf(p) == "array" && KindFits(p, c) && Listed(v, c) && CheckValue(v, p).Pass?
    ensures CheckValue(v, c).Pass?
    decreases v, 0
  {
    ListAccepted(v, p);
    ListAccepted(v, c);
    TypeIsDecided(p);
    TypeIsDecided(c);
    ProperParts(p);
    ProperParts(c);
    var n: int := |v.items|;
    BoundsPassExactly(n as real, p, "array");
    BoundsPassExactly(n as real, c, "array");
    assert IntWithin(n, RangeOf(p, "array"));
    if n > 0 {
      AcceptedIsInhabited(v.items[0], Get(p, "items").value);
      InRangeIsSome(n, From(RangeOf(p, "array"), 1));
      forall i | 0 <= i < |v.items| ensures CheckValue(v.items[i], Get(c, "items").value).Pass? {
        FitsIsSound(v.items[i], Get(p, "items").value, Get(c, "items").value);
      }
    }
    hide WellFormed, CheckValue, Listed, BoundsPass, Proper, Fits;
    IntsFitIsSound(n, Sizes(p), RangeOf(c, "array"));
  }

  lemma {:induction false} RecordStillFits(v: Json, p: Json, c: Json)
    requires WellFormed(p) && WellFormed(c) && Proper(p) && Proper(c) && Proper(v)
    requires TypeOf(p) == "object" && KindFits(p, c) && Listed(v, c) && CheckValue(v, p).Pass?
    ensures CheckValue(v, c).Pass?
    decreases v, 0
  {
    RecordAccepted(v, p);
    RecordAccepted(v, c);
    TypeIsDecided(p);
    TypeIsDecided(c);
    ProperParts(p);
    ProperParts(c);
    forall i | 0 <= i < |v.members|
      ensures Declared(c, v.members[i].name) ==> CheckValue(v.members[i].value, Field(c, v.members[i].name).value).Pass?
      ensures Open(c) || v.members[i].name in Catalog.PropertyNames(c)
    {
      var name := v.members[i].name;
      assert name in Names(v);
      DeclaredNames(p, name);
      DeclaredNames(c, name);
      if Declared(p, name) {
        FieldIsWellFormed(p, name);
        if Declared(c, name) {
          FieldIsWellFormed(c, name);
          FitsIsSound(v.members[i].value, Field(p, name).value, Field(c, name).value);
        } else {
          AcceptedIsInhabited(v.members[i].value, Field(p, name).value);
        }
      }
    }
    hide WellFormed, CheckValue, Listed, Proper, Fits, Open, Inhabited;
  }

  // ---- an accepted value of every inhabited definition ----

  lemma ScalarOf(x: int, t: string) returns (v: Json)
    requires t in {"string", "integer"} && (t == "string" ==> x >= 0)
    ensures Proper(v) && HasType(v, t) && Measure(v) == x as real && (v.Int? <==> t == "integer")
  {
    v := if t == "string" then Str(seq(x, _ => 'x')) else Int(x);
  }

  /** The scalar with this measure is accepted exactly if the measure is within bounds. */
  lemma PlainScalarAccepted(v: Json, s: Json)
    requires WellFormed(s) && TypeOf(s) in {"string", "integer", "number"} && Get(s, "enum").None?
    ensures CheckValue(v, s).Pass? <==>
              HasType(v, TypeOf(s)) && BoundsAreNumbers(s, TypeOf(s)) && Within(Measure(v), RangeOf(s, TypeOf(s)))
  {
    ScalarAccepted(v, s);
    BoundsPassExactly(Measure(v), s, TypeOf(s));
    hide WellFormed, CheckValue, BoundsPass;
  }

  lemma ScalarInhabitant(s: Json) returns (v: Json)
    requires WellFormed(s) && TypeOf(s) !in {"array", "object"} && Get(s, "enum").None? && Inhabited(s)
    ensures Proper(v) && CheckValue(v, s).Pass?
  {
    TypeIsDecided(s);
    var t := TypeOf(s);
    if t == "boolean" {
      v := Bool(true);
      ScalarAccepted(v, s);
    } else if t == "number" {
      var x := SomeReal(RangeOf(s, t));
      v := Float(x);
      PlainScalarAccepted(v, s);
    } else {
      var n := SomeInt(if t == "string" then From(RangeOf(s, t), 0) else RangeOf(s, t));
      assert IntWithin(n, RangeOf(s, t));
      v := ScalarOf(n, t);
      PlainScalarAccepted(v, s);
    }
    hide WellFormed, CheckValue;
  }

  /** A list of `n` equal items. */
  lemma Repeated(item: Json, n: nat, s: Json) returns (v: Json)
    requires WellFormed(s) && TypeOf(s) == "array" && Get(s, "enum").None? && Proper(item)
    ensures v.Arr? && |v.items| == n && Proper(v) && forall i :: 0 <= i < n ==> v.items[i] == item
    ensures CheckValue(v, s).Pass? <==>
              && BoundsAreNumbers(s, "array") && IntWithin(n, RangeOf(s, "array"))
              && (n > 0 ==> CheckValue(item, Get(s, "items").value).Pass?)
  {
    TypeIsDecided(s);
    v := Arr(seq(n, _ => item));
    ListAccepted(v, s);
    BoundsPassExactly(n as real, s, "array");
    hide WellFormed, CheckValue, BoundsPass;
    if n > 0 {
      assert v.items[0] == item;
    }
  }

  lemma {:induction false} ListInhabitant(s: Json) returns (v: Json)
    requires WellFormed(s) && Proper(s) && TypeOf(s) == "array" && Get(s, "enum").None? && Inhabited(s)
    ensures Proper(v) && CheckValue(v, s).Pass?
    decreases s, 0
  {
    TypeIsDecided(s);
    ProperParts(s);
    var n := SomeInt(Sizes(s));
    var item := Null;
    if Inhabited(Get(s, "items").value) {
      item := Inhabitant(Get(s, "items").value);
    }
    hide WellFormed, CheckValue, Inhabited;
    v := Repeated(item, n, s);
  }

  /** Members of these names, each accepted by its definition. */
  lemma {:induction false} AcceptedMembers(s: Json, names: set<string>) returns (members: seq<Member>)
    requires WellFormed(s) && Proper(s) && TypeOf(s) == "object"
    requires forall name :: name in names ==> Declared(s, name) && Inhabited(Field(s, name).value)
    ensures Proper(Obj(members)) && Names(Obj(members)) == names && MembersPass(Obj(members), s)
    decreases s, 0, |names|
  {
    members := [];
    if names == {} {
      assert Names(Obj([])) == {};
    } else {
      hide WellFormed, CheckValue, Inhabited, Proper, Names, MembersPass;
      var name :| name in names;
      var x := AcceptedField(s, name);
      var rest := AcceptedMembers(s, names - {name});
      members := [Member(name, x)] + rest;
      AcceptedJoin(s, names, Member(name, x), rest);
    }
    hide WellFormed, CheckValue, Inhabited;
  }

  lemma {:induction false} AcceptedField(s: Json, name: string) returns (x: Json)
    requires WellFormed(s) && Proper(s) && TypeOf(s) == "object" && Declared(s, name) && Inhabited(Field(s, name).value)
    ensures Proper(x) && CheckValue(x, Field(s, name).value).Pass?
    decreases s, 0, 0
  {
    TypeIsDecided(s);
    ProperParts(s);
    FieldIsWellFormed(s, name);
    hide WellFormed, CheckValue, Inhabited, Proper;
    x := Inhabitant(Field(s, name).value);
  }

  lemma AcceptedJoin(s: Json, names: set<string>, member: Member, rest: seq<Member>)
    requires member.name in names && Proper(member.value) && Declared(s, member.name)
    requires CheckValue(member.value, Field(s, member.name).value).Pass?
    requires Proper(Obj(rest)) && Names(Obj(rest)) == names - {member.name} && MembersPass(Obj(rest), s)
    ensures var v := Obj([member] + rest); Proper(v) && Names(v) == names && MembersPass(v, s)
  {
    hide CheckValue, Proper, Names, MembersPass;
    NamesJoin(member, rest);
    ProperJoin(member, rest);
    MembersJoin(member, rest, s);
  }

  lemma MembersJoin(member: Member, rest: seq<Member>, s: Json)
    requires MembersPass(Obj(rest), s) && (Declared(s, member.name) ==> CheckValue(member.value, Field(s, member.name).value).Pass?)
    ensures MembersPass(Obj([member] + rest), s)
  {
    var all := [member] + rest;
    hide CheckValue;
    assert forall i :: 0 < i < |all| ==> all[i] == rest[i - 1] && Obj(rest).members[i - 1] == rest[i - 1];
  }

  lemma RequiredAreProperties(s: Json)
    requires WellFormed(s) && TypeOf(s) == "object"
    ensures Catalog.RequiredNames(s) <= Catalog.PropertyNames(s)
    ensures forall name :: name in Catalog.RequiredNames(s) ==> Declared(s, name)
  {
    TypeIsDecided(s);
    RequiredAreDeclared(s);
    forall name | name in Catalog.RequiredNames(s) ensures Declared(s, name) {
      DeclaredNames(s, name);
    }
    hide WellFormed;
  }

  /** An accepted object with the required members only. */
  lemma {:induction false} RecordInhabitant(s: Json) returns (v: Json)
    requires WellFormed(s) && Proper(s) && TypeOf(s) == "object" && Get(s, "enum").None? && Inhabited(s)
    ensures Proper(v) && CheckValue(v, s).Pass? && v.Obj? && Names(v) == Catalog.RequiredNames(s)
    decreases s, 1
  {
    RequiredAreProperties(s);
    assert forall name :: name in Catalog.RequiredNames(s) ==> Inhabited(Field(s, name).value);
    hide WellFormed, CheckValue, Inhabited, Proper;
    var members := AcceptedMembers(s, Catalog.RequiredNames(s));
    v := Obj(members);
    RecordAccepted(v, s);
    hide MembersPass;
  }

  lemma {:induction false} Inhabitant(s: Json) returns (v: Json)
    requires WellFormed(s) && Proper(s) && Inhabited(s)
    ensures Proper(v) && CheckValue(v, s).Pass?
    decreases s, 2
  {
    TypeIsDecided(s);
    if Get(s, "enum").Some? {
      ProperParts(s);
      var i :| 0 <= i < |Choices(s)| && CanPass(Choices(s)[i], s);
      v := Passing(Choices(s)[i], s);
    } else if TypeOf(s) == "array" {
      v := ListInhabitant(s);
    } else if TypeOf(s) == "object" {
      v := RecordInhabitant(s);
    } else {
      v := ScalarInhabitant(s);
    }
    hide WellFormed, CheckValue, CanPass;
  }

  /** A definition is inhabited if and only if some value is accepted. */
  lemma InhabitedExactly(s: Json)
    requires WellFormed(s) && Proper(s)
    ensures Inhabited(s) <==> exists v :: Proper(v) && CheckValue(v, s).Pass?
  {
    hide WellFormed, CheckValue, Inhabited, Proper;
    if Inhabited(s) {
      var v := Inhabitant(s);
    }
    forall v | Proper(v) && CheckValue(v, s).Pass? ensures Inhabited(s) {
      AcceptedIsInhabited(v, s);
    }
  }

  // ---- without choices the test is exact ----

  /** No definition in it lists choices. */
  ghost predicate Free(s: Json) {
    && Get(s, "enum").None?
    && (Get(s, "items").Some? ==> Free(Get(s, "items").value))
    && forall name :: name in Catalog.PropertyNames(s) && Declared(s, name) ==> Free(Field(s, name).value)
  }

  lemma ScalarMisfit(p: Json, c: Json) returns (v: Json)
    requires WellFormed(p) && WellFormed(c) && Get(p, "enum").None? && Get(c, "enum").None?
    requires TypeOf(p) !in {"array", "object"} && Inhabited(p) && !KindFits(p, c)
    ensures Proper(v) && CheckValue(v, p).Pass? && !CheckValue(v, c).Pass?
  {
    TypeIsDecided(p);
    TypeIsDecided(c);
    var t, u := TypeOf(p), TypeOf(c);
    v := ScalarInhabitant(p);
    ScalarAccepted(v, p);
    TypedCheck(v, c, u);
    if t == "number" {
      v := NumberMisfit(p, c);
    } else if t == u || (t == "integer" && u == "number") {
      if t != "boolean" {
        v := IntMisfit(p, c);
      }
    }
    hide WellFormed, CheckValue;
  }

  lemma NumberMisfit(p: Json, c: Json) returns (v: Json)
    requires WellFormed(p) && WellFormed(c) && Get(p, "enum").None? && Get(c, "enum").None?
    requires TypeOf(p) == "number" && Inhabited(p) && !KindFits(p, c)
    ensures Proper(v) && CheckValue(v, p).Pass? && !CheckValue(v, c).Pass?
  {
    TypeIsDecided(c);
    var u := TypeOf(c);
    var x := SomeReal(RangeOf(p, "number"));
    if u == "number" && BoundsAreNumbers(c, u) {
      x := RealsMisfit(RangeOf(p, "number"), RangeOf(c, u));
    }
    v := Float(x);
    hide WellFormed, CheckValue;
    PlainScalarAccepted(v, p);
    if u == "number" {
      PlainScalarAccepted(v, c);
    } else {
      OtherTypeRefuses(v, c);
    }
  }

  lemma OtherTypeRefuses(v: Json, c: Json)
    requires WellFormed(c) && !HasType(v, TypeOf(c))
    ensures !CheckValue(v, c).Pass?
  {
    TypeIsDecided(c);
    TypedCheck(v, c, TypeOf(c));
    hide WellFormed, CheckValue;
  }

  lemma IntMisfit(p: Json, c: Json) returns (v: Json)
    requires WellFormed(p) && WellFormed(c) && Get(p, "enum").None? && Get(c, "enum").None?
    requires TypeOf(p) in {"string", "integer"} && (TypeOf(c) == TypeOf(p) || (TypeOf(p) == "integer" && TypeOf(c) == "number"))
    requires Inhabited(p) && !KindFits(p, c)
    ensures Proper(v) && CheckValue(v, p).Pass? && !CheckValue(v, c).Pass?
  {
    var t, u := TypeOf(p), TypeOf(c);
    var r := if t == "string" then From(RangeOf(p, t), 0) else RangeOf(p, t);
    var n := SomeInt(r);
    if BoundsAreNumbers(c, u) {
      n := IntsMisfit(r, RangeOf(c, u));
    }
    assert IntWithin(n, RangeOf(p, t));
    v := ScalarOf(n, t);
    hide WellFormed, CheckValue;
    PlainScalarAccepted(v, p);
    PlainScalarAccepted(v, c);
  }

  lemma {:induction false} ListMisfit(p: Json, c: Json) returns (v: Json)
    requires WellFormed(p) && WellFormed(c) && Proper(p) && Proper(c) && Free(p) && Free(c)
    requires TypeOf(p) == "array" && Inhabited(p) && !KindFits(p, c)
    ensures Proper(v) && CheckValue(v, p).Pass? && !CheckValue(v, c).Pass?
    decreases p, 1
  {
    TypeIsDecided(p);
    ProperParts(p);
    if TypeOf(c) != "array" {
      v := ListInhabitant(p);
      ListAccepted(v, p);
      OtherTypeRefuses(v, c);
    } else if !BoundsAreNumbers(c, "array") {
      v := ListInhabitant(p);
      ListAccepted(v, p);
      ListAccepted(v, c);
      BoundsPassExactly(|v.items| as real, c, "array");
    } else if !IntsFit(Sizes(p), RangeOf(c, "array")) {
      v := SizeMisfit(p, c);
    } else {
      v := ItemMisfit(p, c);
    }
    hide WellFormed, CheckValue, Inhabited, Proper;
  }

  lemma {:induction false} ItemMisfit(p: Json, c: Json) returns (v: Json)
    requires WellFormed(p) && WellFormed(c) && Proper(p) && Proper(c) && Free(p) && Free(c)
    requires TypeOf(p) == "array" && TypeOf(c) == "array" && BoundsAreNumbers(p, "array")
    requires SomeInts(From(RangeOf(p, "array"), 1)) && !Fits(Get(p, "items").value, Get(c, "items").value)
    ensures Proper(v) && CheckValue(v, p).Pass? && !CheckValue(v, c).Pass?
    decreases p, 0
  {
    TypeIsDecided(p);
    ProperParts(p);
    TypeIsDecided(c);
    ProperParts(c);
    var n := SomeInt(From(RangeOf(p, "array"), 1));
    assert IntWithin(n, RangeOf(p, "array"));
    hide CheckValue, Fits, Proper;
    var item := Misfit(Get(p, "items").value, Get(c, "items").value);
    hide WellFormed, Free;
    v := Repeated(item, n, p);
    var again := Repeated(item, n, c);
    assert v == again;
  }

  lemma SizeMisfit(p: Json, c: Json) returns (v: Json)
    requires WellFormed(p) && WellFormed(c) && Proper(p) && Get(p, "enum").None? && Get(c, "enum").None?
    requires TypeOf(p) == "array" && TypeOf(c) == "array" && Inhabited(p) && BoundsAreNumbers(p, "array")
    requires Get(p, "items").Some? && BoundsAreNumbers(c, "array") && !IntsFit(Sizes(p), RangeOf(c, "array"))
    ensures Proper(v) && CheckValue(v, p).Pass? && !CheckValue(v, c).Pass?
  {
    TypeIsDecided(p);
    ProperParts(p);
    var n := IntsMisfit(Sizes(p), RangeOf(c, "array"));
    var item := Null;
    if Inhabited(Get(p, "items").value) {
      item := Inhabitant(Get(p, "items").value);
    }
    hide WellFormed, CheckValue, Inhabited;
    v := Repeated(item, n, p);
    var again := Repeated(item, n, c);
    assert v == again;
  }

  lemma {:induction false} RecordMisfit(p: Json, c: Json) returns (v: Json)
    requires WellFormed(p) && WellFormed(c) && Proper(p) && Proper(c) && Free(p) && Free(c)
    requires TypeOf(p) == "object" && Inhabited(p) && !KindFits(p, c)
    ensures Proper(v) && CheckValue(v, p).Pass? && !CheckValue(v, c).Pass?
    decreases p, 1
  {
    KindOfRecords(p, c);
    hide CheckValue, Inhabited, Open, KindFits, FieldsFit, Proper, Free, Catalog.RequiredNames, Catalog.PropertyNames;
    v := RecordInhabitant(p);
    if TypeOf(c) != "object" {
      assert !HasType(v, TypeOf(c));
      OtherTypeRefuses(v, c);
    } else if !(Catalog.RequiredNames(c) <= Catalog.RequiredNames(p)) {
      RecordAccepted(v, c);
    } else if Open(p) && !(Open(c) && Catalog.PropertyNames(c) <= Catalog.PropertyNames(p)) {
      v := OpenMisfit(p, c, v);
    } else {
      v := FieldMisfit(p, c, v);
    }
    hide WellFormed;
  }

  lemma KindOfRecords(p: Json, c: Json)
    requires TypeOf(p) == "object" && Free(p) && Free(c)
    ensures KindFits(p, c) <==> TypeOf(c) == "object" && FieldsFit(p, c)
    ensures Get(p, "enum").None? && Get(c, "enum").None?
  {
    hide FieldsFit;
  }

  /** Changing one member of an accepted object. */
  lemma Changed(v: Json, s: Json, name: string, x: Json)
    requires WellFormed(s) && TypeOf(s) == "object" && Get(s, "enum").None? && Proper(v) && Proper(x) && v.Obj?
    ensures Proper(With(v, name, x)) && name in Names(With(v, name, x))
    ensures CheckValue(v, s).Pass? && (Open(s) || name in Catalog.PropertyNames(s))
            && (Declared(s, name) ==> CheckValue(x, Field(s, name).value).Pass?)
            ==> CheckValue(With(v, name, x), s).Pass?
    ensures CheckValue(With(v, name, x), s).Pass? ==>
              && (Open(s) || name in Catalog.PropertyNames(s))
              && (Declared(s, name) ==> CheckValue(x, Field(s, name).value).Pass?)
  {
    RecordAccepted(v, s);
    RecordAccepted(With(v, name, x), s);
    WithIsProper(v, name, x);
    WithPasses(v, s, name, x);
    hide WellFormed, CheckValue, Open, MembersPass, Catalog.RequiredNames, Catalog.PropertyNames, Names, With, Proper;
  }

  /** An undeclared member, or null where the second definition declares one. */
  lemma OpenMisfit(p: Json, c: Json, v: Json) returns (w: Json)
    requires WellFormed(p) && WellFormed(c) && Get(p, "enum").None? && Get(c, "enum").None?
    requires TypeOf(p) == "object" && TypeOf(c) == "object" && Proper(v) && v.Obj? && CheckValue(v, p).Pass?
    requires Open(p) && !(Open(c) && Catalog.PropertyNames(c) <= Catalog.PropertyNames(p))
    ensures Proper(w) && CheckValue(w, p).Pass? && !CheckValue(w, c).Pass?
  {
    TypeIsDecided(p);
    TypeIsDecided(c);
    assert Proper(Null);
    hide CheckValue, Open, Proper, Names;
    var name := UnusedName(Catalog.PropertyNames(p) + Catalog.PropertyNames(c));
    if !(Catalog.PropertyNames(c) <= Catalog.PropertyNames(p)) {
      name :| name in Catalog.PropertyNames(c) && name !in Catalog.PropertyNames(p);
      DeclaredNames(c, name);
      FieldIsWellFormed(c, name);
      NullIsRefused(Field(c, name).value);
    }
    DeclaredNames(p, name);
    hide WellFormed;
    w := With(v, name, Null);
    Changed(v, p, name, Null);
    Changed(v, c, name, Null);
  }

  lemma {:induction false} FieldMisfit(p: Json, c: Json, v: Json) returns (w: Json)
    requires WellFormed(p) && WellFormed(c) && Proper(p) && Proper(c) && Free(p) && Free(c)
    requires TypeOf(p) == "object" && TypeOf(c) == "object" && Proper(v) && v.Obj? && CheckValue(v, p).Pass?
    requires Catalog.RequiredNames(c) <= Catalog.RequiredNames(p) && !FieldsFit(p, c)
    requires Open(p) ==> Open(c) && Catalog.PropertyNames(c) <= Catalog.PropertyNames(p)
    ensures Proper(w) && CheckValue(w, p).Pass? && !CheckValue(w, c).Pass?
    decreases p, 0
  {
    TypeIsDecided(p);
    TypeIsDecided(c);
    ProperParts(p);
    ProperParts(c);
    hide CheckValue, Open, Inhabited;
    var name :| name in Catalog.PropertyNames(p) && Declared(p, name)
                && !(if Declared(c, name) then Fits(Field(p, name).value, Field(c, name).value)
                     else Open(c) || !Inhabited(Field(p, name).value));
    FieldIsWellFormed(p, name);
    DeclaredNames(c, name);
    var x;
    if Declared(c, name) {
      FieldIsWellFormed(c, name);
      x := Misfit(Field(p, name).value, Field(c, name).value);
    } else {
      x := Inhabitant(Field(p, name).value);
    }
    hide WellFormed, Fits, Free;
    w := With(v, name, x);
    Changed(v, p, name, x);
    Changed(v, c, name, x);
  }

  /** A value that the first definition accepts and the second refuses. */
  lemma {:induction false} Misfit(p: Json, c: Json) returns (v: Json)
    requires WellFormed(p) && WellFormed(c) && Proper(p) && Proper(c) && Free(p) && Free(c) && !Fits(p, c)
    ensures Proper(v) && CheckValue(v, p).Pass? && !CheckValue(v, c).Pass?
    decreases p, 2
  {
    assert ChoicesFit(p, c);
    if TypeOf(p) == "array" {
      v := ListMisfit(p, c);
    } else if TypeOf(p) == "object" {
      v := RecordMisfit(p, c);
    } else {
      v := ScalarMisfit(p, c);
    }
    hide WellFormed, CheckValue, KindFits, Inhabited;
  }

  /**
   * The test is sound for all definitions; where neither lists choices it is exact: the second
   * accepts every value that the first accepts if and only if it fits.
   */
  lemma FitsExactly(p: Json, c: Json)
    requires WellFormed(p) && WellFormed(c) && Proper(p) && Proper(c)
    ensures Fits(p, c) ==> forall v :: Proper(v) && CheckValue(v, p).Pass? ==> CheckValue(v, c).Pass?
    ensures Free(p) && Free(c) && (forall v :: Proper(v) && CheckValue(v, p).Pass? ==> CheckValue(v, c).Pass?) ==> Fits(p, c)
  {
    hide WellFormed, CheckValue, Fits, Proper, Free;
    if Fits(p, c) {
      forall v | Proper(v) && CheckValue(v, p).Pass? ensures CheckValue(v, c).Pass? {
        FitsIsSound(v, p, c);
      }
    } else if Free(p) && Free(c) {
      var v := Misfit(p, c);
    }
  }

  /** For contracts: whole payloads are kept if the input schemas fit, and only if, where they list no choices. */
  lemma PayloadsAreKeptByTest(p: Json, c: Json)
    requires WellFormed(p) && WellFormed(c) && Proper(p) && Proper(c) && Typed(p, "object") && Typed(c, "object")
    ensures Fits(p, c) ==> KeepsPayloads(p, c)
    ensures Free(p) && Free(c) ==> (KeepsPayloads(p, c) <==> Fits(p, c))
  {
    hide WellFormed, CheckValue, Fits, Proper, Free, CheckObject, CheckDefinition;
    forall v ensures CheckObject(v, p) == CheckValue(v, p) && CheckObject(v, c) == CheckValue(v, c) {
      ObjectCheckParts(v, p);
      ObjectCheckParts(v, c);
    }
    FitsExactly(p, c);
  }
}
