/** Which compatible contract versions keep accepting whole payloads. */
module ContractPayloads {
  import opened Optional
  import opened SchemaSubset
  import opened SchemaMeaning
  import opened SchemaChoices
  import opened SchemaEscapes
  import opened ContractCatalog
  import opened ContractCompatibility

  // ---- what is accepted ----

  predicate Declared(s: Json, name: string) {
    Field(s, name).Some?
  }

  /** Every declared member passes its own definition. */
  predicate MembersPass(v: Json, s: Json)
    requires v.Obj?
  {
    forall i :: 0 <= i < |v.members| && Declared(s, v.members[i].name) ==>
      CheckValue(v.members[i].value, Field(s, v.members[i].name).value).Pass?
  }

  lemma DeclaredNames(s: Json, name: string)
    requires WellFormed(s) && Typed(s, "object")
    ensures Declared(s, name) <==> name in PropertyNames(s)
  {
    hide WellFormed;
  }

  /** The whole check of a payload, for a definition that does not list payloads. */
  lemma AcceptedExactly(v: Json, s: Json)
    requires Get(s, "enum").None?
    ensures CheckObject(v, s).Pass? <==>
              && WellFormed(s) && Typed(s, "object") && v.Obj? && RequiredNames(s) <= Names(v)
              && (Open(s) || Names(v) <= PropertyNames(s)) && MembersPass(v, s)
  {
    ObjectCheckParts(v, s);
    hide CheckObject, CheckDefinition, CheckNames, CheckValue, MembersPass, Open, Names, RequiredNames, PropertyNames;
    if WellFormed(s) && Typed(s, "object") {
      TypedCheck(v, s, "object");
      if v.Obj? {
        hide WellFormed;
        ObjectAccepted(v, s);
      }
    }
    hide WellFormed, CheckKind;
  }

  lemma ObjectAccepted(v: Json, s: Json)
    requires WellFormed(s) && Typed(s, "object") && v.Obj?
    ensures CheckKind(v, s).Pass? <==>
              RequiredNames(s) <= Names(v) && (Open(s) || Names(v) <= PropertyNames(s)) && MembersPass(v, s)
  {
    NamesDecided(v, s);
    var checks := MemberChecks(v, Get(s, "properties").value);
    assert CheckKind(v, s) == Then(CheckNames(v, s), First(checks));
    hide WellFormed, CheckNames, CheckValue, Open, Names, RequiredNames, PropertyNames, CheckKind;
    assert First(checks).Pass? <==> MembersPass(v, s);
  }

  // ---- changing one member ----

  function Without(members: seq<Member>, name: string): (rest: seq<Member>)
    ensures forall m :: m in rest <==> m in members && m.name != name
  {
    if members == [] then []
    else if members[0].name == name then Without(members[1..], name)
    else [members[0]] + Without(members[1..], name)
  }

  lemma {:induction false} WithoutIsProper(members: seq<Member>, name: string)
    requires Proper(Obj(members))
    ensures Proper(Obj(Without(members, name)))
  {
    if members != [] {
      var rest := members[1..];
      assert forall i :: 0 <= i < |rest| ==> rest[i] == members[i + 1];
      assert Proper(Obj(rest)) && Proper(members[0].value);
      WithoutIsProper(rest, name);
      if members[0].name != name {
        var kept := Without(rest, name);
        assert forall i :: 0 <= i < |kept| ==> kept[i] in kept && kept[i] in rest;
        ProperJoin(members[0], kept);
      }
    }
  }

  /** The payload with `x` under `name`, whatever was there. */
  function With(v: Json, name: string, x: Json): Json
    requires v.Obj?
  {
    Obj([Member(name, x)] + Without(v.members, name))
  }

  lemma WithIsProper(v: Json, name: string, x: Json)
    requires v.Obj? && Proper(v) && Proper(x)
    ensures Proper(With(v, name, x)) && Names(With(v, name, x)) == Names(v) + {name}
  {
    var rest := Without(v.members, name);
    WithoutIsProper(v.members, name);
    assert forall i :: 0 <= i < |rest| ==> rest[i] in rest;
    ProperJoin(Member(name, x), rest);
    NamesJoin(Member(name, x), rest);
    forall n ensures n in Names(Obj(rest)) <==> n in Names(v) && n != name {
      if n in Names(v) && n != name {
        var i :| 0 <= i < |v.members| && v.members[i].name == n;
        assert v.members[i] in rest;
      }
      if n in Names(Obj(rest)) {
        var i :| 0 <= i < |rest| && rest[i].name == n;
        assert rest[i] in v.members;
      }
    }
  }

  /** The new member decides, all others passing. */
  lemma WithPasses(v: Json, s: Json, name: string, x: Json)
    requires v.Obj?
    ensures Declared(s, name) && MembersPass(With(v, name, x), s) ==> CheckValue(x, Field(s, name).value).Pass?
    ensures MembersPass(v, s) && (Declared(s, name) ==> CheckValue(x, Field(s, name).value).Pass?)
            ==> MembersPass(With(v, name, x), s)
  {
    hide CheckValue;
    var w := With(v, name, x);
    assert w.members[0] == Member(name, x);
    forall i | 1 <= i < |w.members| && MembersPass(v, s) && Declared(s, w.members[i].name)
      ensures CheckValue(w.members[i].value, Field(s, w.members[i].name).value).Pass?
    {
      assert w.members[i] in Without(v.members, name);
      var j :| 0 <= j < |v.members| && v.members[j] == w.members[i];
    }
  }

  /** No definition accepts null. */
  lemma NullIsRefused(s: Json)
    requires WellFormed(s)
    ensures !CheckValue(Null, s).Pass?
  {
  }

  // ---- exactly ----

  /** Every value the field accepted before, it still accepts. */
  ghost predicate FieldWidens(p: Json, c: Json, name: string)
    requires Declared(p, name) && Declared(c, name)
  {
    forall x :: Proper(x) && CheckValue(x, Field(p, name).value).Pass? ==> CheckValue(x, Field(c, name).value).Pass?
  }

  /** Schema `c` lets through all that `p` lets through, field by field; an open `p` leaves no room for new fields. */
  ghost predicate Widens(p: Json, c: Json) {
    && WellFormed(c) && Typed(c, "object")
    && (Open(p) ==> Open(c) && PropertyNames(c) <= PropertyNames(p))
    && forall name :: name in PropertyNames(p) ==> Declared(p, name) && Declared(c, name) && FieldWidens(p, c, name)
  }

  ghost predicate KeepsPayloads(p: Json, c: Json) {
    forall v :: Proper(v) && CheckObject(v, p).Pass? ==> CheckObject(v, c).Pass?
  }

  lemma WideningKeeps(p: Json, c: Json, v: Json)
    requires Get(p, "enum").None? && Get(c, "enum").None? && RequiredNames(c) <= RequiredNames(p)
    requires PropertyNames(p) <= PropertyNames(c) && Widens(p, c) && Proper(v) && CheckObject(v, p).Pass?
    ensures CheckObject(v, c).Pass?
  {
    AcceptedExactly(v, p);
    AcceptedExactly(v, c);
    hide WellFormed, CheckObject, CheckValue, RequiredNames;
    forall i | 0 <= i < |v.members| && Declared(c, v.members[i].name)
      ensures CheckValue(v.members[i].value, Field(c, v.members[i].name).value).Pass?
    {
      var name := v.members[i].name;
      DeclaredNames(p, name);
      DeclaredNames(c, name);
      assert name in Names(v);
      assert FieldWidens(p, c, name);
    }
  }

  /** A payload that shows a field to be narrower, or an open schema to have lost its room. */
  lemma NarrowerFieldShows(p: Json, c: Json, v: Json, name: string, x: Json)
    requires Get(p, "enum").None? && Get(c, "enum").None? && Proper(v) && CheckObject(v, p).Pass? && Proper(x)
    requires name in PropertyNames(p) || Open(p)
    requires Declared(p, name) ==> CheckValue(x, Field(p, name).value).Pass?
    requires Declared(c, name) && !CheckValue(x, Field(c, name).value).Pass?
    ensures !KeepsPayloads(p, c)
  {
    AcceptedExactly(v, p);
    var w := With(v, name, x);
    WithIsProper(v, name, x);
    WithPasses(v, p, name, x);
    WithPasses(v, c, name, x);
    AcceptedExactly(w, p);
    AcceptedExactly(w, c);
    hide WellFormed, CheckObject, CheckValue, RequiredNames, MembersPass, PropertyNames, Names, With, Proper;
  }

  /** An accepted payload exists, and the definition does not list whole payloads. */
  ghost predicate ProperlyUsable(s: Json) {
    Get(s, "enum").None? && exists v :: Proper(v) && CheckObject(v, s).Pass?
  }

  /**
   * Compatible versions keep accepting every payload if and only if each field accepts all it
   * accepted before, and an old schema that is open has an open successor with no new fields.
   */
  lemma PayloadsAreKeptExactly(p: Contract, c: Contract)
    requires Compatible(p, c) && ProperlyUsable(p.inputSchema) && Get(c.inputSchema, "enum").None?
    ensures KeepsPayloads(p.inputSchema, c.inputSchema) <==> Widens(p.inputSchema, c.inputSchema)
  {
    var s, t := p.inputSchema, c.inputSchema;
    hide WellFormed, CheckObject, CheckValue, RequiredNames, PropertyNames, Names, Proper, Open;
    if Widens(s, t) {
      hide Widens;
      forall v | Proper(v) && CheckObject(v, s).Pass? ensures CheckObject(v, t).Pass? {
        WideningKeeps(s, t, v);
      }
    } else {
      var v :| Proper(v) && CheckObject(v, s).Pass?;
      hide Compatible, ProperlyUsable;
      OtherwiseOneIsLost(p, c, v);
    }
  }

  lemma OtherwiseOneIsLost(p: Contract, c: Contract, v: Json)
    requires Compatible(p, c) && Get(p.inputSchema, "enum").None? && Get(c.inputSchema, "enum").None?
    requires Proper(v) && CheckObject(v, p.inputSchema).Pass? && !Widens(p.inputSchema, c.inputSchema)
    ensures !KeepsPayloads(p.inputSchema, c.inputSchema)
  {
    var s, t := p.inputSchema, c.inputSchema;
    AcceptedExactly(v, s);
    AcceptedExactly(v, t);
    hide CheckObject, CheckValue, RequiredNames, PropertyNames, Names, Proper, MembersPass, Open, FieldWidens;
    if WellFormed(t) && Typed(t, "object") {
      hide WellFormed;
      if Open(s) && !(Open(t) && PropertyNames(t) <= PropertyNames(s)) {
        OpenSchemaLoses(s, t, v);
      } else {
        var name :| name in PropertyNames(s) && !(Declared(s, name) && Declared(t, name) && FieldWidens(s, t, name));
        DeclaredNames(s, name);
        DeclaredNames(t, name);
        FieldLoses(s, t, v, name);
      }
    }
  }

  lemma FieldLoses(p: Json, c: Json, v: Json, name: string)
    requires Get(p, "enum").None? && Get(c, "enum").None? && Proper(v) && CheckObject(v, p).Pass?
    requires name in PropertyNames(p) && Declared(p, name) && Declared(c, name) && !FieldWidens(p, c, name)
    ensures !KeepsPayloads(p, c)
  {
    var x :| Proper(x) && CheckValue(x, Field(p, name).value).Pass? && !CheckValue(x, Field(c, name).value).Pass?;
    hide CheckObject, CheckValue, PropertyNames, Proper, Open, KeepsPayloads;
    NarrowerFieldShows(p, c, v, name, x);
  }

  lemma OpenSchemaLoses(p: Json, c: Json, v: Json)
    requires Get(p, "enum").None? && Get(c, "enum").None? && Proper(v) && CheckObject(v, p).Pass?
    requires WellFormed(p) && Typed(p, "object") && WellFormed(c) && Typed(c, "object") && Open(p)
    requires !(Open(c) && PropertyNames(c) <= PropertyNames(p))
    ensures !KeepsPayloads(p, c)
  {
    hide CheckObject, CheckValue, PropertyNames, RequiredNames, Names, Open, KeepsPayloads, WellFormed;
    assert Proper(Null);
    hide Proper;
    if !(PropertyNames(c) <= PropertyNames(p)) {
      var name :| name in PropertyNames(c) && name !in PropertyNames(p);
      DeclaredNames(p, name);
      DeclaredNames(c, name);
      FieldIsWellFormed(c, name);
      NullIsRefused(Field(c, name).value);
      NarrowerFieldShows(p, c, v, name, Null);
    } else {
      ClosedSuccessorLoses(p, c, v);
    }
  }

  lemma FieldIsWellFormed(s: Json, name: string)
    requires WellFormed(s) && Typed(s, "object") && Declared(s, name)
    ensures WellFormed(Field(s, name).value)
  {
    PropertyIsWellFormed(s, name);
    hide WellFormed;
  }

  lemma ClosedSuccessorLoses(p: Json, c: Json, v: Json)
    requires Get(p, "enum").None? && Get(c, "enum").None? && Proper(v) && CheckObject(v, p).Pass?
    requires WellFormed(p) && Typed(p, "object") && Open(p) && !Open(c)
    ensures !KeepsPayloads(p, c)
  {
    AcceptedExactly(v, p);
    var name := UnusedName(Names(v) + PropertyNames(p) + PropertyNames(c));
    var w := With(v, name, Null);
    assert Proper(Null);
    WithIsProper(v, name, Null);
    DeclaredNames(p, name);
    WithPasses(v, p, name, Null);
    AcceptedExactly(w, p);
    AcceptedExactly(w, c);
    hide WellFormed, CheckObject, CheckValue, RequiredNames, PropertyNames, Names, MembersPass, With, Proper, Open;
    assert name in Names(w) && name !in PropertyNames(c);
  }
}
