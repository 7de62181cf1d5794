/** Operation contracts: what one must say about itself, and how a catalog pairs session controls. */
module ContractCatalog {
  import opened Lookup
  import opened Optional
  import opened SchemaSubset
  import opened SchemaMeaning

  datatype Lifecycle = DRAFT | GATEABLE | RELEASED | DEPRECATED
  datatype Classification = PUBLIC | INTERNAL | SENSITIVE | SECRET
  datatype Semantics = OBSERVATION | ACKNOWLEDGEMENT_ONLY | SESSION_HANDLE
  datatype Overhead = NEGLIGIBLE | BOUNDED | ELEVATED
  datatype Mode = REQUEST_RESPONSE | BOUNDED_STREAM | SESSION_START | SESSION_STOP
  datatype Risk = R0 | R1 | R2 | R3
  datatype Access = Read | Write

  /** A contract; of the texts it lists, only what the rules look at. */
  datatype Contract = Contract(
    contractId: string, operation: string, major: nat, lifecycle: Lifecycle, classification: Classification,
    semantics: Semantics, overhead: Overhead, mode: Mode, paired: Option<string>, replacement: Option<string>,
    compensation: Option<string>, risk: Risk, access: Access, cancelable: bool, maxDuration: real,
    inputSchema: Json, outputSchema: Json, placeholders: set<string>, preconditions: seq<string>,
    postconditions: seq<string>, sideEffects: seq<string>, resourceLocks: seq<string>, rateLimit: string,
    requiresQuiescence: bool)

  function PropertyNames(s: Json): set<string> {
    match Get(s, "properties") case None => {} case Some(p) => Names(p)
  }

  function RequiredNames(s: Json): set<string> {
    match Required(s) case None => {} case Some(names) => Texts(names)
  }

  // ---- one contract ----

  /** `schema.get("minimum", 0) > 0` and a maximum is given. */
  predicate PositivelyBounded(s: Json, name: string) {
    match Get(s, "properties")
    case None => false
    case Some(properties) =>
      match Get(properties, name)
      case None => false
      case Some(field) =>
        && Get(field, "minimum").Some? && Numeric(Get(field, "minimum").value) && Number(Get(field, "minimum").value) > 0.0
        && Get(field, "maximum").Some? && !Get(field, "maximum").value.Null?
  }

  function MaximumOf(s: Json, name: string): Option<Json> {
    match Get(s, "properties")
    case None => None
    case Some(properties) => match Get(properties, name) case None => None case Some(field) => Get(field, "maximum")
  }

  predicate DurationCovered(c: Contract) {
    var longest := MaximumOf(c.inputSchema, "duration_s");
    longest.Some? && Numeric(longest.value) && Number(longest.value) <= c.maxDuration
  }

  /** `_validate_execution_mode` does not raise. */
  predicate ModeAccepted(c: Contract) {
    var given, answered := RequiredNames(c.inputSchema), RequiredNames(c.outputSchema);
    match c.mode
    case REQUEST_RESPONSE => c.paired.None?
    case BOUNDED_STREAM =>
      && c.access.Read? && c.cancelable && c.risk.R1? && c.overhead.ELEVATED?
      && {"duration_s", "max_items", "max_bytes"} <= given
      && (forall name :: name in {"duration_s", "max_items", "max_bytes"} ==> PositivelyBounded(c.inputSchema, name))
      && DurationCovered(c)
      && {"status", "observed_at", "truncated"} <= answered
      && {"items", "artifact_ref"} * PropertyNames(c.outputSchema) != {}
      && c.paired.None?
    case SESSION_START =>
      && SessionRules(c) && {"ttl_s", "max_bytes"} <= given
      && (forall name :: name in {"ttl_s", "max_bytes"} ==> PositivelyBounded(c.inputSchema, name))
      && {"status", "session_id", "expires_at"} <= answered
    case SESSION_STOP => SessionRules(c) && "session_id" in given && {"status", "session_id"} <= answered
  }

  predicate SessionRules(c: Contract) {
    c.access.Write? && c.paired.Some? && c.paired.value != "" && c.sideEffects != [] && c.resourceLocks != []
  }

  function ExpectedSemantics(c: Contract): Semantics {
    if c.mode.SESSION_START? then SESSION_HANDLE else if c.access.Read? then OBSERVATION else ACKNOWLEDGEMENT_ONLY
  }

  /** `validate_contract` does not raise. */
  predicate ContractAccepted(c: Contract) {
    && c.contractId == c.operation && !c.classification.SECRET?
    && (if c.lifecycle.DEPRECATED? then c.replacement.Some? && c.replacement.value !in {"", c.operation} else c.replacement.None?)
    && !(c.access.Read? && c.risk in {R2, R3})
    && (c.requiresQuiescence ==> c.access.Write? && c.risk.R2? && c.maxDuration <= 115.0)
    && (c.access.Read? && c.risk.R1? ==> c.overhead.ELEVATED? && c.sideEffects != [] && c.rateLimit != "on_demand")
    && (c.access.Read? && c.risk.R0? ==> !c.overhead.ELEVATED?)
    && c.semantics == ExpectedSemantics(c)
    && (c.cancelable ==> c.access.Write? || c.mode.BOUNDED_STREAM?)
    && c.placeholders <= {"operation", "robot_id", "input_json"} + PropertyNames(c.inputSchema)
    && CheckDefinition(c.inputSchema).Pass? && CheckDefinition(c.outputSchema).Pass?
    && PropertyNames(c.outputSchema) != {}
    && (c.access.Write? ==> "status" in RequiredNames(c.outputSchema))
    && (c.risk.R3? ==> c.preconditions != [] && c.postconditions != [] && c.sideEffects != [] && c.resourceLocks != [])
    && ModeAccepted(c)
  }

  // ---- the catalog ----

  function OperationOf(c: Contract): string { c.operation }

  /** The mode a paired contract must have. */
  function Opposite(mode: Mode): Mode {
    if mode.SESSION_START? then SESSION_STOP else SESSION_START
  }

  predicate ReplacementFound(c: Contract, cs: seq<Contract>) {
    c.replacement.Some? ==> exists d :: d in cs && d.operation == c.replacement.value && !d.lifecycle.DEPRECATED?
  }

  predicate CompensationFound(c: Contract, cs: seq<Contract>) {
    && (c.compensation.Some? ==>
          exists d :: d in cs && d.operation == c.compensation.value && !d.lifecycle.DEPRECATED? && d.access.Write?)
    && (c.access.Write? && c.cancelable ==> c.compensation.Some?)
  }

  /** `d` is the contract that `c` is paired with, and it is paired with `c`. */
  predicate Pairs(c: Contract, d: Contract) {
    c.paired == Some(d.operation) && d.paired == Some(c.operation) && d.mode == Opposite(c.mode)
  }

  predicate PartnerFound(c: Contract, cs: seq<Contract>) {
    c.paired.Some? ==> exists d :: d in cs && Pairs(c, d)
  }

  predicate LinksFound(c: Contract, cs: seq<Contract>) {
    ReplacementFound(c, cs) && CompensationFound(c, cs) && PartnerFound(c, cs)
  }

  ghost predicate CatalogAccepted(cs: seq<Contract>) {
    DistinctKeys(cs, OperationOf) && forall c :: c in cs ==> LinksFound(c, cs)
  }

  /** With distinct operations a dictionary lookup finds the one contract of that operation. */
  lemma LookupFinds(cs: seq<Contract>, operation: string)
    requires DistinctKeys(cs, OperationOf)
    ensures var m := ById(cs, OperationOf);
            && (operation in m <==> exists d :: d in cs && d.operation == operation)
            && (operation in m ==> forall d :: d in cs && d.operation == operation ==> d == m[operation])
  {
    var m := ById(cs, OperationOf);
    forall d | d in cs && d.operation == operation ensures operation in m && m[operation] == d {
      var i :| 0 <= i < |cs| && cs[i] == d;
      DistinctKeysAreKept(cs, OperationOf, i);
    }
    if operation in m {
      assert m[operation] in cs && m[operation].operation == operation;
    }
  }

  /** One round of the loop of `reject_duplicates`. */
  method CheckLinks(c: Contract, cs: seq<Contract>, byOperation: map<string, Contract>) returns (ok: bool)
    requires DistinctKeys(cs, OperationOf) && byOperation == ById(cs, OperationOf)
    ensures ok <==> LinksFound(c, cs)
  {
    if c.replacement.Some? {
      LookupFinds(cs, c.replacement.value);
      if c.replacement.value !in byOperation || byOperation[c.replacement.value].lifecycle.DEPRECATED? {
        return false;
      }
    }
    assert ReplacementFound(c, cs);
    if c.compensation.Some? {
      LookupFinds(cs, c.compensation.value);
      if c.compensation.value !in byOperation || byOperation[c.compensation.value].lifecycle.DEPRECATED?
         || !byOperation[c.compensation.value].access.Write? {
        return false;
      }
    }
    if c.access.Write? && c.cancelable && c.compensation.None? {
      return false;
    }
    assert CompensationFound(c, cs);
    if c.paired.None? {
      return true;
    }
    LookupFinds(cs, c.paired.value);
    if c.paired.value !in byOperation {
      return false;
    }
    var paired := byOperation[c.paired.value];
    var expected := if c.mode.SESSION_START? then SESSION_STOP else SESSION_START;
    return paired.mode == expected && paired.paired == Some(c.operation);
  }

  /** The first `n` contracts passed their round. */
  ghost predicate LinkedSoFar(cs: seq<Contract>, n: nat)
    requires n <= |cs|
  {
    forall i :: 0 <= i < n ==> LinksFound(cs[i], cs)
  }

  /** `reject_duplicates`. */
  method RejectDuplicates(cs: seq<Contract>) returns (ok: bool)
    ensures ok <==> CatalogAccepted(cs)
  {
    hide LinksFound, DistinctKeys, Keys, ById;
    DistinctKeysByCount(cs, OperationOf);
    if |cs| != |Keys(cs, OperationOf)| {
      return false;
    }
    var byOperation := ById(cs, OperationOf);
    for i := 0 to |cs|
      invariant LinkedSoFar(cs, i)
    {
      var linked := CheckLinks(cs[i], cs, byOperation);
      if !linked {
        return false;
      }
    }
    return true;
  }

  // ---- session pairing ----

  ghost predicate Accepted(cs: seq<Contract>) {
    CatalogAccepted(cs) && forall c :: c in cs ==> ContractAccepted(c)
  }

  predicate SessionControl(c: Contract) {
    c.mode.SESSION_START? || c.mode.SESSION_STOP?
  }

  /**
   * In an accepted catalog exactly the session controls are paired.  Each has one partner, another
   * contract of the opposite mode, whose partner it is in turn.
   */
  lemma PairingIsAnInvolution(cs: seq<Contract>, c: Contract)
    requires Accepted(cs) && c in cs
    ensures c.paired.Some? <==> SessionControl(c)
    ensures SessionControl(c) ==>
              exists d :: d in cs && Pairs(c, d) && Pairs(d, c) && d != c && SessionControl(d)
                          && forall e :: e in cs && e.operation == c.paired.value ==> e == d
  {
    hide DistinctKeys, ContractAccepted, ReplacementFound, CompensationFound;
    OnlySessionsArePaired(c);
    if SessionControl(c) {
      assert LinksFound(c, cs);
      var d :| d in cs && Pairs(c, d);
      LookupFinds(cs, c.paired.value);
      OnlySessionsArePaired(d);
      assert Pairs(d, c) && d != c;
    }
  }

  lemma OnlySessionsArePaired(c: Contract)
    requires ContractAccepted(c)
    ensures c.paired.Some? <==> SessionControl(c)
  {
    hide PositivelyBounded, CheckDefinition, PropertyNames, RequiredNames, DurationCovered;
  }

  function OfMode(cs: seq<Contract>, mode: Mode): set<Contract> {
    set c | c in cs && c.mode == mode
  }

  /** If each of `some` has its own partner in `others`, there are no more of them. */
  lemma {:induction false} PartnersAreAsMany(some: set<Contract>, others: set<Contract>)
    requires forall c :: c in some ==> exists d :: d in others && Pairs(c, d)
    requires forall c, e :: c in some && e in some && c.operation == e.operation ==> c == e
    ensures |some| <= |others|
  {
    if some != {} {
      var c :| c in some;
      var d :| d in others && Pairs(c, d);
      forall e | e in some - {c} ensures exists f :: f in others - {d} && Pairs(e, f) {
        var f :| f in others && Pairs(e, f);
        assert f != d;
      }
      PartnersAreAsMany(some - {c}, others - {d});
    }
  }

  /** As many sessions can be stopped as can be started. */
  lemma StartsAndStopsAreAsMany(cs: seq<Contract>)
    requires Accepted(cs)
    ensures |OfMode(cs, SESSION_START)| == |OfMode(cs, SESSION_STOP)|
  {
    OneSideHasPartners(cs, SESSION_START);
    OneSideHasPartners(cs, SESSION_STOP);
  }

  lemma OneSideHasPartners(cs: seq<Contract>, mode: Mode)
    requires Accepted(cs) && mode in {SESSION_START, SESSION_STOP}
    ensures |OfMode(cs, mode)| <= |OfMode(cs, Opposite(mode))|
  {
    hide ContractAccepted, ReplacementFound, CompensationFound, DistinctKeys;
    forall c | c in OfMode(cs, mode) ensures exists d :: d in OfMode(cs, Opposite(mode)) && Pairs(c, d) {
      PairingIsAnInvolution(cs, c);
      var d :| d in cs && Pairs(c, d);
      assert d in OfMode(cs, Opposite(mode));
    }
    forall c, e | c in cs && e in cs && c.operation == e.operation ensures c == e {
      LookupFinds(cs, c.operation);
    }
    PartnersAreAsMany(OfMode(cs, mode), OfMode(cs, Opposite(mode)));
  }

  /** A deprecated contract is replaced by one that is itself not replaced: no chains, no cycles. */
  lemma ReplacementIsFinal(cs: seq<Contract>, c: Contract)
    requires Accepted(cs) && c in cs && c.replacement.Some?
    ensures c.lifecycle.DEPRECATED?
    ensures exists d :: d in cs && d.operation == c.replacement.value && d.replacement.None? && d != c
  {
    hide DistinctKeys;
    assert LinksFound(c, cs);
    var d :| d in cs && d.operation == c.replacement.value && !d.lifecycle.DEPRECATED?;
    assert d.replacement.None?;
  }
}
