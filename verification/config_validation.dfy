/**
 * Validation of a provider configuration on top of its defaults (catalog/connector_validation.go:233-282, 313-361). The type
 * check and the checks of a single value (options, length, pattern, range) are given with each field.
 */
module ConfigValidation {
  import opened GoStrings
  import opened ConfigDefaults

  /** `ruleFault` names the first rule a value breaks. */
  datatype Schema = Schema(field: Field, required: bool, typeOk: Value -> bool, ruleFault: Value -> Option<string>)

  datatype Fault =
    | Unknown(key: string)
    | Required(key: string)
    | TypeInvalid(key: string)
    | RequiredWith(key: string, dependency: string)
    | RuleBroken(key: string, rule: string)

  function Fields(schemas: seq<Schema>): (r: seq<Field>) {
    seq(|schemas|, i requires 0 <= i < |schemas| => schemas[i].field)
  }

  /** The keys a configuration may use: extra ones of the connector, those of the fields, and those they are required with. */
  function Declared(schemas: seq<Schema>, extra: set<string>): set<string> {
    if schemas == [] then extra
    else
      var last := schemas[|schemas| - 1].field;
      Declared(schemas[..|schemas| - 1], extra) + {TrimSpace(last.key)} + set d | d in last.requiredWith
  }

  /** A declared key is one of these. */
  ghost predicate SomeIsOf(schemas: seq<Schema>, key: string) {
    exists i :: 0 <= i < |schemas| && IsOf(schemas[i].field, key)
  }

  lemma OneMoreIsOf(schemas: seq<Schema>, key: string)
    requires schemas != []
    ensures var n := |schemas| - 1; SomeIsOf(schemas, key) <==> SomeIsOf(schemas[..n], key) || IsOf(schemas[n].field, key)
  {
    var n := |schemas| - 1;
    assert forall i :: 0 <= i < n ==> schemas[..n][i] == schemas[i];
  }

  lemma {:induction false} DeclaredExactly(schemas: seq<Schema>, extra: set<string>, key: string)
    ensures key in Declared(schemas, extra) <==> key in extra || SomeIsOf(schemas, key)
  {
    if schemas != [] {
      OneMoreIsOf(schemas, key);
      DeclaredExactly(schemas[..|schemas| - 1], extra, key);
    }
  }

  /** The field's own key, or one it is required with. */
  predicate IsOf(field: Field, key: string) {
    key == TrimSpace(field.key) || key in field.requiredWith
  }

  function FirstMissing(dependencies: seq<string>, config: Config): Option<string> {
    if dependencies == [] then None
    else if !Filled(config, dependencies[0]) then Some(dependencies[0])
    else FirstMissing(dependencies[1..], config)
  }

  function ValueFault(s: Schema, config: Config): Option<Fault>
    requires s.field.key in config
  {
    var value := config[s.field.key];
    var missing := if Empty(value) then None else FirstMissing(s.field.requiredWith, config);
    if missing.Some? then Some(RequiredWith(s.field.key, missing.value))
    else match s.ruleFault(value)
         case None => None
         case Some(rule) => Some(RuleBroken(s.field.key, rule))
  }

  function FieldFault(s: Schema, config: Config): Option<Fault> {
    if s.required && !Filled(config, s.field.key) then Some(Required(s.field.key))
    else if s.field.key !in config then None
    else if !s.typeOk(config[s.field.key]) then Some(TypeInvalid(s.field.key))
    else ValueFault(s, config)
  }

  ghost predicate IsFirstFault(schemas: seq<Schema>, config: Config, i: nat) {
    && i < |schemas| && FieldFault(schemas[i], config).Some?
    && forall m :: 0 <= m < i ==> FieldFault(schemas[m], config) == None
  }

  predicate IsUnknown(declared: set<string>, config: Config, key: string) {
    key in config && TrimSpace(key) !in declared
  }

  /** The verdict on a configuration with its defaults: some unknown key, else the fault of the first faulty field, else none. */
  ghost predicate IsVerdict(schemas: seq<Schema>, declared: set<string>, config: Config, fault: Option<Fault>) {
    if exists key :: IsUnknown(declared, config, key) then
      fault.Some? && fault.value.Unknown? && IsUnknown(declared, config, fault.value.key)
    else if exists i: nat :: IsFirstFault(schemas, config, i) then
      exists i: nat :: IsFirstFault(schemas, config, i) && fault == FieldFault(schemas[i], config)
    else
      fault == None && forall i :: 0 <= i < |schemas| ==> FieldFault(schemas[i], config) == None
  }

  // ---- The operations ----

  method ValidateFieldValue(s: Schema, config: Config) returns (fault: Option<Fault>)
    requires s.field.key in config
    ensures fault == ValueFault(s, config)
  {
    var value := config[s.field.key];
    var dependencies := s.field.requiredWith;
    if !Empty(value) {
      for k := 0 to |dependencies|
        invariant FirstMissing(dependencies, config) == FirstMissing(dependencies[k..], config)
      {
        if !Filled(config, dependencies[k]) {
          return Some(RequiredWith(s.field.key, dependencies[k]));
        }
      }
    }
    var broken := s.ruleFault(value);
    if broken.Some? {
      return Some(RuleBroken(s.field.key, broken.value));
    }
    return None;
  }

  /** The keys are looked at in no particular order. */
  method FindUnknown(declared: set<string>, config: Config) returns (r: Option<string>)
    ensures match r
            case None => forall key :: !IsUnknown(declared, config, key)
            case Some(key) => IsUnknown(declared, config, key)
  {
    var keys := config.Keys;
    while keys != {}
      invariant keys <= config.Keys && forall key :: key in config && key !in keys ==> TrimSpace(key) in declared
      decreases keys
    {
      var key :| key in keys;
      if TrimSpace(key) !in declared {
        return Some(key);
      }
      keys := keys - {key};
    }
    return None;
  }

  method DeclaredKeys(schemas: seq<Schema>, extra: set<string>) returns (declared: set<string>)
    ensures declared == Declared(schemas, extra)
    ensures forall key :: key in declared <==> key in extra || exists i :: 0 <= i < |schemas| && IsOf(schemas[i].field, key)
  {
    declared := extra;
    for k := 0 to |schemas|
      invariant declared == Declared(schemas[..k], extra)
    {
      assert schemas[..k + 1][..k] == schemas[..k];
      declared := declared + {TrimSpace(schemas[k].field.key)} + set d | d in schemas[k].field.requiredWith;
    }
    assert schemas[..|schemas|] == schemas;
    forall key
      ensures key in declared <==> key in extra || exists i :: 0 <= i < |schemas| && IsOf(schemas[i].field, key)
    {
      DeclaredExactly(schemas, extra, key);
    }
  }

  /** `provider` holds the fields of the first provider with the requested key; without one everything is accepted. */
  method ValidateProviderConfig(provider: Option<seq<Schema>>, extra: set<string>, config: Config) returns (fault: Option<Fault>)
    ensures match provider
            case None => fault == None
            case Some(schemas) => IsVerdict(schemas, Declared(schemas, extra), Pass(Fields(schemas), config), fault)
  {
    if provider.None? {
      return None;
    }
    var schemas := provider.value;
    var complete := ApplyProviderConfigDefaults([Provider("", Fields(schemas))], "", config);
    var declared := DeclaredKeys(schemas, extra);
    var unknown := FindUnknown(declared, complete);
    if unknown.Some? {
      return Some(Unknown(unknown.value));
    }
    for i := 0 to |schemas|
      invariant forall m :: 0 <= m < i ==> FieldFault(schemas[m], complete) == None
    {
      var s := schemas[i];
      if s.required && !Filled(complete, s.field.key) {
        assert IsFirstFault(schemas, complete, i);
        return Some(Required(s.field.key));
      }
      if s.field.key in complete {
        if !s.typeOk(complete[s.field.key]) {
          assert IsFirstFault(schemas, complete, i);
          return Some(TypeInvalid(s.field.key));
        }
        fault := ValidateFieldValue(s, complete);
        if fault.Some? {
          assert IsFirstFault(schemas, complete, i);
          return fault;
        }
      }
    }
    return None;
  }

  // ---- What validation and defaults do together ----

  lemma {:induction false} NothingMissing(dependencies: seq<string>, config: Config)
    ensures FirstMissing(dependencies, config) == None <==>
            forall k :: 0 <= k < |dependencies| ==> Filled(config, dependencies[k])
  {
    if dependencies != [] {
      NothingMissing(dependencies[1..], config);
      assert forall k :: 1 <= k < |dependencies| ==> dependencies[k] == dependencies[1..][k - 1];
    }
  }

  /** The first dependency without a value. */
  ghost predicate IsFirstMissing(dependencies: seq<string>, config: Config, k: nat) {
    k < |dependencies| && !Filled(config, dependencies[k]) && forall m :: 0 <= m < k ==> Filled(config, dependencies[m])
  }

  lemma {:induction false} FirstMissingIs(dependencies: seq<string>, config: Config, k: nat)
    requires IsFirstMissing(dependencies, config, k)
    ensures FirstMissing(dependencies, config) == Some(dependencies[k])
  {
    if k > 0 {
      var rest := dependencies[1..];
      assert forall m :: 0 <= m < |rest| ==> rest[m] == dependencies[m + 1];
      FirstMissingIs(rest, config, k - 1);
    }
  }

  /** The faults of one field, in the order of their checks. Dependencies only matter for a value that is not empty. */
  lemma FieldFaultIs(s: Schema, config: Config)
    ensures var key, fault := s.field.key, FieldFault(s, config);
            && (s.required && !Filled(config, key) ==> fault == Some(Required(key)))
            && (!s.required && key !in config ==> fault == None)
            && (key in config && !(s.required && Empty(config[key])) ==>
                  && (!s.typeOk(config[key]) ==> fault == Some(TypeInvalid(key)))
                  && (s.typeOk(config[key]) && (Empty(config[key]) || Ready(s.field, config)) ==>
                        fault == match s.ruleFault(config[key]) case None => None case Some(rule) => Some(RuleBroken(key, rule)))
                  && (s.typeOk(config[key]) && !Empty(config[key]) ==>
                        forall k: nat :: IsFirstMissing(s.field.requiredWith, config, k) ==>
                          fault == Some(RequiredWith(key, s.field.requiredWith[k]))))
  {
    NothingMissing(s.field.requiredWith, config);
    forall k: nat | IsFirstMissing(s.field.requiredWith, config, k)
      ensures FirstMissing(s.field.requiredWith, config) == Some(s.field.requiredWith[k])
    {
      FirstMissingIs(s.field.requiredWith, config, k);
    }
  }

  /** Accepted means: every key declared, and every field present if required, well typed, complete and within its rules. */
  lemma AcceptedExactly(schemas: seq<Schema>, declared: set<string>, config: Config)
    ensures IsVerdict(schemas, declared, config, None) <==>
            && (forall key :: key in config ==> TrimSpace(key) in declared)
            && forall i :: 0 <= i < |schemas| ==>
                 var s := schemas[i];
                 && (s.required ==> Filled(config, s.field.key))
                 && (s.field.key in config ==>
                       var value := config[s.field.key];
                       s.typeOk(value) && s.ruleFault(value) == None && (Empty(value) || Ready(s.field, config)))
  {
    forall i | 0 <= i < |schemas|
      ensures FirstMissing(schemas[i].field.requiredWith, config) == None <==> Ready(schemas[i].field, config)
    {
      NothingMissing(schemas[i].field.requiredWith, config);
    }
    forall key | key in config
      ensures IsUnknown(declared, config, key) <==> TrimSpace(key) !in declared
    {
    }
    if i: nat :| i < |schemas| && FieldFault(schemas[i], config).Some? {
      var first := FirstFault(schemas, config, i);
    }
  }

  lemma {:induction false} FirstFault(schemas: seq<Schema>, config: Config, i: nat) returns (first: nat)
    requires i < |schemas| && FieldFault(schemas[i], config).Some?
    ensures IsFirstFault(schemas, config, first)
    decreases i
  {
    if m: nat :| m < i && FieldFault(schemas[m], config).Some? {
      first := FirstFault(schemas, config, m);
    } else {
      first := i;
    }
  }

  /** Every default passes the checks of its own field. */
  ghost predicate GoodDefaults(schemas: seq<Schema>) {
    forall i :: 0 <= i < |schemas| && schemas[i].field.default != Null ==>
      schemas[i].typeOk(schemas[i].field.default) && schemas[i].ruleFault(schemas[i].field.default) == None
  }

  /** Every supplied field is without fault. */
  ghost predicate SuppliedIsValid(schemas: seq<Schema>, config: Config) {
    forall i :: 0 <= i < |schemas| && schemas[i].field.key in config ==> FieldFault(schemas[i], config) == None
  }

  lemma SuppliedIsSatisfied(schemas: seq<Schema>, config: Config)
    requires SuppliedIsValid(schemas, config)
    ensures Satisfied(Fields(schemas), config)
  {
    forall i | 0 <= i < |schemas| && Filled(config, schemas[i].field.key)
      ensures Ready(schemas[i].field, config)
    {
      assert FieldFault(schemas[i], config) == None;
      NothingMissing(schemas[i].field.requiredWith, config);
    }
  }

  /** The value a pass leaves in a field was supplied or is its default. */
  lemma ValueComesFrom(schemas: seq<Schema>, config: Config, i: nat)
    requires i < |schemas| && UniqueKeys(Fields(schemas)) && schemas[i].field.key in Pass(Fields(schemas), config)
    ensures var key, value := schemas[i].field.key, Pass(Fields(schemas), config)[schemas[i].field.key];
            if key in config then value == config[key] else value == schemas[i].field.default != Null
  {
    var fields := Fields(schemas);
    PassExtends(fields, config);
    if schemas[i].field.key !in config {
      var j :| 0 <= j < |fields| && fields[j].key == schemas[i].field.key && fields[j].default != Null
               && Pass(fields, config)[schemas[i].field.key] == fields[j].default;
      assert fields[i].key == fields[j].key;
      assert i == j;
    }
  }

  /**
   * Defaults never put a configuration in the wrong: when the supplied fields are valid and every default is good, the only
   * fault that can be left is a required field that was not supplied and has nothing filled in for it.
   */
  lemma DefaultsKeepValid(schemas: seq<Schema>, config: Config, i: nat)
    requires UniqueKeys(Fields(schemas)) && GoodDefaults(schemas) && SuppliedIsValid(schemas, config) && i < |schemas|
    ensures var s, complete := schemas[i], Pass(Fields(schemas), config);
            FieldFault(s, complete) == if s.required && !Filled(complete, s.field.key) then Some(Required(s.field.key)) else None
    ensures schemas[i].field.key in config ==> FieldFault(schemas[i], Pass(Fields(schemas), config)) == None
  {
    var s, fields := schemas[i], Fields(schemas);
    var complete := Pass(fields, config);
    assert fields[..|fields|] == fields && fields[i] == s.field;
    PassExtends(fields, config);
    SuppliedIsSatisfied(schemas, config);
    PassKeepsSatisfied(fields, config, |fields|);
    NothingMissing(s.field.requiredWith, complete);
    if s.field.key in complete {
      ValueComesFrom(schemas, config, i);
      assert !Empty(complete[s.field.key]) ==> Ready(fields[i], complete);
      if s.field.key in config {
        assert FieldFault(s, config) == None;
      }
    }
  }

  /** When no field is overtaken by a later one, filling in the defaults first does not change the verdict. */
  lemma VerdictOfCompleted(schemas: seq<Schema>, declared: set<string>, config: Config, fault: Option<Fault>)
    requires !HasOvertaken(Fields(schemas))
    ensures var once := Pass(Fields(schemas), config);
            IsVerdict(schemas, declared, Pass(Fields(schemas), once), fault) <==> IsVerdict(schemas, declared, once, fault)
  {
    NotOvertakenIsFixed(Fields(schemas), config);
  }

  /** Filling in the defaults first turns a rejection into an acceptance. */
  ghost predicate Cured(schemas: seq<Schema>, declared: set<string>, config: Config) {
    var once := Pass(Fields(schemas), config);
    !IsVerdict(schemas, declared, once, None) && IsVerdict(schemas, declared, Pass(Fields(schemas), once), None)
  }

  /** A second pass that fills nothing cures nothing. */
  lemma NothingCured(schemas: seq<Schema>, declared: set<string>, config: Config)
    requires !HasOvertakenValue(Fields(schemas))
    ensures !Cured(schemas, declared, config)
  {
    var fields := Fields(schemas);
    var once, twice := Pass(fields, config), Pass(fields, Pass(fields, config));
    PassExtends(fields, once);
    if IsVerdict(schemas, declared, twice, None) {
      forall key | Filled(twice, key)
        ensures Filled(once, key)
      {
        if !Filled(once, key) {
          FilledLate(fields, config, key);
        }
      }
      AcceptedExactly(schemas, declared, twice);
      AcceptedBefore(schemas, declared, once, twice);
    }
  }

  /** What is accepted stays so when only empty values are taken away. */
  lemma AcceptedBefore(schemas: seq<Schema>, declared: set<string>, once: Config, twice: Config)
    requires Extends(twice, once) && forall key :: Filled(twice, key) ==> Filled(once, key)
    requires IsVerdict(schemas, declared, twice, None)
    ensures IsVerdict(schemas, declared, once, None)
  {
    AcceptedExactly(schemas, declared, twice);
    forall i | 0 <= i < |schemas| && Ready(schemas[i].field, twice)
      ensures Ready(schemas[i].field, once)
    {
      forall k | 0 <= k < |schemas[i].field.requiredWith|
        ensures Filled(once, schemas[i].field.requiredWith[k])
      {
        assert Filled(twice, schemas[i].field.requiredWith[k]);
      }
    }
    AcceptedExactly(schemas, declared, once);
  }

  /** Every value passes; only field `i` is required. */
  ghost function OneRequired(fields: seq<Field>, i: nat): (r: seq<Schema>)
    ensures Fields(r) == fields && forall k :: 0 <= k < |r| ==> r[k] == Unchecked(fields[k], k == i)
  {
    var r := seq(|fields|, k requires 0 <= k < |fields| => Unchecked(fields[k], k == i));
    assert Fields(r) == fields;
    r
  }

  function Unchecked(field: Field, required: bool): Schema {
    Schema(field, required, (v: Value) => true, (v: Value) => None)
  }

  /** An overtaken field with a value can be the one that is required. */
  lemma CuredWhenOvertaken(fields: seq<Field>, i: nat, j: nat) returns (schemas: seq<Schema>, declared: set<string>, config: Config)
    requires UniqueKeys(fields) && i < j < |fields| && Overtaken(fields[i], fields[j]) && !Empty(fields[i].default)
    ensures Fields(schemas) == fields && GoodDefaults(schemas) && Cured(schemas, declared, config)
  {
    var f, g := fields[i], fields[j];
    schemas, config := OneRequired(fields, i), Needs(fields, f, g);
    var once, twice := Pass(fields, config), Pass(fields, Pass(fields, config));
    declared := set key | key in twice :: TrimSpace(key);
    OvertakenIsLate(fields, i, j);
    PassExtends(fields, config);
    PassExtends(fields, once);
    RequiredIsMissed(fields, i, declared, once);
    forall k | 0 <= k < |fields|
      ensures Ready(fields[k], twice)
    {
      AllButTwo(fields, f, g, fields[k], twice);
    }
    RequiredIsThere(fields, i, declared, twice);
  }

  lemma RequiredIsMissed(fields: seq<Field>, i: nat, declared: set<string>, config: Config)
    requires i < |fields| && fields[i].key !in config
    ensures !IsVerdict(OneRequired(fields, i), declared, config, None)
  {
    var schemas := OneRequired(fields, i);
    AcceptedExactly(schemas, declared, config);
    assert schemas[i].required && schemas[i].field == fields[i];
  }

  lemma RequiredIsThere(fields: seq<Field>, i: nat, declared: set<string>, config: Config)
    requires i < |fields| && Filled(config, fields[i].key) && forall k :: 0 <= k < |fields| ==> Ready(fields[k], config)
    requires forall key :: key in config ==> TrimSpace(key) in declared
    ensures IsVerdict(OneRequired(fields, i), declared, config, None)
  {
    AcceptedExactly(OneRequired(fields, i), declared, config);
  }

  lemma AllButTwo(fields: seq<Field>, f: Field, g: Field, h: Field, config: Config)
    requires h in fields && Extends(config, Needs(fields, f, g)) && Filled(config, f.key) && Filled(config, g.key)
    ensures Ready(h, config)
  {
    forall k | 0 <= k < |h.requiredWith|
      ensures Filled(config, h.requiredWith[k])
    {
      if h.requiredWith[k] != f.key && h.requiredWith[k] != g.key {
        IsSupplied(fields, f, g, h, h.requiredWith[k]);
      }
    }
  }

  /**
   * For a list of fields with unique keys: some checks and some configuration are rejected as supplied and accepted with their
   * defaults filled in exactly when a field whose default is a value is overtaken by a later one.
   */
  lemma CuredExactly(fields: seq<Field>)
    requires UniqueKeys(fields)
    ensures (exists schemas, declared, config :: Fields(schemas) == fields && Cured(schemas, declared, config))
            <==> HasOvertakenValue(fields)
  {
    if HasOvertakenValue(fields) {
      var i, j :| 0 <= i < j < |fields| && Overtaken(fields[i], fields[j]) && !Empty(fields[i].default);
      var schemas, declared, config := CuredWhenOvertaken(fields, i, j);
    } else {
      forall schemas, declared, config | Fields(schemas) == fields
        ensures !Cured(schemas, declared, config)
      {
        NothingCured(schemas, declared, config);
      }
    }
  }

  /** The other way round it cannot happen as long as every default passes the checks of its own field. */
  lemma AcceptanceIsKept(schemas: seq<Schema>, declared: set<string>, config: Config)
    requires UniqueKeys(Fields(schemas)) && GoodDefaults(schemas)
    requires forall i :: 0 <= i < |schemas| ==> TrimSpace(schemas[i].field.key) in declared
    requires IsVerdict(schemas, declared, Pass(Fields(schemas), config), None)
    ensures IsVerdict(schemas, declared, Pass(Fields(schemas), Pass(Fields(schemas), config)), None)
  {
    var fields := Fields(schemas);
    var once, twice := Pass(fields, config), Pass(fields, Pass(fields, config));
    PassExtends(fields, once);
    AcceptedExactly(schemas, declared, once);
    assert forall i :: 0 <= i < |schemas| ==> FieldFault(schemas[i], once) == None;
    forall i | 0 <= i < |schemas|
      ensures FieldFault(schemas[i], twice) == None
    {
      DefaultsKeepValid(schemas, once, i);
    }
    forall key | key in twice
      ensures TrimSpace(key) in declared
    {
      if key !in once {
        var i :| 0 <= i < |fields| && fields[i].key == key;
        assert schemas[i].field.key == key;
      }
    }
    assert forall key :: !IsUnknown(declared, twice, key);
  }

  /** "a" is required and waits for "b", which comes after it. */
  const A := Field("a", Number(1.0), ["b"])
  const B := Field("b", Number(2.0), [])

  const ONCE: Config := map["b" := Number(2.0)]
  const TWICE: Config := map["b" := Number(2.0), "a" := Number(1.0)]

  lemma TwoPasses()
    ensures Pass([A, B], map[]) == ONCE && Pass([A, B], ONCE) == TWICE
    ensures Ready(A, TWICE) && Ready(B, TWICE)
  {
    var empty: Config := map[];
    assert !Filled(empty, A.requiredWith[0]);
    PassOfTwo(A, B, empty);
    assert Filled(ONCE, "b") && Ready(A, ONCE);
    PassOfTwo(A, B, ONCE);
  }

  /** The smallest case: the second round accepts what the first rejects. */
  lemma UnorderedVerdictChanges()
    ensures var schemas := [Unchecked(A, true), Unchecked(B, false)];
            var once := Pass(Fields(schemas), map[]);
            && IsVerdict(schemas, {"a", "b"}, once, Some(Required("a")))
            && IsVerdict(schemas, {"a", "b"}, Pass(Fields(schemas), once), None)
  {
    var schemas := [Unchecked(A, true), Unchecked(B, false)];
    assert Fields(schemas) == [A, B];
    TwoPasses();
    TrimmedIsFixed("a");
    TrimmedIsFixed("b");
    assert FieldFault(schemas[0], ONCE) == Some(Required("a"));
    assert IsFirstFault(schemas, ONCE, 0);
    AcceptedExactly(schemas, {"a", "b"}, TWICE);
  }

  /** And with a default that fails its own check, the second round rejects what the first accepts. */
  lemma BadDefaultIsRejectedLate()
    ensures var schemas := [Unchecked(A, false).(typeOk := (v: Value) => false), Unchecked(B, false)];
            var once := Pass(Fields(schemas), map[]);
            && IsVerdict(schemas, {"a", "b"}, once, None)
            && IsVerdict(schemas, {"a", "b"}, Pass(Fields(schemas), once), Some(TypeInvalid("a")))
  {
    var schemas := [Unchecked(A, false).(typeOk := (v: Value) => false), Unchecked(B, false)];
    assert Fields(schemas) == [A, B];
    TwoPasses();
    TrimmedIsFixed("a");
    TrimmedIsFixed("b");
    assert Ready(B, ONCE);
    AcceptedExactly(schemas, {"a", "b"}, ONCE);
    assert FieldFault(schemas[0], TWICE) == Some(TypeInvalid("a"));
    assert IsFirstFault(schemas, TWICE, 0);
  }
}
