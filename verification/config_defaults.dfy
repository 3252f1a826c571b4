/**
 * Provider configuration defaults with dependencies (catalog/connector_validation.go:284-311, 460-475): one ordered pass that
 * fills in a field's default once everything the field is required with is there.
 */
module ConfigDefaults {
  import opened GoStrings

  datatype Value =
    | Null
    | Text(s: string)
    | Number(n: real)
    | Flag(b: bool)
    | List(items: seq<Value>)
    | TextList(texts: seq<string>)
    | Object(members: map<string, Value>)

  type Config = map<string, Value>

  /** `default` is Null when the field has none; `requiredWith` are the keys of its dependencies. */
  datatype Field = Field(key: string, default: Value, requiredWith: seq<string>)

  datatype Provider = Provider(key: string, fields: seq<Field>)

  /** `emptyConfigValue`: zero and false are values. */
  predicate Empty(v: Value) {
    match v
    case Null => true
    case Text(s) => TrimSpace(s) == ""
    case List(items) => items == []
    case TextList(texts) => texts == []
    case Object(members) => members == map[]
    case Number(_) => false
    case Flag(_) => false
  }

  /** White space is empty, like nothing and collections without members; numbers and flags never are. */
  lemma EmptyIs(s: string, items: seq<Value>, texts: seq<string>, members: map<string, Value>, n: real, b: bool)
    ensures Empty(Null) && (Empty(Text(s)) <==> Blank(s))
    ensures Empty(List(items)) <==> |items| == 0
    ensures Empty(TextList(texts)) <==> |texts| == 0
    ensures Empty(Object(members)) <==> |members| == 0
    ensures !Empty(Number(n)) && !Empty(Flag(b))
  {
    TrimIsEmpty(s);
  }

  predicate Filled(config: Config, key: string) {
    key in config && !Empty(config[key])
  }

  predicate Ready(f: Field, config: Config) {
    forall k :: 0 <= k < |f.requiredWith| ==> Filled(config, f.requiredWith[k])
  }

  /** The field is absent, has a default, and what it is required with is there. */
  predicate Applies(f: Field, config: Config) {
    f.key !in config && f.default != Null && Ready(f, config)
  }

  function ApplyField(config: Config, f: Field): Config {
    if Applies(f, config) then config[f.key := f.default] else config
  }

  function Pass(fields: seq<Field>, config: Config): Config {
    if fields == [] then config else ApplyField(Pass(fields[..|fields| - 1], config), fields[|fields| - 1])
  }

  /** The fields of the first provider with the key, or none. */
  function FieldsOf(providers: seq<Provider>, key: string): seq<Field> {
    if providers == [] then []
    else if providers[0].key == key then providers[0].fields
    else FieldsOf(providers[1..], key)
  }

  predicate IsFirst(providers: seq<Provider>, key: string, i: nat) {
    i < |providers| && providers[i].key == key && forall m :: 0 <= m < i ==> providers[m].key != key
  }

  /** Later providers with the same key do not count, and an unknown key has no fields. */
  lemma {:induction false} FieldsOfIs(providers: seq<Provider>, key: string)
    ensures forall i: nat :: IsFirst(providers, key, i) ==> FieldsOf(providers, key) == providers[i].fields
    ensures (forall i :: 0 <= i < |providers| ==> providers[i].key != key) ==> FieldsOf(providers, key) == []
  {
    if providers != [] && providers[0].key != key {
      var rest := providers[1..];
      FieldsOfIs(rest, key);
      forall i: nat | IsFirst(providers, key, i)
        ensures FieldsOf(providers, key) == providers[i].fields
      {
        assert forall m :: 0 <= m < i - 1 ==> rest[m] == providers[m + 1];
        assert IsFirst(rest, key, i - 1) && rest[i - 1] == providers[i];
      }
      assert forall m :: 0 <= m < |rest| ==> rest[m] == providers[m + 1];
    }
  }

  method IsReady(f: Field, config: Config) returns (ready: bool)
    ensures ready <==> Ready(f, config)
  {
    ready := true;
    for k := 0 to |f.requiredWith|
      invariant ready && forall m :: 0 <= m < k ==> Filled(config, f.requiredWith[m])
    {
      var dependency := f.requiredWith[k];
      if dependency !in config || Empty(config[dependency]) {
        return false;
      }
    }
  }

  method ApplyProviderConfigDefaults(providers: seq<Provider>, providerKey: string, config: Config) returns (result: Config)
    ensures result == Pass(FieldsOf(providers, providerKey), config)
  {
    result := config;
    for i := 0 to |providers|
      invariant result == config
      invariant FieldsOf(providers, providerKey) == FieldsOf(providers[i..], providerKey)
    {
      if providers[i].key != providerKey {
        continue;
      }
      var fields := providers[i].fields;
      for k := 0 to |fields|
        invariant result == Pass(fields[..k], config)
      {
        assert fields[..k + 1][..k] == fields[..k];
        var f := fields[k];
        if f.key in result || f.default == Null {
          continue;
        }
        var ready := IsReady(f, result);
        if ready {
          result := result[f.key := f.default];
        }
      }
      assert fields[..|fields|] == fields;
      break;
    }
  }

  // ---- What one pass keeps ----

  predicate Extends(big: Config, small: Config) {
    forall key :: key in small ==> key in big && big[key] == small[key]
  }

  predicate UniqueKeys(fields: seq<Field>) {
    forall i, j :: 0 <= i < j < |fields| ==> fields[i].key != fields[j].key
  }

  /** A pass keeps every supplied value, and what it adds are defaults of fields that were absent. */
  lemma {:induction false} PassExtends(fields: seq<Field>, config: Config)
    ensures Extends(Pass(fields, config), config)
    ensures forall key :: key in Pass(fields, config) && key !in config ==>
              exists i :: 0 <= i < |fields| && fields[i].key == key && fields[i].default != Null
                          && Pass(fields, config)[key] == fields[i].default
  {
    if fields != [] {
      var n := |fields| - 1;
      var init := fields[..n];
      PassExtends(init, config);
      forall key | key in Pass(fields, config) && key !in config
        ensures exists i :: 0 <= i < |fields| && fields[i].key == key && fields[i].default != Null
                            && Pass(fields, config)[key] == fields[i].default
      {
        if key in Pass(init, config) {
          var i :| 0 <= i < |init| && init[i].key == key && init[i].default != Null && Pass(init, config)[key] == init[i].default;
          assert fields[i] == init[i];
        } else {
          assert fields[n].key == key;
        }
      }
    }
  }

  lemma ReadyIsMonotone(f: Field, small: Config, big: Config)
    requires Extends(big, small) && Ready(f, small)
    ensures Ready(f, big)
  {
    forall k | 0 <= k < |f.requiredWith|
      ensures Filled(big, f.requiredWith[k])
    {
      assert Filled(small, f.requiredWith[k]);
    }
  }

  /** The constraint `validateProviderConfigFieldValue` checks: a field with a value has all it is required with. */
  predicate Satisfied(fields: seq<Field>, config: Config) {
    forall i :: 0 <= i < |fields| && Filled(config, fields[i].key) ==> Ready(fields[i], config)
  }

  /** With unique keys, as `validateConnectorFields` demands, a pass never breaks a required_with constraint. */
  lemma {:induction false} PassKeepsSatisfied(fields: seq<Field>, config: Config, n: nat)
    requires UniqueKeys(fields) && Satisfied(fields, config) && n <= |fields|
    ensures Satisfied(fields, Pass(fields[..n], config))
  {
    if n == 0 {
      assert fields[..0] == [];
    } else {
      assert fields[..n][..n - 1] == fields[..n - 1];
      PassKeepsSatisfied(fields, config, n - 1);
      var before, after := Pass(fields[..n - 1], config), Pass(fields[..n], config);
      forall i | 0 <= i < |fields| && Filled(after, fields[i].key)
        ensures Ready(fields[i], after)
      {
        if fields[i].key in before {
          assert Filled(before, fields[i].key);
        } else {
          assert i == n - 1;
        }
        ReadyIsMonotone(fields[i], before, after);
      }
    }
  }

  /**
   * Without unique keys, which `validateConnectorFields` refuses, it can: the second field of the same name sets what the first
   * may only have together with "b".
   */
  lemma DuplicateKeysBreakSatisfied()
    ensures var fields := [Field("a", Null, ["b"]), Field("a", Number(1.0), [])];
            Satisfied(fields, map[]) && !Satisfied(fields, Pass(fields, map[]))
  {
    var f, g := Field("a", Null, ["b"]), Field("a", Number(1.0), []);
    PassOfTwo(f, g, map[]);
    assert Pass([f, g], map[]) == map["a" := Number(1.0)];
    assert Filled(Pass([f, g], map[]), [f, g][0].key);
    assert !Filled(Pass([f, g], map[]), f.requiredWith[0]);
  }

  // ---- The least closed extension ----

  /** `r` has the default of every field that `config` left out and whose dependencies `r` has. */
  predicate Closed(fields: seq<Field>, config: Config, r: Config) {
    forall i :: 0 <= i < |fields| && fields[i].key !in config && fields[i].default != Null && Ready(fields[i], r) ==>
      fields[i].key in r && r[fields[i].key] == fields[i].default
  }

  /** A pass, from any point below, stays below every closed extension of the supplied configuration. */
  lemma {:induction false} PassIsBelow(fields: seq<Field>, config: Config, r: Config, from: Config, n: nat)
    requires n <= |fields| && Extends(from, config) && Extends(r, from) && Closed(fields, config, r)
    ensures Extends(r, Pass(fields[..n], from))
  {
    if n == 0 {
      assert fields[..0] == [];
    } else {
      assert fields[..n][..n - 1] == fields[..n - 1];
      PassIsBelow(fields, config, r, from, n - 1);
      PassExtends(fields[..n - 1], from);
      var before, f := Pass(fields[..n - 1], from), fields[n - 1];
      if Applies(f, before) {
        ReadyIsMonotone(f, before, r);
      }
    }
  }

  /** No field is left to apply; then, and only then, another pass changes nothing. */
  predicate Stable(fields: seq<Field>, config: Config) {
    forall i :: 0 <= i < |fields| ==> !Applies(fields[i], config)
  }

  lemma {:induction false} StableIsFixed(fields: seq<Field>, config: Config)
    ensures Stable(fields, config) <==> Pass(fields, config) == config
    ensures !Stable(fields, config) ==> exists i :: 0 <= i < |fields| && fields[i].key !in config && fields[i].key in Pass(fields, config)
  {
    if fields != [] {
      var n := |fields| - 1;
      var init, last := fields[..n], fields[n];
      StableIsFixed(init, config);
      PassExtends(init, config);
      if Stable(init, config) {
        assert Pass(fields, config) == ApplyField(config, last);
        assert forall i :: 0 <= i < n ==> fields[i] == init[i];
      } else {
        var i :| 0 <= i < n && init[i].key !in config && init[i].key in Pass(init, config);
        assert fields[i] == init[i];
        assert !Stable(fields, config) by {
          var j :| 0 <= j < n && Applies(init[j], config);
          assert fields[j] == init[j];
        }
      }
    }
  }

  /** Every field comes after the fields it is required with. */
  predicate Ordered(fields: seq<Field>) {
    forall i, j :: 0 <= i < |fields| && 0 <= j < |fields| && fields[j].key in fields[i].requiredWith ==> j < i
  }

  /** From position `n` on, a pass only adds keys of fields from there on. */
  lemma {:induction false} LaterFieldsOnly(fields: seq<Field>, config: Config, n: nat, m: nat, key: string)
    requires n <= m <= |fields| && forall i :: n <= i < m ==> fields[i].key != key
    ensures var a, b := Pass(fields[..n], config), Pass(fields[..m], config);
            (key in a <==> key in b) && (key in a ==> a[key] == b[key])
    decreases m
  {
    if n < m {
      assert fields[..m][..m - 1] == fields[..m - 1];
      LaterFieldsOnly(fields, config, n, m - 1, key);
    }
  }

  // ---- When one pass is enough ----

  /** `g`, coming later, fills in what `f` was waiting for; neither needs the other's key from the caller. */
  predicate Overtaken(f: Field, g: Field) {
    && f.default != Null && g.default != Null && !Empty(g.default)
    && g.key in f.requiredWith && f.key !in f.requiredWith
    && f.key !in g.requiredWith && g.key !in g.requiredWith
  }

  ghost predicate HasOvertaken(fields: seq<Field>) {
    exists i, j :: 0 <= i < j < |fields| && Overtaken(fields[i], fields[j])
  }

  /** Which field a pass took a key from, and when. */
  lemma {:induction false} AddedBy(fields: seq<Field>, config: Config, n: nat, key: string) returns (j: nat)
    requires n <= |fields| && key !in config && key in Pass(fields[..n], config)
    ensures j < n && fields[j].key == key && Applies(fields[j], Pass(fields[..j], config))
    ensures Pass(fields[..n], config)[key] == fields[j].default
  {
    assert fields[..0] == [];
    if n > 0 {
      assert fields[..n][..n - 1] == fields[..n - 1];
      if key in Pass(fields[..n - 1], config) {
        j := AddedBy(fields, config, n - 1, key);
      } else {
        j := n - 1;
      }
    }
  }

  /** A later point of the same pass has all that an earlier one has. */
  lemma {:induction false} PassGrows(fields: seq<Field>, config: Config, m: nat, n: nat)
    requires m <= n <= |fields|
    ensures Extends(Pass(fields[..n], config), Pass(fields[..m], config))
  {
    if m < n {
      assert fields[..n][..n - 1] == fields[..n - 1];
      PassGrows(fields, config, m, n - 1);
    }
  }

  lemma SomeMissing(f: Field, config: Config) returns (d: string)
    requires !Ready(f, config)
    ensures d in f.requiredWith && !Filled(config, d)
  {
    var k :| 0 <= k < |f.requiredWith| && !Filled(config, f.requiredWith[k]);
    d := f.requiredWith[k];
  }

  /** A field that still applies after a pass has been overtaken in it. */
  lemma LeftOverIsOvertaken(fields: seq<Field>, config: Config, i: nat) returns (j: nat)
    requires i < |fields| && Applies(fields[i], Pass(fields, config))
    ensures i < j < |fields| && Overtaken(fields[i], fields[j])
  {
    var f, r, before := fields[i], Pass(fields, config), Pass(fields[..i], config);
    assert fields[..|fields|] == fields && fields[..i + 1][..i] == fields[..i];
    PassGrows(fields, config, i, |fields|);
    PassGrows(fields, config, i + 1, |fields|);
    assert !Applies(f, before);
    var d := SomeMissing(f, before);
    assert Filled(r, d);
    PassExtends(fields[..i], config);
    j := AddedBy(fields, config, |fields|, d);
    if j < i {
      assert fields[..j + 1][..j] == fields[..j];
      PassGrows(fields, config, j + 1, i);
    }
    var g, early := fields[j], Pass(fields[..j], config);
    PassGrows(fields, config, j, |fields|);
    assert forall key :: key in f.requiredWith ==> Filled(r, key);
    assert forall key :: key in g.requiredWith ==> Filled(early, key);
  }

  /** The keys some field is required with. */
  ghost function Required(fields: seq<Field>): set<string> {
    set f, d | f in fields && d in f.requiredWith :: d
  }

  /** All of them supplied, except the two fields' own keys. */
  ghost function Needs(fields: seq<Field>, f: Field, g: Field): (r: Config) {
    map key | key in Required(fields) && key != f.key && key != g.key :: Flag(true)
  }

  lemma IsSupplied(fields: seq<Field>, f: Field, g: Field, h: Field, d: string)
    requires h in fields && d in h.requiredWith && d != f.key && d != g.key
    ensures Filled(Needs(fields, f, g), d)
  {
    assert d in Required(fields);
  }

  lemma NeedsAreThere(fields: seq<Field>, f: Field, g: Field, j: nat)
    requires f in fields && g in fields && j < |fields| && Overtaken(f, g)
    ensures Ready(g, Pass(fields[..j], Needs(fields, f, g)))
  {
    PassExtends(fields[..j], Needs(fields, f, g));
    forall k | 0 <= k < |g.requiredWith|
      ensures Filled(Pass(fields[..j], Needs(fields, f, g)), g.requiredWith[k])
    {
      IsSupplied(fields, f, g, g, g.requiredWith[k]);
    }
  }

  /** What applies before a pass is there after it. */
  lemma StillApplies(fields: seq<Field>, config: Config, i: nat)
    requires i < |fields| && Applies(fields[i], config)
    ensures fields[i].key in Pass(fields, config)
  {
    assert fields[..|fields|] == fields && fields[..i + 1][..i] == fields[..i];
    PassExtends(fields[..i], config);
    ReadyIsMonotone(fields[i], config, Pass(fields[..i], config));
    PassGrows(fields, config, i + 1, |fields|);
  }

  /** A key that no other field has is as good as untouched until its own turn. */
  lemma AbsentUntil(fields: seq<Field>, config: Config, i: nat, n: nat)
    requires UniqueKeys(fields) && i < |fields| && n <= i && fields[i].key !in config
    ensures fields[i].key !in Pass(fields[..n], config)
  {
    assert fields[..0] == [];
    LaterFieldsOnly(fields, config, 0, n, fields[i].key);
  }

  /** A field that does not apply at its turn stays absent. */
  lemma AbsentAfter(fields: seq<Field>, config: Config, i: nat)
    requires UniqueKeys(fields) && i < |fields| && fields[i].key !in config
    requires !Applies(fields[i], Pass(fields[..i], config))
    ensures fields[i].key !in Pass(fields, config)
  {
    AbsentUntil(fields, config, i, i);
    assert fields[..|fields|] == fields && fields[..i + 1][..i] == fields[..i];
    LaterFieldsOnly(fields, config, i + 1, |fields|, fields[i].key);
  }

  /** A field that applies at its turn keeps its default to the end. */
  lemma PresentAfter(fields: seq<Field>, config: Config, j: nat)
    requires j < |fields| && Applies(fields[j], Pass(fields[..j], config))
    ensures fields[j].key in Pass(fields, config) && Pass(fields, config)[fields[j].key] == fields[j].default
  {
    assert fields[..|fields|] == fields && fields[..j + 1][..j] == fields[..j];
    PassGrows(fields, config, j + 1, |fields|);
  }

  /** On a configuration with just that, the first pass misses the overtaken field and the second adds it. */
  lemma OvertakenIsLate(fields: seq<Field>, i: nat, j: nat)
    requires UniqueKeys(fields) && i < j < |fields| && Overtaken(fields[i], fields[j])
    ensures var once := Pass(fields, Needs(fields, fields[i], fields[j]));
            && Applies(fields[i], once) && Filled(once, fields[j].key)
            && fields[i].key in Pass(fields, once) && Pass(fields, once)[fields[i].key] == fields[i].default
  {
    var f, g, config := fields[i], fields[j], Needs(fields, fields[i], fields[j]);
    var once := Pass(fields, config);
    AbsentUntil(fields, config, j, i);
    WaitsFor(f, g.key, Pass(fields[..i], config));
    AbsentAfter(fields, config, i);
    AbsentUntil(fields, config, j, j);
    NeedsAreThere(fields, f, g, j);
    PresentAfter(fields, config, j);
    PassExtends(fields, config);
    NeedsAndOne(fields, f, g, f, once);
    StillApplies(fields, once, i);
    AppliedOnce(fields, once, i);
  }

  lemma WaitsFor(f: Field, key: string, config: Config)
    requires key in f.requiredWith && key !in config
    ensures !Ready(f, config)
  {
    var k :| 0 <= k < |f.requiredWith| && f.requiredWith[k] == key;
    assert !Filled(config, f.requiredWith[k]);
  }

  /** With the needs and `g` there, any field is ready that does not require `f` itself. */
  lemma NeedsAndOne(fields: seq<Field>, f: Field, g: Field, h: Field, config: Config)
    requires h in fields && f.key !in h.requiredWith
    requires Extends(config, Needs(fields, f, g)) && Filled(config, g.key)
    ensures Ready(h, config)
  {
    forall k | 0 <= k < |h.requiredWith|
      ensures Filled(config, h.requiredWith[k])
    {
      if h.requiredWith[k] != g.key {
        IsSupplied(fields, f, g, h, h.requiredWith[k]);
      }
    }
  }

  /** With unique keys, what a pass puts in an absent field is its own default. */
  lemma AppliedOnce(fields: seq<Field>, config: Config, i: nat)
    requires UniqueKeys(fields) && i < |fields| && fields[i].key !in config && fields[i].key in Pass(fields, config)
    ensures Pass(fields, config)[fields[i].key] == fields[i].default
  {
    assert fields[..|fields|] == fields;
    var j := AddedBy(fields, config, |fields|, fields[i].key);
    assert i == j;
  }

  /**
   * With unique keys, a second pass changes nothing, whatever was supplied, exactly when no field is overtaken by a later one.
   * That can be read off the field list.
   */
  lemma IdempotentExactly(fields: seq<Field>)
    requires UniqueKeys(fields)
    ensures (forall config :: Pass(fields, Pass(fields, config)) == Pass(fields, config)) <==> !HasOvertaken(fields)
  {
    if HasOvertaken(fields) {
      var i, j :| 0 <= i < j < |fields| && Overtaken(fields[i], fields[j]);
      OvertakenIsLate(fields, i, j);
    } else {
      forall config
        ensures Pass(fields, Pass(fields, config)) == Pass(fields, config)
      {
        NotOvertakenIsFixed(fields, config);
      }
    }
  }

  /** Unique keys are needed for one half only. */
  lemma NotOvertakenIsFixed(fields: seq<Field>, config: Config)
    requires !HasOvertaken(fields)
    ensures Pass(fields, Pass(fields, config)) == Pass(fields, config)
  {
    var r := Pass(fields, config);
    StableIsFixed(fields, r);
    if i :| 0 <= i < |fields| && Applies(fields[i], r) {
      var j := LeftOverIsOvertaken(fields, config, i);
    }
  }

  /** A fixed point that a pass reached is closed. */
  lemma StableIsClosed(fields: seq<Field>, config: Config)
    requires UniqueKeys(fields) && Stable(fields, Pass(fields, config))
    ensures Closed(fields, config, Pass(fields, config))
  {
    var r := Pass(fields, config);
    PassExtends(fields, config);
    forall i | 0 <= i < |fields| && fields[i].key !in config && fields[i].default != Null && Ready(fields[i], r)
      ensures fields[i].key in r && r[fields[i].key] == fields[i].default
    {
      assert !Applies(fields[i], r);
      var j :| 0 <= j < |fields| && fields[j].key == fields[i].key && r[fields[i].key] == fields[j].default;
      assert i == j;
    }
  }

  /** The same condition decides whether one pass always closes the configuration. */
  lemma ClosedExactly(fields: seq<Field>)
    requires UniqueKeys(fields)
    ensures (forall config :: Closed(fields, config, Pass(fields, config))) <==> !HasOvertaken(fields)
  {
    if HasOvertaken(fields) {
      var i, j :| 0 <= i < j < |fields| && Overtaken(fields[i], fields[j]);
      OvertakenIsLate(fields, i, j);
      var config := Needs(fields, fields[i], fields[j]);
      assert fields[i].key !in config && !Closed(fields, config, Pass(fields, config));
    } else {
      forall config
        ensures Closed(fields, config, Pass(fields, config))
      {
        NotOvertakenIsFixed(fields, config);
        StableIsFixed(fields, Pass(fields, config));
        StableIsClosed(fields, config);
      }
    }
  }

  /** And then it gives the least closed extension. */
  lemma PassIsLeast(fields: seq<Field>, config: Config, r: Config)
    requires UniqueKeys(fields) && !HasOvertaken(fields)
    ensures Closed(fields, config, Pass(fields, config)) && Extends(Pass(fields, config), config)
    ensures Extends(r, config) && Closed(fields, config, r) ==> Extends(r, Pass(fields, config))
  {
    ClosedExactly(fields);
    PassExtends(fields, config);
    assert fields[..|fields|] == fields;
    if Extends(r, config) && Closed(fields, config, r) {
      PassIsBelow(fields, config, r, config, |fields|);
    }
  }

  // ---- What a second pass can fill ----

  /** An overtaken field whose default is a value. */
  ghost predicate HasOvertakenValue(fields: seq<Field>) {
    exists i, j :: 0 <= i < j < |fields| && Overtaken(fields[i], fields[j]) && !Empty(fields[i].default)
  }

  /** If a pass fills anything, the first field it fills was ready before. */
  lemma FirstFilled(fields: seq<Field>, config: Config, i: nat) returns (m: nat)
    requires i < |fields| && Applies(fields[i], Pass(fields[..i], config)) && !Empty(fields[i].default)
    ensures m < |fields| && Applies(fields[m], config) && !Empty(fields[m].default)
    decreases i
  {
    PassExtends(fields[..i], config);
    if Applies(fields[i], config) {
      m := i;
    } else {
      var d := SomeMissing(fields[i], config);
      assert Filled(Pass(fields[..i], config), d);
      var k := AddedBy(fields, config, i, d);
      m := FirstFilled(fields, config, k);
    }
  }

  /** A key that the second pass fills betrays an overtaken field with a value. */
  lemma FilledLate(fields: seq<Field>, config: Config, key: string)
    requires !Filled(Pass(fields, config), key) && Filled(Pass(fields, Pass(fields, config)), key)
    ensures HasOvertakenValue(fields)
  {
    var once := Pass(fields, config);
    PassExtends(fields, once);
    assert fields[..|fields|] == fields;
    var i := AddedBy(fields, once, |fields|, key);
    var m := FirstFilled(fields, once, i);
    var j := LeftOverIsOvertaken(fields, config, m);
  }

  /** Dependency order is one way to meet the condition. */
  lemma OrderedIsNotOvertaken(fields: seq<Field>)
    requires Ordered(fields)
    ensures !HasOvertaken(fields)
  {
  }

  /** So in dependency order one pass gives the least closed extension, and a second pass changes nothing. */
  lemma OrderedPassIsLeast(fields: seq<Field>, config: Config, r: Config)
    requires UniqueKeys(fields) && Ordered(fields)
    ensures Closed(fields, config, Pass(fields, config)) && Extends(Pass(fields, config), config)
    ensures Extends(r, config) && Closed(fields, config, r) ==> Extends(r, Pass(fields, config))
    ensures Pass(fields, Pass(fields, config)) == Pass(fields, config)
  {
    OrderedIsNotOvertaken(fields);
    PassIsLeast(fields, config, r);
    NotOvertakenIsFixed(fields, config);
  }

  /** Out of order a second pass can add more: "a" waits for "b", which is filled in after it. */
  lemma UnorderedPassIsNotIdempotent()
    ensures var fields := [Field("a", Number(1.0), ["b"]), Field("b", Number(2.0), [])];
            Pass(fields, Pass(fields, map[])) != Pass(fields, map[])
  {
    var a, b := Field("a", Number(1.0), ["b"]), Field("b", Number(2.0), []);
    var once: Config := map["b" := Number(2.0)];
    assert !Filled(map[], a.requiredWith[0]);
    PassOfTwo(a, b, map[]);
    assert Pass([a, b], map[]) == once;
    assert forall k :: 0 <= k < |a.requiredWith| ==> a.requiredWith[k] == "b" && Filled(once, "b");
    PassOfTwo(a, b, once);
    assert "a" in Pass([a, b], once);
  }

  lemma PassOfTwo(f: Field, g: Field, config: Config)
    ensures Pass([f, g], config) == ApplyField(ApplyField(config, f), g)
  {
    assert [f, g][..1] == [f] && [f][..0] == [];
    assert Pass([f], config) == ApplyField(config, f);
  }

  // ---- Repeated passes ----

  function Repeat(fields: seq<Field>, config: Config, n: nat): Config {
    if n == 0 then config else Pass(fields, Repeat(fields, config, n - 1))
  }

  ghost function Keys(fields: seq<Field>): set<string> {
    set i | 0 <= i < |fields| :: fields[i].key
  }

  /** How many of the fields' keys are there. */
  ghost function Present(fields: seq<Field>, config: Config): nat {
    |Keys(fields) * config.Keys|
  }

  lemma {:induction false} KeysCount(fields: seq<Field>)
    ensures |Keys(fields)| <= |fields|
  {
    if fields != [] {
      var n := |fields| - 1;
      KeysCount(fields[..n]);
      assert Keys(fields) == Keys(fields[..n]) + {fields[n].key} by {
        forall key | key in Keys(fields)
          ensures key in Keys(fields[..n]) + {fields[n].key}
        {
          var i :| 0 <= i < |fields| && fields[i].key == key;
          if i < n {
            assert fields[..n][i] == fields[i];
          }
        }
        forall key | key in Keys(fields[..n])
          ensures key in Keys(fields)
        {
          var i :| 0 <= i < n && fields[..n][i].key == key;
          assert fields[i].key == key;
        }
      }
    }
  }

  /** A pass that changes anything fills in one more key. */
  lemma PassProgresses(fields: seq<Field>, config: Config)
    requires !Stable(fields, config)
    ensures Present(fields, config) < Present(fields, Pass(fields, config))
  {
    StableIsFixed(fields, config);
    PassExtends(fields, config);
    var after := Pass(fields, config);
    var i :| 0 <= i < |fields| && fields[i].key !in config && fields[i].key in after;
    var key, had, has := fields[i].key, Keys(fields) * config.Keys, Keys(fields) * after.Keys;
    assert key in Keys(fields);
    forall k | k in had + {key}
      ensures k in has
    {
    }
    SubsetCount(had + {key}, has);
  }

  lemma PassKeepsOrProgresses(fields: seq<Field>, config: Config)
    ensures Extends(Pass(fields, config), config)
    ensures if Stable(fields, config) then Pass(fields, config) == config
            else Present(fields, config) < Present(fields, Pass(fields, config))
  {
    PassExtends(fields, config);
    StableIsFixed(fields, config);
    if !Stable(fields, config) {
      PassProgresses(fields, config);
    }
  }

  lemma {:induction false} RepeatProgresses(fields: seq<Field>, config: Config, n: nat)
    ensures Extends(Repeat(fields, config, n), config)
    ensures Stable(fields, Repeat(fields, config, n)) || n <= Present(fields, Repeat(fields, config, n))
  {
    if n > 0 {
      RepeatProgresses(fields, config, n - 1);
      PassKeepsOrProgresses(fields, Repeat(fields, config, n - 1));
    }
  }

  lemma SubsetCount(a: set<string>, b: set<string>)
    requires a <= b
    ensures |a| <= |b|
  {
    assert b == a + (b - a);
  }

  lemma {:induction false} RepeatAddsDefaults(fields: seq<Field>, config: Config, n: nat)
    ensures forall key :: key in Repeat(fields, config, n) && key !in config ==>
              exists i :: 0 <= i < |fields| && fields[i].key == key && Repeat(fields, config, n)[key] == fields[i].default
  {
    if n > 0 {
      var before, after := Repeat(fields, config, n - 1), Repeat(fields, config, n);
      RepeatAddsDefaults(fields, config, n - 1);
      PassExtends(fields, before);
      forall key | key in after && key !in config
        ensures exists i :: 0 <= i < |fields| && fields[i].key == key && after[key] == fields[i].default
      {
        if key in before {
          assert after[key] == before[key];
        }
      }
    }
  }

  lemma {:induction false} RepeatIsBelow(fields: seq<Field>, config: Config, r: Config, n: nat)
    requires Extends(r, config) && Closed(fields, config, r)
    ensures Extends(r, Repeat(fields, config, n))
  {
    if n > 0 {
      RepeatIsBelow(fields, config, r, n - 1);
      RepeatProgresses(fields, config, n - 1);
      PassIsBelow(fields, config, r, Repeat(fields, config, n - 1), |fields|);
      assert fields[..|fields|] == fields;
    }
  }

  /** In any order, as many passes as there are fields reach a fixed point. */
  lemma RepeatStabilises(fields: seq<Field>, config: Config)
    ensures var limit := Repeat(fields, config, |fields|); Pass(fields, limit) == limit
  {
    var limit := Repeat(fields, config, |fields|);
    RepeatProgresses(fields, config, |fields|);
    StableIsFixed(fields, limit);
    if !Stable(fields, limit) {
      KeysCount(fields);
      var present := Keys(fields) * limit.Keys;
      assert Keys(fields) == present + (Keys(fields) - present);
      assert Keys(fields) - present == {};
      forall i | 0 <= i < |fields|
        ensures !Applies(fields[i], limit)
      {
        assert fields[i].key in Keys(fields);
        assert fields[i].key in present;
      }
    }
  }

  /** With unique keys that fixed point is the least closed extension. */
  lemma RepeatIsLeast(fields: seq<Field>, config: Config, r: Config)
    requires UniqueKeys(fields)
    ensures Closed(fields, config, Repeat(fields, config, |fields|))
    ensures Extends(r, config) && Closed(fields, config, r) ==> Extends(r, Repeat(fields, config, |fields|))
  {
    var limit := Repeat(fields, config, |fields|);
    RepeatStabilises(fields, config);
    StableIsFixed(fields, limit);
    RepeatAddsDefaults(fields, config, |fields|);
    forall i | 0 <= i < |fields| && fields[i].key !in config && fields[i].default != Null && Ready(fields[i], limit)
      ensures fields[i].key in limit && limit[fields[i].key] == fields[i].default
    {
      assert !Applies(fields[i], limit);
      var j :| 0 <= j < |fields| && fields[j].key == fields[i].key && limit[fields[i].key] == fields[j].default;
      assert i == j;
    }
    if Extends(r, config) && Closed(fields, config, r) {
      RepeatIsBelow(fields, config, r, |fields|);
    }
  }
}
