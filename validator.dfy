/**
 * Validation of homogenized values against controlled vocabularies
 * (`MetadataValuesBase.validate`, `_validate_any_vocabulary` and
 * `_validate_data_connection` in api/evaluator.py). The result maps each
 * vocabulary id to a valid / non-valid partition of the values.
 */
module Validator {
  import opened Common
  import opened PyDict
  import opened Values

  /**
   * What `hasattr(api.vocabulary, id)` and the class's constructor give:
   * no class, a constructor that raises, or a new instance holding the
   * settings `_config_items` it read from the configuration.
   */
  datatype Connector = NoClass | CtorRaises | Instance(items: Dict<string>)

  /**
   * `vocab_instance.collect(value)` on an instance whose `_config_items`
   * are the given settings: the settings afterwards (FAIRsharing and
   * GeoNames write their query URL back into them, whether or not the call
   * then raises) and the truthiness of the answer, or its exception.
   */
  type Collect = (string, Dict<string>, Value) -> (Dict<string>, Outcome<bool>)

  /**
   * Everything validation consults outside the shown code: the vocabulary
   * connector classes and their `collect`, `ut.orcid_basic_info`,
   * `ut.validate_any_pid`, and the plugin's `_validate_format` /
   * `_validate_license` applied to the values and the matching vocabularies.
   */
  datatype Oracles = Oracles(
    lookup: string -> Connector,
    collect: Collect,
    orcidInfo: Value -> bool,
    anyPid: Value -> bool,
    validateFormat: (seq<Value>, Dict<string>) -> Outcome<Validation>,
    validateLicense: (seq<Value>, Dict<string>) -> Outcome<Validation>)

  /**
   * The base class's `_validate_format` and `_validate_license` take one
   * argument after `cls` but are called with three, so they raise.
   */
  function BaseValidateFormat(vs: seq<Value>, matching: Dict<string>): Outcome<Validation>
  {
    Raised("TypeError: takes 2 positional arguments")
  }

  function BaseValidateLicense(vs: seq<Value>, matching: Dict<string>): Outcome<Validation>
  {
    Raised("TypeError: takes 2 positional arguments")
  }

  /** The branch of `validate` taken for an element name. */
  datatype Route = FormatRoute | LicenseRoute | AnyVocabularyRoute | PersonRoute | DataConnectionRoute

  function RouteOf(element: string): Route
  {
    if element == "Format" then FormatRoute
    else if element == "License" then LicenseRoute
    else if element == "Person Identifier" then PersonRoute
    else if element == "Data connection" then DataConnectionRoute
    else AnyVocabularyRoute
  }

  /** One verdict recorded: a truthy answer goes to `valid`, a falsy one to `non_valid`, an exception nowhere. */
  function Record(p: Partition, v: Value, out: Outcome<bool>): Partition
  {
    match out
    case Raised(_) => p
    case Returned(b) => if b then Partition(p.valid + [v], p.nonValid) else Partition(p.valid, p.nonValid + [v])
  }

  /**
   * The inner loop of `_validate_any_vocabulary` on one instance that
   * starts with the settings `items`: each value is collected in turn on
   * the settings the previous calls left, giving the final settings and
   * the partition.
   */
  function Tried(vs: seq<Value>, id: string, items: Dict<string>, collect: Collect): (Dict<string>, Partition)
  {
    if vs == [] then (items, Partition([], []))
    else
      var prev := Tried(vs[..|vs| - 1], id, items, collect);
      var step := collect(id, prev.0, vs[|vs| - 1]);
      (step.0, Record(prev.1, vs[|vs| - 1], step.1))
  }

  /** The settings the instance holds when it is asked about `vs[i]`. */
  function SettingsAt(vs: seq<Value>, id: string, items: Dict<string>, collect: Collect, i: nat): Dict<string>
    requires i <= |vs|
  {
    Tried(vs[..i], id, items, collect).0
  }

  /** The answer to the call on `vs[i]`. */
  function VerdictAt(vs: seq<Value>, id: string, items: Dict<string>, collect: Collect, i: nat): Outcome<bool>
    requires i < |vs|
  {
    collect(id, SettingsAt(vs, id, items, collect, i), vs[i]).1
  }

  /** The inner loop of `_validate_any_vocabulary`: one `collect` per value on the same instance, exceptions swallowed. */
  method TryPartition(vs: seq<Value>, id: string, items: Dict<string>, collect: Collect) returns (p: Partition)
    ensures p == Tried(vs, id, items, collect).1
  {
    var settings := items;
    var valid: seq<Value> := [];
    var nonValid: seq<Value> := [];
    var i := 0;
    while i < |vs|
      invariant 0 <= i <= |vs|
      invariant Tried(vs[..i], id, items, collect) == (settings, Partition(valid, nonValid))
    {
      assert vs[..i + 1][..i] == vs[..i];
      var step := collect(id, settings, vs[i]);
      settings := step.0;
      match step.1 {
        case Raised(_) =>
        case Returned(b) =>
          if b { valid := valid + [vs[i]]; } else { nonValid := nonValid + [vs[i]]; }
      }
      i := i + 1;
    }
    assert vs[..i] == vs;
    p := Partition(valid, nonValid);
  }

  /** A loop appending each value to `valid` or `non_valid` by a predicate. */
  method SplitValues(vs: seq<Value>, pred: Value -> bool) returns (p: Partition)
    ensures p == Split(vs, pred)
  {
    var valid: seq<Value> := [];
    var nonValid: seq<Value> := [];
    var i := 0;
    while i < |vs|
      invariant 0 <= i <= |vs|
      invariant valid == Filter(vs[..i], pred)
      invariant nonValid == Filter(vs[..i], Not(pred))
    {
      assert vs[..i + 1][..i] == vs[..i];
      if pred(vs[i]) { valid := valid + [vs[i]]; } else { nonValid := nonValid + [vs[i]]; }
      i := i + 1;
    }
    assert vs[..i] == vs;
    p := Partition(valid, nonValid);
  }

  /** One iteration of `_validate_any_vocabulary`'s outer loop. */
  function AddVocabulary(acc: Outcome<Validation>, vs: seq<Value>, id: string, o: Oracles): Outcome<Validation>
  {
    match acc
    case Raised(e) => Raised(e)
    case Returned(d) =>
      match o.lookup(id)
      case NoClass => Returned(d)
      case CtorRaises => Raised("connector constructor raised")
      case Instance(items) => Returned(Put(d, id, Tried(vs, id, items, o.collect).1))
  }

  /** The result of `_validate_any_vocabulary` for the vocabulary ids `ids`, in order. */
  function AnyVocabularySpec(vs: seq<Value>, ids: seq<string>, o: Oracles): Outcome<Validation>
  {
    if ids == [] then Returned([])
    else AddVocabulary(AnyVocabularySpec(vs, ids[..|ids| - 1], o), vs, ids[|ids| - 1], o)
  }

  /** `_validate_any_vocabulary`: one connector per configured vocabulary, each value collected in turn. */
  method ValidateAnyVocabulary(vs: seq<Value>, matching: Dict<string>, o: Oracles) returns (r: Outcome<Validation>)
    ensures r == AnyVocabularySpec(vs, Keys(matching), o)
  {
    var ids := Keys(matching);
    var acc: Validation := [];
    var k := 0;
    while k < |ids|
      invariant 0 <= k <= |ids|
      invariant AnyVocabularySpec(vs, ids[..k], o) == Returned(acc)
    {
      AnyVocabularySnoc(vs, ids, k, o);
      var c := o.lookup(ids[k]);
      if c == CtorRaises {
        AnyVocabularyRaisedPersists(vs, ids, k + 1, o);
        return Raised("connector constructor raised");
      } else if c.Instance? {
        var p := TryPartition(vs, ids[k], c.items, o.collect);
        acc := Put(acc, ids[k], p);
      }
      k := k + 1;
    }
    assert ids[..k] == ids;
    r := Returned(acc);
  }

  /** One more configured id is one more iteration of the outer loop. */
  lemma AnyVocabularySnoc(vs: seq<Value>, ids: seq<string>, k: nat, o: Oracles)
    requires k < |ids|
    ensures AnyVocabularySpec(vs, ids[..k + 1], o) == AddVocabulary(AnyVocabularySpec(vs, ids[..k], o), vs, ids[k], o)
  {
    assert ids[..k + 1][..k] == ids[..k];
  }

  /** Once a constructor has raised, the rest of the loop does not run. */
  lemma {:induction false} AnyVocabularyRaisedPersists(vs: seq<Value>, ids: seq<string>, k: nat, o: Oracles)
    requires k <= |ids| && AnyVocabularySpec(vs, ids[..k], o).Raised?
    ensures AnyVocabularySpec(vs, ids, o) == AnyVocabularySpec(vs, ids[..k], o)
    decreases |ids| - k
  {
    if k < |ids| {
      AnyVocabularySnoc(vs, ids, k, o);
      AnyVocabularyRaisedPersists(vs, ids, k + 1, o);
    } else {
      assert ids[..k] == ids;
    }
  }

  function IsInstance(lookup: string -> Connector): string -> bool
  {
    id => lookup(id).Instance?
  }

  function FilterIds(ids: seq<string>, p: string -> bool): (r: seq<string>)
    ensures |r| <= |ids|
    ensures forall i :: 0 <= i < |r| ==> r[i] in ids && p(r[i])
  {
    if ids == [] then []
    else if p(ids[|ids| - 1]) then FilterIds(ids[..|ids| - 1], p) + [ids[|ids| - 1]]
    else FilterIds(ids[..|ids| - 1], p)
  }

  /** The partition a fresh instance of `id`'s connector class gives the values. */
  function InstancePartition(vs: seq<Value>, id: string, o: Oracles): Partition
    requires o.lookup(id).Instance?
  {
    Tried(vs, id, o.lookup(id).items, o.collect).1
  }

  /**
   * When no constructor raises, `_validate_any_vocabulary` has exactly
   * the configured ids that name a connector class, in configuration
   * order, and each maps to the partition its own fresh instance gives:
   * no instance sees the calls made on another one.
   */
  lemma {:induction false} AnyVocabularyShape(vs: seq<Value>, ids: seq<string>, o: Oracles)
    requires Distinct(ids)
    requires AnyVocabularySpec(vs, ids, o).Returned?
    ensures Keys(AnyVocabularySpec(vs, ids, o).value) == FilterIds(ids, IsInstance(o.lookup))
    ensures forall i :: 0 <= i < |AnyVocabularySpec(vs, ids, o).value| ==>
              var entry := AnyVocabularySpec(vs, ids, o).value[i];
              o.lookup(entry.0).Instance? && entry.1 == InstancePartition(vs, entry.0, o)
  {
    if ids != [] {
      var n := |ids| - 1;
      assert Distinct(ids[..n]);
      AnyVocabularyShape(vs, ids[..n], o);
      assert ids[n] !in ids[..n];
      ShapeStep(vs, AnyVocabularySpec(vs, ids[..n], o).value, ids[..n], ids[n], o);
      assert ids[..n] + [ids[n]] == ids;
    }
  }

  /** The shape is kept by one more iteration that does not raise. */
  lemma ShapeStep(vs: seq<Value>, acc: Validation, ids: seq<string>, id: string, o: Oracles)
    requires Keys(acc) == FilterIds(ids, IsInstance(o.lookup))
    requires forall i :: 0 <= i < |acc| ==> o.lookup(acc[i].0).Instance? && acc[i].1 == InstancePartition(vs, acc[i].0, o)
    requires id !in ids
    requires o.lookup(id) != CtorRaises
    ensures Keys(AddVocabulary(Returned(acc), vs, id, o).value) == FilterIds(ids + [id], IsInstance(o.lookup))
    ensures forall i :: 0 <= i < |AddVocabulary(Returned(acc), vs, id, o).value| ==>
              var entry := AddVocabulary(Returned(acc), vs, id, o).value[i];
              o.lookup(entry.0).Instance? && entry.1 == InstancePartition(vs, entry.0, o)
  {
    assert (ids + [id])[..|ids|] == ids;
    if o.lookup(id).Instance? {
      ShapeStepInstance(vs, acc, ids, id, o);
    }
  }

  lemma ShapeStepInstance(vs: seq<Value>, acc: Validation, ids: seq<string>, id: string, o: Oracles)
    requires Keys(acc) == FilterIds(ids, IsInstance(o.lookup))
    requires id !in ids
    requires o.lookup(id).Instance?
    ensures Put(acc, id, InstancePartition(vs, id, o)) == acc + [(id, InstancePartition(vs, id, o))]
    ensures Keys(acc + [(id, InstancePartition(vs, id, o))]) == Keys(acc) + [id]
  {
    assert forall j :: 0 <= j < |Keys(acc)| ==> Keys(acc)[j] in ids;
    assert !HasKey(acc, id);
    PutNew(acc, id, InstancePartition(vs, id, o));
  }

  /** The answers to the calls on a prefix are the answers the whole loop gets. */
  lemma VerdictPrefix(vs: seq<Value>, id: string, items: Dict<string>, collect: Collect, n: nat, i: nat)
    requires i < n <= |vs|
    ensures VerdictAt(vs[..n], id, items, collect, i) == VerdictAt(vs, id, items, collect, i)
  {
    assert vs[..n][..i] == vs[..i];
  }

  /**
   * Both directions of membership, per call: a value is valid iff the call
   * on some occurrence of it answered truthily (on the settings the calls
   * before it left), non-valid iff some call on it answered falsily; each
   * call adds at most one entry.
   */
  lemma {:induction false} TriedPartitionMembership(vs: seq<Value>, id: string, items: Dict<string>, collect: Collect, v: Value)
    ensures v in Tried(vs, id, items, collect).1.valid <==>
              exists i :: 0 <= i < |vs| && vs[i] == v && VerdictAt(vs, id, items, collect, i) == Returned(true)
    ensures v in Tried(vs, id, items, collect).1.nonValid <==>
              exists i :: 0 <= i < |vs| && vs[i] == v && VerdictAt(vs, id, items, collect, i) == Returned(false)
    ensures |Tried(vs, id, items, collect).1.valid| + |Tried(vs, id, items, collect).1.nonValid| <= |vs|
  {
    if vs != [] {
      var n := |vs| - 1;
      TriedPartitionMembership(vs[..n], id, items, collect, v);
      forall i | 0 <= i < n
        ensures VerdictAt(vs[..n], id, items, collect, i) == VerdictAt(vs, id, items, collect, i)
      {
        VerdictPrefix(vs, id, items, collect, n, i);
      }
      assert SettingsAt(vs, id, items, collect, n) == Tried(vs[..n], id, items, collect).0;
      assert forall i :: 0 <= i < n ==> vs[..n][i] == vs[i];
    }
  }

  /** A `collect` that leaves its settings alone keeps them for every later call. */
  lemma {:induction false} StatelessSettings(vs: seq<Value>, id: string, items: Dict<string>, collect: Collect)
    requires forall w :: collect(id, items, w).0 == items
    ensures Tried(vs, id, items, collect).0 == items
  {
    if vs != [] {
      StatelessSettings(vs[..|vs| - 1], id, items, collect);
    }
  }

  /**
   * For a connector whose `collect` leaves its settings alone (RoR,
   * Agrovoc, ORCID and the other term checkers), every value is asked
   * about on the initial settings, so membership depends on the value
   * alone: valid iff its answer is truthy, non-valid iff falsy.
   */
  lemma StatelessMembership(vs: seq<Value>, id: string, items: Dict<string>, collect: Collect, v: Value)
    requires forall w :: collect(id, items, w).0 == items
    requires v in vs
    ensures v in Tried(vs, id, items, collect).1.valid <==> collect(id, items, v).1 == Returned(true)
    ensures v in Tried(vs, id, items, collect).1.nonValid <==> collect(id, items, v).1 == Returned(false)
  {
    forall i | 0 <= i < |vs|
      ensures VerdictAt(vs, id, items, collect, i) == collect(id, items, vs[i]).1
    {
      StatelessSettings(vs[..i], id, items, collect);
    }
    TriedPartitionMembership(vs, id, items, collect, v);
  }

  /**
   * A `collect` that rewrites its settings and answers truthily only on
   * settings it has not yet rewritten, as FAIRsharing's and GeoNames'
   * accumulating query allows.
   */
  function Rewriting(): Collect
  {
    (id: string, s: Dict<string>, w: Value) => ([("remote_path", "?q")], Returned(s == []))
  }

  /** With such a connector, a value listed twice lands in both `valid` and `non_valid`. */
  lemma RepeatedValueInBothLists()
    ensures var p := Tried([Str("a"), Str("a")], "FAIRsharingRegistry", [], Rewriting()).1;
            Str("a") in p.valid && Str("a") in p.nonValid
  {
    var f := Rewriting();
    var none: Dict<string> := [];
    var rewritten: Dict<string> := [("remote_path", "?q")];
    var one := [Str("a")];
    var vs := one + one;
    assert vs[..1] == one && one[..0] == [];
    assert Tried(one[..0], "FAIRsharingRegistry", none, f) == (none, Partition([], []));
    assert f("FAIRsharingRegistry", none, Str("a")) == (rewritten, Returned(true));
    assert Record(Partition([], []), Str("a"), Returned(true)) == Partition(one, []);
    assert Tried(one, "FAIRsharingRegistry", none, f).1 == Partition(one, []);
    assert Tried(one, "FAIRsharingRegistry", none, f).0 == rewritten;
    assert f("FAIRsharingRegistry", rewritten, Str("a")) == (rewritten, Returned(false));
    assert Tried(vs, "FAIRsharingRegistry", none, f) == (rewritten, Partition(one, one));
  }

  /** `_validate_data_connection`: a single "Data Connection" entry partitioning the values by the PID test. */
  method ValidateDataConnection(vs: seq<Value>, anyPid: Value -> bool) returns (r: Validation)
    ensures Keys(r) == ["Data Connection"]
    ensures r[0].1 == Split(vs, anyPid)
  {
    var p := SplitValues(vs, anyPid);
    r := [("Data Connection", p)];
  }

  /** The Person Identifier branch: every configured vocabulary gets the ORCID partition of the values. */
  method ValidatePersons(vs: seq<Value>, matching: Dict<string>, orcidInfo: Value -> bool) returns (r: Validation)
    requires WellFormed(matching)
    ensures r == PersonsSpec(vs, Keys(matching), orcidInfo)
  {
    r := [];
    var ids := Keys(matching);
    var k := 0;
    while k < |ids|
      invariant 0 <= k <= |ids|
      invariant r == PersonsSpec(vs, ids[..k], orcidInfo)
    {
      var p := SplitValues(vs, orcidInfo);
      assert ids[k] !in ids[..k];
      assert !HasKey(r, ids[k]);
      PutNew(r, ids[k], p);
      r := Put(r, ids[k], p);
      assert ids[..k + 1][..k] == ids[..k];
      k := k + 1;
    }
    assert ids[..k] == ids;
  }

  /** The person identifier result as a value: each configured id paired with the ORCID partition. */
  function PersonsSpec(vs: seq<Value>, ids: seq<string>, orcidInfo: Value -> bool): (r: Validation)
    ensures Keys(r) == ids
  {
    if ids == [] then []
    else PersonsSpec(vs, ids[..|ids| - 1], orcidInfo) + [(ids[|ids| - 1], Split(vs, orcidInfo))]
  }

  /**
   * `validate(values, element)`. `cvs` is the parsed
   * `Generic:controlled_vocabularies` setting, `None` when it is missing or
   * empty; `matching` is its entry for `element`, or no vocabulary at all.
   */
  function ValidateSpec(vs: seq<Value>, element: string, cvs: Option<Dict<Dict<string>>>, o: Oracles): Outcome<Validation>
  {
    match cvs
    case None => Raised("Controlled vocabularies not defined in configuration")
    case Some(c) =>
      var matching := GetOr(c, element, []);
      match RouteOf(element)
      case FormatRoute => o.validateFormat(vs, matching)
      case LicenseRoute => o.validateLicense(vs, matching)
      case AnyVocabularyRoute => AnyVocabularySpec(vs, Keys(matching), o)
      case PersonRoute => Returned(PersonsSpec(vs, Keys(matching), o.orcidInfo))
      case DataConnectionRoute => Returned([("Data Connection", Split(vs, o.anyPid))])
  }

  /** `validate` as the source runs it: the configuration check, then the dispatch on the element. */
  method Validate(vs: seq<Value>, element: string, cvs: Option<Dict<Dict<string>>>, o: Oracles) returns (r: Outcome<Validation>)
    requires cvs.Some? ==> forall i :: 0 <= i < |cvs.value| ==> WellFormed(cvs.value[i].1)
    ensures r == ValidateSpec(vs, element, cvs, o)
  {
    if cvs.None? {
      return Raised("Controlled vocabularies not defined in configuration");
    }
    var matching := GetOr(cvs.value, element, []);
    assert WellFormed(matching) by {
      if HasKey(cvs.value, element) {
        var j := IndexOf(cvs.value, element);
        assert matching == cvs.value[j].1;
      }
    }
    match RouteOf(element) {
      case FormatRoute => r := o.validateFormat(vs, matching);
      case LicenseRoute => r := o.validateLicense(vs, matching);
      case AnyVocabularyRoute => r := ValidateAnyVocabulary(vs, matching, o);
      case PersonRoute =>
        var p := ValidatePersons(vs, matching, o.orcidInfo);
        r := Returned(p);
      case DataConnectionRoute =>
        var d := ValidateDataConnection(vs, o.anyPid);
        assert d == [("Data Connection", Split(vs, o.anyPid))];
        r := Returned(d);
    }
  }

  lemma {:induction false} PersonsSpecParts(vs: seq<Value>, ids: seq<string>, orcidInfo: Value -> bool)
    ensures forall i :: 0 <= i < |PersonsSpec(vs, ids, orcidInfo)| ==>
              PersonsSpec(vs, ids, orcidInfo)[i].1 == Split(vs, orcidInfo)
  {
    if ids != [] {
      PersonsSpecParts(vs, ids[..|ids| - 1], orcidInfo);
    }
  }

  /** Without a `controlled_vocabularies` setting, validation always raises. */
  lemma ValidateNeedsVocabularies(vs: seq<Value>, element: string, o: Oracles)
    ensures ValidateSpec(vs, element, None, o).Raised?
  {
  }

  /**
   * For Person Identifier the result has exactly the configured ids, and
   * for each one `valid` and `non_valid` partition the values exactly, in
   * order, by the ORCID test.
   */
  lemma {:induction false} PersonIdentifierPartitions(vs: seq<Value>, c: Dict<Dict<string>>, o: Oracles)
    ensures ValidateSpec(vs, "Person Identifier", Some(c), o).Returned?
    ensures Keys(ValidateSpec(vs, "Person Identifier", Some(c), o).value) == Keys(GetOr(c, "Person Identifier", []))
    ensures forall i :: 0 <= i < |ValidateSpec(vs, "Person Identifier", Some(c), o).value| ==>
              var p := ValidateSpec(vs, "Person Identifier", Some(c), o).value[i].1;
              multiset(p.valid) + multiset(p.nonValid) == multiset(vs) &&
              (forall v :: v in p.valid ==> o.orcidInfo(v)) &&
              (forall v :: v in p.nonValid ==> !o.orcidInfo(v))
  {
    PersonsSpecParts(vs, Keys(GetOr(c, "Person Identifier", [])), o.orcidInfo);
    SplitPartitions(vs, o.orcidInfo);
  }

  /** For Data connection the result is the single "Data Connection" key, an exact PID partition. */
  lemma DataConnectionPartitions(vs: seq<Value>, c: Dict<Dict<string>>, o: Oracles)
    ensures ValidateSpec(vs, "Data connection", Some(c), o).Returned?
    ensures Keys(ValidateSpec(vs, "Data connection", Some(c), o).value) == ["Data Connection"]
    ensures var p := ValidateSpec(vs, "Data connection", Some(c), o).value[0].1;
            multiset(p.valid) + multiset(p.nonValid) == multiset(vs) &&
            (forall v :: v in p.valid ==> o.anyPid(v)) &&
            (forall v :: v in p.nonValid ==> !o.anyPid(v))
  {
    SplitPartitions(vs, o.anyPid);
  }
}
