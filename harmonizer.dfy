/**
 * The `ConfigTerms` decorator's wrapper (api/evaluator.py): it resolves a
 * configuration term to the plugin's metadata fields, selects those
 * fields' values from the metadata table, homogenizes (and optionally
 * validates) them, stores them as keyword arguments of the indicator and
 * scores how many of those arguments carry values.
 */
module Harmonizer {
  import opened Common
  import opened PyDict
  import opened Values
  import opened Gatherer

  /** An item of a `terms_map` list: a two-item `[element, qualifier]` list or a bare element name. */
  datatype FieldSpec = Pair(element: string, qualifier: Option<string>) | Elem(element: string)

  /** A `terms_map` value: a list of field specs, or a single string. */
  datatype MapValue = Fields(items: seq<FieldSpec>) | Scalar(name: string)

  /** The plugin's `terms_map`: harmonized term -> plugin fields, in insertion order. */
  type TermsMap = Dict<MapValue>

  /** A row of `term_metadata` before the metadata check: `(element, qualifier)`. */
  datatype TermRow = TermRow(element: string, qualifier: Option<string>)

  // ---------------------------------------------------------------- resolution

  /** The rows one `terms_map` value contributes to `term_metadata`. */
  function EntryRows(v: MapValue): (r: seq<TermRow>)
    ensures v.Scalar? ==> r == [TermRow(v.name, None)]
    ensures v.Fields? ==> |r| == |v.items|
    ensures v.Fields? ==> forall i :: 0 <= i < |r| ==>
              r[i] == (match v.items[i]
                       case Pair(e, q) => TermRow(e, q)
                       case Elem(e) => TermRow(e, None))
  {
    match v
    case Scalar(s) => [TermRow(s, None)]
    case Fields(items) =>
      seq(|items|, i requires 0 <= i < |items| =>
        match items[i]
        case Pair(e, q) => TermRow(e, q)
        case Elem(e) => TermRow(e, None))
  }

  /** `term_metadata` after the first loop: the rows of every listed term present in `terms_map`, in list order. */
  function ResolvedRows(termList: seq<string>, tm: TermsMap): seq<TermRow>
  {
    if termList == [] then []
    else
      var t := termList[|termList| - 1];
      ResolvedRows(termList[..|termList| - 1], tm) + (if HasKey(tm, t) then EntryRows(Get(tm, t)) else [])
  }

  /** The first loop of the wrapper, concatenating rows into `term_metadata`. */
  method ResolveFields(termList: seq<string>, tm: TermsMap) returns (rows: seq<TermRow>)
    ensures rows == ResolvedRows(termList, tm)
  {
    rows := [];
    var i := 0;
    while i < |termList|
      invariant 0 <= i <= |termList|
      invariant rows == ResolvedRows(termList[..i], tm)
    {
      assert termList[..i + 1][..i] == termList[..i];
      var term := termList[i];
      if HasKey(tm, term) {
        rows := rows + EntryRows(Get(tm, term));
      }
      i := i + 1;
    }
    assert termList[..i] == termList;
  }

  /**
   * No row is resolved exactly when every listed term is either absent
   * from `terms_map` or mapped to an empty list; a scalar value always
   * yields its row.
   */
  lemma {:induction false} ResolvedRowsEmpty(termList: seq<string>, tm: TermsMap)
    ensures ResolvedRows(termList, tm) == [] <==> AllUnresolved(tm, termList)
  {
    if termList != [] {
      var n := |termList| - 1;
      ResolvedRowsEmpty(termList[..n], tm);
      ResolvedRowsSnocEmpty(termList, tm);
      UnresolvedSnoc(termList, tm);
    }
  }

  /** A listed term that contributes no row: absent from `terms_map`, or mapped to an empty list. */
  predicate Unresolved(tm: TermsMap, t: string)
  {
    !HasKey(tm, t) || Get(tm, t) == Fields([])
  }

  lemma ResolvedRowsSnocEmpty(termList: seq<string>, tm: TermsMap)
    requires termList != []
    ensures ResolvedRows(termList, tm) == [] <==>
              ResolvedRows(termList[..|termList| - 1], tm) == [] && Unresolved(tm, termList[|termList| - 1])
  {
    var t := termList[|termList| - 1];
    if HasKey(tm, t) && Get(tm, t) != Fields([]) {
      assert |EntryRows(Get(tm, t))| > 0;
    }
  }

  /** Every listed term contributes no row. */
  predicate AllUnresolved(tm: TermsMap, termList: seq<string>)
  {
    forall i :: 0 <= i < |termList| ==> Unresolved(tm, termList[i])
  }

  lemma UnresolvedSnoc(termList: seq<string>, tm: TermsMap)
    requires termList != []
    ensures AllUnresolved(tm, termList) <==>
              AllUnresolved(tm, termList[..|termList| - 1]) && Unresolved(tm, termList[|termList| - 1])
  {
    var init := termList[..|termList| - 1];
    assert forall i :: 0 <= i < |init| ==> init[i] == termList[i];
  }

  // ---------------------------------------------------------------- selection

  /**
   * Whether a metadata row is selected by a field: `[e, q]` needs both
   * the element and the qualifier to be equal (a `None` qualifier compares
   * unequal to every cell, as pandas does for `== None`), a bare element
   * needs the element only.
   */
  predicate Matches(f: FieldSpec, r: Row)
  {
    match f
    case Pair(e, q) => q.Some? && r.element == e && r.qualifier == q
    case Elem(e) => r.element == e
  }

  /** `term_metadata.loc[...].text_value.to_list()` for a field, in row order. */
  function Select(rows: seq<Row>, f: FieldSpec): seq<Value>
  {
    if rows == [] then []
    else
      var n := |rows| - 1;
      Select(rows[..n], f) + (if Matches(f, rows[n]) then [rows[n].textValue] else [])
  }

  /**
   * Selection keeps exactly the text values of the matching rows, in
   * order: every selected value comes from a matching row, and the
   * selection has one entry per matching row.
   */
  lemma {:induction false} SelectMembership(rows: seq<Row>, f: FieldSpec)
    ensures forall v :: v in Select(rows, f) ==> exists r :: r in rows && Matches(f, r) && r.textValue == v
    ensures forall r :: r in rows && Matches(f, r) ==> r.textValue in Select(rows, f)
  {
    if rows != [] {
      var n := |rows| - 1;
      SelectMembership(rows[..n], f);
      assert rows == rows[..n] + [rows[n]];
    }
  }

  /** A `[e, None]` field selects nothing, and a `[e, q]` field never selects more than the bare `e`. */
  lemma {:induction false} SelectQualifierRules(rows: seq<Row>, e: string, q: Option<string>)
    ensures Select(rows, Pair(e, None)) == []
    ensures |Select(rows, Pair(e, q))| <= |Select(rows, Elem(e))|
  {
    if rows != [] {
      SelectQualifierRules(rows[..|rows| - 1], e, q);
    }
  }

  // ---------------------------------------------------------------- the field loop

  /**
   * The items `for term_key_plugin in value` visits: the list's items, or
   * one single-character element per character of a string value.
   */
  function Iterated(v: MapValue): (r: seq<FieldSpec>)
    ensures v.Fields? ==> r == v.items
    ensures v.Scalar? ==> |r| == |v.name|
  {
    match v
    case Fields(items) => items
    case Scalar(s) => seq(|s|, i requires 0 <= i < |s| => Elem([s[i]]))
  }

  /** One pass of the inner loop: a harmonized key and one of its fields. */
  datatype Step = Step(key: string, field: FieldSpec)

  function KeySteps(key: string, v: MapValue): (r: seq<Step>)
    ensures |r| == |Iterated(v)|
    ensures forall i :: 0 <= i < |r| ==> r[i] == Step(key, Iterated(v)[i])
  {
    seq(|Iterated(v)|, i requires 0 <= i < |Iterated(v)| => Step(key, Iterated(v)[i]))
  }

  /** Every (key, field) pass the wrapper makes, in `terms_map` order, for the keys listed in `term_list`. */
  function AllSteps(tm: TermsMap, termList: seq<string>): seq<Step>
  {
    if tm == [] then []
    else
      var n := |tm| - 1;
      AllSteps(tm[..n], termList) + EntrySteps(tm[n], termList)
  }

  /** The passes for one entry of `terms_map`: none when its key is not in `term_list`. */
  function EntrySteps(e: (string, MapValue), termList: seq<string>): seq<Step>
  {
    if e.0 in termList then KeySteps(e.0, e.1) else []
  }

  /**
   * A string `terms_map` value is walked character by character: its
   * passes select the one-character elements, never the whole name.
   */
  lemma ScalarIteratedByCharacter(key: string, s: string)
    ensures |KeySteps(key, Scalar(s))| == |s|
    ensures forall i :: 0 <= i < |s| ==> KeySteps(key, Scalar(s))[i] == Step(key, Elem([s[i]]))
  {
  }

  /** What the wrapper hands to `gather` and `validate`. */
  datatype Env = Env(
    rows: seq<Row>,
    validate: bool,
    lastTerm: string,
    get: Strategy,
    validateFn: (seq<Value>, string) -> Outcome<Validation>)

  /**
   * `term_values_list` for a field: nothing when no row is selected,
   * otherwise the homogenized values, and an exception when homogenization
   * gives nothing (or a non-iterable object).
   */
  function Homogenize(env: Env, key: string, f: FieldSpec): (r: Outcome<seq<Value>>)
    ensures Select(env.rows, f) == [] ==> r == Returned([])
    ensures r.Returned? && Select(env.rows, f) != [] ==> r.value != []
  {
    var raw := Select(env.rows, f);
    if raw == [] then Returned([])
    else
      var g := GatherSpec(env.get, raw, key);
      if !Truthy(g) then Raised("No values for metadata element resulted from the homogenization process")
      else
        match PyIter(g)
        case None => Raised("TypeError: object is not iterable")
        case Some(items) => Returned(items)
  }

  /**
   * Validate mode: the payload for the field's values, validated against
   * the leaked `term`, then overwritten by the payload already stored
   * under that `term`, if any.
   */
  function ValidatedPayload(env: Env, kw: Dict<Arg>, tvl: seq<Value>): Outcome<Arg>
  {
    var validated := if tvl == [] then Returned([]) else env.validateFn(tvl, env.lastTerm);
    match validated
    case Raised(e) => Raised(e)
    case Returned(vd) =>
      if HasKey(kw, env.lastTerm) then UpdatePayload(Payload(tvl, vd), Get(kw, env.lastTerm))
      else Returned(Payload(tvl, vd))
  }

  /** Plain mode: the field's values followed by what is already stored under the key. */
  function MergedValues(kw: Dict<Arg>, key: string, tvl: seq<Value>): Outcome<Arg>
  {
    if HasKey(kw, key) then
      match ExtendArg(Get(kw, key))
      case Raised(e) => Raised(e)
      case Returned(pv) => Returned(Values(tvl + pv))
    else Returned(Values(tvl))
  }

  /** The argument a pass stores under its key, or the exception it raises. */
  function StepArg(env: Env, kw: Dict<Arg>, s: Step): Outcome<Arg>
  {
    match Homogenize(env, s.key, s.field)
    case Raised(e) => Raised(e)
    case Returned(tvl) =>
      if env.validate then ValidatedPayload(env, kw, tvl) else MergedValues(kw, s.key, tvl)
  }

  /** One pass of the inner loop applied to `kwargs`. */
  function ApplyStep(env: Env, kw: Dict<Arg>, s: Step): Outcome<Dict<Arg>>
  {
    match StepArg(env, kw, s)
    case Raised(e) => Raised(e)
    case Returned(a) => Returned(Put(kw, s.key, a))
  }

  /** The passes run in order from the caller's `kwargs`; the first exception ends the run. */
  function RunSteps(env: Env, kw: Dict<Arg>, steps: seq<Step>): Outcome<Dict<Arg>>
  {
    if steps == [] then Returned(kw)
    else
      match RunSteps(env, kw, steps[..|steps| - 1])
      case Raised(e) => Raised(e)
      case Returned(k) => ApplyStep(env, k, steps[|steps| - 1])
  }

  lemma RunStepsSnoc(env: Env, kw: Dict<Arg>, steps: seq<Step>, s: Step)
    ensures RunSteps(env, kw, steps).Raised? ==> RunSteps(env, kw, steps + [s]) == RunSteps(env, kw, steps)
    ensures RunSteps(env, kw, steps).Returned? ==>
              RunSteps(env, kw, steps + [s]) == ApplyStep(env, RunSteps(env, kw, steps).value, s)
  {
    assert (steps + [s])[..|steps|] == steps;
  }

  /** Running two lists of passes one after the other. */
  lemma {:induction false} RunStepsAppend(env: Env, kw: Dict<Arg>, a: seq<Step>, b: seq<Step>)
    ensures RunSteps(env, kw, a).Raised? ==> RunSteps(env, kw, a + b) == RunSteps(env, kw, a)
    ensures RunSteps(env, kw, a).Returned? ==>
              RunSteps(env, kw, a + b) == RunSteps(env, RunSteps(env, kw, a).value, b)
    decreases |b|
  {
    if b == [] {
      assert a + b == a;
    } else {
      RunStepsAppend(env, kw, a, b[..|b| - 1]);
      AppendLast(a, b);
    }
  }

  /** The homogenization half of a pass: fill `term_values_list` from the selected rows. */
  method HomogenizeField(env: Env, key: string, f: FieldSpec) returns (out: Outcome<seq<Value>>)
    ensures out == Homogenize(env, key, f)
  {
    var termValues: seq<Value> := [];
    var raw := Select(env.rows, f);
    if raw != [] {
      var g := Gather(env.get, raw, key);
      if !Truthy(g) {
        return Raised("No values for metadata element resulted from the homogenization process");
      }
      var items := PyIter(g);
      if items.None? {
        return Raised("TypeError: object is not iterable");
      }
      termValues := termValues + items.value;
      assert termValues == items.value;
    }
    out := Returned(termValues);
  }

  /** One pass as the source runs it: fill `term_values_list`, then validate or merge, then store. */
  method ProcessField(env: Env, kw: Dict<Arg>, key: string, f: FieldSpec) returns (out: Outcome<Dict<Arg>>)
    ensures out == ApplyStep(env, kw, Step(key, f))
  {
    var h := HomogenizeField(env, key, f);
    if h.Raised? {
      return Raised(h.error);
    }
    var termValues := h.value;
    var arg: Arg;
    if env.validate {
      var validated: Validation := [];
      if termValues != [] {
        var v := env.validateFn(termValues, env.lastTerm);
        if v.Raised? {
          return Raised(v.error);
        }
        validated := v.value;
      }
      arg := Payload(termValues, validated);
      if HasKey(kw, env.lastTerm) {
        var merged := UpdatePayload(arg, Get(kw, env.lastTerm));
        if merged.Raised? {
          return Raised(merged.error);
        }
        arg := merged.value;
      }
      assert ValidatedPayload(env, kw, termValues) == Returned(arg);
    } else {
      if HasKey(kw, key) {
        var prev := ExtendArg(Get(kw, key));
        if prev.Raised? {
          return Raised(prev.error);
        }
        termValues := termValues + prev.value;
      }
      arg := Values(termValues);
    }
    assert StepArg(env, kw, Step(key, f)) == Returned(arg);
    out := Returned(Put(kw, key, arg));
  }

  // ---------------------------------------------------------------- score

  function CountTruthy(kw: Dict<Arg>): (k: nat)
    ensures k <= |kw|
  {
    if kw == [] then 0
    else CountTruthy(kw[..|kw| - 1]) + (if ArgTruthy(kw[|kw| - 1].1) then 1 else 0)
  }

  predicate AllTruthy(kw: Dict<Arg>)
  {
    forall i :: 0 <= i < |kw| ==> ArgTruthy(kw[i].1)
  }

  lemma {:induction false} CountTruthyAll(kw: Dict<Arg>)
    ensures CountTruthy(kw) == |kw| <==> AllTruthy(kw)
  {
    if kw != [] {
      var n := |kw| - 1;
      CountTruthyAll(kw[..n]);
      assert forall i :: 0 <= i < n ==> kw[..n][i] == kw[i];
    }
  }

  /** The wrapper's `points`: 100 when every argument is truthy, else the truthy share as a percentage. */
  function Points(kw: Dict<Arg>): real
  {
    ScoreOf(CountTruthy(kw), |kw|)
  }

  /** The wrapper's `points` for `k` truthy arguments out of `n`. */
  function ScoreOf(k: nat, n: nat): real
    requires k <= n
  {
    if k == n then 100.0 else (k as real / n as real) * 100.0
  }

  /**
   * `points` always lies in [0, 100], and it is 100 exactly when every
   * keyword argument (the caller's included) is truthy.
   */
  lemma PointsBounds(kw: Dict<Arg>)
    ensures 0.0 <= Points(kw) <= 100.0
    ensures Points(kw) == 100.0 <==> AllTruthy(kw)
    ensures !AllTruthy(kw) ==> Points(kw) == (CountTruthy(kw) as real / |kw| as real) * 100.0
  {
    CountTruthyAll(kw);
    var k := CountTruthy(kw);
    if k != |kw| {
      ShareBelowOne(k as real, |kw| as real);
    }
  }

  lemma ShareBelowOne(k: real, n: real)
    requires 0.0 <= k < n
    ensures 0.0 <= (k / n) * 100.0 < 100.0
  {
    assert k / n < 1.0;
  }

  // ---------------------------------------------------------------- the wrapper

  /** What the decorated indicator call amounts to. */
  datatype WrapperResult =
    | NotDefined                               // (0, "Metadata values are not defined in configuration ...")
    | NoAccess                                 // (0, "No access information can be found in the metadata ...")
    | Fault(error: string)                     // an exception escapes the wrapper
    | Call(kwargs: Dict<Arg>, points: real)    // the indicator is called with **kwargs, points=points

  /** `ut.check_metadata_terms_with_values`: the metadata rows that match the resolved fields. */
  type MetadataCheck = (seq<Row>, seq<TermRow>) -> seq<Row>

  function WrapperSpec(
    termList: seq<string>, tm: TermsMap, metadata: seq<Row>, check: MetadataCheck,
    validate: bool, get: Strategy, validateFn: (seq<Value>, string) -> Outcome<Validation>,
    caller: Dict<Arg>): WrapperResult
  {
    var resolved := ResolvedRows(termList, tm);
    if resolved == [] then NotDefined
    else
      var rows := check(metadata, resolved);
      if rows == [] then NoAccess
      else
        assert termList != [];
        var env := Env(rows, validate, termList[|termList| - 1], get, validateFn);
        match RunSteps(env, caller, AllSteps(tm, termList))
        case Raised(e) => Fault(e)
        case Returned(kw) =>
          if HasKey(kw, "points") then Fault("TypeError: got multiple values for keyword argument 'points'")
          else Call(kw, Points(kw))
  }

  /** The inner loop over one key's fields. */
  method ProcessKey(env: Env, kw0: Dict<Arg>, key: string, v: MapValue) returns (out: Outcome<Dict<Arg>>)
    ensures out == RunSteps(env, kw0, KeySteps(key, v))
  {
    var steps := KeySteps(key, v);
    var kw := kw0;
    var j := 0;
    while j < |steps|
      invariant 0 <= j <= |steps|
      invariant RunSteps(env, kw0, steps[..j]) == Returned(kw)
    {
      var o := ProcessField(env, kw, key, Iterated(v)[j]);
      NextStep(env, kw0, steps, j, kw, o);
      if o.Raised? {
        return o;
      }
      kw := o.value;
      j := j + 1;
    }
    assert steps[..j] == steps;
    out := Returned(kw);
  }

  lemma NextStep(env: Env, kw0: Dict<Arg>, steps: seq<Step>, j: nat, kw: Dict<Arg>, o: Outcome<Dict<Arg>>)
    requires j < |steps|
    requires RunSteps(env, kw0, steps[..j]) == Returned(kw)
    requires o == ApplyStep(env, kw, steps[j])
    ensures o.Returned? ==> RunSteps(env, kw0, steps[..j + 1]) == o
    ensures o.Raised? ==> RunSteps(env, kw0, steps) == o
  {
    RunStepsPrefixSnoc(env, kw0, steps, j);
    if o.Raised? {
      RaisedPrefixStays(env, kw0, steps, j + 1);
    }
  }

  /** One more pass after a prefix that returned. */
  lemma RunStepsPrefixSnoc(env: Env, kw: Dict<Arg>, steps: seq<Step>, j: nat)
    requires j < |steps| && RunSteps(env, kw, steps[..j]).Returned?
    ensures RunSteps(env, kw, steps[..j + 1]) == ApplyStep(env, RunSteps(env, kw, steps[..j]).value, steps[j])
  {
    assert steps[..j + 1][..j] == steps[..j];
  }

  /** The last pass of a run that returned: the passes before it returned too. */
  lemma RunStepsLast(env: Env, kw: Dict<Arg>, steps: seq<Step>)
    requires steps != [] && RunSteps(env, kw, steps).Returned?
    ensures RunSteps(env, kw, steps[..|steps| - 1]).Returned?
    ensures ApplyStep(env, RunSteps(env, kw, steps[..|steps| - 1]).value, steps[|steps| - 1]) == RunSteps(env, kw, steps)
  {
  }

  /** A run whose passes but the last already raised. */
  lemma RunStepsLastRaised(env: Env, kw: Dict<Arg>, steps: seq<Step>)
    requires steps != [] && RunSteps(env, kw, steps[..|steps| - 1]).Raised?
    ensures RunSteps(env, kw, steps) == RunSteps(env, kw, steps[..|steps| - 1])
  {
  }

  /** Once a prefix of the passes raises, so does the whole run, with the same exception. */
  lemma {:induction false} RaisedPrefixStays(env: Env, kw: Dict<Arg>, steps: seq<Step>, k: nat)
    requires k <= |steps| && RunSteps(env, kw, steps[..k]).Raised?
    ensures RunSteps(env, kw, steps) == RunSteps(env, kw, steps[..k])
  {
    if k == |steps| {
      assert steps[..k] == steps;
    } else {
      var n := |steps| - 1;
      PrefixOfPrefix(steps, n, k);
      RaisedPrefixStays(env, kw, steps[..n], k);
      RunStepsLastRaised(env, kw, steps);
    }
  }

  /** The wrapper as the source runs it. */
  method Wrapper(
    termList: seq<string>, tm: TermsMap, metadata: seq<Row>, check: MetadataCheck,
    validate: bool, get: Strategy, validateFn: (seq<Value>, string) -> Outcome<Validation>,
    caller: Dict<Arg>) returns (r: WrapperResult)
    ensures r == WrapperSpec(termList, tm, metadata, check, validate, get, validateFn, caller)
  {
    var resolved := ResolveFields(termList, tm);
    if resolved == [] {
      return NotDefined;
    }
    var rows := check(metadata, resolved);
    if rows == [] {
      return NoAccess;
    }
    var term := termList[|termList| - 1];
    var env := Env(rows, validate, term, get, validateFn);
    var run := RunKeys(env, caller, tm, termList);
    if run.Raised? {
      return Fault(run.error);
    }
    var kw := run.value;
    if HasKey(kw, "points") {
      return Fault("TypeError: got multiple values for keyword argument 'points'");
    }
    r := Call(kw, Points(kw));
  }

  /** The outer loop over `terms_map`. */
  method RunKeys(env: Env, caller: Dict<Arg>, tm: TermsMap, termList: seq<string>) returns (out: Outcome<Dict<Arg>>)
    ensures out == RunSteps(env, caller, AllSteps(tm, termList))
  {
    var kw := caller;
    var i := 0;
    while i < |tm|
      invariant 0 <= i <= |tm|
      invariant RunSteps(env, caller, AllSteps(tm[..i], termList)) == Returned(kw)
    {
      var key := tm[i].0;
      if key in termList {
        var o := ProcessKey(env, kw, key, tm[i].1);
        NextKey(env, caller, tm, termList, i, kw, o);
        if o.Raised? {
          return o;
        }
        kw := o.value;
      } else {
        SkipKey(tm, termList, i);
      }
      i := i + 1;
    }
    assert tm[..i] == tm;
    out := Returned(kw);
  }

  lemma SkipKey(tm: TermsMap, termList: seq<string>, i: nat)
    requires i < |tm| && tm[i].0 !in termList
    ensures AllSteps(tm[..i + 1], termList) == AllSteps(tm[..i], termList)
  {
    assert tm[..i + 1][..i] == tm[..i];
  }

  lemma NextKey(env: Env, caller: Dict<Arg>, tm: TermsMap, termList: seq<string>, i: nat, kw: Dict<Arg>, out: Outcome<Dict<Arg>>)
    requires i < |tm| && tm[i].0 in termList
    requires RunSteps(env, caller, AllSteps(tm[..i], termList)) == Returned(kw)
    requires out == RunSteps(env, kw, KeySteps(tm[i].0, tm[i].1))
    ensures out.Returned? ==> RunSteps(env, caller, AllSteps(tm[..i + 1], termList)) == out
    ensures out.Raised? ==> RunSteps(env, caller, AllSteps(tm, termList)) == out
  {
    assert tm[..i + 1][..i] == tm[..i];
    assert AllSteps(tm[..i + 1], termList) == AllSteps(tm[..i], termList) + KeySteps(tm[i].0, tm[i].1);
    RunStepsAppend(env, caller, AllSteps(tm[..i], termList), KeySteps(tm[i].0, tm[i].1));
    if out.Raised? {
      AllStepsSplitAt(tm, i + 1, termList);
      RunStepsAppend(env, caller, AllSteps(tm[..i + 1], termList), AllRest(tm, i + 1, termList));
    }
  }

  /** The passes for the entries of `terms_map` from position `i` on. */
  function AllRest(tm: TermsMap, i: nat, termList: seq<string>): seq<Step>
    requires i <= |tm|
    decreases |tm| - i
  {
    if i == |tm| then []
    else EntrySteps(tm[i], termList) + AllRest(tm, i + 1, termList)
  }

  lemma {:induction false} AllStepsSplitAt(tm: TermsMap, i: nat, termList: seq<string>)
    requires i <= |tm|
    ensures AllSteps(tm, termList) == AllSteps(tm[..i], termList) + AllRest(tm, i, termList)
    decreases |tm| - i
  {
    if i == |tm| {
      assert tm[..i] == tm;
    } else {
      AllStepsSplitAt(tm, i + 1, termList);
      AllStepsSnoc(tm, i, termList);
      SeqAssoc(AllSteps(tm[..i], termList), EntrySteps(tm[i], termList), AllRest(tm, i + 1, termList));
    }
  }

  lemma AllStepsSnoc(tm: TermsMap, i: nat, termList: seq<string>)
    requires i < |tm|
    ensures AllSteps(tm[..i + 1], termList) == AllSteps(tm[..i], termList) + EntrySteps(tm[i], termList)
  {
    assert tm[..i + 1][..i] == tm[..i];
  }


  // ---------------------------------------------------------------- properties of the wrapper

  /** The indicator is not called when no field is configured, or none survives the metadata check. */
  lemma WrapperDeclines(
    termList: seq<string>, tm: TermsMap, metadata: seq<Row>, check: MetadataCheck,
    validate: bool, get: Strategy, validateFn: (seq<Value>, string) -> Outcome<Validation>, caller: Dict<Arg>)
    ensures WrapperSpec(termList, tm, metadata, check, validate, get, validateFn, caller) == NotDefined
            <==> ResolvedRows(termList, tm) == []
    ensures WrapperSpec(termList, tm, metadata, check, validate, get, validateFn, caller) == NoAccess
            <==> ResolvedRows(termList, tm) != [] && check(metadata, ResolvedRows(termList, tm)) == []
  {
  }

  /** Every entry of `Put(d, k, v)` is the new entry or one of `d`'s. */
  lemma PutEntries<V>(d: Dict<V>, k: string, v: V)
    ensures forall i :: 0 <= i < |Put(d, k, v)| ==> Put(d, k, v)[i] == (k, v) || Put(d, k, v)[i] in d
  {
  }

  /** A field that selects no row stores `[]`, or an empty payload in validate mode, when nothing is stored yet. */
  lemma EmptyFieldStoresEmpty(env: Env, kw: Dict<Arg>, s: Step)
    requires Select(env.rows, s.field) == []
    ensures !env.validate && !HasKey(kw, s.key) ==>
              ApplyStep(env, kw, s).Returned? && Get(ApplyStep(env, kw, s).value, s.key) == Values([])
    ensures env.validate && !HasKey(kw, env.lastTerm) ==>
              ApplyStep(env, kw, s).Returned? && Get(ApplyStep(env, kw, s).value, s.key) == Payload([], [])
  {
  }

  /**
   * In validate mode the values are validated against the leaked `term`
   * (`env.lastTerm`, the last item of `term_list`), not against the key
   * being filled.
   */
  lemma ValidateUsesLeakedTerm(env: Env, kw: Dict<Arg>, s: Step, tvl: seq<Value>, vd: Validation)
    requires env.validate && !HasKey(kw, env.lastTerm)
    requires Homogenize(env, s.key, s.field) == Returned(tvl) && tvl != []
    requires env.validateFn(tvl, env.lastTerm) == Returned(vd)
    ensures ApplyStep(env, kw, s) == Returned(Put(kw, s.key, Payload(tvl, vd)))
  {
  }

  /** One validate-mode pass once `term` holds a payload: it stores that payload. */
  lemma PayloadStep(env: Env, kw: Dict<Arg>, s: Step)
    requires env.validate && HasKey(kw, env.lastTerm) && Get(kw, env.lastTerm).Payload?
    requires ApplyStep(env, kw, s).Returned?
    ensures ApplyStep(env, kw, s).value == Put(kw, s.key, Get(kw, env.lastTerm))
  {
  }

  /**
   * Once the leaked `term` holds a payload, `payload.update(previous)`
   * makes every later pass store that same earlier payload, whatever its
   * own values, and the payload under `term` never changes.
   */
  lemma {:induction false} EarlierPayloadWins(env: Env, kw: Dict<Arg>, steps: seq<Step>)
    requires env.validate && HasKey(kw, env.lastTerm) && Get(kw, env.lastTerm).Payload?
    requires RunSteps(env, kw, steps).Returned?
    ensures HasKey(RunSteps(env, kw, steps).value, env.lastTerm)
    ensures Get(RunSteps(env, kw, steps).value, env.lastTerm) == Get(kw, env.lastTerm)
    ensures StoresAll(RunSteps(env, kw, steps).value, steps, Get(kw, env.lastTerm))
  {
    if steps != [] {
      var n := |steps| - 1;
      RunStepsLast(env, kw, steps);
      EarlierPayloadWins(env, kw, steps[..n]);
      var r0 := RunSteps(env, kw, steps[..n]).value;
      PayloadStep(env, r0, steps[n]);
      StoresAllSnoc(r0, steps, Get(kw, env.lastTerm));
    }
  }

  /** Every pass's key holds `a`. */
  predicate StoresAll(kw: Dict<Arg>, steps: seq<Step>, a: Arg)
  {
    forall i :: 0 <= i < |steps| ==> HasKey(kw, steps[i].key) && Get(kw, steps[i].key) == a
  }

  lemma StoresAllSnoc(kw: Dict<Arg>, steps: seq<Step>, a: Arg)
    requires steps != [] && StoresAll(kw, steps[..|steps| - 1], a)
    ensures StoresAll(Put(kw, steps[|steps| - 1].key, a), steps, a)
  {
    var n := |steps| - 1;
    var r := Put(kw, steps[n].key, a);
    forall i | 0 <= i < |steps| ensures HasKey(r, steps[i].key) && Get(r, steps[i].key) == a {
      if i < n {
        assert steps[..n][i] == steps[i];
        PutOther(kw, steps[n].key, a, steps[i].key);
      }
    }
  }

  /** The values the plain (non-validating) mode collects for a pass. */
  function FieldValues(env: Env, s: Step): seq<Value>
  {
    match Homogenize(env, s.key, s.field)
    case Returned(tvl) => tvl
    case Raised(_) => []
  }

  /** The later pass's values first, then all the earlier passes' values. */
  function Stacked(env: Env, steps: seq<Step>): seq<Value>
  {
    if steps == [] then []
    else FieldValues(env, steps[|steps| - 1]) + Stacked(env, steps[..|steps| - 1])
  }

  /** One plain-mode pass: its values go in front of what the key already holds. */
  lemma PlainStep(env: Env, kw: Dict<Arg>, s: Step, prev: seq<Value>)
    requires !env.validate
    requires ApplyStep(env, kw, s).Returned?
    requires HasKey(kw, s.key) ==> Get(kw, s.key) == Values(prev)
    requires !HasKey(kw, s.key) ==> prev == []
    ensures ApplyStep(env, kw, s).value == Put(kw, s.key, Values(FieldValues(env, s) + prev))
  {
    if !HasKey(kw, s.key) {
      assert FieldValues(env, s) + prev == FieldValues(env, s);
    }
  }

  /**
   * Without validation, the passes over one key leave under that key the
   * last field's values, followed by the values of every earlier field,
   * latest first.
   */
  lemma {:induction false} PlainModeStacksValues(env: Env, kw: Dict<Arg>, key: string, steps: seq<Step>)
    requires !env.validate && !HasKey(kw, key)
    requires forall i :: 0 <= i < |steps| ==> steps[i].key == key
    requires RunSteps(env, kw, steps).Returned?
    ensures steps != [] ==> HasKey(RunSteps(env, kw, steps).value, key)
    ensures steps != [] ==> Get(RunSteps(env, kw, steps).value, key) == Values(Stacked(env, steps))
    ensures steps == [] ==> !HasKey(RunSteps(env, kw, steps).value, key)
  {
    if steps != [] {
      var n := |steps| - 1;
      var init := steps[..n];
      RunStepsLast(env, kw, steps);
      assert forall i :: 0 <= i < |init| ==> init[i].key == key;
      PlainModeStacksValues(env, kw, key, init);
      var r0 := RunSteps(env, kw, init).value;
      PlainStep(env, r0, steps[n], Stacked(env, init));
    }
  }

  /** Every argument is a payload. */
  predicate AllPayloads(kw: Dict<Arg>)
  {
    forall i :: 0 <= i < |kw| ==> kw[i].1.Payload?
  }

  lemma {:induction false} ValidateModeKeepsPayloads(env: Env, kw: Dict<Arg>, steps: seq<Step>)
    requires env.validate && AllPayloads(kw)
    requires RunSteps(env, kw, steps).Returned?
    ensures AllPayloads(RunSteps(env, kw, steps).value)
  {
    if steps != [] {
      var n := |steps| - 1;
      var init := steps[..n];
      RunStepsLast(env, kw, steps);
      ValidateModeKeepsPayloads(env, kw, init);
      var r0 := RunSteps(env, kw, init).value;
      var a := StepArg(env, r0, steps[n]).value;
      if HasKey(r0, env.lastTerm) {
        assert r0[IndexOf(r0, env.lastTerm)].1.Payload?;
      }
      assert a.Payload?;
      PutEntries(r0, steps[n].key, a);
    }
  }

  /**
   * In validate mode, with no keyword arguments from the caller, every
   * stored argument is a (truthy) payload dict, so a call always gets 100
   * points, whatever was found in the metadata.
   */
  lemma ValidateModeScoresFull(
    termList: seq<string>, tm: TermsMap, metadata: seq<Row>, check: MetadataCheck,
    get: Strategy, validateFn: (seq<Value>, string) -> Outcome<Validation>)
    requires WrapperSpec(termList, tm, metadata, check, true, get, validateFn, []).Call?
    ensures WrapperSpec(termList, tm, metadata, check, true, get, validateFn, []).points == 100.0
  {
    var env := Env(check(metadata, ResolvedRows(termList, tm)), true, termList[|termList| - 1], get, validateFn);
    ValidateModeKeepsPayloads(env, [], AllSteps(tm, termList));
    var kw := RunSteps(env, [], AllSteps(tm, termList)).value;
    PointsBounds(kw);
  }

  /** The keys of the passes. */
  predicate NotAStepKey(steps: seq<Step>, k: string)
  {
    forall i :: 0 <= i < |steps| ==> steps[i].key != k
  }

  /**
   * A caller's keyword argument whose name no pass fills reaches the
   * indicator unchanged, and so takes part in the score.
   */
  lemma {:induction false} CallerArgumentsSurvive(env: Env, kw: Dict<Arg>, steps: seq<Step>, k: string)
    requires HasKey(kw, k) && NotAStepKey(steps, k)
    requires RunSteps(env, kw, steps).Returned?
    ensures HasKey(RunSteps(env, kw, steps).value, k)
    ensures Get(RunSteps(env, kw, steps).value, k) == Get(kw, k)
  {
    if steps != [] {
      var n := |steps| - 1;
      var init := steps[..n];
      RunStepsLast(env, kw, steps);
      assert NotAStepKey(init, k);
      CallerArgumentsSurvive(env, kw, init, k);
    }
  }

  /**
   * A string `terms_map` value `""` resolves to a row but is walked over
   * zero characters, so the indicator can be called with no harmonized
   * argument at all, and then scores 100.
   */
  lemma EmptyScalarGivesNoArguments(get: Strategy, validateFn: (seq<Value>, string) -> Outcome<Validation>)
    ensures WrapperSpec(["t"], [("t", Scalar(""))], [Row("dc", "", Str("x"), None)],
                        (md, tr) => md, false, get, validateFn, []) == Call([], 100.0)
  {
    var tm: TermsMap := [("t", Scalar(""))];
    assert HasKey(tm, "t") by { assert Keys(tm)[0] == "t"; }
    assert ResolvedRows(["t"], tm) == [TermRow("", None)] by {
      assert ["t"][..0] == [];
    }
    assert AllSteps(tm, ["t"]) == [] by {
      assert tm[..0] == [];
      assert KeySteps("t", Scalar("")) == [];
    }
  }
}
