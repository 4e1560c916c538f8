/**
 * Homogenization of raw metadata values (`MetadataValuesBase.gather` in
 * api/evaluator.py): every raw value goes through the plugin's getter for
 * the harmonized category, and an exception anywhere falls back to the
 * input values.
 */
module Gatherer {
  import opened Common
  import opened Values

  /** The `_get_*` class methods a plugin may override. */
  datatype Getter =
    | MetadataIds | DataIds | TemporalCoverage | SpatialCoverage | PersonIds
    | Keywords | Formats | ResourceDiscovery | Accessibility | MetadataConnection

  /**
   * How `gather` treats a harmonized category: categories whose getter's
   * `None` results are dropped, categories that keep every result, and the
   * rest, which raise `NotImplementedError`.
   */
  datatype Category = DropsNone(g: Getter) | KeepsAll(g: Getter) | Unsupported

  function CategoryOf(element: string): Category
  {
    if element == "Metadata Identifier" then DropsNone(MetadataIds)
    else if element == "Data Identifier" then DropsNone(DataIds)
    else if element == "Temporal Coverage" then DropsNone(TemporalCoverage)
    else if element == "Spatial Coverage" then DropsNone(SpatialCoverage)
    else if element == "Person Identifier" then DropsNone(PersonIds)
    else if element == "Keywords" then DropsNone(Keywords)
    else if element == "Format" then DropsNone(Formats)
    else if element == "Metadata for Resource Discovery" then KeepsAll(ResourceDiscovery)
    else if element == "Metadata for accesibility" then KeepsAll(Accessibility)
    else if element == "Metadata connection" then KeepsAll(MetadataConnection)
    else if element == "Data connection" then KeepsAll(DataIds)
    else Unsupported
  }

  /** A plugin's getters: the value a getter returns for a raw value, or the exception it raises. */
  type Strategy = (Getter, Value) -> Outcome<Value>

  /** The class object `NotImplementedError`, which some defaults return instead of raising. */
  const NotImplementedClass: Value := Opaque("NotImplementedError")

  /**
   * The defaults of `MetadataValuesBase`: identifiers raise, the temporal
   * getter has a second parameter and so raises when called with one
   * argument, formats / spatial coverage / metadata connection return the
   * exception class, the rest return their input.
   */
  function BaseGet(g: Getter, v: Value): Outcome<Value>
  {
    match g
    case MetadataIds => Raised("NotImplementedError")
    case DataIds => Raised("NotImplementedError")
    case TemporalCoverage => Raised("TypeError: missing argument 'matching_vocabularies'")
    case Formats => Returned(NotImplementedClass)
    case SpatialCoverage => Returned(NotImplementedClass)
    case MetadataConnection => Returned(NotImplementedClass)
    case ResourceDiscovery => Returned(v)
    case PersonIds => Returned(v)
    case Keywords => Returned(v)
    case Accessibility => Returned(v)
  }

  /** The main loop of `gather`: the values collected so far, or the index of the raw value that raised. */
  datatype Collect = Done(values: seq<Value>) | FailedAt(index: nat)

  function Collected(get: Strategy, vs: seq<Value>, c: Category): (r: Collect)
    ensures r.FailedAt? ==> r.index < |vs|
  {
    if vs == [] then Done([])
    else
      var n := |vs| - 1;
      match Collected(get, vs[..n], c)
      case FailedAt(i) => FailedAt(i)
      case Done(acc) => CollectStep(get, c, acc, vs[n], n)
  }

  /** One iteration of the main loop on the raw value `v` at position `n`. */
  function CollectStep(get: Strategy, c: Category, acc: seq<Value>, v: Value, n: nat): Collect
  {
    match c
    case Unsupported => FailedAt(n)
    case DropsNone(g) =>
      (match get(g, v)
       case Raised(_) => FailedAt(n)
       case Returned(x) => Done(if x.NoneV? then acc else acc + [x]))
    case KeepsAll(g) =>
      (match get(g, v)
       case Raised(_) => FailedAt(n)
       case Returned(x) => Done(acc + [x]))
  }

  lemma CollectedSnoc(get: Strategy, vs: seq<Value>, c: Category, i: nat, acc: seq<Value>)
    requires i < |vs| && Collected(get, vs[..i], c) == Done(acc)
    ensures Collected(get, vs[..i + 1], c) == CollectStep(get, c, acc, vs[i], i)
  {
    assert vs[..i + 1][..i] == vs[..i];
  }

  /**
   * The `except` branch: the failing raw value, replaced by `[s]` for every
   * string input `s` in turn, so the last string input wins.
   */
  function Fallback(vs: seq<Value>, failing: Value): Value
  {
    if vs == [] then failing
    else if vs[|vs| - 1].Str? then ListV([vs[|vs| - 1]])
    else Fallback(vs[..|vs| - 1], failing)
  }

  /** What `gather(vs, element)` returns (the `finally` clause returns it, so `gather` never raises). */
  function GatherSpec(get: Strategy, vs: seq<Value>, element: string): Value
  {
    match Collected(get, vs, CategoryOf(element))
    case Done(acc) => ListV(acc)
    case FailedAt(i) => Fallback(vs, vs[i])
  }

  lemma {:induction false} FailurePersists(get: Strategy, vs: seq<Value>, k: nat, c: Category)
    requires k <= |vs| && Collected(get, vs[..k], c).FailedAt?
    ensures Collected(get, vs, c) == Collected(get, vs[..k], c)
    decreases |vs| - k
  {
    if k < |vs| {
      var n := |vs| - 1;
      assert vs[..n][..k] == vs[..k];
      FailurePersists(get, vs[..n], k, c);
    } else {
      assert vs[..k] == vs;
    }
  }

  /** `gather` as the source runs it: a loop that appends, then the fallback loop on an exception. */
  method Gather(get: Strategy, vs: seq<Value>, element: string) returns (r: Value)
    ensures r == GatherSpec(get, vs, element)
  {
    var c := CategoryOf(element);
    var acc: seq<Value> := [];
    var failed := false;
    var i := 0;
    while i < |vs| && !failed
      invariant 0 <= i <= |vs|
      invariant !failed ==> Collected(get, vs[..i], c) == Done(acc)
      invariant failed ==> 0 < i && Collected(get, vs[..i], c) == FailedAt(i - 1)
    {
      CollectedSnoc(get, vs, c, i, acc);
      match c {
        case Unsupported =>
          failed := true;
        case DropsNone(g) =>
          match get(g, vs[i]) {
            case Raised(_) => failed := true;
            case Returned(x) => if !x.NoneV? { acc := acc + [x]; }
          }
        case KeepsAll(g) =>
          match get(g, vs[i]) {
            case Raised(_) => failed := true;
            case Returned(x) => acc := acc + [x];
          }
      }
      i := i + 1;
    }
    if !failed {
      assert vs[..i] == vs;
      r := ListV(acc);
    } else {
      FailurePersists(get, vs, i, c);
      r := FallbackLoop(vs, vs[i - 1]);
    }
  }

  /** The `except` branch's loop over the string inputs. */
  method FallbackLoop(vs: seq<Value>, failing: Value) returns (r: Value)
    ensures r == Fallback(vs, failing)
  {
    r := failing;
    var j := 0;
    while j < |vs|
      invariant 0 <= j <= |vs|
      invariant r == Fallback(vs[..j], failing)
    {
      assert vs[..j + 1][..j] == vs[..j];
      if vs[j].Str? {
        r := ListV([vs[j]]);
      }
      j := j + 1;
    }
    assert vs[..j] == vs;
  }

  /** The getter returns a value (does not raise) on every raw value. */
  predicate NeverRaises(get: Strategy, g: Getter, vs: seq<Value>)
  {
    forall i :: 0 <= i < |vs| ==> get(g, vs[i]).Returned?
  }

  /** The getter's results, one per raw value, in order. */
  function Results(get: Strategy, g: Getter, vs: seq<Value>): (r: seq<Value>)
    requires NeverRaises(get, g, vs)
    ensures |r| == |vs|
  {
    seq(|vs|, i requires 0 <= i < |vs| && NeverRaises(get, g, vs) => get(g, vs[i]).value)
  }

  function IsNotNone(v: Value): bool
  {
    !v.NoneV?
  }

  /**
   * For the appending categories, a getter that never raises contributes
   * exactly its result for each raw value, in input order.
   */
  lemma {:induction false} GatherKeepsEveryResult(get: Strategy, vs: seq<Value>, element: string)
    requires CategoryOf(element).KeepsAll?
    requires NeverRaises(get, CategoryOf(element).g, vs)
    ensures GatherSpec(get, vs, element) == ListV(Results(get, CategoryOf(element).g, vs))
  {
    KeepsAllCollects(get, vs, CategoryOf(element).g);
  }

  lemma {:induction false} KeepsAllCollects(get: Strategy, vs: seq<Value>, g: Getter)
    requires NeverRaises(get, g, vs)
    ensures Collected(get, vs, KeepsAll(g)) == Done(Results(get, g, vs))
  {
    if vs != [] {
      var n := |vs| - 1;
      assert NeverRaises(get, g, vs[..n]);
      KeepsAllCollects(get, vs[..n], g);
      assert Results(get, g, vs) == Results(get, g, vs[..n]) + [get(g, vs[n]).value];
    }
  }

  /**
   * For the categories that drop `None`, a getter that never raises
   * contributes its non-`None` results, in input order.
   */
  lemma {:induction false} GatherDropsNoneResults(get: Strategy, vs: seq<Value>, element: string)
    requires CategoryOf(element).DropsNone?
    requires NeverRaises(get, CategoryOf(element).g, vs)
    ensures GatherSpec(get, vs, element) == ListV(Filter(Results(get, CategoryOf(element).g, vs), IsNotNone))
  {
    DropsNoneCollects(get, vs, CategoryOf(element).g);
  }

  lemma {:induction false} DropsNoneCollects(get: Strategy, vs: seq<Value>, g: Getter)
    requires NeverRaises(get, g, vs)
    ensures Collected(get, vs, DropsNone(g)) == Done(Filter(Results(get, g, vs), IsNotNone))
  {
    if vs != [] {
      var n := |vs| - 1;
      assert NeverRaises(get, g, vs[..n]);
      DropsNoneCollects(get, vs[..n], g);
      var rs := Results(get, g, vs);
      assert rs[..n] == Results(get, g, vs[..n]);
    }
  }

  lemma FallbackShape(vs: seq<Value>, failing: Value)
    ensures (forall j :: 0 <= j < |vs| ==> !vs[j].Str?) ==> Fallback(vs, failing) == failing
    ensures forall k :: 0 <= k < |vs| && vs[k].Str? && NoStrAfter(vs, k) ==> Fallback(vs, failing) == ListV([vs[k]])
  {
    if forall j :: 0 <= j < |vs| ==> !vs[j].Str? {
      FallbackNoStr(vs, failing);
    }
    forall k | 0 <= k < |vs| && vs[k].Str? && NoStrAfter(vs, k) ensures Fallback(vs, failing) == ListV([vs[k]]) {
      FallbackLastStr(vs, failing, k);
    }
  }

  /** No string value comes after position `k`. */
  predicate NoStrAfter(vs: seq<Value>, k: nat)
  {
    forall j :: k < j < |vs| ==> !vs[j].Str?
  }

  lemma {:induction false} FallbackNoStr(vs: seq<Value>, failing: Value)
    requires forall j :: 0 <= j < |vs| ==> !vs[j].Str?
    ensures Fallback(vs, failing) == failing
  {
    if vs != [] {
      var n := |vs| - 1;
      assert forall j :: 0 <= j < n ==> vs[..n][j] == vs[j];
      FallbackNoStr(vs[..n], failing);
    }
  }

  lemma {:induction false} FallbackLastStr(vs: seq<Value>, failing: Value, k: nat)
    requires k < |vs| && vs[k].Str? && NoStrAfter(vs, k)
    ensures Fallback(vs, failing) == ListV([vs[k]])
  {
    var n := |vs| - 1;
    if k < n {
      assert !vs[n].Str?;
      var init := vs[..n];
      assert forall j :: k < j < n ==> init[j] == vs[j];
      assert init[k] == vs[k];
      FallbackLastStr(init, failing, k);
    }
  }

  /**
   * When a getter raises (or the category is unsupported) the values
   * collected so far are discarded: with some string input the result is
   * the last string input alone in a list, with none it is the raw value
   * that raised, which need not be a list at all.
   */
  lemma GatherFailureFallback(get: Strategy, vs: seq<Value>, element: string)
    requires Collected(get, vs, CategoryOf(element)).FailedAt?
    ensures (forall j :: 0 <= j < |vs| ==> !vs[j].Str?) ==>
              GatherSpec(get, vs, element) == vs[Collected(get, vs, CategoryOf(element)).index]
    ensures forall k :: 0 <= k < |vs| && vs[k].Str? && NoStrAfter(vs, k) ==>
              GatherSpec(get, vs, element) == ListV([vs[k]])
  {
    FallbackShape(vs, vs[Collected(get, vs, CategoryOf(element)).index]);
  }

  /** An unsupported category fails on the very first raw value; with no raw values there is nothing to fail on. */
  lemma {:induction false} UnsupportedFailsFirst(get: Strategy, vs: seq<Value>, element: string)
    requires CategoryOf(element).Unsupported?
    ensures vs == [] ==> GatherSpec(get, vs, element) == ListV([])
    ensures vs != [] ==> Collected(get, vs, CategoryOf(element)) == FailedAt(0)
  {
    if vs != [] {
      assert vs[..1][..0] == [];
      FailurePersists(get, vs, 1, CategoryOf(element));
    }
  }

  /** With the base class's getters every Format value becomes the (truthy) exception class. */
  lemma {:induction false} BaseFormatsAreOpaque(vs: seq<Value>)
    ensures GatherSpec(BaseGet, vs, "Format") == ListV(seq(|vs|, i => NotImplementedClass))
  {
    assert NeverRaises(BaseGet, Formats, vs);
    DropsNoneCollects(BaseGet, vs, Formats);
    BaseFormatsFilter(vs);
  }

  lemma BaseFormatsFilter(vs: seq<Value>)
    ensures NeverRaises(BaseGet, Formats, vs)
    ensures Filter(Results(BaseGet, Formats, vs), IsNotNone) == seq(|vs|, i => NotImplementedClass)
  {
    assert NeverRaises(BaseGet, Formats, vs);
    var rs := Results(BaseGet, Formats, vs);
    assert forall i :: 0 <= i < |rs| ==> rs[i] == NotImplementedClass;
    FilterKeepsAll(rs, IsNotNone);
    assert rs == seq(|vs|, i => NotImplementedClass);
  }
}
