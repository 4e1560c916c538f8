/**
 * The values that flow through the pipeline: raw metadata values, the
 * metadata table's rows, validation partitions and the keyword arguments
 * handed to an indicator.
 */
module Values {
  import opened Common
  import opened PyDict

  /**
   * A raw or homogenized metadata value. `Temporal` is the
   * `{start_date, end_date}` dict a temporal-coverage getter builds;
   * `Opaque` is any other Python object (for instance the exception class
   * some default getters return instead of raising it).
   */
  datatype Value =
    | Str(s: string)
    | NoneV
    | ListV(items: seq<Value>)
    | Temporal(startDate: string, endDate: string)
    | Opaque(name: string)

  /** Python truthiness of a value. */
  predicate Truthy(v: Value)
  {
    match v
    case Str(s) => |s| > 0
    case NoneV => false
    case ListV(xs) => |xs| > 0
    case Temporal(_, _) => true
    case Opaque(_) => true
  }

  /**
   * What `list.extend(v)` appends: the items of a list, the characters of
   * a string, the keys of a dict; `None` and other objects are not iterable.
   */
  function PyIter(v: Value): (r: Option<seq<Value>>)
    ensures v.ListV? ==> r == Some(v.items)
    ensures v.Str? ==> r.Some? && |r.value| == |v.s|
    ensures (v.NoneV? || v.Opaque?) <==> r.None?
    ensures r.Some? ==> (|r.value| > 0 <==> Truthy(v))
  {
    match v
    case Str(s) => Some(seq(|s|, i requires 0 <= i < |s| => Str([s[i]])))
    case NoneV => None
    case ListV(xs) => Some(xs)
    case Temporal(_, _) => Some([Str("start_date"), Str("end_date")])
    case Opaque(_) => None
  }

  /** One row of the metadata table: `(schema, element, text_value, qualifier)`. */
  datatype Row = Row(schema: string, element: string, textValue: Value, qualifier: Option<string>)

  /** The `{"valid": [...], "non_valid": [...]}` result for one vocabulary. */
  datatype Partition = Partition(valid: seq<Value>, nonValid: seq<Value>)

  /** Validation results keyed by vocabulary id. */
  type Validation = Dict<Partition>

  /** The list filtered by a predicate, in order. */
  function Filter(vs: seq<Value>, p: Value -> bool): (r: seq<Value>)
    ensures |r| <= |vs|
  {
    if vs == [] then []
    else if p(vs[|vs| - 1]) then Filter(vs[..|vs| - 1], p) + [vs[|vs| - 1]]
    else Filter(vs[..|vs| - 1], p)
  }

  /** The negation of a predicate. */
  function Not(p: Value -> bool): (q: Value -> bool)
    ensures forall v :: q(v) == !p(v)
  {
    v => !p(v)
  }

  /** Each value goes to `valid` if the predicate holds of it, to `nonValid` otherwise, in order. */
  function Split(vs: seq<Value>, p: Value -> bool): Partition
  {
    Partition(Filter(vs, p), Filter(vs, Not(p)))
  }

  /** The filter keeps exactly the values that pass. */
  lemma {:induction false} FilterMembers(vs: seq<Value>, p: Value -> bool)
    ensures forall i :: 0 <= i < |Filter(vs, p)| ==> p(Filter(vs, p)[i]) && Filter(vs, p)[i] in vs
    ensures forall i :: 0 <= i < |vs| && p(vs[i]) ==> vs[i] in Filter(vs, p)
  {
    if vs != [] {
      var n := |vs| - 1;
      var init := vs[..n];
      FilterMembers(init, p);
      assert forall i :: 0 <= i < n ==> init[i] == vs[i];
      assert forall x :: x in init ==> x in vs;
    }
  }

  /** A filter that every value passes changes nothing. */
  lemma FilterKeepsAll(vs: seq<Value>, p: Value -> bool)
    requires forall i :: 0 <= i < |vs| ==> p(vs[i])
    ensures Filter(vs, p) == vs
  {
    FilterKeepsPrefix(vs, p, |vs|);
    assert vs[..|vs|] == vs;
  }

  lemma {:induction false} FilterKeepsPrefix(vs: seq<Value>, p: Value -> bool, k: nat)
    requires k <= |vs|
    requires forall i :: 0 <= i < |vs| ==> p(vs[i])
    ensures Filter(vs[..k], p) == vs[..k]
  {
    if k > 0 {
      FilterKeepsPrefix(vs, p, k - 1);
      FilterSnoc(vs, p, k - 1);
      assert vs[..k - 1] + [vs[k - 1]] == vs[..k];
    }
  }

  /** One more value is appended when the predicate accepts it. */
  lemma FilterSnoc(vs: seq<Value>, p: Value -> bool, i: nat)
    requires i < |vs|
    ensures Filter(vs[..i + 1], p) == Filter(vs[..i], p) + (if p(vs[i]) then [vs[i]] else [])
  {
    assert vs[..i + 1][..i] == vs[..i];
  }

  lemma {:induction false} FilterCount(vs: seq<Value>, p: Value -> bool)
    ensures multiset(Filter(vs, p)) + multiset(Filter(vs, Not(p))) == multiset(vs)
  {
    if vs != [] {
      var init := vs[..|vs| - 1];
      FilterCount(init, p);
      assert vs == init + [vs[|vs| - 1]];
    }
  }

  /**
   * `valid` and `nonValid` partition the input: together they hold every
   * value exactly as often as the input does, `valid` holds only values
   * the predicate accepts and `nonValid` only values it rejects.
   */
  lemma SplitPartitions(vs: seq<Value>, p: Value -> bool)
    ensures multiset(Split(vs, p).valid) + multiset(Split(vs, p).nonValid) == multiset(vs)
    ensures forall v :: v in Split(vs, p).valid ==> p(v)
    ensures forall v :: v in Split(vs, p).nonValid ==> !p(v)
    ensures forall v :: v in vs ==> v in Split(vs, p).valid || v in Split(vs, p).nonValid
  {
    FilterCount(vs, p);
    FilterMembers(vs, p);
    FilterMembers(vs, Not(p));
  }

  /** A keyword argument handed to an indicator. */
  datatype Arg =
    | Values(vs: seq<Value>)
    | Payload(values: seq<Value>, validation: Validation)
    | Num(x: real)
    | Flag(b: bool)

  /** Python truthiness of a keyword argument; a payload is a two-key dict. */
  predicate ArgTruthy(a: Arg)
  {
    match a
    case Values(vs) => |vs| > 0
    case Payload(_, _) => true
    case Num(x) => x != 0.0
    case Flag(b) => b
  }

  /** What `list.extend(a)` appends for a keyword argument (a dict yields its keys). */
  function ExtendArg(a: Arg): (r: Outcome<seq<Value>>)
    ensures a.Values? ==> r == Returned(a.vs)
    ensures (a.Num? || a.Flag?) <==> r.Raised?
  {
    match a
    case Values(vs) => Returned(vs)
    case Payload(_, _) => Returned([Str("values"), Str("validation")])
    case Num(_) => Raised("TypeError: object is not iterable")
    case Flag(_) => Raised("TypeError: object is not iterable")
  }

  /**
   * `payload.update(prev)`: a previous payload overwrites both keys; the
   * empty list changes nothing; anything else is not a sequence of pairs.
   */
  function UpdatePayload(payload: Arg, prev: Arg): (r: Outcome<Arg>)
    requires payload.Payload?
    ensures prev.Payload? ==> r == Returned(prev)
    ensures prev == Values([]) ==> r == Returned(payload)
  {
    match prev
    case Payload(_, _) => Returned(prev)
    case Values(vs) =>
      if vs == [] then Returned(payload) else Raised("ValueError: dictionary update sequence element")
    case Num(_) => Raised("TypeError: object is not iterable")
    case Flag(_) => Raised("TypeError: object is not iterable")
  }
}
