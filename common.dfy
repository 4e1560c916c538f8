/** Small failure-compatible wrappers shared by every module of the model. */
module Common {

  /** Python's `None` / a present value. */
  datatype Option<+T> = None | Some(value: T)

  /** The result of a Python call that either returns a value or raises an exception. */
  datatype Outcome<+T> = Returned(value: T) | Raised(error: string)

  /** A loop that maps every item in order and stops at the first item whose step raises. */
  function MapAll<A, B>(xs: seq<A>, f: A -> Outcome<B>): Outcome<seq<B>>
  {
    if xs == [] then Returned([])
    else
      match MapAll(xs[..|xs| - 1], f)
      case Raised(e) => Raised(e)
      case Returned(ys) =>
        match f(xs[|xs| - 1])
        case Raised(e) => Raised(e)
        case Returned(y) => Returned(ys + [y])
  }

  /** The loop raises exactly when some item's step does. */
  lemma {:induction false} MapAllFailIff<A, B>(xs: seq<A>, f: A -> Outcome<B>)
    ensures MapAll(xs, f).Raised? <==> exists i :: 0 <= i < |xs| && f(xs[i]).Raised?
  {
    if xs != [] {
      var n := |xs| - 1;
      MapAllFailIff(xs[..n], f);
      assert forall i :: 0 <= i < n ==> xs[..n][i] == xs[i];
    }
  }

  /** Otherwise it yields one result per item, in order. */
  lemma {:induction false} MapAllAt<A, B>(xs: seq<A>, f: A -> Outcome<B>)
    requires MapAll(xs, f).Returned?
    ensures |MapAll(xs, f).value| == |xs|
    ensures forall i :: 0 <= i < |xs| ==> f(xs[i]) == Returned(MapAll(xs, f).value[i])
  {
    if xs != [] {
      var n := |xs| - 1;
      MapAllAt(xs[..n], f);
      assert forall i :: 0 <= i < n ==> xs[..n][i] == xs[i];
    }
  }

  /** Once a prefix has raised, the whole loop raises the same way. */
  lemma {:induction false} MapAllFailurePersists<A, B>(xs: seq<A>, f: A -> Outcome<B>, i: nat)
    requires i <= |xs| && MapAll(xs[..i], f).Raised?
    ensures MapAll(xs, f) == MapAll(xs[..i], f)
    decreases |xs| - i
  {
    if i < |xs| {
      assert xs[..i + 1][..i] == xs[..i];
      MapAllFailurePersists(xs, f, i + 1);
    } else {
      assert xs[..i] == xs;
    }
  }

  /** One more step of the loop, after a prefix that returned `ys`. */
  lemma MapAllSnoc<A, B>(xs: seq<A>, f: A -> Outcome<B>, i: nat, ys: seq<B>)
    requires i < |xs| && MapAll(xs[..i], f) == Returned(ys)
    ensures f(xs[i]).Raised? ==> MapAll(xs[..i + 1], f) == Raised(f(xs[i]).error)
    ensures f(xs[i]).Returned? ==> MapAll(xs[..i + 1], f) == Returned(ys + [f(xs[i]).value])
  {
    assert xs[..i + 1][..i] == xs[..i];
  }

  /** Associativity of concatenation, as a step to cite. */
  lemma SeqAssoc<T>(a: seq<T>, b: seq<T>, c: seq<T>)
    ensures (a + b) + c == a + (b + c)
  {
  }

  /** The last item of a concatenation, and what comes before it. */
  lemma AppendLast<T>(a: seq<T>, b: seq<T>)
    requires b != []
    ensures (a + b)[..|a + b| - 1] == a + b[..|b| - 1]
    ensures (a + b)[|a + b| - 1] == b[|b| - 1]
  {
  }

  /** A prefix of a prefix. */
  lemma PrefixOfPrefix<T>(s: seq<T>, n: nat, k: nat)
    requires k <= n <= |s|
    ensures s[..n][..k] == s[..k]
  {
  }

  /** A comprehension `[g(x) for x in xs if ...]`, as a loop that appends the present results in order. */
  function FilterMap<A, B>(xs: seq<A>, f: A -> Option<B>): seq<B>
  {
    if xs == [] then []
    else
      var n := |xs| - 1;
      match f(xs[n])
      case None => FilterMap(xs[..n], f)
      case Some(y) => FilterMap(xs[..n], f) + [y]
  }

  /** One more item appends its result, if any. */
  lemma FilterMapSnoc<A, B>(xs: seq<A>, f: A -> Option<B>, i: nat)
    requires i < |xs|
    ensures FilterMap(xs[..i + 1], f) == FilterMap(xs[..i], f) + (if f(xs[i]).Some? then [f(xs[i]).value] else [])
  {
    assert xs[..i + 1][..i] == xs[..i];
  }

  /** The results are exactly those of the items that have one, and there are no more of them than items. */
  lemma {:induction false} FilterMapMeaning<A, B>(xs: seq<A>, f: A -> Option<B>)
    ensures |FilterMap(xs, f)| <= |xs|
    ensures forall y :: y in FilterMap(xs, f) <==> exists i :: 0 <= i < |xs| && f(xs[i]) == Some(y)
    ensures FilterMap(xs, f) == [] <==> forall i :: 0 <= i < |xs| ==> f(xs[i]).None?
  {
    if xs != [] {
      var n := |xs| - 1;
      FilterMapMeaning(xs[..n], f);
      assert forall i :: 0 <= i < n ==> xs[..n][i] == xs[i];
      forall y | exists i :: 0 <= i < |xs| && f(xs[i]) == Some(y)
        ensures y in FilterMap(xs, f)
      {
        var i :| 0 <= i < |xs| && f(xs[i]) == Some(y);
        if i < n {
          assert xs[..n][i] == xs[i];
        }
      }
    }
  }

  /** The comprehension is empty exactly when no item has a result. */
  lemma {:induction false} FilterMapNonEmpty<A, B>(xs: seq<A>, f: A -> Option<B>)
    ensures FilterMap(xs, f) != [] <==> exists i :: 0 <= i < |xs| && f(xs[i]).Some?
  {
    if xs != [] {
      var n := |xs| - 1;
      FilterMapNonEmpty(xs[..n], f);
      if f(xs[n]).None? {
        assert forall i :: 0 <= i < n ==> xs[..n][i] == xs[i];
      }
    }
  }

  /** The position of an item that produced a given result. */
  lemma {:induction false} FilterMapSource<A, B>(xs: seq<A>, f: A -> Option<B>, y: B) returns (i: nat)
    requires y in FilterMap(xs, f)
    ensures i < |xs| && f(xs[i]) == Some(y)
  {
    var n := |xs| - 1;
    if f(xs[n]) == Some(y) {
      i := n;
    } else {
      assert y in FilterMap(xs[..n], f);
      i := FilterMapSource(xs[..n], f, y);
      assert xs[..n][i] == xs[i];
    }
  }

  /** The result of an item that has one is among the results. */
  lemma {:induction false} FilterMapHas<A, B>(xs: seq<A>, f: A -> Option<B>, i: nat)
    requires i < |xs| && f(xs[i]).Some?
    ensures f(xs[i]).value in FilterMap(xs, f)
  {
    var n := |xs| - 1;
    if i < n {
      FilterMapHas(xs[..n], f, i);
      assert xs[..n][i] == xs[i];
    }
  }

  /** There are no more results than items. */
  lemma {:induction false} FilterMapLength<A, B>(xs: seq<A>, f: A -> Option<B>)
    ensures |FilterMap(xs, f)| <= |xs|
  {
    if xs != [] {
      FilterMapLength(xs[..|xs| - 1], f);
    }
  }

  /** The comprehension keeps order: over two lists one after the other, the results of each, in turn. */
  lemma {:induction false} FilterMapAppend<A, B>(a: seq<A>, b: seq<A>, f: A -> Option<B>)
    ensures FilterMap(a + b, f) == FilterMap(a, f) + FilterMap(b, f)
  {
    if b == [] {
      assert a + b == a;
    } else {
      var n := |b| - 1;
      FilterMapAppend(a, b[..n], f);
      assert (a + b)[..|a + b| - 1] == a + b[..n];
      assert (a + b)[|a + b| - 1] == b[n];
    }
  }

  /** Functions that agree everywhere give the same comprehension. */
  lemma {:induction false} FilterMapCongruent<A, B>(xs: seq<A>, f: A -> Option<B>, g: A -> Option<B>)
    requires forall x :: f(x) == g(x)
    ensures FilterMap(xs, f) == FilterMap(xs, g)
  {
    if xs != [] {
      FilterMapCongruent(xs[..|xs| - 1], f, g);
    }
  }

  /** A counter incremented for every item that satisfies `p`. */
  function Count<A>(xs: seq<A>, p: A -> bool): nat
  {
    if xs == [] then 0
    else var n := |xs| - 1; Count(xs[..n], p) + if p(xs[n]) then 1 else 0
  }

  lemma CountSnoc<A>(xs: seq<A>, p: A -> bool, i: nat)
    requires i < |xs|
    ensures Count(xs[..i + 1], p) == Count(xs[..i], p) + if p(xs[i]) then 1 else 0
  {
    assert xs[..i + 1][..i] == xs[..i];
  }

  /**
   * A loop with two counters: the first counts the items that pass `p`, the
   * second, among those, the items that also pass `q`.
   */
  method CountNested<A>(xs: seq<A>, p: A -> bool, q: A -> bool) returns (np: int, nq: int)
    requires forall x :: q(x) ==> p(x)
    ensures np == Count(xs, p) && nq == Count(xs, q)
  {
    np, nq := 0, 0;
    var i := 0;
    while i < |xs|
      invariant 0 <= i <= |xs|
      invariant np == Count(xs[..i], p) && nq == Count(xs[..i], q)
    {
      CountSnoc(xs, p, i);
      CountSnoc(xs, q, i);
      if p(xs[i]) {
        np := np + 1;
        if q(xs[i]) {
          nq := nq + 1;
        }
      }
      i := i + 1;
    }
    assert xs[..i] == xs;
  }

  /** The count is positive exactly when some item satisfies `p`, and a weaker test counts at least as many. */
  lemma {:induction false} CountMeaning<A>(xs: seq<A>, p: A -> bool, q: A -> bool)
    requires forall x :: p(x) ==> q(x)
    ensures Count(xs, p) <= Count(xs, q) <= |xs|
    ensures Count(xs, p) > 0 <==> exists i :: 0 <= i < |xs| && p(xs[i])
  {
    if xs != [] {
      var n := |xs| - 1;
      CountMeaning(xs[..n], p, q);
      assert forall i :: 0 <= i < n ==> xs[..n][i] == xs[i];
    }
  }
}
