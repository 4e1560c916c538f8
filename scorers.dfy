/**
 * The indicator scorers of `EvaluatorBase`: the identifier checks, the
 * basic score of validated elements, the resource-discovery count, the
 * reusability share, the qualified-references decision, the SPDX licence
 * check and the accumulation of the controlled vocabularies in use.
 * Points are reals; Python's `round` is written out (ties to even).
 */
module Scorers {
  import opened Common
  import opened PyStr
  import opened PyDict
  import opened Values
  import opened Harmonizer

  // ---------------------------------------------------------------- rounding

  /** Python's `round(x)`: the nearest integer, ties going to the even one. */
  function Round(x: real): (r: int)
    ensures x - 0.5 <= r as real <= x + 0.5
    ensures (r as real - x == 0.5 || x - r as real == 0.5) ==> r % 2 == 0
  {
    var f := x.Floor;
    var d := x - f as real;
    if d < 0.5 then f
    else if d > 0.5 then f + 1
    else if f % 2 == 0 then f else f + 1
  }

  /** Rounding never leaves an integer interval. */
  lemma RoundWithin(x: real, lo: int, hi: int)
    requires lo as real <= x <= hi as real
    ensures lo <= Round(x) <= hi
  {
    var r := Round(x);
    assert (lo - 1) as real < r as real < (hi + 1) as real;
  }

  // ---------------------------------------------------------------- eval_persistency / eval_uniqueness

  /** The message for one identifier: whether it passed and the points it carries. */
  datatype IdVerdict = IdVerdict(id: Value, passed: bool, points: int)

  datatype IdScore = IdScore(points: int, messages: seq<IdVerdict>)

  /** `round(100 / len(id_list))`. */
  function PerId(n: nat): int
    requires n > 0
  {
    Round(100.0 / n as real)
  }

  /** A single identifier takes all 100 points; from 200 identifiers on, a passing one carries 0. */
  lemma PerIdBounds(n: nat)
    requires n > 0
    ensures 0 <= PerId(n) <= 100
    ensures n == 1 ==> PerId(n) == 100
    ensures n >= 200 ==> PerId(n) == 0
  {
    assert 0.0 < 100.0 / n as real <= 100.0;
    RoundWithin(100.0 / n as real, 0, 100);
    if n >= 200 {
      assert 100.0 / n as real <= 0.5;
      assert (100.0 / n as real).Floor == 0;
    }
  }

  /** One verdict per identifier, in order. */
  function Verdicts(ids: seq<Value>, ok: Value -> bool, per: int): seq<IdVerdict>
  {
    if ids == [] then []
    else
      var id := ids[|ids| - 1];
      Verdicts(ids[..|ids| - 1], ok, per) + [IdVerdict(id, ok(id), if ok(id) then per else 0)]
  }

  lemma {:induction false} VerdictsAt(ids: seq<Value>, ok: Value -> bool, per: int)
    ensures |Verdicts(ids, ok, per)| == |ids|
    ensures forall i :: 0 <= i < |ids| ==>
              Verdicts(ids, ok, per)[i] == IdVerdict(ids[i], ok(ids[i]), if ok(ids[i]) then per else 0)
  {
    if ids != [] {
      var n := |ids| - 1;
      VerdictsAt(ids[..n], ok, per);
      assert forall i :: 0 <= i < n ==> ids[..n][i] == ids[i];
    }
  }

  /**
   * What `eval_persistency` (with `is_persistent_id`) and `eval_uniqueness`
   * (with `is_unique_id`) return: 100 points when some identifier passes,
   * else 0, plus one verdict per identifier; an empty list divides by zero.
   */
  function EvalIdsSpec(ids: seq<Value>, ok: Value -> bool): Outcome<IdScore>
  {
    if ids == [] then Raised("ZeroDivisionError: division by zero")
    else
      var passes := exists i :: 0 <= i < |ids| && ok(ids[i]);
      Returned(IdScore(if passes then 100 else 0, Verdicts(ids, ok, PerId(|ids|))))
  }

  method EvalIds(ids: seq<Value>, ok: Value -> bool) returns (r: Outcome<IdScore>)
    ensures r == EvalIdsSpec(ids, ok)
  {
    if |ids| == 0 {
      return Raised("ZeroDivisionError: division by zero");
    }
    var per := Round(100.0 / |ids| as real);
    var points := 0;
    var msgs: seq<IdVerdict> := [];
    var i := 0;
    while i < |ids|
      invariant 0 <= i <= |ids|
      invariant msgs == Verdicts(ids[..i], ok, per)
      invariant points == (if exists j :: 0 <= j < i && ok(ids[j]) then 100 else 0)
    {
      assert ids[..i + 1][..i] == ids[..i];
      if ok(ids[i]) {
        msgs := msgs + [IdVerdict(ids[i], true, per)];
        points := 100;
      } else {
        msgs := msgs + [IdVerdict(ids[i], false, 0)];
      }
      i := i + 1;
    }
    assert ids[..i] == ids;
    r := Returned(IdScore(points, msgs));
  }

  /**
   * The identifier scores in full: 100 iff some identifier passes, else 0;
   * message `i` is about identifier `i` and carries `round(100/n)` when it
   * passes and 0 otherwise.
   */
  lemma EvalIdsScores(ids: seq<Value>, ok: Value -> bool)
    ensures EvalIdsSpec(ids, ok).Raised? <==> ids == []
    ensures ids != [] ==>
              var s := EvalIdsSpec(ids, ok).value;
              (s.points == 100 <==> exists i :: 0 <= i < |ids| && ok(ids[i])) &&
              (s.points == 0 <==> forall i :: 0 <= i < |ids| ==> !ok(ids[i])) &&
              |s.messages| == |ids| &&
              forall i :: 0 <= i < |ids| ==>
                s.messages[i].id == ids[i] && s.messages[i].passed == ok(ids[i]) &&
                s.messages[i].points == (if ok(ids[i]) then PerId(|ids|) else 0)
  {
    if ids != [] {
      VerdictsAt(ids, ok, PerId(|ids|));
    }
  }

  // ---------------------------------------------------------------- eval_validated_basic

  /** Some vocabulary of a validation result has a non-empty `valid` list. */
  function AnyValid(vd: Validation): bool
  {
    if vd == [] then false
    else AnyValid(vd[..|vd| - 1]) || |vd[|vd| - 1].1.valid| > 0
  }

  lemma {:induction false} AnyValidExists(vd: Validation)
    ensures AnyValid(vd) <==> exists j :: 0 <= j < |vd| && |vd[j].1.valid| > 0
  {
    if vd != [] {
      var n := |vd| - 1;
      AnyValidExists(vd[..n]);
      assert forall j :: 0 <= j < n ==> vd[..n][j] == vd[j];
    }
  }

  /** A metadata element "uses a vocabulary": it is a payload dict and some vocabulary found a valid value. */
  predicate UsesVocabulary(a: Arg)
  {
    a.Payload? && AnyValid(a.validation)
  }

  /** The elements using a vocabulary, in `kwargs` order. */
  function UsingElements(d: Dict<Arg>): seq<string>
  {
    if d == [] then []
    else
      var n := |d| - 1;
      UsingElements(d[..n]) + (if UsesVocabulary(d[n].1) then [d[n].0] else [])
  }

  lemma {:induction false} UsingElementsMembers(d: Dict<Arg>)
    ensures |UsingElements(d)| <= |d|
    ensures forall k :: k in UsingElements(d) <==> exists i :: 0 <= i < |d| && d[i].0 == k && UsesVocabulary(d[i].1)
  {
    if d != [] {
      var n := |d| - 1;
      UsingElementsMembers(d[..n]);
      assert forall i :: 0 <= i < n ==> d[..n][i] == d[i];
    }
  }

  /** `used / total * 100`, or 0 for an empty payload. */
  function BasicShare(used: nat, total: nat): real
  {
    if total > 0 then (used as real / total as real) * 100.0 else 0.0
  }

  /** `kwargs` once `"points"` has been deleted from it. */
  function WithoutPoints(d: Dict<Arg>): (r: Dict<Arg>)
    ensures !HasKey(r, "points")
    ensures forall k :: k != "points" ==> (HasKey(r, k) <==> HasKey(d, k))
    ensures !HasKey(d, "points") ==> r == d
  {
    if HasKey(d, "points") then Del(d, "points") else d
  }

  /**
   * `eval_validated_basic`: deletes `"points"` from the payload it is given
   * (the new payload is `rest`), lists the elements using a vocabulary,
   * and scores their share of all the elements left.
   */
  method EvalValidatedBasic(payload: Dict<Arg>) returns (rest: Dict<Arg>, used: seq<string>, points: real)
    ensures rest == WithoutPoints(payload)
    ensures used == UsingElements(rest)
    ensures points == BasicShare(|used|, |rest|)
  {
    rest := WithoutPoints(payload);
    used := [];
    var i := 0;
    while i < |rest|
      invariant 0 <= i <= |rest|
      invariant used == UsingElements(rest[..i])
    {
      UsingElementsSnoc(rest, i);
      var data := rest[i].1;
      if data.Payload? {
        var inUse := InUse(data.validation);
        if inUse {
          used := used + [rest[i].0];
        }
      }
      i := i + 1;
    }
    assert rest[..i] == rest;
    points := if |rest| > 0 then (|used| as real / |rest| as real) * 100.0 else 0.0;
  }

  /** The inner loop of `eval_validated_basic`: does some vocabulary have a valid value? */
  method InUse(vd: Validation) returns (inUse: bool)
    ensures inUse == AnyValid(vd)
  {
    inUse := false;
    var j := 0;
    while j < |vd|
      invariant 0 <= j <= |vd|
      invariant inUse == AnyValid(vd[..j])
    {
      assert vd[..j + 1][..j] == vd[..j];
      if |vd[j].1.valid| > 0 {
        inUse := true;
      }
      j := j + 1;
    }
    assert vd[..j] == vd;
  }

  lemma UsingElementsSnoc(d: Dict<Arg>, i: nat)
    requires i < |d|
    ensures UsingElements(d[..i + 1]) == UsingElements(d[..i]) + (if UsesVocabulary(d[i].1) then [d[i].0] else [])
  {
    assert d[..i + 1][..i] == d[..i];
  }

  /**
   * The basic score lies in [0, 100], is 100 exactly when every element
   * left uses a vocabulary, and an element that is not a payload dict is
   * never counted as using one, though it stays in the denominator.
   */
  lemma BasicScoreBounds(payload: Dict<Arg>)
    ensures var rest := WithoutPoints(payload);
            var s := BasicShare(|UsingElements(rest)|, |rest|);
            0.0 <= s <= 100.0 &&
            (|rest| > 0 ==> (s == 100.0 <==> |UsingElements(rest)| == |rest|)) &&
            (|rest| == 0 ==> s == 0.0)
  {
    var rest := WithoutPoints(payload);
    UsingElementsMembers(rest);
    ShareFacts(|UsingElements(rest)|, |rest|);
  }

  lemma ShareFacts(u: nat, n: nat)
    requires u <= n
    ensures 0.0 <= BasicShare(u, n) <= 100.0
    ensures n > 0 ==> (BasicShare(u, n) == 100.0 <==> u == n)
    ensures n == 0 ==> BasicShare(u, n) == 0.0
  {
    if n > 0 {
      if u < n {
        ShareBelowOne(u as real, n as real);
      } else {
        assert u as real / n as real == 1.0;
      }
    }
  }

  /** An element counts iff it is a payload with some non-empty `valid` list. */
  lemma UsingElementsIff(d: Dict<Arg>, k: string)
    requires WellFormed(d)
    ensures k in UsingElements(d) <==>
              HasKey(d, k) && Get(d, k).Payload? &&
              exists j :: 0 <= j < |Get(d, k).validation| && |Get(d, k).validation[j].1.valid| > 0
  {
    UsingElementsMembers(d);
    if k in UsingElements(d) {
      var i :| 0 <= i < |d| && d[i].0 == k && UsesVocabulary(d[i].1);
      GetAt(d, i);
      AnyValidExists(d[i].1.validation);
    }
    if HasKey(d, k) && Get(d, k).Payload? {
      var i := IndexOf(d, k);
      AnyValidExists(d[i].1.validation);
    }
  }

  // ---------------------------------------------------------------- rda_i1_01m

  /** The vocabulary ids with a valid value, appended to `cvs` when not already there. */
  function AddVocabularies(cvs: seq<string>, vd: Validation): seq<string>
  {
    if vd == [] then cvs
    else
      var acc := AddVocabularies(cvs, vd[..|vd| - 1]);
      var e := vd[|vd| - 1];
      if |e.1.valid| > 0 && e.0 !in acc then acc + [e.0] else acc
  }

  /**
   * `cvs` only grows, keeps its order, stays free of duplicates, and gains
   * exactly the vocabulary ids with some valid value.
   */
  lemma {:induction false} AddVocabulariesGrows(cvs: seq<string>, vd: Validation)
    ensures |cvs| <= |AddVocabularies(cvs, vd)| && AddVocabularies(cvs, vd)[..|cvs|] == cvs
    ensures Distinct(cvs) ==> Distinct(AddVocabularies(cvs, vd))
    ensures forall x :: x in AddVocabularies(cvs, vd) <==>
              x in cvs || exists j :: 0 <= j < |vd| && vd[j].0 == x && |vd[j].1.valid| > 0
  {
    if vd != [] {
      var n := |vd| - 1;
      AddVocabulariesGrows(cvs, vd[..n]);
      assert forall j :: 0 <= j < n ==> vd[..n][j] == vd[j];
      var acc := AddVocabularies(cvs, vd[..n]);
      if |vd[n].1.valid| > 0 && vd[n].0 !in acc {
        assert (acc + [vd[n].0])[..|cvs|] == acc[..|cvs|];
      }
    }
  }

  /** `self.cvs` after the loop of `rda_i1_01m`, and whether an element without `.get` stopped it. */
  datatype CvsRun = CvsRun(cvs: seq<string>, failed: bool)

  function CvsAfter(cvs: seq<string>, kw: Dict<Arg>): CvsRun
  {
    if kw == [] then CvsRun(cvs, false)
    else
      var r := CvsAfter(cvs, kw[..|kw| - 1]);
      var e := kw[|kw| - 1];
      if r.failed || e.0 == "points" then r
      else if !e.1.Payload? then CvsRun(r.cvs, true)
      else CvsRun(AddVocabularies(r.cvs, e.1.validation), false)
  }

  /**
   * The controlled vocabularies the evaluator has seen in use; they
   * accumulate over the indicators it runs.
   */
  class Evaluator {
    var cvs: seq<string>

    constructor ()
      ensures cvs == []
    {
      cvs := [];
    }

    /**
     * `rda_i1_01m`: the basic score of the validated elements, recording
     * every vocabulary with a valid value in `cvs`. An element that is not
     * a payload dict raises, after the earlier elements were recorded.
     */
    method RdaI1_01m(kw: Dict<Arg>) returns (r: Outcome<real>)
      modifies this
      ensures cvs == CvsAfter(old(cvs), WithoutPoints(kw)).cvs
      ensures r == if CvsAfter(old(cvs), WithoutPoints(kw)).failed then Raised("AttributeError: object has no attribute 'get'")
                   else Returned(BasicShare(|UsingElements(WithoutPoints(kw))|, |WithoutPoints(kw)|))
    {
      var rest, used, points := EvalValidatedBasic(kw);
      var i := 0;
      while i < |rest|
        invariant 0 <= i <= |rest|
        invariant CvsAfter(old(cvs), rest[..i]) == CvsRun(cvs, false)
      {
        assert rest[..i + 1][..i] == rest[..i];
        var element := rest[i].0;
        var data := rest[i].1;
        if element != "points" {
          if !data.Payload? {
            CvsFailurePersists(old(cvs), rest, i + 1);
            return Raised("AttributeError: object has no attribute 'get'");
          }
          var j := 0;
          ghost var start := cvs;
          while j < |data.validation|
            invariant 0 <= j <= |data.validation|
            invariant cvs == AddVocabularies(start, data.validation[..j])
          {
            assert data.validation[..j + 1][..j] == data.validation[..j];
            if |data.validation[j].1.valid| > 0 && data.validation[j].0 !in cvs {
              cvs := cvs + [data.validation[j].0];
            }
            j := j + 1;
          }
          assert data.validation[..j] == data.validation;
        }
        i := i + 1;
      }
      assert rest[..i] == rest;
      r := Returned(points);
    }
  }

  lemma {:induction false} CvsFailurePersists(cvs: seq<string>, kw: Dict<Arg>, i: nat)
    requires i <= |kw| && CvsAfter(cvs, kw[..i]).failed
    ensures CvsAfter(cvs, kw) == CvsAfter(cvs, kw[..i])
    decreases |kw| - i
  {
    if i < |kw| {
      assert kw[..i + 1][..i] == kw[..i];
      CvsFailurePersists(cvs, kw, i + 1);
    } else {
      assert kw[..i] == kw;
    }
  }

  /**
   * Across the elements, `cvs` keeps what it had, in order, stays free of
   * duplicates, and what it gains is a vocabulary with a valid value in
   * some payload.
   */
  lemma {:induction false} CvsAfterGrows(cvs: seq<string>, kw: Dict<Arg>)
    ensures |cvs| <= |CvsAfter(cvs, kw).cvs| && CvsAfter(cvs, kw).cvs[..|cvs|] == cvs
    ensures Distinct(cvs) ==> Distinct(CvsAfter(cvs, kw).cvs)
    ensures forall x :: x in CvsAfter(cvs, kw).cvs && x !in cvs ==>
              exists i :: 0 <= i < |kw| && kw[i].1.Payload? &&
                exists j :: 0 <= j < |kw[i].1.validation| &&
                  kw[i].1.validation[j].0 == x && |kw[i].1.validation[j].1.valid| > 0
  {
    if kw != [] {
      var n := |kw| - 1;
      CvsAfterGrows(cvs, kw[..n]);
      assert forall i :: 0 <= i < n ==> kw[..n][i] == kw[i];
      var r := CvsAfter(cvs, kw[..n]);
      if !r.failed && kw[n].0 != "points" && kw[n].1.Payload? {
        AddVocabulariesGrows(r.cvs, kw[n].1.validation);
        var after := AddVocabularies(r.cvs, kw[n].1.validation);
        assert after[..|r.cvs|] == r.cvs;
        assert after[..|cvs|] == r.cvs[..|cvs|];
      }
    }
  }

  /** Running the indicator over payloads only never fails, and records every vocabulary in use. */
  lemma {:induction false} CvsAfterRecordsAll(cvs: seq<string>, kw: Dict<Arg>)
    requires forall i :: 0 <= i < |kw| ==> kw[i].1.Payload?
    ensures !CvsAfter(cvs, kw).failed
    ensures forall i, j ::
              (0 <= i < |kw| && kw[i].0 != "points" && 0 <= j < |kw[i].1.validation| &&
               |kw[i].1.validation[j].1.valid| > 0) ==> kw[i].1.validation[j].0 in CvsAfter(cvs, kw).cvs
  {
    if kw != [] {
      var n := |kw| - 1;
      CvsAfterRecordsAll(cvs, kw[..n]);
      assert forall i :: 0 <= i < n ==> kw[..n][i] == kw[i];
      var r := CvsAfter(cvs, kw[..n]);
      if kw[n].0 != "points" {
        AddVocabulariesGrows(r.cvs, kw[n].1.validation);
      }
    }
  }

  // ---------------------------------------------------------------- rda_i3_01m / rda_i3_02d / rda_i3_03m

  /** The loop over the elements: an error at the first one without `.get`, else whether some vocabulary found a valid value. */
  function QualifiedFold(kw: Dict<Arg>): Outcome<bool>
  {
    if kw == [] then Returned(false)
    else
      match QualifiedFold(kw[..|kw| - 1])
      case Raised(e) => Raised(e)
      case Returned(b) =>
        var a := kw[|kw| - 1].1;
        if !a.Payload? then Raised("AttributeError: object has no attribute 'get'")
        else Returned(b || AnyValid(a.validation))
  }

  /** The qualified-references decision of the three `rda_i3_*` indicators validated against vocabularies. */
  function QualifiedReferences(kw: Dict<Arg>): Outcome<int>
  {
    match QualifiedFold(WithoutPoints(kw))
    case Raised(e) => Raised(e)
    case Returned(b) => Returned(if b then 100 else 0)
  }

  lemma {:induction false} QualifiedFoldMeaning(kw: Dict<Arg>)
    ensures QualifiedFold(kw).Raised? <==> exists i :: 0 <= i < |kw| && !kw[i].1.Payload?
    ensures QualifiedFold(kw).Returned? ==> (QualifiedFold(kw).value <==> |UsingElements(kw)| > 0)
  {
    if kw != [] {
      var n := |kw| - 1;
      QualifiedFoldMeaning(kw[..n]);
      assert forall i :: 0 <= i < n ==> kw[..n][i] == kw[i];
    }
  }

  /**
   * The decision raises iff some element (other than `points`) is not a
   * payload dict; otherwise it is 100 or 0, and 100 exactly when the basic
   * score counts some element as using a vocabulary.
   */
  lemma QualifiedReferencesAgreesWithBasic(kw: Dict<Arg>)
    ensures var rest := WithoutPoints(kw);
            (QualifiedReferences(kw).Raised? <==> exists i :: 0 <= i < |rest| && !rest[i].1.Payload?) &&
            (QualifiedReferences(kw).Returned? ==>
               (QualifiedReferences(kw).value == 100 <==> |UsingElements(rest)| > 0) &&
               (QualifiedReferences(kw).value == 0 <==> |UsingElements(rest)| == 0))
  {
    QualifiedFoldMeaning(WithoutPoints(kw));
  }

  // ---------------------------------------------------------------- rda_r1_01m

  /** `rda_r1_01m`: the share of truthy keyword arguments (`points` included) as a percentage. */
  function ReusabilityShare(kw: Dict<Arg>): Outcome<real>
  {
    if |kw| == 0 then Raised("ZeroDivisionError: division by zero")
    else Returned(Percent(CountTruthy(kw), |kw|))
  }

  /** `c` out of `m` as a percentage. */
  function Percent(c: nat, m: nat): real
    requires 0 < m
  {
    (c as real / m as real) * 100.0
  }

  /** The arguments the wrapper calls the indicator with: the caller's, then its own `points`. */
  function WrappedArgs(kw: Dict<Arg>): Dict<Arg>
  {
    kw + [("points", Num(Points(kw)))]
  }

  /**
   * What `rda_r1_01m` scores when the wrapper calls it with the caller's
   * arguments plus its own `points`: a share in [0, 100] that is 100 iff
   * every argument is truthy.
   */
  lemma ReusabilityOfWrappedCall(kw: Dict<Arg>)
    ensures ReusabilityShare(WrappedArgs(kw)).Returned?
    ensures 0.0 <= ReusabilityShare(WrappedArgs(kw)).value <= 100.0
    ensures ReusabilityShare(WrappedArgs(kw)).value == 100.0 <==> AllTruthy(kw)
  {
    WrappedShare(kw);
    WrappedShareArith(CountTruthy(kw), |kw|);
    CountTruthyAll(kw);
  }

  /**
   * The wrapped call scores 0 iff there are arguments and none is truthy:
   * the wrapper's `points` is then 0 as well and adds nothing.
   */
  lemma WrappedCallZero(kw: Dict<Arg>)
    ensures ReusabilityShare(WrappedArgs(kw)).Returned?
    ensures ReusabilityShare(WrappedArgs(kw)).value == 0.0 <==> |kw| > 0 && CountTruthy(kw) == 0
  {
    WrappedShare(kw);
    WrappedShareArith(CountTruthy(kw), |kw|);
  }

  /**
   * The wrapped call never scores below the wrapper's own `points`, and
   * scores above them exactly when some but not all arguments are truthy.
   */
  lemma WrappedCallAbovePoints(kw: Dict<Arg>)
    ensures ReusabilityShare(WrappedArgs(kw)).Returned?
    ensures Points(kw) <= ReusabilityShare(WrappedArgs(kw)).value
    ensures Points(kw) < ReusabilityShare(WrappedArgs(kw)).value <==> 0 < CountTruthy(kw) < |kw|
  {
    WrappedShare(kw);
    WrappedShareArith(CountTruthy(kw), |kw|);
  }

  /** The share of the wrapped call for `k` truthy arguments out of `n`: the points argument is one more, truthy unless 0. */
  function WrappedShareValue(k: nat, n: nat): real
    requires k <= n
  {
    Percent(k + (if ScoreOf(k, n) != 0.0 then 1 else 0), n + 1)
  }

  /** The wrapped call's share, in terms of the caller's counts. */
  lemma WrappedShare(kw: Dict<Arg>)
    ensures ReusabilityShare(WrappedArgs(kw)) == Returned(WrappedShareValue(CountTruthy(kw), |kw|))
  {
    ReusabilityCountsPoints(kw, Points(kw));
    assert WrappedArgs(kw) == kw + [("points", Num(Points(kw)))];
    WrappedShareValueOfArgs(kw);
  }

  /** `WrappedShareValue` on the caller's counts, with the wrapper's `points` deciding the extra truthy argument. */
  lemma WrappedShareValueOfArgs(kw: Dict<Arg>)
    ensures WrappedShareValue(CountTruthy(kw), |kw|) ==
              Percent(CountTruthy(kw) + (if Points(kw) != 0.0 then 1 else 0), |kw| + 1)
  {
  }

  /** The arithmetic of the wrapped call, for `k` truthy arguments out of `n`. */
  lemma WrappedShareArith(k: nat, n: nat)
    requires k <= n
    ensures 0.0 <= WrappedShareValue(k, n) <= 100.0
    ensures WrappedShareValue(k, n) == 100.0 <==> k == n
    ensures WrappedShareValue(k, n) == 0.0 <==> n > 0 && k == 0
    ensures ScoreOf(k, n) <= WrappedShareValue(k, n)
    ensures ScoreOf(k, n) < WrappedShareValue(k, n) <==> 0 < k < n
  {
    var p, share := ScoreOf(k, n), WrappedShareValue(k, n);
    if k == n {
      DivBelow((n + 1) as real, (n + 1) as real);
    } else if k == 0 {
      assert p == 0.0;
    } else {
      assert p > 0.0 by { assert k as real / n as real > 0.0; }
      assert share == ((k + 1) as real / (n + 1) as real) * 100.0;
      assert (k + 1) as real / (n + 1) as real > 0.0;
      DivBelow((k + 1) as real, (n + 1) as real);
      DivLess(k as real, n as real, (k + 1) as real, (n + 1) as real);
      assert k as real * (n + 1) as real < (k + 1) as real * n as real;
    }
  }

  /** A quotient with a positive divisor is below 1 iff the dividend is below the divisor. */
  lemma DivBelow(x: real, y: real)
    requires 0.0 < y
    ensures x / y < 1.0 <==> x < y
    ensures x / y == 1.0 <==> x == y
  {
    var q := x / y;
    assert q * y == x;
    if q < 1.0 { assert (1.0 - q) * y > 0.0; }
    if x < y { assert (1.0 - q) * y == y - x; }
  }

  /** Comparing two quotients with positive divisors by cross-multiplying. */
  lemma DivLess(a: real, b: real, c: real, d: real)
    requires 0.0 < b && 0.0 < d
    ensures a / b < c / d <==> a * d < c * b
  {
    var q := a / b;
    var r := c / d;
    assert q * b == a;
    assert r * d == c;
    assert a * d - c * b == (q - r) * (b * d);
    assert b * d > 0.0;
  }

  /** The `points` argument the wrapper adds is counted as one more element, truthy unless it is 0. */
  lemma ReusabilityCountsPoints(kw: Dict<Arg>, p: real)
    ensures ReusabilityShare(kw + [("points", Num(p))]) ==
              Returned(Percent(CountTruthy(kw) + (if p != 0.0 then 1 else 0), |kw| + 1))
  {
    CountPointsArg(kw, kw + [("points", Num(p))], p);
  }

  lemma CountPointsArg(kw: Dict<Arg>, kw': Dict<Arg>, p: real)
    requires kw' == kw + [("points", Num(p))]
    ensures CountTruthy(kw') == CountTruthy(kw) + (if p != 0.0 then 1 else 0)
    ensures |kw'| == |kw| + 1
  {
    assert kw'[..|kw'| - 1] == kw;
  }

  // ---------------------------------------------------------------- rda_r1_1_02m

  /** The licences of `kwargs["License"]`, the standard ones among them and the points. */
  datatype LicenceScore = LicenceScore(points: int, standard: seq<Value>)

  function StandardLicenceSpec(kw: Dict<Arg>, machineReadable: bool, isSpdx: (Value, bool) -> bool): Outcome<LicenceScore>
  {
    if !HasKey(kw, "License") then Raised("KeyError: 'License'")
    else
      match ExtendArg(Get(kw, "License"))
      case Raised(e) => Raised(e)
      case Returned(ls) =>
        var std := Filter(ls, v => isSpdx(v, machineReadable));
        Returned(LicenceScore(if std != [] then 100 else 0, std))
  }

  /** `rda_r1_1_02m`: 100 points when some licence of `kwargs["License"]` is an SPDX one. */
  method StandardLicence(kw: Dict<Arg>, machineReadable: bool, isSpdx: (Value, bool) -> bool) returns (r: Outcome<LicenceScore>)
    ensures r == StandardLicenceSpec(kw, machineReadable, isSpdx)
  {
    if !HasKey(kw, "License") {
      return Raised("KeyError: 'License'");
    }
    var it := ExtendArg(Get(kw, "License"));
    if it.Raised? {
      return Raised(it.error);
    }
    var ls := it.value;
    var p := v => isSpdx(v, machineReadable);
    var points := 0;
    var std: seq<Value> := [];
    var i := 0;
    while i < |ls|
      invariant 0 <= i <= |ls|
      invariant std == Filter(ls[..i], p)
      invariant points == if std != [] then 100 else 0
    {
      assert ls[..i + 1][..i] == ls[..i];
      if isSpdx(ls[i], machineReadable) {
        std := std + [ls[i]];
        points := 100;
      }
      i := i + 1;
    }
    assert ls[..i] == ls;
    r := Returned(LicenceScore(points, std));
  }

  /**
   * The licence score is all or nothing: 100 iff some licence passes the
   * SPDX check, else 0, so the source's "subset" message is never shown;
   * the standard list holds exactly the passing licences, in order.
   */
  lemma StandardLicenceAllOrNothing(kw: Dict<Arg>, machineReadable: bool, isSpdx: (Value, bool) -> bool)
    requires HasKey(kw, "License") && Get(kw, "License").Values?
    ensures var ls := Get(kw, "License").vs;
            var r := StandardLicenceSpec(kw, machineReadable, isSpdx);
            r.Returned? &&
            (r.value.points == 100 <==> exists i :: 0 <= i < |ls| && isSpdx(ls[i], machineReadable)) &&
            (r.value.points == 0 <==> forall i :: 0 <= i < |ls| ==> !isSpdx(ls[i], machineReadable)) &&
            (forall v :: v in r.value.standard <==> v in ls && isSpdx(v, machineReadable))
  {
    var ls := Get(kw, "License").vs;
    var p := v => isSpdx(v, machineReadable);
    var std := Filter(ls, p);
    FilterMembers(ls, p);
    assert StandardLicenceSpec(kw, machineReadable, isSpdx) == Returned(LicenceScore(if std != [] then 100 else 0, std));
    if std != [] {
      assert std[0] in ls && p(std[0]);
    }
    forall v | v in ls && isSpdx(v, machineReadable) ensures v in std {
      var i :| 0 <= i < |ls| && ls[i] == v;
      assert p(ls[i]);
    }
  }

  // ---------------------------------------------------------------- check_standard_license

  /** Every URL of the licence table, id by id. */
  function AllUrls(licenses: Dict<seq<string>>): seq<string>
  {
    if licenses == [] then []
    else AllUrls(licenses[..|licenses| - 1]) + licenses[|licenses| - 1].1
  }

  /** The last URL of the list that starts with `x`. */
  function LastStartingWith(urls: seq<string>, x: string): Option<string>
  {
    if urls == [] then None
    else if StartsWith(urls[|urls| - 1], x) then Some(urls[|urls| - 1])
    else LastStartingWith(urls[..|urls| - 1], x)
  }

  lemma {:induction false} LastStartingWithMeaning(urls: seq<string>, x: string)
    ensures LastStartingWith(urls, x).None? <==> forall i :: 0 <= i < |urls| ==> !StartsWith(urls[i], x)
    ensures LastStartingWith(urls, x).Some? ==>
              exists i :: 0 <= i < |urls| && urls[i] == LastStartingWith(urls, x).value &&
                StartsWith(urls[i], x) && forall j :: i < j < |urls| ==> !StartsWith(urls[j], x)
  {
    if urls != [] {
      var n := |urls| - 1;
      LastStartingWithMeaning(urls[..n], x);
      assert forall i :: 0 <= i < n ==> urls[..n][i] == urls[i];
    }
  }

  function StandardLicenseSpec(x: string, licenses: Dict<seq<string>>): Option<string>
  {
    if HasKey(licenses, x) then Some(x) else LastStartingWith(AllUrls(licenses), x)
  }

  /** `url.find(x) == 0` is a prefix test. */
  lemma FindZeroIsPrefix(u: string, x: string)
    ensures Find(u, x) == 0 <==> StartsWith(u, x)
  {
    if StartsWith(u, x) {
      assert OccursAt(u, x, 0);
    }
  }

  /**
   * `check_standard_license`: the argument itself when it is a licence id;
   * otherwise the last licence URL that starts with it; otherwise none.
   */
  method CheckStandardLicense(x: string, licenses: Dict<seq<string>>) returns (name: Option<string>)
    ensures name == StandardLicenseSpec(x, licenses)
  {
    if HasKey(licenses, x) {
      return Some(x);
    }
    name := None;
    var i := 0;
    while i < |licenses|
      invariant 0 <= i <= |licenses|
      invariant name == LastStartingWith(AllUrls(licenses[..i]), x)
    {
      AllUrlsSnoc(licenses, i);
      name := ScanUrls(AllUrls(licenses[..i]), licenses[i].1, x, name);
      i := i + 1;
    }
    assert licenses[..i] == licenses;
  }

  /** The inner loop over one id's URLs: a URL that starts with `x` replaces the name found so far. */
  method ScanUrls(before: seq<string>, urls: seq<string>, x: string, name0: Option<string>) returns (name: Option<string>)
    requires name0 == LastStartingWith(before, x)
    ensures name == LastStartingWith(before + urls, x)
  {
    name := name0;
    var j := 0;
    assert before + urls[..0] == before;
    while j < |urls|
      invariant 0 <= j <= |urls|
      invariant name == LastStartingWith(before + urls[..j], x)
    {
      assert before + urls[..j + 1] == (before + urls[..j]) + [urls[j]];
      LastStartingWithSnoc(before + urls[..j], urls[j], x);
      FindZeroIsPrefix(urls[j], x);
      if Find(urls[j], x) == 0 {
        name := Some(urls[j]);
      }
      j := j + 1;
    }
    assert urls[..j] == urls;
  }

  lemma AllUrlsSnoc(licenses: Dict<seq<string>>, i: nat)
    requires i < |licenses|
    ensures AllUrls(licenses[..i + 1]) == AllUrls(licenses[..i]) + licenses[i].1
  {
    assert licenses[..i + 1][..i] == licenses[..i];
  }

  lemma LastStartingWithSnoc(s: seq<string>, u: string, x: string)
    ensures LastStartingWith(s + [u], x) == if StartsWith(u, x) then Some(u) else LastStartingWith(s, x)
  {
    assert (s + [u])[..|s|] == s;
  }

  /**
   * Both directions of the licence lookup: a name is found iff the
   * argument is an id or a prefix of some URL, and a URL found starts with
   * the argument and no later URL does.
   */
  lemma StandardLicenseCases(x: string, licenses: Dict<seq<string>>)
    ensures StandardLicenseSpec(x, licenses).None? <==>
              !HasKey(licenses, x) && forall u :: u in AllUrls(licenses) ==> !StartsWith(u, x)
    ensures !HasKey(licenses, x) && StandardLicenseSpec(x, licenses).Some? ==>
              var urls := AllUrls(licenses);
              exists i :: 0 <= i < |urls| && urls[i] == StandardLicenseSpec(x, licenses).value &&
                StartsWith(urls[i], x) && forall j :: i < j < |urls| ==> !StartsWith(urls[j], x)
  {
    LastStartingWithMeaning(AllUrls(licenses), x);
  }

  // ---------------------------------------------------------------- rda_f2_01m

  /** The number of entries `len(terms_map[k])` counts: list items, or characters of a string. */
  function EntryCount(v: MapValue): (n: nat)
    ensures n == |Iterated(v)|
  {
    match v
    case Fields(items) => |items|
    case Scalar(s) => |s|
  }

  /**
   * A list entry `[e, q]` is found by a row with that element and
   * qualifier (a plain comparison, so `None == None` holds). As written,
   * the test for a string entry sits under the `isinstance(e, list)` branch
   * and compares a list with a string, so a string entry is never found.
   */
  predicate FoundAsWritten(f: FieldSpec, rows: seq<Row>)
  {
    match f
    case Pair(e, q) => exists i :: 0 <= i < |rows| && rows[i].element == e && rows[i].qualifier == q
    case Elem(_) => false
  }

  /** The intended test: a string entry is found by a row with that element and no (or an empty) qualifier. */
  predicate Found(f: FieldSpec, rows: seq<Row>)
  {
    match f
    case Pair(e, q) => exists i :: 0 <= i < |rows| && rows[i].element == e && rows[i].qualifier == q
    case Elem(e) => exists i :: 0 <= i < |rows| && rows[i].element == e &&
                      (rows[i].qualifier == None || rows[i].qualifier == Some(""))
  }

  function FoundBy(f: FieldSpec, rows: seq<Row>, asWritten: bool): bool
  {
    if asWritten then FoundAsWritten(f, rows) else Found(f, rows)
  }

  /** The found entries among a key's entries. */
  function CountFound(fs: seq<FieldSpec>, rows: seq<Row>, asWritten: bool): (c: nat)
    ensures c <= |fs|
  {
    if fs == [] then 0
    else CountFound(fs[..|fs| - 1], rows, asWritten) + (if FoundBy(fs[|fs| - 1], rows, asWritten) then 1 else 0)
  }

  /** The counters after the loop over the configured keys: `(found, term_num)`. */
  datatype Tally = Tally(found: nat, termNum: nat)

  /**
   * The loop over `terms_quali_generic`; the score is recomputed after
   * each key, so a leading key with no entries divides by zero, and a key
   * missing from `terms_map` raises.
   */
  function TallySpec(keys: seq<string>, tm: TermsMap, rows: seq<Row>, asWritten: bool): Outcome<Tally>
  {
    if keys == [] then Returned(Tally(0, 0))
    else
      match TallySpec(keys[..|keys| - 1], tm, rows, asWritten)
      case Raised(e) => Raised(e)
      case Returned(t) => TallyStep(t, keys[|keys| - 1], tm, rows, asWritten)
  }

  /** One key: add its entries to both counters, then the division by `term_num` that follows. */
  function TallyStep(t: Tally, k: string, tm: TermsMap, rows: seq<Row>, asWritten: bool): Outcome<Tally>
  {
    if !HasKey(tm, k) then Raised("KeyError")
    else
      var v := Get(tm, k);
      var t' := Tally(t.found + CountFound(Iterated(v), rows, asWritten), t.termNum + EntryCount(v));
      if t'.termNum == 0 then Raised("ZeroDivisionError: division by zero") else Returned(t')
  }

  lemma {:induction false} TallyBounds(keys: seq<string>, tm: TermsMap, rows: seq<Row>, asWritten: bool)
    ensures TallySpec(keys, tm, rows, asWritten).Returned? ==>
              TallySpec(keys, tm, rows, asWritten).value.found <= TallySpec(keys, tm, rows, asWritten).value.termNum
    ensures TallySpec(keys, tm, rows, asWritten).Returned? && keys != [] ==>
              TallySpec(keys, tm, rows, asWritten).value.termNum > 0
  {
    if keys != [] {
      TallyBounds(keys[..|keys| - 1], tm, rows, asWritten);
      if HasKey(tm, keys[|keys| - 1]) {
        var v := Get(tm, keys[|keys| - 1]);
        assert CountFound(Iterated(v), rows, asWritten) <= EntryCount(v);
      }
    }
  }

  /** The score of `rda_f2_01m`, either as written or with the intended string-entry test. */
  function F2Score(kw: Dict<Arg>, keys: seq<string>, tm: TermsMap, rows: seq<Row>, asWritten: bool): Outcome<int>
  {
    if !HasKey(kw, "Metadata for Resource Discovery") then Raised("KeyError: 'Metadata for Resource Discovery'")
    else if keys == [] then Returned(0)
    else
      match TallySpec(keys, tm, rows, asWritten)
      case Raised(e) => Raised(e)
      case Returned(t) =>
        if t.termNum == 0 then Raised("ZeroDivisionError: division by zero")
        else Returned(F2Points(t))
  }

  /** `round(found * (100 / term_num))`. */
  function F2Points(t: Tally): int
    requires t.termNum > 0
  {
    Round(t.found as real * (100.0 / t.termNum as real))
  }

  /** `rda_f2_01m` exactly as written. */
  function RdaF2AsWritten(kw: Dict<Arg>, keys: seq<string>, tm: TermsMap, rows: seq<Row>): Outcome<int>
  {
    F2Score(kw, keys, tm, rows, true)
  }

  /** `rda_f2_01m` with string entries matched as intended. */
  function RdaF2Spec(kw: Dict<Arg>, keys: seq<string>, tm: TermsMap, rows: seq<Row>): Outcome<int>
  {
    F2Score(kw, keys, tm, rows, false)
  }

  /** `rda_f2_01m`: the share of configured resource-discovery entries found in the metadata. */
  method RdaF2(kw: Dict<Arg>, keys: seq<string>, tm: TermsMap, rows: seq<Row>) returns (r: Outcome<int>)
    ensures r == RdaF2Spec(kw, keys, tm, rows)
  {
    if !HasKey(kw, "Metadata for Resource Discovery") {
      return Raised("KeyError: 'Metadata for Resource Discovery'");
    }
    if |keys| == 0 {
      return Returned(0);
    }
    var o := TallyKeys(keys, tm, rows);
    if o.Raised? {
      return Raised(o.error);
    }
    r := Returned(F2Points(o.value));
  }

  /** The loop over the configured keys, counting found and configured entries. */
  method TallyKeys(keys: seq<string>, tm: TermsMap, rows: seq<Row>) returns (o: Outcome<Tally>)
    ensures o == TallySpec(keys, tm, rows, false)
    ensures o.Returned? && keys != [] ==> o.value.termNum > 0
  {
    var t := Tally(0, 0);
    var i := 0;
    while i < |keys|
      invariant 0 <= i <= |keys|
      invariant TallySpec(keys[..i], tm, rows, false) == Returned(t)
      invariant i > 0 ==> t.termNum > 0
    {
      TallyNext(keys, tm, rows, i, t);
      var step := CountKey(t, keys[i], tm, rows);
      if step.Raised? {
        TallyFailurePersists(keys, tm, rows, i + 1);
        return Raised(step.error);
      }
      t := step.value;
      i := i + 1;
    }
    assert keys[..i] == keys;
    o := Returned(t);
  }

  /** Counting one more key continues the tally of the keys before it. */
  lemma TallyNext(keys: seq<string>, tm: TermsMap, rows: seq<Row>, i: nat, t: Tally)
    requires i < |keys| && TallySpec(keys[..i], tm, rows, false) == Returned(t)
    ensures TallySpec(keys[..i + 1], tm, rows, false) == TallyStep(t, keys[i], tm, rows, false)
  {
    assert keys[..i + 1][..i] == keys[..i];
  }

  /** The body of the loop over the keys. */
  method CountKey(t: Tally, k: string, tm: TermsMap, rows: seq<Row>) returns (o: Outcome<Tally>)
    ensures o == TallyStep(t, k, tm, rows, false)
  {
    if !HasKey(tm, k) {
      return Raised("KeyError");
    }
    var v := Get(tm, k);
    var c := CountEntries(Iterated(v), rows);
    var termNum := t.termNum + EntryCount(v);
    if termNum == 0 {
      return Raised("ZeroDivisionError: division by zero");
    }
    o := Returned(Tally(t.found + c, termNum));
  }

  /** The loop over a key's entries, counting those found. */
  method CountEntries(entries: seq<FieldSpec>, rows: seq<Row>) returns (c: nat)
    ensures c == CountFound(entries, rows, false)
  {
    c := 0;
    var j := 0;
    while j < |entries|
      invariant 0 <= j <= |entries|
      invariant c == CountFound(entries[..j], rows, false)
    {
      assert entries[..j + 1][..j] == entries[..j];
      var hit := RowFound(entries[j], rows);
      if hit {
        c := c + 1;
      }
      j := j + 1;
    }
    assert entries[..j] == entries;
  }

  /** The scan over the metadata rows for one entry. */
  method RowFound(f: FieldSpec, rows: seq<Row>) returns (hit: bool)
    ensures hit == Found(f, rows)
  {
    hit := false;
    var i := 0;
    while i < |rows|
      invariant 0 <= i <= |rows|
      invariant hit == Found(f, rows[..i])
    {
      assert forall j :: 0 <= j < i ==> rows[..i + 1][j] == rows[..i][j];
      var row := rows[i];
      match f {
        case Pair(e, q) =>
          if e == row.element && q == row.qualifier {
            hit := true;
          }
        case Elem(e) =>
          if e == row.element && (row.qualifier == None || row.qualifier == Some("")) {
            hit := true;
          }
      }
      i := i + 1;
    }
    assert rows[..i] == rows;
  }

  lemma {:induction false} TallyFailurePersists(keys: seq<string>, tm: TermsMap, rows: seq<Row>, i: nat)
    requires i <= |keys| && TallySpec(keys[..i], tm, rows, false).Raised?
    ensures TallySpec(keys, tm, rows, false) == TallySpec(keys[..i], tm, rows, false)
    decreases |keys| - i
  {
    if i < |keys| {
      assert keys[..i + 1][..i] == keys[..i];
      TallyFailurePersists(keys, tm, rows, i + 1);
    } else {
      assert keys[..i] == keys;
    }
  }

  /** The resource-discovery score, when there is one, lies in [0, 100]. */
  lemma RdaF2Bounds(kw: Dict<Arg>, keys: seq<string>, tm: TermsMap, rows: seq<Row>, asWritten: bool)
    ensures F2Score(kw, keys, tm, rows, asWritten).Returned? ==> 0 <= F2Score(kw, keys, tm, rows, asWritten).value <= 100
  {
    TallyBounds(keys, tm, rows, asWritten);
    var o := TallySpec(keys, tm, rows, asWritten);
    if HasKey(kw, "Metadata for Resource Discovery") && keys != [] && o.Returned? && o.value.termNum > 0 {
      RoundedShare(o.value);
    }
  }

  lemma RoundedShare(t: Tally)
    requires 0 < t.termNum && t.found <= t.termNum
    ensures 0 <= F2Points(t) <= 100
  {
    ShareAtMostWhole(t.found as real, t.termNum as real);
    RoundWithin(t.found as real * (100.0 / t.termNum as real), 0, 100);
  }

  /** A share of at most the whole is at most 100 percent. */
  lemma ShareAtMostWhole(k: real, n: real)
    requires 0.0 <= k <= n && 0.0 < n
    ensures 0.0 <= k * (100.0 / n) <= 100.0
  {
    var q := 100.0 / n;
    assert q * n == 100.0;
    assert k * q <= n * q;
  }

  /** As written, a string entry of `terms_map` is never found, whatever the metadata holds. */
  lemma {:induction false} ScalarEntriesNeverCountAsWritten(fs: seq<FieldSpec>, rows: seq<Row>)
    requires forall i :: 0 <= i < |fs| ==> fs[i].Elem?
    ensures CountFound(fs, rows, true) == 0
  {
    if fs != [] {
      ScalarEntriesNeverCountAsWritten(fs[..|fs| - 1], rows);
    }
  }

  /**
   * The input that shows it: a single configured string entry `title`
   * and a metadata row `title` with no qualifier score 0 as written and
   * 100 as intended.
   */
  lemma RdaF2ScalarCounterexample()
    ensures RdaF2AsWritten([("Metadata for Resource Discovery", Values([]))], ["k"],
                           [("k", Fields([Elem("title")]))], [Row("dc", "title", Str("A title"), None)]) == Returned(0)
    ensures RdaF2Spec([("Metadata for Resource Discovery", Values([]))], ["k"],
                      [("k", Fields([Elem("title")]))], [Row("dc", "title", Str("A title"), None)]) == Returned(100)
  {
    var kw: Dict<Arg> := [("Metadata for Resource Discovery", Values([]))];
    var tm: TermsMap := [("k", Fields([Elem("title")]))];
    var rows := [Row("dc", "title", Str("A title"), None)];
    assert HasKey(kw, "Metadata for Resource Discovery") by { assert Keys(kw)[0] == "Metadata for Resource Discovery"; }
    OneEntryTally(tm, rows, true);
    OneEntryTally(tm, rows, false);
    assert Found(Elem("title"), rows) by { assert rows[0].element == "title"; }
    F2PointsOfOne(0);
    F2PointsOfOne(1);
  }

  lemma OneEntryTally(tm: TermsMap, rows: seq<Row>, asWritten: bool)
    requires tm == [("k", Fields([Elem("title")]))]
    ensures TallySpec(["k"], tm, rows, asWritten) ==
              Returned(Tally(if FoundBy(Elem("title"), rows, asWritten) then 1 else 0, 1))
  {
    assert HasKey(tm, "k") by { assert Keys(tm)[0] == "k"; }
    assert ["k"][..0] == [];
    var fs := [Elem("title")];
    assert fs[..0] == [];
    assert Get(tm, "k") == Fields(fs);
  }

  lemma F2PointsOfOne(found: nat)
    requires found <= 1
    ensures F2Points(Tally(found, 1)) == 100 * found
  {
    assert 100.0 / 1.0 == 100.0;
    assert (found as real * 100.0).Floor == 100 * found;
  }

  /**
   * As intended, each entry counts iff the metadata has a matching row,
   * and a string entry matches rows without qualifier in both directions.
   */
  lemma {:induction false} CountFoundMeaning(fs: seq<FieldSpec>, rows: seq<Row>)
    ensures CountFound(fs, rows, false) == |fs| <==> forall i :: 0 <= i < |fs| ==> Found(fs[i], rows)
    ensures CountFound(fs, rows, false) == 0 <==> forall i :: 0 <= i < |fs| ==> !Found(fs[i], rows)
  {
    if fs != [] {
      var n := |fs| - 1;
      CountFoundMeaning(fs[..n], rows);
      assert forall i :: 0 <= i < n ==> fs[..n][i] == fs[i];
    }
  }
}
