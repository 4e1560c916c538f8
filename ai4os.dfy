/**
 * The scoring logic of five AI4OS indicators (plugins/ai4os/plugin.py,
 * identical in fair_eva/plugins.old/ai4os/plugin.py): the SPDX licence
 * indicators R1.1-02M and R1.1-03M, manual access to metadata A1-02M,
 * the GitHub repository check A1-05D and the PID check I3-03M.  The
 * network (the landing page, URL parsing) enters as oracle parameters.
 */
module Ai4os {
  import opened Common
  import opened PyStr
  import opened Values
  import opened PyDict
  import opened Ai4osText
  import Gatherer
  import Harmonizer
  import Scorers

  // ---------------------------------------------------------------- kwargs["terms_license"]["metadata"]

  const NoTermsLicense := "KeyError: 'terms_license'"

  /**
   * The first statements of `rda_r1_1_02m` and `rda_r1_1_03m`,
   * `kwargs["terms_license"]["metadata"]`, on the keyword arguments the
   * `ConfigTerms` wrapper hands over: value lists, validation payloads
   * (dicts keyed `values` and `validation`), numbers and flags. None of
   * them is a dict with a `metadata` key, so the lookup always raises.
   */
  function TermsLicenseMetadata(kw: Dict<Arg>): (r: Outcome<seq<Value>>)
    ensures r.Raised?
    ensures r == Raised(NoTermsLicense) <==> !HasKey(kw, "terms_license")
  {
    if !HasKey(kw, "terms_license") then Raised(NoTermsLicense)
    else
      match Get(kw, "terms_license")
      case Values(_) => Raised("TypeError: list indices must be integers or slices, not str")
      case Payload(_, _) => Raised("KeyError: 'metadata'")
      case Num(_) => Raised("TypeError: 'float' object is not subscriptable")
      case Flag(_) => Raised("TypeError: 'bool' object is not subscriptable")
  }

  /**
   * Whenever the wrapper gets as far as calling R1.1-02M or R1.1-03M, their
   * first lookup raises, so neither indicator reaches its scoring body.
   */
  lemma LicenceIndicatorsRaiseThroughWrapper(
    termList: seq<string>, tm: Harmonizer.TermsMap, metadata: seq<Row>, check: Harmonizer.MetadataCheck,
    validate: bool, get: Gatherer.Strategy, validateFn: (seq<Value>, string) -> Outcome<Validation>,
    caller: Dict<Arg>)
    requires Harmonizer.WrapperSpec(termList, tm, metadata, check, validate, get, validateFn, caller).Call?
    ensures TermsLicenseMetadata(Harmonizer.WrapperSpec(termList, tm, metadata, check, validate, get, validateFn, caller).kwargs).Raised?
  {
  }

  /**
   * The licence values collected under `License`, as the base indicator
   * reads them, raise `KeyError: 'terms_license'`; a configured term named
   * `terms_license` holds a list, which cannot be indexed by `"metadata"`.
   */
  lemma TermsLicenseCounterexample()
    ensures TermsLicenseMetadata([("License", Values([Str("MIT")]))]) == Raised(NoTermsLicense)
    ensures TermsLicenseMetadata([("terms_license", Values([Str("MIT")]))]) ==
              Raised("TypeError: list indices must be integers or slices, not str")
  {
    assert HasKey([("terms_license", Values([Str("MIT")]))], "terms_license");
  }

  // ---------------------------------------------------------------- rda_r1_1_02m

  /** One metadata value after `dropna().astype(str)`: `None` is dropped. */
  function LicenseString(v: Value): Option<Option<string>>
  {
    if v == NoneV then None else Some(Some(StrOf(v)))
  }

  /** `text_value.dropna().astype(str).tolist()`. */
  function MetadataLicenseStrings(texts: seq<Value>): seq<Option<string>>
  {
    FilterMap(texts, LicenseString)
  }

  /** The given licence list, or the metadata values when it is empty. */
  function LicenseList(given: seq<Option<string>>, texts: seq<Value>): seq<Option<string>>
  {
    if given != [] then given else MetadataLicenseStrings(texts)
  }

  /** Python's `if x` on a list entry. */
  predicate IsGiven(x: Option<string>)
  {
    x.Some? && x.value != ""
  }

  function CandidateOf(x: Option<string>): Option<string>
  {
    if IsGiven(x) then Some(NormalizeLicenseCandidate(x)) else None
  }

  /** `[_normalize_license_candidate(x) for x in license_list if x]`. */
  function NormalizedCandidates(list: seq<Option<string>>): seq<string>
  {
    FilterMap(list, CandidateOf)
  }

  const JoinTypeError := "TypeError: sequence item: expected str instance, NoneType found"

  /**
   * `rda_r1_1_02m`: 0 without licences, 100 when a normalised candidate is
   * an SPDX id, and 50 otherwise; building the message of the 50 case
   * joins the first five entries, which raises when one of them is `None`.
   */
  function R1_1_02m(given: seq<Option<string>>, texts: seq<Value>, spdxIds: set<string>): Outcome<int>
  {
    var list := LicenseList(given, texts);
    if list == [] then Returned(0)
    else if exists v :: v in NormalizedCandidates(list) && v in spdxIds then Returned(100)
    else if None in list[..if |list| < 5 then |list| else 5] then Raised(JoinTypeError)
    else Returned(50)
  }

  /** Some given entry normalises to an SPDX id. */
  predicate SomeSpdxCandidate(list: seq<Option<string>>, spdxIds: set<string>)
  {
    exists i :: 0 <= i < |list| && IsGiven(list[i]) && NormalizeLicenseCandidate(list[i]) in spdxIds
  }

  lemma SomeSpdxCandidateIff(list: seq<Option<string>>, spdxIds: set<string>)
    ensures (exists v :: v in NormalizedCandidates(list) && v in spdxIds) <==> SomeSpdxCandidate(list, spdxIds)
  {
    if SomeSpdxCandidate(list, spdxIds) {
      var i :| 0 <= i < |list| && IsGiven(list[i]) && NormalizeLicenseCandidate(list[i]) in spdxIds;
      FilterMapHas(list, CandidateOf, i);
    }
    if v :| v in NormalizedCandidates(list) && v in spdxIds {
      var i := FilterMapSource(list, CandidateOf, v);
      assert IsGiven(list[i]);
    }
  }

  /** The three scores of R1.1-02M and when each is given. */
  lemma R1_1_02mCases(given: seq<Option<string>>, texts: seq<Value>, spdxIds: set<string>)
    ensures R1_1_02m(given, texts, spdxIds) == Returned(0) <==> LicenseList(given, texts) == []
    ensures R1_1_02m(given, texts, spdxIds) == Returned(100) <==> SomeSpdxCandidate(LicenseList(given, texts), spdxIds)
    ensures R1_1_02m(given, texts, spdxIds).Returned? ==> R1_1_02m(given, texts, spdxIds).value in {0, 50, 100}
  {
    SomeSpdxCandidateIff(LicenseList(given, texts), spdxIds);
  }

  /** The indicator raises only when the list holds a `None` entry. */
  lemma R1_1_02mRaisesOnNone(given: seq<Option<string>>, texts: seq<Value>, spdxIds: set<string>)
    ensures R1_1_02m(given, texts, spdxIds).Raised? ==> None in LicenseList(given, texts)
  {
    var list := LicenseList(given, texts);
    var k := if |list| < 5 then |list| else 5;
    if None in list[..k] {
      var i :| 0 <= i < k && list[..k][i] == None;
      assert list[i] == None;
    }
  }

  /** A list of blank entries is a licence present but not recognised. */
  lemma R1_1_02mBlankEntry(texts: seq<Value>, spdxIds: set<string>)
    ensures R1_1_02m([Some("")], texts, spdxIds) == Returned(50)
  {
    var list := [Some("")];
    assert list[..0] == [];
    assert NormalizedCandidates(list) == [];
    assert list[..1] == list;
    assert None !in list;
  }

  // ---------------------------------------------------------------- rda_r1_1_03m

  /** An input licence and the details URL it maps to. */
  datatype LicenseMatch = LicenseMatch(input: Option<string>, detailsUrl: string)

  datatype Matching = Matching(matched: seq<LicenseMatch>, unmatched: seq<Option<string>>)

  /** The details URL of a raw licence: `by_details` first, then `by_ref`, `""` when neither knows it. */
  function LookupDetails(ix: SpdxIndexes, raw: Option<string>): string
  {
    LookupIn(ix.byDetails, ix.byRef, raw)
  }

  function LookupIn(byDetails: PyDict.Dict<string>, byRef: PyDict.Dict<string>, raw: Option<string>): string
  {
    var cand := Strip(OrEmpty(raw));
    if cand == "" then ""
    else
      var nUrl := Normalize(Some(StripSpdxSuffix(cand)));
      var d := PyDict.GetOr(byDetails, nUrl, "");
      if d != "" then d else PyDict.GetOr(byRef, nUrl, "")
  }

  /** The loop of `rda_r1_1_03m` for a given lookup: each input goes to `matched` or `unmatched`, in order. */
  function MatchBy(lics: seq<Option<string>>, look: Option<string> -> string): Matching
  {
    if lics == [] then Matching([], [])
    else
      var n := |lics| - 1;
      var m := MatchBy(lics[..n], look);
      var d := look(lics[n]);
      if d != "" then Matching(m.matched + [LicenseMatch(lics[n], d)], m.unmatched)
      else Matching(m.matched, m.unmatched + [lics[n]])
  }

  /** The lookup against fixed indexes. */
  function Look(ix: SpdxIndexes): Option<string> -> string
  {
    raw => LookupDetails(ix, raw)
  }

  function MatchSpec(lics: seq<Option<string>>, ix: SpdxIndexes): Matching
  {
    MatchBy(lics, Look(ix))
  }

  lemma MatchBySnoc(lics: seq<Option<string>>, look: Option<string> -> string, i: nat)
    requires i < |lics|
    ensures var m := MatchBy(lics[..i], look);
            MatchBy(lics[..i + 1], look) ==
              if look(lics[i]) != "" then Matching(m.matched + [LicenseMatch(lics[i], look(lics[i]))], m.unmatched)
              else Matching(m.matched, m.unmatched + [lics[i]])
  {
    assert lics[..i + 1][..i] == lics[..i];
  }

  method MatchLicenses(lics: seq<Option<string>>, ix: SpdxIndexes) returns (m: Matching)
    ensures m == MatchSpec(lics, ix)
  {
    var look := Look(ix);
    var matched: seq<LicenseMatch> := [];
    var unmatched: seq<Option<string>> := [];
    var i := 0;
    while i < |lics|
      invariant 0 <= i <= |lics|
      invariant Matching(matched, unmatched) == MatchBy(lics[..i], look)
    {
      MatchBySnoc(lics, look, i);
      var raw := lics[i];
      var detailsUrl := look(raw);
      if detailsUrl != "" {
        matched := matched + [LicenseMatch(raw, detailsUrl)];
      } else {
        unmatched := unmatched + [raw];
      }
      i := i + 1;
    }
    assert lics[..i] == lics;
    m := Matching(matched, unmatched);
  }

  function Inputs(ms: seq<LicenseMatch>): (r: seq<Option<string>>)
    ensures |r| == |ms|
  {
    if ms == [] then [] else Inputs(ms[..|ms| - 1]) + [ms[|ms| - 1].input]
  }

  lemma InputsSnoc(ms: seq<LicenseMatch>, x: LicenseMatch)
    ensures Inputs(ms + [x]) == Inputs(ms) + [x.input]
  {
    assert (ms + [x])[..|ms|] == ms;
  }

  /**
   * Every input lands in exactly one of the two lists, a blank one in
   * `unmatched`; each match carries its non-empty lookup result and no
   * unmatched input has one.
   */
  lemma MultisetSnoc<T>(a: seq<T>, b: seq<T>, xs: seq<T>, x: T)
    requires multiset(a) + multiset(b) == multiset(xs)
    ensures multiset(a + [x]) + multiset(b) == multiset(xs + [x])
    ensures multiset(a) + multiset(b + [x]) == multiset(xs + [x])
  {
  }

  lemma {:induction false} MatchByMultiset(lics: seq<Option<string>>, look: Option<string> -> string)
    ensures multiset(Inputs(MatchBy(lics, look).matched)) + multiset(MatchBy(lics, look).unmatched) == multiset(lics)
  {
    if lics != [] {
      var n := |lics| - 1;
      MatchByMultiset(lics[..n], look);
      var m := MatchBy(lics[..n], look);
      assert lics == lics[..n] + [lics[n]];
      MultisetSnoc(Inputs(m.matched), m.unmatched, lics[..n], lics[n]);
      if look(lics[n]) != "" {
        InputsSnoc(m.matched, LicenseMatch(lics[n], look(lics[n])));
      }
    }
  }

  lemma {:induction false} MatchByLookups(lics: seq<Option<string>>, look: Option<string> -> string)
    ensures |MatchBy(lics, look).matched| + |MatchBy(lics, look).unmatched| == |lics|
    ensures forall x :: x in MatchBy(lics, look).matched ==> x.detailsUrl != "" && x.detailsUrl == look(x.input)
    ensures forall u :: u in MatchBy(lics, look).unmatched ==> look(u) == ""
  {
    if lics != [] {
      MatchByLookups(lics[..|lics| - 1], look);
    }
  }

  /**
   * Every input lands in exactly one of the two lists; each match carries
   * its non-empty lookup result and no unmatched input has one.
   */
  lemma MatchByPartition(lics: seq<Option<string>>, look: Option<string> -> string)
    ensures multiset(Inputs(MatchBy(lics, look).matched)) + multiset(MatchBy(lics, look).unmatched) == multiset(lics)
    ensures |MatchBy(lics, look).matched| + |MatchBy(lics, look).unmatched| == |lics|
    ensures forall x :: x in MatchBy(lics, look).matched ==> x.detailsUrl != "" && x.detailsUrl == look(x.input)
    ensures forall u :: u in MatchBy(lics, look).unmatched ==> look(u) == ""
  {
    MatchByMultiset(lics, look);
    MatchByLookups(lics, look);
  }

  /** A blank licence never has a details URL. */
  lemma BlankUnmatched(ix: SpdxIndexes, raw: Option<string>)
    requires Strip(OrEmpty(raw)) == ""
    ensures LookupDetails(ix, raw) == ""
  {
  }

  /**
   * The R1.1-03M loop partitions its inputs; blank inputs are unmatched;
   * every match has its SPDX details URL.
   */
  lemma MatchPartition(lics: seq<Option<string>>, ix: SpdxIndexes)
    ensures multiset(Inputs(MatchSpec(lics, ix).matched)) + multiset(MatchSpec(lics, ix).unmatched) == multiset(lics)
    ensures forall i :: 0 <= i < |lics| && Strip(OrEmpty(lics[i])) == "" ==> lics[i] in MatchSpec(lics, ix).unmatched
    ensures forall x :: x in MatchSpec(lics, ix).matched ==> x.detailsUrl != "" && x.detailsUrl == LookupDetails(ix, x.input)
    ensures forall u :: u in MatchSpec(lics, ix).unmatched ==> LookupDetails(ix, u) == ""
  {
    var look := Look(ix);
    MatchByPartition(lics, look);
    forall i | 0 <= i < |lics| && Strip(OrEmpty(lics[i])) == ""
      ensures lics[i] in MatchBy(lics, look).unmatched
    {
      BlankUnmatched(ix, lics[i]);
      MatchByUnmatchedAt(lics, look, i);
    }
  }

  /** An input whose lookup is empty is among the unmatched ones. */
  lemma {:induction false} MatchByUnmatchedAt(lics: seq<Option<string>>, look: Option<string> -> string, i: nat)
    requires i < |lics| && look(lics[i]) == ""
    ensures lics[i] in MatchBy(lics, look).unmatched
  {
    var n := |lics| - 1;
    if i < n {
      MatchByUnmatchedAt(lics[..n], look, i);
      assert lics[..n][i] == lics[i];
    }
  }

  lemma SameLookup(ix: SpdxIndexes, other: PyDict.Dict<string>, raw: Option<string>)
    ensures LookupDetails(ix.(byId := other), raw) == LookupDetails(ix, raw)
  {
  }

  /** The id index is never consulted: replacing it changes nothing. */
  lemma {:induction false} ByIdNeverConsulted(lics: seq<Option<string>>, ix: SpdxIndexes, other: PyDict.Dict<string>)
    ensures MatchSpec(lics, ix.(byId := other)) == MatchSpec(lics, ix)
  {
    if lics != [] {
      var n := |lics| - 1;
      ByIdNeverConsulted(lics[..n], ix, other);
      SameLookup(ix, other, lics[n]);
    }
  }

  /** 100 when all inputs match, the rounded percentage when some do, 0 when none does. */
  function R1_1_03mPoints(m: nat, n: nat): int
    requires m <= n
  {
    if m > 0 && m == n then 100
    else if m > 0 then Scorers.Round(m as real / n as real * 100.0)
    else 0
  }

  lemma R1_1_03mPointsBounds(m: nat, n: nat)
    requires m <= n
    ensures 0 <= R1_1_03mPoints(m, n) <= 100
    ensures R1_1_03mPoints(m, n) == 0 <== m == 0
    ensures R1_1_03mPoints(m, n) == 100 <== 0 < m == n
  {
    if 0 < m < n {
      var x := m as real / n as real * 100.0;
      assert 0.0 <= x <= 100.0;
      Scorers.RoundWithin(x, 0, 100);
    }
  }

  /** A near-complete match rounds to 100, and one match among many rounds to 0. */
  lemma R1_1_03mPointsRounding()
    ensures R1_1_03mPoints(199, 200) == 100
    ensures R1_1_03mPoints(1, 300) == 0
  {
    assert 199 as real / 200 as real * 100.0 == 99.5;
    assert (99.5).Floor == 99;
    assert 1 as real / 300 as real * 100.0 == 1.0 / 3.0;
    assert (1.0 / 3.0).Floor == 0;
  }

  /** The inputs of R1.1-03M: the given list, or all metadata values (`None` included). */
  function LicenseInputs(given: seq<Option<string>>, texts: seq<Option<string>>): seq<Option<string>>
  {
    if given != [] then given else texts
  }

  function R1_1_03mSpec(given: seq<Option<string>>, texts: seq<Option<string>>, spdx: Outcome<seq<SpdxLicense>>): int
  {
    match spdx
    case Raised(_) => 0
    case Returned(lics) =>
      var list := LicenseInputs(given, texts);
      MatchByLookups(list, Look(IndexesSpec(lics)));
      R1_1_03mPoints(|MatchSpec(list, IndexesSpec(lics)).matched|, |list|)
  }

  /** The branches that turn the match count into points. */
  method ScoreMatches(m: nat, n: nat) returns (points: int)
    requires m <= n
    ensures points == R1_1_03mPoints(m, n)
    ensures 0 <= points <= 100
  {
    R1_1_03mPointsBounds(m, n);
    if m > 0 && m == n {
      points := 100;
    } else if m > 0 {
      var ratio := m as real / n as real;
      points := Scorers.Round(ratio * 100.0);
    } else {
      points := 0;
    }
  }

  /** `rda_r1_1_03m`: 0 when the SPDX list cannot be loaded, otherwise the share of inputs with an SPDX details URL. */
  method RdaR1_1_03m(given: seq<Option<string>>, texts: seq<Option<string>>, spdx: Outcome<seq<SpdxLicense>>)
    returns (points: int, m: Matching)
    ensures points == R1_1_03mSpec(given, texts, spdx)
    ensures spdx.Returned? ==> m == MatchSpec(LicenseInputs(given, texts), IndexesSpec(spdx.value))
    ensures 0 <= points <= 100
  {
    if spdx.Raised? {
      return 0, Matching([], []);
    }
    var list := if given != [] then given else texts;
    var ix := BuildSpdxIndexes(spdx.value);
    m := MatchLicenses(list, ix);
    MatchByLookups(list, Look(ix));
    points := ScoreMatches(|m.matched|, |list|);
  }

  // ---------------------------------------------------------------- rda_a1_05d

  /** The parts of a parsed URL that the indicator reads. */
  datatype UrlParts = UrlParts(netloc: string, path: string)

  function NonEmptyParts(ps: seq<string>): (r: seq<string>)
    ensures forall i :: 0 <= i < |r| ==> r[i] != "" && r[i] in ps
  {
    if ps == [] then []
    else
      var n := |ps| - 1;
      var rest := NonEmptyParts(ps[..n]);
      if ps[n] != "" then rest + [ps[n]] else rest
  }

  predicate IsGitHubHost(host: string)
  {
    host == "github.com" || host == "www.github.com"
  }

  function RepoUrl(host: string, owner: string, repo: string): string
  {
    "https://" + host + "/" + owner + "/" + repo
  }

  /** The repository URL of a parsed GitHub URL with an owner and a repository. */
  function RepoOfUrl(u: UrlParts): Option<string>
  {
    var host := Lower(u.netloc);
    if !IsGitHubHost(host) then None
    else
      var parts := NonEmptyParts(PyStr.Split(u.path, '/'));
      if |parts| >= 2 then Some(RepoUrl(host, parts[0], parts[1])) else None
  }

  /** The repository URL one metadata value contributes, if any. */
  function RepoCandidate(v: Value, parse: string -> Outcome<UrlParts>): Option<string>
  {
    if !v.Str? || !Contains(v.s, "github.com") then None
    else
      match parse(Strip(v.s))
      case Raised(_) => None
      case Returned(u) => RepoOfUrl(u)
  }

  function RepoCandidatesSpec(texts: seq<Value>, parse: string -> Outcome<UrlParts>): seq<string>
  {
    FilterMap(texts, v => RepoCandidate(v, parse))
  }

  lemma PrefixStarts(p: string, x: string)
    ensures StartsWith(p + x, p)
  {
    assert (p + x)[..|p|] == p;
  }

  lemma RepoUrlShape(host: string, owner: string, repo: string)
    requires IsGitHubHost(host)
    ensures StartsWith(RepoUrl(host, owner, repo), "https://github.com/")
         || StartsWith(RepoUrl(host, owner, repo), "https://www.github.com/")
  {
    var prefix := "https://" + host + "/";
    assert RepoUrl(host, owner, repo) == prefix + (owner + "/" + repo);
    PrefixStarts(prefix, owner + "/" + repo);
    if host == "github.com" {
      assert prefix == "https://github.com/";
    } else {
      assert prefix == "https://www.github.com/";
    }
  }

  /** A candidate is a GitHub URL with an owner and a repository, from a value that mentions `github.com`. */
  lemma RepoCandidateShape(v: Value, parse: string -> Outcome<UrlParts>)
    requires RepoCandidate(v, parse).Some?
    ensures v.Str? && Contains(v.s, "github.com")
    ensures StartsWith(RepoCandidate(v, parse).value, "https://github.com/")
         || StartsWith(RepoCandidate(v, parse).value, "https://www.github.com/")
  {
    var u := parse(Strip(v.s)).value;
    var parts := NonEmptyParts(PyStr.Split(u.path, '/'));
    RepoUrlShape(Lower(u.netloc), parts[0], parts[1]);
  }

  /** `rda_a1_05d`: the de-duplicated candidates, and 100 exactly when there is one. */
  method RdaA1_05d(texts: seq<Value>, parse: string -> Outcome<UrlParts>) returns (points: int, candidates: set<string>)
    ensures candidates == set c | c in RepoCandidatesSpec(texts, parse)
    ensures points == (if candidates == {} then 0 else 100)
    ensures points == 100 <==> exists i :: 0 <= i < |texts| && RepoCandidate(texts[i], parse).Some?
    ensures points == 0 <==> !exists i :: 0 <= i < |texts| && RepoCandidate(texts[i], parse).Some?
  {
    var found: seq<string> := [];
    var i := 0;
    while i < |texts|
      invariant 0 <= i <= |texts|
      invariant found == RepoCandidatesSpec(texts[..i], parse)
    {
      FilterMapSnoc(texts, v => RepoCandidate(v, parse), i);
      var c := RepoCandidate(texts[i], parse);
      if c.Some? {
        found := found + [c.value];
      }
      i := i + 1;
    }
    assert texts[..i] == texts;
    FilterMapMeaning(texts, v => RepoCandidate(v, parse));
    candidates := set c | c in found;
    if found != [] {
      assert found[0] in candidates;
    }
    points := if candidates == {} then 0 else 100;
  }

  // ---------------------------------------------------------------- rda_a1_02m

  /** The first `metadata_source` row whose value is a string starting with `http`, or `""`. */
  function FirstSourceUrl(rows: seq<Row>): (r: string)
    ensures r != "" ==> StartsWith(r, "http")
  {
    if rows == [] then ""
    else if Lower(rows[0].element) == "metadata_source" && rows[0].textValue.Str? && StartsWith(rows[0].textValue.s, "http")
            && rows[0].textValue.s != "" then rows[0].textValue.s
    else FirstSourceUrl(rows[1..])
  }

  /** The landing page: the item id when it is an `http(s)` URL, otherwise the first metadata source. */
  function Landing(itemId: string, rows: seq<Row>): string
  {
    if IsHttpUrl(itemId) then itemId else FirstSourceUrl(rows)
  }

  predicate IsProvElement(element: string)
  {
    StartsWith(Lower(element), "prov_") || Lower(element) == "provenance"
  }

  /** A non-PROV row whose stripped value has at least three characters. */
  predicate Checkable(r: Row)
  {
    !IsProvElement(r.element) && r.textValue != NoneV && |Strip(StrOf(r.textValue))| >= 3
  }

  /** The text after the first `://`. */
  function AfterScheme(s: string): string
  {
    var k := Find(s, "://");
    if k < 0 then s else s[k + 3..]
  }

  /** The value, its URL without scheme, or its host occurs in the lowered page. */
  predicate FoundOnPage(sval: string, pageLower: string, netloc: string -> Outcome<string>)
  {
    var sl := Lower(sval);
    || Contains(pageLower, sl)
    || (IsHttpUrl(sl) &&
          match netloc(sval)
          case Raised(_) => false
          case Returned(h) =>
            (AfterScheme(sl) != "" && Contains(pageLower, AfterScheme(sl)))
            || (Lower(h) != "" && Contains(pageLower, Lower(h))))
  }

  /** A checked row whose value is found on the page. */
  predicate RowFound(r: Row, pageLower: string, netloc: string -> Outcome<string>)
  {
    Checkable(r) && FoundOnPage(Strip(StrOf(r.textValue)), pageLower, netloc)
  }

  function CheckedSpec(rows: seq<Row>): nat
  {
    Count(rows, Checkable)
  }

  function FoundSpec(rows: seq<Row>, pageLower: string, netloc: string -> Outcome<string>): nat
  {
    Count(rows, FoundIn(pageLower, netloc))
  }

  /** `RowFound` against a fixed page, as a test on rows. */
  function FoundIn(pageLower: string, netloc: string -> Outcome<string>): Row -> bool
  {
    r => RowFound(r, pageLower, netloc)
  }

  /** The score of A1-02M: it depends on whether anything was checked, not on what was found. */
  function A1_02mPoints(itemId: string, rows: seq<Row>, fetch: string -> Outcome<string>): real
  {
    var landing := Landing(itemId, rows);
    if landing == "" || fetch(landing).Raised? || CheckedSpec(rows) == 0 then 0.0 else 100.0
  }

  datatype A1Check = A1Check(points: real, checked: nat, found: nat)

  /** Finding a row on the page presupposes that it was checked. */
  lemma FoundIsChecked(pageLower: string, netloc: string -> Outcome<string>)
    ensures forall r :: FoundIn(pageLower, netloc)(r) ==> Checkable(r)
  {
  }

  /** The loop of `rda_a1_02m` over the metadata rows: count the checked rows and, among them, the found ones. */
  method CountRows(rows: seq<Row>, pageLower: string, netloc: string -> Outcome<string>) returns (checked: int, found: int)
    ensures checked == CheckedSpec(rows) && found == FoundSpec(rows, pageLower, netloc)
  {
    FoundIsChecked(pageLower, netloc);
    checked, found := CountNested(rows, Checkable, FoundIn(pageLower, netloc));
  }

  /** `rda_a1_02m`; `fetch` yields the unescaped text of the landing page. */
  method RdaA1_02m(itemId: string, rows: seq<Row>, fetch: string -> Outcome<string>, netloc: string -> Outcome<string>)
    returns (r: A1Check)
    ensures r.points == A1_02mPoints(itemId, rows, fetch)
    ensures var landing := Landing(itemId, rows);
            landing != "" && fetch(landing).Returned? ==>
              r.checked == CheckedSpec(rows) && r.found == FoundSpec(rows, Lower(fetch(landing).value), netloc)
  {
    var landing := if IsHttpUrl(itemId) then itemId else FirstSourceUrl(rows);
    if landing == "" {
      return A1Check(0.0, 0, 0);
    }
    var resp := fetch(landing);
    if resp.Raised? {
      return A1Check(0.0, 0, 0);
    }
    var checked, found := CountRows(rows, Lower(resp.value), netloc);
    r := A1Check(if checked == 0 then 0.0 else 100.0, checked, found);
  }

  /** Nothing is found that was not checked, and something is checked exactly when a row is checkable. */
  lemma CheckedMeaning(rows: seq<Row>, pageLower: string, netloc: string -> Outcome<string>)
    ensures FoundSpec(rows, pageLower, netloc) <= CheckedSpec(rows) <= |rows|
    ensures CheckedSpec(rows) > 0 <==> exists i :: 0 <= i < |rows| && Checkable(rows[i])
  {
    CountMeaning(rows, FoundIn(pageLower, netloc), Checkable);
    CountMeaning(rows, Checkable, Checkable);
  }

  /**
   * The score is 100.0 exactly when a landing page was fetched and a row
   * was checkable, whatever the page says.
   */
  lemma A1_02mIff(itemId: string, rows: seq<Row>, fetch: string -> Outcome<string>, netloc: string -> Outcome<string>)
    ensures A1_02mPoints(itemId, rows, fetch) == 100.0 <==>
              Landing(itemId, rows) != "" && fetch(Landing(itemId, rows)).Returned?
              && exists i :: 0 <= i < |rows| && Checkable(rows[i])
    ensures A1_02mPoints(itemId, rows, fetch) == 0.0 || A1_02mPoints(itemId, rows, fetch) == 100.0
  {
    CheckedMeaning(rows, "", netloc);
  }

  /** A value shorter than three characters is never checked. */
  lemma ShortValuesUnchecked(ns: string, element: string, v: string, q: Option<string>)
    requires |v| < 3
    ensures !Checkable(Row(ns, element, Str(v), q))
  {
  }

  // ---------------------------------------------------------------- rda_i3_03m

  /** The stripped string form of a row value, when it looks like a PID. */
  function PidOf(r: Row): Option<string>
  {
    var val := Strip(StrOf(r.textValue));
    if IsPersistentIdentifier(Str(val)) then Some(val) else None
  }

  function PidValues(rows: seq<Row>): seq<string>
  {
    FilterMap(rows, PidOf)
  }

  /** `rda_i3_03m`: 100 when some value is a PID, else 0. */
  method RdaI3_03m(rows: seq<Row>) returns (points: int, pids: seq<string>)
    ensures pids == PidValues(rows)
    ensures points == 100 <==> exists i :: 0 <= i < |rows| && IsPersistentIdentifier(Str(Strip(StrOf(rows[i].textValue))))
    ensures points == 0 || points == 100
  {
    pids := [];
    var i := 0;
    while i < |rows|
      invariant 0 <= i <= |rows|
      invariant pids == PidValues(rows[..i])
    {
      FilterMapSnoc(rows, PidOf, i);
      var val := Strip(StrOf(rows[i].textValue));
      if IsPersistentIdentifier(Str(val)) {
        pids := pids + [val];
      }
      i := i + 1;
    }
    assert rows[..i] == rows;
    PidValuesNonEmpty(rows);
    points := if pids != [] then 100 else 0;
  }

  lemma PidOfIsPid(r: Row)
    ensures PidOf(r).Some? <==> IsPersistentIdentifier(Str(Strip(StrOf(r.textValue))))
    ensures PidOf(r).Some? ==> IsPersistentIdentifier(Str(PidOf(r).value))
  {
  }

  /** Every row's verdict, stated for the whole list at once. */
  lemma PidOfAll(rows: seq<Row>)
    ensures forall i :: 0 <= i < |rows| ==>
              (PidOf(rows[i]).Some? <==> IsPersistentIdentifier(Str(Strip(StrOf(rows[i].textValue)))))
  {
    forall i | 0 <= i < |rows|
      ensures PidOf(rows[i]).Some? <==> IsPersistentIdentifier(Str(Strip(StrOf(rows[i].textValue))))
    {
      PidOfIsPid(rows[i]);
    }
  }

  /** Some value is reported exactly when some row holds a PID. */
  lemma PidValuesNonEmpty(rows: seq<Row>)
    ensures PidValues(rows) != [] <==> exists i :: 0 <= i < |rows| && IsPersistentIdentifier(Str(Strip(StrOf(rows[i].textValue))))
  {
    FilterMapNonEmpty(rows, PidOf);
    PidOfAll(rows);
  }

  /** Every reported value is itself a PID. */
  lemma PidValuesArePids(rows: seq<Row>)
    ensures forall p :: p in PidValues(rows) ==> IsPersistentIdentifier(Str(p))
  {
    forall p | p in PidValues(rows) ensures IsPersistentIdentifier(Str(p)) {
      var i := FilterMapSource(rows, PidOf, p);
      PidOfIsPid(rows[i]);
    }
  }

  lemma StripPaddedUrnKeepsCase()
    ensures Strip("  urn:") == "urn:"
  {
    LStripPaddedUrn();
    StripVisible("urn:");
  }

  /** The indicator strips before the length check, so a padded four-character URN does not count here. */
  lemma PaddedUrnIsNoPid(ns: string)
    ensures PidValues([Row(ns, "identifier", Str("  urn:"), None)]) == []
  {
    StripPaddedUrnKeepsCase();
    var rows := [Row(ns, "identifier", Str("  urn:"), None)];
    assert PidOf(rows[0]).None?;
    FilterMapMeaning(rows, PidOf);
  }
}
