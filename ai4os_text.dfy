/**
 * The string and list helpers of the AI4OS plugin (plugins/ai4os/plugin.py,
 * identical in fair_eva/plugins.old/ai4os/plugin.py): normalisation, SPDX
 * suffix stripping, the three SPDX lookup indexes, URL collection, the
 * provenance-field filter, the flattening of the YAML metadata into rows,
 * the repository slug, licence-candidate normalisation and the
 * persistent-identifier heuristic.
 */
module Ai4osText {
  import opened Common
  import opened PyStr
  import opened PyDict
  import opened Values

  // ---------------------------------------------------------------- _normalize

  /** Python's `s or ""` for an optional string. */
  function OrEmpty(s: Option<string>): string
  {
    match s
    case None => ""
    case Some(t) => t
  }

  /** `_normalize(s)`: `(s or "").strip().lower()`. */
  function Normalize(s: Option<string>): string
  {
    Lower(Strip(OrEmpty(s)))
  }

  lemma LowerKeepsSpace(c: char)
    ensures IsSpace(LowerChar(c)) == IsSpace(c)
  {
  }

  /** A stripped string has no white space at either end. */
  lemma StrippedEnds(s: string)
    ensures Strip(s) == "" || (!IsSpace(Strip(s)[0]) && !IsSpace(Strip(s)[|Strip(s)| - 1]))
  {
    RStripKeepsFirst(LStrip(s));
  }

  /** Lowering a string without white space at its ends leaves nothing to strip. */
  lemma StripOfLowerStripped(t: string)
    requires t == "" || (!IsSpace(t[0]) && !IsSpace(t[|t| - 1]))
    ensures Strip(Lower(t)) == Lower(t)
  {
    var l := Lower(t);
    if t != "" {
      LowerKeepsSpace(t[0]);
      LowerKeepsSpace(t[|t| - 1]);
    }
    LStripNoLeading(l);
  }

  /** `_normalize` maps `None` to `""` and is idempotent. */
  lemma NormalizeIdempotent(s: Option<string>)
    ensures Normalize(None) == ""
    ensures Normalize(Some(Normalize(s))) == Normalize(s)
  {
    var t := Strip(OrEmpty(s));
    StrippedEnds(OrEmpty(s));
    StripOfLowerStripped(t);
    LowerIdempotent(t);
  }

  /** Lowering commutes with stripping, because no white space is an upper-case letter. */
  lemma {:induction false} LStripLower(s: string)
    ensures LStrip(Lower(s)) == Lower(LStrip(s))
    decreases |s|
  {
    if |s| > 0 {
      LowerKeepsSpace(s[0]);
      assert Lower(s)[1..] == Lower(s[1..]);
      LStripLower(s[1..]);
    }
  }

  lemma {:induction false} RStripLower(s: string)
    ensures RStrip(Lower(s)) == Lower(RStrip(s))
    decreases |s|
  {
    if |s| > 0 {
      var n := |s| - 1;
      LowerKeepsSpace(s[n]);
      LowerInit(s);
      RStripLower(s[..n]);
      RStripUnfold(Lower(s));
      RStripUnfold(s);
    }
  }

  /** Lowering a string, then dropping its last character. */
  lemma LowerInit(s: string)
    requires |s| > 0
    ensures Lower(s)[..|s| - 1] == Lower(s[..|s| - 1])
    ensures Lower(s)[|s| - 1] == LowerChar(s[|s| - 1])
  {
  }

  /** One step of `rstrip`. */
  lemma RStripUnfold(s: string)
    requires |s| > 0
    ensures RStrip(s) == if IsSpace(s[|s| - 1]) then RStrip(s[..|s| - 1]) else s
  {
  }

  lemma StripLower(s: string)
    ensures Strip(Lower(s)) == Lower(Strip(s))
  {
    LStripLower(s);
    RStripLower(LStrip(s));
  }

  // ---------------------------------------------------------------- _strip_spdx_suffix

  /** The stripped text ends in `.html` or `.json`, in any case. */
  predicate HasSpdxSuffix(t: string)
  {
    |t| >= 5 && (Lower(t[|t| - 5..]) == ".html" || Lower(t[|t| - 5..]) == ".json")
  }

  /** `_strip_spdx_suffix(u)`: strip white space, then drop one final `.html` / `.json`. */
  function StripSpdxSuffix(u: string): string
  {
    var t := Strip(u);
    if HasSpdxSuffix(t) then t[..|t| - 5] else t
  }

  /** The ends of a suffix that lowers to `.html` or `.json` are not white space. */
  lemma SuffixEnds(suffix: string)
    requires IsSpdxSuffix(suffix)
    ensures !IsSpace(suffix[0]) && !IsSpace(suffix[4])
  {
    assert LowerChar(suffix[0]) == '.';
    assert LowerChar(suffix[4]) == 'l' || LowerChar(suffix[4]) == 'n';
    LowerKeepsSpace(suffix[0]);
    LowerKeepsSpace(suffix[4]);
  }

  predicate IsSpdxSuffix(suffix: string)
  {
    |suffix| == 5 && (Lower(suffix) == ".html" || Lower(suffix) == ".json")
  }

  lemma SuffixedHasSuffix(r: string, suffix: string)
    requires IsSpdxSuffix(suffix)
    ensures HasSpdxSuffix(r + suffix) && (r + suffix)[..|r + suffix| - 5] == r
  {
    var t := r + suffix;
    assert t[|t| - 5..] == suffix;
  }

  lemma SuffixedIsStripped(r: string, suffix: string)
    requires IsSpdxSuffix(suffix)
    requires r == "" || !IsSpace(r[0])
    ensures Strip(r + suffix) == r + suffix
  {
    var t := r + suffix;
    SuffixEnds(suffix);
    assert t[0] == (if r == "" then suffix[0] else r[0]);
    assert t[|t| - 1] == suffix[4];
    StripVisible(t);
  }

  /**
   * One suffix in any case is removed, and only one: `x.json.json` keeps
   * its first `.json`.
   */
  lemma StripSpdxSuffixOnce(r: string, suffix: string)
    requires IsSpdxSuffix(suffix)
    requires r == "" || !IsSpace(r[0])
    ensures StripSpdxSuffix(r + suffix) == r
  {
    SuffixedIsStripped(r, suffix);
    SuffixedHasSuffix(r, suffix);
  }

  /** A string already stripped and without a suffix is left as it is. */
  lemma StripSpdxSuffixKeeps(t: string)
    requires t == "" || (!IsSpace(t[0]) && !IsSpace(t[|t| - 1]))
    requires !HasSpdxSuffix(t)
    ensures StripSpdxSuffix(t) == t
  {
    LStripNoLeading(t);
  }

  // ---------------------------------------------------------------- _build_spdx_indexes

  /** One entry of the SPDX licence list, with each field possibly missing. */
  datatype SpdxLicense = SpdxLicense(licenseId: Option<string>, reference: Option<string>,
                                     detailsUrl: Option<string>, detailUrl: Option<string>)

  /** `detailsUrl`, else the misspelt `detailUrl`, else `""`. */
  function Details(l: SpdxLicense): string
  {
    if OrEmpty(l.detailsUrl) != "" then OrEmpty(l.detailsUrl) else OrEmpty(l.detailUrl)
  }

  predicate HasIdAndDetails(l: SpdxLicense) { OrEmpty(l.licenseId) != "" && Details(l) != "" }
  predicate HasRefAndDetails(l: SpdxLicense) { OrEmpty(l.reference) != "" && Details(l) != "" }
  predicate HasDetails(l: SpdxLicense) { Details(l) != "" }

  function IdKey(l: SpdxLicense): string { Normalize(l.licenseId) }
  function RefKey(l: SpdxLicense): string { Normalize(Some(StripSpdxSuffix(OrEmpty(l.reference)))) }
  function DetailsKey(l: SpdxLicense): string { Normalize(Some(StripSpdxSuffix(Details(l)))) }

  /** One index: every accepted licence stores its details URL under its key, later ones overwriting earlier ones. */
  function IndexBy(lics: seq<SpdxLicense>, keyOf: SpdxLicense -> string, accept: SpdxLicense -> bool): Dict<string>
  {
    if lics == [] then []
    else
      var n := |lics| - 1;
      var d := IndexBy(lics[..n], keyOf, accept);
      if accept(lics[n]) then Put(d, keyOf(lics[n]), Details(lics[n])) else d
  }

  /** Some accepted licence has key `k`. */
  predicate Indexed(lics: seq<SpdxLicense>, keyOf: SpdxLicense -> string, accept: SpdxLicense -> bool, k: string)
  {
    exists i :: 0 <= i < |lics| && accept(lics[i]) && keyOf(lics[i]) == k
  }

  /** The licence at `i` is the last accepted one with key `k`. */
  predicate LastWithKey(lics: seq<SpdxLicense>, keyOf: SpdxLicense -> string, accept: SpdxLicense -> bool, k: string, i: int)
  {
    0 <= i < |lics| && accept(lics[i]) && keyOf(lics[i]) == k &&
    forall j :: i < j < |lics| ==> !(accept(lics[j]) && keyOf(lics[j]) == k)
  }

  /** The keys of an index are exactly the keys of its accepted licences. */
  lemma {:induction false} IndexByKeys(lics: seq<SpdxLicense>, keyOf: SpdxLicense -> string, accept: SpdxLicense -> bool, k: string)
    ensures HasKey(IndexBy(lics, keyOf, accept), k) <==> Indexed(lics, keyOf, accept, k)
  {
    if lics != [] {
      var n := |lics| - 1;
      var init := lics[..n];
      IndexByKeys(init, keyOf, accept, k);
      if Indexed(init, keyOf, accept, k) {
        var i :| 0 <= i < |init| && accept(init[i]) && keyOf(init[i]) == k;
        assert lics[i] == init[i];
      }
      if Indexed(lics, keyOf, accept, k) && !(accept(lics[n]) && keyOf(lics[n]) == k) {
        var i :| 0 <= i < |lics| && accept(lics[i]) && keyOf(lics[i]) == k;
        assert i < n && init[i] == lics[i];
      }
    }
  }

  /** Each key holds the details URL of the last accepted licence with that key. */
  lemma {:induction false} IndexByLast(lics: seq<SpdxLicense>, keyOf: SpdxLicense -> string, accept: SpdxLicense -> bool, k: string)
    requires HasKey(IndexBy(lics, keyOf, accept), k)
    ensures exists i :: LastWithKey(lics, keyOf, accept, k, i) && Get(IndexBy(lics, keyOf, accept), k) == Details(lics[i])
  {
    var n := |lics| - 1;
    var init := lics[..n];
    if accept(lics[n]) && keyOf(lics[n]) == k {
      assert LastWithKey(lics, keyOf, accept, k, n);
    } else {
      IndexByOther(lics, keyOf, accept, k);
      IndexByLast(init, keyOf, accept, k);
      var i :| LastWithKey(init, keyOf, accept, k, i) && Get(IndexBy(init, keyOf, accept), k) == Details(init[i]);
      LastWithKeyExtend(lics, keyOf, accept, k, i);
    }
  }

  /** A last licence with another key leaves the entry for `k` as it was. */
  lemma IndexByOther(lics: seq<SpdxLicense>, keyOf: SpdxLicense -> string, accept: SpdxLicense -> bool, k: string)
    requires lics != [] && HasKey(IndexBy(lics, keyOf, accept), k)
    requires !(accept(lics[|lics| - 1]) && keyOf(lics[|lics| - 1]) == k)
    ensures HasKey(IndexBy(lics[..|lics| - 1], keyOf, accept), k)
    ensures Get(IndexBy(lics, keyOf, accept), k) == Get(IndexBy(lics[..|lics| - 1], keyOf, accept), k)
  {
  }

  /** The last licence with key `k` in a prefix stays the last one when a licence with another key follows. */
  lemma LastWithKeyExtend(lics: seq<SpdxLicense>, keyOf: SpdxLicense -> string, accept: SpdxLicense -> bool, k: string, i: int)
    requires lics != [] && LastWithKey(lics[..|lics| - 1], keyOf, accept, k, i)
    requires !(accept(lics[|lics| - 1]) && keyOf(lics[|lics| - 1]) == k)
    ensures LastWithKey(lics, keyOf, accept, k, i) && lics[i] == lics[..|lics| - 1][i]
  {
    var n := |lics| - 1;
    forall j | i < j < |lics| ensures !(accept(lics[j]) && keyOf(lics[j]) == k) {
      if j < n {
        assert lics[..n][j] == lics[j];
      }
    }
  }

  lemma IndexByMeaning(lics: seq<SpdxLicense>, keyOf: SpdxLicense -> string, accept: SpdxLicense -> bool)
    ensures forall k :: HasKey(IndexBy(lics, keyOf, accept), k) <==> Indexed(lics, keyOf, accept, k)
    ensures forall k :: HasKey(IndexBy(lics, keyOf, accept), k) ==>
              exists i :: LastWithKey(lics, keyOf, accept, k, i) && Get(IndexBy(lics, keyOf, accept), k) == Details(lics[i])
  {
    forall k ensures HasKey(IndexBy(lics, keyOf, accept), k) <==> Indexed(lics, keyOf, accept, k) {
      IndexByKeys(lics, keyOf, accept, k);
    }
    forall k | HasKey(IndexBy(lics, keyOf, accept), k)
      ensures exists i :: LastWithKey(lics, keyOf, accept, k, i) && Get(IndexBy(lics, keyOf, accept), k) == Details(lics[i])
    {
      IndexByLast(lics, keyOf, accept, k);
    }
  }

  /** The three indexes, by licence id, by reference URL and by details URL. */
  datatype SpdxIndexes = SpdxIndexes(byId: Dict<string>, byRef: Dict<string>, byDetails: Dict<string>)

  function IndexesSpec(lics: seq<SpdxLicense>): SpdxIndexes
  {
    SpdxIndexes(IndexBy(lics, IdKey, HasIdAndDetails),
                IndexBy(lics, RefKey, HasRefAndDetails),
                IndexBy(lics, DetailsKey, HasDetails))
  }

  /** `_build_spdx_indexes(spdx_obj)` over the `licenses` list. */
  method BuildSpdxIndexes(lics: seq<SpdxLicense>) returns (ix: SpdxIndexes)
    ensures ix == IndexesSpec(lics)
  {
    var byId: Dict<string> := [];
    var byRef: Dict<string> := [];
    var byDetails: Dict<string> := [];
    var i := 0;
    while i < |lics|
      invariant 0 <= i <= |lics|
      invariant byId == IndexBy(lics[..i], IdKey, HasIdAndDetails)
      invariant byRef == IndexBy(lics[..i], RefKey, HasRefAndDetails)
      invariant byDetails == IndexBy(lics[..i], DetailsKey, HasDetails)
    {
      assert lics[..i + 1][..i] == lics[..i];
      var lic := lics[i];
      var licId := OrEmpty(lic.licenseId);
      var ref := OrEmpty(lic.reference);
      var details := Details(lic);
      if licId != "" && details != "" {
        byId := Put(byId, Normalize(Some(licId)), details);
      }
      if ref != "" && details != "" {
        byRef := Put(byRef, Normalize(Some(StripSpdxSuffix(ref))), details);
      }
      if details != "" {
        byDetails := Put(byDetails, Normalize(Some(StripSpdxSuffix(details))), details);
      }
      i := i + 1;
    }
    assert lics[..i] == lics;
    ix := SpdxIndexes(byId, byRef, byDetails);
  }

  /** No index stores an empty details URL: every stored value comes from a licence that has one. */
  lemma {:induction false} IndexValuesNonEmpty(lics: seq<SpdxLicense>, keyOf: SpdxLicense -> string, accept: SpdxLicense -> bool)
    requires forall l :: accept(l) ==> Details(l) != ""
    ensures forall k :: HasKey(IndexBy(lics, keyOf, accept), k) ==> Get(IndexBy(lics, keyOf, accept), k) != ""
  {
    IndexByMeaning(lics, keyOf, accept);
  }

  /**
   * The three indexes: keys come exactly from the licences with an id and
   * details, a reference and details, or details; no stored value is
   * empty; the last licence with a key wins.
   */
  lemma SpdxIndexesMeaning(lics: seq<SpdxLicense>)
    ensures forall k :: HasKey(IndexesSpec(lics).byId, k) <==> Indexed(lics, IdKey, HasIdAndDetails, k)
    ensures forall k :: HasKey(IndexesSpec(lics).byRef, k) <==> Indexed(lics, RefKey, HasRefAndDetails, k)
    ensures forall k :: HasKey(IndexesSpec(lics).byDetails, k) <==> Indexed(lics, DetailsKey, HasDetails, k)
    ensures forall k :: HasKey(IndexesSpec(lics).byId, k) ==> Get(IndexesSpec(lics).byId, k) != ""
    ensures forall k :: HasKey(IndexesSpec(lics).byRef, k) ==> Get(IndexesSpec(lics).byRef, k) != ""
    ensures forall k :: HasKey(IndexesSpec(lics).byDetails, k) ==> Get(IndexesSpec(lics).byDetails, k) != ""
    ensures forall k :: HasKey(IndexesSpec(lics).byDetails, k) ==>
              exists i :: LastWithKey(lics, DetailsKey, HasDetails, k, i) && Get(IndexesSpec(lics).byDetails, k) == Details(lics[i])
  {
    IndexByMeaning(lics, IdKey, HasIdAndDetails);
    IndexByMeaning(lics, RefKey, HasRefAndDetails);
    IndexByMeaning(lics, DetailsKey, HasDetails);
    IndexValuesNonEmpty(lics, IdKey, HasIdAndDetails);
    IndexValuesNonEmpty(lics, RefKey, HasRefAndDetails);
    IndexValuesNonEmpty(lics, DetailsKey, HasDetails);
  }

  // ---------------------------------------------------------------- _collect_urls_from_metadata

  /**
   * Python's `str()` of a raw value. Strings, `None` and the empty list are
   * exact. For another list, a dict and another object only the first
   * character (`[`, `{`, `<`) and a length of at least three agree with
   * Python; their contents are not written out, so the substring tests of
   * `rda_a1_02m` on such values are not modelled.
   */
  function StrOf(v: Value): string
  {
    match v
    case Str(s) => s
    case NoneV => "None"
    case ListV(xs) => if xs == [] then "[]" else "[...]"
    case Temporal(_, _) => "{...}"
    case Opaque(n) => "<" + n + " object>"
  }

  /** The string form of a row value, when it starts with `http`. */
  function UrlOf(r: Row): Option<string>
  {
    var val := StrOf(r.textValue);
    if StartsWith(val, "http") then Some(val) else None
  }

  /** The URLs of the rows, in row order: the string forms of their values that start with `http`. */
  function UrlsSpec(rows: seq<Row>): seq<string>
  {
    FilterMap(rows, UrlOf)
  }

  /** `_collect_urls_from_metadata(df, fields_like)`: `fields_like` has no effect on the result. */
  method CollectUrls(rows: seq<Row>, fieldsLike: Option<set<string>>) returns (urls: seq<string>)
    ensures urls == UrlsSpec(rows)
  {
    urls := [];
    var i := 0;
    while i < |rows|
      invariant 0 <= i <= |rows|
      invariant urls == UrlsSpec(rows[..i])
    {
      FilterMapSnoc(rows, UrlOf, i);
      var val := StrOf(rows[i].textValue);
      if StartsWith(val, "http") {
        urls := urls + [val];
      }
      i := i + 1;
    }
    assert rows[..i] == rows;
  }

  /** Every collected URL starts with `http`, and every such row value is collected. */
  lemma UrlsMeaning(rows: seq<Row>)
    ensures forall u :: u in UrlsSpec(rows) ==> StartsWith(u, "http")
    ensures forall i :: 0 <= i < |rows| && StartsWith(StrOf(rows[i].textValue), "http") ==> StrOf(rows[i].textValue) in UrlsSpec(rows)
    ensures |UrlsSpec(rows)| <= |rows|
  {
    FilterMapLength(rows, UrlOf);
    forall u | u in UrlsSpec(rows) ensures StartsWith(u, "http") {
      var i := FilterMapSource(rows, UrlOf, u);
    }
    forall i | 0 <= i < |rows| && StartsWith(StrOf(rows[i].textValue), "http")
      ensures StrOf(rows[i].textValue) in UrlsSpec(rows)
    {
      FilterMapHas(rows, UrlOf, i);
    }
  }

  /** Collection keeps row order: the URLs of two tables one after the other are the URLs of each, in turn. */
  lemma UrlsKeepOrder(a: seq<Row>, b: seq<Row>)
    ensures UrlsSpec(a + b) == UrlsSpec(a) + UrlsSpec(b)
  {
    FilterMapAppend(a, b, UrlOf);
  }

  // ---------------------------------------------------------------- _filter_non_prov_fields

  predicate IsProvField(f: string)
  {
    StartsWith(f, "prov_") || f == "provenance"
  }

  /** `_filter_non_prov_fields(fields)`. */
  function FilterNonProv(fields: set<string>): (r: set<string>)
  {
    set f | f in fields && !IsProvField(f)
  }

  /** Exactly `provenance` and the `prov_` fields are removed, and filtering twice changes nothing. */
  lemma FilterNonProvExact(fields: set<string>)
    ensures fields - FilterNonProv(fields) == set f | f in fields && IsProvField(f)
    ensures "provenance" !in FilterNonProv(fields)
    ensures forall f :: f in FilterNonProv(fields) ==> !StartsWith(f, "prov_")
    ensures FilterNonProv(FilterNonProv(fields)) == FilterNonProv(fields)
  {
  }

  // ---------------------------------------------------------------- Plugin._flatten_yaml

  /** A parsed YAML / JSON document: mappings keep their key order. */
  datatype Yaml = YMap(entries: seq<YamlEntry>) | YList(items: seq<Yaml>) | YScalar(text: string) | YNull
  datatype YamlEntry = YamlEntry(key: string, value: Yaml)

  /** The dotted key of a child. */
  function ChildKey(parent: string, key: string): string
  {
    if parent != "" then parent + "." + key else key
  }

  /** The row of a scalar leaf: the element is the key before the first `.`, the qualifier the rest. */
  function LeafRow(namespace: string, key: string, value: string): (r: Row)
    ensures r.schema == namespace && '.' !in r.element && r.textValue == Str(value)
    ensures r.qualifier.None? <==> '.' !in key
    ensures r.qualifier.None? ==> r.element == key
    ensures r.qualifier.Some? ==> key == r.element + "." + r.qualifier.value
  {
    if '.' in key then
      var (e, q) := SplitOnce(key, '.');
      Row(namespace, e, Str(value), Some(q))
    else Row(namespace, key, Str(value), None)
  }

  /** The rows of a document, depth first, in key and item order. */
  function Flat(data: Yaml, namespace: string, parent: string): seq<Row>
    decreases data, 1
  {
    match data
    case YMap(es) => FlatEntries(es, namespace, parent)
    case YList(xs) => FlatItems(xs, namespace, parent)
    case YScalar(t) => [LeafRow(namespace, parent, t)]
    case YNull => [LeafRow(namespace, parent, "")]
  }

  function FlatEntries(es: seq<YamlEntry>, namespace: string, parent: string): seq<Row>
    decreases es, 0
  {
    if es == [] then []
    else
      var n := |es| - 1;
      assert es[n] in es;
      FlatEntries(es[..n], namespace, parent) + Flat(es[n].value, namespace, ChildKey(parent, es[n].key))
  }

  function FlatItems(xs: seq<Yaml>, namespace: string, parent: string): seq<Row>
    decreases xs, 0
  {
    if xs == [] then []
    else
      var n := |xs| - 1;
      FlatItems(xs[..n], namespace, parent) + Flat(xs[n], namespace, parent)
  }

  /** The list `_flatten_yaml` appends to, shared by all its recursive calls. */
  class RowList {
    var rows: seq<Row>

    constructor ()
      ensures rows == []
    {
      rows := [];
    }
  }

  /** `Plugin._flatten_yaml(data, namespace, parent_key, metadata)`. */
  method FlattenInto(data: Yaml, namespace: string, parent: string, metadata: RowList)
    modifies metadata
    ensures metadata.rows == old(metadata.rows) + Flat(data, namespace, parent)
    decreases data
  {
    match data {
      case YMap(es) =>
        var i := 0;
        while i < |es|
          invariant 0 <= i <= |es|
          invariant metadata.rows == old(metadata.rows) + FlatEntries(es[..i], namespace, parent)
        {
          FlatEntriesSnoc(es, i, namespace, parent);
          SeqAssoc(old(metadata.rows), FlatEntries(es[..i], namespace, parent), Flat(es[i].value, namespace, ChildKey(parent, es[i].key)));
          assert es[i] in es;
          FlattenInto(es[i].value, namespace, ChildKey(parent, es[i].key), metadata);
          i := i + 1;
        }
        assert es[..i] == es;
      case YList(xs) =>
        var i := 0;
        while i < |xs|
          invariant 0 <= i <= |xs|
          invariant metadata.rows == old(metadata.rows) + FlatItems(xs[..i], namespace, parent)
        {
          FlatItemsSnoc(xs, i, namespace, parent);
          SeqAssoc(old(metadata.rows), FlatItems(xs[..i], namespace, parent), Flat(xs[i], namespace, parent));
          FlattenInto(xs[i], namespace, parent, metadata);
          i := i + 1;
        }
        assert xs[..i] == xs;
      case YScalar(t) =>
        metadata.rows := metadata.rows + [LeafRow(namespace, parent, t)];
      case YNull =>
        metadata.rows := metadata.rows + [LeafRow(namespace, parent, "")];
    }
  }

  lemma FlatEntriesSnoc(es: seq<YamlEntry>, i: nat, namespace: string, parent: string)
    requires i < |es|
    ensures FlatEntries(es[..i + 1], namespace, parent) ==
              FlatEntries(es[..i], namespace, parent) + Flat(es[i].value, namespace, ChildKey(parent, es[i].key))
  {
    assert es[..i + 1][..i] == es[..i];
  }

  lemma FlatItemsSnoc(xs: seq<Yaml>, i: nat, namespace: string, parent: string)
    requires i < |xs|
    ensures FlatItems(xs[..i + 1], namespace, parent) == FlatItems(xs[..i], namespace, parent) + Flat(xs[i], namespace, parent)
  {
    assert xs[..i + 1][..i] == xs[..i];
  }

  /** The top-level call, with a fresh list and no parent key. */
  method FlattenYaml(data: Yaml, namespace: string) returns (rows: seq<Row>)
    ensures rows == Flat(data, namespace, "")
  {
    var metadata := new RowList();
    FlattenInto(data, namespace, "", metadata);
    rows := metadata.rows;
  }

  /** The scalar leaves of a document (a `None` counts as one); empty containers have none. */
  function Leaves(data: Yaml): nat
    decreases data, 1
  {
    match data
    case YMap(es) => EntryLeaves(es)
    case YList(xs) => ItemLeaves(xs)
    case YScalar(_) => 1
    case YNull => 1
  }

  function EntryLeaves(es: seq<YamlEntry>): nat
    decreases es, 0
  {
    if es == [] then 0
    else
      var n := |es| - 1;
      assert es[n] in es;
      EntryLeaves(es[..n]) + Leaves(es[n].value)
  }

  function ItemLeaves(xs: seq<Yaml>): nat
    decreases xs, 0
  {
    if xs == [] then 0 else var n := |xs| - 1; ItemLeaves(xs[..n]) + Leaves(xs[n])
  }

  /** Every row carries the namespace, an element without `.`, and a string value. */
  predicate WellShaped(rows: seq<Row>, namespace: string)
  {
    forall i :: 0 <= i < |rows| ==> rows[i].schema == namespace && '.' !in rows[i].element && rows[i].textValue.Str?
  }

  lemma WellShapedConcat(a: seq<Row>, b: seq<Row>, namespace: string)
    requires WellShaped(a, namespace) && WellShaped(b, namespace)
    ensures WellShaped(a + b, namespace)
  {
    forall i | 0 <= i < |a + b| ensures (a + b)[i] == (if i < |a| then a[i] else b[i - |a|]) {
    }
  }

  /** One row per scalar leaf, each of them well shaped. */
  lemma {:induction false} FlatShape(data: Yaml, namespace: string, parent: string)
    ensures |Flat(data, namespace, parent)| == Leaves(data)
    ensures WellShaped(Flat(data, namespace, parent), namespace)
    decreases data, 1
  {
    match data
    case YMap(es) => FlatEntriesShape(es, namespace, parent);
    case YList(xs) => FlatItemsShape(xs, namespace, parent);
    case YScalar(t) =>
    case YNull =>
  }

  lemma {:induction false} FlatEntriesShape(es: seq<YamlEntry>, namespace: string, parent: string)
    ensures |FlatEntries(es, namespace, parent)| == EntryLeaves(es)
    ensures WellShaped(FlatEntries(es, namespace, parent), namespace)
    decreases es, 0
  {
    if es != [] {
      var n := |es| - 1;
      assert es[n] in es;
      FlatEntriesShape(es[..n], namespace, parent);
      FlatShape(es[n].value, namespace, ChildKey(parent, es[n].key));
      WellShapedConcat(FlatEntries(es[..n], namespace, parent), Flat(es[n].value, namespace, ChildKey(parent, es[n].key)), namespace);
    }
  }

  lemma {:induction false} FlatItemsShape(xs: seq<Yaml>, namespace: string, parent: string)
    ensures |FlatItems(xs, namespace, parent)| == ItemLeaves(xs)
    ensures WellShaped(FlatItems(xs, namespace, parent), namespace)
    decreases xs, 0
  {
    if xs != [] {
      var n := |xs| - 1;
      FlatItemsShape(xs[..n], namespace, parent);
      FlatShape(xs[n], namespace, parent);
      WellShapedConcat(FlatItems(xs[..n], namespace, parent), Flat(xs[n], namespace, parent), namespace);
    }
  }

  /** A leaf two levels down gives its outer key as element and the inner one as qualifier. */
  lemma FlatNestedMap(namespace: string, outer: string, inner: string, v: string)
    requires '.' !in outer && outer != ""
    ensures Flat(YMap([YamlEntry(outer, YMap([YamlEntry(inner, YScalar(v))]))]), namespace, "") == [Row(namespace, outer, Str(v), Some(inner))]
  {
    var key := outer + "." + inner;
    var inn := [YamlEntry(inner, YScalar(v))];
    var es := [YamlEntry(outer, YMap(inn))];
    assert es[..0] == [] && inn[..0] == [];
    assert ChildKey("", outer) == outer;
    assert ChildKey(outer, inner) == key;
    assert FlatEntries(inn, namespace, outer) == FlatEntries([], namespace, outer) + Flat(YScalar(v), namespace, key);
    assert FlatEntries(inn, namespace, outer) == [LeafRow(namespace, key, v)];
    assert FlatEntries(es, namespace, "") == FlatEntries([], namespace, "") + Flat(YMap(inn), namespace, outer);
    var r := LeafRow(namespace, key, v);
    assert key[|outer|] == '.';
    assert '.' in key;
    assert r.element + "." + r.qualifier.value == outer + "." + inner;
    assert r.element == outer;
    assert r.qualifier.value == key[|outer| + 1..] == inner;
  }

  /** Items of a list share their parent's key, and `None` becomes `""`. */
  lemma FlatListItems(namespace: string, k: string, v: string)
    requires '.' !in k && k != ""
    ensures Flat(YMap([YamlEntry(k, YList([YScalar(v), YNull]))]), namespace, "") ==
              [Row(namespace, k, Str(v), None), Row(namespace, k, Str(""), None)]
  {
    var xs := [YScalar(v), YNull];
    var es := [YamlEntry(k, YList(xs))];
    assert es[..0] == [];
    assert ChildKey("", k) == k;
    assert xs[..1] == [YScalar(v)] && xs[..1][..0] == [];
    assert FlatItems(xs[..1], namespace, k) == FlatItems([], namespace, k) + Flat(YScalar(v), namespace, k);
    assert FlatItems(xs, namespace, k) == FlatItems(xs[..1], namespace, k) + Flat(YNull, namespace, k);
    assert FlatEntries(es, namespace, "") == FlatEntries([], namespace, "") + Flat(YList(xs), namespace, k);
  }

  // ---------------------------------------------------------------- _slug_from_item_id, _normalize_license_candidate

  predicate IsHttpUrl(s: string)
  {
    StartsWith(s, "http://") || StartsWith(s, "https://")
  }

  /** `s.rstrip("/").split("/")[-1]`: the last non-empty path segment. */
  function LastSegment(s: string): (r: string)
    ensures '/' !in r
  {
    LastField(RStripChar(s, '/'), '/')
  }

  /** A name after a slash, with or without a trailing slash, is the last segment. */
  lemma LastSegmentOf(base: string, name: string)
    requires name != "" && '/' !in name
    ensures LastSegment(base + "/" + name) == name
    ensures LastSegment(base + "/" + name + "/") == name
  {
    var s := base + "/" + name;
    assert s[|s| - 1] == name[|name| - 1];
    assert RStripChar(s, '/') == s;
    assert (s + "/")[..|s|] == s;
    assert RStripChar(s + "/", '/') == RStripChar(s, '/');
    var k := RFindChar(s, '/');
    assert s[|base|] == '/';
    assert k == |base| by {
      forall j | |base| < j < |s| ensures s[j] != '/' {
        assert s[j] == name[j - |base| - 1];
      }
    }
    assert s[k + 1..] == name;
  }

  /** `_slug_from_item_id(item_id)`: the last segment of an `http(s)://` id, any other id unchanged. */
  function SlugFromItemId(itemId: string): (r: string)
    ensures !IsHttpUrl(itemId) ==> r == itemId
    ensures IsHttpUrl(itemId) ==> '/' !in r
  {
    if IsHttpUrl(itemId) then LastSegment(itemId) else itemId
  }

  /**
   * `_normalize_license_candidate(val)`: strip, reduce a URL to its last
   * segment (a `.html` stays), then drop one leading `SPDX:` and then one
   * leading `LicenseRef-`; case is kept.
   */
  function NormalizeLicenseCandidate(val: Option<string>): string
  {
    var v := Strip(OrEmpty(val));
    if v == "" then v
    else
      var v1 := if IsHttpUrl(v) then LastSegment(v) else v;
      var v2 := if StartsWith(v1, "SPDX:") then v1[5..] else v1;
      if StartsWith(v2, "LicenseRef-") then v2[11..] else v2
  }

  /** A text that starts and ends with a visible character is its own strip. */
  lemma StripVisible(t: string)
    requires t != "" && !IsSpace(t[0]) && !IsSpace(t[|t| - 1])
    ensures Strip(t) == t
  {
    LStripNoLeading(t);
  }

  /** The licence id of an SPDX page URL is its last segment; a `.html` there stays. */
  lemma LicenseCandidateOfUrl(base: string, id: string)
    requires id != "" && '/' !in id && !IsSpace(id[|id| - 1])
    requires IsHttpUrl(base)
    requires !StartsWith(id, "SPDX:") && !StartsWith(id, "LicenseRef-")
    ensures NormalizeLicenseCandidate(Some(base + "/" + id)) == id
  {
    var u := base + "/" + id;
    assert u[0] == base[0] == 'h';
    assert u[|u| - 1] == id[|id| - 1];
    StripVisible(u);
    assert u[..7] == base[..7];
    assert IsHttpUrl(u);
    LastSegmentOf(base, id);
  }

  /** One `SPDX:` prefix is dropped. */
  lemma LicenseCandidateSpdxPrefix(id: string)
    requires id != "" && !IsSpace(id[|id| - 1])
    requires !StartsWith(id, "LicenseRef-")
    ensures NormalizeLicenseCandidate(Some("SPDX:" + id)) == id
  {
    var a := "SPDX:" + id;
    assert a[0] == 'S' && a[|a| - 1] == id[|id| - 1];
    StripVisible(a);
    assert a[..5] == "SPDX:" && a[5..] == id;
    assert !IsHttpUrl(a) by { assert a[0] != 'h'; }
  }

  /** One `LicenseRef-` prefix is dropped. */
  lemma LicenseCandidateRefPrefix(id: string)
    requires id != "" && !IsSpace(id[|id| - 1])
    ensures NormalizeLicenseCandidate(Some("LicenseRef-" + id)) == id
  {
    var b := "LicenseRef-" + id;
    assert b[0] == 'L' && b[|b| - 1] == id[|id| - 1];
    StripVisible(b);
    assert b[..11] == "LicenseRef-" && b[11..] == id;
    assert !IsHttpUrl(b) by { assert b[0] != 'h'; }
    assert !StartsWith(b, "SPDX:") by { assert b[0] != 'S'; }
  }

  /** Both prefixes go, `SPDX:` first. */
  lemma LicenseCandidateBothPrefixes(id: string)
    requires id != "" && !IsSpace(id[|id| - 1])
    ensures NormalizeLicenseCandidate(Some("SPDX:LicenseRef-" + id)) == id
  {
    var b := "LicenseRef-" + id;
    var c := "SPDX:" + b;
    assert c == "SPDX:LicenseRef-" + id;
    assert c[0] == 'S' && c[|c| - 1] == id[|id| - 1];
    StripVisible(c);
    assert c[..5] == "SPDX:" && c[5..] == b;
    assert b[..11] == "LicenseRef-" && b[11..] == id;
    assert !IsHttpUrl(c) by { assert c[0] != 'h'; }
  }

  // ---------------------------------------------------------------- _is_persistent_identifier

  /** The PID patterns, on the stripped and lowered text. */
  predicate PidPattern(v: string)
  {
    || (IsHttpUrl(v) && (Contains(v, "doi.org/") || Contains(v, "hdl.handle.net/") || Contains(v, "purl.org/")
                         || Contains(v, "w3id.org/") || Contains(v, "orcid.org/")))
    || StartsWith(v, "ark:/") || StartsWith(v, "urn:uuid:") || StartsWith(v, "urn:")
    || (StartsWith(v, "10.") && '/' in v)
  }

  /** `_is_persistent_identifier(value)`: strings of at least six characters, measured before stripping. */
  function IsPersistentIdentifier(value: Value): (b: bool)
    ensures b ==> value.Str? && |value.s| >= 6
  {
    if !value.Str? || |value.s| < 6 then false
    else PidPattern(Lower(Strip(value.s)))
  }

  /** The heuristic ignores letter case. */
  lemma PidIgnoresCase(s: string)
    ensures IsPersistentIdentifier(Str(Lower(s))) == IsPersistentIdentifier(Str(s))
  {
    StripLower(s);
    LowerIdempotent(Strip(s));
  }

  /** A five-character URN is too short. */
  lemma PidTooShort()
    ensures !IsPersistentIdentifier(Str("urn:x"))
  {
  }

  /** A leading blank is stripped. */
  lemma LStripBlank(t: string)
    ensures LStrip([' '] + t) == LStrip(t)
  {
    var s := [' '] + t;
    assert s[0] == ' ' && s[1..] == t;
    LStripSpace(s);
  }

  /** Two leading blanks are stripped. */
  lemma LStripPadded(u: string)
    requires u == "" || !IsSpace(u[0])
    ensures LStrip("  " + u) == u
  {
    assert "  " + u == [' '] + ([' '] + u);
    LStripBlank([' '] + u);
    LStripBlank(u);
    LStripNoLeading(u);
  }

  lemma LStripPaddedUrn()
    ensures LStrip("  urn:") == "urn:"
  {
    assert "  urn:" == "  " + "urn:";
    LStripPadded("urn:");
  }

  lemma LowerUrn()
    ensures Lower("urn:") == "urn:"
  {
    var u := "urn:";
    var l := Lower(u);
    assert |l| == 4;
    assert forall i :: 0 <= i < 4 ==> !IsUpperAscii(u[i]) && l[i] == u[i];
  }

  lemma StripPaddedUrn()
    ensures Lower(Strip("  urn:")) == "urn:"
  {
    LStripPaddedUrn();
    StripVisible("urn:");
    LowerUrn();
  }

  /** The length is measured before stripping: padding makes a four-character URN count. */
  lemma PidLengthBeforeStrip()
    ensures IsPersistentIdentifier(Str("  urn:"))
  {
    StripPaddedUrn();
    var u := "urn:";
    assert StartsWith(u, "urn:") by { assert u[..4] == "urn:"; }
  }
}
