/**
 * The DIGITAL.CSIC plugin (plugins/digital_csic/plugin.py): its getters,
 * which strip brackets, parse `start=…;end=…` coverages and keep GeoNames
 * places; its licence validation against SPDX; the schema of a prefix;
 * the rows built from the REST API's `key` fields; and the identifier
 * classification of the constructor.
 */
module DigitalCsic {
  import opened Common
  import opened PyStr
  import opened PyDict
  import opened Values
  import Gatherer

  // ---------------------------------------------------------------- Python operators on raw values

  /** `needle in v`: a substring test on a string, a membership test on a list or on a dict's keys. */
  function InOp(needle: string, v: Value): (r: Outcome<bool>)
    ensures v.Str? ==> r == Returned(Contains(v.s, needle))
    ensures (v.NoneV? || v.Opaque?) <==> r.Raised?
  {
    match v
    case Str(s) => Returned(Contains(s, needle))
    case ListV(xs) => Returned(Str(needle) in xs)
    case Temporal(_, _) => Returned(needle == "start_date" || needle == "end_date")
    case NoneV => Raised("TypeError: argument of type 'NoneType' is not iterable")
    case Opaque(_) => Raised("TypeError: argument is not iterable")
  }

  /** `a in v and b in v`, evaluated left to right with short circuit. */
  function BothIn(a: string, b: string, v: Value): Outcome<bool>
  {
    match InOp(a, v)
    case Raised(e) => Raised(e)
    case Returned(false) => Returned(false)
    case Returned(true) => InOp(b, v)
  }

  const NoFind := "AttributeError: object has no attribute 'find'"

  // ---------------------------------------------------------------- getters

  /** `between_brackets`: the text strictly between the first `[` and the first `]`. */
  function BetweenBrackets(v: Value): Outcome<Value>
  {
    match BothIn("[", "]", v)
    case Raised(e) => Raised(e)
    case Returned(false) => Returned(v)
    case Returned(true) =>
      if v.Str? then Returned(Str(Slice(v.s, Find(v.s, "[") + 1, Find(v.s, "]"))))
      else Raised(NoFind)
  }

  /**
   * A string without both brackets comes back unchanged; with both, the
   * result is the text after the first `[` up to the first `]`, and empty
   * when that `]` comes first.
   */
  lemma BetweenBracketsCases(s: string)
    ensures !('[' in s && ']' in s) ==> BetweenBrackets(Str(s)) == Returned(Str(s))
    ensures '[' in s && ']' in s ==>
              var i, j := FindChar(s, '['), FindChar(s, ']');
              BetweenBrackets(Str(s)) == Returned(Str(if i < j then s[i + 1..j] else ""))
  {
    ContainsChar(s, '[');
    ContainsChar(s, ']');
    if '[' in s && ']' in s {
      FindOneChar(s, '[');
      FindOneChar(s, ']');
      assert BothIn("[", "]", Str(s)) == Returned(true);
      SliceAfter(s, FindChar(s, '['), FindChar(s, ']'));
    }
  }

  /** The slice `s[i + 1:j]` for two indexes inside `s`. */
  lemma SliceAfter(s: string, i: nat, j: nat)
    requires i < |s| && j < |s|
    ensures Slice(s, i + 1, j) == if i < j then s[i + 1..j] else ""
  {
    assert ClampIndex(i + 1, |s|) == i + 1;
    assert ClampIndex(j, |s|) == j;
  }

  /** `s.find(c)` for a one-character string is the first index of `c`. */
  lemma FindOneChar(s: string, c: char)
    requires c in s
    ensures Find(s, [c]) == FindChar(s, c)
  {
    var k := FindChar(s, c);
    assert OccursAt(s, [c], k) by { assert s[k..k + 1] == [c]; }
    forall j | 0 <= j < k ensures !OccursAt(s, [c], j) {
      assert s[..k][j] == s[j];
      assert s[j..j + 1] == [s[j]];
    }
    FindIs(s, [c], k);
  }

  /** `_get_temporal_coverage`: the text after `start=` up to the first `;`, and after `end=` to the end. */
  function TemporalCoverage(v: Value): Outcome<Value>
  {
    match BothIn("start", "end", v)
    case Raised(e) => Raised(e)
    case Returned(false) => Returned(NoneV)
    case Returned(true) =>
      if v.Str? then
        var s := v.s;
        Returned(Temporal(Slice(s, Find(s, "start=") + 6, Find(s, ";")), Slice(s, Find(s, "end=") + 4, |s|)))
      else Raised(NoFind)
  }

  /** Without both `start` and `end` in the text there is no coverage. */
  lemma TemporalNeedsBoth(s: string)
    ensures TemporalCoverage(Str(s)).Returned?
    ensures TemporalCoverage(Str(s)) == Returned(NoneV) <==> !(Contains(s, "start") && Contains(s, "end"))
  {
  }

  /**
   * `"start=" + a + ";end=" + b`, with no `;` in `a` and no `end=` before
   * the one that follows it, gives the coverage from `a` to `b`.
   */
  lemma TemporalParses(a: string, b: string)
    requires ';' !in a
    requires forall j :: 0 <= j < 7 + |a| ==> !OccursAt("start=" + a + ";end=" + b, "end=", j)
    ensures TemporalCoverage(Str("start=" + a + ";end=" + b)) == Returned(Temporal(a, b))
  {
    var s := "start=" + a + ";end=" + b;
    var k := 6 + |a|;
    StartFound(a, b);
    SemicolonFound(a, b);
    EndFound(a, b);
    assert BothIn("start", "end", Str(s)) == Returned(true);
    var head := "start=" + a;
    assert s == head + (";end=" + b);
    assert s[..k] == head;
    assert head[6..] == a;
    assert s[6..k] == a;
    assert Slice(s, 6, k) == a;
    assert s[k + 5..] == b;
    assert Slice(s, k + 5, |s|) == b;
  }

  lemma StartFound(a: string, b: string)
    ensures Find("start=" + a + ";end=" + b, "start=") == 0
    ensures Contains("start=" + a + ";end=" + b, "start")
  {
    var s := "start=" + a + ";end=" + b;
    assert s[..6] == "start=";
    assert s[..5] == "start";
    FindIs(s, "start=", 0);
    ContainsAt(s, "start", 0);
  }

  lemma SemicolonFound(a: string, b: string)
    requires ';' !in a
    ensures Find("start=" + a + ";end=" + b, ";") == 6 + |a|
  {
    var s := "start=" + a + ";end=" + b;
    var k := 6 + |a|;
    assert s[k..k + 1] == ";";
    forall j | 0 <= j < k ensures !OccursAt(s, ";", j) {
      assert s[j..j + 1] == [s[j]];
      if j < 6 {
        assert s[j] == "start="[j];
      } else {
        assert s[j] == a[j - 6];
      }
    }
    FindIs(s, ";", k);
  }

  lemma EndFound(a: string, b: string)
    requires forall j :: 0 <= j < 7 + |a| ==> !OccursAt("start=" + a + ";end=" + b, "end=", j)
    ensures Find("start=" + a + ";end=" + b, "end=") == 7 + |a|
    ensures Contains("start=" + a + ";end=" + b, "end")
  {
    var s := "start=" + a + ";end=" + b;
    var k := 7 + |a|;
    assert s[k..k + 4] == "end=";
    assert s[k..k + 3] == "end";
    FindIs(s, "end=", k);
    ContainsAt(s, "end", k);
  }

  /** `_get_spatial_coverage`: the value when it mentions `geonames`, else `None`. */
  function SpatialCoverage(v: Value): (r: Outcome<Value>)
    ensures v.Str? ==> r == Returned(if Contains(v.s, "geonames") then v else NoneV)
  {
    match InOp("geonames", v)
    case Raised(e) => Raised(e)
    case Returned(b) => Returned(if b then v else NoneV)
  }

  /** `_get_license`: a string becomes a one-item list, a list is kept, anything else gives `None`. */
  function License(v: Value): (r: Value)
    ensures v.Str? ==> r == ListV([v])
    ensures v.ListV? ==> r == v
    ensures !v.Str? && !v.ListV? ==> r == NoneV
    ensures r != NoneV ==> r.ListV?
  {
    match v
    case Str(_) => ListV([v])
    case ListV(_) => v
    case _ => NoneV
  }

  /** The plugin's getters over the base ones. */
  function Getters(g: Gatherer.Getter, v: Value): Outcome<Value>
  {
    match g
    case MetadataIds => Returned(v)
    case DataIds => Returned(v)
    case PersonIds => BetweenBrackets(v)
    case TemporalCoverage => TemporalCoverage(v)
    case SpatialCoverage => SpatialCoverage(v)
    case ResourceDiscovery => BetweenBrackets(v)
    case MetadataConnection => BetweenBrackets(v)
    case Keywords => Returned(v)
    case _ => Gatherer.BaseGet(g, v)
  }

  /**
   * Identifiers and keywords pass through; person identifiers, resource
   * discovery and metadata connection all strip brackets; formats and
   * accessibility keep the defaults.
   */
  lemma GettersRouting(v: Value)
    ensures Getters(Gatherer.MetadataIds, v) == Returned(v) && Getters(Gatherer.DataIds, v) == Returned(v)
    ensures Getters(Gatherer.Keywords, v) == Returned(v)
    ensures Getters(Gatherer.PersonIds, v) == BetweenBrackets(v)
    ensures Getters(Gatherer.ResourceDiscovery, v) == BetweenBrackets(v)
    ensures Getters(Gatherer.MetadataConnection, v) == BetweenBrackets(v)
    ensures Getters(Gatherer.Formats, v) == Returned(Gatherer.NotImplementedClass)
    ensures Getters(Gatherer.Accessibility, v) == Returned(v)
  {
  }

  // ---------------------------------------------------------------- _validate_license

  /** The licence validation, vocabulary by vocabulary: SPDX partitions the licences, the rest stay empty. */
  function LicenseValidationSpec(licenses: seq<Value>, vocabularies: Dict<string>, spdx: Value -> bool): Validation
  {
    if vocabularies == [] then []
    else
      var n := |vocabularies| - 1;
      var id := vocabularies[n].0;
      Put(LicenseValidationSpec(licenses, vocabularies[..n], spdx), id,
          if id == "spdx" then Values.Split(licenses, spdx) else Partition([], []))
  }

  /** `_validate_license(licenses, vocabularies)`, with `is_spdx_license` as `spdx`. */
  method ValidateLicense(licenses: seq<Value>, vocabularies: Dict<string>, spdx: Value -> bool) returns (r: Validation)
    ensures r == LicenseValidationSpec(licenses, vocabularies, spdx)
  {
    r := [];
    var i := 0;
    while i < |vocabularies|
      invariant 0 <= i <= |vocabularies|
      invariant r == LicenseValidationSpec(licenses, vocabularies[..i], spdx)
    {
      assert vocabularies[..i + 1][..i] == vocabularies[..i];
      var id := vocabularies[i].0;
      var valid: seq<Value> := [];
      var nonValid: seq<Value> := [];
      if id == "spdx" {
        var j := 0;
        while j < |licenses|
          invariant 0 <= j <= |licenses|
          invariant valid == Filter(licenses[..j], spdx)
          invariant nonValid == Filter(licenses[..j], Not(spdx))
        {
          assert licenses[..j + 1][..j] == licenses[..j];
          if spdx(licenses[j]) {
            valid := valid + [licenses[j]];
          } else {
            nonValid := nonValid + [licenses[j]];
          }
          j := j + 1;
        }
        assert licenses[..j] == licenses;
      }
      r := Put(r, id, Partition(valid, nonValid));
      i := i + 1;
    }
    assert vocabularies[..i] == vocabularies;
  }

  /**
   * The result has exactly the configured vocabulary ids as keys; `spdx`
   * partitions the licences by the SPDX predicate, every other id holds
   * two empty lists.
   */
  lemma {:induction false} LicenseValidationShape(licenses: seq<Value>, vocabularies: Dict<string>, spdx: Value -> bool)
    ensures forall k :: HasKey(LicenseValidationSpec(licenses, vocabularies, spdx), k) <==> HasKey(vocabularies, k)
    ensures forall k :: HasKey(vocabularies, k) ==>
              Get(LicenseValidationSpec(licenses, vocabularies, spdx), k) ==
                if k == "spdx" then Values.Split(licenses, spdx) else Partition([], [])
  {
    if vocabularies != [] {
      var n := |vocabularies| - 1;
      LicenseValidationShape(licenses, vocabularies[..n], spdx);
      assert vocabularies == vocabularies[..n] + [vocabularies[n]];
      assert Keys(vocabularies) == Keys(vocabularies[..n]) + [vocabularies[n].0];
    }
  }

  // ---------------------------------------------------------------- metadata_prefix_to_uri

  /**
   * `metadata_prefix_to_uri`: the configured schema URI of a known prefix,
   * the prefix itself otherwise, and also when the configuration cannot be
   * read (`schemas` is then `None`).
   */
  function PrefixToUri(prefix: string, schemas: Option<Dict<string>>): (uri: string)
    ensures schemas.Some? && HasKey(schemas.value, prefix) ==> uri == Get(schemas.value, prefix)
    ensures !(schemas.Some? && HasKey(schemas.value, prefix)) ==> uri == prefix
  {
    match schemas
    case None => prefix
    case Some(m) => if HasKey(m, prefix) then Get(m, prefix) else prefix
  }

  // ---------------------------------------------------------------- the REST metadata rows

  /** One item of the REST API's metadata list: its dotted `key` and its `value`. */
  datatype RestEntry = RestEntry(key: string, value: Value)

  /** The row of one entry: `schema.element[.qualifier…]`, the qualifier `""` when there is none. */
  function RestRow(e: RestEntry, schemas: Option<Dict<string>>): Outcome<Row>
  {
    var parts := PyStr.Split(e.key, '.');
    if |parts| < 2 then Raised("IndexError: list index out of range")
    else
      Returned(Row(PrefixToUri(parts[0], schemas), parts[1], e.value, Some(if |parts| > 2 then parts[2] else "")))
  }

  function RestRowsSpec(entries: seq<RestEntry>, schemas: Option<Dict<string>>): Outcome<seq<Row>>
  {
    MapAll(entries, e => RestRow(e, schemas))
  }

  /** The loop of `get_metadata_api` that builds `md` from the REST entries. */
  method RestRows(entries: seq<RestEntry>, schemas: Option<Dict<string>>) returns (r: Outcome<seq<Row>>)
    ensures r == RestRowsSpec(entries, schemas)
  {
    var md: seq<Row> := [];
    var i := 0;
    while i < |entries|
      invariant 0 <= i <= |entries|
      invariant RestRowsSpec(entries[..i], schemas) == Returned(md)
    {
      var row := RestRow(entries[i], schemas);
      MapAllSnoc(entries, e => RestRow(e, schemas), i, md);
      if row.Raised? {
        MapAllFailurePersists(entries, e => RestRow(e, schemas), i + 1);
        return Raised(row.error);
      }
      md := md + [row.value];
      i := i + 1;
    }
    assert entries[..i] == entries;
    r := Returned(md);
  }

  /**
   * The key split: `p.e` gives element `e` and qualifier `""`; `p.e.q.…`
   * gives element `e` and qualifier `q`, later segments dropped; the
   * schema is the prefix's URI; a key without a dot raises.
   */
  lemma RestKeySplit(parts: seq<string>, v: Value, schemas: Option<Dict<string>>)
    requires |parts| >= 1
    requires forall i :: 0 <= i < |parts| ==> '.' !in parts[i]
    ensures |parts| == 1 ==> RestRow(RestEntry(Join(parts, '.'), v), schemas).Raised?
    ensures |parts| == 2 ==>
              RestRow(RestEntry(Join(parts, '.'), v), schemas) ==
                Returned(Row(PrefixToUri(parts[0], schemas), parts[1], v, Some("")))
    ensures |parts| > 2 ==>
              RestRow(RestEntry(Join(parts, '.'), v), schemas) ==
                Returned(Row(PrefixToUri(parts[0], schemas), parts[1], v, Some(parts[2])))
  {
    SplitJoin(parts, '.');
  }

  /**
   * The rows fail exactly when some key has no dot; otherwise every REST
   * entry gives one row, in order.
   */
  lemma RestRowsOnePerEntry(entries: seq<RestEntry>, schemas: Option<Dict<string>>)
    ensures RestRowsSpec(entries, schemas).Raised? <==>
              exists i :: 0 <= i < |entries| && RestRow(entries[i], schemas).Raised?
    ensures RestRowsSpec(entries, schemas).Returned? ==>
              |RestRowsSpec(entries, schemas).value| == |entries| &&
              forall i :: 0 <= i < |entries| ==>
                RestRow(entries[i], schemas) == Returned(RestRowsSpec(entries, schemas).value[i])
  {
    var f := e => RestRow(e, schemas);
    MapAllFailIff(entries, f);
    if MapAll(entries, f).Returned? {
      MapAllAt(entries, f);
    }
  }

  // ---------------------------------------------------------------- identifier classification

  datatype IdType = Doi | Handle | Internal

  /**
   * The constructor's classification: the DOI string when `get_doi_str`
   * finds one, else the handle string when `get_handle_str` finds one,
   * else the identifier itself as an internal one.
   */
  function ClassifyId(itemId: string, doiStr: string -> string, handleStr: string -> string): (r: (string, IdType))
    ensures r.1 == Doi <==> doiStr(itemId) != ""
    ensures r.1 == Handle <==> doiStr(itemId) == "" && handleStr(itemId) != ""
    ensures r.1 == Doi ==> r.0 == doiStr(itemId)
    ensures r.1 == Handle ==> r.0 == handleStr(itemId)
    ensures r.1 == Internal ==> r.0 == itemId
    ensures r.1 != Internal ==> r.0 != ""
  {
    if doiStr(itemId) != "" then (doiStr(itemId), Doi)
    else if handleStr(itemId) != "" then (handleStr(itemId), Handle)
    else (itemId, Internal)
  }
}
