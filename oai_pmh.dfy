/**
 * The OAI-PMH plugin (plugins/oai-pmh/plugin.py): its getters, the licence
 * partition, the choice of the record URL among five GetRecord candidates
 * (section 4.1 of the OAI-PMH 2.0 specification, with the `error` element
 * of section 3.6 as the failure signal), the choice of the Dublin Core
 * metadata prefix and the rows built from the record's XML elements.
 */
module OaiPmh {
  import opened Common
  import opened PyStr
  import opened PyDict
  import opened Values
  import Gatherer
  import DigitalCsic

  // ---------------------------------------------------------------- getters

  /**
   * The plugin's getters over the base ones: identifiers pass through,
   * temporal and spatial coverage are parsed exactly as in the DIGITAL.CSIC
   * plugin; `_get_person` is not a getter `gather` calls, so person
   * identifiers keep the default.
   */
  function Getters(g: Gatherer.Getter, v: Value): Outcome<Value>
  {
    match g
    case MetadataIds => Returned(v)
    case DataIds => Returned(v)
    case TemporalCoverage => DigitalCsic.TemporalCoverage(v)
    case SpatialCoverage => DigitalCsic.SpatialCoverage(v)
    case _ => Gatherer.BaseGet(g, v)
  }

  /**
   * Temporal and spatial coverage agree with the DIGITAL.CSIC plugin;
   * unlike there, person identifiers, resource discovery and metadata
   * connection do not strip brackets.
   */
  lemma GettersRouting(v: Value)
    ensures Getters(Gatherer.MetadataIds, v) == Returned(v) && Getters(Gatherer.DataIds, v) == Returned(v)
    ensures Getters(Gatherer.TemporalCoverage, v) == DigitalCsic.Getters(Gatherer.TemporalCoverage, v)
    ensures Getters(Gatherer.SpatialCoverage, v) == DigitalCsic.Getters(Gatherer.SpatialCoverage, v)
    ensures Getters(Gatherer.PersonIds, v) == Returned(v)
    ensures Getters(Gatherer.ResourceDiscovery, v) == Returned(v)
    ensures Getters(Gatherer.MetadataConnection, v) == Returned(Gatherer.NotImplementedClass)
    ensures Getters(Gatherer.Formats, v) == Returned(Gatherer.NotImplementedClass)
  {
  }

  // ---------------------------------------------------------------- _validate_license

  /**
   * The plugin's `_validate_license` is the DIGITAL.CSIC one: under `spdx`
   * the licences are split exactly, each one landing in `valid` when the
   * SPDX predicate accepts it and in `nonValid` otherwise, as often as it
   * occurs; every other configured id holds two empty lists; no other key
   * appears.
   */
  lemma SpdxPartitionIsExact(licenses: seq<Value>, vocabularies: Dict<string>, spdx: Value -> bool)
    ensures forall k :: HasKey(DigitalCsic.LicenseValidationSpec(licenses, vocabularies, spdx), k) <==> HasKey(vocabularies, k)
    ensures HasKey(vocabularies, "spdx") ==>
              var p := Get(DigitalCsic.LicenseValidationSpec(licenses, vocabularies, spdx), "spdx");
              && multiset(p.valid) + multiset(p.nonValid) == multiset(licenses)
              && (forall v :: v in p.valid ==> spdx(v))
              && (forall v :: v in p.nonValid ==> !spdx(v))
    ensures forall k :: HasKey(vocabularies, k) && k != "spdx" ==>
              Get(DigitalCsic.LicenseValidationSpec(licenses, vocabularies, spdx), k) == Partition([], [])
  {
    DigitalCsic.LicenseValidationShape(licenses, vocabularies, spdx);
    SplitPartitions(licenses, spdx);
  }

  // ---------------------------------------------------------------- the tag split of get_metadata

  /**
   * The row of one XML element of the record: the schema is the tag up to
   * and including its last `}` (the `{namespace}` ElementTree puts in front),
   * the element is the rest, and there is no qualifier.
   */
  function TagRow(tag: string, text: Value): (r: Row)
    ensures r.schema + r.element == tag
    ensures r.schema == "" || r.schema[|r.schema| - 1] == '}'
    ensures '}' !in r.element
    ensures '}' !in tag ==> r.schema == "" && r.element == tag
    ensures r.textValue == text && r.qualifier == None
  {
    var k := RFindChar(tag, '}');
    assert tag == tag[..k + 1] + tag[k + 1..];
    Row(Slice(tag, 0, k + 1), Slice(tag, k + 1, |tag|), text, None)
  }

  /** The namespace-qualified tag of an element is split back into its two parts. */
  lemma TagRowOfQualified(ns: string, name: string, text: Value)
    requires '}' !in name
    ensures TagRow("{" + ns + "}" + name, text).schema == "{" + ns + "}"
    ensures TagRow("{" + ns + "}" + name, text).element == name
  {
    var tag := "{" + ns + "}" + name;
    var k := RFindChar(tag, '}');
    assert tag[|ns| + 1] == '}';
    assert k == |ns| + 1 by {
      forall j | |ns| + 1 < j < |tag| ensures tag[j] != '}' {
        assert tag[j] == name[j - |ns| - 2];
      }
    }
  }

  /** One XML element below the record's `metadata`: its tag and its text (`None` when it has none). */
  datatype XmlElement = XmlElement(tag: string, text: Value)

  /** The `data` loop of `get_metadata`: one row per element, in document order. */
  method TagRows(elements: seq<XmlElement>) returns (data: seq<Row>)
    ensures |data| == |elements|
    ensures forall i :: 0 <= i < |elements| ==> data[i] == TagRow(elements[i].tag, elements[i].text)
  {
    data := [];
    var i := 0;
    while i < |elements|
      invariant 0 <= i <= |elements|
      invariant |data| == i
      invariant forall j :: 0 <= j < i ==> data[j] == TagRow(elements[j].tag, elements[j].text)
    {
      data := data + [TagRow(elements[i].tag, elements[i].text)];
      i := i + 1;
    }
  }

  // ---------------------------------------------------------------- dc_prefix

  const OaiDcNamespace := "http://www.openarchives.org/OAI/2.0/oai_dc/"

  // ---------------------------------------------------------------- oai_metadataFormats

  /**
   * One `metadataFormat` element of a ListMetadataFormats answer: the texts
   * of its `metadataPrefix` and `metadataNamespace` children, `None` when
   * the child is missing.
   */
  datatype FormatEntry = FormatEntry(prefix: Option<string>, namespace: Option<string>)

  const NoText := "AttributeError: 'NoneType' object has no attribute 'text'"

  /** Both children are present, so `.find(...).text` succeeds on each. */
  predicate Complete(e: FormatEntry)
  {
    e.prefix.Some? && e.namespace.Some?
  }

  /**
   * The dict the loop of `oai_metadataFormats` builds: each prefix mapped
   * to its namespace, a repeated prefix overwriting the earlier one; a
   * format without one of the children raises.
   */
  function FormatsSpec(es: seq<FormatEntry>): (r: Outcome<Dict<string>>)
    ensures r.Raised? ==> r.error == NoText
  {
    if es == [] then Returned([])
    else
      match FormatsSpec(es[..|es| - 1])
      case Raised(e) => Raised(e)
      case Returned(d) =>
        var e := es[|es| - 1];
        if Complete(e) then Returned(Put(d, e.prefix.value, e.namespace.value)) else Raised(NoText)
  }

  /**
   * `oai_metadataFormats` given the answer to its request: the request's
   * exception escapes, and an answer that does not parse is replaced by an
   * empty `OAI-PMH` element, which holds no formats.
   */
  function MetadataFormatsSpec(answer: Outcome<Option<seq<FormatEntry>>>): Outcome<Dict<string>>
  {
    match answer
    case Raised(e) => Raised(e)
    case Returned(None) => Returned([])
    case Returned(Some(es)) => FormatsSpec(es)
  }

  /** `oai_metadataFormats`: the loop over the `metadataFormat` elements. */
  method MetadataFormats(answer: Outcome<Option<seq<FormatEntry>>>) returns (r: Outcome<Dict<string>>)
    ensures r == MetadataFormatsSpec(answer)
  {
    if answer.Raised? {
      return Raised(answer.error);
    }
    if answer.value.None? {
      return Returned([]);
    }
    var es := answer.value.value;
    var d: Dict<string> := [];
    var i := 0;
    while i < |es|
      invariant 0 <= i <= |es|
      invariant FormatsSpec(es[..i]) == Returned(d)
    {
      assert es[..i + 1][..i] == es[..i];
      if !Complete(es[i]) {
        FormatsFailurePersists(es, i + 1);
        return Raised(NoText);
      }
      d := Put(d, es[i].prefix.value, es[i].namespace.value);
      i := i + 1;
    }
    assert es[..i] == es;
    r := Returned(d);
  }

  lemma {:induction false} FormatsFailurePersists(es: seq<FormatEntry>, i: nat)
    requires i <= |es| && FormatsSpec(es[..i]).Raised?
    ensures FormatsSpec(es) == FormatsSpec(es[..i])
    decreases |es| - i
  {
    if i < |es| {
      assert es[..i + 1][..i] == es[..i];
      FormatsFailurePersists(es, i + 1);
    } else {
      assert es[..i] == es;
    }
  }

  /** The formats raise iff some format lacks one of its children. */
  lemma {:induction false} FormatsRaiseIff(es: seq<FormatEntry>)
    ensures FormatsSpec(es).Raised? <==> exists i :: 0 <= i < |es| && !Complete(es[i])
  {
    if es != [] {
      var n := |es| - 1;
      var init := es[..n];
      FormatsRaiseIff(init);
      if FormatsSpec(init).Raised? {
        var i :| 0 <= i < n && !Complete(init[i]);
        assert es[i] == init[i];
      } else if Complete(es[n]) {
        forall i | 0 <= i < |es|
          ensures Complete(es[i])
        {
          if i < n {
            assert es[i] == init[i];
          }
        }
      }
    }
  }

  /** The keys of the formats are exactly the prefixes. */
  lemma {:induction false} FormatsKeys(es: seq<FormatEntry>, k: string)
    requires FormatsSpec(es).Returned?
    ensures HasKey(FormatsSpec(es).value, k) <==> exists i :: 0 <= i < |es| && es[i].prefix == Some(k)
  {
    if es != [] {
      var n := |es| - 1;
      var init := es[..n];
      FormatsStepKeys(es, k);
      FormatsKeys(init, k);
      if HasKey(FormatsSpec(init).value, k) {
        var i :| 0 <= i < n && init[i].prefix == Some(k);
        assert es[i] == init[i];
      } else if es[n].prefix != Some(k) {
        assert forall j :: 0 <= j < |init| ==> init[j].prefix != Some(k);
        forall i | 0 <= i < |es|
          ensures es[i].prefix != Some(k)
        {
          if i < n {
            assert es[i] == init[i];
          } else {
            assert i == n;
          }
        }
      }
    }
  }

  /** One step of the loop: the keys after a format are its prefix and the keys before. */
  lemma FormatsStepKeys(es: seq<FormatEntry>, k: string)
    requires es != [] && FormatsSpec(es).Returned?
    ensures FormatsSpec(es[..|es| - 1]).Returned?
    ensures HasKey(FormatsSpec(es).value, k) <==>
              es[|es| - 1].prefix == Some(k) || HasKey(FormatsSpec(es[..|es| - 1]).value, k)
  {
    var d, e := FormatsSpec(es[..|es| - 1]).value, es[|es| - 1];
    assert Complete(e) && FormatsSpec(es).value == Put(d, e.prefix.value, e.namespace.value);
  }

  /** Each prefix holds the namespace of the last format that names it. */
  lemma {:induction false} FormatsLastWins(es: seq<FormatEntry>, i: nat)
    requires FormatsSpec(es).Returned?
    requires i < |es| && es[i].prefix.Some?
    requires forall j :: i < j < |es| ==> es[j].prefix != es[i].prefix
    ensures HasKey(FormatsSpec(es).value, es[i].prefix.value)
    ensures es[i].namespace == Some(Get(FormatsSpec(es).value, es[i].prefix.value))
  {
    var n := |es| - 1;
    var init := es[..n];
    assert FormatsSpec(init).Returned?;
    var d, e := FormatsSpec(init).value, es[n];
    assert Complete(e) && FormatsSpec(es) == Returned(Put(d, e.prefix.value, e.namespace.value));
    if i < n {
      assert forall j :: i < j < n ==> init[j] == es[j];
      FormatsLastWins(init, i);
      assert init[i] == es[i];
      PutOther(d, e.prefix.value, e.namespace.value, es[i].prefix.value);
    }
  }

  /** The prefix the `dc_prefix` loop ends with: the last one whose namespace is Dublin Core's, else `""`. */
  function DcPrefixSpec(formats: Dict<string>): string
  {
    if formats == [] then ""
    else
      var n := |formats| - 1;
      if formats[n].1 == OaiDcNamespace then formats[n].0 else DcPrefixSpec(formats[..n])
  }

  /** The loop over the `ListMetadataFormats` answer, prefix to namespace. */
  method DcPrefix(formats: Dict<string>) returns (dcPrefix: string)
    ensures dcPrefix == DcPrefixSpec(formats)
  {
    dcPrefix := "";
    var i := 0;
    while i < |formats|
      invariant 0 <= i <= |formats|
      invariant dcPrefix == DcPrefixSpec(formats[..i])
    {
      assert formats[..i + 1][..i] == formats[..i];
      if formats[i].1 == OaiDcNamespace {
        dcPrefix := formats[i].0;
      }
      i := i + 1;
    }
    assert formats[..i] == formats;
  }

  /**
   * Without a Dublin Core namespace the prefix is `""`; otherwise it is
   * the prefix of the last entry with that namespace.
   */
  lemma {:induction false} DcPrefixMeaning(formats: Dict<string>)
    ensures (forall i :: 0 <= i < |formats| ==> formats[i].1 != OaiDcNamespace) ==> DcPrefixSpec(formats) == ""
    ensures (exists i :: 0 <= i < |formats| && formats[i].1 == OaiDcNamespace) ==>
              exists j :: 0 <= j < |formats| && formats[j].1 == OaiDcNamespace && DcPrefixSpec(formats) == formats[j].0 &&
                forall k :: j < k < |formats| ==> formats[k].1 != OaiDcNamespace
  {
    if formats != [] {
      var n := |formats| - 1;
      DcPrefixMeaning(formats[..n]);
      assert forall i :: 0 <= i < n ==> formats[..n][i] == formats[i];
      if formats[n].1 != OaiDcNamespace && exists i :: 0 <= i < |formats| && formats[i].1 == OaiDcNamespace {
        var i :| 0 <= i < |formats| && formats[i].1 == OaiDcNamespace;
        assert i < n && formats[..n][i].1 == OaiDcNamespace;
      }
    }
  }

  // ---------------------------------------------------------------- oai_check_record_url

  /**
   * What the network and the identifier library answer, as functions:
   * `netloc` is the host part of a base URL, `scheme` the first scheme
   * `detect_identifier_schemes` finds (`None` when it finds none or fails),
   * `normalize` is `normalize_pid`, `errors` the number of OAI `error`
   * elements in the answer to a GET of a URL (`None` when the answer does
   * not parse as XML), and `record` the elements below `metadata` in the
   * answer to a GET of a URL (`None` when it does not parse, `Some(None)`
   * when it has no `metadata` element); the requests of these answers sit
   * inside a `try` in `get_metadata`, so their exceptions are the `None`
   * answers. `formats` is the ListMetadataFormats request to an endpoint:
   * its exception, `None` when the answer does not parse, or the
   * `metadataFormat` elements it holds.
   */
  datatype Oracles = Oracles(
    netloc: string -> string,
    scheme: string -> Option<string>,
    normalize: (string, string) -> string,
    errors: string -> Option<nat>,
    record: string -> Option<Option<seq<XmlElement>>>,
    formats: string -> Outcome<Option<seq<FormatEntry>>>)

  /** The identifier's scheme, `"internal"` when none is detected. */
  function PidType(o: Oracles, pid: string): string
  {
    match o.scheme(pid)
    case None => "internal"
    case Some(t) => t
  }

  /** The identifier as the repository is asked for it: normalised unless internal. */
  function OaiPid(o: Oracles, pid: string): string
  {
    var t := PidType(o, pid);
    if t != "internal" then o.normalize(pid, t) else pid
  }

  /** The GetRecord URL for one identifier. */
  function GetRecordUrl(oaiBase: string, prefix: string, testId: string): string
  {
    oaiBase + "?verb=GetRecord" + "&metadataPrefix=" + prefix + "&identifier=" + testId
  }

  /** The five identifiers tried, in order. */
  function CandidateIds(o: Oracles, oaiBase: string, pid: string): (ids: seq<string>)
    ensures |ids| == 5
  {
    var root := o.netloc(oaiBase);
    var p := OaiPid(o, pid);
    var suffix := LastField(p, '.');
    ["oai:" + root + ":" + p,
     p,
     PidType(o, pid) + ":" + p,
     "oai:" + root + ":" + suffix,
     "oai:" + root + ":b2rec/" + suffix]
  }

  function Candidates(o: Oracles, oaiBase: string, prefix: string, pid: string): (urls: seq<string>)
    ensures |urls| == 5
    ensures forall i :: 0 <= i < 5 ==> urls[i] == GetRecordUrl(oaiBase, prefix, CandidateIds(o, oaiBase, pid)[i])
  {
    var ids := CandidateIds(o, oaiBase, pid);
    seq(5, i requires 0 <= i < 5 => GetRecordUrl(oaiBase, prefix, ids[i]))
  }

  const ParseError := "ParseError: syntax error"

  /**
   * The URL that survives the attempts: each attempt whose answer has no
   * `error` element replaces it; an answer that does not parse raises.
   */
  function LastAccepted(urls: seq<string>, errors: string -> Option<nat>): Outcome<string>
  {
    if urls == [] then Returned("")
    else
      var n := |urls| - 1;
      match LastAccepted(urls[..n], errors)
      case Raised(e) => Raised(e)
      case Returned(u) =>
        match errors(urls[n])
        case None => Raised(ParseError)
        case Some(c) => Returned(if c == 0 then urls[n] else u)
  }

  /** The search raises exactly when some answer does not parse. */
  lemma {:induction false} LastAcceptedRaises(urls: seq<string>, errors: string -> Option<nat>)
    ensures LastAccepted(urls, errors).Raised? <==> exists i :: 0 <= i < |urls| && errors(urls[i]).None?
  {
    if urls != [] {
      var n := |urls| - 1;
      LastAcceptedRaises(urls[..n], errors);
      assert forall i :: 0 <= i < n ==> urls[..n][i] == urls[i];
    }
  }

  /**
   * When every answer parses, the result is the last URL whose answer has
   * no `error` element, and `""` when there is none.
   */
  lemma {:induction false} LastAcceptedMeaning(urls: seq<string>, errors: string -> Option<nat>)
    requires forall i :: 0 <= i < |urls| ==> errors(urls[i]).Some?
    ensures LastAccepted(urls, errors).Returned?
    ensures (forall i :: 0 <= i < |urls| ==> errors(urls[i]) != Some(0)) ==> LastAccepted(urls, errors) == Returned("")
    ensures (exists i :: 0 <= i < |urls| && errors(urls[i]) == Some(0)) ==>
              exists j :: 0 <= j < |urls| && errors(urls[j]) == Some(0) && LastAccepted(urls, errors) == Returned(urls[j]) &&
                forall k :: j < k < |urls| ==> errors(urls[k]) != Some(0)
  {
    if urls != [] {
      var n := |urls| - 1;
      var init := urls[..n];
      assert forall i :: 0 <= i < n ==> init[i] == urls[i];
      LastAcceptedMeaning(init, errors);
      if errors(urls[n]) == Some(0) {
        assert LastAccepted(urls, errors) == Returned(urls[n]);
      } else {
        assert LastAccepted(urls, errors) == LastAccepted(init, errors);
        if exists i :: 0 <= i < |urls| && errors(urls[i]) == Some(0) {
          var i :| 0 <= i < |urls| && errors(urls[i]) == Some(0);
          assert i < n && errors(init[i]) == Some(0);
          var j :| 0 <= j < n && errors(init[j]) == Some(0) && LastAccepted(init, errors) == Returned(init[j]) &&
                   forall k :: j < k < n ==> errors(init[k]) != Some(0);
          assert urls[j] == init[j];
        }
      }
    }
  }

  /** One attempt: ask for `url`, count its `error` elements, keep `url` when there are none. */
  method Attempt(url: string, urlFinal: string, errors: string -> Option<nat>) returns (r: Outcome<string>)
    ensures errors(url).None? ==> r == Raised(ParseError)
    ensures errors(url).Some? ==> r == Returned(if errors(url).value == 0 then url else urlFinal)
  {
    match errors(url) {
      case None => return Raised(ParseError);
      case Some(c) =>
        if c == 0 {
          r := Returned(url);
        } else {
          r := Returned(urlFinal);
        }
    }
  }

  /** `oai_check_record_url(oai_base, metadata_prefix, pid)`: five attempts in a row. */
  method CheckRecordUrl(o: Oracles, oaiBase: string, prefix: string, pid: string) returns (r: Outcome<string>)
    ensures r == LastAccepted(Candidates(o, oaiBase, prefix, pid), o.errors)
  {
    var urls := Candidates(o, oaiBase, prefix, pid);
    var urlFinal := "";
    var k := 0;
    while k < 5
      invariant 0 <= k <= 5
      invariant LastAccepted(urls[..k], o.errors) == Returned(urlFinal)
    {
      assert urls[..k + 1][..k] == urls[..k];
      var step := Attempt(urls[k], urlFinal, o.errors);
      if step.Raised? {
        LastAcceptedFailurePersists(urls, o.errors, k + 1);
        return step;
      }
      urlFinal := step.value;
      k := k + 1;
    }
    assert urls[..5] == urls;
    r := Returned(urlFinal);
  }

  lemma {:induction false} LastAcceptedFailurePersists(urls: seq<string>, errors: string -> Option<nat>, i: nat)
    requires i <= |urls| && LastAccepted(urls[..i], errors).Raised?
    ensures LastAccepted(urls, errors) == LastAccepted(urls[..i], errors)
    decreases |urls| - i
  {
    if i < |urls| {
      assert urls[..i + 1][..i] == urls[..i];
      LastAcceptedFailurePersists(urls, errors, i + 1);
    } else {
      assert urls[..i] == urls;
    }
  }

  // ---------------------------------------------------------------- get_metadata

  const Unbound := "UnboundLocalError: local variable 'data' referenced before assignment"
  const NoFindAll := "AttributeError: 'NoneType' object has no attribute 'findall'"

  /**
   * The elements `get_metadata` walks: those of the record's `metadata`,
   * none when finding the URL or parsing its answer fails (the exception is
   * caught), none when no candidate was accepted (`requests.get("")` raises
   * `MissingSchema` inside the same `try`), and an uncaught error when the
   * answer has no `metadata`.
   */
  function RecordElements(o: Oracles, url: Outcome<string>): Outcome<seq<XmlElement>>
  {
    match url
    case Raised(_) => Returned([])
    case Returned(u) =>
      if u == "" then Returned([])
      else match o.record(u)
      case None => Returned([])
      case Some(None) => Raised(NoFindAll)
      case Some(Some(es)) => Returned(es)
  }

  /**
   * `get_metadata`: only with a non-empty endpoint and no metadata yet
   * does it bind `data`; otherwise the final `return data` raises.
   */
  function GetMetadataSpec(o: Oracles, endpoint: Option<string>, metadataIsNone: bool, itemId: string): Outcome<seq<Row>>
  {
    if endpoint.Some? && endpoint.value != "" && metadataIsNone then
      match MetadataFormatsSpec(o.formats(endpoint.value))
      case Raised(e) => Raised(e)
      case Returned(formats) =>
        var url := LastAccepted(Candidates(o, endpoint.value, DcPrefixSpec(formats), itemId), o.errors);
        match RecordElements(o, url)
        case Raised(e) => Raised(e)
        case Returned(es) => Returned(RowsOf(es))
    else Raised(Unbound)
  }

  /** One row per element, in order. */
  function RowsOf(es: seq<XmlElement>): (rows: seq<Row>)
    ensures |rows| == |es|
    ensures forall i :: 0 <= i < |es| ==> rows[i] == TagRow(es[i].tag, es[i].text)
  {
    seq(|es|, i requires 0 <= i < |es| => TagRow(es[i].tag, es[i].text))
  }

  /** `get_metadata`. */
  method GetMetadata(o: Oracles, endpoint: Option<string>, metadataIsNone: bool, itemId: string) returns (r: Outcome<seq<Row>>)
    ensures r == GetMetadataSpec(o, endpoint, metadataIsNone, itemId)
  {
    if !(endpoint.Some? && endpoint.value != "" && metadataIsNone) {
      return Raised(Unbound);
    }
    var listed := MetadataFormats(o.formats(endpoint.value));
    if listed.Raised? {
      return Raised(listed.error);
    }
    var formats := listed.value;
    var dcPrefix := DcPrefix(formats);
    var url := CheckRecordUrl(o, endpoint.value, dcPrefix, itemId);
    var elements := RecordElements(o, url);
    if elements.Raised? {
      return Raised(elements.error);
    }
    var es := elements.value;
    var data := TagRows(es);
    assert data == RowsOf(es);
    r := Returned(data);
  }

  /**
   * Without an endpoint, with an empty one or with metadata already set,
   * `get_metadata` fails; otherwise every row it returns splits its tag
   * exactly and has no qualifier, and a record URL that cannot be found
   * gives no rows at all.
   */
  lemma GetMetadataCases(o: Oracles, endpoint: Option<string>, metadataIsNone: bool, itemId: string)
    ensures (endpoint.None? || endpoint == Some("") || !metadataIsNone) ==>
              GetMetadataSpec(o, endpoint, metadataIsNone, itemId) == Raised(Unbound)
    ensures GetMetadataSpec(o, endpoint, metadataIsNone, itemId).Returned? ==>
              forall i :: 0 <= i < |GetMetadataSpec(o, endpoint, metadataIsNone, itemId).value| ==>
                var row := GetMetadataSpec(o, endpoint, metadataIsNone, itemId).value[i];
                row.qualifier == None && '}' !in row.element
    ensures endpoint.Some? && endpoint.value != "" && metadataIsNone && o.formats(endpoint.value).Raised? ==>
              GetMetadataSpec(o, endpoint, metadataIsNone, itemId) == Raised(o.formats(endpoint.value).error)
    ensures endpoint.Some? && endpoint.value != "" && metadataIsNone &&
            o.formats(endpoint.value).Returned? && o.formats(endpoint.value).value.Some? &&
            (exists i :: 0 <= i < |o.formats(endpoint.value).value.value| && !Complete(o.formats(endpoint.value).value.value[i])) ==>
              GetMetadataSpec(o, endpoint, metadataIsNone, itemId) == Raised(NoText)
    ensures endpoint.Some? && endpoint.value != "" && metadataIsNone && MetadataFormatsSpec(o.formats(endpoint.value)).Returned? ==>
              var formats := MetadataFormatsSpec(o.formats(endpoint.value)).value;
              var url := LastAccepted(Candidates(o, endpoint.value, DcPrefixSpec(formats), itemId), o.errors);
              (url.Raised? || url == Returned("")) ==> GetMetadataSpec(o, endpoint, metadataIsNone, itemId) == Returned([])
  {
    if endpoint.Some? && endpoint.value != "" && o.formats(endpoint.value).Returned? && o.formats(endpoint.value).value.Some? {
      FormatsRaiseIff(o.formats(endpoint.value).value.value);
    }
  }
}
