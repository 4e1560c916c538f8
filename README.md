# FAIR EVA core, modelled in Dafny

FAIR EVA scores a digital object against the RDA FAIR data maturity
indicators. Every plugin shares one pipeline: a table of
`(schema, element, text_value, qualifier)` metadata rows is harmonized onto
the plugin's configured terms by the `ConfigTerms` wrapper, each raw value is
homogenized by the plugin's `gather` getters, optionally validated against
controlled vocabularies, and an indicator turns the resulting keyword
arguments into 0–100 points. This project models that pipeline and proves
what it does:

- `Harmonizer` (harmonizer.dfy) is the `ConfigTerms` wrapper of
  api/evaluator.py: term resolution, row selection, homogenization,
  validation or merging into `kwargs`, and the wrapper's own score.
- `Gatherer` and `Validator` are `MetadataValuesBase.gather` and `validate`,
  with the getters and validators of each plugin as strategies.
- `Scorers` holds the indicators of `EvaluatorBase`:
  - `eval_persistency` and `eval_uniqueness`;
  - `eval_validated_basic`;
  - `rda_i1_01m`, with its `cvs` list kept in a class;
  - the `rda_i3_*` decisions;
  - `rda_r1_01m`, `rda_r1_1_02m` and `check_standard_license`;
  - `rda_f2_01m`.
- `DigitalCsic` and `OaiPmh` are the two plugins' `MetadataValues` and the
  parts of their `Plugin` classes that turn records into rows. These are the
  REST key split and the identifier classification for DIGITAL.CSIC, and for
  OAI-PMH the GetRecord candidate search (section 4.1 of the OAI-PMH 2.0
  protocol, with `error` elements per section 3.6) and the tag split.
- `Vocabulary` holds the connectors of api/vocabulary.py:
  - the remote-then-local `collect`, as a class whose state is what
    `__init__` copies out of the configuration;
  - the redirect loop of RoR, COAR and Library of Congress (section 15.4 of
    RFC 9110);
  - the SPARQL and HEAD verdicts;
  - the `Vocabulary` facade.
- `Ai4osText` and `Ai4os` are the AI4OS plugin's string helpers, SPDX
  indexes, YAML flattening and PID heuristic. They also hold the scoring of
  R1.1-02M, R1.1-03M, A1-02M, A1-05D and I3-03M. The same code is in
  plugins/ai4os/plugin.py and fair_eva/plugins.old/ai4os/plugin.py; it is
  modelled once and cited in both.
- `Common`, `Values`, `PyStr` and `PyDict` are shared support:
  - `Outcome` for a value or a raised exception;
  - `Value` for raw metadata values;
  - the Python string operations the source uses;
  - Python dicts as ordered association lists, since `kwargs`, the
    validation dicts and `cvs` are all read in insertion order.

Every HTTP request, SQL query, XML/JSON/RDF parse and every `api.utils`
helper whose body is not part of this model is an oracle parameter:
`check_metadata_terms_with_values`, `orcid_basic_info`, `validate_any_pid`,
`is_persistent_id`, `is_unique_id`, `is_spdx_license`, `check_orcid`,
`get_doi_str`, `get_handle_str`.
Points are real numbers. Python's `round` is exact round-half-even
(`Scorers.Round`).

## Model

| member | source | states |
|---|---|---|
| `Harmonizer.EntryRows` | api/evaluator.py:86-118 | a list value contributes one row per item, `(e, q)` for a pair and `(e, None)` for a scalar item; a scalar value contributes the single row `(value, None)` |
| `Harmonizer.ResolveFields` | api/evaluator.py:84-118 | the concatenation loop builds exactly the rows of the listed terms present in `terms_map`, in `term_list` order |
| `Harmonizer.ResolvedRowsEmpty` | api/evaluator.py:84-121 | no row is resolved iff every listed term is absent from `terms_map` or maps to an empty list |
| `Harmonizer.SelectMembership` | api/evaluator.py:164-172 | every selected value is the text of a row matching the field, and every matching row's text is selected |
| `Harmonizer.SelectQualifierRules` | api/evaluator.py:164-172 | a `[e, None]` field selects nothing, since pandas `== None` is never true; a `[e, q]` field selects no more than the bare `e` |
| `Harmonizer.Iterated` | api/evaluator.py:154 | the loop visits a list value's items, and a string value one element per character |
| `Harmonizer.KeySteps` | api/evaluator.py:149-157 | one pass per visited item of a key's value, in order |
| `Harmonizer.ScalarIteratedByCharacter` | api/evaluator.py:154 | a string value of length n gives n passes, pass i selecting the one-character element `s[i]` |
| `Harmonizer.Homogenize` | api/evaluator.py:174-210 | a field with no selected row yields `[]` without calling `gather`; a successful homogenization of selected rows is never empty, because an empty result raises |
| `Harmonizer.HomogenizeField` | api/evaluator.py:155-210 | the statement sequence computes exactly `Homogenize` |
| `Harmonizer.ProcessField` | api/evaluator.py:155-293 | one pass (homogenize, then validate or merge, then store) equals the pass function `ApplyStep` |
| `Harmonizer.ProcessKey` | api/evaluator.py:154-293 | the inner loop over one key's items equals running all of that key's passes, stopping at the first exception |
| `Harmonizer.RunKeys` | api/evaluator.py:149-293 | the outer loop over `terms_map` runs the passes of exactly the keys in `term_list`, in `terms_map` order |
| `Harmonizer.RaisedPrefixStays` | api/evaluator.py:199-204 | once a pass raises, the wrapper's result is that exception |
| `Harmonizer.RunStepsAppend` | api/evaluator.py:149-293 | running two lists of passes in turn is running their concatenation |
| `Harmonizer.CountTruthy` | api/evaluator.py:302 | the number of truthy keyword arguments is at most their number |
| `Harmonizer.CountTruthyAll` | api/evaluator.py:302-303 | the truthy count equals the argument count iff every argument is truthy |
| `Harmonizer.PointsBounds` | api/evaluator.py:300-306 | `points` lies in [0, 100], is 100 iff every argument (caller's included) is truthy, and is otherwise `100*truthy/total` |
| `Harmonizer.Wrapper` | api/evaluator.py:71-308 | the wrapper returns what `WrapperSpec` prescribes: no call, a fault, or a call with `kwargs` and `points` |
| `Harmonizer.WrapperDeclines` | api/evaluator.py:120-140 | the wrapper returns "not defined" iff no row is resolved, and "no access" iff rows are resolved but none survive the metadata check |
| `Harmonizer.EmptyFieldStoresEmpty` | api/evaluator.py:174-293 | a field with no rows stores `[]`, or `{"values": [], "validation": {}}` in validate mode, when nothing is stored yet |
| `Harmonizer.ValidateUsesLeakedTerm` | api/evaluator.py:220-226 | validation is called with the last item of `term_list`, left over from the first loop, not with the key being filled |
| `Harmonizer.PayloadStep` | api/evaluator.py:256-272 | once the leaked `term` holds a payload, a validate-mode pass stores that payload under its key |
| `Harmonizer.EarlierPayloadWins` | api/evaluator.py:256-272 | across any passes, `update(previous)` keeps the earlier payload: every pass stores it and the entry under `term` never changes |
| `Harmonizer.PlainStep` | api/evaluator.py:277-293 | a plain pass stores its own values followed by what the key held before |
| `Harmonizer.PlainModeStacksValues` | api/evaluator.py:277-293 | without validation a key ends up with the last field's values, then each earlier field's, latest first |
| `Harmonizer.ValidateModeKeepsPayloads` | api/evaluator.py:247-272 | in validate mode every pass keeps all stored arguments payload dicts |
| `Harmonizer.ValidateModeScoresFull` | api/evaluator.py:247-308 | in validate mode, with no caller arguments, an indicator call always gets 100 points |
| `Harmonizer.CallerArgumentsSurvive` | api/evaluator.py:300-308 | a caller argument that no pass fills reaches the indicator unchanged and is counted in the score |
| `Harmonizer.EmptyScalarGivesNoArguments` | api/evaluator.py:113-118 | a `""` string value resolves a row but is walked over zero characters, so the indicator is called with no argument and 100 points |
| `Gatherer.Collected` | api/evaluator.py:333-379 | a failure is reported at the index of an input value |
| `Gatherer.FailurePersists` | api/evaluator.py:334-380 | once a getter raises, the loop's outcome is fixed |
| `Gatherer.Gather` | api/evaluator.py:328-396 | the appending loop, then the fallback loop on an exception, computes `GatherSpec` |
| `Gatherer.FallbackLoop` | api/evaluator.py:380-389 | the `except` loop computes the fallback value |
| `Gatherer.Results` | api/evaluator.py:335-375 | a getter that never raises gives one result per raw value |
| `Gatherer.GatherKeepsEveryResult` | api/evaluator.py:364-375 | for Resource Discovery, accessibility, Metadata and Data connection, every getter result is kept, in input order |
| `Gatherer.GatherDropsNoneResults` | api/evaluator.py:336-363 | for the identifier, coverage, person, keyword and format elements, exactly the non-`None` results are kept, in input order |
| `Gatherer.FallbackShape` | api/evaluator.py:380-389 | the fallback is the last string input alone in a list, or the failing value when no input is a string |
| `Gatherer.GatherFailureFallback` | api/evaluator.py:380-396 | on any exception the partial results are discarded and the fallback value is returned |
| `Gatherer.UnsupportedFailsFirst` | api/evaluator.py:376-379 | an unknown element fails on its first raw value, and gives `[]` when there are none |
| `Gatherer.BaseFormatsAreOpaque` | api/evaluator.py:499-501 | with the base getters every Format value becomes the truthy exception class |
| `Validator.TryPartition` | api/evaluator.py:599-610 | the inner loop on one instance computes `Tried`: each value is collected on the settings the earlier calls left, and a call that raises adds nothing |
| `Validator.SplitValues` | api/evaluator.py:620-628 | the appending loop computes the exact split of the values by the predicate |
| `Validator.ValidateAnyVocabulary` | api/evaluator.py:587-617 | the nested loops compute `AnyVocabularySpec` over the configured ids |
| `Validator.AnyVocabularyRaisedPersists` | api/evaluator.py:597 | a connector constructor that raises ends the whole validation with that exception |
| `Validator.FilterIds` | api/evaluator.py:596-598 | the ids kept are configured ids that name a connector class |
| `Validator.AnyVocabularyShape` | api/evaluator.py:587-617 | the keys are exactly the configured ids with a connector class, in order, each holding the partition its own fresh instance gives the values |
| `Validator.TriedPartitionMembership` | api/evaluator.py:601-610 | per call: a value is valid iff the call on some occurrence of it, made on the settings the calls before it left, answered truthily, and non-valid iff some such call answered falsily; each call adds at most one entry |
| `Validator.VerdictPrefix` | api/evaluator.py:601-610 | the calls on a prefix of the values get the same answers as in the whole loop |
| `Validator.StatelessMembership` | api/evaluator.py:601-610 | for a connector whose `collect` leaves its settings alone, a listed value is valid iff its own answer is truthy and non-valid iff falsy |
| `Validator.StatelessSettings` | api/evaluator.py:601-610 | such a connector still holds its initial settings after the loop |
| `Validator.RepeatedValueInBothLists` | api/evaluator.py:599-610 | with a connector that rewrites `remote_path` on its first call, a value listed twice lands in both `valid` and `non_valid` |
| `Validator.ValidateDataConnection` | api/evaluator.py:620-628 | the result has the single key "Data Connection", holding the split by the PID test |
| `Validator.ValidatePersons` | api/evaluator.py:462-470 | the loop gives every configured vocabulary the ORCID split of the values |
| `Validator.PersonsSpec` | api/evaluator.py:463 | the keys are exactly the configured vocabulary ids, in order |
| `Validator.Validate` | api/evaluator.py:399-488 | the configuration check, then dispatch on the element name, computes `ValidateSpec` |
| `Validator.PersonsSpecParts` | api/evaluator.py:464-470 | each configured id holds the same ORCID split of the values |
| `Validator.ValidateNeedsVocabularies` | api/evaluator.py:409-415 | without `controlled_vocabularies`, validation raises |
| `Validator.PersonIdentifierPartitions` | api/evaluator.py:462-470 | for Person Identifier, each configured id's lists partition the values exactly (as a multiset) by the ORCID test |
| `Validator.DataConnectionPartitions` | api/evaluator.py:620-628 | for Data connection, the single key's lists partition the values exactly by the PID test |
| `Scorers.Round` | api/evaluator.py:751 | Python's `round`: within 0.5 of its argument, ties to even |
| `Scorers.RoundWithin` | api/evaluator.py:751 | rounding a value in an integer interval stays in it |
| `Scorers.PerIdBounds` | api/evaluator.py:751-760 | each identifier's points lie in [0, 100], are 100 for a single identifier, and are 0 from 200 identifiers on |
| `Scorers.VerdictsAt` | api/evaluator.py:752-767 | message i is about identifier i and carries `round(100/n)` when it passes, else 0 |
| `Scorers.EvalIds` | api/evaluator.py:748-797 | the accumulating loop computes `EvalIdsSpec` |
| `Scorers.EvalIdsScores` | api/evaluator.py:748-797 | the check divides by zero iff there are no ids; otherwise points are 100 iff some id passes and 0 iff none does, with one message per id |
| `Scorers.AnyValidExists` | api/evaluator.py:836-841 | an element uses a vocabulary iff some vocabulary has a non-empty `valid` list |
| `Scorers.UsingElementsMembers` | api/evaluator.py:811-841 | the elements listed as using a vocabulary are exactly those with a payload that has some valid value |
| `Scorers.WithoutPoints` | api/evaluator.py:806-808 | deleting `"points"` removes that key and keeps every other |
| `Scorers.EvalValidatedBasic` | api/evaluator.py:799-870 | deletes `"points"` from its argument, lists the elements using a vocabulary, and scores their share of all remaining elements |
| `Scorers.InUse` | api/evaluator.py:836-840 | the inner loop decides whether some vocabulary has a valid value |
| `Scorers.BasicScoreBounds` | api/evaluator.py:852-868 | the score lies in [0, 100], is 100 iff every element left uses a vocabulary, and is 0 with no elements; an element without `.get` stays in the denominator |
| `Scorers.ShareFacts` | api/evaluator.py:865-868 | a share of u out of n lies in [0, 100], is 100 iff u == n, and is 0 when n == 0 |
| `Scorers.UsingElementsIff` | api/evaluator.py:812-841 | an element counts iff it is a payload with some non-empty `valid` list |
| `Scorers.AddVocabulariesGrows` | api/evaluator.py:1659-1664 | `cvs` only grows, keeps its order, stays free of duplicates and gains exactly the ids with a valid value |
| `Scorers.Evaluator.constructor` | api/evaluator.py:664 | a new evaluator starts with an empty `cvs` |
| `Scorers.Evaluator.RdaI1_01m` | api/evaluator.py:1630-1666 | `cvs` becomes its old value plus every vocabulary in use, and the result is the basic score, or an exception at the first element that is not a payload dict |
| `Scorers.CvsAfterGrows` | api/evaluator.py:1650-1664 | over all elements `cvs` keeps what it had, in order, stays duplicate-free, and gains only vocabularies with a valid value |
| `Scorers.CvsAfterRecordsAll` | api/evaluator.py:1650-1664 | over payloads only the indicator never fails and records every vocabulary in use |
| `Scorers.QualifiedFoldMeaning` | api/evaluator.py:1878-1887 | the loop raises iff some element is not a payload dict, and otherwise finds a reference iff some element uses a vocabulary |
| `Scorers.QualifiedReferencesAgreesWithBasic` | api/evaluator.py:1852-1897 | `rda_i3_01m`/`02d`/`03m` raise iff an element other than `points` has no `.get`; otherwise they give 100 iff some element uses a vocabulary, else 0 |
| `Scorers.ReusabilityOfWrappedCall` | api/evaluator.py:2053-2084 | when the wrapper calls `rda_r1_01m` with the caller's arguments plus its own `points`, the share lies in [0, 100] and is 100 iff every argument is truthy |
| `Scorers.WrappedCallZero` | api/evaluator.py:2053-2084 | that wrapped call scores 0 iff there are arguments and none is truthy |
| `Scorers.WrappedCallAbovePoints` | api/evaluator.py:2053-2084 | that wrapped call never scores below the wrapper's own points, and scores above them iff some but not all arguments are truthy |
| `Scorers.WrappedShare` | api/evaluator.py:2072-2082 | the wrapped call's share is `k` plus one (unless the points are 0) out of `n + 1`, for `k` truthy arguments out of `n` |
| `Scorers.WrappedShareArith` | api/evaluator.py:2072-2082 | the bounds, the 100 and 0 cases and the comparison with the points, for `k` truthy arguments out of `n` |
| `Scorers.ReusabilityCountsPoints` | api/evaluator.py:2072-2082 | the `points` argument the wrapper adds counts as one more element, truthy unless it is 0 |
| `Scorers.StandardLicence` | api/evaluator.py:2122-2169 | the loop over `kwargs["License"]` computes `StandardLicenceSpec` |
| `Scorers.StandardLicenceAllOrNothing` | api/evaluator.py:2145-2169 | the score is 100 iff some licence passes the SPDX check and 0 otherwise, and the standard list holds exactly the passing licences |
| `Scorers.LastStartingWithMeaning` | api/evaluator.py:2474-2483 | the URL found is the last one starting with the argument, and none is found iff no URL starts with it |
| `Scorers.FindZeroIsPrefix` | api/evaluator.py:2477 | `url.find(x) == 0` is a prefix test |
| `Scorers.CheckStandardLicense` | api/evaluator.py:2464-2484 | the nested loops compute `StandardLicenseSpec` |
| `Scorers.ScanUrls` | api/evaluator.py:2475-2483 | scanning one id's URLs keeps the last URL that starts with the argument |
| `Scorers.StandardLicenseCases` | api/evaluator.py:2464-2484 | a name is found iff the argument is a licence id or prefixes some URL; a URL found starts with the argument and no later URL does |
| `Scorers.EntryCount` | api/evaluator.py:1031 | `len(terms_map[k])` counts the entries the harmonizer would visit |
| `Scorers.CountFound` | api/evaluator.py:1032-1043 | the entries found are at most the entries |
| `Scorers.TallyBounds` | api/evaluator.py:1028-1043 | the found count never exceeds the entry count, which is positive when keys are configured |
| `Scorers.RdaF2` | api/evaluator.py:1001-1055 | the corrected indicator: the nested loops compute `RdaF2Spec` |
| `Scorers.TallyKeys` | api/evaluator.py:1028-1049 | the loop over the configured keys computes the corrected tally, with a positive `term_num` once a key was counted |
| `Scorers.CountKey` | api/evaluator.py:1030-1043 | one key's body adds its entry and found counts |
| `Scorers.CountEntries` | api/evaluator.py:1030-1043 | the loop over a key's entries counts those found |
| `Scorers.RowFound` | api/evaluator.py:1034-1041 | the scan over the rows decides whether an entry occurs |
| `Scorers.RdaF2Bounds` | api/evaluator.py:1049 | the score, when there is one, lies in [0, 100], as written and corrected |
| `Scorers.ScalarEntriesNeverCountAsWritten` | api/evaluator.py:1035-1041 | as written, a string entry is never found, whatever the metadata holds |
| `Scorers.RdaF2ScalarCounterexample` | api/evaluator.py:1035-1041 | one string entry `title` and a row `title` without qualifier score 0 as written and 100 as intended |
| `Scorers.CountFoundMeaning` | api/evaluator.py:1032-1043 | as intended, all entries count iff each has a matching row, and none iff none has |
| `DigitalCsic.InOp` | plugins/digital_csic/plugin.py:63 | `needle in v` is a substring test on strings and raises on `None` |
| `DigitalCsic.BetweenBracketsCases` | plugins/digital_csic/plugin.py:84-94 | the input is unchanged unless it has both `[` and `]`; otherwise the text between the first `[` and the first `]`, empty when `]` comes first |
| `DigitalCsic.TemporalNeedsBoth` | plugins/digital_csic/plugin.py:55-75 | a string has no coverage iff it lacks `start` or `end` |
| `DigitalCsic.TemporalParses` | plugins/digital_csic/plugin.py:55-75 | `start=A;end=B` with A free of `;` and no earlier `end=` gives the coverage from A to B |
| `DigitalCsic.SpatialCoverage` | plugins/digital_csic/plugin.py:77-82 | the value when it mentions `geonames`, else `None` |
| `DigitalCsic.License` | plugins/digital_csic/plugin.py:111-128 | a string becomes `[s]`, a list is kept, anything else gives `None` |
| `DigitalCsic.GettersRouting` | plugins/digital_csic/plugin.py:26-110 | identifiers and keywords pass through; person identifiers, resource discovery and metadata connection strip brackets; formats keep the base getter |
| `DigitalCsic.ValidateLicense` | plugins/digital_csic/plugin.py:130-158 | the nested loops compute `LicenseValidationSpec` |
| `DigitalCsic.LicenseValidationShape` | plugins/digital_csic/plugin.py:130-158 | the keys are exactly the configured ids; `spdx` holds the split of the licences by the SPDX predicate, every other id two empty lists |
| `DigitalCsic.PrefixToUri` | plugins/digital_csic/plugin.py:728-739 | the configured URI of a known prefix, and the prefix itself otherwise or when the configuration cannot be read |
| `DigitalCsic.RestRows` | plugins/digital_csic/plugin.py:339-347 | the loop building `md` computes `RestRowsSpec` |
| `DigitalCsic.RestKeySplit` | plugins/digital_csic/plugin.py:339-347 | `p.e` gives element e and qualifier `""`; `p.e.q…` gives e and q, later segments dropped; a key without a dot raises an IndexError, which the outer `try` of `get_metadata_api` (plugin.py:371-377) turns into empty metadata |
| `DigitalCsic.RestRowsOnePerEntry` | plugins/digital_csic/plugin.py:339-347 | the rows fail iff some key has no dot (the outer `try` at plugin.py:371-377 then gives empty metadata); otherwise one row per entry, in order |
| `DigitalCsic.ClassifyId` | plugins/digital_csic/plugin.py:196-204 | DOI when `get_doi_str` finds one, else handle when `get_handle_str` does, else internal; the stored id is the extracted string |
| `OaiPmh.GettersRouting` | plugins/oai-pmh/plugin.py:30-104 | coverage getters agree with DIGITAL.CSIC's; person identifiers, resource discovery and metadata connection keep the base behaviour |
| `OaiPmh.SpdxPartitionIsExact` | plugins/oai-pmh/plugin.py:106-134 | under `spdx` each licence lands in `valid` iff the SPDX predicate accepts it, as often as it occurs; other ids hold two empty lists |
| `OaiPmh.TagRow` | plugins/oai-pmh/plugin.py:353-358 | schema and element concatenate to the tag, the schema ends with its last `}`, the element has none, and there is no qualifier |
| `OaiPmh.TagRowOfQualified` | plugins/oai-pmh/plugin.py:353-358 | a `{ns}name` tag splits back into `{ns}` and `name` |
| `OaiPmh.TagRows` | plugins/oai-pmh/plugin.py:352-358 | the loop gives one row per element, in document order |
| `OaiPmh.DcPrefix` | plugins/oai-pmh/plugin.py:330-335 | the loop computes `DcPrefixSpec` |
| `OaiPmh.DcPrefixMeaning` | plugins/oai-pmh/plugin.py:330-335 | `""` without a Dublin Core namespace, otherwise the prefix of the last entry with it |
| `OaiPmh.CandidateIds` | plugins/oai-pmh/plugin.py:174-265 | exactly five identifiers are tried |
| `OaiPmh.Candidates` | plugins/oai-pmh/plugin.py:174-265 | candidate URL i is the GetRecord URL of identifier i |
| `OaiPmh.LastAcceptedRaises` | plugins/oai-pmh/plugin.py:174-265 | the search raises iff some answer does not parse |
| `OaiPmh.LastAcceptedMeaning` | plugins/oai-pmh/plugin.py:174-265 | when all answers parse, the result is the last URL whose answer has no `error` element, or `""` |
| `OaiPmh.Attempt` | plugins/oai-pmh/plugin.py:186-200 | one attempt keeps its URL iff the answer has no `error` element |
| `OaiPmh.CheckRecordUrl` | plugins/oai-pmh/plugin.py:174-265 | the five attempts in a row compute `LastAccepted` over the candidates |
| `OaiPmh.RowsOf` | plugins/oai-pmh/plugin.py:352-358 | one tag-split row per element, in order |
| `OaiPmh.MetadataFormats` | plugins/oai-pmh/plugin.py:284-298 | the loop over the `metadataFormat` elements computes `MetadataFormatsSpec`: the request's exception escapes, an unparseable answer gives no formats |
| `OaiPmh.FormatsRaiseIff` | plugins/oai-pmh/plugin.py:288-297 | building the formats raises iff some format lacks its `metadataPrefix` or `metadataNamespace` child |
| `OaiPmh.FormatsKeys` | plugins/oai-pmh/plugin.py:288-297 | the keys of the formats are exactly the prefixes |
| `OaiPmh.FormatsLastWins` | plugins/oai-pmh/plugin.py:288-297 | each prefix holds the namespace of the last format naming it |
| `OaiPmh.GetMetadata` | plugins/oai-pmh/plugin.py:323-361 | the method computes `GetMetadataSpec` |
| `OaiPmh.GetMetadataCases` | plugins/oai-pmh/plugin.py:323-361 | it fails without an endpoint, with an empty one, or with metadata already set; the unguarded ListMetadataFormats call raises the request's exception, or an AttributeError for a format missing a child; returned rows split their tags and have no qualifier; a record URL search that fails or accepts no candidate (the empty URL) gives no rows |
| `Vocabulary.RemoteFlag` | api/vocabulary.py:18-20 | `literal_eval` of the flag succeeds iff it is `True`, `False`, `None` or a decimal integer literal (optionally signed); the remote check is on iff the value is truthy: `True` or a non-zero integer |
| `Vocabulary.RemoteFlagOff` | api/vocabulary.py:18-20 | `0`, `-0`, `00`, `None` and `False` switch the remote check off |
| `Vocabulary.RemoteFlagOn` | api/vocabulary.py:18-20 | `1`, `+7` and `True` switch it on |
| `Vocabulary.RemoteFlagMalformed` | api/vocabulary.py:18-20 | `01`, `true` and the empty string raise |
| `Vocabulary.PathJoin` | api/vocabulary.py:61 | `os.path.join` ends with its second argument, which replaces the first when absolute |
| `Vocabulary.CollectFallback` | api/vocabulary.py:45-65 | the local cache is read iff remote checks are off or the remote reported an error, and then decides the result; otherwise the remote content or exception does |
| `Vocabulary.FairSharingPath` | api/vocabulary.py:196-210 | the FAIRsharing query URL extends the configured path |
| `Vocabulary.GeoNamesPath` | api/vocabulary.py:247-258 | the GeoNames query URL extends the configured path |
| `Vocabulary.WithQuery` | api/vocabulary.py:196-258 | a non-empty `remote_path` is overwritten with its query URL; an empty one leaves the configuration alone; other settings never change |
| `Vocabulary.Connector.constructor` | api/vocabulary.py:68-71 | a connector stores its kind and configuration and nothing else |
| `Vocabulary.Connector.Configure` | api/vocabulary.py:16-25 | `__init__` copies each setting with its default and clears `local_path_full`; the flag holds the truthiness of the evaluated literal, and a flag `RemoteFlag` does not accept raises after the name was set |
| `Vocabulary.Connector.CopySettings` | api/vocabulary.py:18-25 | after the flag is parsed the copied settings agree with the configuration |
| `Vocabulary.Connector.Collect` | api/vocabulary.py:45-65 | the result is `CollectSpec` of the two paths, and `local_path_full` is set exactly when the cache is read |
| `Vocabulary.Connector.ConfigureAndCollect` | api/vocabulary.py:119-124 | re-running `__init__` then `collect` gives `ConfiguredCollect` of the configuration |
| `Vocabulary.Connector.CollectMediaTypes` | api/vocabulary.py:119-124 | IANA's `collect` leaves the configuration unchanged |
| `Vocabulary.Connector.CollectStandards` | api/vocabulary.py:196-217 | FAIRsharing's `collect` writes the query into the configuration first |
| `Vocabulary.Connector.CollectPlace` | api/vocabulary.py:247-265 | GeoNames' `collect` writes the query into the configuration first |
| `Vocabulary.MediaTypeShapes` | api/vocabulary.py:101-124 | for a request that answers, a successful non-empty response gives the raw response text; an error status or an empty answer gives the parsed cache list |
| `Vocabulary.RequestErrorsPropagate` | api/vocabulary.py:45-65 | no connector catches a request exception: a raising GET of IANA or GeoNames, or a raising sign-in or POST of FAIRsharing with credentials, is what `collect` raises, and the cache is not read |
| `Vocabulary.StandardsWithoutCredentials` | api/vocabulary.py:161-188 | without a user name or password FAIRsharing gives `[]` and never reads the cache |
| `Vocabulary.StandardsQueryAccumulates` | api/vocabulary.py:196-210 | a second FAIRsharing query extends the already extended path |
| `Vocabulary.PlaceWithoutFallback` | api/vocabulary.py:224-265 | a GeoNames response with an error status gives `[]`; an empty answer, or a number whose `len` raises inside the `try`, reaches a cache reader GeoNames lacks, which raises |
| `Vocabulary.StandardsNumberRaises` | api/vocabulary.py:168-182 | a number as FAIRsharing's `data` raises in the debug message's `len`; a list answer is returned, or the cache read when it is empty |
| `Vocabulary.FollowRedirects` | api/vocabulary.py:305-309 | the `while` loop computes `RedirectSpec` |
| `Vocabulary.RedirectEndsOutsideRange` | api/vocabulary.py:305-309 | the loop only stops on a status that is not strictly between 300 and 400 |
| `Vocabulary.RedirectFuelSuffices` | api/vocabulary.py:305-309 | once the loop ends within the bound, a larger bound changes nothing |
| `Vocabulary.CollectRedirect` | api/vocabulary.py:297-314 | `collect` of RoR, COAR and Library of Congress computes `RedirectVerdict` |
| `Vocabulary.RedirectVerdictIff` | api/vocabulary.py:297-314 | true iff a path is configured, the term lies under it and the redirects end on 200; a first status of 300 is not followed |
| `Vocabulary.AgrovocVerdict` | api/vocabulary.py:352-376 | `None` iff the path is missing or the term lies outside it |
| `Vocabulary.UnescoTerm` | api/vocabulary.py:427-428 | the rewritten term holds no space and no no-break space |
| `Vocabulary.RewriteAfterCheck` | api/vocabulary.py:383-438 | the namespace test reads the original term; the endpoint is asked about the rewritten one, and a request that raises makes the check fail |
| `Vocabulary.RewritesLeaveCleanTerms` | api/vocabulary.py:392-428 | Getty leaves a term without `/page` alone; UNESCO leaves a term without spaces alone |
| `Vocabulary.OrcidVerdict` | api/vocabulary.py:518-541 | true iff a path is configured, the ORCID is well formed and the API answers 200 |
| `Vocabulary.PicIgnoresTerm` | api/vocabulary.py:548-575 | the PIC verdict does not depend on the term |
| `Vocabulary.OnlyRorFailsToBind` | api/vocabulary.py:577-628 | every facade getter reaches its connector except `get_ror`, which always raises |
| `Ai4osText.NormalizeIdempotent` | plugins/ai4os/plugin.py:61-65 | `_normalize` maps `None` to `""` and is idempotent |
| `Ai4osText.StripLower` | plugins/ai4os/plugin.py:61-65 | lowering commutes with stripping |
| `Ai4osText.StripSpdxSuffixOnce` | plugins/ai4os/plugin.py:68-73 | one `.html`/`.json` suffix in any case is removed, and only one |
| `Ai4osText.StripSpdxSuffixKeeps` | plugins/ai4os/plugin.py:68-73 | a stripped string without such a suffix is unchanged |
| `Ai4osText.IndexByKeys` | plugins/ai4os/plugin.py:76-101 | an index's keys are exactly the keys of its accepted licences |
| `Ai4osText.IndexByLast` | plugins/ai4os/plugin.py:76-101 | each key holds the details URL of the last accepted licence with that key |
| `Ai4osText.BuildSpdxIndexes` | plugins/ai4os/plugin.py:76-101 | the loop computes the three indexes `IndexesSpec` |
| `Ai4osText.SpdxIndexesMeaning` | plugins/ai4os/plugin.py:76-101 | keys come exactly from licences with id and details, reference and details, or details; no stored value is empty; later licences overwrite earlier ones |
| `Ai4osText.CollectUrls` | fair_eva/plugins.old/ai4os/plugin.py:123-138 | the loop computes `UrlsSpec`, whatever `fields_like` is |
| `Ai4osText.UrlsMeaning` | plugins/ai4os/plugin.py:123-138 | every collected URL starts with `http`, and every such row value is collected |
| `Ai4osText.UrlsKeepOrder` | plugins/ai4os/plugin.py:123-138 | collection keeps row order |
| `Ai4osText.FilterNonProvExact` | fair_eva/plugins.old/ai4os/plugin.py:254-258 | exactly `provenance` and the `prov_` fields are removed, and the filter is idempotent |
| `Ai4osText.LeafRow` | plugins/ai4os/plugin.py:357-363 | a leaf's element is the key before the first `.`, its qualifier the rest, `None` when there is no dot |
| `Ai4osText.RowList.constructor` | plugins/ai4os/plugin.py:348-349 | the accumulator starts empty |
| `Ai4osText.FlattenInto` | plugins/ai4os/plugin.py:339-364 | the recursion appends exactly `Flat` of the data to the shared accumulator |
| `Ai4osText.FlattenYaml` | plugins/ai4os/plugin.py:339-364 | the top-level call returns `Flat` of the data |
| `Ai4osText.FlatShape` | plugins/ai4os/plugin.py:339-364 | one row per scalar leaf, each in the namespace with a dot-free element |
| `Ai4osText.FlatNestedMap` | plugins/ai4os/plugin.py:350-363 | a leaf two levels down gives the outer key as element and the inner one as qualifier |
| `Ai4osText.FlatListItems` | plugins/ai4os/plugin.py:354-362 | list items share their parent's key, and `None` becomes `""` |
| `Ai4osText.LastSegment` | plugins/ai4os/plugin.py:371-372 | the last segment holds no `/` |
| `Ai4osText.LastSegmentOf` | plugins/ai4os/plugin.py:371-372 | a name after a slash is the last segment, with or without a trailing slash |
| `Ai4osText.SlugFromItemId` | plugins/ai4os/plugin.py:366-373 | a non-URL id is unchanged; a URL id gives a segment without `/` |
| `Ai4osText.LicenseCandidateOfUrl` | plugins/ai4os/plugin.py:406-423 | an SPDX page URL gives its last segment, keeping any `.html` |
| `Ai4osText.LicenseCandidateSpdxPrefix` | plugins/ai4os/plugin.py:419-420 | one `SPDX:` prefix is dropped |
| `Ai4osText.LicenseCandidateRefPrefix` | plugins/ai4os/plugin.py:421-422 | one `LicenseRef-` prefix is dropped |
| `Ai4osText.LicenseCandidateBothPrefixes` | plugins/ai4os/plugin.py:419-422 | both prefixes go, `SPDX:` first |
| `Ai4osText.IsPersistentIdentifier` | plugins/ai4os/plugin.py:784-804 | only strings of at least six characters, measured before stripping, can pass |
| `Ai4osText.PidIgnoresCase` | plugins/ai4os/plugin.py:784-804 | the heuristic ignores ASCII letter case |
| `Ai4osText.PidTooShort` | plugins/ai4os/plugin.py:788-789 | a five-character URN is too short |
| `Ai4osText.PidLengthBeforeStrip` | plugins/ai4os/plugin.py:788-800 | padding makes a four-character URN pass, since length is measured before stripping |
| `Ai4os.SomeSpdxCandidateIff` | plugins/ai4os/plugin.py:851-856 | some normalised candidate is an SPDX id iff some given entry normalises to one |
| `Ai4os.R1_1_02mCases` | plugins/ai4os/plugin.py:841-871 | 0 iff there are no licences, 100 iff a candidate is an SPDX id, and otherwise 50 |
| `Ai4os.R1_1_02mRaisesOnNone` | plugins/ai4os/plugin.py:852-867 | given the licence table, the scoring body raises only when the list holds `None` |
| `Ai4os.R1_1_02mBlankEntry` | plugins/ai4os/plugin.py:846-871 | a list with one blank entry scores 50 |
| `Ai4os.MatchLicenses` | plugins/ai4os/plugin.py:909-928 | the loop computes `MatchSpec` |
| `Ai4os.MatchPartition` | plugins/ai4os/plugin.py:909-928 | every input lands in exactly one of matched/unmatched; blank inputs are unmatched; every match carries its details URL |
| `Ai4os.ByIdNeverConsulted` | plugins/ai4os/plugin.py:903-928 | replacing the `by_id` index changes nothing |
| `Ai4os.R1_1_03mPointsBounds` | plugins/ai4os/plugin.py:930-952 | points lie in [0, 100], are 0 with no match and 100 when all match |
| `Ai4os.R1_1_03mPointsRounding` | plugins/ai4os/plugin.py:936-938 | 199 of 200 rounds to 100, 1 of 300 to 0 |
| `Ai4os.ScoreMatches` | plugins/ai4os/plugin.py:930-952 | the branches compute `R1_1_03mPoints`, within [0, 100] |
| `Ai4os.RdaR1_1_03m` | plugins/ai4os/plugin.py:893-952 | given the licence table, 0 when the SPDX list cannot be loaded, otherwise the share of inputs with a details URL |
| `Ai4os.TermsLicenseMetadata` | plugins/ai4os/plugin.py:838-839 | `kwargs["terms_license"]["metadata"]` raises on every argument the wrapper can pass: `KeyError` iff the key is missing, otherwise a `TypeError` or a `KeyError` on `metadata` |
| `Ai4os.LicenceIndicatorsRaiseThroughWrapper` | plugins/ai4os/plugin.py:891-892 | whenever the wrapper calls R1.1-02M or R1.1-03M, that lookup raises |
| `Ai4os.TermsLicenseCounterexample` | plugins/ai4os/plugin.py:838-839 | licence values under `License` raise `KeyError: 'terms_license'`; a term named `terms_license` raises a `TypeError` |
| `Ai4os.RepoUrlShape` | plugins/ai4os/plugin.py:581-587 | a candidate built from a GitHub host is a `https://(www.)github.com/` URL |
| `Ai4os.RepoCandidateShape` | plugins/ai4os/plugin.py:574-589 | a candidate comes from a string mentioning `github.com` and is such a URL |
| `Ai4os.RdaA1_05d` | plugins/ai4os/plugin.py:563-612 | the candidates are de-duplicated, and the score is 100 iff some value yields one |
| `Ai4os.FirstSourceUrl` | plugins/ai4os/plugin.py:643-654 | a landing URL found starts with `http` |
| `Ai4os.FoundIsChecked` | plugins/ai4os/plugin.py:697-720 | a row found on the page was checked |
| `Ai4os.CountRows` | plugins/ai4os/plugin.py:686-720 | the loop computes the checked and found counts |
| `Ai4os.RdaA1_02m` | plugins/ai4os/plugin.py:633-732 | the score is `A1_02mPoints`, with the counts of the fetched page |
| `Ai4os.CheckedMeaning` | plugins/ai4os/plugin.py:686-720 | found ≤ checked ≤ rows, and something is checked iff some row is checkable |
| `Ai4os.A1_02mIff` | plugins/ai4os/plugin.py:633-732 | 100.0 iff a landing page was fetched and a row was checkable, whatever was found; otherwise 0.0 |
| `Ai4os.ShortValuesUnchecked` | plugins/ai4os/plugin.py:686-720 | a value shorter than three characters is never checked |
| `Ai4os.RdaI3_03m` | plugins/ai4os/plugin.py:806-825 | 100 iff some stripped row value is a PID, else 0 |
| `Ai4os.PidValuesNonEmpty` | plugins/ai4os/plugin.py:806-825 | some value is reported iff some row holds a PID |
| `Ai4os.PidValuesArePids` | plugins/ai4os/plugin.py:806-825 | every reported value is a PID |
| `Ai4os.PaddedUrnIsNoPid` | plugins/ai4os/plugin.py:806-825 | the indicator strips before testing, so a padded four-character URN does not count |

## Left out

- Network, database and file access are oracle parameters. This covers
  `requests`, SPARQL endpoints, OAI-PMH requests, psycopg2 queries, XML,
  JSON and RDF parsing, `_load_spdx_licenses`, `_spdx_license_ids`,
  `urlparse` and `find_dataset_file`. Their content is arbitrary. A request
  of a vocabulary connector may raise, and the exception is propagated or
  caught where the source does; only the exception's message is kept, not
  its class.
- Vocabulary.RemoteFlag: `literal_eval` also accepts floats, quoted strings,
  containers, hexadecimal, octal and binary integers, underscores in
  integers and surrounding spaces; the model treats these flags as
  malformed, so it raises where Python would evaluate them.
- PyStr.Lower: only ASCII letters are lowered. Python's `str.lower` also
  lowers other letters (the Kelvin sign U+212A becomes `k`). Every member
  that folds case inherits this: `Ai4osText.Normalize`,
  `Ai4osText.HasSpdxSuffix` and `Ai4os.FoundOnPage`.
- Ai4osText.IsPersistentIdentifier: the prefixes are matched after ASCII
  lowering only, so `ar\u212A:/12` is a PID for Python but not for the model.
- Ai4osText.PidIgnoresCase: the heuristic ignores ASCII letter case only.
- Validator.TryPartition: each instance's settings are modelled as the
  configuration dictionary `collect` receives and returns; other attributes
  a connector may set during `collect` are not.
- Ai4osText.StrOf: `str` of a non-empty list, a dict or another object
  matches Python's only in its first character and a length of at least
  three; the substring tests of `rda_a1_02m` on such values are not
  modelled.
- `api.utils` helpers (`check_metadata_terms_with_values`, `orcid_basic_info`,
  `validate_any_pid`, `is_spdx_license`, `check_orcid`, `get_doi_str`,
  `get_handle_str`, `licenses_list` and the others) are uninterpreted functions.
- Vocabulary.FollowRedirects: the source loop has no bound. The model carries
  a fuel bound, and running out of fuel is its own outcome. The model says
  nothing about redirect chains longer than the fuel.
- Scorers.Round: points are exact reals. Float rounding error at ties is not
  modelled.
- Messages, logging and the gettext `_` are not modelled. Indicators return
  only their points and the lists that decide them.
- The base `rda_*` indicators outside the named core are not modelled: those
  that return constants and those that depend wholly on I/O (`rda_a1_03d`,
  `rda_i1_01d`, `rda_i1_02m`, `rda_r1_3_*`, the ai4os `rda_i1_02d` and
  `rda_r1_2_01m`, DIGITAL.CSIC `get_internal_id` and `get_handle_id`).
- `_validate_metadata_for_resource_discovery` (api/evaluator.py:554-585) is not
  modelled: `validate` never calls it.
- pandas DataFrames are sequences of rows. `check_metadata_terms_with_values`
  returns any sequence of rows the oracle chooses; that it selects rows of
  the metadata table is not modelled.
- Ai4os.RdaR1_1_03m: the body is modelled for a caller that passes
  `terms_license={"metadata": table}`. Called through `ConfigTerms`, as the
  program does, it raises at plugins/ai4os/plugin.py:891-892 before scoring
  (see Findings and `Ai4os.LicenceIndicatorsRaiseThroughWrapper`).
- Ai4os.R1_1_02mRaisesOnNone: the same holds for R1.1-02M. Through
  `ConfigTerms` it raises at plugins/ai4os/plugin.py:838-839, so the
  "only when `None`" statement is about the scoring body alone.
- Ai4osText.FlattenYaml: YAML keys are strings only. Integer, boolean and date
  keys are not modelled. A top-level key of that kind over a scalar makes
  `"." in parent_key` raise a `TypeError`, which `get_metadata` catches, so no
  YAML rows are produced. A falsy key such as `0` vanishes from its
  children's dotted keys.
- In `get_metadata` of the OAI-PMH plugin, a `metadataPrefix` element without
  text gives the key `None`. The model has no such key: it reads the missing
  text as a missing child.
- fair_eva/api/rda.py, the gbif plugin, scripts/petition.py and
  plugin_analysis.py are not part of this model.

## Findings

| source | as written | input that shows it | evidently intended | confidence | as-written member | corrected member |
|---|---|---|---|---|---|---|
| plugins/ai4os/plugin.py:838-839 | `rda_r1_1_02m` reads `kwargs["terms_license"]["metadata"]`, but the `ConfigTerms` wrapper passes only the caller's arguments, the configured terms' value lists or payloads, and `points` | any call the wrapper lets through, e.g. `kwargs = {"License": ["MIT"]}`: `KeyError: 'terms_license'`, never 0, 50 or 100 | the body scores the licence values the wrapper collected, as the base indicator does with `kwargs["License"]` | not executed | `Ai4os.TermsLicenseCounterexample` | `Ai4os.R1_1_02mCases` |
| plugins/ai4os/plugin.py:891-892 | `rda_r1_1_03m` makes the same lookup first | the same `kwargs`: `KeyError: 'terms_license'`, never a share | the body scores the share of collected licences with an SPDX details URL | not executed | `Ai4os.LicenceIndicatorsRaiseThroughWrapper` | `Ai4os.RdaR1_1_03m` |
| api/evaluator.py:1035-1041 | in `rda_f2_01m` the `elif` for string entries sits under the `isinstance(e, list)` test, so a string entry of `terms_map` is never counted as found | one configured string entry `title` and a metadata row `title` without qualifier: 0 points | a string entry is found when some row has that element and no qualifier: 100 points | not executed | `Scorers.RdaF2ScalarCounterexample` | `Scorers.RdaF2` |
