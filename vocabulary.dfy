/**
 * The vocabulary connectors of api/vocabulary.py. Three connectors (IANA
 * media types, the FAIRsharing registry, GeoNames) fetch a list through
 * `VocabularyConnection.collect`, which asks the remote registry and falls
 * back to a local cache; they are modelled as a class whose state is the
 * configuration and the attributes `__init__` copies out of it. The other
 * connectors only answer whether a term exists: the redirect-following
 * ones (ROR, COAR, Library of Congress, after section 15.4 of RFC 9110),
 * the SPARQL ones (Agrovoc, Getty, UNESCO, Wikidata) and the HEAD-request
 * ones (ORCID, PIC). Every HTTP request, file read and XML or JSON parse
 * is a function given as a parameter.
 */
module Vocabulary {
  import opened Common
  import opened PyStr
  import opened PyDict
  import opened Values

  // ---------------------------------------------------------------- the world outside

  /**
   * The answer to one HTTP request: `response.ok`, `response.text`, and the
   * JSON field the connector reads (`data` for FAIRsharing, `asciiName` for
   * GeoNames), which raises when the body is not JSON.
   */
  datatype Response = Response(ok: bool, text: string, field: Outcome<Value>)

  /**
   * `get` and `post` answer a request to a URL, or raise its exception
   * (a connection error, a timeout), which no connector catches;
   * `signIn` is FAIRsharing's `_login`, which raises on such an exception
   * or when an accepted answer carries no JSON `jwt`, and otherwise only
   * chooses the headers; `parseXml` is the IANA `_parse_xml` of a response
   * text and `parseFile` of a cache file (the texts of the media-type
   * elements); `readJson` is the `data` list of a JSON cache file.
   */
  datatype Net = Net(
    get: string -> Outcome<Response>,
    post: string -> Outcome<Response>,
    signIn: Outcome<()>,
    parseXml: string -> Outcome<seq<Value>>,
    parseFile: string -> Outcome<seq<Value>>,
    readJson: string -> Outcome<Value>)

  /** The connectors of the module, under the name their class has. */
  datatype Registry =
    | IanaMediaTypes | FairSharing | GeoNames | RoR | Agrovoc | Getty
    | Unesco | Coar | LibraryOfCongress | Wikidata | Orcid | Pic

  // ---------------------------------------------------------------- VocabularyConnection

  /** The digits of a literal after an optional sign. */
  function Unsigned(s: string): string
  {
    if |s| > 0 && (s[0] == '+' || s[0] == '-') then s[1..] else s
  }

  /**
   * A decimal integer literal, optionally signed: a run of zeros, or
   * digits that do not start with `0` (Python refuses `01`).
   */
  predicate IntLiteral(s: string)
  {
    var d := Unsigned(s);
    AllDigits(d) && (d[0] != '0' || forall i :: 0 <= i < |d| ==> d[i] == '0')
  }

  predicate HasNonZeroDigit(s: string)
  {
    exists i :: 0 <= i < |s| && '1' <= s[i] <= '9'
  }

  /**
   * `ast.literal_eval` of the `enable_remote_check` setting, reduced to
   * the truthiness `collect` tests: `True`, `False`, `None` and decimal
   * integer literals are values, truthy for `True` and a non-zero
   * integer; any other text raises.
   */
  function RemoteFlag(s: string): (r: Outcome<bool>)
    ensures r.Returned? <==> s == "True" || s == "False" || s == "None" || IntLiteral(s)
    ensures r.Returned? ==> (r.value <==> s == "True" || (IntLiteral(s) && HasNonZeroDigit(s)))
  {
    if s == "True" then Returned(true)
    else if s == "False" || s == "None" then Returned(false)
    else if IntLiteral(s) then Returned(HasNonZeroDigit(s))
    else Raised("ValueError: malformed node or string")
  }

  /** `0`, `-0`, `00`, `None` and `False` switch remote checks off. */
  lemma RemoteFlagOff()
    ensures RemoteFlag("0") == Returned(false) && RemoteFlag("-0") == Returned(false)
    ensures RemoteFlag("00") == Returned(false)
    ensures RemoteFlag("None") == Returned(false) && RemoteFlag("False") == Returned(false)
  {
    assert Unsigned("-0") == "0";
    assert IntLiteral("0") && !HasNonZeroDigit("0");
    assert IntLiteral("-0") && !HasNonZeroDigit("-0");
    assert "00"[0] == '0' && "00"[1] == '0';
    assert IntLiteral("00") && !HasNonZeroDigit("00");
  }

  /** `1`, `+7` and `True` switch remote checks on. */
  lemma RemoteFlagOn()
    ensures RemoteFlag("1") == Returned(true) && RemoteFlag("+7") == Returned(true)
    ensures RemoteFlag("True") == Returned(true)
  {
    assert "1"[0] == '1';
    assert IntLiteral("1") && HasNonZeroDigit("1");
    assert Unsigned("+7") == "7" && "+7"[1] == '7';
    assert IntLiteral("+7") && HasNonZeroDigit("+7");
  }

  /** `01`, `true` and the empty text are not literals `literal_eval` accepts. */
  lemma RemoteFlagMalformed()
    ensures RemoteFlag("01").Raised? && RemoteFlag("true").Raised? && RemoteFlag("").Raised?
  {
    assert Unsigned("01") == "01" && "01"[0] == '0' && "01"[1] == '1';
    assert !IntLiteral("01");
    assert Unsigned("true") == "true" && !IsDigit("true"[0]);
    assert !IntLiteral("true");
  }

  /** `os.path.join(a, b)` on POSIX: an absolute `b` replaces `a`, otherwise one `/` separates them. */
  function PathJoin(a: string, b: string): (r: string)
    ensures StartsWith(b, "/") ==> r == b
    ensures EndsWith(r, b)
  {
    if StartsWith(b, "/") then b
    else if a == "" || EndsWith(a, "/") then a + b
    else a + "/" + b
  }

  /**
   * Whether `len` applies to a JSON value: strings, lists and objects have
   * a length; numbers and booleans (`Opaque`) do not.
   */
  predicate HasLen(v: Value)
  {
    !v.Opaque?
  }

  const NoLen := "TypeError: object has no len()"

  /**
   * `_remote_collect`: whether the request failed, and the content it got.
   * The debug message after a truthy JSON answer takes its `len`, which
   * raises on a number: FAIRsharing lets that escape, GeoNames catches it
   * and reports an error.
   */
  function RemoteCollect(kind: Registry, path: string, user: string, password: string, net: Net): Outcome<(bool, Value)>
  {
    match kind
    case IanaMediaTypes =>
      (match net.get(path)
       case Raised(e) => Raised(e)
       case Returned(resp) =>
         if !resp.ok then Returned((true, ListV([])))
         else if resp.text == "" then Returned((true, Str("")))
         else
           (match net.parseXml(resp.text)
            case Raised(e) => Raised(e)
            case Returned(items) => Returned((items == [], Str(resp.text)))))
    case FairSharing =>
      if user == "" || password == "" then Returned((false, ListV([])))
      else if net.signIn.Raised? then Raised(net.signIn.error)
      else
        (match net.post(path)
         case Raised(e) => Raised(e)
         case Returned(resp) =>
           if !resp.ok then Returned((true, ListV([])))
           else
             (match resp.field
              case Raised(e) => Raised(e)
              case Returned(c) =>
                if Truthy(c) && !HasLen(c) then Raised(NoLen) else Returned((!Truthy(c), c))))
    case GeoNames =>
      (match net.get(path)
       case Raised(e) => Raised(e)
       case Returned(resp) =>
         if !resp.ok then Returned((false, ListV([])))
         else
           (match resp.field
            case Raised(_) => Returned((true, ListV([])))
            case Returned(c) => Returned((!Truthy(c) || !HasLen(c), c))))
    case _ => Raised("NotImplementedError")
  }

  /** `_local_collect`: IANA parses the cache at its full path, FAIRsharing opens `local_path` as given. */
  function LocalCollect(kind: Registry, localPath: string, localPathFull: string, net: Net): Outcome<Value>
  {
    match kind
    case IanaMediaTypes =>
      (match net.parseFile(localPathFull)
       case Raised(e) => Raised(e)
       case Returned(items) => Returned(ListV(items)))
    case FairSharing => net.readJson(localPath)
    case _ => Raised("NotImplementedError")
  }

  /** The local cache is read when remote checks are off or the remote request reported an error. */
  predicate ReadsLocal(enabled: bool, remote: Outcome<(bool, Value)>)
  {
    !enabled || (remote.Returned? && remote.value.0)
  }

  /** What `collect` returns: the content of whichever of the two paths ran last. */
  function CollectSpec(enabled: bool, remote: Outcome<(bool, Value)>, local: Outcome<Value>): Outcome<Value>
  {
    if !enabled then local
    else
      match remote
      case Raised(e) => Raised(e)
      case Returned((error, content)) => if error then local else Returned(content)
  }

  /**
   * The remote path runs only when enabled; the local one runs exactly
   * when `ReadsLocal` holds and its content is then the result; otherwise
   * the result is the remote content, or the remote exception.
   */
  lemma CollectFallback(enabled: bool, remote: Outcome<(bool, Value)>, local: Outcome<Value>,
                        other: Outcome<Value>, otherRemote: Outcome<(bool, Value)>)
    ensures ReadsLocal(enabled, remote) ==> CollectSpec(enabled, remote, local) == local
    ensures !ReadsLocal(enabled, remote) ==> CollectSpec(enabled, remote, local) == CollectSpec(enabled, remote, other)
    ensures !ReadsLocal(enabled, remote) && remote.Returned? ==> CollectSpec(enabled, remote, local) == Returned(remote.value.1)
    ensures !enabled ==> CollectSpec(enabled, remote, local) == CollectSpec(enabled, otherRemote, local)
  {
  }

  /** The whole `collect` of a configured connector: `__init__` from `cfg`, then the two paths. */
  function ConfiguredCollect(kind: Registry, cfg: Dict<string>, net: Net, appDirname: string): Outcome<Value>
  {
    match RemoteFlag(GetOr(cfg, "enable_remote_check", "True"))
    case Raised(e) => Raised(e)
    case Returned(enabled) =>
      var lp := GetOr(cfg, "local_path", "");
      CollectSpec(enabled,
                  RemoteCollect(kind, GetOr(cfg, "remote_path", ""), GetOr(cfg, "remote_username", ""),
                                GetOr(cfg, "remote_password", ""), net),
                  LocalCollect(kind, lp, PathJoin(appDirname, lp), net))
  }

  /** FAIRsharing's query: the topic appended to the configured path. */
  function FairSharingPath(path: string, topic: string): (r: string)
    ensures StartsWith(r, path)
  {
    path + FairSharingQuery(topic)
  }

  /** The query string FAIRsharing's `collect` appends. */
  function FairSharingQuery(topic: string): string
  {
    "?page[size]=2500&" + "q=" + topic
  }

  /** GeoNames' query: the place id and the account name appended to the configured path. */
  function GeoNamesPath(path: string, topic: string): (r: string)
    ensures StartsWith(r, path)
  {
    path + "?geonameId=" + topic + "&username=frames"
  }

  /** The configuration after a query: a non-empty `remote_path` is overwritten with the query URL. */
  function WithQuery(cfg: Dict<string>, query: string -> string): (r: Dict<string>)
    ensures forall k :: k != "remote_path" ==> GetOr(r, k, "") == GetOr(cfg, k, "")
    ensures GetOr(cfg, "remote_path", "") == "" ==> r == cfg
    ensures GetOr(cfg, "remote_path", "") != "" ==> GetOr(r, "remote_path", "") == query(GetOr(cfg, "remote_path", ""))
  {
    var rp := GetOr(cfg, "remote_path", "");
    if rp == "" then cfg else Put(cfg, "remote_path", query(rp))
  }

  /**
   * A connector of the list-returning kind. Like the Python subclasses,
   * the constructor only stores the configuration; `Configure` is
   * `VocabularyConnection.__init__`, which each `collect` runs again.
   * `enableRemoteCheck` holds the truthiness of the parsed flag, the only
   * thing `collect` reads of it.
   */
  class Connector {
    const kind: Registry
    var configItems: Dict<string>
    var vocabularyName: string
    var enableRemoteCheck: bool
    var remotePath: string
    var remoteUsername: string
    var remotePassword: string
    var localPath: string
    var localPathFull: string

    constructor (kind: Registry, configItems: Dict<string>)
      ensures this.kind == kind && this.configItems == configItems
      ensures localPathFull == ""
    {
      this.kind := kind;
      this.configItems := configItems;
      vocabularyName := "";
      enableRemoteCheck := true;
      remotePath := "";
      remoteUsername := "";
      remotePassword := "";
      localPath := "";
      localPathFull := "";
    }

    /** The settings `collect` uses match `configItems`. */
    predicate Configured()
      reads this
    {
      && RemoteFlag(GetOr(configItems, "enable_remote_check", "True")) == Returned(enableRemoteCheck)
      && remotePath == GetOr(configItems, "remote_path", "")
      && remoteUsername == GetOr(configItems, "remote_username", "")
      && remotePassword == GetOr(configItems, "remote_password", "")
      && localPath == GetOr(configItems, "local_path", "")
    }

    /**
     * `VocabularyConnection.__init__(**config_items)`: copies the settings
     * with their defaults and clears `local_path_full`; a flag that
     * `RemoteFlag` does not accept raises after the name was set.
     */
    method Configure() returns (r: Outcome<bool>)
      modifies this
      ensures configItems == old(configItems)
      ensures vocabularyName == GetOr(configItems, "vocabulary_name", "")
      ensures r == RemoteFlag(GetOr(configItems, "enable_remote_check", "True"))
      ensures r.Returned? ==> Configured() && localPathFull == ""
      ensures r.Raised? ==> enableRemoteCheck == old(enableRemoteCheck) && remotePath == old(remotePath) &&
                            localPathFull == old(localPathFull)
    {
      vocabularyName := GetOr(configItems, "vocabulary_name", "");
      r := RemoteFlag(GetOr(configItems, "enable_remote_check", "True"));
      if r.Returned? {
        CopySettings(r.value);
      }
    }

    /** The assignments of `__init__` after the flag was parsed. */
    method CopySettings(flag: bool)
      requires RemoteFlag(GetOr(configItems, "enable_remote_check", "True")) == Returned(flag)
      modifies this`enableRemoteCheck, this`remotePath, this`remoteUsername, this`remotePassword, this`localPath,
               this`localPathFull
      ensures Configured() && localPathFull == ""
    {
      var cfg := configItems;
      enableRemoteCheck := flag;
      remotePath := GetOr(cfg, "remote_path", "");
      remoteUsername := GetOr(cfg, "remote_username", "");
      remotePassword := GetOr(cfg, "remote_password", "");
      localPath := GetOr(cfg, "local_path", "");
      localPathFull := "";
    }

    /**
     * `VocabularyConnection.collect`: the remote path when enabled, the
     * local cache when disabled or on a remote error, which also sets
     * `local_path_full`.
     */
    method Collect(net: Net, appDirname: string) returns (r: Outcome<Value>)
      modifies this`localPathFull
      ensures r == CollectSpec(enableRemoteCheck,
                               RemoteCollect(kind, remotePath, remoteUsername, remotePassword, net),
                               LocalCollect(kind, localPath, PathJoin(appDirname, localPath), net))
      ensures localPathFull ==
                if ReadsLocal(enableRemoteCheck, RemoteCollect(kind, remotePath, remoteUsername, remotePassword, net))
                then PathJoin(appDirname, localPath) else old(localPathFull)
    {
      var content: Value := ListV([]);
      var errorOnRequest := false;
      if enableRemoteCheck {
        var remote := RemoteCollect(kind, remotePath, remoteUsername, remotePassword, net);
        if remote.Raised? {
          return Raised(remote.error);
        }
        errorOnRequest := remote.value.0;
        content := remote.value.1;
      }
      if !enableRemoteCheck || errorOnRequest {
        localPathFull := PathJoin(appDirname, localPath);
        r := LocalCollect(kind, localPath, localPathFull, net);
      } else {
        r := Returned(content);
      }
    }

    /** What every `collect` of the list-returning kind does: `__init__` again, then `VocabularyConnection.collect`. */
    method ConfigureAndCollect(net: Net, appDirname: string) returns (r: Outcome<Value>)
      modifies this
      ensures configItems == old(configItems)
      ensures r == ConfiguredCollect(kind, configItems, net, appDirname)
    {
      var ok := Configure();
      if ok.Raised? {
        return Raised(ok.error);
      }
      r := Collect(net, appDirname);
    }

    /** `IANAMediaTypes.collect()`. */
    method CollectMediaTypes(net: Net, appDirname: string) returns (r: Outcome<Value>)
      requires kind == IanaMediaTypes
      modifies this
      ensures configItems == old(configItems)
      ensures r == ConfiguredCollect(kind, configItems, net, appDirname)
    {
      r := ConfigureAndCollect(net, appDirname);
    }

    /** `FAIRsharingRegistry.collect(search_topic)`: the query is written back into the configuration first. */
    method CollectStandards(topic: string, net: Net, appDirname: string) returns (r: Outcome<Value>)
      requires kind == FairSharing
      modifies this
      ensures configItems == WithQuery(old(configItems), p => FairSharingPath(p, topic))
      ensures r == ConfiguredCollect(kind, configItems, net, appDirname)
    {
      configItems := WithQuery(configItems, p => FairSharingPath(p, topic));
      r := ConfigureAndCollect(net, appDirname);
    }

    /** `GeoNames.collect(search_topic)`. */
    method CollectPlace(topic: string, net: Net, appDirname: string) returns (r: Outcome<Value>)
      requires kind == GeoNames
      modifies this
      ensures configItems == WithQuery(old(configItems), p => GeoNamesPath(p, topic))
      ensures r == ConfiguredCollect(kind, configItems, net, appDirname)
    {
      configItems := WithQuery(configItems, p => GeoNamesPath(p, topic));
      r := ConfigureAndCollect(net, appDirname);
    }
  }

  // ---------------------------------------------------------------- what the three collects return

  /** Remote checks are on (`enable_remote_check` unset or `True`). */
  predicate RemoteOn(cfg: Dict<string>)
  {
    RemoteFlag(GetOr(cfg, "enable_remote_check", "True")) == Returned(true)
  }

  /**
   * IANA answers in two shapes: a successful remote request gives the raw
   * response text, not the parsed list; a failed or empty one falls back
   * to the cache, which gives the parsed list.
   */
  lemma MediaTypeShapes(cfg: Dict<string>, net: Net, appDirname: string, resp: Response)
    requires RemoteOn(cfg)
    requires net.get(GetOr(cfg, "remote_path", "")) == Returned(resp)
    ensures resp.ok && resp.text != "" && net.parseXml(resp.text).Returned? && net.parseXml(resp.text).value != [] ==>
              ConfiguredCollect(IanaMediaTypes, cfg, net, appDirname) == Returned(Str(resp.text))
    ensures var lp := GetOr(cfg, "local_path", "");
            (!resp.ok || resp.text == "" || net.parseXml(resp.text) == Returned([])) &&
            net.parseFile(PathJoin(appDirname, lp)).Returned? ==>
              ConfiguredCollect(IanaMediaTypes, cfg, net, appDirname) == Returned(ListV(net.parseFile(PathJoin(appDirname, lp)).value))
  {
  }

  /**
   * No connector catches a request exception: with remote checks on, a
   * failing GET of IANA or GeoNames, or a failing sign-in or POST of
   * FAIRsharing with credentials, is the exception `collect` raises, and
   * the local cache is not read.
   */
  lemma RequestErrorsPropagate(cfg: Dict<string>, net: Net, appDirname: string)
    requires RemoteOn(cfg)
    ensures var rp := GetOr(cfg, "remote_path", "");
            net.get(rp).Raised? ==>
              ConfiguredCollect(IanaMediaTypes, cfg, net, appDirname) == Raised(net.get(rp).error) &&
              ConfiguredCollect(GeoNames, cfg, net, appDirname) == Raised(net.get(rp).error)
    ensures var rp := GetOr(cfg, "remote_path", "");
            GetOr(cfg, "remote_username", "") != "" && GetOr(cfg, "remote_password", "") != "" ==>
              (net.signIn.Raised? ==> ConfiguredCollect(FairSharing, cfg, net, appDirname) == Raised(net.signIn.error)) &&
              (net.signIn.Returned? && net.post(rp).Raised? ==>
                 ConfiguredCollect(FairSharing, cfg, net, appDirname) == Raised(net.post(rp).error))
  {
  }

  /**
   * A number as FAIRsharing's `data` answer raises in the debug message
   * that takes its length, before any content is returned.
   */
  lemma StandardsNumberRaises(cfg: Dict<string>, net: Net, appDirname: string, resp: Response)
    requires RemoteOn(cfg)
    requires GetOr(cfg, "remote_username", "") != "" && GetOr(cfg, "remote_password", "") != ""
    requires net.signIn.Returned? && net.post(GetOr(cfg, "remote_path", "")) == Returned(resp)
    ensures resp.ok && resp.field.Returned? && resp.field.value.Opaque? ==>
              ConfiguredCollect(FairSharing, cfg, net, appDirname) == Raised(NoLen)
    ensures resp.ok && resp.field.Returned? && resp.field.value.ListV? ==>
              ConfiguredCollect(FairSharing, cfg, net, appDirname) ==
                if resp.field.value.items == [] then net.readJson(GetOr(cfg, "local_path", ""))
                else resp.field
  {
  }

  /**
   * FAIRsharing without a user name or password gives `[]` and reports no
   * error, so the local cache is never read.
   */
  lemma StandardsWithoutCredentials(cfg: Dict<string>, net: Net, appDirname: string)
    requires RemoteOn(cfg)
    requires GetOr(cfg, "remote_username", "") == "" || GetOr(cfg, "remote_password", "") == ""
    ensures ConfiguredCollect(FairSharing, cfg, net, appDirname) == Returned(ListV([]))
    ensures !ReadsLocal(true, RemoteCollect(FairSharing, GetOr(cfg, "remote_path", ""), GetOr(cfg, "remote_username", ""),
                                            GetOr(cfg, "remote_password", ""), net))
  {
  }

  /**
   * The FAIRsharing query is written into the configuration, so a second
   * query on the same connector extends the already extended path.
   */
  lemma StandardsQueryAccumulates(cfg: Dict<string>, t1: string, t2: string)
    requires GetOr(cfg, "remote_path", "") != ""
    ensures var cfg2 := WithQuery(WithQuery(cfg, p => FairSharingPath(p, t1)), p => FairSharingPath(p, t2));
            GetOr(cfg2, "remote_path", "") ==
              GetOr(cfg, "remote_path", "") + FairSharingQuery(t1) + FairSharingQuery(t2)
  {
    var rp := GetOr(cfg, "remote_path", "");
    var cfg1 := WithQuery(cfg, p => FairSharingPath(p, t1));
    var q1 := FairSharingPath(rp, t1);
    assert GetOr(cfg1, "remote_path", "") == q1;
    assert q1 != "" by { assert |q1| >= |rp| > 0; }
  }

  /**
   * GeoNames has no fallback: a failed request gives `[]` with no error
   * flag, and an empty answer sends `collect` to a cache reader GeoNames
   * does not have, which raises.
   */
  lemma PlaceWithoutFallback(cfg: Dict<string>, net: Net, appDirname: string, resp: Response)
    requires RemoteOn(cfg)
    requires net.get(GetOr(cfg, "remote_path", "")) == Returned(resp)
    ensures !resp.ok ==> ConfiguredCollect(GeoNames, cfg, net, appDirname) == Returned(ListV([]))
    ensures resp.ok && (resp.field.Raised? || !Truthy(resp.field.value) || !HasLen(resp.field.value)) ==>
              ConfiguredCollect(GeoNames, cfg, net, appDirname) == Raised("NotImplementedError")
  {
  }

  // ---------------------------------------------------------------- the redirect loop of RoR, Coar and LibraryOfCongress

  /** Where following redirects ends: a final status, an exception, or the fuel bound. */
  datatype Hops = Final(status: int) | Failed(error: string) | OutOfFuel

  /**
   * `response = requests.head(term)`, as the status and the `Location`
   * header (`None` when absent), or the request's exception.
   */
  type Head = string -> Outcome<(int, Option<string>)>

  /**
   * The redirect loop, with at most `fuel` requests: a status strictly
   * between 300 and 400 sends the next request to `Location`; a missing
   * `Location` makes that request fail.
   */
  function RedirectSpec(term: Option<string>, head: Head, fuel: nat): Hops
    decreases fuel
  {
    if fuel == 0 then OutOfFuel
    else
      match term
      case None => Failed("MissingSchema: Invalid URL 'None'")
      case Some(t) =>
        match head(t)
        case Raised(e) => Failed(e)
        case Returned((code, location)) =>
          if 300 < code < 400 then RedirectSpec(location, head, fuel - 1) else Final(code)
  }

  /** `while status_code > 300 and status_code < 400: …` from the initial status 350. */
  method FollowRedirects(term: string, head: Head, fuel: nat) returns (r: Hops)
    ensures r == RedirectSpec(Some(term), head, fuel)
  {
    var t: Option<string> := Some(term);
    var statusCode := 350;
    var left := fuel;
    while 300 < statusCode < 400
      invariant RedirectSpec(Some(term), head, fuel) ==
                  if 300 < statusCode < 400 then RedirectSpec(t, head, left) else Final(statusCode)
      decreases left
    {
      if left == 0 {
        return OutOfFuel;
      }
      if t.None? {
        return Failed("MissingSchema: Invalid URL 'None'");
      }
      var response := head(t.value);
      if response.Raised? {
        return Failed(response.error);
      }
      t := response.value.1;
      statusCode := response.value.0;
      left := left - 1;
    }
    r := Final(statusCode);
  }

  /** The loop only stops on a status that is not a redirect. */
  lemma {:induction false} RedirectEndsOutsideRange(term: Option<string>, head: Head, fuel: nat)
    ensures RedirectSpec(term, head, fuel).Final? ==> !(300 < RedirectSpec(term, head, fuel).status < 400)
    decreases fuel
  {
    if fuel > 0 && term.Some? && head(term.value).Returned? {
      var code := head(term.value).value.0;
      if 300 < code < 400 {
        RedirectEndsOutsideRange(head(term.value).value.1, head, fuel - 1);
      }
    }
  }

  /** More fuel changes nothing once the loop has ended within the bound. */
  lemma {:induction false} RedirectFuelSuffices(term: Option<string>, head: Head, fuel: nat, more: nat)
    requires fuel <= more && RedirectSpec(term, head, fuel) != OutOfFuel
    ensures RedirectSpec(term, head, more) == RedirectSpec(term, head, fuel)
    decreases fuel
  {
    if term.Some? && head(term.value).Returned? {
      var code := head(term.value).value.0;
      if 300 < code < 400 {
        RedirectFuelSuffices(head(term.value).value.1, head, fuel - 1, more - 1);
      }
    }
  }

  /** A verdict on one term: an answer, the `None` of a method that falls off its end, an exception, or the fuel bound. */
  datatype Verdict = Answer(ok: bool) | NoAnswer | Fails(error: string) | Undecided

  /**
   * `RoR.collect(term)` (and the identical COAR and Library of Congress
   * ones): false without a configured path or when the term is outside
   * it; otherwise true exactly when the redirects end on status 200.
   */
  function RedirectVerdict(cfg: Dict<string>, term: string, head: Head, fuel: nat): Verdict
  {
    var rp := GetOr(cfg, "remote_path", "");
    if rp == "" || !Contains(term, rp) then Answer(false)
    else
      match RedirectSpec(Some(term), head, fuel)
      case Final(code) => Answer(code == 200)
      case Failed(e) => Fails(e)
      case OutOfFuel => Undecided
  }

  method CollectRedirect(cfg: Dict<string>, term: string, head: Head, fuel: nat) returns (v: Verdict)
    ensures v == RedirectVerdict(cfg, term, head, fuel)
  {
    var rp := GetOr(cfg, "remote_path", "");
    if rp == "" || !Contains(term, rp) {
      return Answer(false);
    }
    var hops := FollowRedirects(term, head, fuel);
    match hops {
      case Final(code) => v := Answer(code == 200);
      case Failed(e) => v := Fails(e);
      case OutOfFuel => v := Undecided;
    }
  }

  /**
   * The verdict is true exactly when the path is configured, the term lies
   * under it and the final status is 200; a final status of 300 itself is
   * not followed and gives false.
   */
  lemma RedirectVerdictIff(cfg: Dict<string>, term: string, head: Head, fuel: nat)
    ensures RedirectVerdict(cfg, term, head, fuel) == Answer(true) <==>
              GetOr(cfg, "remote_path", "") != "" && Contains(term, GetOr(cfg, "remote_path", "")) &&
              RedirectSpec(Some(term), head, fuel) == Final(200)
    ensures (GetOr(cfg, "remote_path", "") != "" && Contains(term, GetOr(cfg, "remote_path", "")) &&
             fuel > 0 && head(term) == Returned((300, None))) ==> RedirectVerdict(cfg, term, head, fuel) == Answer(false)
  {
  }

  // ---------------------------------------------------------------- the SPARQL connectors

  /**
   * The endpoint's answer for a term: its status and, when the body could
   * be read, whether the term was found (Agrovoc's `boolean`, Getty's
   * `<boolean>true`, a non-empty `bindings` list for UNESCO and Wikidata).
   */
  datatype SparqlAnswer = SparqlAnswer(status: int, found: Outcome<bool>)

  /** The request to the endpoint for a term: its answer, or the exception no connector catches. */
  type Sparql = string -> Outcome<SparqlAnswer>

  /** A request exception fails the call; a status other than 200 is a negative answer; otherwise the body decides. */
  function AskVerdict(a: Outcome<SparqlAnswer>): Verdict
  {
    match a
    case Raised(e) => Fails(e)
    case Returned(answer) =>
      if answer.status != 200 then Answer(false)
      else
        match answer.found
        case Raised(e) => Fails(e)
        case Returned(b) => Answer(b)
  }

  /** `Agrovoc.collect(term)`: no `return` is reached without a path or outside it. */
  function AgrovocVerdict(cfg: Dict<string>, term: string, sparql: Sparql): (v: Verdict)
    ensures v == NoAnswer <==> GetOr(cfg, "remote_path", "") == "" || !Contains(term, GetOr(cfg, "remote_path", ""))
  {
    var rp := GetOr(cfg, "remote_path", "");
    if rp == "" then NoAnswer
    else if Contains(term, rp) then AskVerdict(sparql(term))
    else NoAnswer
  }

  /** The term Getty asks about: every `/page` removed. */
  function GettyTerm(term: string): string
  {
    if Contains(term, "/page") then Replace(term, "/page", "") else term
  }

  /** The term UNESCO asks about: every space and every no-break space removed. */
  function UnescoTerm(term: string): (r: string)
    ensures ' ' !in r && '\U{00A0}' !in r
    ensures |r| <= |term|
  {
    var noSpace := Replace(term, " ", "");
    ReplaceCharRemovesAll(term, ' ');
    ReplaceCharRemovesAll(noSpace, '\U{00A0}');
    ReplaceCharKeepsOthers(noSpace, '\U{00A0}', ' ');
    Replace(noSpace, "\U{00A0}", "")
  }

  /** Removing one character keeps every other character absent. */
  lemma {:induction false} ReplaceCharKeepsOthers(s: string, c: char, d: char)
    requires d !in s
    ensures d !in Replace(s, [c], "")
    decreases |s|
  {
    if |s| >= 1 {
      ReplaceCharKeepsOthers(s[1..], c, d);
      if s[..1] == [c] {
        assert Replace(s, [c], "") == Replace(s[1..], [c], "");
      } else {
        assert Replace(s, [c], "") == [s[0]] + Replace(s[1..], [c], "");
      }
    }
  }

  /** The term Wikidata asks about: `https` to `http`, then `/wiki/` to `/entity/`. */
  function WikidataTerm(term: string): string
  {
    Replace(Replace(term, "https", "http"), "/wiki/", "/entity/")
  }

  /**
   * Getty, UNESCO and Wikidata: false without a path or for a term outside
   * it (tested on the term as given), otherwise the endpoint's answer for
   * the rewritten term.
   */
  function RewriteVerdict(cfg: Dict<string>, term: string, rewrite: string -> string, sparql: Sparql): Verdict
  {
    var rp := GetOr(cfg, "remote_path", "");
    if rp == "" || !Contains(term, rp) then Answer(false)
    else AskVerdict(sparql(rewrite(term)))
  }

  /**
   * The namespace test reads the original term: a term inside the path is
   * looked up in its rewritten form even when that form has left the path.
   */
  lemma RewriteAfterCheck(cfg: Dict<string>, term: string, rewrite: string -> string, sparql: Sparql)
    requires GetOr(cfg, "remote_path", "") != "" && Contains(term, GetOr(cfg, "remote_path", ""))
    ensures RewriteVerdict(cfg, term, rewrite, sparql) == AskVerdict(sparql(rewrite(term)))
    ensures RewriteVerdict(cfg, term, rewrite, sparql) == Answer(true) <==>
              sparql(rewrite(term)) == Returned(SparqlAnswer(200, Returned(true)))
    ensures sparql(rewrite(term)).Raised? ==> RewriteVerdict(cfg, term, rewrite, sparql) == Fails(sparql(rewrite(term)).error)
  {
  }

  /** A term without `/page` is asked about unchanged by Getty; UNESCO's term never holds a space. */
  lemma RewritesLeaveCleanTerms(term: string)
    ensures !Contains(term, "/page") ==> GettyTerm(term) == term
    ensures !Contains(term, " ") && !Contains(term, "\U{00A0}") ==> UnescoTerm(term) == term
  {
    if !Contains(term, " ") && !Contains(term, "\U{00A0}") {
      ReplaceNoOccurrence(term, " ", "");
      ReplaceNoOccurrence(term, "\U{00A0}", "");
    }
  }

  // ---------------------------------------------------------------- ORCID and PIC

  /**
   * `ORCID.collect(term)`: with a path configured and a well-formed ORCID
   * (`check_orcid`), the HEAD request to the public API decides (status
   * 200), a request exception gives false; everything else gives false.
   */
  function OrcidVerdict(cfg: Dict<string>, term: string, checkOrcid: string -> bool, head: string -> Option<int>): (v: Verdict)
    ensures v.Answer?
    ensures v.ok <==> GetOr(cfg, "remote_path", "") != "" && checkOrcid(term) &&
                      head("https://pub.orcid.org/v3.0/" + term) == Some(200)
  {
    if GetOr(cfg, "remote_path", "") == "" || !checkOrcid(term) then Answer(false)
    else
      match head("https://pub.orcid.org/v3.0/" + term)
      case None => Answer(false)
      case Some(code) => Answer(code == 200)
  }

  /**
   * `PIC.collect(term)`: the HEAD request goes to the configured path, not
   * to the PIC number extracted from the term; the PIC exists unless the
   * `Location` header mentions `search`. `head` gives the header (`None`
   * when absent) or `None` on a request exception.
   */
  function PicVerdict(cfg: Dict<string>, term: string, head: string -> Option<Option<string>>): Verdict
  {
    var rp := GetOr(cfg, "remote_path", "");
    if rp == "" then Answer(false)
    else
      var picNumber := if AllDigits(term) && |term| == 9 then term else LastField(term, '/');
      match head(rp)
      case None => Answer(false)
      case Some(location) =>
        var loc := match location case None => "" case Some(l) => l;
        Answer(!Contains(loc, "search"))
  }

  /** The PIC verdict is the same for every term. */
  lemma PicIgnoresTerm(cfg: Dict<string>, t1: string, t2: string, head: string -> Option<Option<string>>)
    ensures PicVerdict(cfg, t1, head) == PicVerdict(cfg, t2, head)
    ensures PicVerdict(cfg, t1, head).Answer?
  {
  }

  // ---------------------------------------------------------------- the Vocabulary facade

  /** The parameters of each connector's `collect`, after `self`; `RoR` is the second of its two definitions. */
  function CollectParameters(c: Registry): seq<string>
  {
    match c
    case IanaMediaTypes => []
    case FairSharing => ["search_topic"]
    case GeoNames => ["search_topic"]
    case _ => ["term"]
  }

  /** The keyword each `get_*` method of the facade passes to `collect`. */
  function FacadeKeyword(c: Registry): Option<string>
  {
    match c
    case IanaMediaTypes => None
    case FairSharing => Some("search_topic")
    case GeoNames => Some("search_topic")
    case RoR => Some("uri")
    case _ => Some("term")
  }

  /** Binding the facade's call to `collect`: an unknown keyword raises `TypeError`. */
  function FacadeBinds(c: Registry): Outcome<()>
  {
    match FacadeKeyword(c)
    case None => Returned(())
    case Some(k) =>
      if k in CollectParameters(c) then Returned(())
      else Raised("TypeError: collect() got an unexpected keyword argument '" + k + "'")
  }

  /** Every facade getter reaches its connector except `get_ror`, which always raises. */
  lemma OnlyRorFailsToBind(c: Registry)
    ensures FacadeBinds(c).Raised? <==> c == RoR
  {
    if c == RoR {
      assert "uri"[0] != "term"[0];
      assert "uri" !in CollectParameters(c);
    }
  }
}
