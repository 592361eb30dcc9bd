/**
 * One run of the Hostinger dynamic-DNS updater: fetch the public IPv4
 * address, compare it with the last published one kept in the last-IP
 * file, publish a new "A" record when it changed, and remember it only
 * when the provider accepted it.
 *
 * The network, the provider's SDK and the success of each file operation
 * are inputs (`Fetch`, `ApiOutcome`, `World`). The persisted artifacts, the
 * last-IP file and the log, are the fields of class `Host`, which the
 * methods update step by step; the pure functions beside them say what
 * one step, or one whole run, computes.
 */
module HostingerDdns {
  import opened Wrappers
  import opened PyStr

  /** API_TOKEN, DOMAIN, SUBDOMAIN and TTL, read once when the script starts. */
  datatype Config = Config(apiToken: string, domain: string, subdomain: string, ttl: int)

  /** What the GET to the IP-echo service produced. */
  datatype Fetch =
    | Received(text: string)      // a response `raise_for_status` let through, and its decoded body
    | RequestFailed               // `requests.RequestException`, including the HTTPError of `raise_for_status`
    | UnexpectedFailure           // any other exception

  /** What happens inside `update_dns_record` once the token is accepted. */
  datatype ApiOutcome =
    | Returned(emptySuccess: bool)   // the SDK call returned; whether it returned a CommonSuccessEmptyResource
    | ApiException(status: int)      // the SDK raised `ApiException` with this HTTP status
    | CallFailed                     // the SDK call, or logging its unexpected response, raised anything else
    | BuildFailed                    // building the request models raised
    | ClientFailed                   // configuring the API client raised

  /** Everything outside the script that one run observes. */
  datatype World = World(
    fetch: Fetch,
    lastIpReadable: bool,   // reading the last-IP file succeeds, if it exists
    api: ApiOutcome,
    removeSucceeds: bool,   // `os.remove` of the last-IP file succeeds
    saveSucceeds: bool)     // writing the last-IP file succeeds

  /** The messages `log_message` appends, without timestamps or free text. */
  datatype LogLine =
    | ScriptStarted
    | InvalidIpFormat(ip: string)
    | IpRequestError
    | IpUnexpectedError
    | LastIpReadWarning
    | LastIpWriteError
    | TokenInvalid
    | RequestBuildError
    | SendingUpdate(ip: string)
    | UpdateAccepted(ip: string)
    | UnexpectedResponse
    | ApiReturnedError(status: int)
    | AuthenticationFailed
    | ValidationFailed
    | ServerFailed
    | ApiCallError
    | Traceback
    | UpdateRecordError
    | NoIpExit
    | NoChange
    | IpChanged(current: string, last: Option<string>)
    | UpdateSucceeded
    | UpdateFailed

  // ---------------------------------------------------------------------
  // IP resolver
  // ---------------------------------------------------------------------

  /** The shape check of `get_current_ip`: the stripped body is accepted when
      it is non-empty and splits on '.' into exactly four parts, which is the
      case exactly when it holds three dots ("..." included). */
  function ParseIpBody(text: string): (ip: Option<string>)
    ensures ip.Some? <==> multiset(Strip(text))['.'] == 3
    ensures ip.Some? ==> ip.value == Strip(text) && ip.value != [] && NoEdgeSpace(ip.value)
  {
    var candidate := Strip(text);
    if candidate != [] && |Split(candidate, '.')| == 4 then Some(candidate) else None
  }

  /** The value `get_current_ip` returns. */
  function CurrentIp(fetch: Fetch): (ip: Option<string>)
    ensures ip.Some? ==> fetch.Received? && ip.value == Strip(fetch.text) && multiset(ip.value)['.'] == 3
    ensures fetch.Received? && multiset(Strip(fetch.text))['.'] == 3 ==> ip == Some(Strip(fetch.text))
  {
    match fetch
    case Received(text) => ParseIpBody(text)
    case _ => None
  }

  /** The lines `get_current_ip` logs: none on success, exactly one otherwise. */
  function FetchLog(fetch: Fetch): (lines: seq<LogLine>)
    ensures lines == [] <==> CurrentIp(fetch).Some?
    ensures |lines| <= 1
  {
    match fetch
    case Received(text) => if ParseIpBody(text).Some? then [] else [InvalidIpFormat(Strip(text))]
    case RequestFailed => [IpRequestError]
    case UnexpectedFailure => [IpUnexpectedError]
  }

  // ---------------------------------------------------------------------
  // State store
  // ---------------------------------------------------------------------

  /** What `get_last_ip` returns for the raw contents of the last-IP file
      (None when the file is missing): the stripped text as read in text
      mode, or None when the file is missing or cannot be read. */
  function ReadLastIp(file: Option<string>, readable: bool): (last: Option<string>)
    ensures last.Some? <==> file.Some? && readable
    ensures last.Some? ==> NoEdgeSpace(last.value) && '\r' !in last.value
  {
    if file.Some? && readable then Some(Strip(UniversalNewlines(file.value))) else None
  }

  /** The lines `get_last_ip` logs. */
  function ReadLog(file: Option<string>, readable: bool): (lines: seq<LogLine>)
    ensures lines != [] <==> file.Some? && !readable
    ensures lines != [] ==> lines == [LastIpReadWarning]
  {
    if file.Some? && !readable then [LastIpReadWarning] else []
  }

  /** Saving an IP that has no surrounding whitespace and no carriage return,
      then reading it back, gives the same IP. */
  lemma SaveThenRead(ip: string)
    requires NoEdgeSpace(ip) && '\r' !in ip
    ensures ReadLastIp(Some(ip), true) == Some(ip)
  {
    UniversalNewlinesKeepsPlainText(ip);
    StripKeepsTrimmed(ip);
  }

  /** A last-IP file holding an IP followed by any whitespace, such as a
      hand-written `"1.2.3.4\n"` or `"1.2.3.4\r\n"`, reads as that IP. */
  lemma ReadIgnoresTrailingWhitespace(ip: string, t: string)
    requires NoEdgeSpace(ip) && '\r' !in ip && AllSpace(t)
    ensures ReadLastIp(Some(ip + t), true) == Some(ip)
  {
    UniversalNewlinesPlainPrefix(ip, t);
    UniversalNewlinesKeepsBlank(t);
    StripTrailingSpace(ip, UniversalNewlines(t));
  }

  /** Every address the resolver accepts without a carriage return in it
      survives a save and a read unchanged. */
  lemma ResolvedIpRoundTrips(fetch: Fetch)
    requires CurrentIp(fetch).Some? && '\r' !in CurrentIp(fetch).value
    ensures ReadLastIp(Some(CurrentIp(fetch).value), true) == CurrentIp(fetch)
  {
    SaveThenRead(CurrentIp(fetch).value);
  }

  // ---------------------------------------------------------------------
  // DNS publisher
  // ---------------------------------------------------------------------

  /** The SDK's DNSV1ZoneUpdateRequestZoneInnerRecordsInner. */
  datatype ZoneRecord = ZoneRecord(content: string)
  /** The SDK's DNSV1ZoneUpdateRequestZoneInner. */
  datatype ZoneEntry = ZoneEntry(name: string, recordType: string, ttl: int, records: seq<ZoneRecord>)
  /** The SDK's DNSV1ZoneUpdateRequest. */
  datatype ZoneUpdateRequest = ZoneUpdateRequest(overwrite: bool, zone: seq<ZoneEntry>)

  /** One "A" record: the name it is for, its TTL and its address. */
  datatype ARecord = ARecord(name: string, ttl: int, address: string)

  /** The record a request replaces, if it is an overwriting request for a
      single A record with a single value. */
  function ReplacedRecord(req: ZoneUpdateRequest): Option<ARecord> {
    if req.overwrite && |req.zone| == 1 && req.zone[0].recordType == "A" && |req.zone[0].records| == 1
    then Some(ARecord(req.zone[0].name, req.zone[0].ttl, req.zone[0].records[0].content))
    else None
  }

  /** The request `update_dns_record` sends: it overwrites the subdomain's
      A records with the single value `ip`. */
  function BuildRequest(subdomain: string, ttl: int, ip: string): (req: ZoneUpdateRequest)
    ensures ReplacedRecord(req) == Some(ARecord(subdomain, ttl, ip))
  {
    ZoneUpdateRequest(true, [ZoneEntry(subdomain, "A", ttl, [ZoneRecord(ip)])])
  }

  /** A request that replaces a single A record is the one `BuildRequest`
      makes for that record. */
  lemma BuildRequestIsOnlyShape(req: ZoneUpdateRequest)
    requires ReplacedRecord(req).Some?
    ensures var a := ReplacedRecord(req).value; req == BuildRequest(a.name, a.ttl, a.address)
  {
    var e := req.zone[0];
    assert e.records == [e.records[0]];
    assert e == ZoneEntry(e.name, "A", e.ttl, [ZoneRecord(e.records[0].content)]);
    assert req.zone == [e];
  }

  /** The token test of `update_dns_record`: missing or shorter than 20 characters. */
  predicate TokenRejected(token: string): (r: bool)
    ensures r <==> |token| < 20   // a missing token is the empty string, which is also too short
  {
    token == [] || |token| < 20
  }

  /** The provider turned the credential down, so the cached IP is cleared. */
  predicate AuthRejected(config: Config, api: ApiOutcome) {
    !TokenRejected(config.apiToken) && api.ApiException? && (api.status == 401 || api.status == 403)
  }

  /** The lines the `except ApiException` branch logs for a status. */
  function ApiErrorLog(status: int): (lines: seq<LogLine>)
    ensures |lines| >= 1 && lines[0] == ApiReturnedError(status)
    ensures AuthenticationFailed in lines <==> status == 401 || status == 403
    ensures ValidationFailed in lines <==> status == 422
    ensures ServerFailed in lines <==> status == 500
  {
    [ApiReturnedError(status)] +
    (if status == 401 || status == 403 then [AuthenticationFailed]
     else if status == 422 then [ValidationFailed]
     else if status == 500 then [ServerFailed]
     else [])
  }

  /** What one call of `update_dns_record` did. */
  datatype PublishResult = PublishResult(
    ok: bool,                          // its return value
    sent: Option<ZoneUpdateRequest>,   // the request handed to the SDK, if any
    lastIpFile: Option<string>,        // the last-IP file afterwards
    log: seq<LogLine>)

  /** `update_dns_record(ip)` against the last-IP file `file`. */
  function Publish(config: Config, ip: string, api: ApiOutcome, removeSucceeds: bool, file: Option<string>): (p: PublishResult)
    ensures p.ok <==> !TokenRejected(config.apiToken) && api.Returned?
    ensures TokenRejected(config.apiToken) ==> p.sent == None && p.lastIpFile == file && p.log == [TokenInvalid]
    ensures p.sent.Some? <==> !TokenRejected(config.apiToken) && (api.Returned? || api.ApiException? || api.CallFailed?)
    ensures p.sent.Some? ==>
      && p.sent.value == BuildRequest(config.subdomain, config.ttl, ip)
      && |p.log| >= 1 && p.log[0] == SendingUpdate(ip)
    ensures p.ok ==> p.log == [SendingUpdate(ip), if api.emptySuccess then UpdateAccepted(ip) else UnexpectedResponse]
    ensures !AuthRejected(config, api) ==> p.lastIpFile == file
    ensures AuthRejected(config, api) ==> p.lastIpFile == (if removeSucceeds then None else file)
  {
    if TokenRejected(config.apiToken) then
      PublishResult(false, None, file, [TokenInvalid])
    else
      match api
      case ClientFailed => PublishResult(false, None, file, [UpdateRecordError])
      case BuildFailed => PublishResult(false, None, file, [RequestBuildError])
      case Returned(emptySuccess) =>
        var req := BuildRequest(config.subdomain, config.ttl, ip);
        PublishResult(true, Some(req), file,
          [SendingUpdate(ip), if emptySuccess then UpdateAccepted(ip) else UnexpectedResponse])
      case ApiException(status) =>
        var req := BuildRequest(config.subdomain, config.ttl, ip);
        var after := if (status == 401 || status == 403) && removeSucceeds then None else file;
        PublishResult(false, Some(req), after, [SendingUpdate(ip)] + ApiErrorLog(status))
      case CallFailed =>
        var req := BuildRequest(config.subdomain, config.ttl, ip);
        PublishResult(false, Some(req), file, [SendingUpdate(ip), ApiCallError, Traceback])
  }

  /** The authentication-failure line is logged exactly when the provider
      turned the credential down with 401 or 403, and only then is the
      last-IP file cleared. */
  lemma AuthFailureLoggedExactlyWhenRejected(config: Config, ip: string, api: ApiOutcome, removeSucceeds: bool, file: Option<string>)
    ensures var p := Publish(config, ip, api, removeSucceeds, file);
      (AuthenticationFailed in p.log <==> AuthRejected(config, api))
      && (p.lastIpFile != file ==> AuthRejected(config, api))
  {
    var p := Publish(config, ip, api, removeSucceeds, file);
    if !TokenRejected(config.apiToken) && api.ApiException? {
      assert p.log == [SendingUpdate(ip)] + ApiErrorLog(api.status);
    }
  }

  // ---------------------------------------------------------------------
  // One run of the script
  // ---------------------------------------------------------------------

  /** What one run of the script did. */
  datatype RunResult = RunResult(
    exitCode: int,
    attempted: bool,                   // `update_dns_record` was called
    sent: Option<ZoneUpdateRequest>,   // the request handed to the SDK, if any
    lastIpFile: Option<string>,        // the last-IP file afterwards
    log: seq<LogLine>)

  /** The `__main__` block run against the last-IP file `file`. */
  function RunScript(config: Config, world: World, file: Option<string>): (r: RunResult)
    ensures r.exitCode == 0 || r.exitCode == 1
    // Fetch failure: exit 1, nothing read, written or published.
    ensures CurrentIp(world.fetch).None? ==>
      r == RunResult(1, false, None, file, [ScriptStarted] + FetchLog(world.fetch) + [NoIpExit])
    // `update_dns_record` is called exactly when the resolved IP differs from the stored one.
    ensures r.attempted <==>
      CurrentIp(world.fetch).Some? && ReadLastIp(file, world.lastIpReadable) != CurrentIp(world.fetch)
    ensures !r.attempted ==> r.sent == None && r.lastIpFile == file
    // A request reaches the SDK exactly when the token passes and the client
    // and the request models were built; it is the one `BuildRequest` makes.
    ensures r.sent.Some? <==>
      r.attempted && !TokenRejected(config.apiToken)
      && (world.api.Returned? || world.api.ApiException? || world.api.CallFailed?)
    ensures r.sent.Some? ==>
      r.sent.value == BuildRequest(config.subdomain, config.ttl, CurrentIp(world.fetch).value)
    // Exit 0 exactly on "no change" and on an accepted update.
    ensures r.exitCode == 0 <==>
      CurrentIp(world.fetch).Some? && (!r.attempted || (!TokenRejected(config.apiToken) && world.api.Returned?))
    // A changed file holds exactly the current IP after an accepted update,
    // or is gone after an authentication failure.
    ensures r.lastIpFile != file ==>
      && r.attempted
      && (|| (r.exitCode == 0 && world.saveSucceeds && r.lastIpFile == CurrentIp(world.fetch))
          || (r.exitCode == 1 && AuthRejected(config, world.api) && r.lastIpFile == None))
    ensures r.attempted && r.exitCode == 0 ==>
      r.lastIpFile == (if world.saveSucceeds then CurrentIp(world.fetch) else file)
    ensures r.attempted && r.exitCode == 1 && !AuthRejected(config, world.api) ==> r.lastIpFile == file
    ensures r.attempted && AuthRejected(config, world.api) ==>
      r.lastIpFile == (if world.removeSucceeds then None else file)
  {
    var current := CurrentIp(world.fetch);
    var start := [ScriptStarted] + FetchLog(world.fetch);
    if current.None? then
      RunResult(1, false, None, file, start + [NoIpExit])
    else
      var ip := current.value;
      var last := ReadLastIp(file, world.lastIpReadable);
      var read := start + ReadLog(file, world.lastIpReadable);
      if current == last then
        RunResult(0, false, None, file, read + [NoChange])
      else
        var p := Publish(config, ip, world.api, world.removeSucceeds, file);
        var changed := read + [IpChanged(ip, last)] + p.log;
        if p.ok then
          var saved := if world.saveSucceeds then Some(ip) else p.lastIpFile;
          var saveLog := if world.saveSucceeds then [] else [LastIpWriteError];
          RunResult(0, true, p.sent, saved, changed + saveLog + [UpdateSucceeded])
        else
          RunResult(1, true, p.sent, p.lastIpFile, changed + [UpdateFailed])
  }

  /** A run whose fetch fails depends on nothing else: not on the last-IP
      file's readability, the provider, the file operations or the token. */
  lemma FetchFailureIgnoresEverythingElse(c1: Config, c2: Config, w1: World, w2: World, file: Option<string>)
    requires w1.fetch == w2.fetch && CurrentIp(w1.fetch).None?
    ensures RunScript(c1, w1, file) == RunScript(c2, w2, file)
  {
  }

  /** A missing or unreadable last-IP file never matches a resolved IP, so the
      run goes on to call `update_dns_record`. */
  lemma UnknownLastIpForcesUpdate(config: Config, world: World, file: Option<string>)
    requires CurrentIp(world.fetch).Some? && (file.None? || !world.lastIpReadable)
    ensures RunScript(config, world, file).attempted
  {
  }

  /** A file holding only whitespace reads as the empty string, which is never
      a resolved IP, so the run goes on to call `update_dns_record`. */
  lemma BlankLastIpForcesUpdate(config: Config, world: World, blank: string)
    requires CurrentIp(world.fetch).Some? && AllSpace(blank) && world.lastIpReadable
    ensures RunScript(config, world, Some(blank)).attempted
  {
    UniversalNewlinesKeepsBlank(blank);
  }

  /** A successful run leaves a file from which the next run reads the same
      IP and therefore does not call `update_dns_record`. */
  lemma SecondRunIsNoChange(config: Config, w1: World, w2: World, file: Option<string>)
    requires RunScript(config, w1, file).attempted && RunScript(config, w1, file).exitCode == 0
    requires w1.saveSucceeds && w2.lastIpReadable && w2.fetch == w1.fetch
    requires '\r' !in CurrentIp(w1.fetch).value
    ensures var r2 := RunScript(config, w2, RunScript(config, w1, file).lastIpFile);
      r2.exitCode == 0 && !r2.attempted && r2.sent == None
  {
    ResolvedIpRoundTrips(w1.fetch);
  }

  lemma AppendAssoc<T>(a: seq<T>, b: seq<T>, c: seq<T>)
    ensures a + b + c == a + (b + c)
  {
  }

  // ---------------------------------------------------------------------
  // The host the script runs on
  // ---------------------------------------------------------------------

  /** The two files the script owns. */
  class Host {
    /** The raw contents of LAST_IP_FILE; None when the file does not exist. */
    var lastIpFile: Option<string>
    /** The lines appended to LOG_FILE, oldest first. */
    var log: seq<LogLine>

    constructor (lastIpFile: Option<string>, log: seq<LogLine>)
      ensures this.lastIpFile == lastIpFile && this.log == log
    {
      this.lastIpFile := lastIpFile;
      this.log := log;
    }

    /** `log_message`: appends one line. */
    method LogMessage(line: LogLine)
      modifies this`log
      ensures log == old(log) + [line]
    {
      log := log + [line];
    }

    /** `get_current_ip`, with the echo service's answer as an input. */
    method GetCurrentIp(fetch: Fetch) returns (ip: Option<string>)
      modifies this`log
      ensures ip == CurrentIp(fetch)
      ensures log == old(log) + FetchLog(fetch)
    {
      match fetch {
        case Received(text) =>
          ip := ParseIpBody(text);
          if ip.None? {
            LogMessage(InvalidIpFormat(Strip(text)));
          }
        case RequestFailed =>
          LogMessage(IpRequestError);
          ip := None;
        case UnexpectedFailure =>
          LogMessage(IpUnexpectedError);
          ip := None;
      }
    }

    /** `get_last_ip`. */
    method GetLastIp(readable: bool) returns (last: Option<string>)
      modifies this`log
      ensures last == ReadLastIp(lastIpFile, readable)
      ensures log == old(log) + ReadLog(lastIpFile, readable)
    {
      last := None;
      if lastIpFile.Some? {
        if readable {
          last := Some(Strip(UniversalNewlines(lastIpFile.value)));
        } else {
          LogMessage(LastIpReadWarning);
        }
      }
    }

    /** `save_last_ip`: overwrites the file with the bare IP, or leaves it
        as it was when the write fails. */
    method SaveLastIp(ip: string, succeeds: bool)
      modifies this
      ensures lastIpFile == (if succeeds then Some(ip) else old(lastIpFile))
      ensures log == old(log) + (if succeeds then [] else [LastIpWriteError])
    {
      if succeeds {
        lastIpFile := Some(ip);
      } else {
        LogMessage(LastIpWriteError);
      }
    }

    /** The `os.remove` of the 401/403 branch; a failure is ignored. */
    method RemoveLastIp(succeeds: bool)
      modifies this`lastIpFile
      ensures lastIpFile == (if succeeds then None else old(lastIpFile))
    {
      if lastIpFile.Some? && succeeds {
        lastIpFile := None;
      }
    }

    /** `update_dns_record(ip)`, with the SDK's behaviour as an input. */
    method UpdateDnsRecord(config: Config, ip: string, api: ApiOutcome, removeSucceeds: bool)
      returns (ok: bool, sent: Option<ZoneUpdateRequest>)
      modifies this
      ensures var p := Publish(config, ip, api, removeSucceeds, old(lastIpFile));
        ok == p.ok && sent == p.sent && lastIpFile == p.lastIpFile && log == old(log) + p.log
    {
      sent := None;
      if TokenRejected(config.apiToken) {
        LogMessage(TokenInvalid);
        return false, None;
      }
      if api.ClientFailed? {
        LogMessage(UpdateRecordError);
        return false, None;
      }
      if api.BuildFailed? {
        LogMessage(RequestBuildError);
        return false, None;
      }
      var request := BuildRequest(config.subdomain, config.ttl, ip);
      LogMessage(SendingUpdate(ip));
      sent := Some(request);
      match api {
        case Returned(emptySuccess) =>
          if emptySuccess {
            LogMessage(UpdateAccepted(ip));
          } else {
            LogMessage(UnexpectedResponse);
          }
          ok := true;
        case ApiException(status) =>
          ghost var before := log;
          LogMessage(ApiReturnedError(status));
          if status == 401 || status == 403 {
            LogMessage(AuthenticationFailed);
            RemoveLastIp(removeSucceeds);
          } else if status == 422 {
            LogMessage(ValidationFailed);
          } else if status == 500 {
            LogMessage(ServerFailed);
          }
          assert log == before + ApiErrorLog(status);
          ok := false;
        case CallFailed =>
          LogMessage(ApiCallError);
          LogMessage(Traceback);
          ok := false;
      }
    }

    /** The `__main__` block: the exit code, whether `update_dns_record` was
        called and the request it sent; the files change as `RunScript` says. */
    method Run(config: Config, world: World) returns (exitCode: int, attempted: bool, sent: Option<ZoneUpdateRequest>)
      modifies this
      ensures var r := RunScript(config, world, old(lastIpFile));
        exitCode == r.exitCode && attempted == r.attempted && sent == r.sent
        && lastIpFile == r.lastIpFile && log == old(log) + r.log
    {
      ghost var file := lastIpFile;
      ghost var r := RunScript(config, world, file);
      LogMessage(ScriptStarted);
      var current := GetCurrentIp(world.fetch);
      ghost var written := [ScriptStarted] + FetchLog(world.fetch);
      AppendAssoc(old(log), [ScriptStarted], FetchLog(world.fetch));
      if current.None? {
        LogMessage(NoIpExit);
        assert r == RunResult(1, false, None, file, written + [NoIpExit]);
        AppendAssoc(old(log), written, [NoIpExit]);
        return 1, false, None;
      }
      var last := GetLastIp(world.lastIpReadable);
      AppendAssoc(old(log), written, ReadLog(file, world.lastIpReadable));
      written := written + ReadLog(file, world.lastIpReadable);
      if current == last {
        LogMessage(NoChange);
        assert r == RunResult(0, false, None, file, written + [NoChange]);
        AppendAssoc(old(log), written, [NoChange]);
        return 0, false, None;
      }
      LogMessage(IpChanged(current.value, last));
      AppendAssoc(old(log), written, [IpChanged(current.value, last)]);
      written := written + [IpChanged(current.value, last)];
      var ok;
      attempted := true;
      ghost var p := Publish(config, current.value, world.api, world.removeSucceeds, file);
      ok, sent := UpdateDnsRecord(config, current.value, world.api, world.removeSucceeds);
      AppendAssoc(old(log), written, p.log);
      written := written + p.log;
      if ok {
        ghost var saveLog: seq<LogLine> := if world.saveSucceeds then [] else [LastIpWriteError];
        SaveLastIp(current.value, world.saveSucceeds);
        AppendAssoc(old(log), written, saveLog);
        written := written + saveLog;
        LogMessage(UpdateSucceeded);
        assert r == RunResult(0, true, p.sent, lastIpFile, written + [UpdateSucceeded]);
        AppendAssoc(old(log), written, [UpdateSucceeded]);
        exitCode := 0;
      } else {
        LogMessage(UpdateFailed);
        assert r == RunResult(1, true, p.sent, p.lastIpFile, written + [UpdateFailed]);
        AppendAssoc(old(log), written, [UpdateFailed]);
        exitCode := 1;
      }
    }
  }

  // ---------------------------------------------------------------------
  // Further properties of the shape check and of a run
  // ---------------------------------------------------------------------

  /** The shape check drops any whitespace around an address. */
  lemma ParseIpBodySurrounded(before: string, ip: string, after: string)
    requires AllSpace(before) && AllSpace(after) && NoEdgeSpace(ip) && multiset(ip)['.'] == 3
    ensures ParseIpBody(before + ip + after) == Some(ip)
  {
    StripSurrounded(before, ip, after);
  }

  /** Three dots and nothing else pass the shape check. */
  lemma ParseIpBodyAcceptsBareDots()
    ensures ParseIpBody("...") == Some("...")
  {
    StripKeepsTrimmed("...");
  }

  /** A body of whitespace only fails the shape check. */
  lemma ParseIpBodyRejectsBlank(blank: string)
    requires AllSpace(blank)
    ensures ParseIpBody(blank) == None
  {
    assert blank == blank + [] + [];
    StripSurrounded(blank, [], []);
  }

  /** An address with an interior carriage return, such as "1\r.2.3.4",
      passes the shape check (`ParseIpBodySurrounded`), but the last-IP file
      never reads back as it, so it is published again on every run. */
  lemma CarriageReturnNeverRoundTrips(ip: string)
    requires '\r' in ip
    ensures ReadLastIp(Some(ip), true) != Some(ip)
  {
  }

  /** A run that finds a new IP and whose update the provider accepts with
      the expected response logs both the ACTION line and the SUCCESS line
      for that IP. */
  lemma AcceptedUpdateLogs(config: Config, world: World, file: Option<string>)
    requires CurrentIp(world.fetch).Some? && ReadLastIp(file, world.lastIpReadable) != CurrentIp(world.fetch)
    requires !TokenRejected(config.apiToken) && world.api == Returned(true)
    ensures var r := RunScript(config, world, file); var ip := CurrentIp(world.fetch).value;
      SendingUpdate(ip) in r.log && UpdateAccepted(ip) in r.log
  {
    var ip := CurrentIp(world.fetch).value;
    var last := ReadLastIp(file, world.lastIpReadable);
    var p := Publish(config, ip, world.api, world.removeSucceeds, file);
    assert p.ok && p.log == [SendingUpdate(ip), UpdateAccepted(ip)];
    var read := [ScriptStarted] + FetchLog(world.fetch) + ReadLog(file, world.lastIpReadable);
    var changed := read + [IpChanged(ip, last)] + p.log;
    var saveLog := if world.saveSucceeds then [] else [LastIpWriteError];
    assert RunScript(config, world, file).log == changed + saveLog + [UpdateSucceeded];
    assert SendingUpdate(ip) in changed && UpdateAccepted(ip) in changed;
  }

  /** An empty credential: no request is sent, the exit code is 1 and the
      file is unchanged. */
  lemma EmptyTokenScenario(config: Config, world: World, file: Option<string>)
    requires config.apiToken == [] && CurrentIp(world.fetch).Some? && ReadLastIp(file, world.lastIpReadable) != CurrentIp(world.fetch)
    ensures var r := RunScript(config, world, file);
      r.exitCode == 1 && r.attempted && r.sent == None && r.lastIpFile == file
  {
  }
}
