# Hostinger dynamic-DNS updater, modelled in Dafny

`hostinger_ddns.py` is a script the scheduler runs periodically. Each run does four things:

- It asks an IP-echo service (ifconfig.me) for the host's public IPv4 address.
- It compares that address with the one stored in the last-IP file.
- When the two differ, it asks Hostinger's DNS API to overwrite the subdomain's "A" record with the new address.
- It stores the new address only after the provider accepted it.

The model treats each run as one step over the script's two persisted artifacts: the last-IP file, which may be missing, and the log. Everything the run observes from outside is an input value.

- `Wrappers` holds `Option`, which models Python's `None`-or-value results.
- `PyStr` holds the Python string behaviour the script depends on:
  - `str.strip()` over Python's full `str.isspace` set (`Strip`);
  - `str.split('.')` (`Split`, with its inverse `Join`);
  - the universal-newline translation applied when the last-IP file is read in text mode (`UniversalNewlines`).
- `HostingerDdns` holds the script itself:
  - the input datatypes `Config`, `Fetch`, `ApiOutcome` and `World`;
  - the log tags `LogLine`;
  - the request datatypes `ZoneUpdateRequest`, `ZoneEntry` and `ZoneRecord`, which mirror the SDK's models;
  - pure functions stating what each part computes: `ParseIpBody`, `CurrentIp`, `ReadLastIp`, `BuildRequest`, `Publish` and `RunScript`;
  - class `Host`, whose fields `lastIpFile: Option<string>` and `log: seq<LogLine>` carry the persisted state. Its methods (`GetCurrentIp`, `GetLastIp`, `SaveLastIp`, `RemoveLastIp`, `UpdateDnsRecord`, `Run`) follow the script step by step and are proved equal to those functions.

The inputs are:

- `Fetch`: the echo service's answer.
  - `Received(body)`: a response that `raise_for_status` let through, with this body.
  - `RequestFailed`: a `requests.RequestException`, including the HTTPError raised by `raise_for_status`.
  - `UnexpectedFailure`: any other exception.
- `ApiOutcome`: what the SDK did once the token passed.
  - `Returned(emptySuccess)`: the call returned, and `emptySuccess` says whether the value was a `CommonSuccessEmptyResource`.
  - `ApiException(status)`: the SDK raised `ApiException` with this status.
  - `CallFailed`: any other exception raised by the call, or by formatting the unexpected-response warning that follows it.
  - `BuildFailed`: building the request models raised.
  - `ClientFailed`: configuring the client raised.
- `World`: whether reading, removing and writing the last-IP file succeed.
- `Config`: the configuration, taken as an immutable value.

Two behaviours of the script are easy to miss:

- The script's comment calls its check "Basic IPv4 validation" (hostinger_ddns.py:60). The code only counts the parts produced by splitting on `.`, so `"a.b.c.d"` and `"..."` are accepted, as `ParseIpBodySurrounded` and `ParseIpBodyAcceptsBareDots` show.
- `get_last_ip` opens the file in text mode (hostinger_ddns.py:78-79), and that reads every `\r\n` and every lone `\r` as `\n`. A hand-written file such as `"1.2.3.4\r\n"` therefore still reads as `"1.2.3.4"` (`ReadIgnoresTrailingWhitespace`). But an accepted address with an interior carriage return, such as `"1\r.2.3.4"`, never reads back as itself (`CarriageReturnNeverRoundTrips`). Such an address is published again on every run. The save-then-read round trip is proved for every address without a `\r` (`SaveThenRead`, `ResolvedIpRoundTrips`).

## Model

| member | source | states |
|---|---|---|
| PyStr.Strip | hostinger_ddns.py:59 | the result has no whitespace at either end and contains only characters of the input |
| PyStr.StripRemovesOnlyEdgeSpace | hostinger_ddns.py:59 | `strip()` removes only whitespace, and only at the front and the back |
| PyStr.StripSurrounded | hostinger_ddns.py:59 | conversely: surrounding a text that has no edge whitespace with any whitespace, then stripping, gives that text back |
| PyStr.StripIdempotent | hostinger_ddns.py:79 | stripping twice is the same as stripping once |
| PyStr.Split | hostinger_ddns.py:61 | `split('.')` yields one more piece than there are dots; no piece contains a dot; joining the pieces with '.' gives the input back |
| PyStr.SplitUnique | hostinger_ddns.py:61 | any list of dot-free pieces that joins to the text is exactly what `split` returns |
| PyStr.UniversalNewlines | hostinger_ddns.py:78-79 | text read in text mode never contains '\r' and is no longer than the raw contents |
| PyStr.UniversalNewlinesTranslatesCrLf | hostinger_ddns.py:78-79 | a `\r\n` pair is read as a single `\n` |
| PyStr.UniversalNewlinesTranslatesLoneCr | hostinger_ddns.py:78-79 | a `\r` not followed by `\n` is read as a single `\n` |
| PyStr.UniversalNewlinesKeepsOrdinary | hostinger_ddns.py:78-79 | every other character is read as itself; with the two lemmas above this fixes the translation character by character |
| PyStr.UniversalNewlinesPlainPrefix | hostinger_ddns.py:78-79 | a prefix without '\r' is read unchanged, whatever follows it |
| PyStr.StripTrailingSpace | hostinger_ddns.py:79 | stripping a text without edge whitespace followed by any whitespace gives that text |
| PyStr.StripKeepsTrimmed | hostinger_ddns.py:79 | text without edge whitespace is left unchanged by `strip()` |
| PyStr.UniversalNewlinesKeepsBlank | hostinger_ddns.py:78-79 | a file of whitespace only still reads as whitespace only |
| PyStr.UniversalNewlinesKeepsPlainText | hostinger_ddns.py:78-79 | text without '\r' is read back unchanged |
| HostingerDdns.ParseIpBody | hostinger_ddns.py:59-65 | a body is accepted exactly when its stripped form has three dots; the accepted IP is that stripped form, non-empty and without edge whitespace |
| HostingerDdns.ParseIpBodySurrounded | hostinger_ddns.py:59-62 | any three-dot text without edge whitespace, surrounded by any whitespace, is accepted as that text |
| HostingerDdns.ParseIpBodyAcceptsBareDots | hostinger_ddns.py:59-62 | `"..."` passes the shape check |
| HostingerDdns.ParseIpBodyRejectsBlank | hostinger_ddns.py:59-65 | a body of whitespace only is rejected |
| HostingerDdns.CurrentIp | hostinger_ddns.py:54-71 | an IP is returned only for a received body, and for every received body whose stripped form has three dots; transport and other errors give None |
| HostingerDdns.FetchLog | hostinger_ddns.py:63-71 | `get_current_ip` logs nothing on success and exactly one line on every failure |
| HostingerDdns.Host.constructor | hostinger_ddns.py:21-22 | a host starts with the given contents of the log file and of the last-IP file |
| HostingerDdns.Host.LogMessage | hostinger_ddns.py:26-37 | `log_message` appends exactly one line to the log |
| HostingerDdns.Host.GetCurrentIp | hostinger_ddns.py:54-71 | returns `CurrentIp` of the fetch; only the log changes |
| HostingerDdns.ReadLastIp | hostinger_ddns.py:74-82 | a value is returned exactly when the file exists and is readable; every value has no edge whitespace and no '\r' |
| HostingerDdns.ReadLog | hostinger_ddns.py:76-82 | `get_last_ip` logs the warning line, and only that line, exactly when the file exists but cannot be read; otherwise it logs nothing |
| HostingerDdns.Host.GetLastIp | hostinger_ddns.py:74-82 | returns `ReadLastIp` of the file; logs a warning exactly when the file exists but cannot be read; the file is untouched |
| HostingerDdns.Host.SaveLastIp | hostinger_ddns.py:85-91 | a successful write replaces the file's contents with exactly the IP; a failed write keeps the old contents and logs an error |
| HostingerDdns.ReadIgnoresTrailingWhitespace | hostinger_ddns.py:74-82 | a file holding an IP without '\r' followed by any whitespace, e.g. a trailing `\n` or `\r\n`, reads as that IP |
| HostingerDdns.SaveThenRead | hostinger_ddns.py:85-91 | reading after writing an IP without edge whitespace or '\r' returns that IP |
| HostingerDdns.ResolvedIpRoundTrips | hostinger_ddns.py:59 | every accepted IP without '\r' survives a save and a read unchanged |
| HostingerDdns.CarriageReturnNeverRoundTrips | hostinger_ddns.py:78-79 | a stored IP containing '\r' never reads back as itself |
| HostingerDdns.BuildRequest | hostinger_ddns.py:122-140 | the request overwrites, and replaces exactly one "A" record: the subdomain, the TTL, one record whose content is the IP |
| HostingerDdns.BuildRequestIsOnlyShape | hostinger_ddns.py:124-140 | every overwriting request for a single A record with a single value is the one `BuildRequest` makes for it |
| HostingerDdns.TokenRejected | hostinger_ddns.py:104-106 | the token is refused exactly when it is shorter than 20 characters; a missing token is the empty string and is refused too |
| HostingerDdns.ApiErrorLog | hostinger_ddns.py:163-177 | the `ApiException` branch logs the status first; it logs the authentication line exactly for 401 and 403, the validation line exactly for 422 and the server-error line exactly for 500 |
| HostingerDdns.AuthFailureLoggedExactlyWhenRejected | hostinger_ddns.py:163-172 | `update_dns_record` logs the authentication failure exactly when the token passed and the provider answered 401 or 403 (`AuthRejected`); no other outcome changes the last-IP file |
| HostingerDdns.Publish | hostinger_ddns.py:94-186 | see the six points after this table |
| HostingerDdns.Host.RemoveLastIp | hostinger_ddns.py:167-172 | a successful removal leaves no file; a failed one is ignored and leaves the file as it was |
| HostingerDdns.Host.UpdateDnsRecord | hostinger_ddns.py:94-186 | its result, the request it sends, the file and the log afterwards are exactly those of `Publish` |
| HostingerDdns.EmptyTokenScenario | hostinger_ddns.py:103-106 | with an empty token, a run that needs an update exits 1, sends nothing and leaves the file unchanged |
| HostingerDdns.AcceptedUpdateLogs | hostinger_ddns.py:146-161 | an update the provider accepts with the expected response logs both the ACTION line and the SUCCESS line for the IP |
| HostingerDdns.RunScript | hostinger_ddns.py:189-212 | see the eight points after this table |
| HostingerDdns.Host.Run | hostinger_ddns.py:189-212 | the exit code, whether `update_dns_record` was called, the request sent, the file and the log afterwards are exactly those of `RunScript` |
| HostingerDdns.FetchFailureIgnoresEverythingElse | hostinger_ddns.py:191-195 | when the fetch fails, the run's outcome does not depend on the configuration, the last-IP file's readability, the provider or the file operations |
| HostingerDdns.UnknownLastIpForcesUpdate | hostinger_ddns.py:197-205 | a missing or unreadable last-IP file never equals a resolved IP, so `update_dns_record` is called |
| HostingerDdns.BlankLastIpForcesUpdate | hostinger_ddns.py:197-205 | a last-IP file of whitespace only reads as "", which never equals a resolved IP, so `update_dns_record` is called |
| HostingerDdns.SecondRunIsNoChange | hostinger_ddns.py:197-208 | after an accepted update whose save succeeded, a run that sees the same IP (one without '\r') exits 0 without calling `update_dns_record` and sends nothing |

`Publish` states:

1. It returns true exactly when the token passes and the SDK call returns without an exception, whatever the response type.
2. A token that is empty or shorter than 20 characters gives false. In that case no request is sent, the file is unchanged and the only line logged is the configuration error.
3. A request is handed to the SDK exactly when the token passes and both the client and the request models were built. That request is `BuildRequest(subdomain, ttl, ip)`, and the ACTION line comes before any other line.
4. After a 401 or 403 the file is gone if its removal succeeded.
5. After any other outcome, the 422, 500 and other statuses included, the file is unchanged.
6. An accepted update logs the ACTION line, then the SUCCESS line or the unexpected-response warning.

`RunScript` states:

1. The exit code is 0 or 1.
2. When the fetch fails, the run exits 1, calls nothing, leaves the file unchanged and logs only the start, the fetch error and the exit message.
3. `update_dns_record` is called exactly when the resolved IP differs from the stored one. A request is handed to the SDK exactly when, in addition, the token passes and the client and the request models were built. That request is `BuildRequest(subdomain, ttl, ip)` for the resolved IP.
4. When `update_dns_record` is not called, nothing is sent and the file is unchanged.
5. The run exits 0 exactly when the IP is unchanged, or when the token passed and the SDK call returned without an exception.
6. After an accepted update the file holds the current IP when the save succeeded, and its old contents when it failed. The exit code is still 0.
7. After a 401 or 403 the file is gone if its removal succeeded and unchanged if it failed.
8. The file changes only in two cases: it is written with exactly the current IP after an accepted update, or it is deleted after a 401/403. Every other failure leaves it unchanged.

## Left out

- The HTTP GET to ifconfig.me and its 15-second timeout are network I/O. The answer is the input `Fetch`, and the decoding of the response bytes into text is not modelled.
- The Hostinger SDK is a library outside this repository. Only the request value, the call's outcome (`ApiOutcome`) and the request handed to it are modelled. The `domain` argument of the call is carried in `Config` and not inspected.
- Loading `.env`, `os.getenv` and the `int(...)` parse of TTL are environment plumbing. `Config` is an immutable input carrying the already-parsed values.
- The log file's creation, its directory, timestamps, message text, the print fallback of `log_message` and the traceback text are best-effort I/O with no effect on control flow. The log is a sequence of abstract tags.
- `exit()` is modelled as the returned exit code.
- The file paths are not modelled: the model has exactly one last-IP file and one log.
- Overlapping runs racing on the last-IP file are a concurrency concern the script does not handle.
- HostingerDdns.Host.SaveLastIp: a write that fails after `open(..., "w")` has already truncated the file is modelled as leaving the old contents. The file's encoding is not modelled either.
- `ApiException` with no status is not modelled: the status is always an integer.
- The `with ApiClient(...)` context manager raising on exit after a successful call is not modelled. An exception while setting up the client is `ClientFailed`.
