# HockeyApp client model

A Dafny model of `HockeyApp::Client` from the `hockeyapp` Ruby gem
(`lib/hockeyapp/ws/client.rb`), with proofs about it. The client sits on a
web-service layer (`ws`) that returns decoded JSON responses. Each call
does some of the following:

- the six checked listings (`get_apps`, `get_crashes`,
  `get_crashes_for_version_between_times`, `get_crashes_for_crash_group`,
  `get_crash_groups`, `get_crash_groups_for_version`) check the response
  envelope with `assert_success`: the `status` must be `"success"` and there
  may be at most one page. `get_versions`, `post_new_version`, `remove_app`
  and `create_app` never make this check;
- the two upload calls (`post_new_version`, `create_app`) turn an `errors`
  list into an exception;
- `remove_app` looks only at the HTTP status code;
- the listings map the payload list to entities (`App`, `Version`, `Crash`,
  `CrashGroup`), giving each one its owning app and the client; the uploads
  build one entity from the whole response.

The crash search between two times also normalises both times to the text
form the search backend expects, then builds a double-quoted range query.

Layout:

- `strings.dfy` (`Strings`): searching for a character, Ruby's `Array#join`,
  splitting on a character (proved to undo `join`), `Integer#to_s`, and
  small lemmas that regroup and slice concatenations.
- `values.dfy` (`Values`): decoded values and option hashes
  (nil/bool/integer/string/array/hash), hash lookup, ActiveSupport's
  `blank?`/`present?`, and Ruby's `to_s`/`inspect`.
- `time_format.dfy` (`TimeFormat`): `time_to_string`, modelled as its three
  regex substitutions. Each step is proved to be the substitution of the
  leftmost match of a predicate that describes its regular expression,
  including Ruby's line-oriented `$` and `.`.
- `range_query.dfy` (`RangeQuery`): the range literal with a parser proved
  to be its inverse, and the option merge of the range search.
- `responses.dfy` (`Responses`): the error kinds, `assert_success`,
  `MultiplePagesError#to_s`, the `errors` gate, and payload extraction.
- `transport.dfy` (`Transport`): the `ws` collaborator as a class. It holds
  a log of the calls made and answers through a response function of the
  earlier calls and the current one.
- `client.dfy` (`HockeyClient`): the entities and the `Client` class. Each
  method's contract states exactly which call it appends to the transport
  log and what it returns, in terms of the transport's answer.
- `scenarios.dfy` (`Scenarios`): verified scenarios that pair the client with scripted servers.

Exceptions are modelled as values: a `Result` is either `Ok(value)` or
`Err(error)`. The error is a `RuntimeError` with its message, a
`MultiplePagesError` holding the response, a `TypeError` (a Ruby
`NoMethodError`/`ArgumentError` raised by the interpreter, with the failing
operation and receiver), or a `TransportError` raised by `ws` and passed on.

Points about the code that the proofs bring out:

- `time_to_string` is not idempotent on arbitrary text: only the first space
  becomes `T`, so `"a b c"` becomes `"aTb c"` and then `"aTbTc"`
  (`SecondSpaceSurvives`). It is idempotent on normalised text, which covers
  all three renderings of a time (`NormalizedIsFixedPoint`,
  `RenderingsNormalizeOnce`).
- In the offset step the space before `+` is optional. Only the line holding
  the first `+` loses its offset, whichever line that is
  (`OffsetOnSecondLine`); a `+` on a later line survives
  (`LaterLinesKeepTheirOffset`). A negative offset (`-05:00`) is never
  stripped. This only matters when a time cannot be converted to UTC first.
- The range literal keeps the single quote after the closing bracket,
  exactly as the code builds it.

## Model

| member | source | states |
|---|---|---|
| TimeFormat.ReplaceFirstSpace | lib/hockeyapp/ws/client.rb:34 | `sub(/ /, 'T')`: the first space is replaced by `T` and the rest is kept, and text without a space is unchanged |
| TimeFormat.StripOffset | lib/hockeyapp/ws/client.rb:35 | `sub(/ ?\+.*$/, '')` leaves text without a `+` unchanged and never lengthens the text |
| TimeFormat.StripOffsetIsLeftmostSub | lib/hockeyapp/ws/client.rb:35 | when ` ?\+.*$` matches at `[i, j)` and at no earlier start, step 2 removes exactly `s[i..j]` |
| TimeFormat.StripOffsetWithoutMatch | lib/hockeyapp/ws/client.rb:35 | when ` ?\+.*$` matches nowhere, step 2 changes nothing |
| TimeFormat.StripOffsetAfter | lib/hockeyapp/ws/client.rb:35 | when nothing after the first `+` has a line break, step 2 cuts at that `+` and also drops one space just before it, whatever lines come before |
| TimeFormat.OffsetOnSecondLine | lib/hockeyapp/ws/client.rb:35 | when the first line has no `+`, the offset on the second line is removed: the cut is on the line holding the first `+` |
| TimeFormat.StripUtc | lib/hockeyapp/ws/client.rb:36 | `sub(/ ?UTC$/, '')` only removes characters: it introduces none and never lengthens the text |
| TimeFormat.StripUtcIsLeftmostSub | lib/hockeyapp/ws/client.rb:36 | when ` ?UTC$` matches at `[i, j)` and at no earlier start, step 3 removes exactly `s[i..j]` |
| TimeFormat.StripUtcWithoutMatch | lib/hockeyapp/ws/client.rb:36 | when ` ?UTC$` matches nowhere, step 3 changes nothing |
| TimeFormat.StripUtcSuffix | lib/hockeyapp/ws/client.rb:36 | on single-line text, a trailing `" UTC"` is removed |
| TimeFormat.TimeToString | lib/hockeyapp/ws/client.rb:30-38 | `time_to_string` is the three substitutions in order, and its result is never longer than its input. Its properties are carried by `TimeWithOffset`, `TimeInUtc`, `DateTimeWithOffset`, `NormalizedIsFixedPoint`, `RenderingsNormalizeOnce`, `SingleLineOutputHasNoPlus`, `SecondSpaceSurvives`, `OffsetOnSecondLine` and `LaterLinesKeepTheirOffset` |
| TimeFormat.TimeWithOffset | lib/hockeyapp/ws/client.rb:30-38 | a `Time#to_s` with a positive offset, `"D T +hhmm"`, becomes `"DTT"` |
| TimeFormat.TimeInUtc | lib/hockeyapp/ws/client.rb:30-38 | a UTC `Time#to_s`, `"D T UTC"`, becomes `"DTT"` |
| TimeFormat.DateTimeWithOffset | lib/hockeyapp/ws/client.rb:30-38 | a `DateTime#to_s`, `"DTT+hh:mm"`, becomes `"DTT"` |
| TimeFormat.StampIsNormalized | lib/hockeyapp/ws/client.rb:30-38 | the stamp `"DTT"` has no space, no `+` and no line-ending `UTC` |
| TimeFormat.NormalizedIsFixedPoint | lib/hockeyapp/ws/client.rb:30-38 | `time_to_string` leaves normalised text unchanged |
| TimeFormat.RenderingsNormalizeOnce | lib/hockeyapp/ws/client.rb:30-38 | for each of the three renderings of a time, applying `time_to_string` twice gives the same stamp as applying it once |
| TimeFormat.SingleLineOutputHasNoPlus | lib/hockeyapp/ws/client.rb:33-37 | on single-line input, the result never contains `+` |
| TimeFormat.SecondSpaceSurvives | lib/hockeyapp/ws/client.rb:34 | only the first space is replaced, so on `"a b c"` a second application changes the result again |
| TimeFormat.LaterLinesKeepTheirOffset | lib/hockeyapp/ws/client.rb:35 | only the line holding the first `+` loses its offset; a `+` on a later line survives, so the result can still contain `+` |
| RangeQuery.RangeLiteral | lib/hockeyapp/ws/client.rb:56 | the literal is the two bounds plus eleven fixed characters: it opens with `["` and closes with `"]'` |
| RangeQuery.ParseRangeLiteral | lib/hockeyapp/ws/client.rb:56 | a lower bound read back from a literal contains no double quote |
| RangeQuery.ParseRangeLiteralInverts | lib/hockeyapp/ws/client.rb:56 | a lower bound without a double quote and any upper bound are read back exactly from the literal |
| RangeQuery.ParsedRangeIsLiteral | lib/hockeyapp/ws/client.rb:56 | any text the parser accepts is exactly the literal of the bounds it returns |
| RangeQuery.CrashQuery | lib/hockeyapp/ws/client.rb:57 | the `query` option holds exactly `per_page: 50` and the search text `created_at:` followed by the literal |
| RangeQuery.MergeQuery | lib/hockeyapp/ws/client.rb:57 | `options.merge`: every caller option except `query` is kept, and `query` is set or replaced |
| RangeQuery.RangeOptions | lib/hockeyapp/ws/client.rb:52-57 | the options sent keep every caller option except `query`, which holds the range literal over the two times normalised by `time_to_string` |
| RangeQuery.UtcRangeReadsBack | lib/hockeyapp/ws/client.rb:52-57 | for two UTC times, the search text sent holds their ISO stamps, which can be read back out |
| Values.Blank | lib/hockeyapp/ws/client.rb:125 | ActiveSupport's `blank?`: nil, false and empty text, arrays and hashes are blank; integers and true never are; blank text is white space only |
| Values.Present | lib/hockeyapp/ws/client.rb:125 | `pages.present?`: an integer is always present and nil never is; an array is present exactly when it is non-empty |
| Values.Render | lib/hockeyapp/ws/client.rb:8 | `to_s` as used by interpolation (client.rb:8, 122) and by `e.to_s` (client.rb:98, 110): text as is, nil as the empty text, integers in decimal, arrays bracketed; only a string can render with a line break |
| Values.Inspect | lib/hockeyapp/ws/client.rb:98 | `inspect`, which `e.to_s` uses for an array error (client.rb:98, 110): its output never holds a line break, because nested strings are escaped |
| Values.EscapeRoundTrip | lib/hockeyapp/ws/client.rb:98 | the escaping `String#inspect` applies inside the quotes loses nothing: reading it back as a double-quoted literal gives the original string |
| Values.InspectedTextReadsBack | lib/hockeyapp/ws/client.rb:98 | a nested string is shown between double quotes, and the text between them reads back as the string |
| Strings.JoinAvoids | lib/hockeyapp/ws/client.rb:98 | a character in no part and not in the separator is not in the joined text |
| Strings.Join | lib/hockeyapp/ws/client.rb:98 | `join("\n")` (client.rb:98, 110): every part fits inside the result; `SplitJoin` is its inverse |
| Strings.SplitJoin | lib/hockeyapp/ws/client.rb:98 | joining on a one-character separator that no part contains is undone by splitting on that character |
| Responses.PagesMessage | lib/hockeyapp/ws/client.rb:7-9 | the message length is the fixed text plus the three rendered fields |
| Responses.PagesMessageReports | lib/hockeyapp/ws/client.rb:7-9 | `total_pages`, `per_page` and `total_entries`, rendered with `to_s`, stand at fixed places in the message |
| Responses.BadStatus | lib/hockeyapp/ws/client.rb:122 | the message is `Bad Status : ` followed by the status rendered with `to_s` |
| Responses.AssertSuccess | lib/hockeyapp/ws/client.rb:120-128 | passes exactly when the status is `"success"` and `total_pages` is blank or an integer of at most 1. Any other status fails with `Bad Status`. A pagination error happens exactly when the status is `"success"` and `total_pages` is an integer above 1, and it carries the whole response. A non-number page count fails on the comparison |
| Responses.AssertSuccessReadsTwoFields | lib/hockeyapp/ws/client.rb:120-128 | the outcome depends only on `status` and `total_pages` |
| Responses.MultiplePagesReportsCount | lib/hockeyapp/ws/client.rb:8 | the message of a raised pagination error shows the response's page count in decimal |
| Responses.Unwrap | lib/hockeyapp/ws/client.rb:19-21 | a transport failure passes through; a checked response that fails `assert_success` gives that error; otherwise the payload list is returned exactly when it is an array, and anything else fails `map` |
| Responses.RenderAll | lib/hockeyapp/ws/client.rb:98 | `errors.map { \|e\| e.to_s }`: one rendering per error, in order |
| Responses.CheckErrors | lib/hockeyapp/ws/client.rb:98 | the response passes unchanged exactly when `errors` is nil or absent. An `errors` list (even an empty one) raises the renderings joined by line breaks. A transport failure passes through |
| Responses.ErrorLinesReadBack | lib/hockeyapp/ws/client.rb:98 | when no error renders with a line break, splitting the raised message on line breaks gives back the rendered errors |
| Responses.NestedTextErrorIsOneLine | lib/hockeyapp/ws/client.rb:110 | an `errors` list holding the array `[x]` raises the one-line message `["…"]`, whose quoted part reads back as `x` even when `x` holds line breaks |
| Responses.TwoErrorsTwoLines | lib/hockeyapp/ws/client.rb:110 | two text errors `x`, `y` raise `"x\ny"` |
| HockeyClient.Entities | lib/hockeyapp/ws/client.rb:21 | `payload.map { from_hash }`: the same error, or one entity per payload element, in order |
| HockeyClient.Entity | lib/hockeyapp/ws/client.rb:99 | after the `errors` gate, the entity is built from the whole response; otherwise the gate's error is returned |
| HockeyClient.Removal | lib/hockeyapp/ws/client.rb:104-105 | succeeds, with `true`, exactly when the status code is 200. Any other code raises `unexpected response`, and a transport failure passes through |
| HockeyClient.UploadRequest | lib/hockeyapp/ws/client.rb:94-97 | the upload goes to the version's app and carries the version's `ipa`, `dsym`, `notes`, `notes_type`, `notify`, `status` and `tags`, in that order |
| HockeyClient.VersionsIgnoreStatus | lib/hockeyapp/ws/client.rb:88-91 | with an unchecked response, a listing under a bad status still yields its payload; a checked one fails with `Bad Status` |
| HockeyClient.Client.constructor | lib/hockeyapp/ws/client.rb:14-16 | the client keeps the web-service layer it is given |
| HockeyClient.Client.GetApps | lib/hockeyapp/ws/client.rb:18-22 | makes one `get_apps` call; the result is the checked `apps` payload mapped to apps owned by this client |
| HockeyClient.Client.GetCrashes | lib/hockeyapp/ws/client.rb:24-28 | makes one call with the app's public identifier; the result is the checked `crashes` payload mapped to crashes of that app |
| HockeyClient.Client.GetCrashesForVersionBetweenTimes | lib/hockeyapp/ws/client.rb:40-60 | makes one query call with the version's app identifier, the version id and the caller's options merged with the range search over the two normalised times; the result is the checked `crashes` payload mapped to crashes of the version's app |
| HockeyClient.Client.GetCrashesForCrashGroup | lib/hockeyapp/ws/client.rb:62-66 | makes one call with the group's app identifier, the group id and `{query: options}`; the result is the checked `crashes` payload mapped to crashes of the group's app |
| HockeyClient.Client.GetCrashGroups | lib/hockeyapp/ws/client.rb:68-72 | makes one call with the app identifier; the result is the checked `crash_reasons` payload mapped to crash groups of that app |
| HockeyClient.Client.GetCrashGroupsForVersion | lib/hockeyapp/ws/client.rb:74-78 | makes one call with the version's app identifier, the version id and `{query: options}`; the result is the checked `crash_reasons` payload mapped to crash groups |
| HockeyClient.Client.GetVersions | lib/hockeyapp/ws/client.rb:88-91 | makes one call; the result is the `app_versions` payload mapped to versions without `assert_success` |
| HockeyClient.Client.PostNewVersion | lib/hockeyapp/ws/client.rb:93-100 | a version whose `ipa` is nil fails with `There must be an executable file` and no call is made. Otherwise exactly one upload call is made and its response goes through the `errors` gate into a version of the same app |
| HockeyClient.Client.RemoveApp | lib/hockeyapp/ws/client.rb:102-106 | makes one removal call with the app identifier; the result is decided by the status code alone |
| HockeyClient.Client.CreateApp | lib/hockeyapp/ws/client.rb:108-112 | makes one upload call with the file; its response goes through the `errors` gate into an app owned by this client |
| Transport.WebService.Call | lib/hockeyapp/ws/client.rb:19 | a call of `ws` is appended to the log and answered from the calls made before it |
| Transport.WebService.CallForCode | lib/hockeyapp/ws/client.rb:103 | the same for the call of which only the status code is read |

## Left out

- The `to_time.utc` conversion and its `rescue NoMethodError` (client.rb:44-51) are left out: the model receives each time as the text of its `to_s`. Time-zone arithmetic and the `Time`/`DateTime` classes are not modelled.
- `get_crash_log` and `get_crash_description` (client.rb:80-86) are left out. They pass the transport's raw text through unchanged, with no check or mapping.
- The `from_hash` constructors of `App`, `Version`, `Crash` and `CrashGroup` are not part of this model. An entity keeps the hash it was built from, with its owning app and client. Each reader (`public_identifier`, `id`, `ipa`, `dsym`, ...) reads the same-named key, and a missing key reads as nil.
- The web-service layer's HTTP work (authentication, serialisation, retries) is not modelled. Its answers are a function of the earlier calls and the current call. Exceptions it raises appear as `TransportError` and are passed on.
- Values are nil, booleans, integers, strings, arrays and hashes. Floats and other Ruby objects are not modelled.
- Values.Inspect: shows a non-empty hash as `{...}`. Inside a string it escapes `"`, `\`, `#` before `{`, `$` or `@`, and the line break, tab, carriage return, form feed, vertical tab, backspace, bell and escape characters; the other control characters and non-printable Unicode characters, which Ruby writes as `\x..` or `\u....`, are kept as they are.
- `Values.Blank` counts only ASCII white space as blank; ActiveSupport also counts Unicode white space.
- Responses.Unwrap: a payload that is a hash fails as `TypeError`. Ruby's `Hash#map` would instead map over key/value pairs, building entities from pairs.
- Responses.CheckErrors: an `errors` value that is a hash fails as `TypeError`. Ruby would join its key/value pairs.
- Responses.AssertSuccess: the class and text of the interpreter's own exceptions (`NoMethodError`, `ArgumentError`) are not modelled. A `TypeError` records only the failing operation and its receiver.
