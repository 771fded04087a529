# Request observability and rate limiting of a Nest/Express template, in Dafny

This project models the request-handling core of a NestJS/Express server
template, and proves properties of that model:

- the per-IP **rate limiter** (`RateLimitMiddleware`), whose window restarts
  only after `windowMs` without requests from that IP, as a class
  whose `rateCounter` map is updated in place, specified by a transition
  function `Step`;
- the **request tracer**, which exists twice: once as an Express middleware
  (`RequestLoggerMiddleware`) and once as a Nest interceptor
  (`RequestLoggerInterceptor`). The logic they share lives once in
  `TracerCore`, `Redaction` and `Metrics`. It covers:
  - the option merge;
  - the skip policy;
  - the correlation id;
  - request capture with recursive case-insensitive redaction and body
    truncation;
  - the request-detail line;
  - response severity and the response line;
  - the response-header hardening;
  - the per-`METHOD:PATH` latency series, capped at 100 samples, and its
    summary (count, average, minimum, maximum, nearest-rank p95).

  The two classes keep their differences:
  - default exclusions;
  - the middleware swallows its own failures and still calls `next()`, while
    the interceptor lets them escape;
  - the order of the header writes;
  - the interceptor logs at error severity when the handler failed with a
    truthy error, and records latency on both paths;
- the **response envelope formatter** (`FormatResponseInterceptor`), with its
  first-truthy fallbacks;
- the **API-key guard**;
- `HealthCheck.formatUptime`;
- the **String and Number helpers** of `src/types/index.ts`.

JavaScript values that the code inspects for truthiness are modelled by `Json.Val`
(`Null` stands for `undefined`/`null`). Headers are a map keyed by lowercased
name, and every lookup lowercases the name it is given, which is how Express
behaves. Logging is modelled as a returned list of
`LogEvent(severity, context, message)`. The clock, `randomUUID()`,
`JSON.stringify` and regular-expression matching become parameters of the
operations that use them.

Where the code and its documentation disagree, the model follows the code:

- `toTitle`/`toCapitalize` upper-case only the first character of the string
  (of each space-separated word). They do not lower-case the rest, whatever
  the doc-comments in `src/types/global.d.ts` say.
- In the failure envelope, `response.statusCode` is consulted first. Express
  initialises it to 200, so `error.status` and the fallback 500 are reached
  only when the status code is 0. `StructuredErrorExample` shows both cases.
- `reportMetrics` announces "Request metrics (last minute):", but the
  latency map is never cleared. Each series holds the last 100 samples of
  its key since start-up, whatever their age, and that is what `Report`
  summarises (`RecordedWindows`).
- `trimIndent` on text without a non-blank line takes `Math.min()` of nothing
  (`Infinity`), so every line is sliced away and the result is `""`. This is
  `TrimIndentEmptyIffBlank`.

The one place where the model departs from the code is the body truncation
recorded in the Findings section below: `TruncateAsWritten` is the code as written,
and `Capture` cuts with the corrected `Truncate`. `CaptureBodyAsWritten`
shows that the two give the same body except for `maxBodyLength: 0` with a
body text over 1000 characters.

## Model

| member | source | states |
|---|---|---|
| RateLimit.ClientIp | src/common/middlewares/rate-limit.middleware.ts:43 | the client address is `req.ip` when present, else `remoteAddress`; it is present iff one of them is |
| RateLimit.Step | src/common/middlewares/rate-limit.middleware.ts:42-72 | BAD_REQUEST exactly when there is no address, and then the table is unchanged. Otherwise a new or expired record (strictly more than `windowMs` old) restarts at count 1 and passes. Inside the window the count goes up by one, the time is refreshed and TOO_MANY_REQUESTS is returned iff the new count exceeds the limit (the request passes otherwise), with the table updated first. A warning naming the IP is logged exactly on refusal. Every other IP's record is unchanged |
| RateLimit.StepKeepsValid | src/common/middlewares/rate-limit.middleware.ts:54-59 | every stored record keeps a count of at least 1 |
| RateLimit.BurstCounts | src/common/middlewares/rate-limit.middleware.ts:54-68 | from no record, requests at most `windowMs` apart form one window. The count equals the number of requests and the time is the last one; request k is refused iff k ≥ 1 and k+1 > limit; no request is a bad request. Refusals refresh the time, so the window never restarts |
| RateLimit.DefaultLimitExample | src/common/modules/rate-limit.module.ts:16 | with limit 50 and window 60000 ms, requests 1–50 pass and request 51 is refused |
| RateLimit.ExpiredWindowResets | src/common/middlewares/rate-limit.middleware.ts:54-55 | a request more than `windowMs` after the last one restarts the record at count 1 and passes |
| RateLimit.RateLimitMiddleware.constructor | src/common/middlewares/rate-limit.middleware.ts:26-40 | the table starts empty; limit and window come from the options |
| RateLimit.RateLimitMiddleware.Use | src/common/middlewares/rate-limit.middleware.ts:42-72 | the in-place updates of `use` leave exactly the table, verdict and log events that `Step` gives for the old table, and keep the table valid |
| TracerCore.MergeOverrides | src/common/middlewares/request-logger.middleware.ts:37 | `{...defaults, ...options}`: with no options the defaults are kept; each of the ten options, when given, replaces its default, and a missing one keeps it |
| TracerCore.AnyExcluded | src/common/middlewares/request-logger.middleware.ts:94-101 | true iff some excluded string occurs in the path or in the original URL |
| TracerCore.AnyMatches | src/common/middlewares/request-logger.middleware.ts:104-106 | true iff some exclusion pattern matches the path |
| TracerCore.ShouldSkip | src/common/middlewares/request-logger.middleware.ts:91-109 | skip iff an excluded string occurs in the path or URL, or an exclusion pattern matches the path |
| TracerCore.DefaultExclusions | src/common/interceptors/request-logger.interceptor.ts:22 | with the defaults, the middleware skips `/health` but the interceptor does not; both skip `/metrics` |
| TracerCore.HeaderName | src/common/middlewares/request-logger.middleware.ts:112 | a configured non-empty header name is used, else `X-Request-ID`; the name is never empty |
| TracerCore.RequestIdFor | src/common/middlewares/request-logger.middleware.ts:111-125 | a non-empty inbound id is returned and the headers are left as they are. Otherwise the fresh id is returned and stored under the lowercased header name |
| TracerCore.RequestIdStable | src/common/middlewares/request-logger.middleware.ts:114-118 | once an id has been stored, a second pass returns that same id and leaves the headers unchanged, whatever fresh id it is offered |
| TracerCore.GetOrGenerateRequestId | src/common/middlewares/request-logger.middleware.ts:111-125 | the request's headers and its `requestId` property end up as `RequestIdFor` says, and the returned id is the stored one |
| TracerCore.ClientAddress | src/common/middlewares/request-logger.middleware.ts:129 | the address is empty only when `req.ip`, `remoteAddress` and `hostname` all are; otherwise it is the first of them that is truthy |
| TracerCore.BodyLimit | src/common/middlewares/request-logger.middleware.ts:157 | `maxBodyLength \|\| 1000`: never 0, and any non-zero limit is kept |
| TracerCore.Substring0 | src/common/middlewares/request-logger.middleware.ts:158 | `substring(0, n)` clamps n to [0, length] and yields that prefix |
| TracerCore.Truncate | src/common/middlewares/request-logger.middleware.ts:156-159 | a body no longer than the limit is kept verbatim. A longer one becomes its first `limit` characters (none for a negative limit) followed by `... [truncated]` |
| TracerCore.TruncateAsWritten | src/common/middlewares/request-logger.middleware.ts:156-159 | the code as written: a body within `maxBodyLength \|\| 1000` is kept; a longer one keeps its first `maxBodyLength` characters (none for 0 or less) followed by the marker |
| TracerCore.TruncateAgreesAsWritten | src/common/middlewares/request-logger.middleware.ts:156-159 | for every limit other than 0, the corrected truncation equals the code as written |
| TracerCore.TruncateZeroLimit | src/common/middlewares/request-logger.middleware.ts:157-158 | with limit 0 and a body over 1000 characters, the code as written keeps only the marker, while the corrected version keeps the first 1000 characters |
| TracerCore.TruncatedKeepsPrefix | src/common/middlewares/request-logger.middleware.ts:156-159 | a truncated body is a proper prefix of the body (unless it is empty) followed by the marker |
| TracerCore.Capture | src/common/middlewares/request-logger.middleware.ts:127-163 | capture fails iff the body is logged, truthy and fails to serialise. On success it holds the id, time, method, URL, path, client address and user agent (`""` when absent). Params and headers are present iff their toggle is on, and are then the redacted query and the redacted header table. The body is present iff it is logged and truthy, and is then its text cut by `Truncate` |
| TracerCore.CaptureBodyAsWritten | src/common/middlewares/request-logger.middleware.ts:155-160 | the captured body equals the code's own truncation of its text, except for `maxBodyLength` 0 with a text over 1000 characters (the finding below) |
| TracerCore.CaptureMasks | src/common/middlewares/request-logger.middleware.ts:142-154 | captured params and headers are fully masked under the configured sensitive keys and mask |
| TracerCore.RequestLog | src/common/middlewares/request-logger.middleware.ts:190-221 | at most one event. There is one iff a capture toggle is on and some detail was captured. It is at debug severity when the logger has `debug`, else at verbose severity, else absent, with message `[id] Request details:` |
| TracerCore.DefaultsLogDetails | src/common/middlewares/request-logger.middleware.ts:20-22 | under the defaults, a request whose query is an object is always captured, and it gets exactly one detail line |
| TracerCore.ResponseSeverity | src/common/interceptors/request-logger.interceptor.ts:247-253 | error iff a truthy error was passed or status ≥ 500; warn iff none was and 400 ≤ status < 500; log otherwise |
| TracerCore.SeverityMonotone | src/common/interceptors/request-logger.interceptor.ts:247-253 | a higher status, or a failure, never lowers the severity |
| TracerCore.DurationText | src/common/middlewares/request-logger.middleware.ts:231-234 | `toFixed(2)` of a duration in hundredths: digits, a point, then two digits |
| TracerCore.DurationTextRoundTrip | src/common/middlewares/request-logger.middleware.ts:231-234 | reading the digits back recovers the duration |
| TracerCore.ContentLength | src/common/middlewares/request-logger.middleware.ts:229 | the `content-length` header when truthy, else `0`; never empty |
| TracerCore.ResponseMessage | src/common/middlewares/request-logger.middleware.ts:236 | the whole line `[id] METHOD URL STATUS LENGTHB - DURATIONms`, the status in decimal and the duration as `DurationText` |
| TracerCore.Hardened | src/common/interceptors/request-logger.interceptor.ts:73-79 | `X-Powered-By` and `ETag` are set, the three `Access-Control-Allow-*` headers are removed and every other header is untouched |
| TracerCore.HardenedHeaderNames | src/common/interceptors/request-logger.interceptor.ts:73-79 | the five header names, lowercased as Express stores them |
| TracerCore.HardenedIdempotent | src/common/interceptors/request-logger.interceptor.ts:73-79 | hardening twice is hardening once |
| Redaction.SensitiveKeys | src/common/middlewares/request-logger.middleware.ts:171-174 | the sensitive headers followed by the sensitive params (missing lists count as empty), each lowercased |
| Redaction.MaskText | src/common/middlewares/request-logger.middleware.ts:178 | `maskText \|\| '[REDACTED]'`: never empty, and a non-empty configured mask is used |
| Redaction.Redact | src/common/middlewares/request-logger.middleware.ts:165-188 | a non-object is returned unchanged. An object keeps exactly its keys; a key whose lowercase form is sensitive maps to the mask; other non-object values are kept |
| Redaction.RedactMasks | src/common/middlewares/request-logger.middleware.ts:176-185 | after redaction, every sensitive key at any depth holds the mask |
| Redaction.MaskedIsFixed | src/common/middlewares/request-logger.middleware.ts:176-185 | redaction leaves a fully masked value unchanged |
| Redaction.RedactIdempotent | src/common/middlewares/request-logger.middleware.ts:176-185 | redacting twice is redacting once |
| Redaction.RedactAlongPath | src/common/middlewares/request-logger.middleware.ts:179-183 | along a path of non-sensitive keys, redaction commutes with lookup, so nested objects are redacted recursively |
| Redaction.DeepSecretMasked | src/common/middlewares/request-logger.middleware.ts:176-185 | a sensitive key under any path of non-sensitive keys ends up masked |
| Redaction.AtAppend | src/common/middlewares/request-logger.middleware.ts:183 | a lookup along a path extended by one key is the lookup of that key in the object the path reaches |
| Redaction.DefaultKeysExample | src/common/middlewares/request-logger.middleware.ts:17-18 | under the default key lists, `Authorization` and `PassWord` are sensitive whatever their case, and `user` is not |
| Metrics.MetricKey | src/common/middlewares/request-logger.middleware.ts:253 | `METHOD:PATH`, with the colon right after the method |
| Metrics.MetricKeyInjective | src/common/middlewares/request-logger.middleware.ts:253 | for methods without a colon, distinct (method, path) pairs give distinct keys |
| Metrics.PushedIsLastN | src/common/middlewares/request-logger.middleware.ts:259-264 | push-then-shift keeps exactly the last 100 samples, in arrival order |
| Metrics.RecordedWindows | src/common/middlewares/request-logger.middleware.ts:255-264 | recording keeps every series equal to the last 100 samples of its key's full arrival history |
| Metrics.RecordedShape | src/common/middlewares/request-logger.middleware.ts:255-264 | recording adds the key if it is new and leaves other keys untouched. The series holds 1 to 100 samples, ends with the new one, and a full series drops its oldest |
| Metrics.LatencyMetrics.constructor | src/common/middlewares/request-logger.middleware.ts:30 | the map starts empty |
| Metrics.LatencyMetrics.Track | src/common/middlewares/request-logger.middleware.ts:247-265 | the in-place push and shift leave the map that `Recorded` gives. Each series stays the last ≤ 100 entries of its full arrival history |
| Metrics.Min | src/common/interceptors/request-logger.interceptor.ts:286 | the minimum is an element of the series and bounds every element from below |
| Metrics.Max | src/common/interceptors/request-logger.interceptor.ts:287 | the maximum is an element of the series and bounds every element from above |
| Metrics.SumBounds | src/common/interceptors/request-logger.interceptor.ts:284 | n·min ≤ sum ≤ n·max |
| Metrics.Insert | src/common/interceptors/request-logger.interceptor.ts:288 | inserting into a sorted series keeps it sorted and is a permutation of the series plus the element |
| Metrics.Sort | src/common/interceptors/request-logger.interceptor.ts:288 | the numeric sort yields a sorted permutation |
| Metrics.SortSorted | src/common/interceptors/request-logger.interceptor.ts:288 | sorting a sorted series changes nothing |
| Metrics.P95IndexBounds | src/common/interceptors/request-logger.interceptor.ts:289 | `floor(0.95·n)` equals `(95·n) div 100` and lies in [0, n-1] for n ≥ 1 |
| Metrics.PercentileSample | src/common/interceptors/request-logger.interceptor.ts:288-289 | the p95 sample is an element of the series, between its minimum and maximum |
| Metrics.Mean | src/common/interceptors/request-logger.interceptor.ts:284-285 | average times count equals the sum |
| Metrics.AverageBetween | src/common/interceptors/request-logger.interceptor.ts:284-287 | min ≤ average ≤ max |
| Metrics.Summarize | src/common/interceptors/request-logger.interceptor.ts:282-297 | count is the series length; min, max and p95 are samples; min ≤ p95 ≤ max and min ≤ avg ≤ max |
| Metrics.Report | src/common/interceptors/request-logger.interceptor.ts:276-298 | nothing when the map is empty. Otherwise one summary per non-empty series: `Summarize` of that series, so its count is the series length, min ≤ p95 ≤ max and min ≤ avg ≤ max |
| Metrics.P95Example | src/common/interceptors/request-logger.interceptor.ts:288-289 | for the samples 1..100 the p95 is 96 |
| Http.HeaderLookupIgnoresCase | src/common/middlewares/request-logger.middleware.ts:114 | names that differ only in ASCII case find the same header |
| Http.HeaderStoredThenFound | src/common/interceptors/request-logger.interceptor.ts:73-79 | a header stored under its lowercased name, as `res.set` stores it, is found under its own name and under the lowercased one; after `removeHeader` neither finds it |
| Http.HttpResponse.Set | src/common/interceptors/request-logger.interceptor.ts:73-74 | sets the header under its lowercased name and leaves the status alone |
| Http.HttpResponse.RemoveHeader | src/common/interceptors/request-logger.interceptor.ts:77-79 | removes the header stored under the lowercased name and leaves the status alone |
| LoggerMiddleware.RequestLoggerMiddleware.constructor | src/common/middlewares/request-logger.middleware.ts:32-43 | options are merged over the middleware defaults; the metrics map starts empty |
| LoggerMiddleware.RequestLoggerMiddleware.Use | src/common/middlewares/request-logger.middleware.ts:45-89 | `next()` is always called and the status is never touched. A skipped request is left untouched. Otherwise the id is stored, then either the capture fails and one error line is logged (the headers left alone), or the detail line is logged and the response headers are hardened |
| LoggerMiddleware.RequestLoggerMiddleware.Finish | src/common/middlewares/request-logger.middleware.ts:60-73 | for a traced request: one response line at the severity of the final status with the first clock reading, plus one latency sample under `METHOD:PATH` with the second. Otherwise nothing |
| LoggerMiddleware.RequestLoggerMiddleware.ReportMetrics | src/common/middlewares/request-logger.middleware.ts:267-292 | the report is `Report` of the map, absent iff the map is empty. It is announced at verbose severity when present and the logger has `verbose` |
| LoggerMiddleware.HardenedInOrder | src/common/middlewares/request-logger.middleware.ts:76-80 | set, three removals, set: this order yields the hardened headers |
| LoggerInterceptor.RequestLoggerInterceptor.constructor | src/common/interceptors/request-logger.interceptor.ts:39-52 | options are merged over the interceptor defaults; the metrics map starts empty |
| LoggerInterceptor.RequestLoggerInterceptor.Intercept | src/common/interceptors/request-logger.interceptor.ts:54-80 | a skipped request goes to the handler untouched. Otherwise the id is stored; a failed capture escapes, so the handler is not called and the response headers are left alone. A successful one logs the detail line and hardens the headers. The handler is called iff nothing escaped |
| LoggerInterceptor.RequestLoggerInterceptor.Settle | src/common/interceptors/request-logger.interceptor.ts:83-96 | on both the value and the error path: one response line, at error severity when the thrown value is truthy, plus one latency sample under `METHOD:PATH` from the same reading |
| LoggerInterceptor.RequestLoggerInterceptor.ReportMetrics | src/common/interceptors/request-logger.interceptor.ts:276-301 | the report is `Report` of the map, absent iff the map is empty. It is announced at verbose severity when present and the logger has `verbose` |
| LoggerInterceptor.HardenedInOrder | src/common/interceptors/request-logger.interceptor.ts:73-79 | set, set, three removals: this order yields the hardened headers |
| ResponseFormat.Or | src/common/interceptors/response-format.interceptor.ts:37 | JavaScript `a \|\| b`: one of the two operands, truthy iff either is, and the left one whenever it is truthy |
| ResponseFormat.FailureStatus | src/common/interceptors/response-format.interceptor.ts:37 | the first truthy of `response.statusCode`, `error.status` and 500; always truthy |
| ResponseFormat.FailureError | src/common/interceptors/response-format.interceptor.ts:43-46 | the first truthy of `error.response`, `error.message` and `'Internal Server Error'`; always truthy |
| ResponseFormat.Format | src/common/interceptors/response-format.interceptor.ts:27-50 | success emits `{status: true, statusCode, data}` with the data unchanged and logs nothing. Failure re-throws `{status: false}` with code `FailureStatus` and error `FailureError` (both truthy), after logging the error once under context `Response`. The status code is read, never written |
| ResponseFormat.StructuredErrorExample | src/common/interceptors/response-format.interceptor.ts:37-46 | a structured error response gives code 500 when the status is 0, and the response's own status (200) otherwise; its payload is passed through |
| ApiKeyGuard.ExtractKey | src/common/guards/api-key.guard.ts:14 | a header with the exact prefix `ApiKey ` yields the rest; any other header is used whole |
| ApiKeyGuard.CanActivate | src/common/guards/api-key.guard.ts:9-17 | a missing or empty header, or no configured key, denies; access implies the header is the key, bare or prefixed |
| ApiKeyGuard.CanActivateIff | src/common/guards/api-key.guard.ts:10-16 | access iff the header is `ApiKey ` + key, or it is the (non-empty) key itself and that key does not start with the prefix |
| ApiKeyGuard.PrefixedHeaderAccepted | src/common/guards/api-key.guard.ts:14-16 | a prefixed key is accepted, even the empty key under the bare prefix |
| ApiKeyGuard.PrefixIsCaseSensitive | src/common/guards/api-key.guard.ts:14 | `apikey ` is not stripped: that header matches only a key equal to the whole header |
| Uptime.Components | src/utils/HealthCheck.ts:61-64 | h < 24, m < 60, s < 60 and 86400·d + 3600·h + 60·m + s equals the seconds |
| Uptime.PartsShape | src/utils/HealthCheck.ts:66-71 | there is at least one part, in the order d, h, m, s, each within its unit. Every amount is non-zero, except that zero seconds give the single part `0s` |
| Uptime.PartsTotal | src/utils/HealthCheck.ts:61-71 | the parts add up to the seconds |
| Uptime.FormatUptime | src/utils/HealthCheck.ts:60-74 | the text is never empty |
| Uptime.FormatUptimeZero | src/utils/HealthCheck.ts:70-71 | 0 seconds give `0s` |
| Uptime.FormatUptimeExample | src/utils/HealthCheck.ts:66-73 | 90061 s give `1d 1h 1m 1s` |
| Uptime.FormatUptimeSkipsZeros | src/utils/HealthCheck.ts:67-73 | 172805 s give `2d 5s`: the zero hours and minutes are left out |
| Uptime.FormatUptimeRoundTrip | src/utils/HealthCheck.ts:60-74 | parsing the text back gives the seconds |
| Uptime.ParseRendered | src/utils/HealthCheck.ts:73 | reading rendered parts back gives their total |
| StringHelpers.ToTitle | src/types/index.ts:20-23 | same length; a non-empty string gets its first character upper-cased and keeps the rest |
| StringHelpers.ToTitleIdempotent | src/types/index.ts:20-23 | title-casing twice is title-casing once |
| StringHelpers.CapitalizeUppercasesWordStarts | src/types/index.ts:25-29 | same length and segment count. Exactly the characters that start a space-separated word are upper-cased, and all others are unchanged |
| StringHelpers.MinOf | src/types/index.ts:36 | the minimum of the indents, absent for no indents |
| StringHelpers.TrimIndentEmptyIffBlank | src/types/index.ts:31-41 | the result is empty iff the text is all whitespace |
| StringHelpers.TrimIndentDropsOnlyIndentation | src/types/index.ts:31-41 | the common indent is the minimum over non-blank lines, and what each line loses is whitespace |
| StringHelpers.CodeScriptRoundTrip | src/types/index.ts:43-47 | the fence, the language (or nothing) and the text can be read back |
| StringHelpers.ToBold | src/types/index.ts:49-51 | wrapped in `**`; the inside is the text with every `*` removed, so no `*` is left inside |
| StringHelpers.ToBoldIdempotent | src/types/index.ts:49-51 | bolding twice is bolding once |
| StringHelpers.RemoveEscapedBackticks | src/types/index.ts:54 | removes whole backslash-back-tick pairs, changing the text iff it held such a pair |
| StringHelpers.RemoveEscapedBackticksKeeps | src/types/index.ts:54 | every character other than a backslash or a back-tick is kept, in order |
| StringHelpers.RemoveEscapedBackticksBalanced | src/types/index.ts:54 | as many backslashes as back-ticks are removed, each half of what goes |
| StringHelpers.RemoveEscapedBackticksAppend | src/types/index.ts:54 | the left-to-right scan cleans a text piece by piece at any point not preceded by a backslash |
| StringHelpers.ToBackTick | src/types/index.ts:53-55 | wrapped in single back-ticks around the text with its escaped back-ticks removed; the inside is the text iff it has no backslash-back-tick pair |
| StringHelpers.ToItalic | src/types/index.ts:57-59 | `_` + text + `_` |
| StringHelpers.SuperscriptChars | src/types/index.ts:66-69 | a decimal text gives exactly one superscript character per digit |
| StringHelpers.SuperscriptCharsPointwise | src/types/index.ts:64-68 | character i of the result is the superscript of digit i, the d-th entry of the table for digit d |
| StringHelpers.SuperscriptCharsDropsSign | src/types/index.ts:66-69 | a leading minus sign maps to `undefined`, which `join` renders as nothing |
| StringHelpers.SuperscriptCharsValue | src/types/index.ts:64-70 | reading the superscript digits back gives the decimal value |
| StringHelpers.SuperScriptRoundTrip | src/types/index.ts:64-70 | for an integer n, one superscript per decimal digit of the absolute value of n, and they read back to that absolute value |
| Strings.Lower | src/common/middlewares/request-logger.middleware.ts:174 | same length, no ASCII upper-case letter left, every other character kept, and each character equal to the original up to case |
| Strings.LowerIdempotent | src/common/middlewares/request-logger.middleware.ts:174 | lower-casing twice is lower-casing once |
| Strings.Contains | src/common/middlewares/request-logger.middleware.ts:97 | `includes`: true iff the needle occurs at some position |
| Strings.JoinSplit | src/types/index.ts:26-28 | joining the split pieces gives back the text |
| Strings.SplitJoin | src/types/index.ts:26-28 | splitting the joined separator-free pieces gives them back |
| Strings.Trim | src/types/index.ts:40 | the text with a leading and a trailing run of whitespace cut off; empty iff the text is all whitespace, and otherwise starting and ending with non-whitespace |
| Strings.DigitsRoundTrip | src/types/index.ts:66 | the decimal text of n reads back as n |
| Strings.RemoveChar | src/types/index.ts:50 | no occurrence of the character is left, and a text without it is unchanged |
| Strings.RemoveCharMultiset | src/types/index.ts:50 | only the removed character goes: every other character is kept with its number of occurrences ; with `RemoveCharAppend`, applied one character at a time, this fixes the result, so the survivors also keep their order |

## Left out

- The clock (`Date.now`, `process.hrtime`, `new Date().toISOString()`) is a parameter: `now` in milliseconds, durations in hundredths of a millisecond, the timestamp as text.
- `randomUUID()` is a parameter `freshId`; nothing models its randomness or uniqueness.
- Regular-expression matching of `excludePathRegex` is a caller-supplied predicate, and `JSON.stringify` a caller-supplied function that may fail.
- Floating point: durations are whole hundredths, so the float conversion `hrDuration[0]*1000 + hrDuration[1]/1e6` and `toFixed(2)` rounding are not modelled.
- Metrics.Summarize: does not state that `avg * count == sum`; that identity is stated by `Metrics.Mean`, which gives the average.
- The p95 index is `floor(n·0.95)` over exact reals; IEEE rounding of the product is left out.
- Logging sinks: `ConsoleLogger` output, the details object passed with the request-detail line, and the error stack passed to `logger.error` are not part of the log events. The formatter logs the error's message text only.
- `options.loggerService` selection and `setInterval` scheduling of `reportMetrics` are not modelled; `ReportMetrics` is one report on demand.
- Nest/rxjs plumbing: the Observable is reduced to a single outcome. `Settle` models one `tap` callback, although `next` would fire once per emitted value. The monkey-patched `res.end` is a `Finish` call; `originalEnd` itself is not modelled.
- An option explicitly set to `undefined` overrides its default in `{...defaults, ...options}`. The model treats it as absent.
- HTTP exceptions are the verdicts `BadRequest`/`TooManyRequests`. The exception messages are not modelled.
- `HealthCheck.getInstance`, `getStatus`, `getDetailedStatus`, `getMemoryUsage`, `formatBytes` and `getCpuInfo` read process state or floats, and are not part of this model.
- `Array.prototype.getRandom` and `shuffle` depend on `Math.random`, and are not part of this model.
- Case mapping is ASCII only; Unicode case folding is not modelled.
- Truncate and TruncateAsWritten: lengths count characters (code points), whereas `bodyStr.length` and `substring` count UTF-16 code units. A body with characters outside the Basic Multilingual Plane is therefore measured shorter than in the code, and a cut that would split a surrogate pair is not modelled.
- ToSuperScript: takes an integer and formats it in decimal. `toString()` of a JavaScript number also yields fractions (`1.5` gives `¹⁵`), exponent notation from 1e21 (`1e+21` gives `¹²¹`), and rounded digits above 2^53; none of these is modelled, so what `SuperScriptRoundTrip` proves carries over to the code only for integers of magnitude at most 2^53.
- Capture (and through it Use and Intercept): the body is cut by the corrected `Truncate`, not by the code's `substring(0, maxBodyLength)`. The two differ only for `maxBodyLength` 0 with a body text over 1000 characters, where the code logs the marker alone (`CaptureBodyAsWritten`, `TruncateZeroLimit`).
- Format: the thrown value always has fields. A thrown `null` or `undefined` makes the code's `error.status` (when the status code is 0) or `error.response` raise a TypeError, so the stream fails with that TypeError instead of the `{status: false}` envelope; this error path is not modelled.
- Dependency-injection wiring, the logger service and decorators, module reflection, bootstrap and the health controller are not part of this model.

## Findings

| source | as written | input that shows it | evidently intended | confidence | as-written member | corrected member |
|---|---|---|---|---|---|---|
| src/common/middlewares/request-logger.middleware.ts:157-158 | the threshold uses `maxBodyLength \|\| 1000`, but the cut uses the raw `maxBodyLength` (the interceptor has the same code at src/common/interceptors/request-logger.interceptor.ts:164-165) | `maxBodyLength: 0` with a body of 1001 characters: the log shows only `... [truncated]` | cut at the same fallback limit, keeping the first 1000 characters | not executed | TracerCore.TruncateAsWritten, TracerCore.TruncateZeroLimit | TracerCore.Truncate |
