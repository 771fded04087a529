/**
 * The request tracer's logic shared by the Express middleware
 * (`RequestLoggerMiddleware`) and the Nest interceptor
 * (`RequestLoggerInterceptor`): the options in force, the skip policy, the
 * correlation id, request capture with redaction and body truncation, the
 * request-detail and response-summary log lines, and the header hardening.
 */
module TracerCore {
  import opened Wrappers
  import opened Strings
  import opened Json
  import opened Logging
  import opened Http
  import opened Redaction

  // ---------------------------------------------------------------------------
  // Options

  /** `RequestLoggerOptions` as a caller passes it; `None` is an absent property. */
  datatype LoggerOptions = LoggerOptions(
    headerName: Option<string>,
    excludePaths: Option<seq<string>>,
    excludePathRegex: Option<seq<string>>,
    sensitiveHeaders: Option<seq<string>>,
    sensitiveParams: Option<seq<string>>,
    maskText: Option<string>,
    logHeaders: Option<bool>,
    logParams: Option<bool>,
    logBody: Option<bool>,
    maxBodyLength: Option<int>)

  const NoOptions: LoggerOptions := LoggerOptions(None, None, None, None, None, None, None, None, None, None)

  /**
   * The options in force after `{...defaultOptions, ...options}`. Every
   * default property is present; only `excludePathRegex` has no default.
   * Patterns are kept as their source text and tested by a caller-supplied
   * predicate.
   */
  datatype Config = Config(
    headerName: string,
    excludePaths: seq<string>,
    excludePathRegex: Option<seq<string>>,
    sensitiveHeaders: seq<string>,
    sensitiveParams: seq<string>,
    maskText: string,
    logHeaders: bool,
    logParams: bool,
    logBody: bool,
    maxBodyLength: int)

  /** The middleware's defaults: `/health` and `/metrics` are not traced. */
  const MiddlewareDefaults: Config := Config(
    "X-Request-ID", ["/health", "/metrics"], None, DefaultSensitiveHeaders, DefaultSensitiveParams,
    DefaultMaskText, false, true, false, 1000)

  /** The interceptor's defaults differ only in excluding `/metrics` alone. */
  const InterceptorDefaults: Config := MiddlewareDefaults.(excludePaths := ["/metrics"])

  /** `{...defaults, ...options}`. */
  function Merge(defaults: Config, user: LoggerOptions): Config {
    Config(
      user.headerName.GetOr(defaults.headerName),
      user.excludePaths.GetOr(defaults.excludePaths),
      if user.excludePathRegex.Some? then user.excludePathRegex else defaults.excludePathRegex,
      user.sensitiveHeaders.GetOr(defaults.sensitiveHeaders),
      user.sensitiveParams.GetOr(defaults.sensitiveParams),
      user.maskText.GetOr(defaults.maskText),
      user.logHeaders.GetOr(defaults.logHeaders),
      user.logParams.GetOr(defaults.logParams),
      user.logBody.GetOr(defaults.logBody),
      user.maxBodyLength.GetOr(defaults.maxBodyLength))
  }

  /**
   * A property the caller gives wins over the default and every other
   * property keeps its default; giving nothing leaves the defaults.
   */
  lemma MergeOverrides(defaults: Config, user: LoggerOptions)
    ensures Merge(defaults, NoOptions) == defaults
    ensures var c := Merge(defaults, user);
      && (user.headerName.Some? ==> c.headerName == user.headerName.value)
      && (user.headerName.None? ==> c.headerName == defaults.headerName)
      && (user.excludePaths.Some? ==> c.excludePaths == user.excludePaths.value)
      && (user.excludePaths.None? ==> c.excludePaths == defaults.excludePaths)
      && (user.maskText.Some? ==> c.maskText == user.maskText.value)
      && (user.maskText.None? ==> c.maskText == defaults.maskText)
      && (user.maxBodyLength.Some? ==> c.maxBodyLength == user.maxBodyLength.value)
      && (user.maxBodyLength.None? ==> c.maxBodyLength == defaults.maxBodyLength)
      && (user.excludePathRegex.Some? ==> c.excludePathRegex == user.excludePathRegex)
      && (user.excludePathRegex.None? ==> c.excludePathRegex == defaults.excludePathRegex)
      && (user.sensitiveHeaders.Some? ==> c.sensitiveHeaders == user.sensitiveHeaders.value)
      && (user.sensitiveHeaders.None? ==> c.sensitiveHeaders == defaults.sensitiveHeaders)
      && (user.sensitiveParams.Some? ==> c.sensitiveParams == user.sensitiveParams.value)
      && (user.sensitiveParams.None? ==> c.sensitiveParams == defaults.sensitiveParams)
      && (user.logHeaders.Some? ==> c.logHeaders == user.logHeaders.value)
      && (user.logHeaders.None? ==> c.logHeaders == defaults.logHeaders)
      && (user.logParams.Some? ==> c.logParams == user.logParams.value)
      && (user.logParams.None? ==> c.logParams == defaults.logParams)
      && (user.logBody.Some? ==> c.logBody == user.logBody.value)
      && (user.logBody.None? ==> c.logBody == defaults.logBody)
  {
  }

  // ---------------------------------------------------------------------------
  // Skip policy

  /** `excludePaths.some(p => path.includes(p) || originalUrl.includes(p))`. */
  function AnyExcluded(excludes: seq<string>, path: string, originalUrl: string): (r: bool)
    ensures r <==> exists i :: 0 <= i < |excludes| && (Contains(path, excludes[i]) || Contains(originalUrl, excludes[i]))
  {
    if |excludes| == 0 then false
    else
      var rest := AnyExcluded(excludes[1..], path, originalUrl);
      assert forall i :: 1 <= i < |excludes| ==> excludes[i] == excludes[1..][i - 1];
      (Contains(path, excludes[0]) || Contains(originalUrl, excludes[0])) || rest
  }

  /** `excludePathRegex.some(regex => regex.test(path))`, with `test` deciding a pattern. */
  function AnyMatches(patterns: seq<string>, test: (string, string) -> bool, path: string): (r: bool)
    ensures r <==> exists j :: 0 <= j < |patterns| && test(patterns[j], path)
  {
    if |patterns| == 0 then false
    else
      var rest := AnyMatches(patterns[1..], test, path);
      assert forall j :: 1 <= j < |patterns| ==> patterns[j] == patterns[1..][j - 1];
      test(patterns[0], path) || rest
  }

  /**
   * `shouldSkip`: some excluded string occurs in the path or the original
   * URL, or some exclusion pattern matches the path.
   */
  function ShouldSkip(cfg: Config, test: (string, string) -> bool, path: string, originalUrl: string): (skip: bool)
    ensures skip <==>
      (exists i :: 0 <= i < |cfg.excludePaths| &&
        (Contains(path, cfg.excludePaths[i]) || Contains(originalUrl, cfg.excludePaths[i])))
      || (cfg.excludePathRegex.Some? &&
        exists j :: 0 <= j < |cfg.excludePathRegex.value| && test(cfg.excludePathRegex.value[j], path))
  {
    AnyExcluded(cfg.excludePaths, path, originalUrl)
    || (cfg.excludePathRegex.Some? && AnyMatches(cfg.excludePathRegex.value, test, path))
  }

  /**
   * With the defaults, the middleware skips the health endpoint and the
   * interceptor traces it; both skip the metrics endpoint.
   */
  lemma DefaultExclusions(test: (string, string) -> bool)
    ensures ShouldSkip(MiddlewareDefaults, test, "/health", "/health")
    ensures !ShouldSkip(InterceptorDefaults, test, "/health", "/health")
    ensures ShouldSkip(InterceptorDefaults, test, "/metrics", "/metrics")
  {
    assert Contains("/health", "/health") by {
      assert OccursAt("/health", "/health", 0);
    }
    assert Contains("/metrics", "/metrics") by {
      assert OccursAt("/metrics", "/metrics", 0);
    }
    assert !Contains("/health", "/metrics") by {
      assert |"/health"| < |"/metrics"|;
    }
  }

  // ---------------------------------------------------------------------------
  // Correlation id

  /** `options.headerName || 'X-Request-ID'`. */
  function HeaderName(cfg: Config): (name: string)
    ensures name != ""
    ensures cfg.headerName != "" ==> name == cfg.headerName
  {
    if cfg.headerName != "" then cfg.headerName else "X-Request-ID"
  }

  /**
   * The id of a request and its headers afterwards: a truthy inbound header
   * is the id and nothing changes; otherwise the fresh id is the id and is
   * stored under the lowercased header name.
   */
  function RequestIdFor(headers: map<string, string>, headerName: string, freshId: string): (r: (string, map<string, string>))
    ensures Present(HeaderLookup(headers, headerName)) ==> r == (headers[Lower(headerName)], headers)
    ensures !Present(HeaderLookup(headers, headerName)) ==> r == (freshId, headers[Lower(headerName) := freshId])
  {
    var inbound := HeaderLookup(headers, headerName);
    if Present(inbound) then (inbound.value, headers)
    else (freshId, headers[Lower(headerName) := freshId])
  }

  /**
   * Asking again, with any other fresh id, finds the id the first call
   * settled on and changes nothing: the header now carries it.
   */
  lemma RequestIdStable(headers: map<string, string>, headerName: string, freshId: string, otherId: string)
    requires freshId != ""
    ensures var r := RequestIdFor(headers, headerName, freshId);
      RequestIdFor(r.1, headerName, otherId) == r
  {
  }

  /** `getOrGenerateRequestId`: `freshId` is the `randomUUID()` the call would draw. */
  method GetOrGenerateRequestId(cfg: Config, req: HttpRequest, freshId: string) returns (id: string)
    modifies req
    ensures (id, req.headers) == RequestIdFor(old(req.headers), HeaderName(cfg), freshId)
    ensures req.requestId == Some(id)
  {
    var headerName := HeaderName(cfg);
    var headerRequestId := HeaderLookup(req.headers, headerName);
    if Present(headerRequestId) {
      req.requestId := headerRequestId;
      return headerRequestId.value;
    }
    var newRequestId := freshId;
    req.requestId := Some(newRequestId);
    req.headers := req.headers[Lower(headerName) := newRequestId];
    return newRequestId;
  }

  // ---------------------------------------------------------------------------
  // Request capture

  /** `RequestData`: what is captured of a traced request. */
  datatype RequestData = RequestData(
    requestId: string,
    timestamp: string,
    httpMethod: string,
    originalUrl: string,
    path: string,
    ip: string,
    userAgent: string,
    params: Option<Val>,
    headers: Option<Val>,
    body: Option<string>)

  /**
   * `req.ip || req.socket.remoteAddress || req.hostname`: empty only when all
   * three are, and otherwise the first of them that is present.
   */
  function ClientAddress(ip: Option<string>, remoteAddress: Option<string>, hostname: string): (r: string)
    ensures r != "" <==> Present(ip) || Present(remoteAddress) || hostname != ""
    ensures Present(ip) ==> r == ip.value
    ensures !Present(ip) && Present(remoteAddress) ==> r == remoteAddress.value
    ensures !Present(ip) && !Present(remoteAddress) ==> r == hostname
  {
    if Present(ip) then ip.value else if Present(remoteAddress) then remoteAddress.value else hostname
  }

  /** `String(v)` for a value that is not an object. */
  function JsString(v: Val): string {
    match v
    case Null => "null"
    case Bool(b) => if b then "true" else "false"
    case Num(n) => IntToString(n)
    case Str(s) => s
    case Obj(_) => "[object Object]"
  }

  const TruncationMarker: string := "... [truncated]"

  /** `maxBodyLength || 1000`: the length above which a body is cut. */
  function BodyLimit(maxBodyLength: int): (limit: int)
    ensures limit != 0
    ensures maxBodyLength != 0 ==> limit == maxBodyLength
  {
    if maxBodyLength != 0 then maxBodyLength else 1000
  }

  /** `s.substring(0, end)`: a negative end counts as 0, one past the end as the length. */
  function Substring0(s: string, end: int): (r: string)
    ensures |r| == if end < 0 then 0 else if end > |s| then |s| else end
    ensures r == s[..|r|]
  {
    if end < 0 then "" else if end > |s| then s else s[..end]
  }

  /**
   * The truncation expression as written: the threshold is the limit, but the
   * cut uses `maxBodyLength` itself, so a longer body keeps its first
   * `maxBodyLength` characters (none when that is 0 or negative).
   */
  function TruncateAsWritten(body: string, maxBodyLength: int): (r: string)
    ensures |body| <= BodyLimit(maxBodyLength) ==> r == body
    ensures |body| > BodyLimit(maxBodyLength) ==>
      exists k :: 0 <= k <= |body| && k == (if maxBodyLength < 0 then 0 else maxBodyLength)
        && r == body[..k] + TruncationMarker
  {
    if |body| > BodyLimit(maxBodyLength) then
      var kept := Substring0(body, maxBodyLength);
      assert kept == body[..|kept|];
      kept + TruncationMarker
    else body
  }

  /**
   * The truncation as evidently intended: a body longer than the limit keeps
   * exactly its first `limit` characters (none for a negative limit) and
   * gains the marker; any other body is kept verbatim.
   */
  function Truncate(body: string, maxBodyLength: int): (r: string)
    ensures |body| <= BodyLimit(maxBodyLength) ==> r == body
    ensures |body| > BodyLimit(maxBodyLength) ==>
      exists k :: 0 <= k <= |body| && k == (if BodyLimit(maxBodyLength) < 0 then 0 else BodyLimit(maxBodyLength))
        && r == body[..k] + TruncationMarker
  {
    var limit := BodyLimit(maxBodyLength);
    if |body| > limit then
      var kept := Substring0(body, limit);
      assert kept == body[..|kept|];
      kept + TruncationMarker
    else body
  }

  /** The two agree for every non-zero `maxBodyLength`. */
  lemma TruncateAgreesAsWritten(body: string, maxBodyLength: int)
    requires maxBodyLength != 0
    ensures Truncate(body, maxBodyLength) == TruncateAsWritten(body, maxBodyLength)
  {
  }

  /**
   * With `maxBodyLength: 0` a body over the fallback limit of 1000 is cut to
   * nothing but the marker as written; the intended reading keeps its first
   * 1000 characters.
   */
  lemma TruncateZeroLimit(body: string)
    requires |body| > 1000
    ensures TruncateAsWritten(body, 0) == TruncationMarker
    ensures Truncate(body, 0) == body[..1000] + TruncationMarker
  {
    assert Substring0(body, 0) == "";
  }

  /** A truncated body is recognisable and gives back the text it kept: a prefix of the body. */
  lemma TruncatedKeepsPrefix(body: string, maxBodyLength: int)
    requires |body| > BodyLimit(maxBodyLength)
    ensures var r := Truncate(body, maxBodyLength);
      var kept := r[..|r| - |TruncationMarker|];
      && |r| >= |TruncationMarker|
      && r[|r| - |TruncationMarker|..] == TruncationMarker
      && kept == body[..|kept|]
      && (|kept| < |body| || body == "")
  {
    var r := Truncate(body, maxBodyLength);
    var limit := BodyLimit(maxBodyLength);
    var k := if limit < 0 then 0 else limit;
    assert r == body[..k] + TruncationMarker;
    assert r[..|r| - |TruncationMarker|] == body[..k];
    assert r[|r| - |TruncationMarker|..] == TruncationMarker;
  }

  /** The body text before truncation: an object is redacted and serialised, anything else converted. */
  function BodyText(cfg: Config, body: Val, serialize: Val -> Result<string, string>): Result<string, string> {
    if body.Obj? then
      serialize(Redact(body, SensitiveKeys(Some(cfg.sensitiveHeaders), Some(cfg.sensitiveParams)), MaskText(Some(cfg.maskText))))
    else Ok(JsString(body))
  }

  /**
   * `captureRequestData`. `serialize` stands for `JSON.stringify`, whose
   * failure (`Err`) is the exception it throws; `timestamp` is the clock's
   * ISO text.
   */
  function Capture(cfg: Config, req: HttpRequest, requestId: string, timestamp: string,
                   serialize: Val -> Result<string, string>): (r: Result<RequestData, string>)
    reads req
    ensures r.Err? <==> cfg.logBody && Truthy(req.body) && BodyText(cfg, req.body, serialize).Err?
    ensures r.Ok? ==> var d := r.value;
      && d.requestId == requestId && d.timestamp == timestamp
      && d.httpMethod == req.httpMethod && d.originalUrl == req.originalUrl && d.path == req.path
      && d.ip == ClientAddress(req.ip, req.remoteAddress, req.hostname)
      && (d.params.Some? <==> cfg.logParams)
      && (d.headers.Some? <==> cfg.logHeaders)
      && (d.body.Some? <==> cfg.logBody && Truthy(req.body))
      && d.userAgent == HeaderLookup(req.headers, "user-agent").GetOr("")
      && var keys := SensitiveKeys(Some(cfg.sensitiveHeaders), Some(cfg.sensitiveParams));
         var mask := MaskText(Some(cfg.maskText));
         && (cfg.logParams ==> d.params == Some(Redact(req.query, keys, mask)))
         && (cfg.logHeaders ==> d.headers == Some(Redact(HeadersVal(req.headers), keys, mask)))
         && (d.body.Some? ==>
               (BodyText(cfg, req.body, serialize).Ok?
                && d.body.value == Truncate(BodyText(cfg, req.body, serialize).value, cfg.maxBodyLength)))
  {
    var keys := SensitiveKeys(Some(cfg.sensitiveHeaders), Some(cfg.sensitiveParams));
    var mask := MaskText(Some(cfg.maskText));
    var params := if cfg.logParams then Some(Redact(req.query, keys, mask)) else None;
    var headers := if cfg.logHeaders then Some(Redact(HeadersVal(req.headers), keys, mask)) else None;
    var base := RequestData(requestId, timestamp, req.httpMethod, req.originalUrl, req.path,
      ClientAddress(req.ip, req.remoteAddress, req.hostname),
      HeaderLookup(req.headers, "user-agent").GetOr(""), params, headers, None);
    if cfg.logBody && Truthy(req.body) then
      match BodyText(cfg, req.body, serialize)
      case Err(e) => Err(e)
      case Ok(text) => Ok(base.(body := Some(Truncate(text, cfg.maxBodyLength))))
    else Ok(base)
  }

  /**
   * The captured body is the code's own truncation except in the one case of
   * the truncation finding: `maxBodyLength` 0 and a body text over 1000
   * characters.
   */
  lemma CaptureBodyAsWritten(cfg: Config, req: HttpRequest, requestId: string, timestamp: string,
                             serialize: Val -> Result<string, string>)
    ensures var r := Capture(cfg, req, requestId, timestamp, serialize);
      r.Ok? && r.value.body.Some? ==>
        var text := BodyText(cfg, req.body, serialize).value;
        !(cfg.maxBodyLength == 0 && |text| > 1000) ==> r.value.body.value == TruncateAsWritten(text, cfg.maxBodyLength)
  {
    var r := Capture(cfg, req, requestId, timestamp, serialize);
    if r.Ok? && r.value.body.Some? {
      var text := BodyText(cfg, req.body, serialize).value;
      if cfg.maxBodyLength != 0 {
        TruncateAgreesAsWritten(text, cfg.maxBodyLength);
      }
    }
  }

  /** Captured parameters and headers are masked at every depth. */
  lemma CaptureMasks(cfg: Config, req: HttpRequest, requestId: string, timestamp: string,
                     serialize: Val -> Result<string, string>)
    ensures var r := Capture(cfg, req, requestId, timestamp, serialize);
      var keys := SensitiveKeys(Some(cfg.sensitiveHeaders), Some(cfg.sensitiveParams));
      var mask := MaskText(Some(cfg.maskText));
      r.Ok? ==>
        && (r.value.params.Some? ==> Masked(r.value.params.value, keys, mask))
        && (r.value.headers.Some? ==> Masked(r.value.headers.value, keys, mask))
  {
    var keys := SensitiveKeys(Some(cfg.sensitiveHeaders), Some(cfg.sensitiveParams));
    var mask := MaskText(Some(cfg.maskText));
    RedactMasks(req.query, keys, mask);
    RedactMasks(HeadersVal(req.headers), keys, mask);
  }

  // ---------------------------------------------------------------------------
  // Log lines

  /** Some captured field is truthy: parameters, headers or a non-empty body. */
  predicate DetailsPresent(d: RequestData) {
    (d.params.Some? && Truthy(d.params.value))
    || (d.headers.Some? && Truthy(d.headers.value))
    || (d.body.Some? && d.body.value != "")
  }

  /**
   * `logRequest`: one detail line at debug severity (verbose when the logger
   * has no `debug`) when some capture toggle is on and something was
   * captured; a logger with neither method logs nothing.
   */
  function RequestLog(cfg: Config, d: RequestData, hasDebug: bool, hasVerbose: bool): (events: seq<LogEvent>)
    ensures |events| <= 1
    ensures events != [] <==>
      (cfg.logParams || cfg.logHeaders || cfg.logBody) && DetailsPresent(d) && (hasDebug || hasVerbose)
    ensures events != [] ==>
      events[0] == LogEvent(if hasDebug then Debug else Verbose, "HTTP", "[" + d.requestId + "] Request details:")
  {
    if (cfg.logParams || cfg.logHeaders || cfg.logBody) && DetailsPresent(d) then
      var message := "[" + d.requestId + "] Request details:";
      if hasDebug then [LogEvent(Debug, "HTTP", message)]
      else if hasVerbose then [LogEvent(Verbose, "HTTP", message)]
      else []
    else []
  }

  /**
   * With the default options every traced request gets a detail line: the
   * query is always an object, and objects are truthy.
   */
  lemma DefaultsLogDetails(req: HttpRequest, requestId: string, timestamp: string,
                           serialize: Val -> Result<string, string>)
    requires req.query.Obj?
    ensures var r := Capture(MiddlewareDefaults, req, requestId, timestamp, serialize);
      r.Ok? && |RequestLog(MiddlewareDefaults, r.value, true, true)| == 1
  {
  }

  function SeverityRank(s: Severity): nat {
    match s
    case Log => 0
    case Warn => 1
    case Error => 2
    case _ => 0
  }

  /**
   * The response line's severity: error when a truthy error was passed
   * (`errored`) or the status is 500 or more, warn from 400 to 499, log below.
   */
  function ResponseSeverity(statusCode: int, errored: bool): (s: Severity)
    ensures s == Error <==> errored || statusCode >= 500
    ensures s == Warn <==> !errored && 400 <= statusCode < 500
    ensures s == Log <==> !errored && statusCode < 400
  {
    if errored || statusCode >= 500 then Error
    else if statusCode >= 400 then Warn
    else Log
  }

  /** A higher status never gives a milder line, and a failure never a milder one than success. */
  lemma SeverityMonotone(a: int, b: int, e1: bool, e2: bool)
    requires a <= b && (e1 ==> e2)
    ensures SeverityRank(ResponseSeverity(a, e1)) <= SeverityRank(ResponseSeverity(b, e2))
  {
  }

  /** `toFixed(2)` of a duration given in hundredths of a millisecond. */
  function DurationText(hundredths: nat): (r: string)
    ensures |r| >= 4 && r[|r| - 3] == '.'
    ensures AllDigits(r[..|r| - 3]) && AllDigits(r[|r| - 2..])
  {
    var whole := NatToString(hundredths / 100);
    var frac := [DigitChar((hundredths % 100) / 10), DigitChar(hundredths % 10)];
    assert (whole + "." + frac)[..|whole|] == whole;
    assert (whole + "." + frac)[|whole| + 1..] == frac;
    whole + "." + frac
  }

  /** Reading the text back gives the duration: whole milliseconds, then two decimals. */
  lemma DurationTextRoundTrip(hundredths: nat)
    ensures var r := DurationText(hundredths);
      DigitsValue(r[..|r| - 3]) * 100 + DigitsValue(r[|r| - 2..]) == hundredths
  {
    var r := DurationText(hundredths);
    var whole := NatToString(hundredths / 100);
    var frac := [DigitChar((hundredths % 100) / 10), DigitChar(hundredths % 10)];
    assert r[..|r| - 3] == whole;
    assert r[|r| - 2..] == frac;
    DigitsRoundTrip(hundredths / 100);
    assert frac[..1] == [frac[0]];
    assert DigitsValue(frac) == DigitsValue(frac[..1]) * 10 + DigitValue(frac[1]);
  }

  /** `res.get('content-length') || 0`: the header when it is present and non-empty, else `0`. */
  function ContentLength(headers: map<string, string>): (r: string)
    ensures r != ""
    ensures Present(HeaderLookup(headers, "content-length")) ==>
      "content-length" in headers && r == headers["content-length"]
    ensures !Present(HeaderLookup(headers, "content-length")) ==> r == "0"
  {
    LowerUnchanged("content-length");
    var v := HeaderLookup(headers, "content-length");
    if Present(v) then v.value else "0"
  }

  /** `[${requestId}] ${method} ${originalUrl} ${statusCode} ${contentLength}B - ${durationMs}ms`. */
  function ResponseMessage(d: RequestData, statusCode: int, contentLength: string, hundredths: nat): (m: string)
    ensures StartsWith(m, "[" + d.requestId + "] ")
    ensures m == "[" + d.requestId + "] " + d.httpMethod + " " + d.originalUrl + " " + IntToString(statusCode) + " "
      + contentLength + "B - " + DurationText(hundredths) + "ms"
  {
    var head := "[" + d.requestId + "] ";
    var m := head + d.httpMethod + " " + d.originalUrl + " " + IntToString(statusCode) + " "
      + contentLength + "B - " + DurationText(hundredths) + "ms";
    assert m[..|head|] == head;
    m
  }

  // ---------------------------------------------------------------------------
  // Header hardening

  const RemovedHeaders: set<string> :=
    {"access-control-allow-origin", "access-control-allow-credentials", "access-control-allow-methods"}

  /**
   * The response headers of a traced request: `X-Powered-By` and `ETag` set
   * to the engine's values, the three `Access-Control-Allow-*` headers
   * removed, every other header untouched.
   */
  function Hardened(headers: map<string, string>): (r: map<string, string>)
    ensures r.Keys == (headers.Keys - RemovedHeaders) + {"x-powered-by", "etag"}
    ensures r["x-powered-by"] == "Animal-Party-Engine" && r["etag"] == "Toi yeu em"
    ensures forall n :: n in headers && n !in RemovedHeaders && n != "x-powered-by" && n != "etag" ==> r[n] == headers[n]
  {
    (headers - RemovedHeaders)["x-powered-by" := "Animal-Party-Engine"]["etag" := "Toi yeu em"]
  }

  /** The header names the tracers pass, as Node stores them. */
  lemma HardenedHeaderNames()
    ensures Lower("X-Powered-By") == "x-powered-by"
    ensures Lower("ETag") == "etag"
    ensures Lower("Access-Control-Allow-Origin") == "access-control-allow-origin"
    ensures Lower("Access-Control-Allow-Credentials") == "access-control-allow-credentials"
    ensures Lower("Access-Control-Allow-Methods") == "access-control-allow-methods"
  {
    LowerPoweredBy();
    LowerAccessControl();
    LowerPrefix("Access-Control-Allow-", "access-control-allow-", "Origin", "origin");
    LowerAllowCredentials();
    LowerPrefix("Access-Control-Allow-", "access-control-allow-", "Methods", "methods");
  }

  lemma LowerPoweredBy()
    ensures Lower("X-Powered-By") == "x-powered-by"
  {
    LowerPrefix("X-", "x-", "Powered-By", "powered-by");
  }

  lemma LowerAllowCredentials()
    requires Lower("Access-Control-Allow-") == "access-control-allow-"
    ensures Lower("Access-Control-Allow-Credentials") == "access-control-allow-credentials"
  {
    LowerPrefix("Access-Control-Allow-", "access-control-allow-", "Credentials", "credentials");
  }

  lemma LowerAccessControl()
    ensures Lower("Access-Control-Allow-") == "access-control-allow-"
  {
    LowerPrefix("Access-", "access-", "Control-", "control-");
    LowerPrefix("Access-Control-", "access-control-", "Allow-", "allow-");
  }

  lemma LowerPrefix(a: string, la: string, b: string, lb: string)
    requires Lower(a) == la && Lower(b) == lb
    ensures Lower(a + b) == la + lb
  {
  }

  lemma HardenedIdempotent(headers: map<string, string>)
    ensures Hardened(Hardened(headers)) == Hardened(headers)
  {
  }
}
