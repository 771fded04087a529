/**
 * `RequestLoggerInterceptor`, the Nest form of the tracer. Unlike the
 * middleware it has no guard of its own: a failed capture escapes
 * `intercept` and the handler never runs. When the handler's stream
 * completes (`Settle` here), the response is logged, at error severity if
 * the handler failed with a truthy error, and its latency recorded on both paths.
 */
module LoggerInterceptor {
  import opened Wrappers
  import opened Json
  import opened Logging
  import opened Http
  import opened Metrics
  import opened TracerCore

  /** What `intercept` does with a request. */
  datatype Interception = Passed | Traced(data: RequestData) | Threw(message: string)

  class RequestLoggerInterceptor {
    const config: Config
    /** Whether the logger has a `debug` and a `verbose` method. */
    const hasDebug: bool
    const hasVerbose: bool
    const metrics: LatencyMetrics

    ghost predicate Valid()
      reads this, metrics
    {
      metrics.Valid()
    }

    constructor(options: LoggerOptions, hasDebug: bool, hasVerbose: bool)
      ensures Valid() && fresh(metrics) && metrics.metricsMap == map[]
      ensures config == Merge(InterceptorDefaults, options)
      ensures this.hasDebug == hasDebug && this.hasVerbose == hasVerbose
    {
      config := Merge(InterceptorDefaults, options);
      this.hasDebug := hasDebug;
      this.hasVerbose := hasVerbose;
      metrics := new LatencyMetrics();
    }

    /**
     * `intercept`, up to handing over to the handler. A skipped request goes
     * straight to the handler untouched; a traced one gets its id, a detail
     * line and the hardened headers; a failed capture propagates, so the
     * handler is not called (the id has already been written by then).
     */
    method Intercept(req: HttpRequest, res: HttpResponse, isExcluded: (string, string) -> bool, freshId: string,
                     timestamp: string, serialize: Val -> Result<string, string>)
      returns (trace: Interception, events: seq<LogEvent>, callsHandler: bool)
      modifies req, res
      ensures callsHandler <==> !trace.Threw?
      ensures res.statusCode == old(res.statusCode)
      ensures ShouldSkip(config, isExcluded, req.path, req.originalUrl) ==>
        && trace == Passed && events == []
        && req.headers == old(req.headers) && req.requestId == old(req.requestId)
        && res.headers == old(res.headers)
      ensures !ShouldSkip(config, isExcluded, req.path, req.originalUrl) ==>
        var ids := RequestIdFor(old(req.headers), HeaderName(config), freshId);
        && req.headers == ids.1 && req.requestId == Some(ids.0)
        && match Capture(config, req, ids.0, timestamp, serialize)
           case Err(message) =>
             trace == Threw(message) && events == [] && res.headers == old(res.headers)
           case Ok(data) =>
             trace == Traced(data) && events == RequestLog(config, data, hasDebug, hasVerbose)
             && res.headers == Hardened(old(res.headers))
    {
      if ShouldSkip(config, isExcluded, req.path, req.originalUrl) {
        return Passed, [], true;
      }
      var requestId := GetOrGenerateRequestId(config, req, freshId);
      var captured := Capture(config, req, requestId, timestamp, serialize);
      if captured.Err? {
        return Threw(captured.error), [], false;
      }
      var requestData := captured.value;
      events := RequestLog(config, requestData, hasDebug, hasVerbose);
      trace := Traced(requestData);
      callsHandler := true;
      ghost var before := res.headers;
      res.Set("X-Powered-By", "Animal-Party-Engine");
      res.Set("ETag", "Toi yeu em");
      res.RemoveHeader("Access-Control-Allow-Origin");
      res.RemoveHeader("Access-Control-Allow-Credentials");
      res.RemoveHeader("Access-Control-Allow-Methods");
      HardenedInOrder(before);
    }

    /**
     * The `tap` callbacks once the handler's stream ends: `error` is `None`
     * for the value callback and the thrown value for the error callback.
     * Both log the response line and record one latency sample under
     * `METHOD:PATH`, from one clock reading. The line is at error severity
     * when the thrown value is truthy; a falsy one counts as no error.
     */
    method Settle(trace: Interception, req: HttpRequest, res: HttpResponse, error: Option<Val>, hundredths: nat)
      returns (events: seq<LogEvent>)
      requires Valid()
      modifies metrics
      ensures Valid()
      ensures trace.Traced? ==>
        && events == [LogEvent(ResponseSeverity(res.statusCode, error.Some? && Truthy(error.value)), "HTTP",
                               ResponseMessage(trace.data, res.statusCode, ContentLength(res.headers), hundredths))]
        && metrics.metricsMap == Recorded(old(metrics.metricsMap), MetricKey(req.httpMethod, req.path), hundredths)
      ensures !trace.Traced? ==> events == [] && metrics.metricsMap == old(metrics.metricsMap)
    {
      if !trace.Traced? {
        return [];
      }
      var statusCode := res.statusCode;
      var message := ResponseMessage(trace.data, statusCode, ContentLength(res.headers), hundredths);
      events := [LogEvent(ResponseSeverity(statusCode, error.Some? && Truthy(error.value)), "HTTP", message)];
      metrics.Track(req.httpMethod, req.path, hundredths);
    }

    /** `reportMetrics`: the per-key summaries, logged at verbose severity when there are any. */
    method ReportMetrics() returns (report: Option<map<string, Summary>>, events: seq<LogEvent>)
      ensures report == Report(metrics.metricsMap)
      ensures report.None? <==> |metrics.metricsMap| == 0
      ensures events == if report.Some? && hasVerbose then [LogEvent(Verbose, "HTTP", "Request metrics (last minute):")] else []
    {
      report := Report(metrics.metricsMap);
      events := if report.Some? && hasVerbose then [LogEvent(Verbose, "HTTP", "Request metrics (last minute):")] else [];
    }
  }

  /** Setting both headers, then removing three: the interceptor's order gives the hardened headers. */
  lemma HardenedInOrder(headers: map<string, string>)
    ensures headers[Strings.Lower("X-Powered-By") := "Animal-Party-Engine"][Strings.Lower("ETag") := "Toi yeu em"]
      - {Strings.Lower("Access-Control-Allow-Origin")}
      - {Strings.Lower("Access-Control-Allow-Credentials")}
      - {Strings.Lower("Access-Control-Allow-Methods")}
      == Hardened(headers)
  {
    HardenedHeaderNames();
  }
}
