/**
 * `RequestLoggerMiddleware`, the Express form of the tracer. `use` runs
 * before the handler and always hands the request on, even when its own
 * capture fails; the patched `res.end` (`Finish` here) logs the response and
 * records its latency when the response completes.
 */
module LoggerMiddleware {
  import opened Wrappers
  import opened Json
  import opened Logging
  import opened Http
  import opened Metrics
  import opened TracerCore

  /** What `use` leaves armed on `res.end`. */
  datatype Trace = Skipped | Traced(data: RequestData) | Faulted

  /** The line logged when the tracer itself fails. */
  function FaultMessage(message: string): string {
    "Error in RequestLogger middleware: " + message
  }

  class RequestLoggerMiddleware {
    const config: Config
    /** Whether the logger has a `debug` and a `verbose` method. */
    const hasDebug: bool
    const hasVerbose: bool
    const metrics: LatencyMetrics

    ghost predicate Valid()
      reads this, metrics
    {
      metrics.Valid()
    }

    constructor(options: LoggerOptions, hasDebug: bool, hasVerbose: bool)
      ensures Valid() && fresh(metrics) && metrics.metricsMap == map[]
      ensures config == Merge(MiddlewareDefaults, options)
      ensures this.hasDebug == hasDebug && this.hasVerbose == hasVerbose
    {
      config := Merge(MiddlewareDefaults, options);
      this.hasDebug := hasDebug;
      this.hasVerbose := hasVerbose;
      metrics := new LatencyMetrics();
    }

    /**
     * `use`. `isExcluded` decides an exclusion pattern against a path,
     * `freshId` is the id `randomUUID()` would draw, `timestamp` the clock's
     * ISO text and `serialize` stands for `JSON.stringify`. A skipped request
     * is untouched; a traced one gets its id, a detail line and the hardened
     * headers; a failed capture is logged and swallowed. `next()` is always
     * called.
     */
    method Use(req: HttpRequest, res: HttpResponse, isExcluded: (string, string) -> bool, freshId: string,
               timestamp: string, serialize: Val -> Result<string, string>)
      returns (trace: Trace, events: seq<LogEvent>, callsNext: bool)
      modifies req, res
      ensures callsNext
      ensures res.statusCode == old(res.statusCode)
      ensures ShouldSkip(config, isExcluded, req.path, req.originalUrl) ==>
        && trace == Skipped && events == []
        && req.headers == old(req.headers) && req.requestId == old(req.requestId)
        && res.headers == old(res.headers)
      ensures !ShouldSkip(config, isExcluded, req.path, req.originalUrl) ==>
        var ids := RequestIdFor(old(req.headers), HeaderName(config), freshId);
        && req.headers == ids.1 && req.requestId == Some(ids.0)
        && match Capture(config, req, ids.0, timestamp, serialize)
           case Err(message) =>
             trace == Faulted && events == [LogEvent(Error, "HTTP", FaultMessage(message))]
             && res.headers == old(res.headers)
           case Ok(data) =>
             trace == Traced(data) && events == RequestLog(config, data, hasDebug, hasVerbose)
             && res.headers == Hardened(old(res.headers))
    {
      callsNext := true;
      if ShouldSkip(config, isExcluded, req.path, req.originalUrl) {
        return Skipped, [], callsNext;
      }
      var requestId := GetOrGenerateRequestId(config, req, freshId);
      var captured := Capture(config, req, requestId, timestamp, serialize);
      if captured.Err? {
        return Faulted, [LogEvent(Error, "HTTP", FaultMessage(captured.error))], callsNext;
      }
      var requestData := captured.value;
      events := RequestLog(config, requestData, hasDebug, hasVerbose);
      trace := Traced(requestData);
      ghost var before := res.headers;
      res.Set("X-Powered-By", "Animal-Party-Engine");
      res.RemoveHeader("Access-Control-Allow-Origin");
      res.RemoveHeader("Access-Control-Allow-Credentials");
      res.RemoveHeader("Access-Control-Allow-Methods");
      res.Set("ETag", "Toi yeu em");
      HardenedInOrder(before);
    }

    /**
     * The patched `res.end`: for a traced request, one response line at the
     * severity of the final status and one latency sample under
     * `METHOD:PATH`; otherwise nothing. The clock is read twice, so the
     * logged duration (`loggedHundredths`) and the recorded one
     * (`recordedHundredths`) are separate readings.
     */
    method Finish(trace: Trace, req: HttpRequest, res: HttpResponse, loggedHundredths: nat, recordedHundredths: nat)
      returns (events: seq<LogEvent>)
      requires Valid()
      modifies metrics
      ensures Valid()
      ensures trace.Traced? ==>
        && events == [LogEvent(ResponseSeverity(res.statusCode, false), "HTTP",
                               ResponseMessage(trace.data, res.statusCode, ContentLength(res.headers), loggedHundredths))]
        && metrics.metricsMap == Recorded(old(metrics.metricsMap), MetricKey(req.httpMethod, req.path), recordedHundredths)
      ensures !trace.Traced? ==> events == [] && metrics.metricsMap == old(metrics.metricsMap)
    {
      if !trace.Traced? {
        return [];
      }
      var statusCode := res.statusCode;
      var message := ResponseMessage(trace.data, statusCode, ContentLength(res.headers), loggedHundredths);
      events := [LogEvent(ResponseSeverity(statusCode, false), "HTTP", message)];
      metrics.Track(req.httpMethod, req.path, recordedHundredths);
    }

    /** `reportMetrics`: the per-key summaries, logged at verbose severity when there are any. */
    method ReportMetrics() returns (report: Option<map<string, Summary>>, events: seq<LogEvent>)
      ensures report == Report(metrics.metricsMap)
      ensures report.None? <==> |metrics.metricsMap| == 0
      ensures events == if report.Some? && hasVerbose then [LogEvent(Verbose, "HTTP", "Request metrics (last minute):")] else []
    {
      report := Report(metrics.metricsMap);
      events := if report.Some? && hasVerbose then [LogEvent(Verbose, "HTTP", "Request metrics (last minute):")] else [];
    }
  }

  /** Setting, removing three headers, then setting again: the middleware's order gives the hardened headers. */
  lemma HardenedInOrder(headers: map<string, string>)
    ensures (headers[Strings.Lower("X-Powered-By") := "Animal-Party-Engine"]
      - {Strings.Lower("Access-Control-Allow-Origin")}
      - {Strings.Lower("Access-Control-Allow-Credentials")}
      - {Strings.Lower("Access-Control-Allow-Methods")})
      [Strings.Lower("ETag") := "Toi yeu em"] == Hardened(headers)
  {
    HardenedHeaderNames();
  }
}
