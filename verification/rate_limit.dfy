/**
 * `RateLimitMiddleware.use`: a per-IP request counter whose window restarts
 * only after `windowMs` without requests from that IP. The clock is a
 * parameter (`now`, in milliseconds) and the thrown `HttpException`s are the
 * verdicts `BadRequest` and `TooManyRequests`; calling `next()` is `Proceed`.
 */
module RateLimit {
  import opened Wrappers
  import opened Logging
  import opened Http

  /** One client's entry: requests counted in the current window and the time of the latest one. */
  datatype RateRecord = RateRecord(count: nat, lastRequest: int)

  datatype Verdict = Proceed | BadRequest | TooManyRequests

  /** The options the rate-limit module provides. */
  const DefaultLimit: int := 50
  const DefaultWindowMs: int := 60000

  type Table = map<string, RateRecord>

  /** `req.ip || req.socket.remoteAddress`. */
  function ClientIp(ip: Option<string>, remoteAddress: Option<string>): (r: Option<string>)
    ensures Present(ip) ==> r == ip
    ensures !Present(ip) ==> r == remoteAddress
    ensures Present(r) <==> Present(ip) || Present(remoteAddress)
  {
    if Present(ip) then ip else remoteAddress
  }

  function ExceededMessage(ip: string): string {
    "Rate limit exceeded for IP " + ip
  }

  /** Every stored record has counted at least the request that created it. */
  predicate ValidTable(table: Table) {
    forall k :: k in table ==> table[k].count >= 1
  }

  /**
   * One call of `use` as a transition on the table: the new table, the
   * verdict and the log events. A missing address changes nothing; a first
   * or expired record restarts the window; otherwise the count goes up, the
   * time is refreshed, and the request is refused once the count exceeds
   * `limit` (the table is updated before the refusal).
   */
  function Step(table: Table, limit: int, windowMs: int, ip: Option<string>, now: int): (r: (Table, Verdict, seq<LogEvent>))
    ensures !Present(ip) ==> r == (table, BadRequest, [])
    ensures Present(ip) ==> r.0.Keys == table.Keys + {ip.value}
    ensures Present(ip) ==> forall k :: k in table && k != ip.value ==> r.0[k] == table[k]
    ensures Present(ip) ==> r.0[ip.value].lastRequest == now
    ensures Present(ip) && (ip.value !in table || now - table[ip.value].lastRequest > windowMs) ==>
      r.0[ip.value].count == 1 && r.1 == Proceed
    ensures Present(ip) && ip.value in table && now - table[ip.value].lastRequest <= windowMs ==>
      r.0[ip.value].count == table[ip.value].count + 1 &&
      (r.1 == TooManyRequests <==> table[ip.value].count + 1 > limit) &&
      (r.1 == Proceed <==> table[ip.value].count + 1 <= limit)
    ensures r.1 == BadRequest <==> !Present(ip)
    ensures r.1 == TooManyRequests ==> r.2 == [LogEvent(Warn, "RateLimit", ExceededMessage(ip.value))]
    ensures r.1 != TooManyRequests ==> r.2 == []
  {
    if !Present(ip) then (table, BadRequest, [])
    else
      var key := ip.value;
      if key !in table || now - table[key].lastRequest > windowMs then
        (table[key := RateRecord(1, now)], Proceed, [])
      else
        var record := RateRecord(table[key].count + 1, now);
        if record.count > limit then
          (table[key := record], TooManyRequests, [LogEvent(Warn, "RateLimit", ExceededMessage(key))])
        else
          (table[key := record], Proceed, [])
  }

  lemma StepKeepsValid(table: Table, limit: int, windowMs: int, ip: Option<string>, now: int)
    requires ValidTable(table)
    ensures ValidTable(Step(table, limit, windowMs, ip, now).0)
  {
  }

  /**
   * Requests from one address at the given times, in order, starting from
   * `table`: the final table and the verdict of each request.
   */
  function Burst(table: Table, limit: int, windowMs: int, ip: string, times: seq<int>): (r: (Table, seq<Verdict>))
    ensures |r.1| == |times|
  {
    if |times| == 0 then (table, [])
    else
      var before := Burst(table, limit, windowMs, ip, times[..|times| - 1]);
      var s := Step(before.0, limit, windowMs, Some(ip), times[|times| - 1]);
      (s.0, before.1 + [s.1])
  }

  /** Consecutive times no further apart than the window. */
  predicate WithinWindow(times: seq<int>, windowMs: int) {
    forall k :: 1 <= k < |times| ==> times[k] - times[k - 1] <= windowMs
  }

  /**
   * From no record, a run of requests each at most `windowMs` after the last
   * one is one window: the count is the number of requests, the first is
   * always let through, and request `k` (from 0) is refused exactly when
   * `k + 1 > limit`. Refused requests refresh the time too, so the window
   * never restarts during such a run.
   */
  lemma {:induction false} BurstCounts(table: Table, limit: int, windowMs: int, ip: string, times: seq<int>)
    requires ip != "" && ip !in table
    requires |times| >= 1
    requires WithinWindow(times, windowMs)
    ensures var r := Burst(table, limit, windowMs, ip, times);
      && ip in r.0
      && r.0[ip] == RateRecord(|times|, times[|times| - 1])
      && (forall k :: 0 <= k < |times| ==> (r.1[k] == TooManyRequests <==> k >= 1 && k + 1 > limit))
      && (forall k :: 0 <= k < |times| ==> r.1[k] != BadRequest)
  {
    var n := |times|;
    var prefix := times[..n - 1];
    var before := Burst(table, limit, windowMs, ip, prefix);
    if n == 1 {
      assert before == (table, []);
    } else {
      assert WithinWindow(prefix, windowMs) by {
        forall k | 1 <= k < |prefix| ensures prefix[k] - prefix[k - 1] <= windowMs {
          assert prefix[k] == times[k] && prefix[k - 1] == times[k - 1];
        }
      }
      BurstCounts(table, limit, windowMs, ip, prefix);
      assert before.0[ip] == RateRecord(n - 1, times[n - 2]);
      assert times[n - 1] - times[n - 2] <= windowMs;
    }
  }

  /** With the default options, requests 1 to 50 of one window pass and request 51 is refused. */
  lemma DefaultLimitExample(table: Table, ip: string, times: seq<int>)
    requires ip != "" && ip !in table
    requires |times| == 51 && WithinWindow(times, DefaultWindowMs)
    ensures var r := Burst(table, DefaultLimit, DefaultWindowMs, ip, times);
      (forall k :: 0 <= k < 50 ==> r.1[k] == Proceed) && r.1[50] == TooManyRequests
  {
    BurstCounts(table, DefaultLimit, DefaultWindowMs, ip, times);
  }

  /** A request more than `windowMs` after the previous one starts a new window and is let through. */
  lemma ExpiredWindowResets(table: Table, limit: int, windowMs: int, ip: string, now: int)
    requires ip != "" && ip in table && now - table[ip].lastRequest > windowMs
    ensures var r := Step(table, limit, windowMs, Some(ip), now);
      r.0[ip] == RateRecord(1, now) && r.1 == Proceed
  {
  }

  /**
   * The middleware instance: one table shared by every request it sees. The
   * rate-limit service builds a single instance, so the table outlives each
   * call.
   */
  class RateLimitMiddleware {
    var rateCounter: Table
    const limit: int
    const windowMs: int

    predicate Valid()
      reads this
    {
      ValidTable(rateCounter)
    }

    constructor(limit: int, windowMs: int)
      ensures Valid()
      ensures rateCounter == map[] && this.limit == limit && this.windowMs == windowMs
    {
      rateCounter := map[];
      this.limit := limit;
      this.windowMs := windowMs;
    }

    /** Handles one request at time `now`; the table is updated in place. */
    method Use(req: HttpRequest, now: int) returns (verdict: Verdict, events: seq<LogEvent>)
      requires Valid()
      modifies this
      ensures Valid()
      ensures (rateCounter, verdict, events) == Step(old(rateCounter), limit, windowMs, ClientIp(req.ip, req.remoteAddress), now)
    {
      var client := ClientIp(req.ip, req.remoteAddress);
      if !Present(client) {
        return BadRequest, [];
      }
      var key := client.value;
      if key !in rateCounter || now - rateCounter[key].lastRequest > windowMs {
        rateCounter := rateCounter[key := RateRecord(1, now)];
      } else {
        var requestLog := rateCounter[key];
        requestLog := requestLog.(count := requestLog.count + 1);
        requestLog := requestLog.(lastRequest := now);
        rateCounter := rateCounter[key := requestLog];
        if requestLog.count > limit {
          return TooManyRequests, [LogEvent(Warn, "RateLimit", ExceededMessage(key))];
        }
      }
      return Proceed, [];
    }
  }
}
