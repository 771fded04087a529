/**
 * The parts of Express's request and response objects the tracer and the
 * rate limiter touch. Header names are stored lowercased, as Node stores
 * them, and every lookup lowercases the name it is given.
 */
module Http {
  import opened Strings
  import opened Wrappers
  import opened Json

  /** A string value that is present and truthy (`undefined` and `""` are not). */
  predicate Present(s: Option<string>) {
    s.Some? && s.value != ""
  }

  /** `req.header(name)` / `res.get(name)`: case-insensitive lookup. */
  function HeaderLookup(headers: map<string, string>, name: string): (r: Option<string>)
    ensures r.Some? <==> Lower(name) in headers
    ensures r.Some? ==> r.value == headers[Lower(name)]
  {
    if Lower(name) in headers then Some(headers[Lower(name)]) else None
  }

  /** Names that differ only in ASCII case find the same header. */
  lemma HeaderLookupIgnoresCase(headers: map<string, string>, a: string, b: string)
    requires Lower(a) == Lower(b)
    ensures HeaderLookup(headers, a) == HeaderLookup(headers, b)
  {
  }

  /**
   * A header stored the way `res.set` stores it is found again under its own
   * name and under its lowercased name; once removed the way `removeHeader`
   * removes it, neither finds it.
   */
  lemma HeaderStoredThenFound(headers: map<string, string>, name: string, value: string)
    ensures HeaderLookup(headers[Lower(name) := value], name) == Some(value)
    ensures HeaderLookup(headers[Lower(name) := value], Lower(name)) == Some(value)
    ensures HeaderLookup(headers - {Lower(name)}, name) == None
    ensures HeaderLookup(headers - {Lower(name)}, Lower(name)) == None
  {
    LowerIdempotent(name);
  }

  /** The header table as the JSON object `maskSensitiveData` receives. */
  function HeadersVal(headers: map<string, string>): (v: Val)
    ensures v.Obj? && v.fields.Keys == headers.Keys
    ensures forall k :: k in headers ==> v.fields[k] == Str(headers[k])
  {
    Obj(map k | k in headers :: Str(headers[k]))
  }

  class HttpRequest {
    const httpMethod: string
    /** `req.path`: the URL path without the query string. */
    const path: string
    const originalUrl: string
    /** `req.ip`, `req.socket.remoteAddress` and `req.hostname`; `None` is `undefined`. */
    const ip: Option<string>
    const remoteAddress: Option<string>
    const hostname: string
    /** `req.query` and `req.body`, `Null` standing for `undefined`. */
    const query: Val
    const body: Val
    var headers: map<string, string>
    /** The `requestId` property the tracer attaches. */
    var requestId: Option<string>

    constructor(httpMethod: string, path: string, originalUrl: string, ip: Option<string>,
                remoteAddress: Option<string>, hostname: string, query: Val, body: Val,
                headers: map<string, string>)
      ensures this.httpMethod == httpMethod && this.path == path && this.originalUrl == originalUrl
      ensures this.ip == ip && this.remoteAddress == remoteAddress && this.hostname == hostname
      ensures this.query == query && this.body == body
      ensures this.headers == headers && requestId == None
    {
      this.httpMethod := httpMethod;
      this.path := path;
      this.originalUrl := originalUrl;
      this.ip := ip;
      this.remoteAddress := remoteAddress;
      this.hostname := hostname;
      this.query := query;
      this.body := body;
      this.headers := headers;
      requestId := None;
    }
  }

  class HttpResponse {
    /** `res.statusCode`. */
    var statusCode: int
    var headers: map<string, string>

    constructor(statusCode: int, headers: map<string, string>)
      ensures this.statusCode == statusCode && this.headers == headers
    {
      this.statusCode := statusCode;
      this.headers := headers;
    }

    /** `res.set(name, value)` / `res.header(name, value)`. */
    method Set(name: string, value: string)
      modifies this
      ensures headers == old(headers)[Lower(name) := value]
      ensures statusCode == old(statusCode)
    {
      headers := headers[Lower(name) := value];
    }

    /** `res.removeHeader(name)`. */
    method RemoveHeader(name: string)
      modifies this
      ensures headers == old(headers) - {Lower(name)}
      ensures statusCode == old(statusCode)
    {
      headers := headers - {Lower(name)};
    }
  }
}
