/** HttpLoggingPolicy: logs each request and response at INFO level with
    every header value and query parameter value that is not on an
    allow-list replaced by a placeholder, and never the body. */
module HttpLogging {
  import opened Wrappers
  import opened Strings
  import opened Dicts
  import opened Values
  import opened Redaction
  import opened Pipeline

  const DefaultLoggerName: string := "azure.core.pipeline.policies.http_logging_policy"

  /** DEFAULT_HEADERS_ALLOWLIST */
  const DefaultHeadersAllowlist: set<string> := {
    "x-ms-request-id", "x-ms-client-request-id", "x-ms-return-client-request-id", "x-ms-error-code",
    "traceparent", "Accept", "Cache-Control", "Connection", "Content-Length", "Content-Type", "Date",
    "ETag", "Expires", "If-Match", "If-Modified-Since", "If-None-Match", "If-Unmodified-Since",
    "Last-Modified", "Pragma", "Request-Id", "Retry-After", "Server", "Transfer-Encoding", "User-Agent",
    "WWW-Authenticate", "x-vss-e2eid", "x-msedge-ref"
  }

  /** Two header lists that only differ in the values the allow-list hides. */
  ghost predicate SameUpToRedaction(h1: seq<(string, string)>, h2: seq<(string, string)>, allowlist: set<string>) {
    && |h1| == |h2|
    && forall i :: 0 <= i < |h1| ==> h1[i].0 == h2[i].0 && (Allowed(allowlist, h1[i].0) ==> h1[i].1 == h2[i].1)
  }

  /** Changing a hidden header value cannot change the logged header lines. */
  lemma {:induction false} RedactedLinesHideValues(h1: seq<(string, string)>, h2: seq<(string, string)>, allowlist: set<string>)
    requires SameUpToRedaction(h1, h2, allowlist)
    ensures HeaderLines(h1, RedactedBy(allowlist)) == HeaderLines(h2, RedactedBy(allowlist))
    decreases |h1|
  {
    if h1 != [] {
      var n := |h1| - 1;
      assert SameUpToRedaction(h1[..n], h2[..n], allowlist) by {
        forall i | 0 <= i < n ensures h1[..n][i] == h1[i] && h2[..n][i] == h2[i] {
        }
      }
      RedactedLinesHideValues(h1[..n], h2[..n], allowlist);
      assert Redact(allowlist, h1[n].0, h1[n].1) == Redact(allowlist, h2[n].0, h2[n].1);
    }
  }

  /** The six components urllib.parse.urlparse splits a URL into. */
  datatype UrlParts = UrlParts(scheme: string, netloc: string, path: string, params: string, query: string, fragment: string)

  /** urllib.parse.urlparse, parse_qsl(..., keep_blank_values=True) and
      urlunparse; urlparse may raise ValueError (an unbalanced '[' in the
      network location, say), given here as the repr() of the error. */
  datatype UrlLib = UrlLib(
    urlparse: string -> Result<UrlParts, string>,
    parseQsl: string -> seq<(string, string)>,
    urlunparse: UrlParts -> string)

  /** [(key, redact(key, value)) for key, value in pairs] */
  function RedactQuery(pairs: seq<(string, string)>, allowlist: set<string>): (r: seq<(string, string)>)
    ensures |r| == |pairs|
    ensures forall i :: 0 <= i < |r| ==> r[i].0 == pairs[i].0 && r[i].1 == Redact(allowlist, pairs[i].0, pairs[i].1)
  {
    seq(|pairs|, i requires 0 <= i < |pairs| => (pairs[i].0, Redact(allowlist, pairs[i].0, pairs[i].1)))
  }

  function QueryItems(pairs: seq<(string, string)>): (r: seq<string>)
    ensures |r| == |pairs|
    ensures forall i :: 0 <= i < |r| ==> r[i] == pairs[i].0 + "=" + pairs[i].1
  {
    seq(|pairs|, i requires 0 <= i < |pairs| => pairs[i].0 + "=" + pairs[i].1)
  }

  predicate NoAmpersand(pairs: seq<(string, string)>) {
    forall i :: 0 <= i < |pairs| ==> '&' !in pairs[i].0 && '&' !in pairs[i].1
  }

  /** "&".join(["=".join(part) for part in pairs]): the items in their
      original order, recovered by splitting on '&' when no key or value
      holds one. */
  function BuildQuery(pairs: seq<(string, string)>): (r: string)
    ensures |pairs| == 0 ==> r == ""
    ensures |pairs| > 0 && NoAmpersand(pairs) ==> Split(r, '&') == QueryItems(pairs)
  {
    var items := QueryItems(pairs);
    if |pairs| > 0 && NoAmpersand(pairs) then
      assert forall i :: 0 <= i < |items| ==> '&' !in items[i] by {
        forall i | 0 <= i < |items| ensures '&' !in items[i] {
          assert items[i] == pairs[i].0 + "=" + pairs[i].1;
        }
      }
      SplitJoin(items, '&');
      Join(items, '&')
    else
      Join(items, '&')
  }

  /** After redaction the rebuilt query still splits back into the same keys,
      in the same order, each with its value or the placeholder; a URL
      without query parameters gets an empty query. */
  lemma RedactedQueryKeepsOrder(pairs: seq<(string, string)>, allowlist: set<string>)
    requires NoAmpersand(pairs)
    ensures |pairs| == 0 ==> BuildQuery(RedactQuery(pairs, allowlist)) == ""
    ensures |pairs| > 0 ==>
            var items := Split(BuildQuery(RedactQuery(pairs, allowlist)), '&');
            && |items| == |pairs|
            && forall i :: 0 <= i < |items| ==> items[i] == pairs[i].0 + "=" + Redact(allowlist, pairs[i].0, pairs[i].1)
  {
    var redacted := RedactQuery(pairs, allowlist);
    assert '&' !in RedactedPlaceholder;
    assert NoAmpersand(redacted);
  }

  predicate MultiRecord(env: Option<string>) {
    env.Some? && env.value != ""
  }

  /** The marker logged instead of the request body. */
  function BodyMarker(body: Body): (r: string)
    ensures IsUpload(body) ==> r == "File upload"
    ensures !IsUpload(body) ==> r == if BodyTruthy(body) then "A body is sent with the request" else "No body was attached to the request"
  {
    if IsUpload(body) then "File upload"
    else if BodyTruthy(body) then "A body is sent with the request"
    else "No body was attached to the request"
  }

  /** One INFO record per header for the multi-record mode. */
  function HeaderRecords(logger: Value, h: seq<(string, string)>, allowlist: set<string>): (r: seq<LogRecord>)
    ensures |r| == |h|
    ensures forall i :: 0 <= i < |h| ==>
      r[i] == LogRecord(logger, Info, "    %r: %r", [StrV(h[i].0), StrV(Redact(allowlist, h[i].0, h[i].1))])
    decreases |h|
  {
    if h == [] then []
    else
      var n := |h| - 1;
      var rest := HeaderRecords(logger, h[..n], allowlist);
      assert forall i :: 0 <= i < n ==> h[..n][i] == h[i];
      rest + [LogRecord(logger, Info, "    %r: %r", [StrV(h[n].0), StrV(Redact(allowlist, h[n].0, h[n].1))])]
  }

  lemma HeaderRecordsExtend(logger: Value, h: seq<(string, string)>, i: int, allowlist: set<string>)
    requires 0 <= i < |h|
    ensures HeaderRecords(logger, h[..i + 1], allowlist) == HeaderRecords(logger, h[..i], allowlist)
      + [LogRecord(logger, Info, "    %r: %r", [StrV(h[i].0), StrV(Redact(allowlist, h[i].0, h[i].1))])]
  {
    assert h[..i + 1][..i] == h[..i];
  }

  /** The loop logging one record per header; the records it emits are
      gathered first and appended together. */
  method AppendHeaderRecords(records: seq<LogRecord>, logger: Value, h: seq<(string, string)>, allowlist: set<string>)
    returns (r: seq<LogRecord>)
    ensures r == records + HeaderRecords(logger, h, allowlist)
  {
    var emitted := [];
    var i := 0;
    while i < |h|
      invariant 0 <= i <= |h|
      invariant emitted == HeaderRecords(logger, h[..i], allowlist)
    {
      HeaderRecordsExtend(logger, h, i, allowlist);
      emitted := emitted + [LogRecord(logger, Info, "    %r: %r", [StrV(h[i].0), StrV(Redact(allowlist, h[i].0, h[i].1))])];
      i := i + 1;
    }
    assert h[..|h|] == h;
    r := records + emitted;
  }

  /** The single-record request message. */
  function RequestMessage(redactedUrl: string, httpMethod: string, headers: Dict, body: Body, allowlist: set<string>): string {
    "Request URL: '" + redactedUrl + "'" + "\nRequest method: '" + httpMethod + "'" + "\nRequest headers:"
    + HeaderLines(headers, RedactedBy(allowlist)) + "\n" + BodyMarker(body)
  }

  /** The multi-record request records. */
  function RequestRecords(logger: Value, redactedUrl: string, httpMethod: string, headers: Dict, body: Body,
                          allowlist: set<string>): seq<LogRecord>
  {
    [ LogRecord(logger, Info, "Request URL: %r", [StrV(redactedUrl)]),
      LogRecord(logger, Info, "Request method: %r", [StrV(httpMethod)]),
      LogRecord(logger, Info, "Request headers:", []) ]
    + HeaderRecords(logger, headers, allowlist)
    + [LogRecord(logger, Info, BodyMarker(body), [])]
  }

  /** The single-record response message: status and redacted headers only. */
  function ResponseMessage(response: HttpResponse, allowlist: set<string>): string {
    "Response status: " + IntToString(response.statusCode) + "\nResponse headers:"
    + HeaderLines(response.headers, RedactedBy(allowlist))
  }

  /** The multi-record response records. */
  function ResponseRecords(logger: Value, response: HttpResponse, allowlist: set<string>): seq<LogRecord> {
    [ LogRecord(logger, Info, "Response status: %r", [IntV(response.statusCode)]),
      LogRecord(logger, Info, "Response headers:", []) ]
    + HeaderRecords(logger, response.headers, allowlist)
  }

  /** The request log is the same for any two requests that agree on the
      URL, the method, the header names and the allowed header values and
      have bodies of the same kind: hidden values and body content never
      reach it. */
  lemma RequestLogHidesSecrets(url: string, httpMethod: string, h1: Dict, h2: Dict, body1: Body, body2: Body, allowlist: set<string>)
    requires SameUpToRedaction(h1, h2, allowlist)
    requires BodyMarker(body1) == BodyMarker(body2)
    ensures RequestMessage(url, httpMethod, h1, body1, allowlist) == RequestMessage(url, httpMethod, h2, body2, allowlist)
  {
    RedactedLinesHideValues(h1, h2, allowlist);
  }

  /** Changing a hidden header value cannot change the per-header records. */
  lemma HeaderRecordsHideValues(logger: Value, h1: seq<(string, string)>, h2: seq<(string, string)>, allowlist: set<string>)
    requires SameUpToRedaction(h1, h2, allowlist)
    ensures HeaderRecords(logger, h1, allowlist) == HeaderRecords(logger, h2, allowlist)
  {
    var r1 := HeaderRecords(logger, h1, allowlist);
    var r2 := HeaderRecords(logger, h2, allowlist);
    forall i | 0 <= i < |r1| ensures r1[i] == r2[i] {
      assert Redact(allowlist, h1[i].0, h1[i].1) == Redact(allowlist, h2[i].0, h2[i].1);
    }
  }

  /** The multi-record request log hides header values and body content
      just as the single-record message does, whatever the logger. */
  lemma RequestRecordsHideSecrets(logger: Value, url: string, httpMethod: string, h1: Dict, h2: Dict,
                                  body1: Body, body2: Body, allowlist: set<string>)
    requires SameUpToRedaction(h1, h2, allowlist)
    requires BodyMarker(body1) == BodyMarker(body2)
    ensures RequestRecords(logger, url, httpMethod, h1, body1, allowlist)
         == RequestRecords(logger, url, httpMethod, h2, body2, allowlist)
  {
    HeaderRecordsHideValues(logger, h1, h2, allowlist);
  }

  /** The response log is the same for any two responses with the same
      status whose headers differ only in hidden values, in both modes and
      whatever logger was pinned. */
  lemma ResponseLogHidesSecrets(logger: Value, r1: HttpResponse, r2: HttpResponse, allowlist: set<string>)
    requires r1.statusCode == r2.statusCode
    requires SameUpToRedaction(r1.headers, r2.headers, allowlist)
    ensures ResponseMessage(r1, allowlist) == ResponseMessage(r2, allowlist)
    ensures ResponseRecords(logger, r1, allowlist) == ResponseRecords(logger, r2, allowlist)
  {
    RedactedLinesHideValues(r1.headers, r2.headers, allowlist);
    HeaderRecordsHideValues(logger, r1.headers, r2.headers, allowlist);
  }

  /** With no query allow-list every query value is logged as the placeholder. */
  lemma EmptyQueryAllowlistRedactsAll(pairs: seq<(string, string)>)
    ensures forall i :: 0 <= i < |pairs| ==> RedactQuery(pairs, {})[i].1 == RedactedPlaceholder
  {
    forall i | 0 <= i < |pairs| ensures RedactQuery(pairs, {})[i].1 == RedactedPlaceholder {
      assert !Allowed({}, pairs[i].0);
    }
  }

  /** No default allow-list entry has eight characters and starts with x. */
  lemma DefaultAllowlistShape()
    ensures forall a :: a in DefaultHeadersAllowlist ==> |a| != 8 || (a[0] != 'x' && a[0] != 'X')
  {
  }

  lemma LowerXCustom()
    ensures |Lower("X-Custom")| == 8 && Lower("X-Custom")[0] == 'x'
  {
    assert Lower("X-Custom")[0] == LowerChar("X-Custom"[0]);
  }

  /** An eight-character name starting with x (in any case) is allowed by no
      list whose entries all differ from it in length or first letter. */
  lemma NoEntryOfShape(allowlist: set<string>, name: string)
    requires forall a :: a in allowlist ==> |a| != 8 || (a[0] != 'x' && a[0] != 'X')
    requires |Lower(name)| == 8 && Lower(name)[0] == 'x'
    ensures !Allowed(allowlist, name)
  {
    forall a | a in allowlist ensures Lower(a) != Lower(name) {
      if |a| == 8 {
        assert Lower(a)[0] == LowerChar(a[0]);
      }
    }
  }

  /** X-Custom, which the default allow-list does not hold. */
  lemma XCustomNotAllowed()
    ensures !Allowed(DefaultHeadersAllowlist, "X-Custom")
  {
    LowerXCustom();
    DefaultAllowlistShape();
    NoEntryOfShape(DefaultHeadersAllowlist, "X-Custom");
  }

  /** A header missing from the default allow-list is hidden in every case
      spelling, e.g. X-Custom. */
  lemma CustomHeaderRedacted(key: string, value: string)
    requires SameIgnoringCase(key, "X-Custom")
    ensures Redact(DefaultHeadersAllowlist, key, value) == RedactedPlaceholder
  {
    RedactIgnoresCase(DefaultHeadersAllowlist, key, "X-Custom", value);
    XCustomNotAllowed();
  }

  class HttpLoggingPolicy {
    var logger: Value
    var allowedQueryParams: set<string>
    var allowedHeaderNames: set<string>

    constructor (logger: Option<string> := None)
      ensures this.logger == LoggerV(logger.GetOr(DefaultLoggerName))
      ensures allowedQueryParams == {} && allowedHeaderNames == DefaultHeadersAllowlist
    {
      this.logger := LoggerV(logger.GetOr(DefaultLoggerName));
      allowedQueryParams := {};
      allowedHeaderNames := DefaultHeadersAllowlist;
    }

    /** _redact_query_param */
    function RedactQueryParam(key: string, value: string): (r: string)
      reads this
      ensures Allowed(allowedQueryParams, key) ==> r == value
      ensures !Allowed(allowedQueryParams, key) ==> r == RedactedPlaceholder
    {
      Redact(allowedQueryParams, key, value)
    }

    /** _redact_header */
    function RedactHeader(key: string, value: string): (r: string)
      reads this
      ensures Allowed(allowedHeaderNames, key) ==> r == value
      ensures !Allowed(allowedHeaderNames, key) ==> r == RedactedPlaceholder
    {
      Redact(allowedHeaderNames, key, value)
    }

    /** The URL with its query rebuilt from redacted pairs; every other
        component is the parsed one. Fails exactly when urlparse raises. */
    function RedactedUrl(url: string, urls: UrlLib): (r: Result<string, string>)
      reads this
      ensures r.Failure? <==> urls.urlparse(url).Failure?
      ensures r.Failure? ==> r.error == urls.urlparse(url).error
      ensures r.Success? ==>
        var parts := urls.urlparse(url).value;
        r.value == urls.urlunparse(parts.(query := BuildQuery(RedactQuery(urls.parseQsl(parts.query), allowedQueryParams))))
    {
      match urls.urlparse(url)
      case Failure(e) => Failure(e)
      case Success(parts) =>
        var filtered := RedactQuery(urls.parseQsl(parts.query), allowedQueryParams);
        Success(urls.urlunparse(parts.(query := BuildQuery(filtered))))
    }

    /** context.setdefault("logger", options.pop("logger", self.logger)) */
    method PinLogger(request: PipelineRequest) returns (pinned: Value)
      modifies request
      ensures request.options == old(request.options) - {"logger"}
      ensures request.context == if "logger" in old(request.context) then old(request.context)
                                 else old(request.context)["logger" := Lookup(old(request.options), "logger", logger)]
      ensures "logger" in request.context && pinned == request.context["logger"]
      ensures request.headers == old(request.headers)
    {
      var popped := Lookup(request.options, "logger", logger);
      request.options := request.options - {"logger"};
      if "logger" !in request.context {
        request.context := request.context["logger" := popped];
      }
      pinned := request.context["logger"];
    }

    /** on_request; `infoEnabled` stands for isEnabledFor(INFO) of a logger
        and `multiRecordEnv` for the AZURE_SDK_LOGGING_MULTIRECORD variable. */
    method OnRequest(request: PipelineRequest, infoEnabled: Value -> bool, multiRecordEnv: Option<string>, urls: UrlLib)
      returns (records: seq<LogRecord>)
      modifies request
      ensures request.options == old(request.options) - {"logger"}
      ensures request.context == if "logger" in old(request.context) then old(request.context)
                                 else old(request.context)["logger" := Lookup(old(request.options), "logger", logger)]
      ensures request.headers == old(request.headers)
      ensures var pinned := request.context["logger"];
              records ==
                if !infoEnabled(pinned) then []
                else match RedactedUrl(request.url, urls)
                  case Failure(err) => [LogRecord(pinned, Warning, "Failed to log request: %s", [StrV(err)])]
                  case Success(url) =>
                    if MultiRecord(multiRecordEnv)
                    then RequestRecords(pinned, url, request.httpMethod, request.headers, request.body, allowedHeaderNames)
                    else [LogRecord(pinned, Info, RequestMessage(url, request.httpMethod, request.headers, request.body, allowedHeaderNames), [])]
    {
      var pinned := PinLogger(request);
      records := [];
      if !infoEnabled(pinned) {
        return;
      }
      var parsed := urls.urlparse(request.url);
      if parsed.Failure? {
        records := [LogRecord(pinned, Warning, "Failed to log request: %s", [StrV(parsed.error)])];
        return;
      }
      var parts := parsed.value;
      var filtered := RedactQuery(urls.parseQsl(parts.query), allowedQueryParams);
      var redactedUrl := urls.urlunparse(parts.(query := BuildQuery(filtered)));
      if MultiRecord(multiRecordEnv) {
        records := [ LogRecord(pinned, Info, "Request URL: %r", [StrV(redactedUrl)]),
                     LogRecord(pinned, Info, "Request method: %r", [StrV(request.httpMethod)]),
                     LogRecord(pinned, Info, "Request headers:", []) ];
        records := AppendHeaderRecords(records, pinned, request.headers, allowedHeaderNames);
        records := records + [LogRecord(pinned, Info, BodyMarker(request.body), [])];
        assert records == RequestRecords(pinned, redactedUrl, request.httpMethod, request.headers, request.body, allowedHeaderNames);
        return;
      }
      var log := "Request URL: '" + redactedUrl + "'";
      log := log + "\nRequest method: '" + request.httpMethod + "'";
      log := log + "\nRequest headers:";
      log := AppendHeaderLines(log, request.headers, RedactedBy(allowedHeaderNames));
      log := log + "\n" + BodyMarker(request.body);
      assert log == RequestMessage(redactedUrl, request.httpMethod, request.headers, request.body, allowedHeaderNames);
      records := [LogRecord(pinned, Info, log, [])];
    }

    /** on_response */
    method OnResponse(request: PipelineRequest, response: HttpResponse, infoEnabled: Value -> bool, multiRecordEnv: Option<string>)
      returns (records: seq<LogRecord>)
      modifies request
      ensures request.options == old(request.options) - {"logger"}
      ensures request.context == if "logger" in old(request.context) then old(request.context)
                                 else old(request.context)["logger" := Lookup(old(request.options), "logger", logger)]
      ensures request.headers == old(request.headers)
      ensures var pinned := request.context["logger"];
              records ==
                if !infoEnabled(pinned) then []
                else if MultiRecord(multiRecordEnv) then ResponseRecords(pinned, response, allowedHeaderNames)
                else [LogRecord(pinned, Info, ResponseMessage(response, allowedHeaderNames), [])]
    {
      var pinned := PinLogger(request);
      records := [];
      if !infoEnabled(pinned) {
        return;
      }
      if MultiRecord(multiRecordEnv) {
        records := [ LogRecord(pinned, Info, "Response status: %r", [IntV(response.statusCode)]),
                     LogRecord(pinned, Info, "Response headers:", []) ];
        records := AppendHeaderRecords(records, pinned, response.headers, allowedHeaderNames);
        assert records == ResponseRecords(pinned, response, allowedHeaderNames);
        return;
      }
      var log := "Response status: " + IntToString(response.statusCode);
      log := log + "\nResponse headers:";
      log := AppendHeaderLines(log, response.headers, RedactedBy(allowedHeaderNames));
      assert log == ResponseMessage(response, allowedHeaderNames);
      records := [LogRecord(pinned, Info, log, [])];
    }
  }
}
