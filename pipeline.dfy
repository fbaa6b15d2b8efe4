/** The per-call state every policy reads and writes: the outgoing request,
    its caller options and its context annotations; the incoming response;
    and the log records the logging policies emit. */
module Pipeline {
  import opened Wrappers
  import opened Dicts
  import opened Values
  import opened Redaction

  /** The request body, as far as the policies distinguish it. */
  datatype Body = NoBody | Bytes(bytes: seq<byte>) | Text(text: string) | Generator | AsyncGenerator

  predicate BodyTruthy(b: Body) {
    match b
    case NoBody => false
    case Bytes(bs) => |bs| > 0
    case Text(s) => |s| > 0
    case Generator => true
    case AsyncGenerator => true
  }

  predicate IsUpload(b: Body) {
    b.Generator? || b.AsyncGenerator?
  }

  datatype Level = Debug | Info | Warning | Critical

  /** A logging record: the logger it went to, its level, its message and the
      arguments the message's %-placeholders are filled from. */
  datatype LogRecord = LogRecord(logger: Value, level: Level, msg: string, args: seq<Value>)

  datatype HttpResponse = HttpResponse(statusCode: int, headers: Dict, contentType: Option<string>)

  /** A PipelineRequest: the HTTP request (method, URL and body are never
      changed by the policies, its headers are) together with its
      PipelineContext, which is both the caller options (`options`) and the
      annotations written by policies (`context`). */
  class PipelineRequest {
    const httpMethod: string
    const url: string
    const body: Body
    var headers: Dict
    var options: map<string, Value>
    var context: map<string, Value>

    constructor (httpMethod: string, url: string, body: Body, headers: Dict, options: map<string, Value>)
      ensures this.httpMethod == httpMethod && this.url == url && this.body == body
      ensures this.headers == headers && this.options == options && this.context == map[]
    {
      this.httpMethod := httpMethod;
      this.url := url;
      this.body := body;
      this.headers := headers;
      this.options := options;
      this.context := map[];
    }
  }

  /** The value m.get(key, default) returns, which is also the value
      m.pop(key, default) returns before it removes the key. */
  function Lookup(m: map<string, Value>, key: string, default: Value): Value {
    if key in m then m[key] else default
  }

  /** Popping two keys one after the other removes both. */
  lemma RemoveBoth(m: map<string, Value>, a: string, b: string)
    ensures m - {a} - {b} == m - {a, b}
  {
  }

  /** The line a header contributes to a single-record log message. */
  function HeaderLine(name: string, value: string): string {
    "\n    '" + name + "': '" + value + "'"
  }

  /** The header lines of a log message, one per header in order, each value
      shown through `view`. */
  function HeaderLines(h: seq<(string, string)>, view: ValueView): (r: string)
    decreases |h|
  {
    if h == [] then ""
    else
      var last := h[|h| - 1];
      HeaderLines(h[..|h| - 1], view) + HeaderLine(last.0, Show(view, last.0, last.1))
  }

  lemma HeaderLinesExtend(h: seq<(string, string)>, i: int, view: ValueView)
    requires 0 <= i < |h|
    ensures HeaderLines(h[..i + 1], view) == HeaderLines(h[..i], view) + HeaderLine(h[i].0, Show(view, h[i].0, h[i].1))
  {
    assert h[..i + 1][..i] == h[..i];
  }

  /** The loop `for header, value in headers.items(): log_string += ...`;
      the lines it appends are gathered first and appended together. */
  method AppendHeaderLines(log: string, h: seq<(string, string)>, view: ValueView) returns (r: string)
    ensures r == log + HeaderLines(h, view)
  {
    var lines := "";
    var i := 0;
    while i < |h|
      invariant 0 <= i <= |h|
      invariant lines == HeaderLines(h[..i], view)
    {
      HeaderLinesExtend(h, i, view);
      lines := lines + HeaderLine(h[i].0, Show(view, h[i].0, h[i].1));
      i := i + 1;
    }
    assert h[..|h|] == h;
    r := log + lines;
  }
}
