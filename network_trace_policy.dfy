/** NetworkTraceLoggingPolicy: an unredacted trace of each request and
    response, written to the module's logger at DEBUG level when logging is
    enabled for the call. */
module NetworkTrace {
  import opened Wrappers
  import opened Strings
  import opened Dicts
  import opened Values
  import opened Redaction
  import opened Pipeline

  /** The module logger (`_LOGGER`). */
  const ModuleLogger: Value := LoggerV("azure.core.pipeline.policies._universal")

  /** The last line of a request trace: a marker for uploads and empty
      bodies, otherwise str(body); `bytesRepr` stands for str() of bytes. */
  function RequestBodySummary(body: Body, bytesRepr: seq<byte> -> string): (r: string)
    ensures IsUpload(body) ==> r == "File upload"
    ensures !BodyTruthy(body) ==> r == "This request has no body"
    ensures BodyTruthy(body) && body.Text? ==> r == body.text
    ensures BodyTruthy(body) && body.Bytes? ==> r == bytesRepr(body.bytes)
  {
    match body
    case Generator => "File upload"
    case AsyncGenerator => "File upload"
    case Bytes(b) => if |b| > 0 then bytesRepr(b) else "This request has no body"
    case Text(s) => if |s| > 0 then s else "This request has no body"
    case NoBody => "This request has no body"
  }

  /** The message on_request logs. */
  function RequestTrace(url: string, httpMethod: string, headers: Dict, body: Body,
                        bytesRepr: seq<byte> -> string): string
  {
    "Request URL: '" + url + "'" + "\nRequest method: '" + httpMethod + "'" + "\nRequest headers:"
    + HeaderLines(headers, AsIs) + "\nRequest body:" + "\n" + RequestBodySummary(body, bytesRepr)
  }

  /** A character of `["\w.]`, with \w read as ASCII letters, digits and _. */
  predicate FilenameChar(c: char) {
    c == '"' || c == '.' || c == '_' || ('0' <= c <= '9') || ('a' <= c <= 'z') || ('A' <= c <= 'Z')
  }

  /** A match, at the start of the header, of the case-insensitive pattern
      `attachment; ?filename=["\w.]+`. */
  predicate IsAttachment(disposition: string) {
    && |disposition| >= 11
    && Lower(disposition[..11]) == "attachment;"
    && var rest := if |disposition| > 11 && disposition[11] == ' ' then disposition[12..] else disposition[11..];
       |rest| > 9 && Lower(rest[..9]) == "filename=" && FilenameChar(rest[9])
  }

  /** Two characters equal up to case are both or neither a space, and both
      or neither a file name character. */
  lemma CaseVariantChars(a: char, b: char)
    requires LowerChar(a) == LowerChar(b)
    ensures (a == ' ' <==> b == ' ') && (FilenameChar(a) <==> FilenameChar(b))
  {
  }

  lemma CaseVariantSlices(a: string, b: string, i: int, j: int)
    requires SameIgnoringCase(a, b) && 0 <= i <= j <= |a|
    ensures SameIgnoringCase(a[i..j], b[i..j])
  {
    forall k | 0 <= k < j - i ensures LowerChar(a[i..j][k]) == LowerChar(b[i..j][k]) {
      assert a[i..j][k] == a[i + k] && b[i..j][k] == b[i + k];
    }
  }

  /** The attachment pattern is matched ignoring case (re.IGNORECASE). */
  lemma AttachmentIgnoresCase(d1: string, d2: string)
    requires SameIgnoringCase(d1, d2)
    ensures IsAttachment(d1) <==> IsAttachment(d2)
  {
    if |d1| >= 11 {
      CaseVariantSlices(d1, d2, 0, 11);
      LowerOfCaseVariants(d1[..11], d2[..11]);
      assert d1[..11] == d1[0..11] && d2[..11] == d2[0..11];
      var start := 11;
      if |d1| > 11 {
        CaseVariantChars(d1[11], d2[11]);
        if d1[11] == ' ' {
          start := 12;
        }
      }
      var rest1 := d1[start..];
      var rest2 := d2[start..];
      CaseVariantSlices(d1, d2, start, |d1|);
      assert rest1 == d1[start..|d1|] && rest2 == d2[start..|d2|];
      if |rest1| > 9 {
        CaseVariantSlices(rest1, rest2, 0, 9);
        LowerOfCaseVariants(rest1[..9], rest2[..9]);
        assert rest1[..9] == rest1[0..9] && rest2[..9] == rest2[0..9];
        CaseVariantChars(rest1[9], rest2[9]);
      }
    }
  }

  /** A character that lower-cases to a non-letter is that character. */
  lemma LowersToItself(c: char, t: char)
    requires LowerChar(c) == t && !('a' <= t <= 'z')
    ensures c == t
  {
  }

  /** A character other than A-Z missing from Lower(x) is missing from x. */
  lemma MissingAfterLower(x: string, c: char)
    requires c !in Lower(x) && !IsUpperAscii(c)
    ensures c !in x
  {
    forall k | 0 <= k < |x| ensures x[k] != c {
      assert Lower(x)[k] == LowerChar(x[k]);
    }
  }

  lemma NameHasNoEquals(x: string)
    requires Lower(x) == "filename="
    ensures '=' !in x[..8]
  {
    var pre := x[..8];
    forall k | 0 <= k < |pre| ensures pre[k] != '=' {
      assert Lower(x)[k] == LowerChar(x[k]) && pre[k] == x[k];
    }
  }

  /** No '=' before the one that ends "filename=". */
  lemma NoEqualsBeforeName(d: string, start: int)
    requires start == 11 || start == 12
    requires |d| > start + 9 && Lower(d[..11]) == "attachment;" && (start == 12 ==> d[11] == ' ')
    requires Lower(d[start..][..9]) == "filename="
    ensures '=' !in d[..start + 8]
  {
    var name := d[start..][..8];
    NameHasNoEquals(d[start..][..9]);
    assert '=' !in Lower(d[..11]);
    MissingAfterLower(d[..11], '=');
    assert '=' !in d[11..start];
    assert d[..start + 8] == d[..11] + d[11..start] + name;
  }

  /** An attachment header names a file: what follows its first '=' starts
      with a file name character, so the logged name is never empty. */
  lemma AttachmentFileNamed(d: string)
    requires IsAttachment(d)
    ensures '=' in d
    ensures var name := AfterFirst(d, '=');
            |name| > 0 && FilenameChar(name[0])
  {
    var start := if |d| > 11 && d[11] == ' ' then 12 else 11;
    var rest := d[start..];
    var p := start + 8;
    NoEqualsBeforeName(d, start);
    assert Lower(rest[..9])[8] == LowerChar(rest[..9][8]) && rest[..9][8] == d[p];
    LowersToItself(d[p], '=');
    assert d == d[..p] + ['='] + d[p + 1..];
    BeforeFirstAt(d[..p], '=', d[p + 1..]);
    assert d[p + 1..][0] == rest[9];
  }

  /** The last line of a response trace, by priority: attachment file name,
      binary marker, image marker, streaming marker, and only then the text
      of the response. */
  function ContentSummary(headers: Dict, options: map<string, Value>, text: string): (r: string)
    ensures var cd := Get(headers, "content-disposition");
            cd.Some? && IsAttachment(cd.value) ==> r == "File attachments: " + AfterFirst(cd.value, '=')
    ensures var cd := Get(headers, "content-disposition");
            var ct := Get(headers, "content-type").GetOr("");
            !(cd.Some? && IsAttachment(cd.value)) ==>
              if EndsWith(ct, "octet-stream") then r == "Body contains binary data."
              else if StartsWith(ct, "image") then r == "Body contains image data."
              else if Truthy(Lookup(options, "stream", BoolV(false))) then r == "Body is streamable."
              else r == text
  {
    var cd := Get(headers, "content-disposition");
    var ct := Get(headers, "content-type").GetOr("");
    if cd.Some? && cd.value != "" && IsAttachment(cd.value) then "File attachments: " + AfterFirst(cd.value, '=')
    else if EndsWith(ct, "octet-stream") then "Body contains binary data."
    else if StartsWith(ct, "image") then "Body contains image data."
    else if Truthy(Lookup(options, "stream", BoolV(false))) then "Body is streamable."
    else text
  }

  /** When any marker applies, the response text never reaches the log. */
  lemma MarkedContentNotLogged(headers: Dict, options: map<string, Value>, text1: string, text2: string)
    requires var cd := Get(headers, "content-disposition");
             var ct := Get(headers, "content-type").GetOr("");
             || (cd.Some? && IsAttachment(cd.value))
             || EndsWith(ct, "octet-stream") || StartsWith(ct, "image")
             || Truthy(Lookup(options, "stream", BoolV(false)))
    ensures ContentSummary(headers, options, text1) == ContentSummary(headers, options, text2)
  {
  }

  /** The message on_response logs. */
  function ResponseTrace(response: HttpResponse, options: map<string, Value>, text: string): string {
    "Response status: '" + IntToString(response.statusCode) + "'" + "\nResponse headers:"
    + HeaderLines(response.headers, AsIs) + "\nResponse content:" + "\n"
    + ContentSummary(response.headers, options, text)
  }

  /** What on_response emits: nothing unless DEBUG is enabled; then a
      failure notice (the KeyError that on_response catches) when on_request
      never pinned `logging_enable`, the trace when it pinned a truthy value,
      and nothing when it pinned a falsy one. */
  function ResponseRecords(context: map<string, Value>, options: map<string, Value>, response: HttpResponse,
                           debugEnabled: bool, text: string): (r: seq<LogRecord>)
    ensures !debugEnabled ==> r == []
    ensures "logging_enable" in context && !Truthy(context["logging_enable"]) ==> r == []
    ensures |r| <= 1 && forall i :: 0 <= i < |r| ==> r[i].logger == ModuleLogger && r[i].level == Debug
    ensures debugEnabled && "logging_enable" !in context ==>
      r == [LogRecord(ModuleLogger, Debug, "Failed to log response: %s", [StrV("KeyError('logging_enable')")])]
    ensures debugEnabled && "logging_enable" in context && Truthy(context["logging_enable"]) ==>
      r == [LogRecord(ModuleLogger, Debug, ResponseTrace(response, options, text), [])]
  {
    if "logging_enable" !in context then
      if debugEnabled
      then [LogRecord(ModuleLogger, Debug, "Failed to log response: %s", [StrV("KeyError('logging_enable')")])]
      else []
    else if Truthy(context["logging_enable"]) && debugEnabled then
      [LogRecord(ModuleLogger, Debug, ResponseTrace(response, options, text), [])]
    else []
  }

  class NetworkTraceLoggingPolicy {
    var enableHttpLogger: bool

    constructor (loggingEnable: bool := false)
      ensures enableHttpLogger == loggingEnable
    {
      enableHttpLogger := loggingEnable;
    }

    /** on_request: pops `logging_enable` (default: the instance flag), pins
        it in the context whatever the logger level, and logs the trace when
        it is truthy and DEBUG is enabled. */
    method OnRequest(request: PipelineRequest, debugEnabled: bool, bytesRepr: seq<byte> -> string)
      returns (records: seq<LogRecord>)
      modifies request
      ensures var enabled := Lookup(old(request.options), "logging_enable", BoolV(enableHttpLogger));
              && request.options == old(request.options) - {"logging_enable"}
              && request.context == old(request.context)["logging_enable" := enabled]
              && records == if Truthy(enabled) && debugEnabled
                            then [LogRecord(ModuleLogger, Debug,
                                            RequestTrace(request.url, request.httpMethod, request.headers, request.body, bytesRepr), [])]
                            else []
      ensures request.headers == old(request.headers)
    {
      records := [];
      var enabled := Lookup(request.options, "logging_enable", BoolV(enableHttpLogger));
      request.options := request.options - {"logging_enable"};
      request.context := request.context["logging_enable" := enabled];
      if Truthy(enabled) {
        if !debugEnabled {
          return;
        }
        var log := "Request URL: '" + request.url + "'";
        log := log + "\nRequest method: '" + request.httpMethod + "'";
        log := log + "\nRequest headers:";
        log := AppendHeaderLines(log, request.headers, AsIs);
        log := log + "\nRequest body:";
        var summary;
        if IsUpload(request.body) {
          summary := "File upload";
        } else if BodyTruthy(request.body) {
          summary := if request.body.Text? then request.body.text else bytesRepr(request.body.bytes);
        } else {
          summary := "This request has no body";
        }
        assert summary == RequestBodySummary(request.body, bytesRepr);
        log := log + "\n" + summary;
        records := [LogRecord(ModuleLogger, Debug, log, [])];
      }
    }

    /** on_response: reads the pinned `logging_enable` and logs the response
        trace; `text` stands for the response's text(). */
    method OnResponse(request: PipelineRequest, response: HttpResponse, debugEnabled: bool, text: string)
      returns (records: seq<LogRecord>)
      ensures records == ResponseRecords(request.context, request.options, response, debugEnabled, text)
    {
      if "logging_enable" !in request.context {
        records := if debugEnabled
                   then [LogRecord(ModuleLogger, Debug, "Failed to log response: %s", [StrV("KeyError('logging_enable')")])]
                   else [];
        return;
      }
      records := [];
      if Truthy(request.context["logging_enable"]) {
        if !debugEnabled {
          return;
        }
        var log := "Response status: '" + IntToString(response.statusCode) + "'";
        log := log + "\nResponse headers:";
        log := AppendHeaderLines(log, response.headers, AsIs);
        log := log + "\nResponse content:";
        var cd := Get(response.headers, "content-disposition");
        var ct := Get(response.headers, "content-type").GetOr("");
        var content;
        if cd.Some? && cd.value != "" && IsAttachment(cd.value) {
          content := "File attachments: " + AfterFirst(cd.value, '=');
        } else if EndsWith(ct, "octet-stream") {
          content := "Body contains binary data.";
        } else if StartsWith(ct, "image") {
          content := "Body contains image data.";
        } else if Truthy(Lookup(request.options, "stream", BoolV(false))) {
          content := "Body is streamable.";
        } else {
          content := text;
        }
        assert content == ContentSummary(response.headers, request.options, text);
        log := log + "\n" + content;
        records := [LogRecord(ModuleLogger, Debug, log, [])];
      }
    }
  }
}
