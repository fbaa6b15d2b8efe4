/** ContentDecodePolicy: decodes a buffered response body according to its
    content type and leaves the result in the context under
    "deserialized_data". */
module ContentDecode {
  import opened Wrappers
  import opened Strings
  import opened Dicts
  import opened Values
  import opened Pipeline

  const ContextName: string := "deserialized_data"
  const DefaultMimeType: string := "application/json"

  /** The UTF-8 byte order mark that the "utf-8-sig" codec drops. */
  const Bom: seq<byte> := [0xEF, 0xBB, 0xBF]

  /** Data as a str or as bytes. */
  datatype Blob = TextBlob(text: string) | BytesBlob(bytes: seq<byte>)

  /** The `data` argument: None, a str or bytes, or a file-like object
      holding a str or bytes. */
  datatype Payload = NoData | Inline(blob: Blob) | Stream(contents: Blob)

  datatype ParseError = ParseError(msg: string)

  /** DecodeError: its message, the `error` it was given (inner_exception), the exception it is
      raised from, and the response it is annotated with. */
  datatype DecodeError = DecodeError(message: string, innerError: Option<ParseError>, cause: Option<ParseError>,
                                     response: Option<HttpResponse>)

  /** json.loads (on str or bytes), ElementTree.fromstring, and UTF-8
      decoding of bytes without a byte order mark. */
  datatype Parsers = Parsers(
    jsonLoads: Blob -> Result<Json, ParseError>,
    xmlFromString: string -> Result<XmlElement, ParseError>,
    utf8: seq<byte> -> string)

  /** bool(data) */
  predicate PayloadTruthy(data: Payload) {
    match data
    case NoData => false
    case Inline(TextBlob(s)) => |s| > 0
    case Inline(BytesBlob(b)) => |b| > 0
    case Stream(_) => true
  }

  /** The data once read: a stream is replaced by what it holds. */
  function Read(data: Payload): Blob
    requires !data.NoData?
  {
    match data
    case Inline(b) => b
    case Stream(b) => b
  }

  /** bytes.decode("utf-8-sig") */
  function DecodeUtf8Sig(b: seq<byte>, utf8: seq<byte> -> string): (r: string)
    ensures r == utf8(if HasBom(b) then b[3..] else b)
  {
    if |b| >= 3 && b[..3] == Bom then utf8(b[3..]) else utf8(b)
  }

  predicate HasBom(b: seq<byte>) {
    |b| >= 3 && b[..3] == Bom
  }

  /** A leading byte order mark never reaches the decoded text. */
  lemma BomDropped(b: seq<byte>, utf8: seq<byte> -> string)
    ensures DecodeUtf8Sig(Bom + b, utf8) == utf8(b)
  {
    assert (Bom + b)[..3] == Bom && (Bom + b)[3..] == b;
  }

  function AsText(blob: Blob, utf8: seq<byte> -> string): string {
    match blob
    case TextBlob(s) => s
    case BytesBlob(b) => DecodeUtf8Sig(b, utf8)
  }

  // ----- JSON_REGEXP = ^(application|text)/([0-9a-z+.-]+\+)?json$ -----

  predicate JsonSubtypeChar(c: char) {
    ('0' <= c <= '9') || ('a' <= c <= 'z') || c == '+' || c == '.' || c == '-'
  }

  /** What may follow "application/" or "text/": "json", or one or more
      characters of [0-9a-z+.-] followed by "+json". */
  predicate JsonSubtype(t: string) {
    || t == "json"
    || (|t| >= 6 && t[|t| - 5..] == "+json" && forall i :: 0 <= i < |t| - 5 ==> JsonSubtypeChar(t[i]))
  }

  predicate JsonTopType(top: string) {
    top == "application" || top == "text"
  }

  /** The pattern without its final-newline case: what precedes the first
      '/' is application or text, and what follows it is a JSON subtype. */
  predicate JsonMimeExactly(m: string) {
    var top := BeforeFirst(m, '/');
    |top| < |m| && JsonTopType(top) && JsonSubtype(m[|top| + 1..])
  }

  /** JSON_REGEXP.match(m); as in Python, `$` also matches just before a
      final newline. */
  predicate MatchesJsonRegexp(m: string) {
    JsonMimeExactly(m) || (|m| > 0 && m[|m| - 1] == '\n' && JsonMimeExactly(m[..|m| - 1]))
  }

  /** What the optional group `([0-9a-z+.-]+\+)?` matches. */
  predicate JsonGroup(g: string) {
    g == "" || (|g| >= 2 && g[|g| - 1] == '+' && forall i :: 0 <= i < |g| ==> JsonSubtypeChar(g[i]))
  }

  /** What `$` accepts after "json": the end, or a final newline. */
  predicate JsonTail(tail: string) {
    tail == "" || tail == "\n"
  }

  function Assemble(top: string, g: string, tail: string): string {
    top + "/" + g + "json" + tail
  }

  /** The language of the regular expression, written as its parts. */
  ghost predicate InJsonRegexpLanguage(m: string) {
    exists top, g, tail :: JsonTopType(top) && JsonGroup(g) && JsonTail(tail) && m == Assemble(top, g, tail)
  }

  lemma JsonSubtypeIsGroup(t: string)
    requires JsonSubtype(t)
    ensures JsonGroup(t[..|t| - 4]) && t == t[..|t| - 4] + "json"
  {
    if t != "json" {
      var g := t[..|t| - 4];
      assert g[|g| - 1] == t[|t| - 5] == '+';
      forall i | 0 <= i < |g| ensures JsonSubtypeChar(g[i]) {
        if i < |t| - 5 {
          assert g[i] == t[i];
        }
      }
    }
  }

  lemma GroupIsJsonSubtype(g: string)
    requires JsonGroup(g)
    ensures JsonSubtype(g + "json")
  {
    var t := g + "json";
    if g != "" {
      assert t[|t| - 5..] == "+json";
      forall i | 0 <= i < |t| - 5 ensures JsonSubtypeChar(t[i]) {
        assert t[i] == g[i];
      }
    }
  }

  lemma JsonMimeExactlyParts(m: string) returns (top: string, g: string)
    requires JsonMimeExactly(m)
    ensures JsonTopType(top) && JsonGroup(g) && m == Assemble(top, g, "")
  {
    top := BeforeFirst(m, '/');
    var t := m[|top| + 1..];
    assert m == top + "/" + t by {
      assert m[..|top|] == top && m[|top|] == '/';
      assert m == m[..|top|] + [m[|top|]] + t;
    }
    JsonSubtypeIsGroup(t);
    g := t[..|t| - 4];
    assert t == g + "json";
  }

  lemma InLanguage(top: string, g: string, tail: string, m: string)
    requires JsonTopType(top) && JsonGroup(g) && JsonTail(tail) && m == Assemble(top, g, tail)
    ensures InJsonRegexpLanguage(m)
  {
  }

  lemma ExactInLanguage(m: string)
    requires JsonMimeExactly(m)
    ensures InJsonRegexpLanguage(m)
  {
    var top, g := JsonMimeExactlyParts(m);
    InLanguage(top, g, "", m);
  }

  lemma NewlineInLanguage(m: string)
    requires |m| > 0 && m[|m| - 1] == '\n' && JsonMimeExactly(m[..|m| - 1])
    ensures InJsonRegexpLanguage(m)
  {
    var body := m[..|m| - 1];
    var top, g := JsonMimeExactlyParts(body);
    assert m == body + "\n";
    AssembleTail(top, g, "\n");
    InLanguage(top, g, "\n", m);
  }

  lemma MatchImpliesLanguage(m: string)
    requires MatchesJsonRegexp(m)
    ensures InJsonRegexpLanguage(m)
  {
    if JsonMimeExactly(m) {
      ExactInLanguage(m);
    } else {
      NewlineInLanguage(m);
    }
  }

  lemma AssembleTail(top: string, g: string, tail: string)
    ensures Assemble(top, g, tail) == Assemble(top, g, "") + tail
  {
  }

  lemma PartsJsonMimeExactly(top: string, g: string)
    requires JsonTopType(top) && JsonGroup(g)
    ensures JsonMimeExactly(Assemble(top, g, ""))
  {
    GroupIsJsonSubtype(g);
    var m := Assemble(top, g, "");
    var rest := g + "json";
    assert m == top + ['/'] + rest;
    assert '/' !in top;
    BeforeFirstAt(top, '/', rest);
    assert m[|top| + 1..] == rest;
  }

  lemma LanguageImpliesMatch(m: string)
    requires InJsonRegexpLanguage(m)
    ensures MatchesJsonRegexp(m)
  {
    var top, g, tail :| JsonTopType(top) && JsonGroup(g) && JsonTail(tail) && m == Assemble(top, g, tail);
    var body := Assemble(top, g, "");
    PartsJsonMimeExactly(top, g);
    assert m == body + tail;
    if tail == "\n" {
      assert m[|m| - 1] == '\n' && m[..|m| - 1] == body;
    }
  }

  /** MatchesJsonRegexp is exactly the regular expression's language. */
  lemma JsonRegexpLanguage(m: string)
    ensures MatchesJsonRegexp(m) <==> InJsonRegexpLanguage(m)
  {
    if MatchesJsonRegexp(m) {
      MatchImpliesLanguage(m);
    }
    if InJsonRegexpLanguage(m) {
      LanguageImpliesMatch(m);
    }
  }

  // ----- deserialize_from_text -----

  /** The JSON branch: a parse failure is a DecodeError carrying the parse
      error and the response. */
  function DecodeJson(text: string, response: Option<HttpResponse>, parsers: Parsers): (r: Result<Decoded, DecodeError>)
    ensures r.Success? <==> parsers.jsonLoads(TextBlob(text)).Success?
    ensures r.Success? ==> r.value == JsonData(parsers.jsonLoads(TextBlob(text)).value)
    ensures r.Failure? ==>
      var e := parsers.jsonLoads(TextBlob(text)).error;
      r.error == DecodeError("JSON is invalid: " + e.msg, Some(e), Some(e), response)
  {
    match parsers.jsonLoads(TextBlob(text))
    case Success(j) => Success(JsonData(j))
    case Failure(e) => Failure(DecodeError("JSON is invalid: " + e.msg, Some(e), Some(e), response))
  }

  /** The XML branch: on a parse failure, JSON is tried on the original
      data; if that fails too, the error raised is chained from the XML
      error, whatever the JSON error was. */
  function DecodeXml(text: string, data: Blob, response: Option<HttpResponse>, parsers: Parsers): (r: Result<Decoded, DecodeError>)
    ensures parsers.xmlFromString(text).Success? ==> r == Success(XmlData(parsers.xmlFromString(text).value))
    ensures parsers.xmlFromString(text).Failure? ==> (r.Success? <==> parsers.jsonLoads(data).Success?)
    ensures parsers.xmlFromString(text).Failure? && r.Success? ==> r.value == JsonData(parsers.jsonLoads(data).value)
    ensures r.Failure? ==>
      && parsers.xmlFromString(text).Failure?
      && r.error == DecodeError("XML is invalid", None, Some(parsers.xmlFromString(text).error), response)
  {
    match parsers.xmlFromString(text)
    case Success(x) => Success(XmlData(x))
    case Failure(xmlError) =>
      match parsers.jsonLoads(data)
      case Success(j) => Success(JsonData(j))
      case Failure(_) => Failure(DecodeError("XML is invalid", None, Some(xmlError), response))
  }

  function UnsupportedMessage(mimeType: string): string {
    "Cannot deserialize content-type: " + mimeType
  }

  /** deserialize_from_text: empty data gives None for any MIME type; then
      the JSON pattern, an "xml" substring and a "text/" prefix are tried in
      that order, and any other MIME type is an error. */
  function DeserializeFromText(data: Payload, mimeType: Option<string>, response: Option<HttpResponse>,
                               parsers: Parsers): (r: Result<Decoded, DecodeError>)
    ensures !PayloadTruthy(data) ==> r == Success(Nothing)
    ensures PayloadTruthy(data) && mimeType.None? ==> r == Success(TextData(AsText(Read(data), parsers.utf8)))
    ensures PayloadTruthy(data) && mimeType.Some? ==>
      var m := mimeType.value;
      var text := AsText(Read(data), parsers.utf8);
      && (MatchesJsonRegexp(m) ==> r == DecodeJson(text, response, parsers))
      && (!MatchesJsonRegexp(m) && Contains(m, "xml") ==> r == DecodeXml(text, Read(data), response, parsers))
      && (!MatchesJsonRegexp(m) && !Contains(m, "xml") && StartsWith(m, "text/") ==> r == Success(TextData(text)))
      && (!MatchesJsonRegexp(m) && !Contains(m, "xml") && !StartsWith(m, "text/") ==>
            r == Failure(DecodeError(UnsupportedMessage(m), None, None, None)))
    ensures r.Success? && r.value.XmlData? ==> mimeType.Some? && !MatchesJsonRegexp(mimeType.value)
  {
    if !PayloadTruthy(data) then Success(Nothing)
    else
      var blob := Read(data);
      var text := AsText(blob, parsers.utf8);
      if mimeType.None? then Success(TextData(text))
      else
        var m := mimeType.value;
        if MatchesJsonRegexp(m) then DecodeJson(text, response, parsers)
        else if Contains(m, "xml") then DecodeXml(text, blob, response, parsers)
        else if StartsWith(m, "text/") then Success(TextData(text))
        else Failure(DecodeError(UnsupportedMessage(m), None, None, None))
  }

  /** An application/ or text/ type matches exactly when its subtype is a
      JSON subtype. */
  lemma TopSubtype(top: string, sub: string)
    requires JsonTopType(top)
    ensures JsonMimeExactly(top + "/" + sub) <==> JsonSubtype(sub)
  {
    assert '/' !in top;
    assert top + "/" + sub == top + ['/'] + sub;
    BeforeFirstAt(top, '/', sub);
    assert (top + "/" + sub)[|top| + 1..] == sub;
  }

  /** A structured-syntax "+json" type is JSON even though it also names xml. */
  lemma XmlPlusJsonIsJson(data: Payload, response: Option<HttpResponse>, parsers: Parsers)
    requires PayloadTruthy(data)
    ensures Contains("application/soap+xml+json", "xml")
    ensures DeserializeFromText(data, Some("application/soap+xml+json"), response, parsers)
         == DecodeJson(AsText(Read(data), parsers.utf8), response, parsers)
  {
    SoapXmlJsonIsJsonType();
    SoapXmlJsonNamesXml();
  }

  lemma SoapXmlJsonIsJsonType()
    ensures MatchesJsonRegexp("application/soap+xml+json")
  {
    var t := "soap+xml+json";
    assert t[|t| - 5..] == "+json";
    forall i | 0 <= i < |t| - 5 ensures JsonSubtypeChar(t[i]) {
    }
    assert "application/soap+xml+json" == "application" + "/" + t;
    TopSubtype("application", t);
  }

  lemma SoapXmlJsonNamesXml()
    ensures Contains("application/soap+xml+json", "xml")
  {
    var m := "application/soap+xml+json";
    assert m[17..][..3] == "xml";
    ContainsAt(m, "xml", 17);
  }

  /** text/json bodies are parsed as JSON. */
  lemma TextJsonIsJson(data: Payload, response: Option<HttpResponse>, parsers: Parsers)
    requires PayloadTruthy(data)
    ensures DeserializeFromText(data, Some("text/json"), response, parsers)
         == DecodeJson(AsText(Read(data), parsers.utf8), response, parsers)
  {
    assert "text/json" == "text" + "/" + "json";
    TopSubtype("text", "json");
  }

  /** An application/xml body that is not XML but is JSON decodes as JSON. */
  lemma MislabelledJsonRecovered(data: Payload, response: Option<HttpResponse>, parsers: Parsers)
    requires PayloadTruthy(data)
    requires parsers.xmlFromString(AsText(Read(data), parsers.utf8)).Failure?
    requires parsers.jsonLoads(Read(data)).Success?
    ensures DeserializeFromText(data, Some("application/xml"), response, parsers)
         == Success(JsonData(parsers.jsonLoads(Read(data)).value))
  {
    var m := "application/xml";
    assert m == "application" + "/" + "xml";
    TopSubtype("application", "xml");
    assert m[|m| - 1] != '\n';
    assert m[12..][..3] == "xml";
    ContainsAt(m, "xml", 12);
  }

  lemma OctetStreamNotJson()
    ensures !MatchesJsonRegexp("application/octet-stream")
  {
    var m := "application/octet-stream";
    assert m == "application" + "/" + "octet-stream";
    TopSubtype("application", "octet-stream");
    assert "octet-stream"[7..] != "+json";
    assert m[|m| - 1] != '\n';
  }

  lemma OctetStreamNotXml()
    ensures !Contains("application/octet-stream", "xml")
  {
    var m := "application/octet-stream";
    assert 'x' !in m by {
      forall i | 0 <= i < |m| ensures m[i] != 'x' {
      }
    }
    NotContainsWithoutHead(m, "xml");
  }

  lemma OctetStreamNotText()
    ensures !StartsWith("application/octet-stream", "text/")
  {
    assert "application/octet-stream"[0] == 'a';
  }

  /** A content type that is neither JSON, XML nor text is refused. */
  lemma OctetStreamUnsupported(data: Payload, response: Option<HttpResponse>, parsers: Parsers)
    requires PayloadTruthy(data)
    ensures DeserializeFromText(data, Some("application/octet-stream"), response, parsers)
         == Failure(DecodeError(UnsupportedMessage("application/octet-stream"), None, None, None))
  {
    OctetStreamNotJson();
    OctetStreamNotXml();
    OctetStreamNotText();
  }

  /** The MIME type taken from a content type: the part before the first ';',
      stripped and lower-cased; application/json when there is none. */
  function MimeTypeOf(contentType: Option<string>): (r: string)
    ensures contentType.None? || contentType == Some("") ==> r == DefaultMimeType
    ensures contentType.Some? && contentType.value != "" ==> r == Lower(Strip(BeforeFirst(contentType.value, ';')))
    ensures ';' !in r
    ensures r == [] || (!IsSpace(r[0]) && !IsSpace(r[|r| - 1]))
    ensures forall i :: 0 <= i < |r| ==> !IsUpperAscii(r[i])
  {
    if contentType.None? || contentType.value == "" then DefaultMimeType
    else
      var b := BeforeFirst(contentType.value, ';');
      StripKeepsOut(b, ';');
      LowerOfStripped(Strip(b));
      Lower(Strip(b))
  }

  lemma StripKeepsOut(s: string, c: char)
    requires c !in s
    ensures c !in Strip(s)
  {
    var l := StripLeft(s);
    NotInSlice(s, c, |s| - |l|, |s|);
    var r := StripRight(l);
    NotInSlice(l, c, 0, |r|);
  }

  lemma NotInSlice(s: string, c: char, i: int, j: int)
    requires c !in s && 0 <= i <= j <= |s|
    ensures c !in s[i..j]
  {
    forall k | 0 <= k < j - i ensures s[i..j][k] != c {
      assert s[i..j][k] == s[i + k];
    }
  }

  lemma LowerKeepsOut(s: string, c: char)
    requires c !in s && !IsUpperAscii(c) && !('a' <= c <= 'z')
    ensures c !in Lower(s)
  {
    var r := Lower(s);
    forall i | 0 <= i < |r| ensures r[i] != c {
      assert r[i] == LowerChar(s[i]);
    }
  }

  lemma LowerOfStripped(s: string)
    requires ';' !in s
    requires s == [] || (!IsSpace(s[0]) && !IsSpace(s[|s| - 1]))
    ensures ';' !in Lower(s)
    ensures Lower(s) == [] || (!IsSpace(Lower(s)[0]) && !IsSpace(Lower(s)[|s| - 1]))
    ensures forall i :: 0 <= i < |Lower(s)| ==> !IsUpperAscii(Lower(s)[i])
  {
    LowerKeepsOut(s, ';');
  }

  lemma LowerNoUpper(s: string)
    requires forall i :: 0 <= i < |s| ==> !IsUpperAscii(s[i])
    ensures Lower(s) == s
  {
    var r := Lower(s);
    assert forall i :: 0 <= i < |s| ==> r[i] == s[i];
  }

  lemma {:induction false} BeforeFirstWithout(s: string, c: char)
    requires c !in s
    ensures BeforeFirst(s, c) == s
    decreases |s|
  {
    if s != [] {
      assert s[0] != c && c !in s[1..];
      BeforeFirstWithout(s[1..], c);
      assert [s[0]] + s[1..] == s;
    }
  }

  lemma StripStripped(s: string)
    requires s == [] || (!IsSpace(s[0]) && !IsSpace(s[|s| - 1]))
    ensures Strip(s) == s
  {
    assert StripLeft(s) == s;
    assert StripRight(s) == s;
  }

  /** A MIME type already in normal form is its own MIME type. */
  lemma NormalFormFixed(m: string)
    requires m != "" && ';' !in m
    requires !IsSpace(m[0]) && !IsSpace(m[|m| - 1])
    requires forall i :: 0 <= i < |m| ==> !IsUpperAscii(m[i])
    ensures MimeTypeOf(Some(m)) == m
  {
    BeforeFirstWithout(m, ';');
    StripStripped(m);
    LowerNoUpper(m);
  }

  /** Taking the MIME type of a MIME type gives it back. */
  lemma MimeTypeOfNormalized(contentType: Option<string>)
    requires MimeTypeOf(contentType) != ""
    ensures MimeTypeOf(Some(MimeTypeOf(contentType))) == MimeTypeOf(contentType)
  {
    NormalFormFixed(MimeTypeOf(contentType));
  }

  /** deserialize_from_http_generics, given the response's text(): the text
      is decoded as deserialize_from_text does under the MIME type taken from
      the content type, and any DecodeError that names a response names this
      one. */
  function DeserializeFromHttpGenerics(response: HttpResponse, text: string, parsers: Parsers): (r: Result<Decoded, DecodeError>)
    ensures r == DeserializeFromText(Inline(TextBlob(text)), Some(MimeTypeOf(response.contentType)), Some(response), parsers)
    ensures text == "" ==> r == Success(Nothing)
    ensures r.Failure? && r.error.response.Some? ==> r.error.response == Some(response)
  {
    DeserializeFromText(Inline(TextBlob(text)), Some(MimeTypeOf(response.contentType)), Some(response), parsers)
  }

  /** A response without a content type is decoded as JSON. */
  lemma HttpGenericsDefaultsToJson(response: HttpResponse, text: string, parsers: Parsers)
    requires text != ""
    requires response.contentType.None? || response.contentType == Some("")
    ensures DeserializeFromHttpGenerics(response, text, parsers) == DecodeJson(text, Some(response), parsers)
  {
    assert MimeTypeOf(response.contentType) == DefaultMimeType;
    assert DefaultMimeType == "application" + "/" + "json";
    TopSubtype("application", "json");
    assert MatchesJsonRegexp(DefaultMimeType);
  }

  /** The `response_encoding` instance value as a context value. */
  function EncodingValue(encoding: Option<string>): Value {
    match encoding
    case None => NoneV
    case Some(s) => StrV(s)
  }

  /** on_response decodes only when the call said stream=False (or another
      falsy value); an absent `stream` option means streaming. */
  predicate Buffered(options: map<string, Value>) {
    "stream" in options && !Truthy(options["stream"])
  }

  class ContentDecodePolicy {
    var responseEncoding: Option<string>

    constructor (responseEncoding: Option<string> := None)
      ensures this.responseEncoding == responseEncoding
    {
      this.responseEncoding := responseEncoding;
    }

    /** on_request: pops `response_encoding` and pins it only if truthy. */
    method OnRequest(request: PipelineRequest)
      modifies request
      ensures var encoding := Lookup(old(request.options), "response_encoding", EncodingValue(responseEncoding));
              && request.options == old(request.options) - {"response_encoding"}
              && request.context == if Truthy(encoding) then old(request.context)["response_encoding" := encoding]
                                    else old(request.context)
      ensures request.headers == old(request.headers)
    {
      var encoding := Lookup(request.options, "response_encoding", EncodingValue(responseEncoding));
      request.options := request.options - {"response_encoding"};
      if Truthy(encoding) {
        request.context := request.context["response_encoding" := encoding];
      }
    }

    /** on_response; `text` stands for response.text(encoding). A raised
        DecodeError is the returned error, and leaves the context as it was. */
    method OnResponse(request: PipelineRequest, response: HttpResponse, text: Value -> string, parsers: Parsers)
      returns (raised: Option<DecodeError>)
      modifies request
      ensures !Buffered(old(request.options)) ==> raised.None? && request.context == old(request.context)
      ensures Buffered(old(request.options)) ==>
        var encoding := Lookup(old(request.context), "response_encoding", NoneV);
        match DeserializeFromHttpGenerics(response, text(encoding), parsers)
        case Success(d) => raised.None? && request.context == old(request.context)[ContextName := DecodedV(d)]
        case Failure(e) => raised == Some(e) && request.context == old(request.context)
      ensures request.options == old(request.options) && request.headers == old(request.headers)
    {
      raised := None;
      if !Buffered(request.options) {
        return;
      }
      var encoding := Lookup(request.context, "response_encoding", NoneV);
      var decoded := DeserializeFromHttpGenerics(response, text(encoding), parsers);
      match decoded {
        case Success(d) =>
          request.context := request.context[ContextName := DecodedV(d)];
        case Failure(e) =>
          raised := Some(e);
      }
    }
  }
}
