# azure-core pipeline policies, modelled in Dafny

This project models the request/response policies of the azure-core HTTP
pipeline (`sdk/core/azure-core/azure/core/pipeline/policies/_universal.py`). Each policy works on three pieces of per-call state:
- the outgoing request's header dictionary;
- the caller options (`request.context.options`), which policies consume with `pop`;
- the context annotations (`request.context[...]`), which carry values from the request phase to the response phase.

The model covers these policies:
- **HeadersPolicy**: base headers, then per-call `headers`.
- **RequestIdPolicy**: the four-way choice of the `x-ms-client-request-id` value.
- **UserAgentPolicy**: builds the agent string with an optional environment suffix, and writes the header one of three ways.
- **NetworkTraceLoggingPolicy**: unredacted DEBUG traces with prioritised body and content summaries.
- **HttpLoggingPolicy**: INFO logs with case-insensitive allow-list redaction of header and query values, single- and multi-record modes, and a pinned logger.
- **ContentDecodePolicy**: MIME type extraction, the JSON pattern / `xml` / `text/` dispatch, the XML-to-JSON fallback and error precedence, and the `deserialized_data` slot.
- **ProxyPolicy**: injects proxies unless the call gave its own.

Layout:
- `wrappers.dfy`: Option and Result.
- `strings.dfy`: Python string operations (strip, ASCII lower, split, join, partition, `str(int)`).
- `dicts.dfy`: an insertion-ordered `dict` with `d[k] = v` and `update`.
- `values.dfy`: the Python values kept in options and context, and their truthiness.
- `redaction.dfy`: the redaction rule.
- `pipeline.dfy`: the request, the response, log records, and the header-line loop.
- One file per policy.

Policies whose source mutates state are classes with `modifies` clauses. Each `on_request` or `on_response` is a method whose postcondition gives the whole new state of the request in terms of specification functions, and the properties the source promises are proved about those functions. Log output is a returned sequence of records: logger, level, message, and %-arguments.

In these places the code does something its docstrings or a quick reading would not suggest; the model follows the code:
- A `DecodeError` for an unsupported content type carries neither a parse error nor the response.
- The "XML is invalid" error carries the XML parse error only as its cause (`raise ... from err`), not as `error=`.
- The rebuilt query string joins the parsed (decoded) pairs with `=` and `&` and does not re-encode them. The original encoding is therefore not preserved; `BuildQuery` models the join as written.
- NetworkTraceLoggingPolicy reports composition failures at DEBUG level, not WARNING (lines 323 and 368).
- There is no per-call option to enable or disable request-id generation; only `request_id` is read per call.
- With `user_agent_overwrite` false, the per-call agent is prepended to the whole `user_agent` property. The environment suffix included, not just the base string, ends the header.

## Model

| member | source | states |
|---|---|---|
| Dicts.Get | sdk/core/azure-core/azure/core/pipeline/policies/_universal.py:352 | `d.get(k)` is present exactly when k is a key, and then it is the value stored with k |
| Dicts.Set | sdk/core/azure-core/azure/core/pipeline/policies/_universal.py:97 | `d[k] = v`: the keys gain k, k maps to v, and every other key keeps its value |
| Dicts.SetKeepsPositions | sdk/core/azure-core/azure/core/pipeline/policies/_universal.py:97 | `d[k] = v` keeps every existing key at its position and appends a new key at the end |
| Dicts.Update | sdk/core/azure-core/azure/core/pipeline/policies/_universal.py:105 | `d.update(u)`: the keys are those of d and of u; a key of u takes u's value, any other keeps d's |
| Dicts.UpdateKeepsPositions | sdk/core/azure-core/azure/core/pipeline/policies/_universal.py:105 | `d.update(u)` keeps d's keys at their positions |
| Dicts.UpdateAppendsNewKeys | sdk/core/azure-core/azure/core/pipeline/policies/_universal.py:105 | the keys of `d.update(u)` are d's keys in order followed by u's keys that d lacks, in u's order, which is the order the header log lines follow |
| HeadersPolicies.PerCallHeaders | sdk/core/azure-core/azure/core/pipeline/policies/_universal.py:106-107 | the popped `headers` option is used only when it is a non-empty dict; a non-empty result is exactly the option's dict |
| HeadersPolicies.HeadersPolicy.constructor | sdk/core/azure-core/azure/core/pipeline/policies/_universal.py:78-80 | the configured headers are the base headers updated with the `headers` keyword |
| HeadersPolicies.HeadersPolicy.AddHeader | sdk/core/azure-core/azure/core/pipeline/policies/_universal.py:91-97 | one key is set to the value and every other configured header is unchanged |
| HeadersPolicies.PoppedHeaders | sdk/core/azure-core/azure/core/pipeline/policies/_universal.py:106-107 | the popped `headers` option, when truthy, is the per-call dict; when falsy there are no per-call headers |
| HeadersPolicies.LaterHeadersWin | sdk/core/azure-core/azure/core/pipeline/policies/_universal.py:105-108 | after both updates each header is the per-call value if given, else the base value if configured, else what the request had |
| HeadersPolicies.HeadersPolicy.OnRequest | sdk/core/azure-core/azure/core/pipeline/policies/_universal.py:99-108 | the headers become the request's, updated with the base headers and then with the per-call dict; `headers` is consumed; the context is unchanged |
| RequestIds.ChosenRequestId | sdk/core/azure-core/azure/core/pipeline/policies/_universal.py:162-179 | a per-call `request_id` always decides (None writes nothing, a string overwrites); otherwise a configured None writes nothing, and a configured or generated id is written only when the header is absent |
| RequestIds.RequestIdPolicy.constructor | sdk/core/azure-core/azure/core/pipeline/policies/_universal.py:136-147 | the defaults: unset id, auto-generation on, header `x-ms-client-request-id` |
| RequestIds.RequestIdPolicy.SetRequestId | sdk/core/azure-core/azure/core/pipeline/policies/_universal.py:149-154 | the instance id becomes the value; the other settings are unchanged |
| RequestIds.RequestIdPolicy.OnRequest | sdk/core/azure-core/azure/core/pipeline/policies/_universal.py:156-179 | the headers become those with at most the configured header set to the chosen id; no other header changes; `request_id` is consumed |
| UserAgents.UserAgentPolicy.constructor | sdk/core/azure-core/azure/core/pipeline/policies/_universal.py:206-220 | the agent is the base agent (or `azsdk-python-<moniker> Python/<version> (<platform>)` when the base is empty), prefixed by `"<application id> "` when one is given |
| UserAgents.UserAgentPolicy.UserAgent | sdk/core/azure-core/azure/core/pipeline/policies/_universal.py:222-233 | the property differs from the stored agent exactly when the environment suffix is used and set, and then it is the agent, a space and the suffix |
| UserAgents.UserAgentPolicy.AddUserAgent | sdk/core/azure-core/azure/core/pipeline/policies/_universal.py:235-240 | the agent gains a space and the value; the flags are unchanged |
| UserAgents.UserAgentPolicy.OnRequest | sdk/core/azure-core/azure/core/pipeline/policies/_universal.py:242-259 | a per-call agent replaces the header when the popped overwrite flag is truthy, else is prepended to the property; without one the property is written only if overwriting or absent, and the options are left alone; no other header changes |
| NetworkTrace.RequestBodySummary | sdk/core/azure-core/azure/core/pipeline/policies/_universal.py:304-320 | "File upload" for generators, str(body) for a non-empty body, "This request has no body" otherwise |
| NetworkTrace.IsAttachment | sdk/core/azure-core/azure/core/pipeline/policies/_universal.py:351 | the `attachment; ?filename=["\w.]+` match at the start of the header; its properties are AttachmentIgnoresCase and AttachmentFileNamed |
| NetworkTrace.AttachmentIgnoresCase | sdk/core/azure-core/azure/core/pipeline/policies/_universal.py:351 | the attachment pattern ignores case, as re.IGNORECASE: case variants match alike |
| NetworkTrace.AttachmentFileNamed | sdk/core/azure-core/azure/core/pipeline/policies/_universal.py:351-352 | a matching header has an `=` followed by a file name character, so the logged file name is never empty |
| NetworkTrace.ContentSummary | sdk/core/azure-core/azure/core/pipeline/policies/_universal.py:349-365 | by priority: the attachment's file name, the binary marker for `octet-stream`, the image marker, the streaming marker, and only then the text; MarkedContentNotLogged is the property this rule gives |
| NetworkTrace.MarkedContentNotLogged | sdk/core/azure-core/azure/core/pipeline/policies/_universal.py:349-365 | when any marker applies, the logged content does not depend on the response text |
| NetworkTrace.ResponseRecords | sdk/core/azure-core/azure/core/pipeline/policies/_universal.py:337-368 | nothing when DEBUG is off or the pinned flag is falsy; with DEBUG on, the response trace when the pinned flag is truthy and the caught KeyError's failure record when none was pinned; at most one DEBUG record, never an error |
| NetworkTrace.NetworkTraceLoggingPolicy.constructor | sdk/core/azure-core/azure/core/pipeline/policies/_universal.py:279-280 | logging is off by default |
| NetworkTrace.NetworkTraceLoggingPolicy.OnRequest | sdk/core/azure-core/azure/core/pipeline/policies/_universal.py:282-323 | `logging_enable` is popped (default: the instance flag) and pinned in the context whatever the level; the trace is logged only when it is truthy and DEBUG is on |
| NetworkTrace.NetworkTraceLoggingPolicy.OnResponse | sdk/core/azure-core/azure/core/pipeline/policies/_universal.py:325-368 | the records are exactly those of ResponseRecords for the pinned flag |
| Pipeline.AppendHeaderLines | sdk/core/azure-core/azure/core/pipeline/policies/_universal.py:300-301 | the loop appends one `'name': 'value'` line per header, in order |
| Redaction.Redact | sdk/core/azure-core/azure/core/pipeline/policies/_universal.py:433-439 | the value when the name matches an allow-list entry up to case, the placeholder otherwise |
| Redaction.RedactIgnoresCase | sdk/core/azure-core/azure/core/pipeline/policies/_universal.py:434-439 | two names that differ only in case are redacted alike |
| Strings.LowerOfCaseVariants | sdk/core/azure-core/azure/core/pipeline/policies/_universal.py:434-439 | names equal up to case lower-case to the same string |
| HttpLogging.HttpLoggingPolicy.constructor | sdk/core/azure-core/azure/core/pipeline/policies/_universal.py:428-431 | the default logger name, an empty query allow-list and the default header allow-list |
| HttpLogging.HttpLoggingPolicy.RedactQueryParam | sdk/core/azure-core/azure/core/pipeline/policies/_universal.py:433-435 | `_redact_query_param`: the value exactly for allowed names, else "REDACTED" |
| HttpLogging.HttpLoggingPolicy.RedactHeader | sdk/core/azure-core/azure/core/pipeline/policies/_universal.py:437-439 | `_redact_header`: the value exactly for allowed names, else "REDACTED" |
| HttpLogging.EmptyQueryAllowlistRedactsAll | sdk/core/azure-core/azure/core/pipeline/policies/_universal.py:430-435 | with the initial empty query allow-list every query value is redacted |
| HttpLogging.XCustomNotAllowed | sdk/core/azure-core/azure/core/pipeline/policies/_universal.py:394-424 | X-Custom is not on the default header allow-list in any case spelling |
| HttpLogging.CustomHeaderRedacted | sdk/core/azure-core/azure/core/pipeline/policies/_universal.py:394-439 | the value of X-Custom, in any case spelling, is logged as the placeholder |
| HttpLogging.RedactQuery | sdk/core/azure-core/azure/core/pipeline/policies/_universal.py:462 | the same keys in the same order, each value redacted |
| HttpLogging.BuildQuery | sdk/core/azure-core/azure/core/pipeline/policies/_universal.py:464 | no pairs give the empty query; when pairs exist and no key or value holds `&`, splitting the rebuilt query on `&` gives back the `key=value` items in order (parse_qsl decodes `%26`, so a decoded `&` makes the rebuilt query split differently) |
| HttpLogging.RedactedQueryKeepsOrder | sdk/core/azure-core/azure/core/pipeline/policies/_universal.py:460-465 | when no key or value holds `&`: a URL without query parameters gets an empty query, and otherwise the redacted query keeps every key, in order, with its value or the placeholder |
| HttpLogging.BodyMarker | sdk/core/azure-core/azure/core/pipeline/policies/_universal.py:475-510 | only markers are logged for a body: upload, present or absent; RequestLogHidesSecrets and RequestRecordsHideSecrets show that body content never reaches the log |
| HttpLogging.HeaderRecords | sdk/core/azure-core/azure/core/pipeline/policies/_universal.py:472-474 | one INFO record per header, in order, with the redacted value |
| HttpLogging.AppendHeaderRecords | sdk/core/azure-core/azure/core/pipeline/policies/_universal.py:472-474 | the loop emits exactly HeaderRecords |
| HttpLogging.RedactedLinesHideValues | sdk/core/azure-core/azure/core/pipeline/policies/_universal.py:492-494 | header lines do not depend on values the allow-list hides |
| HttpLogging.RequestLogHidesSecrets | sdk/core/azure-core/azure/core/pipeline/policies/_universal.py:489-511 | the request log does not depend on hidden header values or on body content |
| HttpLogging.HeaderRecordsHideValues | sdk/core/azure-core/azure/core/pipeline/policies/_universal.py:472-474 | the per-header records do not depend on values the allow-list hides, for any logger |
| HttpLogging.RequestRecordsHideSecrets | sdk/core/azure-core/azure/core/pipeline/policies/_universal.py:468-488 | the multi-record request log, for any pinned logger, does not depend on hidden header values or on body content |
| HttpLogging.ResponseLogHidesSecrets | sdk/core/azure-core/azure/core/pipeline/policies/_universal.py:531-547 | in both modes and for any pinned logger, the response log depends only on the status and the visible header values |
| HttpLogging.HttpLoggingPolicy.PinLogger | sdk/core/azure-core/azure/core/pipeline/policies/_universal.py:454 | `logger` is always consumed, and an already pinned logger wins over it |
| HttpLogging.HttpLoggingPolicy.RedactedUrl | sdk/core/azure-core/azure/core/pipeline/policies/_universal.py:460-465 | fails exactly when urlparse raises, with its error; otherwise the parsed URL with only its query replaced by the redacted pairs (RedactedQueryKeepsOrder says what that query holds) |
| HttpLogging.HttpLoggingPolicy.OnRequest | sdk/core/azure-core/azure/core/pipeline/policies/_universal.py:441-514 | nothing below INFO; a WARNING "Failed to log request" record when urlparse raises; otherwise the multi-record or single-record request log with the redacted URL and headers and a body marker; the headers are unchanged |
| HttpLogging.HttpLoggingPolicy.OnResponse | sdk/core/azure-core/azure/core/pipeline/policies/_universal.py:516-549 | nothing below INFO; otherwise the status and redacted headers, one record or several |
| ContentDecode.JsonRegexpLanguage | sdk/core/azure-core/azure/core/pipeline/policies/_universal.py:560 | MatchesJsonRegexp holds exactly for `(application\|text)/`, an optional `[0-9a-z+.-]+\+` group, `json`, and an optional final newline |
| ContentDecode.DecodeUtf8Sig | sdk/core/azure-core/azure/core/pipeline/policies/_universal.py:600-601 | bytes are decoded after dropping a leading byte order mark; BomDropped states that the mark never reaches the text |
| ContentDecode.BomDropped | sdk/core/azure-core/azure/core/pipeline/policies/_universal.py:600-601 | a leading byte order mark never reaches the text |
| ContentDecode.DecodeJson | sdk/core/azure-core/azure/core/pipeline/policies/_universal.py:609-617 | success exactly when json.loads succeeds; a failure carries the parse error as error and cause, and the response; TextJsonIsJson and XmlPlusJsonIsJson show which types reach it |
| ContentDecode.DecodeXml | sdk/core/azure-core/azure/core/pipeline/policies/_universal.py:618-640 | an XML failure falls back to JSON on the original data; a failure is always chained from the XML error, never from the JSON retry |
| ContentDecode.DeserializeFromText | sdk/core/azure-core/azure/core/pipeline/policies/_universal.py:593-643 | falsy data gives None for every MIME type; no MIME type gives the text; then the JSON pattern, `xml` and `text/` in order; any other MIME type is an error naming it |
| ContentDecode.TopSubtype | sdk/core/azure-core/azure/core/pipeline/policies/_universal.py:560 | an `application/` or `text/` type matches the pattern without its final-newline case exactly when its subtype is `json` or `[0-9a-z+.-]+` followed by `+json` |
| ContentDecode.XmlPlusJsonIsJson | sdk/core/azure-core/azure/core/pipeline/policies/_universal.py:609-618 | `application/soap+xml+json` is decoded as JSON although it contains `xml` |
| ContentDecode.TextJsonIsJson | sdk/core/azure-core/azure/core/pipeline/policies/_universal.py:609-611 | `text/json` is decoded as JSON |
| ContentDecode.MislabelledJsonRecovered | sdk/core/azure-core/azure/core/pipeline/policies/_universal.py:618-634 | an `application/xml` body that is valid JSON but not XML decodes as JSON |
| ContentDecode.OctetStreamUnsupported | sdk/core/azure-core/azure/core/pipeline/policies/_universal.py:641-643 | `application/octet-stream` is refused with "Cannot deserialize content-type: application/octet-stream" |
| ContentDecode.MimeTypeOf | sdk/core/azure-core/azure/core/pipeline/policies/_universal.py:662-670 | for a non-empty content type, the part before the first `;` (BeforeFirst), stripped (Strip) and lower-cased (Lower): so no `;`, no surrounding whitespace, no upper case; `application/json` when the content type is empty or absent |
| ContentDecode.MimeTypeOfNormalized | sdk/core/azure-core/azure/core/pipeline/policies/_universal.py:663-664 | extracting the MIME type of a MIME type gives it back |
| ContentDecode.HttpGenericsDefaultsToJson | sdk/core/azure-core/azure/core/pipeline/policies/_universal.py:662-670 | a response with an empty or absent content type is decoded as JSON |
| ContentDecode.DeserializeFromHttpGenerics | sdk/core/azure-core/azure/core/pipeline/policies/_universal.py:645-683 | an empty response text gives None whatever the content type; a DecodeError that names a response names the one being decoded; the result is deserialize_from_text of the text under MimeTypeOf of the content type, so the full contracts of both apply (HttpGenericsDefaultsToJson covers the missing content type) |
| ContentDecode.ContentDecodePolicy.constructor | sdk/core/azure-core/azure/core/pipeline/policies/_universal.py:565-569 | no response encoding by default |
| ContentDecode.ContentDecodePolicy.OnRequest | sdk/core/azure-core/azure/core/pipeline/policies/_universal.py:685-689 | `response_encoding` is popped (default: the instance value) and pinned only when truthy |
| ContentDecode.ContentDecodePolicy.OnResponse | sdk/core/azure-core/azure/core/pipeline/policies/_universal.py:691-718 | nothing unless `stream` is given and falsy; then the decoded result is stored under `deserialized_data`, or the DecodeError is raised and the context is unchanged |
| Proxies.ProxyPolicy.constructor | sdk/core/azure-core/azure/core/pipeline/policies/_universal.py:740-743 | the proxies as given |
| Proxies.ProxyPolicy.OnRequest | sdk/core/azure-core/azure/core/pipeline/policies/_universal.py:745-748 | `proxies` is set only from non-empty instance proxies when the call gave none; a per-call value is never overwritten |
| Strings.BeforeFirst | sdk/core/azure-core/azure/core/pipeline/policies/_universal.py:664 | `s.split(";")[0]`: a prefix without the separator, ending at the first one |
| Strings.AfterFirst | sdk/core/azure-core/azure/core/pipeline/policies/_universal.py:355 | `s.partition("=")[2]`: what follows the first separator, empty when there is none |
| Strings.Strip | sdk/core/azure-core/azure/core/pipeline/policies/_universal.py:664 | `str.strip()`: the result is the slice of s between all-whitespace ends, and neither starts nor ends with whitespace |
| Strings.SplitJoin | sdk/core/azure-core/azure/core/pipeline/policies/_universal.py:464 | splitting a join gives back the parts when none holds the separator |
| Strings.ParseNatToString | sdk/core/azure-core/azure/core/pipeline/policies/_universal.py:344 | the rendered status code reads back as the number |

## Left out

- Header names are compared exactly. The request's case-insensitive header container is not part of this model.
- Upper-case folding covers ASCII only: `str.lower()`, the IGNORECASE flag of the attachment pattern and `\w` are modelled on ASCII letters.
- `uuid.uuid1()`, `platform.python_version()`, `platform.platform()`, the azure-core version and the environment variables `AZURE_HTTP_USER_AGENT` and `AZURE_SDK_LOGGING_MULTIRECORD` are parameters.
- `logging.Logger.isEnabledFor` is a parameter, and logging is the returned records. Handlers and formatting are not modelled.
- `json.loads`, `ElementTree.fromstring`, `urlparse`/`parse_qsl`/`urlunparse`, UTF-8 decoding and `str()` of a bytes body are parameters. Only the byte order mark is modelled. `urlparse` may fail (its ValueError); the others always succeed, except `json.loads` and `fromstring`, whose parse errors are modelled.
- UTF-8 decoding is total. Line 601 is reached only when deserialize_from_text is called directly with bytes, because deserialize_from_http_generics passes the already decoded `response.text(encoding)` (line 683). The UnicodeDecodeError that `data.decode("utf-8-sig")` raises there on invalid bytes is not modelled. Modelling it would need a second kind of raised error beside DecodeError in every decoding result.
- `response.text(encoding)` and the synchronous `response.read()` are transport I/O. The text is a parameter, so the model always has a text. `response.text(encoding)` may raise UnicodeDecodeError on bytes that are invalid in the encoding. on_response lets that error propagate (line 706), and the model does not capture this.
- The CRITICAL record "Wasn't XML not JSON, failing" that precedes the XML DecodeError is not emitted by the model.
- The catch-all `except Exception` paths of the logging policies are modelled for the two failures the modelled inputs can raise: the KeyError for a missing `logging_enable` in NetworkTraceLoggingPolicy.on_response, and urlparse's ValueError in HttpLoggingPolicy.on_request, logged as the WARNING of line 514. Failures in logging handlers or in `str()`/`repr()` of a value are not modelled.
- DecodeError is reduced to its message, its `error`, its cause and its response. HttpResponseError's parsing of the response body is not modelled.
- Json numbers are integers; floating point is not modelled.
- An XML element's truthiness is "has children", as in ElementTree.
- The PipelineRequest and PipelineResponse contexts are one object in the pipeline and one set of maps here.
- HeadersPolicy aliasing is not modelled: `base_headers or {}` keeps the caller's dict, and `add_header` would mutate it.
- The order in which a pipeline runs the policies is outside this file.
- The `_HiddenClassProperties` alias `DEFAULT_HEADERS_WHITELIST` is a backward-compatibility alias only.
- The mutable class attribute `DEFAULT_HEADERS_ALLOWLIST` is a constant here.
- The `types.GeneratorType`/`AsyncGeneratorType` checks and their AttributeError guard are the Body datatype.
- Streams passed to `deserialize_from_text` are modelled by their contents. Reading them has no other effect.
- HeadersPolicies.HeadersPolicy.OnRequest requires a per-call `headers` option to be a dict or falsy. Other values make `update` behave in ways outside this model.
- RequestIds.RequestIdPolicy.OnRequest requires a per-call `request_id` to be a string or None.
- UserAgents.UserAgentPolicy.OnRequest requires a per-call `user_agent` to be a string.
