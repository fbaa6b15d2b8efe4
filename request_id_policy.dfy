/** RequestIdPolicy: writes the correlation id header, per call or from the
    instance configuration, or a generated one. */
module RequestIds {
  import opened Wrappers
  import opened Dicts
  import opened Values
  import opened Pipeline

  const DefaultHeaderName: string := "x-ms-client-request-id"

  /** The instance-level request id: never configured (the _Unset
      sentinel), configured as None, or a configured string. */
  datatype RequestIdSetting = Unset | NoRequestId | RequestId(value: string)

  /** A `request_id` option, when given, is a string or None. */
  predicate RequestIdOptionWellTyped(options: map<string, Value>) {
    "request_id" in options ==> options["request_id"].NoneV? || options["request_id"].StrV?
  }

  /** The id on_request writes under `headerName`, or None when it writes
      nothing. `generated` stands for str(uuid.uuid1()). */
  function ChosenRequestId(setting: RequestIdSetting, autoRequestId: bool, headerName: string,
                           options: map<string, Value>, headers: Dict, generated: string): (r: Option<string>)
    requires RequestIdOptionWellTyped(options)
    // a per-call option always decides, even over auto-generation, and overwrites
    ensures "request_id" in options ==> (r.None? <==> options["request_id"].NoneV?)
    ensures "request_id" in options && r.Some? ==> options["request_id"] == StrV(r.value)
    // without it, an already present header is never clobbered
    ensures "request_id" !in options && r.Some? ==> headerName !in Keys(headers)
    ensures "request_id" !in options && setting.NoRequestId? ==> r.None?
    ensures "request_id" !in options && setting.RequestId? && headerName !in Keys(headers) ==> r == Some(setting.value)
    ensures "request_id" !in options && setting.Unset? ==>
      r == (if autoRequestId && headerName !in Keys(headers) then Some(generated) else None)
  {
    if "request_id" in options then
      (if options["request_id"].NoneV? then None else Some(options["request_id"].s))
    else
      match setting
      case NoRequestId => None
      case RequestId(v) => if headerName in Keys(headers) then None else Some(v)
      case Unset => if autoRequestId && headerName !in Keys(headers) then Some(generated) else None
  }

  class RequestIdPolicy {
    var requestId: RequestIdSetting
    var autoRequestId: bool
    var headerName: string

    constructor (requestId: RequestIdSetting := Unset, autoRequestId: bool := true, headerName: string := DefaultHeaderName)
      ensures this.requestId == requestId && this.autoRequestId == autoRequestId && this.headerName == headerName
    {
      this.requestId := requestId;
      this.autoRequestId := autoRequestId;
      this.headerName := headerName;
    }

    /** set_request_id */
    method SetRequestId(value: string)
      modifies this
      ensures requestId == RequestId(value)
      ensures autoRequestId == old(autoRequestId) && headerName == old(headerName)
    {
      requestId := RequestId(value);
    }

    /** on_request: pops `request_id` and writes at most the one header. */
    method OnRequest(request: PipelineRequest, generatedId: string)
      requires RequestIdOptionWellTyped(request.options)
      modifies request
      ensures request.headers ==
        match ChosenRequestId(requestId, autoRequestId, headerName, old(request.options), old(request.headers), generatedId)
        case None => old(request.headers)
        case Some(id) => Set(old(request.headers), headerName, id)
      ensures forall k :: k != headerName ==> Get(request.headers, k) == Get(old(request.headers), k)
      ensures request.options == old(request.options) - {"request_id"}
      ensures request.context == old(request.context)
    {
      assert "request_id" !in request.options ==> request.options - {"request_id"} == request.options;
      var chosen: Option<string> := None;
      if "request_id" in request.options {
        var v := request.options["request_id"];
        request.options := request.options - {"request_id"};
        if v.NoneV? {
          return;
        }
        chosen := Some(v.s);
      } else if requestId.NoRequestId? {
        return;
      } else if requestId.RequestId? {
        if headerName in Keys(request.headers) {
          return;
        }
        chosen := Some(requestId.value);
      } else if autoRequestId {
        if headerName in Keys(request.headers) {
          return;
        }
        chosen := Some(generatedId);
      }
      if chosen.Some? {
        request.headers := Set(request.headers, headerName, chosen.value);
      }
    }
  }
}
