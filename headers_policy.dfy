/** HeadersPolicy: stamps configured headers, then per-call headers, onto
    every request. */
module HeadersPolicies {
  import opened Wrappers
  import opened Dicts
  import opened Values
  import opened Pipeline

  /** The caller's `headers` option as on_request pops it: {} when the option
      is absent or falsy. */
  function PerCallHeaders(options: map<string, Value>): (r: Dict)
    ensures Truthy(Lookup(options, "headers", DictV([]))) && options["headers"].DictV? ==> r == options["headers"].d
    ensures |r| > 0 ==> "headers" in options && options["headers"] == DictV(r)
  {
    if "headers" in options && options["headers"].DictV? then options["headers"].d else []
  }

  /** The `headers` option, when given, is a dict (or a falsy placeholder
      such as None). */
  predicate HeadersOptionIsDict(options: map<string, Value>) {
    "headers" in options ==> options["headers"].DictV? || !Truthy(options["headers"])
  }

  /** What `options.pop("headers", {})` gives, when truthy, is the per-call
      dict; when falsy, there are no per-call headers. */
  lemma PoppedHeaders(options: map<string, Value>)
    requires HeadersOptionIsDict(options)
    ensures var additional := Lookup(options, "headers", DictV([]));
            && (Truthy(additional) ==> additional.DictV? && additional.d == PerCallHeaders(options))
            && (!Truthy(additional) ==> PerCallHeaders(options) == [])
  {
  }

  /** Merging base headers and then per-call headers onto a request: the
      per-call value wins, then the base value, then what the request had. */
  lemma LaterHeadersWin(existing: Dict, base: Dict, perCall: Dict)
    ensures forall k :: Get(Update(Update(existing, base), perCall), k)
                         == (if k in Keys(perCall) then Get(perCall, k)
                             else if k in Keys(base) then Get(base, k)
                             else Get(existing, k))
  {
    var once := Update(existing, base);
    assert forall k :: Get(once, k) == if k in Keys(base) then Get(base, k) else Get(existing, k);
  }

  class HeadersPolicy {
    var headers: Dict

    constructor (baseHeaders: Option<Dict> := None, headers: Dict := [])
      ensures this.headers == Update(baseHeaders.GetOr([]), headers)
    {
      this.headers := Update(baseHeaders.GetOr([]), headers);
    }

    /** add_header: configures one more header for all requests. */
    method AddHeader(key: string, value: string)
      modifies this
      ensures headers == Set(old(headers), key, value)
      ensures Get(headers, key) == Some(value)
      ensures forall k :: k != key ==> Get(headers, k) == Get(old(headers), k)
    {
      headers := Set(headers, key, value);
    }

    /** on_request: base headers first, then the popped per-call headers
        (LaterHeadersWin says which value each header ends up with). */
    method OnRequest(request: PipelineRequest)
      requires HeadersOptionIsDict(request.options)
      modifies request
      ensures request.headers == Update(Update(old(request.headers), headers), PerCallHeaders(old(request.options)))
      ensures request.options == old(request.options) - {"headers"}
      ensures request.context == old(request.context)
    {
      var existing := request.headers;
      var perCall := PerCallHeaders(request.options);
      var merged := Update(existing, headers);
      var additional := Lookup(request.options, "headers", DictV([]));
      PoppedHeaders(request.options);
      request.options := request.options - {"headers"};
      if Truthy(additional) {
        merged := Update(merged, additional.d);
      }
      request.headers := merged;
    }
  }
}
