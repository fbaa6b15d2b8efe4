/** ProxyPolicy: hands the configured proxies to the transport unless the
    caller gave some for this call. */
module Proxies {
  import opened Wrappers
  import opened Dicts
  import opened Values
  import opened Pipeline

  class ProxyPolicy {
    var proxies: Option<Dict>

    constructor (proxies: Option<Dict> := None)
      ensures this.proxies == proxies
    {
      this.proxies := proxies;
    }

    method OnRequest(request: PipelineRequest)
      modifies request
      ensures request.options ==
        if proxies.Some? && |proxies.value| > 0 && "proxies" !in old(request.options)
        then old(request.options)["proxies" := DictV(proxies.value)]
        else old(request.options)
      ensures "proxies" in old(request.options) ==> request.options == old(request.options)
      ensures request.headers == old(request.headers) && request.context == old(request.context)
    {
      if proxies.Some? && |proxies.value| > 0 && "proxies" !in request.options {
        request.options := request.options["proxies" := DictV(proxies.value)];
      }
    }
  }
}
