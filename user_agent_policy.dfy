/** UserAgentPolicy: composes the User-Agent string and writes it per call. */
module UserAgents {
  import opened Wrappers
  import opened Strings
  import opened Dicts
  import opened Values
  import opened Pipeline

  const UserAgentHeader: string := "User-Agent"

  /** The agent string built from the SDK moniker and the platform when no
      base agent is given. */
  function DefaultUserAgent(sdkMoniker: string, pythonVersion: string, platform: string): string {
    "azsdk-python-" + sdkMoniker + " Python/" + pythonVersion + " (" + platform + ")"
  }

  /** A `user_agent` option, when given, is a string. */
  predicate UserAgentOptionWellTyped(options: map<string, Value>) {
    "user_agent" in options ==> options["user_agent"].StrV?
  }

  class UserAgentPolicy {
    var overwrite: bool
    var useEnv: bool
    var userAgent: string

    /** The constructor. `azcoreVersion`, `pythonVersion` and `platform` stand
        for the package version, platform.python_version() and
        platform.platform(). */
    constructor (azcoreVersion: string, pythonVersion: string, platform: string,
                 baseUserAgent: Option<string> := None, userAgentOverwrite: bool := false,
                 userAgentUseEnv: bool := true, applicationId: Option<string> := None,
                 sdkMoniker: Option<string> := None)
      ensures overwrite == userAgentOverwrite && useEnv == userAgentUseEnv
      ensures var base := if baseUserAgent.Some? && baseUserAgent.value != ""
                          then baseUserAgent.value
                          else DefaultUserAgent(sdkMoniker.GetOr("core/" + azcoreVersion), pythonVersion, platform);
              userAgent == if applicationId.Some? && applicationId.value != "" then applicationId.value + " " + base else base
    {
      overwrite := userAgentOverwrite;
      useEnv := userAgentUseEnv;
      var moniker := sdkMoniker.GetOr("core/" + azcoreVersion);
      if baseUserAgent.Some? && baseUserAgent.value != "" {
        userAgent := baseUserAgent.value;
      } else {
        userAgent := DefaultUserAgent(moniker, pythonVersion, platform);
      }
      if applicationId.Some? && applicationId.value != "" {
        userAgent := applicationId.value + " " + userAgent;
      }
    }

    /** The user_agent property; `env` is the AZURE_HTTP_USER_AGENT
        environment variable, read at each access. */
    function UserAgent(env: Option<string>): (r: string)
      reads this
      ensures StartsWith(r, userAgent)
      ensures r != userAgent <==> useEnv && env.Some?
      ensures r != userAgent ==> r == userAgent + " " + env.value
    {
      if useEnv && env.Some? then userAgent + " " + env.value else userAgent
    }

    /** add_user_agent */
    method AddUserAgent(value: string)
      modifies this
      ensures userAgent == old(userAgent) + " " + value
      ensures overwrite == old(overwrite) && useEnv == old(useEnv)
    {
      userAgent := userAgent + " " + value;
    }

    /** on_request: a per-call `user_agent` replaces the header (when
        overwriting) or is prepended to the policy's agent; otherwise the
        policy's agent is written if overwriting or if the header is absent. */
    method OnRequest(request: PipelineRequest, env: Option<string>)
      requires UserAgentOptionWellTyped(request.options)
      modifies request
      ensures "user_agent" in old(request.options) ==>
        var perCall := old(request.options)["user_agent"].s;
        var overwriting := Truthy(Lookup(old(request.options), "user_agent_overwrite", BoolV(overwrite)));
        && request.options == old(request.options) - {"user_agent", "user_agent_overwrite"}
        && request.headers == Set(old(request.headers), UserAgentHeader,
                                  if overwriting then perCall else perCall + " " + UserAgent(env))
      ensures "user_agent" !in old(request.options) ==>
        && request.options == old(request.options)
        && request.headers == if overwrite || UserAgentHeader !in Keys(old(request.headers))
                              then Set(old(request.headers), UserAgentHeader, UserAgent(env))
                              else old(request.headers)
      ensures forall k :: k != UserAgentHeader ==> Get(request.headers, k) == Get(old(request.headers), k)
      ensures request.context == old(request.context)
    {
      var options, headers := request.options, request.headers;
      if "user_agent" in options {
        var perCall := options["user_agent"].s;
        var rest := options - {"user_agent"};
        assert Lookup(rest, "user_agent_overwrite", BoolV(overwrite)) == Lookup(options, "user_agent_overwrite", BoolV(overwrite));
        var overwriting := Lookup(rest, "user_agent_overwrite", BoolV(overwrite));
        var value := if Truthy(overwriting) then perCall else perCall + " " + UserAgent(env);
        RemoveBoth(options, "user_agent", "user_agent_overwrite");
        request.options := rest - {"user_agent_overwrite"};
        request.headers := Set(headers, UserAgentHeader, value);
      } else if overwrite || UserAgentHeader !in Keys(headers) {
        request.headers := Set(headers, UserAgentHeader, UserAgent(env));
      }
    }
  }
}
