/** lib/Errbit.php: the older client.  It keeps a configuration, checks it
    (two required keys, five defaults), builds the API URL from it, and on
    `notify` posts the notice of lib/Errbit/Notice.php to that URL.  The
    POST itself (curl) is not modelled: `Notify` returns the request it
    would make. */
module LibErrbit {
  import opened Wrappers
  import opened PhpValues
  import opened Errors
  import opened SimpleXml
  import opened LibXmlBuilder
  import opened ErrbitClient
  import LibInfo
  import LibNotice
  import Notice

  // ---- _checkConfig ----------------------------------------------------

  /** The defaults `_checkConfig` writes, in order: port, secure, hostname,
      project root (lib's own directory, `env.dir`) and environment name. */
  function LibRules(env: Env): seq<Rule>
  {
    PortRules() + EnvRules(env)
  }

  /** For one shared `Env`, they are the first five defaults of
      src/Errbit/Errbit.php, with the same guards and the same values.  The
      two clients run in different directories (lib/Errbit.php:86 takes lib/,
      src/Errbit/Errbit.php:232 takes src/Errbit/), so their project roots
      agree only when both are given the same `env.dir`. */
  lemma {:induction false} LibRulesArePrefix(env: Env)
    ensures LibRules(env) == Rules(env)[..5]
  {
  }

  lemma {:induction false} LibRulesFacts(env: Env)
    ensures DistinctKeys(LibRules(env)) && WellBehaved(LibRules(env))
    ensures |LibRules(env)| == 5
    ensures forall i :: 0 <= i < 5 ==> LibRules(env)[i].key == RuleKeys[i]
  {
    var rs := Rules(env);
    RulesKeys(env);
    RulesDistinct(env);
    RulesWellBehaved(env);
    LibRulesArePrefix(env);
    assert forall i :: 0 <= i < 5 ==> LibRules(env)[i] == rs[i];
  }

  /** `_checkConfig()`: an empty api key or host throws, before anything
      is written; otherwise the five defaults. */
  function LibCheckedConfig(c: Config, env: Env): (r: Result<Config, string>)
    ensures r.Failure? <==> EmptyAt(c, "api_key") || EmptyAt(c, "host")
    ensures r.Failure? ==> r.error == if EmptyAt(c, "api_key") then ApiKeyMissing else HostMissing
  {
    if EmptyAt(c, "api_key") then Failure(ApiKeyMissing)
    else if EmptyAt(c, "host") then Failure(HostMissing)
    else Success(ApplyRules(c, LibRules(env)))
  }

  /** The values the defaults leave: an empty port becomes 443 with a
      non-empty `secure` and 80 otherwise; an unset `secure` becomes
      `$port == 443`; empty hostname, project root and environment name
      get `gethostname()` (or "<unknown>"), lib's directory and
      "development"; a value the user gave is kept. */
  lemma {:induction false} LibDefaultValues(c: Config, env: Env)
    ensures var d := ApplyRules(c, LibRules(env));
            && Get(d, "port") == (if !EmptyAt(c, "port") then Get(c, "port") else if EmptyAt(c, "secure") then VInt(80) else VInt(443))
            && Get(d, "secure") == (if IssetAt(c, "secure") then Get(c, "secure") else VBool(LooseEqInt(Get(d, "port"), 443)))
            && Get(d, "hostname") == (if EmptyAt(c, "hostname") then HostDefault(env) else Get(c, "hostname"))
            && Get(d, "project_root") == (if EmptyAt(c, "project_root") then VStr(env.dir) else Get(c, "project_root"))
            && Get(d, "environment_name") == (if EmptyAt(c, "environment_name") then VStr("development") else Get(c, "environment_name"))
  {
    var rs := LibRules(env);
    LibRulesFacts(env);
    ApplyRulesAt(c, rs, 0);
    ApplyRulesAt(c, rs, 1);
    ApplyRulesPrefixKey(c, rs, 1, 0);
    assert rs[..0] == [];
    ApplyRulesAt(c, rs, 2);
    ApplyRulesAt(c, rs, 3);
    ApplyRulesAt(c, rs, 4);
  }

  /** Keys other than the five are left as they were; in particular the
      api key and the host. */
  lemma {:induction false} LibOtherKeys(c: Config, env: Env, k: string)
    requires k !in RuleKeys[..5]
    ensures Get(ApplyRules(c, LibRules(env)), k) == Get(c, k)
  {
    LibRulesFacts(env);
    assert forall i :: 0 <= i < 5 ==> RuleKeys[..5][i] == RuleKeys[i];
    ApplyRulesOther(c, LibRules(env), k);
  }

  /** Checking a checked configuration changes nothing, so `_buildApiUrl`
      may check again after `configure` or `start`. */
  lemma {:induction false} LibCheckIdempotent(c: Config, env: Env)
    requires LibCheckedConfig(c, env).Success?
    ensures LibCheckedConfig(LibCheckedConfig(c, env).value, env) == LibCheckedConfig(c, env)
  {
    LibRulesFacts(env);
    LibOtherKeys(c, env, "api_key");
    LibOtherKeys(c, env, "host");
    ApplyRulesIdempotent(c, LibRules(env));
  }

  // ---- _buildApiUrl ----------------------------------------------------

  /** The URL of a checked configuration: scheme by `secure`, then host,
      port and the notices path. */
  function ApiUrl(c: Config): string
  {
    (if Truthy(Get(c, "secure")) then "https://" else "http://") + ToStr(Get(c, "host")) + ":" + ToStr(Get(c, "port"))
    + LibInfo.NOTICES_PATH
  }

  /** With no port and no `secure` the URL is plain HTTP on port 80; a
      non-empty `secure` and no port give HTTPS on 443; a port equal to
      443 and no `secure` give HTTPS on that port. */
  lemma {:induction false} ApiUrlDefaults(c: Config, env: Env)
    requires LibCheckedConfig(c, env).Success?
    ensures var u, host := ApiUrl(LibCheckedConfig(c, env).value), ToStr(Get(c, "host"));
            && (EmptyAt(c, "port") && !IssetAt(c, "secure") ==> u == "http://" + host + ":" + "80" + LibInfo.NOTICES_PATH)
            && (EmptyAt(c, "port") && !EmptyAt(c, "secure") ==> u == "https://" + host + ":" + "443" + LibInfo.NOTICES_PATH)
            && (!EmptyAt(c, "port") && LooseEqInt(Get(c, "port"), 443) && !IssetAt(c, "secure") ==>
                  u == "https://" + host + ":" + ToStr(Get(c, "port")) + LibInfo.NOTICES_PATH)
  {
    LibDefaultValues(c, env);
    LibOtherKeys(c, env, "host");
    DefaultPortStrings();
  }

  lemma {:induction false} DefaultPortStrings()
    ensures IntToString(80) == "80" && IntToString(443) == "443"
  {
    assert NatToString(8) == "8";
    assert NatToString(4) == "4";
    assert NatToString(44) == "44";
  }

  /** The request `notify` hands to curl: a POST of the notice to the API
      URL with XML content headers. */
  datatype Post = Post(url: string, body: string, headers: seq<string>)

  const PostHeaders: seq<string> := ["Content-Type: text/xml", "Accept: text/xml, application/xml"]

  /** `_buildNoticeFor($exception, $options)` */
  method BuildNoticeFor(ex: Record, options: Config, rt: Notice.Runtime, ic: IsCallable) returns (xml: string)
    ensures xml == Markup(LibNotice.NoticeNode(ex, LibNotice.LibMergedOptions(rt, options), ic))
  {
    var n := LibNotice.ErrbitNotice.ForException(ex, rt, options);
    xml := n.AsXml(ic);
  }

  /** The Errbit client: its configuration. */
  class Errbit {
    var config: Config

    /** `new Errbit($config)`: stored as given, unchecked. */
    constructor(config: Config)
      ensures this.config == config
    {
      this.config := config;
    }

    /** `configure($config)`: the configuration is replaced, then checked;
        when the check throws, the unchecked one stays. */
    method Configure(config: Config, env: Env) returns (r: Outcome<string>, self: Errbit)
      modifies this
      ensures self == this
      ensures match LibCheckedConfig(config, env)
              case Success(d) => r == Pass && this.config == d
              case Failure(e) => r == Fail(e) && this.config == config
    {
      this.config := config;
      r := CheckConfig(env);
      self := this;
    }

    /** `start()`: the check alone (the handlers are not registered). */
    method Start(env: Env) returns (r: Outcome<string>, self: Errbit)
      modifies this
      ensures self == this
      ensures match LibCheckedConfig(old(config), env)
              case Success(d) => r == Pass && config == d
              case Failure(e) => r == Fail(e) && config == old(config)
    {
      r := CheckConfig(env);
      self := this;
    }

    /** `_checkConfig()` */
    method CheckConfig(env: Env) returns (r: Outcome<string>)
      modifies this
      ensures match LibCheckedConfig(old(config), env)
              case Success(d) => r == Pass && config == d
              case Failure(e) => r == Fail(e) && config == old(config)
    {
      if EmptyAt(config, "api_key") {
        return Fail(ApiKeyMissing);
      }
      if EmptyAt(config, "host") {
        return Fail(HostMissing);
      }
      var c := WithPortDefaults(config);
      c := WithEnvDefaults(c, env);
      ApplyRulesConcat(old(config), PortRules(), EnvRules(env));
      config := c;
      r := Pass;
    }

    /** `_buildApiUrl()`: checks the configuration first, so the port
        and `secure` are always set when the URL is built. */
    method BuildApiUrl(env: Env) returns (r: Result<string, string>)
      modifies this
      ensures match LibCheckedConfig(old(config), env)
              case Success(d) => r == Success(ApiUrl(d)) && config == d
              case Failure(e) => r == Failure(e) && config == old(config)
    {
      var checked := CheckConfig(env);
      if checked.Fail? {
        return Failure(checked.error);
      }
      var scheme := if Truthy(Get(config, "secure")) then "https://" else "http://";
      r := Success(scheme + ToStr(Get(config, "host")) + ":" + ToStr(Get(config, "port")) + LibInfo.NOTICES_PATH);
    }

    /** `notify($exception, $options)`: the options over the configuration
        as it stood before the URL's check, the URL (whose check may
        throw before the notice is built), and the notice. */
    method Notify(ex: Record, options: Config, rt: Notice.Runtime, env: Env, ic: IsCallable) returns (r: Result<Post, string>)
      modifies this
      ensures match LibCheckedConfig(old(config), env)
              case Success(d) =>
                && r == Success(Post(ApiUrl(d), Markup(LibNotice.NoticeNode(ex, LibNotice.LibMergedOptions(rt, old(config) + options), ic)),
                                     PostHeaders))
                && config == d
              case Failure(e) => r == Failure(e) && config == old(config)
    {
      var merged := config + options;
      var url := BuildApiUrl(env);
      if url.Failure? {
        return Failure(url.error);
      }
      var body := BuildNoticeFor(ex, merged, rt, ic);
      r := Success(Post(url.value, body, PostHeaders));
    }
  }
}
