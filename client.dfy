/** src/Errbit/Errbit.php: the client object.  Its configuration map is
    completed with defaults key by key, its observers are a list it appends
    to, and its writer is created on first use.  The writer and the
    observers are code the client cannot see: what the client does with
    them is recorded as a log of calls. */
module ErrbitClient {
  import opened Wrappers
  import opened PhpValues
  import opened Errors

  /** What `checkConfig` takes from its surroundings: the result of
      `gethostname()` (a string, or false), `__DIR__`, and
      `preg_quote($s, '/')`. */
  datatype Env = Env(hostname: Value, dir: string, quote: string -> string)

  const ApiKeyMissing: string := "`api_key' must be configured"
  const HostMissing: string := "`host' must be configured"
  const NotCallable: string := "Notify callback must be callable"
  /** The TypeError `shouldNotify(..., array $skippedExceptions)` raises
      when the merged `skipped_exceptions` is not an array. */
  const SkippedNotArray: string := "skipped_exceptions must be of type array"
  const SocketWriterClass: string := "Errbit\\Writer\\SocketWriter"
  const PasswordFilter: Value := VArr([(KInt(0), VStr("/password/"))])

  // ---- checkConfig's defaults, as a table of guarded writes --------------

  /** When a default is written: for `empty()` or for `!isset()`. */
  datatype Guard = WhenEmpty | WhenUnset

  /** `if (<guard>($c[key])) $c[key] = value($c);` */
  datatype Rule = Rule(guard: Guard, key: string, value: Config -> Value)

  /** Whether a guard fires for the value currently stored (null when absent). */
  predicate Fires(g: Guard, v: Value)
  {
    match g
    case WhenEmpty => Empty(v)
    case WhenUnset => v == VNull
  }

  function ApplyRule(c: Config, r: Rule): Config
  {
    if Fires(r.guard, Get(c, r.key)) then c[r.key := r.value(c)] else c
  }

  /** The rules applied one after the other, each to the map the previous
      ones left. */
  function ApplyRules(c: Config, rs: seq<Rule>): Config
    decreases |rs|
  {
    if rs == [] then c else ApplyRule(ApplyRules(c, rs[..|rs| - 1]), rs[|rs| - 1])
  }

  function KeysOf(rs: seq<Rule>): set<string>
  {
    set i | 0 <= i < |rs| :: rs[i].key
  }

  predicate DistinctKeys(rs: seq<Rule>)
  {
    forall i, j :: 0 <= i < j < |rs| ==> rs[i].key != rs[j].key
  }

  lemma {:induction false} ApplyRulesSnoc(c: Config, rs: seq<Rule>, i: nat)
    requires i < |rs|
    ensures ApplyRules(c, rs[..i + 1]) == ApplyRule(ApplyRules(c, rs[..i]), rs[i])
  {
    assert rs[..i + 1][..i] == rs[..i];
  }

  /** One rule, unfolded for a known guard, key and default: what each of
      the `if` statements of `checkConfig` does. */
  lemma {:induction false} UnsetStep(c: Config, r: Rule, k: string, v: Value)
    requires r.guard == WhenUnset && r.key == k && r.value(c) == v
    ensures ApplyRule(c, r) == if IssetAt(c, k) then c else c[k := v]
  {
  }

  lemma {:induction false} EmptyStep(c: Config, r: Rule, k: string, v: Value)
    requires r.guard == WhenEmpty && r.key == k && r.value(c) == v
    ensures ApplyRule(c, r) == if EmptyAt(c, k) then c[k := v] else c
  {
  }

  /** Maps that follow each other by one rule each end where the rules end. */
  lemma {:induction false} ApplyRulesSteps(cs: seq<Config>, rs: seq<Rule>)
    requires |cs| == |rs| + 1
    requires forall i :: 0 <= i < |rs| ==> cs[i + 1] == ApplyRule(cs[i], rs[i])
    ensures ApplyRules(cs[0], rs) == cs[|rs|]
    decreases |rs|
  {
    if rs != [] {
      var n := |rs| - 1;
      ApplyRulesSteps(cs[..n + 1], rs[..n]);
    }
  }

  /** Five rules, one step each. */
  lemma {:induction false} ApplyRulesFiveSteps(c0: Config, c1: Config, c2: Config, c3: Config, c4: Config, c5: Config,
                                              rs: seq<Rule>)
    requires |rs| == 5
    requires c1 == ApplyRule(c0, rs[0]) && c2 == ApplyRule(c1, rs[1]) && c3 == ApplyRule(c2, rs[2])
    requires c4 == ApplyRule(c3, rs[3]) && c5 == ApplyRule(c4, rs[4])
    ensures ApplyRules(c0, rs) == c5
  {
    var cs := [c0, c1, c2, c3, c4, c5];
    assert forall i :: 0 <= i < |rs| ==> cs[i + 1] == ApplyRule(cs[i], rs[i]);
    ApplyRulesSteps(cs, rs);
  }

  lemma {:induction false} ApplyRulesConcat(c: Config, a: seq<Rule>, b: seq<Rule>)
    ensures ApplyRules(c, a + b) == ApplyRules(ApplyRules(c, a), b)
    decreases |b|
  {
    if b == [] {
      assert a + b == a;
    } else {
      var b' := b[..|b| - 1];
      assert (a + b)[..|a + b| - 1] == a + b';
      ApplyRulesConcat(c, a, b');
    }
  }

  /** The rules add their keys and no others. */
  lemma {:induction false} ApplyRulesKeys(c: Config, rs: seq<Rule>)
    ensures ApplyRules(c, rs).Keys == c.Keys + KeysOf(rs)
    decreases |rs|
  {
    if rs != [] {
      var init := rs[..|rs| - 1];
      ApplyRulesKeys(c, init);
      assert KeysOf(rs) == KeysOf(init) + {rs[|rs| - 1].key} by {
        forall k | k in KeysOf(rs) ensures k in KeysOf(init) + {rs[|rs| - 1].key} {
          var i :| 0 <= i < |rs| && rs[i].key == k;
          if i < |rs| - 1 {
            assert init[i] == rs[i];
          }
        }
        forall k | k in KeysOf(init) ensures k in KeysOf(rs) {
          var i :| 0 <= i < |init| && init[i].key == k;
          assert rs[i] == init[i];
        }
      }
    }
  }

  /** A key no rule names keeps its value. */
  lemma {:induction false} ApplyRulesOther(c: Config, rs: seq<Rule>, k: string)
    requires forall i :: 0 <= i < |rs| ==> rs[i].key != k
    ensures Get(ApplyRules(c, rs), k) == Get(c, k)
    decreases |rs|
  {
    if rs != [] {
      var init := rs[..|rs| - 1];
      assert forall i :: 0 <= i < |init| ==> init[i] == rs[i];
      ApplyRulesOther(c, init, k);
    }
  }

  /** With distinct keys, the final value of a rule's key is what that rule
      left: its default, computed on the map the earlier rules produced,
      when its guard fires on the original value, and the original value
      otherwise. */
  lemma {:induction false} ApplyRulesAt(c: Config, rs: seq<Rule>, i: nat)
    requires DistinctKeys(rs) && i < |rs|
    ensures var k := rs[i].key;
            Get(ApplyRules(c, rs), k) ==
              if Fires(rs[i].guard, Get(c, k)) then rs[i].value(ApplyRules(c, rs[..i])) else Get(c, k)
  {
    var k := rs[i].key;
    var before, after := rs[..i], rs[i + 1..];
    assert forall j :: 0 <= j < |before| ==> before[j] == rs[j];
    ApplyRulesOther(c, before, k);
    ApplyRulesSnoc(c, rs, i);
    assert rs == rs[..i + 1] + after;
    ApplyRulesConcat(c, rs[..i + 1], after);
    assert forall j :: 0 <= j < |after| ==> after[j] == rs[i + 1 + j];
    ApplyRulesOther(ApplyRules(c, rs[..i + 1]), after, k);
  }

  /** A key that an earlier rule wrote keeps its value through the later ones. */
  lemma {:induction false} ApplyRulesPrefixKey(c: Config, rs: seq<Rule>, i: nat, j: nat)
    requires DistinctKeys(rs) && j < i <= |rs|
    ensures Get(ApplyRules(c, rs[..i]), rs[j].key) == Get(ApplyRules(c, rs), rs[j].key)
  {
    var after := rs[i..];
    assert rs == rs[..i] + after;
    ApplyRulesConcat(c, rs[..i], after);
    assert forall m :: 0 <= m < |after| ==> after[m] == rs[i + m];
    ApplyRulesOther(ApplyRules(c, rs[..i]), after, rs[j].key);
  }

  /** A value the user supplied: present, and not one its rule's guard
      replaces. */
  predicate UserSupplied(c: Config, rs: seq<Rule>, k: string)
  {
    k in c && forall i :: 0 <= i < |rs| && rs[i].key == k ==> !Fires(rs[i].guard, c[k])
  }

  /** Defaults never overwrite a value the user supplied. */
  lemma {:induction false} ApplyRulesKeepsSupplied(c: Config, rs: seq<Rule>, k: string)
    requires DistinctKeys(rs) && UserSupplied(c, rs, k)
    ensures k in ApplyRules(c, rs) && ApplyRules(c, rs)[k] == c[k]
  {
    ApplyRulesKeys(c, rs);
    if i :| 0 <= i < |rs| && rs[i].key == k {
      ApplyRulesAt(c, rs, i);
    } else {
      ApplyRulesOther(c, rs, k);
    }
  }

  /** A rule whose default always passes its own guard. */
  ghost predicate Productive(r: Rule)
  {
    forall c :: !Fires(r.guard, r.value(c))
  }

  /** A rule whose default does not depend on the map. */
  ghost predicate Constant(r: Rule)
  {
    forall c, c' :: r.value(c) == r.value(c')
  }

  ghost predicate WellBehaved(rs: seq<Rule>)
  {
    forall i :: 0 <= i < |rs| ==> Productive(rs[i]) || Constant(rs[i])
  }

  /** Applying the rule to `d` changes nothing. */
  predicate FixedBy(d: Config, r: Rule)
  {
    !Fires(r.guard, Get(d, r.key)) || (r.key in d && d[r.key] == r.value(d))
  }

  lemma {:induction false} FixedRulesChangeNothing(d: Config, rs: seq<Rule>)
    requires forall i :: 0 <= i < |rs| ==> FixedBy(d, rs[i])
    ensures ApplyRules(d, rs) == d
    decreases |rs|
  {
    if rs != [] {
      var init := rs[..|rs| - 1];
      assert forall i :: 0 <= i < |init| ==> init[i] == rs[i];
      FixedRulesChangeNothing(d, init);
      assert FixedBy(d, rs[|rs| - 1]);
    }
  }

  lemma {:induction false} ApplyRulesFixes(c: Config, rs: seq<Rule>, i: nat)
    requires DistinctKeys(rs) && WellBehaved(rs) && i < |rs|
    ensures FixedBy(ApplyRules(c, rs), rs[i])
  {
    var d := ApplyRules(c, rs);
    var r := rs[i];
    ApplyRulesAt(c, rs, i);
    ApplyRulesKeys(c, rs);
    assert r.key in KeysOf(rs);
    if Fires(r.guard, Get(c, r.key)) && !Productive(r) {
      assert r.value(ApplyRules(c, rs[..i])) == r.value(d);
    }
  }

  /** Applying well-behaved rules with distinct keys a second time changes
      nothing. */
  lemma {:induction false} ApplyRulesIdempotent(c: Config, rs: seq<Rule>)
    requires DistinctKeys(rs) && WellBehaved(rs)
    ensures ApplyRules(ApplyRules(c, rs), rs) == ApplyRules(c, rs)
  {
    var d := ApplyRules(c, rs);
    forall i | 0 <= i < |rs|
      ensures FixedBy(d, rs[i])
    {
      ApplyRulesFixes(c, rs, i);
    }
    FixedRulesChangeNothing(d, rs);
  }

  // ---- the rules of src/Errbit/Errbit.php --------------------------------

  /** `gethostname() ?: '<unknown>'` */
  function HostDefault(env: Env): Value
  {
    if Truthy(env.hostname) then env.hostname else VStr("<unknown>")
  }

  /** The default backtrace filter: the quoted project root, anchored at
      the start, is replaced by "[PROJECT_ROOT]". */
  function RootFilter(c: Config, env: Env): Value
  {
    VArr([(KStr("/^" + env.quote(ToStr(Get(c, "project_root"))) + "/"), VStr("[PROJECT_ROOT]"))])
  }

  /** An empty port becomes 443 when `secure` is non-empty and 80
      otherwise; then an unset `secure` becomes `$port == 443`, compared
      loosely. */
  function PortRules(): seq<Rule>
  {
    [Rule(WhenEmpty, "port", c => VInt(if EmptyAt(c, "secure") then 80 else 443)),
     Rule(WhenUnset, "secure", c => VBool(LooseEqInt(Get(c, "port"), 443)))]
  }

  function EnvRules(env: Env): seq<Rule>
  {
    [Rule(WhenEmpty, "hostname", c => HostDefault(env)),
     Rule(WhenEmpty, "project_root", c => VStr(env.dir)),
     Rule(WhenEmpty, "environment_name", c => VStr("development"))]
  }

  function FilterRules(env: Env): seq<Rule>
  {
    [Rule(WhenUnset, "params_filters", c => PasswordFilter),
     Rule(WhenUnset, "connect_timeout", c => VInt(3)),
     Rule(WhenUnset, "write_timeout", c => VInt(3)),
     Rule(WhenUnset, "backtrace_filters", c => RootFilter(c, env))]
  }

  function WriterRules(): seq<Rule>
  {
    [Rule(WhenUnset, "skipped_exceptions", c => VArr([])),
     Rule(WhenUnset, "default_writer", c => VStr(SocketWriterClass)),
     Rule(WhenUnset, "agent", c => VStr("errbitPHP")),
     Rule(WhenUnset, "async", c => VBool(false)),
     Rule(WhenUnset, "ignore_user_agent", c => VArr([]))]
  }

  /** Every default `checkConfig` writes, in the source's order. */
  function Rules(env: Env): seq<Rule>
  {
    PortRules() + EnvRules(env) + FilterRules(env) + WriterRules()
  }

  /** The map after every default. */
  function Defaulted(c: Config, env: Env): Config
  {
    ApplyRules(c, Rules(env))
  }

  /** The defaults, group after group. */
  lemma {:induction false} DefaultedInGroups(c: Config, env: Env)
    ensures Defaulted(c, env)
            == ApplyRules(ApplyRules(ApplyRules(ApplyRules(c, PortRules()), EnvRules(env)), FilterRules(env)), WriterRules())
  {
    ApplyRulesConcat(c, PortRules(), EnvRules(env));
    ApplyRulesConcat(c, PortRules() + EnvRules(env), FilterRules(env));
    ApplyRulesConcat(c, PortRules() + EnvRules(env) + FilterRules(env), WriterRules());
  }

  /** `checkConfig()`: the two required keys are checked before anything
      is written; then the defaults. */
  function CheckedConfig(c: Config, env: Env): (r: Result<Config, string>)
    ensures r.Failure? <==> EmptyAt(c, "api_key") || EmptyAt(c, "host")
    ensures r.Failure? ==> r.error == if EmptyAt(c, "api_key") then ApiKeyMissing else HostMissing
  {
    if EmptyAt(c, "api_key") then Failure(ApiKeyMissing)
    else if EmptyAt(c, "host") then Failure(HostMissing)
    else Success(Defaulted(c, env))
  }

  const RuleKeys: seq<string> :=
    ["port", "secure", "hostname", "project_root", "environment_name", "params_filters", "connect_timeout",
     "write_timeout", "backtrace_filters", "skipped_exceptions", "default_writer", "agent", "async", "ignore_user_agent"]

  lemma {:induction false} RulesKeys(env: Env)
    ensures |Rules(env)| == |RuleKeys| && forall i :: 0 <= i < |RuleKeys| ==> Rules(env)[i].key == RuleKeys[i]
  {
  }

  /** No key gets two defaults. */
  lemma {:induction false} RulesDistinct(env: Env)
    ensures DistinctKeys(Rules(env))
  {
    RulesKeys(env);
    assert forall i, j :: 0 <= i < j < |RuleKeys| ==> RuleKeys[i] != RuleKeys[j];
  }

  /** Every default passes its own guard, except the project root, which
      is the same whatever the map. */
  lemma {:induction false} RulesWellBehaved(env: Env)
    ensures WellBehaved(Rules(env))
  {
    var rs := Rules(env);
    assert !Empty(HostDefault(env));
    assert forall i :: 0 <= i < |rs| && i != 3 ==> Productive(rs[i]);
    assert Constant(rs[3]);
  }

  /** After the defaults every key the rules name is present, and no other
      key is added. */
  lemma {:induction false} DefaultedKeys(c: Config, env: Env)
    ensures Defaulted(c, env).Keys == c.Keys + (set k | k in RuleKeys)
  {
    ApplyRulesKeys(c, Rules(env));
    RulesKeys(env);
    assert KeysOf(Rules(env)) == (set k | k in RuleKeys);
  }

  /** Defaults never overwrite what the user supplied. */
  lemma {:induction false} DefaultsKeepUserValues(c: Config, env: Env, k: string)
    requires UserSupplied(c, Rules(env), k)
    ensures k in Defaulted(c, env) && Defaulted(c, env)[k] == c[k]
  {
    RulesDistinct(env);
    ApplyRulesKeepsSupplied(c, Rules(env), k);
  }

  /** The port and `secure` rules: with neither given the client talks
      plain HTTP on port 80; a non-empty `secure` alone selects 443; a port
      equal to 443 alone turns `secure` on. */
  lemma {:induction false} PortAndSecure(c: Config, env: Env)
    ensures var d := Defaulted(c, env);
            && Get(d, "port") == (if !EmptyAt(c, "port") then Get(c, "port") else if EmptyAt(c, "secure") then VInt(80) else VInt(443))
            && Get(d, "secure") == (if IssetAt(c, "secure") then Get(c, "secure") else VBool(LooseEqInt(Get(d, "port"), 443)))
    ensures EmptyAt(c, "port") && !IssetAt(c, "secure") ==>
              Get(Defaulted(c, env), "port") == VInt(80) && Get(Defaulted(c, env), "secure") == VBool(false)
    ensures EmptyAt(c, "port") && !EmptyAt(c, "secure") ==> Get(Defaulted(c, env), "port") == VInt(443)
    ensures !EmptyAt(c, "port") && LooseEqInt(Get(c, "port"), 443) && !IssetAt(c, "secure") ==>
              Get(Defaulted(c, env), "secure") == VBool(true)
  {
    var rs := Rules(env);
    RulesDistinct(env);
    RulesKeys(env);
    ApplyRulesAt(c, rs, 0);
    ApplyRulesAt(c, rs, 1);
    ApplyRulesPrefixKey(c, rs, 1, 0);
    assert rs[..0] == [];
  }

  /** The defaults of the other keys, when the user left them out. */
  /** The defaults for the host and the deployment. */
  lemma {:induction false} DefaultEnvValues(c: Config, env: Env)
    ensures var d := Defaulted(c, env);
            && (EmptyAt(c, "hostname") ==> Get(d, "hostname") == HostDefault(env))
            && (!EmptyAt(c, "hostname") ==> Get(d, "hostname") == Get(c, "hostname"))
            && (EmptyAt(c, "project_root") ==> Get(d, "project_root") == VStr(env.dir))
            && (EmptyAt(c, "environment_name") ==> Get(d, "environment_name") == VStr("development"))
  {
    var rs := Rules(env);
    RulesDistinct(env);
    RulesKeys(env);
    ApplyRulesAt(c, rs, 2);
    ApplyRulesAt(c, rs, 3);
    ApplyRulesAt(c, rs, 4);
  }

  /** The defaults for filtering and timeouts; the backtrace filter is
      built from the project root the map ends with. */
  lemma {:induction false} DefaultFilterValues(c: Config, env: Env)
    ensures var d := Defaulted(c, env);
            && (!IssetAt(c, "params_filters") ==> Get(d, "params_filters") == PasswordFilter)
            && (!IssetAt(c, "connect_timeout") ==> Get(d, "connect_timeout") == VInt(3))
            && (!IssetAt(c, "write_timeout") ==> Get(d, "write_timeout") == VInt(3))
            && (!IssetAt(c, "backtrace_filters") ==> Get(d, "backtrace_filters") == RootFilter(d, env))
  {
    var rs := Rules(env);
    RulesDistinct(env);
    RulesKeys(env);
    ApplyRulesAt(c, rs, 5);
    ApplyRulesAt(c, rs, 6);
    ApplyRulesAt(c, rs, 7);
    DefaultBacktraceFilter(c, env);
  }

  /** The backtrace filter default reads the project root the earlier
      defaults left, which is the final one. */
  lemma {:induction false} DefaultBacktraceFilter(c: Config, env: Env)
    ensures !IssetAt(c, "backtrace_filters") ==> Get(Defaulted(c, env), "backtrace_filters") == RootFilter(Defaulted(c, env), env)
  {
    var rs := Rules(env);
    RulesDistinct(env);
    RulesKeys(env);
    ApplyRulesAt(c, rs, 8);
    ApplyRulesPrefixKey(c, rs, 8, 3);
    assert RootFilter(ApplyRules(c, rs[..8]), env) == RootFilter(Defaulted(c, env), env);
  }

  /** The defaults for the writer and the notify filters. */
  lemma {:induction false} DefaultWriterValues(c: Config, env: Env)
    ensures var d := Defaulted(c, env);
            && (!IssetAt(c, "skipped_exceptions") ==> Get(d, "skipped_exceptions") == VArr([]))
            && (!IssetAt(c, "default_writer") ==> Get(d, "default_writer") == VStr(SocketWriterClass))
            && (!IssetAt(c, "agent") ==> Get(d, "agent") == VStr("errbitPHP"))
            && (!IssetAt(c, "async") ==> Get(d, "async") == VBool(false))
            && (!IssetAt(c, "ignore_user_agent") ==> Get(d, "ignore_user_agent") == VArr([]))
  {
    var rs := Rules(env);
    RulesDistinct(env);
    RulesKeys(env);
    ApplyRulesAt(c, rs, 9);
    ApplyRulesAt(c, rs, 10);
    ApplyRulesAt(c, rs, 11);
    ApplyRulesAt(c, rs, 12);
    ApplyRulesAt(c, rs, 13);
  }

  /** `checkConfig` is idempotent: a second call changes nothing. */
  lemma {:induction false} CheckConfigIdempotent(c: Config, env: Env)
    requires CheckedConfig(c, env).Success?
    ensures CheckedConfig(CheckedConfig(c, env).value, env) == CheckedConfig(c, env)
  {
    var rs := Rules(env);
    RulesKeys(env);
    RulesDistinct(env);
    RulesWellBehaved(env);
    ApplyRulesOther(c, rs, "api_key");
    ApplyRulesOther(c, rs, "host");
    ApplyRulesIdempotent(c, rs);
  }

  // ---- shouldNotify -----------------------------------------------------

  /** The exception is an instance of one of the skipped classes;
      `instanceof` is the parameter `isA`. */
  predicate Skipped(ex: Record, skipped: seq<(Key, Value)>, isA: (Record, Value) -> bool)
  {
    exists i :: 0 <= i < |skipped| && isA(ex, skipped[i].1)
  }

  /** The entries `foreach` visits: none for a value that is not an array. */
  function Entries(v: Value): seq<(Key, Value)>
  {
    if v.VArr? then v.entries else []
  }

  /** A non-empty user agent contains one of the ignored fragments. */
  predicate IgnoredAgent(ua: string, ignore: seq<(Key, Value)>)
  {
    ua != "" && exists i :: 0 <= i < |ignore| && Contains(ua, ToStr(ignore[i].1))
  }

  /** `$_SERVER['HTTP_USER_AGENT'] ?? ''` */
  function UserAgent(server: Value): string
  {
    var v := Lookup(server, "HTTP_USER_AGENT");
    if v.VNull? then "" else ToStr(v)
  }

  /** Whether `notify` reports: not a skipped class, and the user agent not
      ignored by the persistent configuration. */
  predicate WillNotify(ex: Record, skipped: seq<(Key, Value)>, persistent: Config, ua: string, isA: (Record, Value) -> bool)
  {
    !Skipped(ex, skipped, isA) && !IgnoredAgent(ua, Entries(Get(persistent, "ignore_user_agent")))
  }

  /** An empty fragment among the ignored agents silences every request
      that sends a user agent, since every string contains "". */
  lemma {:induction false} EmptyFragmentIgnoresAll(ex: Record, skipped: seq<(Key, Value)>, persistent: Config, ua: string,
                                                   isA: (Record, Value) -> bool, i: nat)
    requires var ignore := Entries(Get(persistent, "ignore_user_agent")); i < |ignore| && ToStr(ignore[i].1) == ""
    requires ua != ""
    ensures !WillNotify(ex, skipped, persistent, ua, isA)
  {
    ContainsEmpty(ua);
  }

  // ---- the log of calls the client makes -------------------------------

  /** A writer: one the caller set, or one created from the class named
      by `default_writer`. */
  datatype WriterRef = Given(id: nat) | Created(cls: Value)

  datatype Call =
    | WriteCall(writer: WriterRef, exception: Record, config: Config)
    | ObserverCall(observer: Value, exception: Record, config: Config)

  function ObserverCalls(observers: seq<Value>, ex: Record, config: Config): (r: seq<Call>)
    ensures |r| == |observers|
    ensures forall i :: 0 <= i < |r| ==> r[i] == ObserverCall(observers[i], ex, config)
  {
    seq(|observers|, i requires 0 <= i < |observers| => ObserverCall(observers[i], ex, config))
  }

  /** What one reported notice does: one write, then every observer. */
  function NotifyCalls(w: WriterRef, observers: seq<Value>, ex: Record, config: Config): seq<Call>
  {
    [WriteCall(w, ex, config)] + ObserverCalls(observers, ex, config)
  }

  /** The writer is called exactly once and first; then each observer once,
      in registration order; all see the same exception and configuration. */
  lemma {:induction false} NotifyCallsOrder(w: WriterRef, observers: seq<Value>, ex: Record, config: Config)
    ensures var cs := NotifyCalls(w, observers, ex, config);
            && |cs| == 1 + |observers|
            && cs[0] == WriteCall(w, ex, config)
            && (forall i :: 0 <= i < |observers| ==> cs[i + 1] == ObserverCall(observers[i], ex, config))
            && (forall i :: 0 < i < |cs| ==> !cs[i].WriteCall?)
  {
    var cs := NotifyCalls(w, observers, ex, config);
    var os := ObserverCalls(observers, ex, config);
    forall i | 0 <= i < |observers|
      ensures cs[i + 1] == ObserverCall(observers[i], ex, config)
    {
      assert cs[i + 1] == os[i];
    }
    forall i | 0 < i < |cs|
      ensures !cs[i].WriteCall?
    {
      assert cs[i] == os[i - 1];
    }
  }

  /** The port and `secure` defaults, on a copy of the configuration. */
  method WithPortDefaults(config: Config) returns (c: Config)
    ensures c == ApplyRules(config, PortRules())
  {
    c := config;
    ghost var c0 := c;
    ghost var rs := PortRules();
    if EmptyAt(c, "port") {
      c := c["port" := if !EmptyAt(c, "secure") then VInt(443) else VInt(80)];
    }
    ghost var c1 := c;
    EmptyStep(c0, rs[0], "port", if !EmptyAt(c0, "secure") then VInt(443) else VInt(80));
    if !IssetAt(c, "secure") {
      c := c["secure" := VBool(LooseEqInt(Get(c, "port"), 443))];
    }
    ghost var c2 := c;
    UnsetStep(c1, rs[1], "secure", VBool(LooseEqInt(Get(c1, "port"), 443)));
    ApplyRulesSteps([c0, c1, c2], rs);
  }

  /** The hostname, project root and environment name defaults, on a copy. */
  method WithEnvDefaults(config: Config, env: Env) returns (c: Config)
    ensures c == ApplyRules(config, EnvRules(env))
  {
    c := config;
    ghost var c0 := c;
    ghost var rs := EnvRules(env);
    if EmptyAt(c, "hostname") {
      c := c["hostname" := if Truthy(env.hostname) then env.hostname else VStr("<unknown>")];
    }
    ghost var c1 := c;
    EmptyStep(c0, rs[0], "hostname", if Truthy(env.hostname) then env.hostname else VStr("<unknown>"));
    if EmptyAt(c, "project_root") {
      c := c["project_root" := VStr(env.dir)];
    }
    ghost var c2 := c;
    EmptyStep(c1, rs[1], "project_root", VStr(env.dir));
    if EmptyAt(c, "environment_name") {
      c := c["environment_name" := VStr("development")];
    }
    ghost var c3 := c;
    EmptyStep(c2, rs[2], "environment_name", VStr("development"));
    ApplyRulesSteps([c0, c1, c2, c3], rs);
  }

  /** The filter and timeout defaults, on a copy. */
  method WithFilterDefaults(config: Config, env: Env) returns (c: Config)
    ensures c == ApplyRules(config, FilterRules(env))
  {
    c := config;
    ghost var c0 := c;
    ghost var rs := FilterRules(env);
    if !IssetAt(c, "params_filters") {
      c := c["params_filters" := VArr([(KInt(0), VStr("/password/"))])];
    }
    ghost var c1 := c;
    UnsetStep(c0, rs[0], "params_filters", VArr([(KInt(0), VStr("/password/"))]));
    if !IssetAt(c, "connect_timeout") {
      c := c["connect_timeout" := VInt(3)];
    }
    ghost var c2 := c;
    UnsetStep(c1, rs[1], "connect_timeout", VInt(3));
    if !IssetAt(c, "write_timeout") {
      c := c["write_timeout" := VInt(3)];
    }
    ghost var c3 := c;
    UnsetStep(c2, rs[2], "write_timeout", VInt(3));
    if !IssetAt(c, "backtrace_filters") {
      var root := env.quote(ToStr(Get(c, "project_root")));
      c := c["backtrace_filters" := VArr([(KStr("/^" + root + "/"), VStr("[PROJECT_ROOT]"))])];
    }
    ghost var c4 := c;
    UnsetStep(c3, rs[3], "backtrace_filters", RootFilter(c3, env));
    ApplyRulesSteps([c0, c1, c2, c3, c4], rs);
  }

  /** The writer, agent and skipping defaults, on a copy. */
  method WithWriterDefaults(config: Config) returns (c: Config)
    ensures c == ApplyRules(config, WriterRules())
  {
    c := config;
    ghost var c0 := c;
    ghost var rs := WriterRules();
    if !IssetAt(c, "skipped_exceptions") {
      c := c["skipped_exceptions" := VArr([])];
    }
    ghost var c1 := c;
    UnsetStep(c0, rs[0], "skipped_exceptions", VArr([]));
    if !IssetAt(c, "default_writer") {
      c := c["default_writer" := VStr(SocketWriterClass)];
    }
    ghost var c2 := c;
    UnsetStep(c1, rs[1], "default_writer", VStr(SocketWriterClass));
    if !IssetAt(c, "agent") {
      c := c["agent" := VStr("errbitPHP")];
    }
    ghost var c3 := c;
    UnsetStep(c2, rs[2], "agent", VStr("errbitPHP"));
    if !IssetAt(c, "async") {
      c := c["async" := VBool(false)];
    }
    ghost var c4 := c;
    UnsetStep(c3, rs[3], "async", VBool(false));
    if !IssetAt(c, "ignore_user_agent") {
      c := c["ignore_user_agent" := VArr([])];
    }
    ghost var c5 := c;
    UnsetStep(c4, rs[4], "ignore_user_agent", VArr([]));
    ApplyRulesFiveSteps(c0, c1, c2, c3, c4, c5, rs);
  }

  class Client {
    var config: Config
    var observers: seq<Value>
    var writer: Option<WriterRef>
    var calls: seq<Call>

    /** `new Errbit($config)`: the map is stored unchecked. */
    constructor(config: Config)
      ensures this.config == config && observers == [] && writer == None && calls == []
    {
      this.config := config;
      observers := [];
      writer := None;
      calls := [];
    }

    method SetWriter(w: WriterRef)
      modifies this
      ensures writer == Some(w)
      ensures config == old(config) && observers == old(observers) && calls == old(calls)
    {
      writer := Some(w);
    }

    /** `onNotify($callback)`; `is_callable` is the parameter `isCallable`. */
    method OnNotify(callback: Value, isCallable: Value -> bool) returns (r: Outcome<string>, self: Client)
      modifies this
      ensures self == this
      ensures isCallable(callback) ==> r == Pass && observers == old(observers) + [callback]
      ensures !isCallable(callback) ==> r == Fail(NotCallable) && observers == old(observers)
      ensures config == old(config) && writer == old(writer) && calls == old(calls)
    {
      self := this;
      if !isCallable(callback) {
        return Fail(NotCallable), self;
      }
      observers := observers + [callback];
      r := Pass;
    }

    /** `checkConfig()`, writing each default into the field. */
    method CheckConfig(env: Env) returns (r: Outcome<string>)
      modifies this
      ensures match CheckedConfig(old(config), env)
              case Success(d) => r == Pass && config == d
              case Failure(e) => r == Fail(e) && config == old(config)
      ensures observers == old(observers) && writer == old(writer) && calls == old(calls)
    {
      if EmptyAt(config, "api_key") {
        return Fail(ApiKeyMissing);
      }
      if EmptyAt(config, "host") {
        return Fail(HostMissing);
      }
      ghost var c0 := config;
      var c := WithPortDefaults(config);
      c := WithEnvDefaults(c, env);
      c := WithFilterDefaults(c, env);
      c := WithWriterDefaults(c);
      DefaultedInGroups(c0, env);
      config := c;
      r := Pass;
    }

    /** `configure($patch)`: merge, patch keys winning, then check.  A
        failed check leaves the merged map in place. */
    method Configure(patch: Config, env: Env) returns (r: Outcome<string>, self: Client)
      modifies this
      ensures self == this
      ensures match CheckedConfig(old(config) + patch, env)
              case Success(d) => r == Pass && config == d
              case Failure(e) => r == Fail(e) && config == old(config) + patch
      ensures observers == old(observers) && writer == old(writer) && calls == old(calls)
    {
      self := this;
      config := config + patch;
      r := CheckConfig(env);
    }

    /** `shouldNotify($exception, $skipped)`, with the user agent passed in. */
    method ShouldNotify(ex: Record, skipped: seq<(Key, Value)>, ua: string, isA: (Record, Value) -> bool) returns (go: bool)
      ensures go == WillNotify(ex, skipped, config, ua, isA)
    {
      var i := 0;
      while i < |skipped|
        invariant 0 <= i <= |skipped|
        invariant forall j :: 0 <= j < i ==> !isA(ex, skipped[j].1)
      {
        if isA(ex, skipped[i].1) {
          return false;
        }
        i := i + 1;
      }
      var ignore := Entries(Get(config, "ignore_user_agent"));
      var k := 0;
      while k < |ignore|
        invariant 0 <= k <= |ignore|
        invariant forall j :: 0 <= j < k ==> !(ua != "" && Contains(ua, ToStr(ignore[j].1)))
      {
        if ua != "" && Contains(ua, ToStr(ignore[k].1)) {
          return false;
        }
        k := k + 1;
      }
      go := true;
    }

    /** `notifyObservers($exception, $config)`: each observer once, in order. */
    method NotifyObservers(ex: Record, cfg: Config)
      modifies this
      ensures calls == old(calls) + ObserverCalls(observers, ex, cfg)
      ensures config == old(config) && observers == old(observers) && writer == old(writer)
    {
      var i := 0;
      while i < |observers|
        invariant 0 <= i <= |observers|
        invariant calls == old(calls) + ObserverCalls(observers[..i], ex, cfg)
        invariant config == old(config) && observers == old(observers) && writer == old(writer)
      {
        assert ObserverCalls(observers[..i + 1], ex, cfg) == ObserverCalls(observers[..i], ex, cfg) + [ObserverCall(observers[i], ex, cfg)];
        calls := calls + [ObserverCall(observers[i], ex, cfg)];
        i := i + 1;
      }
      assert observers[..i] == observers;
    }

    /** `getWriter()`: the writer set earlier, or a new instance of the
        default writer class, kept for every later call. */
    method GetWriter() returns (w: WriterRef)
      modifies this
      ensures old(writer).Some? ==> w == old(writer).value && writer == old(writer)
      ensures old(writer).None? ==> w == Created(Get(config, "default_writer")) && writer == Some(w)
      ensures config == old(config) && observers == old(observers) && calls == old(calls)
    {
      if writer.None? {
        writer := Some(Created(Get(config, "default_writer")));
      }
      w := writer.value;
    }

    /** `notify($exception, $options)`: check the configuration, merge the
        options over it, and report unless the exception is skipped. */
    method Notify(ex: Record, options: Config, env: Env, server: Value, isA: (Record, Value) -> bool)
      returns (r: Outcome<string>, self: Client)
      modifies this
      ensures self == this && observers == old(observers)
      ensures match CheckedConfig(old(config), env)
              case Failure(e) => r == Fail(e) && config == old(config) && writer == old(writer) && calls == old(calls)
              case Success(d) => config == d && Reported(r, ex, options, server, isA, old(writer), old(calls))
    {
      self := this;
      r := CheckConfig(env);
      if r.Fail? {
        return;
      }
      r := Report(ex, options, server, isA);
    }

    /** What `notify` does after the check: the writer and the observers
        are called exactly when the merged map is usable and
        `shouldNotify` holds. */
    ghost predicate Reported(r: Outcome<string>, ex: Record, options: Config, server: Value, isA: (Record, Value) -> bool,
                             writer0: Option<WriterRef>, calls0: seq<Call>)
      reads this
    {
      var merged := config + options;
      && (r.Pass? <==> Get(merged, "skipped_exceptions").VArr?)
      && if r.Pass? && WillNotify(ex, Entries(Get(merged, "skipped_exceptions")), config, UserAgent(server), isA) then
           && writer == Some(if writer0.Some? then writer0.value else Created(Get(config, "default_writer")))
           && calls == calls0 + NotifyCalls(writer.value, observers, ex, merged)
         else
           writer == writer0 && calls == calls0
    }

    method Report(ex: Record, options: Config, server: Value, isA: (Record, Value) -> bool) returns (r: Outcome<string>)
      modifies this
      ensures config == old(config) && observers == old(observers)
      ensures Reported(r, ex, options, server, isA, old(writer), old(calls))
    {
      var merged := config + options;
      var skipped := Get(merged, "skipped_exceptions");
      if !skipped.VArr? {
        return Fail(SkippedNotArray);
      }
      r := Pass;
      var go := ShouldNotify(ex, skipped.entries, UserAgent(server), isA);
      if go {
        var w := GetWriter();
        calls := calls + [WriteCall(w, ex, merged)];
        NotifyObservers(ex, merged);
      }
    }
  }
}
