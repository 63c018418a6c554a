/** The notifier's identity, as src/Errbit/Errbit.php declares it. */
module ErrbitInfo {
  const VERSION: string := "2.0.1"
  const API_VERSION: string := "2.2"
  const PROJECT_NAME: string := "errbit-php"
  const PROJECT_URL: string := "https://github.com/emgiezet/errbit-php"
}

/** src/Errbit/Exception/Notice.php: the notice document sent to Errbit.
    The superglobals, the regular-expression engine and the object heap are
    parameters; the static `$hashArray` is a registry object the caller
    passes in and keeps. */
module Notice {
  import opened Wrappers
  import opened PhpValues
  import opened SimpleXml
  import opened XmlBuilder
  import opened Errors
  import opened ErrbitInfo

  // ---- formatMethod ----------------------------------------------------

  /** `formatMethod($frame)`: "class" + "type" + "function" + "()" when all
      three are non-empty, otherwise the function name (or "<unknown>")
      followed by "()". */
  function FormatMethod(frame: Value): (r: string)
    ensures |r| >= 2 && r[|r| - 2..] == "()"
  {
    var cls := Lookup(frame, "class");
    var typ := Lookup(frame, "type");
    var fun := Lookup(frame, "function");
    if !Empty(cls) && !Empty(typ) && !Empty(fun) then ToStr(cls) + ToStr(typ) + ToStr(fun) + "()"
    else (if !Empty(fun) then ToStr(fun) else "<unknown>") + "()"
  }

  /** The three ways a frame is named. */
  lemma {:induction false} FormatMethodCases(frame: Value)
    ensures var cls, typ, fun := Lookup(frame, "class"), Lookup(frame, "type"), Lookup(frame, "function");
            && (Truthy(cls) && Truthy(typ) && Truthy(fun) ==> FormatMethod(frame) == ToStr(cls) + ToStr(typ) + ToStr(fun) + "()")
            && (!(Truthy(cls) && Truthy(typ)) && Truthy(fun) ==> FormatMethod(frame) == ToStr(fun) + "()")
            && (Empty(fun) ==> FormatMethod(frame) == "<unknown>()")
  {
  }

  function Frame3(cls: string, typ: string, fun: string): Value
  {
    VArr([(KStr("class"), VStr(cls)), (KStr("type"), VStr(typ)), (KStr("function"), VStr(fun))])
  }

  /** The frames the source's own method-name examples use: an instance
      method, a static method, a plain function and an empty frame. */
  lemma {:induction false} FormatMethodInstance()
    ensures FormatMethod(Frame3("MyClass", "->", "myMethod")) == "MyClass->myMethod()"
  {
    Frame3Fields("MyClass", "->", "myMethod");
    assert "MyClass" + "->" + "myMethod" + "()" == "MyClass->myMethod()";
  }

  lemma {:induction false} FormatMethodStatic()
    ensures FormatMethod(Frame3("MyClass", "::", "staticMethod")) == "MyClass::staticMethod()"
  {
    Frame3Fields("MyClass", "::", "staticMethod");
    assert "MyClass" + "::" + "staticMethod" + "()" == "MyClass::staticMethod()";
  }

  lemma {:induction false} FormatMethodFunctionOnly()
    ensures FormatMethod(VArr([(KStr("function"), VStr("globalFunction"))])) == "globalFunction()"
  {
    var g := [(KStr("function"), VStr("globalFunction"))];
    assert LookupEntries(g, KStr("function")) == VStr("globalFunction");
    assert LookupEntries(g[1..], KStr("class")) == VNull;
    assert LookupEntries(g, KStr("class")) == VNull;
    assert "globalFunction" + "()" == "globalFunction()";
  }

  lemma {:induction false} FormatMethodEmptyFrame()
    ensures FormatMethod(VArr([])) == "<unknown>()"
  {
    assert "<unknown>" + "()" == "<unknown>()";
  }

  lemma {:induction false} Frame3Fields(cls: string, typ: string, fun: string)
    ensures Lookup(Frame3(cls, typ, fun), "class") == VStr(cls)
    ensures Lookup(Frame3(cls, typ, fun), "type") == VStr(typ)
    ensures Lookup(Frame3(cls, typ, fun), "function") == VStr(fun)
  {
    var es := Frame3(cls, typ, fun).entries;
    assert LookupEntries(es[1..], KStr("type")) == VStr(typ);
    assert LookupEntries(es[1..][1..], KStr("function")) == VStr(fun);
    assert LookupEntries(es[1..], KStr("function")) == VStr(fun);
  }

  /** The synthetic frame of a fatal error names no function. */
  lemma {:induction false} FormatMethodOfFatalFrame(line: int, file: string)
    ensures FormatMethod(FatalFrame(line, file)) == "<unknown>()"
  {
    FatalFrameFields(line, file);
  }

  // ---- className and parseClassname ------------------------------------

  const Backslash: char := '\\'

  /** `explode($sep, $s)`: the pieces between separators, at least one. */
  function Explode(s: string, sep: char): (parts: seq<string>)
    ensures |parts| >= 1
    ensures forall i :: 0 <= i < |parts| ==> sep !in parts[i]
  {
    if s == [] then [""]
    else
      var rest := Explode(s[1..], sep);
      if s[0] == sep then [""] + rest
      else [[s[0]] + rest[0]] + rest[1..]
  }

  /** `join($sep, $parts)` */
  function Join(parts: seq<string>, sep: char): string
    requires |parts| >= 1
  {
    if |parts| == 1 then parts[0] else parts[0] + [sep] + Join(parts[1..], sep)
  }

  /** Splitting and joining again gives the original string. */
  lemma {:induction false} JoinExplode(s: string, sep: char)
    ensures Join(Explode(s, sep), sep) == s
  {
    if s != [] {
      var rest := Explode(s[1..], sep);
      JoinExplode(s[1..], sep);
      if s[0] == sep {
        assert ([""] + rest)[1..] == rest;
      } else {
        var parts := [[s[0]] + rest[0]] + rest[1..];
        if |rest| == 1 {
          assert Join(parts, sep) == [s[0]] + rest[0];
        } else {
          assert parts[1..] == rest[1..];
          assert Join(rest, sep) == rest[0] + [sep] + Join(rest[1..], sep);
        }
      }
    }
  }

  /** A string without separators is a single piece. */
  lemma {:induction false} ExplodeNoSep(s: string, sep: char)
    requires sep !in s
    ensures Explode(s, sep) == [s]
  {
    if s != [] {
      assert sep !in s[1..] by {
        assert forall c :: c in s[1..] ==> c in s;
      }
      ExplodeNoSep(s[1..], sep);
      assert s[0] != sep by {
        assert s[0] in s;
      }
      assert [s[0]] + s[1..] == s;
    }
  }

  /** The last piece is what follows the last separator. */
  lemma {:induction false} ExplodeLast(a: string, b: string, sep: char)
    requires sep !in b
    ensures var parts := Explode(a + [sep] + b, sep); parts[|parts| - 1] == b
    decreases |a|
  {
    var s := a + [sep] + b;
    if a == [] {
      assert s[0] == sep && s[1..] == b;
      ExplodeNoSep(b, sep);
    } else {
      assert s[0] == a[0] && s[1..] == a[1..] + [sep] + b;
      ExplodeLast(a[1..], b, sep);
      var rest := Explode(s[1..], sep);
      assert |rest| >= 2 by {
        ExplodeCountsSeparator(a[1..], b, sep);
      }
    }
  }

  /** A string with a separator falls into at least two pieces. */
  lemma {:induction false} ExplodeCountsSeparator(a: string, b: string, sep: char)
    ensures |Explode(a + [sep] + b, sep)| >= 2
    decreases |a|
  {
    var s := a + [sep] + b;
    if a == [] {
      assert s[0] == sep && s[1..] == b;
    } else {
      assert s[1..] == a[1..] + [sep] + b;
      ExplodeCountsSeparator(a[1..], b, sep);
    }
  }

  /** `parseClassname($name)`: the namespace segments and the class name. */
  datatype ParsedName = ParsedName(namespace: seq<string>, classname: string)

  function ParseClassname(name: string): (r: ParsedName)
    ensures Backslash !in r.classname
    ensures |r.namespace| == 0 ==> r.classname == name
  {
    var parts := Explode(name, Backslash);
    JoinExplode(name, Backslash);
    var last := parts[|parts| - 1];
    assert parts[|parts| - 1..] == [last];
    ParsedName(parts[..|parts| - 1], Join([last], Backslash))
  }

  /** The namespace and the class name put back together give the name. */
  lemma {:induction false} ParseClassnameRoundTrip(name: string)
    ensures var p := ParseClassname(name);
            name == if p.namespace == [] then p.classname else Join(p.namespace, Backslash) + [Backslash] + p.classname
  {
    var parts := Explode(name, Backslash);
    JoinExplode(name, Backslash);
    assert parts[|parts| - 1..] == [parts[|parts| - 1]];
    if |parts| >= 2 {
      JoinSnoc(parts, Backslash);
    }
  }

  lemma {:induction false} JoinSnoc(parts: seq<string>, sep: char)
    requires |parts| >= 2
    ensures Join(parts, sep) == Join(parts[..|parts| - 1], sep) + [sep] + parts[|parts| - 1]
    decreases |parts|
  {
    if |parts| > 2 {
      JoinSnoc(parts[1..], sep);
      assert parts[1..][..|parts| - 2] == parts[..|parts| - 1][1..];
    }
  }

  /** `className($exception)`: the class name without its namespace, with
      "Fatal" spelt "Fatal Error". */
  function ClassName(className: string): string
  {
    var short := ParseClassname(className).classname;
    if short == "Notice" then "Notice"
    else if short == "Warning" then "Warning"
    else if short == "Error" then "Error"
    else if short == "Fatal" then "Fatal Error"
    else short
  }

  /** The display name is the segment after the last backslash, except that
      "Fatal" reads "Fatal Error". */
  lemma {:induction false} ClassNameOfQualified(ns: string, short: string)
    requires Backslash !in short
    ensures ClassName(ns + [Backslash] + short) == if short == "Fatal" then "Fatal Error" else short
  {
    ExplodeLast(ns, short, Backslash);
  }

  lemma {:induction false} ClassNameOfUnqualified(short: string)
    requires Backslash !in short
    ensures ClassName(short) == if short == "Fatal" then "Fatal Error" else short
  {
    ExplodeNoSep(short, Backslash);
  }

  /** The error records read "Notice", "Warning", "Error", "Fatal Error"
      and "Base". */
  lemma {:induction false} ClassNameOfKinds()
    ensures ClassName(KindClassName(NoticeKind)) == "Notice"
    ensures ClassName(KindClassName(WarningKind)) == "Warning"
    ensures ClassName(KindClassName(ErrorKind)) == "Error"
    ensures ClassName(KindClassName(FatalKind)) == "Fatal Error"
    ensures ClassName(KindClassName(BaseKind)) == "Base"
  {
    var ns := "Errbit\\Errors";
    KindClassNameSplit(NoticeKind);
    KindClassNameSplit(WarningKind);
    KindClassNameSplit(ErrorKind);
    KindClassNameSplit(FatalKind);
    KindClassNameSplit(BaseKind);
    ClassNameOfQualified(ns, KindShortName(NoticeKind));
    ClassNameOfQualified(ns, KindShortName(WarningKind));
    ClassNameOfQualified(ns, KindShortName(ErrorKind));
    ClassNameOfQualified(ns, KindShortName(FatalKind));
    ClassNameOfQualified(ns, KindShortName(BaseKind));
  }

  // ---- filterTrace -----------------------------------------------------

  /** The regular-expression engine: `preg_match($pattern, $subject)` and
      `preg_replace($pattern, $replacement, $subject)`. */
  datatype Regex = Regex(matches: (string, string) -> bool, replace: (string, string, string) -> string)

  /** Each (pattern => replacement) filter applied in order, each to the
      result of the previous one. */
  function ApplyReplacements(filters: seq<(Key, Value)>, replace: (string, string, string) -> string, s: string): string
  {
    if filters == [] then s
    else ApplyReplacements(filters[1..], replace, replace(KeyString(filters[0].0), ToStr(filters[0].1), s))
  }

  /** Running two lists of filters is running their concatenation. */
  lemma {:induction false} ApplyReplacementsConcat(a: seq<(Key, Value)>, b: seq<(Key, Value)>, replace: (string, string, string) -> string, s: string)
    ensures ApplyReplacements(a + b, replace, s) == ApplyReplacements(b, replace, ApplyReplacements(a, replace, s))
  {
    if a != [] {
      assert (a + b)[0] == a[0] && (a + b)[1..] == a[1..] + b;
      ApplyReplacementsConcat(a[1..], b, replace, replace(KeyString(a[0].0), ToStr(a[0].1), s));
    } else {
      assert a + b == b;
    }
  }

  /** What `filterTrace($str)` returns under the given options. */
  function TraceFilter(options: Config, replace: (string, string, string) -> string, s: string): string
  {
    var filters := Get(options, "backtrace_filters");
    if Empty(filters) || !filters.VArr? then s else ApplyReplacements(filters.entries, replace, s)
  }

  /** Without a non-empty array of filters the text is left alone; with one
      filter it is that one replacement. */
  lemma {:induction false} TraceFilterCases(options: Config, replace: (string, string, string) -> string, s: string)
    ensures var f := Get(options, "backtrace_filters");
            && (Empty(f) || !f.VArr? ==> TraceFilter(options, replace, s) == s)
            && (f.VArr? && |f.entries| == 1 ==>
                TraceFilter(options, replace, s) == replace(KeyString(f.entries[0].0), ToStr(f.entries[0].1), s))
  {
    var f := Get(options, "backtrace_filters");
    if f.VArr? && |f.entries| == 1 {
      var x := replace(KeyString(f.entries[0].0), ToStr(f.entries[0].1), s);
      assert f.entries[1..] == [];
      assert ApplyReplacements(f.entries, replace, s) == ApplyReplacements(f.entries[1..], replace, x);
    }
  }

  // ---- Request URL -----------------------------------------------------

  /** `guessProtocol()`: the forwarded protocol, else https on port 443,
      else http. */
  function GuessProtocol(server: Value): string
  {
    var fwd := Lookup(server, "HTTP_X_FORWARDED_PROTO");
    var port := Lookup(server, "SERVER_PORT");
    if !Empty(fwd) then ToStr(fwd)
    else if !Empty(port) && LooseEqInt(port, 443) then "https"
    else "http"
  }

  /** `guessHost()`: the Host header, else the server name, else 127.0.0.1. */
  function GuessHost(server: Value): string
  {
    var host := Lookup(server, "HTTP_HOST");
    var name := Lookup(server, "SERVER_NAME");
    if !Empty(host) then ToStr(host) else if !Empty(name) then ToStr(name) else "127.0.0.1"
  }

  /** `guessPort()`: ":" and the port unless it is empty, 80 or 443; the
      source returns null otherwise, which formats as "". */
  function GuessPort(server: Value): (r: string)
    ensures var port := Lookup(server, "SERVER_PORT");
            r != "" <==> !Empty(port) && !LooseEqInt(port, 80) && !LooseEqInt(port, 443)
    ensures r != "" ==> r == ":" + IntToString(IntVal(Lookup(server, "SERVER_PORT")))
  {
    var port := Lookup(server, "SERVER_PORT");
    if !Empty(port) && !(LooseEqInt(port, 80) || LooseEqInt(port, 443)) then ":" + IntToString(IntVal(port)) else ""
  }

  /** `buildRequestUrl()`: null without a request URI, otherwise protocol,
      "://", host, port suffix and URI. */
  function BuildRequestUrl(server: Value): (r: Option<string>)
    ensures r.None? <==> Empty(Lookup(server, "REQUEST_URI"))
    ensures r.Some? ==> r.value == GuessProtocol(server) + "://" + GuessHost(server) + GuessPort(server) + ToStr(Lookup(server, "REQUEST_URI"))
  {
    var uri := Lookup(server, "REQUEST_URI");
    if !Empty(uri) then Some(GuessProtocol(server) + "://" + GuessHost(server) + GuessPort(server) + ToStr(uri)) else None
  }

  /** A server array with the port and the URI only. */
  function PortServer(port: Value, uri: string): Value
  {
    VArr([(KStr("SERVER_PORT"), port), (KStr("REQUEST_URI"), VStr(uri))])
  }

  lemma {:induction false} PortServerFields(port: Value, uri: string)
    ensures Lookup(PortServer(port, uri), "SERVER_PORT") == port
    ensures Lookup(PortServer(port, uri), "REQUEST_URI") == VStr(uri)
    ensures Lookup(PortServer(port, uri), "HTTP_X_FORWARDED_PROTO") == VNull
    ensures Lookup(PortServer(port, uri), "HTTP_HOST") == VNull
    ensures Lookup(PortServer(port, uri), "SERVER_NAME") == VNull
  {
    var es := PortServer(port, uri).entries;
    assert es[1..][1..] == [];
    assert LookupEntries(es[1..], KStr("REQUEST_URI")) == VStr(uri);
    assert LookupEntries(es[1..], KStr("HTTP_X_FORWARDED_PROTO")) == VNull;
    assert LookupEntries(es[1..], KStr("HTTP_HOST")) == VNull;
    assert LookupEntries(es[1..], KStr("SERVER_NAME")) == VNull;
  }

  /** Port 443 selects https and no suffix; with no host the address is the
      loopback one. */
  lemma {:induction false} RequestUrlPort443(uri: string)
    requires uri != "" && uri != "0"
    ensures BuildRequestUrl(PortServer(VInt(443), uri)) == Some("https://127.0.0.1" + uri)
  {
    PortServerFields(VInt(443), uri);
    assert GuessHost(PortServer(VInt(443), uri)) == "127.0.0.1";
    assert GuessPort(PortServer(VInt(443), uri)) == "";
    assert GuessProtocol(PortServer(VInt(443), uri)) == "https";
    assert "https" + "://" + "127.0.0.1" + "" == "https://127.0.0.1";
  }

  /** Port 80 selects http and no suffix. */
  lemma {:induction false} RequestUrlPort80(uri: string)
    requires uri != "" && uri != "0"
    ensures BuildRequestUrl(PortServer(VInt(80), uri)) == Some("http://127.0.0.1" + uri)
  {
    PortServerFields(VInt(80), uri);
    assert GuessHost(PortServer(VInt(80), uri)) == "127.0.0.1";
    assert GuessPort(PortServer(VInt(80), uri)) == "";
    assert GuessProtocol(PortServer(VInt(80), uri)) == "http";
    assert "http" + "://" + "127.0.0.1" + "" == "http://127.0.0.1";
  }

  /** Any other port is written out after the host, over plain http. */
  lemma {:induction false} RequestUrlOtherPort(port: int, uri: string)
    requires port != 0 && port != 80 && port != 443
    requires uri != "" && uri != "0"
    ensures BuildRequestUrl(PortServer(VInt(port), uri)) == Some("http://127.0.0.1:" + IntToString(port) + uri)
  {
    var server := PortServer(VInt(port), uri);
    var suffix := IntToString(port);
    PortServerFields(VInt(port), uri);
    var url := BuildRequestUrl(server);
    assert url == Some(GuessProtocol(server) + "://" + GuessHost(server) + GuessPort(server) + uri);
    assert GuessHost(server) == "127.0.0.1";
    assert GuessProtocol(server) == "http";
    assert GuessPort(server) == ":" + suffix by {
      assert !LooseEqInt(VInt(port), 80) && !LooseEqInt(VInt(port), 443);
    }
    assert "http" + "://" + "127.0.0.1" + (":" + suffix) == "http://127.0.0.1:" + suffix;
  }

  /** A forwarded protocol wins over the port. */
  lemma {:induction false} ForwardedProtocolWins(server: Value)
    requires !Empty(Lookup(server, "HTTP_X_FORWARDED_PROTO"))
    ensures GuessProtocol(server) == ToStr(Lookup(server, "HTTP_X_FORWARDED_PROTO"))
  {
  }

  // ---- Options: ambient defaults and redaction -------------------------

  /** The superglobals the constructor reads: `$_SERVER`, `$_REQUEST` and
      `$_SESSION`. */
  datatype Runtime = Runtime(server: Value, request: Value, session: Value)

  function OrEmptyArray(v: Value): Value
  {
    if !Empty(v) then v else VArr([])
  }

  /** The defaults the constructor puts under the caller's options. */
  function Defaults(rt: Runtime): Config
  {
    var url := BuildRequestUrl(rt.server);
    map["url" := if url.Some? then VStr(url.value) else VNull,
        "parameters" := OrEmptyArray(rt.request),
        "session_data" := OrEmptyArray(rt.session),
        "cgi_data" := OrEmptyArray(rt.server)]
  }

  /** `array_merge($defaults, $options)`: the caller's options win. */
  function MergedOptions(rt: Runtime, caller: Config): (r: Config)
    ensures r.Keys == caller.Keys + {"url", "parameters", "session_data", "cgi_data"}
    ensures forall k :: k in caller ==> r[k] == caller[k]
    ensures forall k :: k in Defaults(rt) && k !in caller ==> r[k] == Defaults(rt)[k]
  {
    Defaults(rt) + caller
  }

  const Filtered: string := "[FILTERED]"

  /** The patterns of `params_filters`: its values, as strings. */
  function Patterns(filters: seq<(Key, Value)>): (pats: seq<string>)
    ensures |pats| == |filters|
    ensures forall i :: 0 <= i < |filters| ==> pats[i] == ToStr(filters[i].1)
  {
    if filters == [] then [] else [ToStr(filters[0].1)] + Patterns(filters[1..])
  }

  predicate AnyMatch(pats: seq<string>, key: string, matches: (string, string) -> bool)
  {
    exists j :: 0 <= j < |pats| && matches(pats[j], key)
  }

  lemma {:induction false} AnyMatchSnoc(pats: seq<string>, j: nat, key: string, matches: (string, string) -> bool)
    requires j < |pats|
    ensures AnyMatch(pats[..j + 1], key, matches) <==> AnyMatch(pats[..j], key, matches) || matches(pats[j], key)
  {
    if matches(pats[j], key) {
      assert pats[..j + 1][j] == pats[j];
    }
    if AnyMatch(pats[..j], key, matches) {
      var w :| 0 <= w < j && matches(pats[..j][w], key);
      assert pats[..j + 1][w] == pats[..j][w];
    }
    if AnyMatch(pats[..j + 1], key, matches) && !matches(pats[j], key) {
      var w :| 0 <= w < j + 1 && matches(pats[..j + 1][w], key);
      assert w < j && pats[..j][w] == pats[..j + 1][w];
    }
  }

  /** One entry after filtering: its value becomes "[FILTERED]" when some
      pattern matches its key. */
  function RedactEntry(e: (Key, Value), pats: seq<string>, matches: (string, string) -> bool): (r: (Key, Value))
    ensures r.0 == e.0
  {
    if AnyMatch(pats, KeyString(e.0), matches) then (e.0, VStr(Filtered)) else e
  }

  function RedactEntries(es: seq<(Key, Value)>, pats: seq<string>, matches: (string, string) -> bool): (r: seq<(Key, Value)>)
    ensures |r| == |es|
    ensures forall i :: 0 <= i < |es| ==> r[i] == RedactEntry(es[i], pats, matches)
  {
    seq(|es|, i requires 0 <= i < |es| => RedactEntry(es[i], pats, matches))
  }

  /** Filtering keeps every key in place and changes exactly the values of
      the matched keys. */
  lemma {:induction false} RedactEntriesMeaning(es: seq<(Key, Value)>, pats: seq<string>, matches: (string, string) -> bool, i: nat)
    requires i < |es|
    ensures RedactEntries(es, pats, matches)[i].0 == es[i].0
    ensures AnyMatch(pats, KeyString(es[i].0), matches) ==> RedactEntries(es, pats, matches)[i].1 == VStr(Filtered)
    ensures !AnyMatch(pats, KeyString(es[i].0), matches) ==> RedactEntries(es, pats, matches)[i].1 == es[i].1
  {
  }

  /** Filtering twice is filtering once. */
  lemma {:induction false} RedactEntriesIdempotent(es: seq<(Key, Value)>, pats: seq<string>, matches: (string, string) -> bool)
    ensures RedactEntries(RedactEntries(es, pats, matches), pats, matches) == RedactEntries(es, pats, matches)
  {
  }

  /** No pattern, no change. */
  lemma {:induction false} RedactEntriesNoPatterns(es: seq<(Key, Value)>, matches: (string, string) -> bool)
    ensures RedactEntries(es, [], matches) == es
  {
  }

  /** `filterParams($name)`: the options after filtering one area. */
  function ParamsFiltered(opts: Config, name: string, matches: (string, string) -> bool): Config
  {
    var area := Get(opts, name);
    var filters := Get(opts, "params_filters");
    if Empty(area) || !filters.VArr? || !area.VArr? then opts
    else opts[name := VArr(RedactEntries(area.entries, Patterns(filters.entries), matches))]
  }

  /** The areas `filterData` filters, in order. */
  const ParamAreas: seq<string> := ["parameters", "session_data", "cgi_data"]

  /** `filterParams` for each of `names` in turn. */
  function FilterAreas(opts: Config, names: seq<string>, matches: (string, string) -> bool): Config
    decreases |names|
  {
    if names == [] then opts
    else ParamsFiltered(FilterAreas(opts, names[..|names| - 1], matches), names[|names| - 1], matches)
  }

  /** `filterData()`: nothing without filters, otherwise each area. */
  function FilteredOptions(opts: Config, matches: (string, string) -> bool): Config
  {
    if EmptyAt(opts, "params_filters") then opts else FilterAreas(opts, ParamAreas, matches)
  }

  /** Filtering one area changes no other key, and no key set. */
  lemma {:induction false} ParamsFilteredElsewhere(opts: Config, name: string, matches: (string, string) -> bool, other: string)
    requires other != name
    ensures ParamsFiltered(opts, name, matches).Keys == opts.Keys
    ensures Get(ParamsFiltered(opts, name, matches), other) == Get(opts, other)
  {
  }

  /** Filtering areas leaves every key outside them alone. */
  lemma {:induction false} FilterAreasElsewhere(opts: Config, names: seq<string>, matches: (string, string) -> bool, other: string)
    requires other !in names
    ensures FilterAreas(opts, names, matches).Keys == opts.Keys
    ensures Get(FilterAreas(opts, names, matches), other) == Get(opts, other)
    decreases |names|
  {
    if names != [] {
      var init := names[..|names| - 1];
      assert other !in init by {
        assert forall x :: x in init ==> x in names;
      }
      FilterAreasElsewhere(opts, init, matches, other);
      ParamsFilteredElsewhere(FilterAreas(opts, init, matches), names[|names| - 1], matches, other);
    }
  }

  /** What the constructor's filtering does: with a non-empty array of
      filters, every array among parameters, session_data and cgi_data has
      the values of its matched keys replaced, and every other option is as
      given; with no filters nothing changes. */
  lemma {:induction false} FilteredOptionsMeaning(opts: Config, matches: (string, string) -> bool, name: string)
    ensures FilteredOptions(opts, matches).Keys == opts.Keys
    ensures EmptyAt(opts, "params_filters") ==> FilteredOptions(opts, matches) == opts
    ensures name !in ParamAreas ==> Get(FilteredOptions(opts, matches), name) == Get(opts, name)
    ensures name in ParamAreas && !EmptyAt(opts, "params_filters") && Get(opts, "params_filters").VArr? && Get(opts, name).VArr? ==>
              Get(FilteredOptions(opts, matches), name)
              == VArr(RedactEntries(Get(opts, name).entries, Patterns(Get(opts, "params_filters").entries), matches))
  {
    FilterAreasElsewhere(opts, ParamAreas, matches, "params_filters");
    if name !in ParamAreas {
      FilterAreasElsewhere(opts, ParamAreas, matches, name);
    }
    if name in ParamAreas && !EmptyAt(opts, "params_filters") && Get(opts, "params_filters").VArr? && Get(opts, name).VArr? {
      FilterAreasOwn(opts, ParamAreas, matches, name);
    }
  }

  /** No name occurs twice. */
  predicate Distinct(names: seq<string>)
  {
    forall i, j :: 0 <= i < j < |names| ==> names[i] != names[j]
  }

  /** Filtering one area redacts that area with the filters as given. */
  lemma {:induction false} ParamsFilteredOwn(opts: Config, name: string, matches: (string, string) -> bool)
    requires name != "params_filters" && Get(opts, name).VArr? && Get(opts, "params_filters").VArr?
    ensures Get(ParamsFiltered(opts, name, matches), name)
            == VArr(RedactEntries(Get(opts, name).entries, Patterns(Get(opts, "params_filters").entries), matches))
  {
    if Empty(Get(opts, name)) {
      RedactEntriesNoPatterns([], matches);
      assert RedactEntries([], Patterns(Get(opts, "params_filters").entries), matches) == [];
    }
  }

  /** Filtering a list of distinct areas redacts each of them once, with
      the filters as given. */
  lemma {:induction false} FilterAreasOwn(opts: Config, names: seq<string>, matches: (string, string) -> bool, name: string)
    requires Distinct(names) && "params_filters" !in names && name in names
    requires Get(opts, name).VArr? && Get(opts, "params_filters").VArr?
    ensures Get(FilterAreas(opts, names, matches), name)
            == VArr(RedactEntries(Get(opts, name).entries, Patterns(Get(opts, "params_filters").entries), matches))
    decreases |names|
  {
    var init := names[..|names| - 1];
    var last := names[|names| - 1];
    var before := FilterAreas(opts, init, matches);
    assert "params_filters" !in init by {
      assert forall x :: x in init ==> x in names;
    }
    FilterAreasElsewhere(opts, init, matches, "params_filters");
    if last == name {
      assert name !in init by {
        assert forall k :: 0 <= k < |init| ==> init[k] == names[k] && k < |names| - 1;
      }
      FilterAreasElsewhere(opts, init, matches, name);
      ParamsFilteredOwn(before, name, matches);
    } else {
      assert name in init by {
        var k :| 0 <= k < |names| && names[k] == name;
        assert k < |names| - 1 && init[k] == name;
      }
      assert Distinct(init) by {
        assert forall k :: 0 <= k < |init| ==> init[k] == names[k];
      }
      FilterAreasOwn(opts, init, matches, name);
      ParamsFilteredElsewhere(before, last, matches, name);
    }
  }

  // ---- xmlVarsFor and the static $hashArray ----------------------------

  /** What `$hashArray` holds: one entry per descent into an array, the
      identity of the object cast to it or nothing for a plain array. */
  type History = seq<Option<ObjId>>

  /** `self::$hashArray`: shared by every rendering and never cleared. */
  class HashRegistry {
    var hashes: History

    constructor()
      ensures hashes == []
    {
      hashes := [];
    }
  }

  /** The objects a history records as expanded. */
  function IdsOf(h: History): set<ObjId>
  {
    set i | 0 <= i < |h| && h[i].Some? :: h[i].value
  }

  lemma {:induction false} SeenIff(h: History, id: ObjId)
    ensures Some(id) in h <==> id in IdsOf(h)
  {
    if Some(id) in h {
      var i :| 0 <= i < |h| && h[i] == Some(id);
      assert h[i].value == id;
    }
  }

  /** The heap objects not yet expanded: what every descent into an object
      uses up, and so the first component of the renderer's measure. */
  function Unseen(heap: Heap, h: History): nat
  {
    |heap.Keys - IdsOf(h)|
  }

  lemma {:induction false} UnseenPrefix(heap: Heap, h: History, h2: History)
    requires h <= h2
    ensures Unseen(heap, h2) <= Unseen(heap, h)
  {
    assert IdsOf(h) <= IdsOf(h2) by {
      forall x | x in IdsOf(h)
        ensures x in IdsOf(h2)
      {
        var i :| 0 <= i < |h| && h[i].Some? && h[i].value == x;
        assert h2[i] == h[i];
      }
    }
    var a := heap.Keys - IdsOf(h2);
    var b := heap.Keys - IdsOf(h);
    assert b == a + (b - a);
  }

  /** Recording a descent never adds to the unseen objects, and recording a
      heap object not seen before removes it. */
  lemma {:induction false} UnseenPush(heap: Heap, h: History, x: Option<ObjId>)
    ensures Unseen(heap, h + [x]) <= Unseen(heap, h)
    ensures x.Some? && x.value in heap && x !in h ==> Unseen(heap, h + [x]) < Unseen(heap, h)
  {
    UnseenPrefix(heap, h, h + [x]);
    if x.Some? && x.value in heap && x !in h {
      var h1 := h + [x];
      assert IdsOf(h1) == IdsOf(h) + {x.value} by {
        forall y | y in IdsOf(h1)
          ensures y in IdsOf(h) + {x.value}
        {
          var i :| 0 <= i < |h1| && h1[i].Some? && h1[i].value == y;
          if i < |h| {
            assert h1[i] == h[i];
          }
        }
        assert h1[|h|] == x;
        forall y | y in IdsOf(h)
          ensures y in IdsOf(h1)
        {
          var i :| 0 <= i < |h| && h[i].Some? && h[i].value == y;
          assert h1[i] == h[i];
        }
      }
      SeenIff(h, x.value);
      assert heap.Keys - IdsOf(h1) == (heap.Keys - IdsOf(h)) - {x.value};
    }
  }

  /** The nesting size of a value: the second component of the measure. */
  function Size(v: Value): nat
    decreases v, 1
  {
    match v
    case VArr(es) => 1 + SizeEntries(es)
    case _ => 1
  }

  function SizeEntries(es: seq<(Key, Value)>): nat
    decreases es, 0
  {
    if es == [] then 0
    else
      var e := es[0];
      assert es decreases to e;
      assert e decreases to e.1;
      1 + Size(e.1) + SizeEntries(es[1..])
  }

  /** Every entry's value is smaller than the entries around it. */
  lemma {:induction false} ElementSmaller(es: seq<(Key, Value)>, i: nat)
    requires i < |es|
    ensures Size(es[i].1) < SizeEntries(es)
  {
    if i > 0 {
      ElementSmaller(es[1..], i - 1);
      assert es[1..][i - 1] == es[i];
    }
  }

  function KeyValue(k: Key): Value
  {
    match k
    case KInt(i) => VInt(i)
    case KStr(s) => VStr(s)
  }

  /** `array('key' => $key)` */
  function VarAttrs(k: Key): seq<(Key, Value)>
  {
    [(KStr("key"), KeyValue(k))]
  }

  lemma {:induction false} KeyAttrs(heap: Heap, k: Key)
    ensures TagAttrs(heap, VarAttrs(k)) == [("key", KeyString(k))]
  {
    assert VarAttrs(k)[..0] == [];
  }

  const Recursion: string := "*** RECURSION ***"

  /** A `var` element with a text value. */
  function VarLeaf(heap: Heap, k: Key, v: Value): Node
  {
    Element(heap, "var", v, VarAttrs(k))
  }

  /** A `var` element holding the rendering of a nested array. */
  function VarNode(heap: Heap, k: Key, kids: seq<Node>): Node
  {
    Element(heap, "var", VStr(""), VarAttrs(k)).(children := kids)
  }

  /** The identity `xmlVarsFor` records for a value, and the value it goes
      on with: an object is cast to the array of its properties. */
  function HashOf(v: Value): Option<ObjId>
  {
    if v.VObj? then Some(v.id) else None
  }

  function CastValue(heap: Heap, v: Value): Value
  {
    if v.VObj? then VArr(Deref(heap, v.id).props) else v
  }

  /** The element one entry of `xmlVarsFor` produces, and the history after
      it.  An object is cast to the array of its properties; an array not
      seen before is recorded and expanded, an object seen before is a
      RECURSION leaf, anything else a leaf. */
  function VarEntry(heap: Heap, h: History, k: Key, v: Value): (r: (Node, History))
    ensures h <= r.1
    decreases Unseen(heap, h), Size(v), 2
  {
    var hash := HashOf(v);
    var cast := CastValue(heap, v);
    if !cast.VArr? then (VarLeaf(heap, k, cast), h)
    else if hash.Some? && hash in h then (VarLeaf(heap, k, VStr(Recursion)), h)
    else
      UnseenPush(heap, h, hash);
      Expand(heap, h, k, hash, cast)
  }

  /** Record the descent and render the array's entries inside a new
      `var`. */
  function Expand(heap: Heap, h: History, k: Key, hash: Option<ObjId>, arr: Value): (r: (Node, History))
    requires arr.VArr?
    ensures h + [hash] <= r.1
    decreases Unseen(heap, h + [hash]), Size(arr), 1
  {
    var p := VarsFor(heap, h + [hash], arr.entries);
    (VarNode(heap, k, p.0), p.1)
  }

  /** The `var` elements for the entries of an array, in order, each
      rendered with the history the previous ones left. */
  function VarsFor(heap: Heap, h: History, es: seq<(Key, Value)>): (r: (seq<Node>, History))
    ensures h <= r.1 && |r.0| == |es|
    decreases Unseen(heap, h), SizeEntries(es), 0
  {
    if es == [] then ([], h)
    else
      var (n, h1) := VarEntry(heap, h, es[0].0, es[0].1);
      UnseenPrefix(heap, h, h1);
      var (rest, h2) := VarsFor(heap, h1, es[1..]);
      ([n] + rest, h2)
  }

  /** `xmlVarsFor($builder, $array)`: nothing for a non-array. */
  function VarsOf(heap: Heap, h: History, v: Value): (r: (seq<Node>, History))
    ensures !v.VArr? ==> r == ([], h)
    ensures h <= r.1
  {
    if v.VArr? then VarsFor(heap, h, v.entries) else ([], h)
  }

  /** Scalars are leaves holding their normalised value. */
  lemma {:induction false} VarsForScalar(heap: Heap, h: History, es: seq<(Key, Value)>, i: nat)
    requires i < |es| && !es[i].1.VArr? && !es[i].1.VObj?
    ensures VarsFor(heap, h, es).0[i] == VarLeaf(heap, es[i].0, es[i].1)
    ensures VarsFor(heap, h, es).0[i].text == NormalizeValue(heap, es[i].1)
    decreases i
  {
    if i > 0 {
      var h1 := VarEntry(heap, h, es[0].0, es[0].1).1;
      VarsForScalar(heap, h1, es[1..], i - 1);
      assert es[1..][i - 1] == es[i];
    }
  }

  /** An object already in the registry, whether from this rendering or an
      earlier one, is written as a RECURSION leaf. */
  lemma {:induction false} VarsForSeenObject(heap: Heap, h: History, es: seq<(Key, Value)>, i: nat, id: ObjId)
    requires i < |es| && es[i].1 == VObj(id) && Some(id) in h
    ensures VarsFor(heap, h, es).0[i] == VarLeaf(heap, es[i].0, VStr(Recursion))
    decreases i
  {
    if i > 0 {
      var h1 := VarEntry(heap, h, es[0].0, es[0].1).1;
      VarsForSeenObject(heap, h1, es[1..], i - 1, id);
      assert es[1..][i - 1] == es[i];
    }
  }

  /** Whatever an entry renders, an object it mentions is in the registry
      afterwards. */
  lemma {:induction false} VarEntryRemembers(heap: Heap, h: History, k: Key, id: ObjId)
    ensures Some(id) in VarEntry(heap, h, k, VObj(id)).1
  {
    var r := VarEntry(heap, h, k, VObj(id));
    if Some(id) !in h {
      var h1 := h + [Some(id)];
      assert h1 <= r.1;
      assert r.1[|h|] == h1[|h|];
    }
  }

  /** So an object expands at most once per process: once rendered, every
      later rendering of it, under any key and after any further history,
      is a RECURSION leaf. */
  lemma {:induction false} ExpandedObjectIsLeafLater(heap: Heap, h: History, k: Key, id: ObjId, later: History, k2: Key)
    requires VarEntry(heap, h, k, VObj(id)).1 <= later
    ensures VarEntry(heap, later, k2, VObj(id)) == (VarLeaf(heap, k2, VStr(Recursion)), later)
  {
    VarEntryRemembers(heap, h, k, id);
    var h1 := VarEntry(heap, h, k, VObj(id)).1;
    var j :| 0 <= j < |h1| && h1[j] == Some(id);
    assert later[j] == Some(id);
  }

  /** An object whose only property refers back to itself renders as one
      `var` holding a single RECURSION leaf. */
  lemma {:induction false} SelfReferenceRendersOnce(heap: Heap, h: History, k: Key, id: ObjId, prop: Key)
    requires id in heap && heap[id].props == [(prop, VObj(id))] && Some(id) !in h
    ensures VarEntry(heap, h, k, VObj(id)).0 == VarNode(heap, k, [VarLeaf(heap, prop, VStr(Recursion))])
  {
    var h1 := h + [Some(id)];
    var es := heap[id].props;
    assert Some(id) in h1 by {
      assert h1[|h|] == Some(id);
    }
    assert es[1..] == [];
    assert VarsFor(heap, h1, es).0 == [VarLeaf(heap, prop, VStr(Recursion))];
  }

  /** Rendering one more entry after a prefix renders the prefix, then the
      entry with the history the prefix leaves: the loop of `xmlVarsFor`
      computes the same list as the recursive definition. */
  lemma {:induction false} VarsForSnoc(heap: Heap, h: History, es: seq<(Key, Value)>, e: (Key, Value))
    ensures var p := VarsFor(heap, h, es);
            var n := VarEntry(heap, p.1, e.0, e.1);
            VarsFor(heap, h, es + [e]) == (p.0 + [n.0], n.1)
    decreases |es|
  {
    if es == [] {
      var n := VarEntry(heap, h, e.0, e.1);
      assert [] + [e] == [e] && [e][1..] == [];
      assert VarsFor(heap, n.1, []) == ([], n.1);
      assert VarsFor(heap, h, [e]) == ([n.0] + [], n.1);
      assert VarsFor(heap, h, es) == ([], h);
      assert [n.0] + [] == [] + [n.0];
    } else {
      var h1 := VarEntry(heap, h, es[0].0, es[0].1);
      assert (es + [e])[0] == es[0] && (es + [e])[1..] == es[1..] + [e];
      VarsForSnoc(heap, h1.1, es[1..], e);
      var p := VarsFor(heap, h1.1, es[1..]);
      var n := VarEntry(heap, p.1, e.0, e.1);
      assert [h1.0] + (p.0 + [n.0]) == ([h1.0] + p.0) + [n.0];
    }
  }

  /** The measure of the `i`-th entry, rendered after the first `i`, is
      below the measure of the whole array. */
  lemma {:induction false} StepMeasure(heap: Heap, h0: History, es: seq<(Key, Value)>, i: nat)
    requires i < |es|
    ensures Unseen(heap, VarsFor(heap, h0, es[..i]).1) <= Unseen(heap, h0)
    ensures Size(es[i].1) < SizeEntries(es)
  {
    UnseenPrefix(heap, h0, VarsFor(heap, h0, es[..i]).1);
    ElementSmaller(es, i);
  }

  /** `VarsForSnoc` on prefixes of one array. */
  lemma {:induction false} VarsForPrefixStep(heap: Heap, h0: History, es: seq<(Key, Value)>, i: nat)
    requires i < |es|
    ensures var p := VarsFor(heap, h0, es[..i]);
            var n := VarEntry(heap, p.1, es[i].0, es[i].1);
            VarsFor(heap, h0, es[..i + 1]) == (p.0 + [n.0], n.1)
  {
    assert es[..i + 1] == es[..i] + [es[i]];
    VarsForSnoc(heap, h0, es[..i], es[i]);
  }

  /** `xmlVarsFor($builder, $array)`: append a `var` element per entry to
      the builder's element, recording expansions in the registry; a
      non-array appends nothing. */
  method XmlVarsFor(builder: Builder, heap: Heap, reg: HashRegistry, arr: Value)
    requires builder.Valid()
    modifies builder.doc, reg
    ensures builder.Valid()
    ensures builder.doc.root == AppendAt(old(builder.doc.root), builder.path, VarsOf(heap, old(reg.hashes), arr).0)
    ensures reg.hashes == VarsOf(heap, old(reg.hashes), arr).1
    decreases Unseen(heap, reg.hashes), Size(arr), 2
  {
    if arr.VArr? {
      XmlVarsLoop(builder, heap, reg, arr.entries);
    } else {
      AppendNothing(builder.doc.root, builder.path);
    }
  }

  /** The `foreach` of `xmlVarsFor`: entry after entry, each rendered with
      the registry the previous ones left. */
  method XmlVarsLoop(builder: Builder, heap: Heap, reg: HashRegistry, es: seq<(Key, Value)>)
    requires builder.Valid()
    modifies builder.doc, reg
    ensures builder.Valid()
    ensures builder.doc.root == AppendAt(old(builder.doc.root), builder.path, VarsFor(heap, old(reg.hashes), es).0)
    ensures reg.hashes == VarsFor(heap, old(reg.hashes), es).1
    decreases Unseen(heap, reg.hashes), SizeEntries(es), 1
  {
    ghost var root0 := builder.doc.root;
    ghost var h0 := reg.hashes;
    AppendNothing(root0, builder.path);
    var i := 0;
    while i < |es|
      invariant 0 <= i <= |es|
      invariant builder.Valid() && ValidPath(root0, builder.path)
      invariant builder.doc.root == AppendAt(root0, builder.path, VarsFor(heap, h0, es[..i]).0)
      invariant reg.hashes == VarsFor(heap, h0, es[..i]).1
    {
      XmlVarsStep(builder, heap, reg, root0, h0, es, i);
      i := i + 1;
    }
    assert es[..i] == es;
  }

  /** One turn of the `foreach`: the elements of the first `i` entries are
      in place, and the `i`-th one is appended after them. */
  method XmlVarsStep(builder: Builder, heap: Heap, reg: HashRegistry, ghost root0: Node, ghost h0: History,
                     es: seq<(Key, Value)>, i: nat)
    requires i < |es| && builder.Valid() && ValidPath(root0, builder.path)
    requires builder.doc.root == AppendAt(root0, builder.path, VarsFor(heap, h0, es[..i]).0)
    requires reg.hashes == VarsFor(heap, h0, es[..i]).1
    modifies builder.doc, reg
    ensures builder.Valid()
    ensures builder.doc.root == AppendAt(root0, builder.path, VarsFor(heap, h0, es[..i + 1]).0)
    ensures reg.hashes == VarsFor(heap, h0, es[..i + 1]).1
    decreases Unseen(heap, h0), SizeEntries(es), 0
  {
    ghost var done := VarsFor(heap, h0, es[..i]).0;
    ghost var entry := VarEntry(heap, reg.hashes, es[i].0, es[i].1);
    StepMeasure(heap, h0, es, i);
    XmlVarEntry(builder, heap, reg, es[i].0, es[i].1);
    AppendAppend(root0, builder.path, done, [entry.0]);
    VarsForPrefixStep(heap, h0, es, i);
  }

  /** The body of the loop in `xmlVarsFor`: one entry, with an object cast
      to the array of its properties, and the registry check. */
  method XmlVarEntry(builder: Builder, heap: Heap, reg: HashRegistry, key: Key, value: Value)
    requires builder.Valid()
    modifies builder.doc, reg
    ensures builder.Valid()
    ensures builder.doc.root == AppendAt(old(builder.doc.root), builder.path, [VarEntry(heap, old(reg.hashes), key, value).0])
    ensures reg.hashes == VarEntry(heap, old(reg.hashes), key, value).1
    decreases Unseen(heap, reg.hashes), Size(value), 4
  {
    var v := value;
    var hash: Option<ObjId> := None;
    if v.VObj? {
      hash := Some(v.id);
      v := VArr(Deref(heap, v.id).props);
    }
    assert hash == HashOf(value) && v == CastValue(heap, value);
    ghost var h0 := reg.hashes;
    if v.VArr? {
      if hash.None? || hash !in reg.hashes {
        UnseenPush(heap, reg.hashes, hash);
        assert VarEntry(heap, h0, key, value) == Expand(heap, h0, key, hash, v);
        ExpandVar(builder, heap, reg, key, hash, v);
      } else {
        assert VarEntry(heap, h0, key, value) == (VarLeaf(heap, key, VStr(Recursion)), h0);
        XmlVarLeaf(builder, heap, key, VStr(Recursion));
      }
    } else {
      assert VarEntry(heap, h0, key, value) == (VarLeaf(heap, key, v), h0);
      XmlVarLeaf(builder, heap, key, v);
    }
  }

  /** `$builder->tag('var', $value, array('key' => $key))`. */
  method XmlVarLeaf(builder: Builder, heap: Heap, key: Key, v: Value)
    requires builder.Valid()
    modifies builder.doc
    ensures builder.Valid()
    ensures builder.doc.root == AppendAt(old(builder.doc.root), builder.path, [VarLeaf(heap, key, v)])
  {
    var _ := builder.Tag(heap, "var", v, VarAttrs(key), false);
  }

  /** Record the descent, append an empty `var` and render the array into
      it. */
  method ExpandVar(builder: Builder, heap: Heap, reg: HashRegistry, key: Key, hash: Option<ObjId>, v: Value)
    requires builder.Valid() && v.VArr?
    modifies builder.doc, reg
    ensures builder.Valid()
    ensures builder.doc.root == AppendAt(old(builder.doc.root), builder.path, [Expand(heap, old(reg.hashes), key, hash, v).0])
    ensures reg.hashes == Expand(heap, old(reg.hashes), key, hash, v).1
    decreases Unseen(heap, reg.hashes + [hash]), Size(v), 3
  {
    ghost var root0 := builder.doc.root;
    reg.hashes := reg.hashes + [hash];
    var child := builder.Tag(heap, "var", VStr(""), VarAttrs(key), true);
    ghost var leaf := Element(heap, "var", VStr(""), VarAttrs(key));
    XmlVarsFor(child, heap, reg, v);
    ghost var kids := VarsOf(heap, old(reg.hashes) + [hash], v).0;
    assert leaf.(children := []) == leaf;
    ExtendNewChild(root0, builder.path, leaf, [], kids);
    assert [] + kids == kids;
  }

  // ---- asXml: the document ---------------------------------------------

  /** An element with a value and no attributes: `tag($name, $value)`. */
  function Leaf(heap: Heap, name: string, v: Value): Node
  {
    Element(heap, name, v, [])
  }

  /** An element with an empty value whose callback added `kids`. */
  function Container(heap: Heap, name: string, attributes: seq<(Key, Value)>, kids: seq<Node>): Node
  {
    Element(heap, name, VStr(""), attributes).(children := kids)
  }

  /** The `notifier` element: the library's name, version and home page. */
  function NotifierNode(heap: Heap): Node
  {
    Container(heap, "notifier", [], [Leaf(heap, "name", VStr(PROJECT_NAME)), Leaf(heap, "version", VStr(VERSION)),
                                     Leaf(heap, "url", VStr(PROJECT_URL))])
  }

  const Unknown: string := "<unknown>"

  /** The attributes of a backtrace `line`. */
  function LineAttrs(number: Value, file: Value, fn: Value): seq<(Key, Value)>
  {
    [(KStr("number"), number), (KStr("file"), file), (KStr("method"), fn)]
  }

  function LineNode(heap: Heap, number: Value, file: Value, fn: Value): Node
  {
    Element(heap, "line", VStr(""), LineAttrs(number, file, fn))
  }

  /** The first line: where the exception was raised, with an unknown
      method and, for an empty file name, an unknown file. */
  function SiteLine(heap: Heap, opts: Config, replace: (string, string, string) -> string, ex: Record): Node
  {
    var file := ex.GetFile();
    LineNode(heap, VInt(ex.GetLine()), VStr(if !Empty(VStr(file)) then TraceFilter(opts, replace, file) else Unknown), VStr(Unknown))
  }

  /** The line written in place of an empty trace. */
  function BlankLine(heap: Heap): Node
  {
    LineNode(heap, VStr(""), VStr(""), VStr(""))
  }

  /** The line for one frame: its line number or 0, its file filtered or
      unknown, and its method filtered. */
  function FrameLine(heap: Heap, opts: Config, replace: (string, string, string) -> string, frame: Value): Node
  {
    var line := Lookup(frame, "line");
    var file := Lookup(frame, "file");
    LineNode(heap, if line != VNull then line else VInt(0),
             VStr(if file != VNull then TraceFilter(opts, replace, ToStr(file)) else Unknown),
             VStr(TraceFilter(opts, replace, FormatMethod(frame))))
  }

  /** `f` of each element, in order, built by appending. */
  function MapSnoc(f: Value -> Node, xs: seq<Value>): seq<Node>
    decreases |xs|
  {
    if xs == [] then [] else MapSnoc(f, xs[..|xs| - 1]) + [f(xs[|xs| - 1])]
  }

  lemma {:induction false} MapSnocIndex(f: Value -> Node, xs: seq<Value>, i: nat)
    requires i < |xs|
    ensures |MapSnoc(f, xs)| == |xs|
    ensures MapSnoc(f, xs)[i] == f(xs[i])
    decreases |xs|
  {
    var init := xs[..|xs| - 1];
    if |init| > 0 {
      MapSnocIndex(f, init, if i < |init| then i else 0);
      assert i < |init| ==> init[i] == xs[i];
    }
  }

  /** Indexing past a head element into a `MapSnoc`. */
  lemma {:induction false} MapSnocAfterHead(x: Node, f: Value -> Node, xs: seq<Value>, i: nat)
    requires i < |xs|
    ensures |[x] + MapSnoc(f, xs)| == 1 + |xs|
    ensures ([x] + MapSnoc(f, xs))[i + 1] == f(xs[i])
  {
    MapSnocIndex(f, xs, i);
  }

  /** The frame lines, in the order of the `foreach`. */
  function FrameLines(heap: Heap, opts: Config, replace: (string, string, string) -> string, trace: seq<Value>): seq<Node>
  {
    MapSnoc(frame => FrameLine(heap, opts, replace, frame), trace)
  }

  /** One line per frame, in order. */
  lemma {:induction false} FrameLinesIndex(heap: Heap, opts: Config, replace: (string, string, string) -> string, trace: seq<Value>, i: nat)
    requires i < |trace|
    ensures |FrameLines(heap, opts, replace, trace)| == |trace|
    ensures FrameLines(heap, opts, replace, trace)[i] == FrameLine(heap, opts, replace, trace[i])
  {
    MapSnocIndex(frame => FrameLine(heap, opts, replace, frame), trace, i);
  }

  /** The frame lines of one more frame, after some earlier children. */
  lemma {:induction false} FrameLinesSnoc(heap: Heap, opts: Config, replace: (string, string, string) -> string,
                                          done: seq<Node>, trace: seq<Value>, i: nat)
    requires i < |trace|
    ensures done + FrameLines(heap, opts, replace, trace[..i + 1])
            == (done + FrameLines(heap, opts, replace, trace[..i])) + [FrameLine(heap, opts, replace, trace[i])]
  {
    assert trace[..i + 1][..i] == trace[..i] && trace[..i + 1][i] == trace[i];
  }

  /** The children of `backtrace`: the site line, then a blank line for an
      empty trace or one line per frame. */
  function BacktraceLines(heap: Heap, opts: Config, replace: (string, string, string) -> string, ex: Record): seq<Node>
  {
    [SiteLine(heap, opts, replace, ex)]
    + (if ex.GetTrace() == [] then [BlankLine(heap)] else FrameLines(heap, opts, replace, ex.GetTrace()))
  }

  /** The `error` element: filtered class name, filtered "class: message"
      and the backtrace. */
  function ErrorNode(heap: Heap, opts: Config, replace: (string, string, string) -> string, ex: Record): Node
  {
    Container(heap, "error", [], ErrorFieldNodes(heap, opts, replace, ex)
                                 + [Container(heap, "backtrace", [], BacktraceLines(heap, opts, replace, ex))])
  }

  /** The class and the message of the `error` element. */
  function ErrorFieldNodes(heap: Heap, opts: Config, replace: (string, string, string) -> string, ex: Record): seq<Node>
  {
    var cls := ClassName(ex.className);
    [Leaf(heap, "class", VStr(TraceFilter(opts, replace, cls))),
     Leaf(heap, "message", VStr(TraceFilter(opts, replace, cls + ": " + ex.GetMessage())))]
  }

  /** Whether the notice has a `request` element. */
  predicate WantsRequest(opts: Config)
  {
    || !EmptyAt(opts, "url") || !EmptyAt(opts, "controller") || !EmptyAt(opts, "action")
    || !EmptyAt(opts, "parameters") || !EmptyAt(opts, "session_data") || !EmptyAt(opts, "cgi_data")
  }

  /** `!empty($options[$k]) ? $options[$k] : ''` */
  function OrBlank(opts: Config, k: string): Value
  {
    if !EmptyAt(opts, k) then Get(opts, k) else VStr("")
  }

  /** An element holding the `var`s of a non-empty value, or nothing. */
  function OptionalVars(heap: Heap, h: History, name: string, v: Value): (seq<Node>, History)
  {
    if Empty(v) then ([], h)
    else
      var p := VarsOf(heap, h, v);
      ([Container(heap, name, [], p.0)], p.1)
  }

  /** The url, component and action that every `request` element has. */
  function RequestBasics(heap: Heap, opts: Config): seq<Node>
  {
    [Leaf(heap, "url", OrBlank(opts, "url")), Leaf(heap, "component", OrBlank(opts, "controller")),
     Leaf(heap, "action", OrBlank(opts, "action"))]
  }

  /** The params, session and cgi-data elements, each present when its
      value is non-empty, and the registry after them. */
  function RequestVarNodes(heap: Heap, h: History, opts: Config): (seq<Node>, History)
  {
    var ps := OptionalVars(heap, h, "params", Get(opts, "parameters"));
    var ss := OptionalVars(heap, ps.1, "session", Get(opts, "session_data"));
    var cs := OptionalVars(heap, ss.1, "cgi-data", Get(opts, "cgi_data"));
    (ps.0 + ss.0 + cs.0, cs.1)
  }

  /** The `request` element and the registry after it. */
  function RequestNode(heap: Heap, h: History, opts: Config): (Node, History)
  {
    var vars := RequestVarNodes(heap, h, opts);
    (Container(heap, "request", [], RequestBasics(heap, opts) + vars.0), vars.1)
  }

  function RequestPart(heap: Heap, h: History, opts: Config): (seq<Node>, History)
  {
    if WantsRequest(opts) then
      var r := RequestNode(heap, h, opts);
      ([r.0], r.1)
    else ([], h)
  }

  /** The `server-environment` element. */
  function EnvNode(heap: Heap, opts: Config): Node
  {
    Container(heap, "server-environment", [], [Leaf(heap, "project-root", Get(opts, "project_root")),
                                               Leaf(heap, "environment-name", Get(opts, "environment_name"))])
  }

  const NoticeAttrs: seq<(Key, Value)> := [(KStr("version"), VStr(API_VERSION))]

  /** The api key, the notifier and the error, which every notice has. */
  function NoticeBasics(heap: Heap, ex: Record, opts: Config, replace: (string, string, string) -> string): seq<Node>
  {
    [Leaf(heap, "api-key", Get(opts, "api_key")), NotifierNode(heap), ErrorNode(heap, opts, replace, ex)]
  }

  /** The request when wanted, the user attributes when given, and the
      server environment, with the registry after them. */
  function NoticeRest(heap: Heap, h: History, opts: Config): (seq<Node>, History)
  {
    var req := RequestPart(heap, h, opts);
    var user := OptionalVars(heap, req.1, "user-attributes", Get(opts, "user"));
    (req.0 + user.0 + [EnvNode(heap, opts)], user.1)
  }

  /** The `notice` element `asXml` builds, and the registry after it. */
  function NoticeNode(heap: Heap, h: History, ex: Record, opts: Config, replace: (string, string, string) -> string): (Node, History)
  {
    var rest := NoticeRest(heap, h, opts);
    (Container(heap, "notice", NoticeAttrs, NoticeBasics(heap, ex, opts, replace) + rest.0), rest.1)
  }

  /** The string `asXml` returns: the notice element's markup (no XML
      declaration, since `asXml` is called on the notice's builder),
      filtered by `utf8ForXML`. */
  function NoticeXml(heap: Heap, h: History, ex: Record, opts: Config, replace: (string, string, string) -> string): string
  {
    Utf8ForXml(Markup(NoticeNode(heap, h, ex, opts, replace).0))
  }

  // ---- asXml: properties of the document -------------------------------

  /** Appending a new attribute name appends the normalised pair. */
  lemma {:induction false} TagAttrsAppendNew(heap: Heap, attributes: seq<(Key, Value)>, name: string, v: Value)
    requires name != "" && AttrValue(TagAttrs(heap, attributes), name).None?
    ensures TagAttrs(heap, attributes + [(KStr(name), v)]) == TagAttrs(heap, attributes) + [(name, NormalizeValue(heap, v))]
  {
    var all := attributes + [(KStr(name), v)];
    assert all[..|all| - 1] == attributes && all[|all| - 1] == (KStr(name), v);
  }

  /** Three distinct, non-empty attribute names are kept in order. */
  lemma {:induction false} TagAttrsThree(heap: Heap, k1: string, k2: string, k3: string, v1: Value, v2: Value, v3: Value)
    requires k1 != "" && k2 != "" && k3 != "" && k1 != k2 && k1 != k3 && k2 != k3
    ensures TagAttrs(heap, [(KStr(k1), v1), (KStr(k2), v2), (KStr(k3), v3)])
            == [(k1, NormalizeValue(heap, v1)), (k2, NormalizeValue(heap, v2)), (k3, NormalizeValue(heap, v3))]
  {
    var n1, n2, n3 := NormalizeValue(heap, v1), NormalizeValue(heap, v2), NormalizeValue(heap, v3);
    var a1: seq<(Key, Value)> := [(KStr(k1), v1)];
    var a2 := a1 + [(KStr(k2), v2)];
    var a3 := a2 + [(KStr(k3), v3)];
    assert TagAttrs(heap, a1) == [(k1, n1)] by {
      assert TagAttrs(heap, []) == [];
      TagAttrsAppendNew(heap, [], k1, v1);
      assert [] + a1 == a1;
    }
    assert TagAttrs(heap, a2) == [(k1, n1), (k2, n2)] by {
      assert AttrValue([(k1, n1)], k2).None?;
      TagAttrsAppendNew(heap, a1, k2, v2);
    }
    assert TagAttrs(heap, a3) == [(k1, n1), (k2, n2), (k3, n3)] by {
      assert AttrValue([(k1, n1), (k2, n2)], k3).None?;
      TagAttrsAppendNew(heap, a2, k3, v3);
    }
    assert a3 == [(KStr(k1), v1), (KStr(k2), v2), (KStr(k3), v3)];
  }

  /** A `line` carries exactly the three attributes, in order, each with
      its normalised value. */
  lemma {:induction false} LineNodeAttrs(heap: Heap, number: Value, file: Value, fn: Value)
    ensures LineNode(heap, number, file, fn).attrs
            == [("number", NormalizeValue(heap, number)), ("file", NormalizeValue(heap, file)), ("method", NormalizeValue(heap, fn))]
  {
    TagAttrsThree(heap, "number", "file", "method", number, file, fn);
  }

  /** The notice element: its version attribute, and its children in the
      order `asXml` adds them, with `request` present exactly when one of
      the request options is set and `user-attributes` exactly when the
      user option is. */
  lemma {:induction false} NoticeLayout(heap: Heap, h: History, ex: Record, opts: Config, replace: (string, string, string) -> string)
    ensures var n := NoticeNode(heap, h, ex, opts, replace).0;
            && n.name == "notice" && n.attrs == [("version", API_VERSION)]
            && |n.children| == 4 + (if WantsRequest(opts) then 1 else 0) + (if EmptyAt(opts, "user") then 0 else 1)
            && n.children[0] == Leaf(heap, "api-key", Get(opts, "api_key"))
            && n.children[1] == NotifierNode(heap)
            && n.children[2] == ErrorNode(heap, opts, replace, ex)
            && n.children[|n.children| - 1] == EnvNode(heap, opts)
            && (WantsRequest(opts) <==> n.children[3].name == "request")
            && (!EmptyAt(opts, "user") <==> n.children[|n.children| - 2].name == "user-attributes")
  {
    var head := NoticeBasics(heap, ex, opts, replace);
    var req := RequestPart(heap, h, opts);
    var user := OptionalVars(heap, req.1, "user-attributes", Get(opts, "user"));
    NoticeShape(heap, h, ex, opts, replace);
    NoticeRestParts(heap, h, opts);
    ThreeOptionalOne(head, req.0, user.0, EnvNode(heap, opts));
  }

  /** The notice element: its name, its version attribute, and the fixed
      children followed by the rest. */
  lemma {:induction false} NoticeShape(heap: Heap, h: History, ex: Record, opts: Config, replace: (string, string, string) -> string)
    ensures var n := NoticeNode(heap, h, ex, opts, replace).0;
            && n.name == "notice" && n.attrs == [("version", API_VERSION)]
            && n.children == NoticeBasics(heap, ex, opts, replace) + NoticeRest(heap, h, opts).0
            && var head := NoticeBasics(heap, ex, opts, replace);
               |head| == 3 && head[0] == Leaf(heap, "api-key", Get(opts, "api_key")) && head[1] == NotifierNode(heap)
               && head[2] == ErrorNode(heap, opts, replace, ex) && head[2].name == "error"
  {
    assert TagAttrs(heap, NoticeAttrs) == [("version", API_VERSION)] by {
      assert NoticeAttrs[..0] == [];
    }
  }

  /** The children after the fixed ones: the request exactly when wanted,
      the user attributes exactly when given, and the environment. */
  lemma {:induction false} NoticeRestParts(heap: Heap, h: History, opts: Config)
    ensures var req := RequestPart(heap, h, opts);
            var user := OptionalVars(heap, req.1, "user-attributes", Get(opts, "user"));
            && NoticeRest(heap, h, opts).0 == req.0 + user.0 + [EnvNode(heap, opts)]
            && |req.0| <= 1 && (req.0 != [] <==> WantsRequest(opts)) && (req.0 != [] ==> req.0[0].name == "request")
            && |user.0| <= 1 && (user.0 != [] <==> !EmptyAt(opts, "user")) && (user.0 != [] ==> user.0[0].name == "user-attributes")
            && EnvNode(heap, opts).name == "server-environment"
  {
  }

  /** Where the children of a notice sit: three fixed ones, at most one
      request, at most one user element, and the environment last. */
  lemma {:induction false} ThreeOptionalOne(head: seq<Node>, req: seq<Node>, user: seq<Node>, env: Node)
    requires |head| == 3 && |req| <= 1 && |user| <= 1
    ensures var c := head + (req + user + [env]);
            && |c| == 4 + |req| + |user|
            && c[0] == head[0] && c[1] == head[1] && c[2] == head[2] && c[|c| - 1] == env
            && c[3] == (if req != [] then req[0] else if user != [] then user[0] else env)
            && c[|c| - 2] == (if user != [] then user[0] else if req != [] then req[0] else head[2])
  {
    var c := head + (req + user + [env]);
    assert c[3..] == req + user + [env];
  }

  /** The backtrace: the site line, then one line per frame, or the blank
      line when the trace is empty. */
  lemma {:induction false} BacktraceLayout(heap: Heap, opts: Config, replace: (string, string, string) -> string, ex: Record)
    ensures var ls := BacktraceLines(heap, opts, replace, ex);
            && |ls| == 1 + (if ex.GetTrace() == [] then 1 else |ex.GetTrace()|)
            && ls[0] == SiteLine(heap, opts, replace, ex)
            && (ex.GetTrace() == [] ==> ls[1] == BlankLine(heap))
  {
    if ex.GetTrace() != [] {
      FrameLinesIndex(heap, opts, replace, ex.GetTrace(), 0);
    }
  }

  /** Line `i + 1` of the backtrace is the line for frame `i`. */
  lemma {:induction false} BacktraceFrame(heap: Heap, opts: Config, replace: (string, string, string) -> string, ex: Record, i: nat)
    requires i < |ex.GetTrace()|
    ensures |BacktraceLines(heap, opts, replace, ex)| == 1 + |ex.GetTrace()|
    ensures BacktraceLines(heap, opts, replace, ex)[i + 1] == FrameLine(heap, opts, replace, ex.GetTrace()[i])
  {
    var f := frame => FrameLine(heap, opts, replace, frame);
    assert BacktraceLines(heap, opts, replace, ex) == [SiteLine(heap, opts, replace, ex)] + MapSnoc(f, ex.GetTrace());
    MapSnocAfterHead(SiteLine(heap, opts, replace, ex), f, ex.GetTrace(), i);
  }

  /** The site line names the exception's line and its (filtered) file, or
      an unknown file when the file name is empty. */
  lemma {:induction false} SiteLineAttrs(heap: Heap, opts: Config, replace: (string, string, string) -> string, ex: Record)
    ensures SiteLine(heap, opts, replace, ex).attrs
            == [("number", IntToString(ex.GetLine())),
                ("file", if ex.GetFile() == "" || ex.GetFile() == "0" then Unknown else TraceFilter(opts, replace, ex.GetFile())),
                ("method", Unknown)]
  {
    var file := ex.GetFile();
    LineNodeAttrs(heap, VInt(ex.GetLine()), VStr(if !Empty(VStr(file)) then TraceFilter(opts, replace, file) else Unknown), VStr(Unknown));
  }

  /** A fatal error, reported without backtrace filters, has two lines:
      the site and the synthetic frame, whose method is "<unknown>()". */
  lemma {:induction false} FatalBacktrace(heap: Heap, opts: Config, replace: (string, string, string) -> string, message: string, line: int, file: string)
    requires EmptyAt(opts, "backtrace_filters")
    ensures var ls := BacktraceLines(heap, opts, replace, NewFatal(message, line, file));
            && |ls| == 2
            && ls[1].attrs == [("number", IntToString(line)), ("file", file), ("method", "<unknown>()")]
  {
    var ex := NewFatal(message, line, file);
    var frame := ex.GetTrace()[0];
    BacktraceFrame(heap, opts, replace, ex, 0);
    FormatMethodOfFatalFrame(line, file);
    LineNodeAttrs(heap, VInt(line), VStr(file), VStr("<unknown>()"));
    assert FrameLine(heap, opts, replace, frame) == LineNode(heap, VInt(line), VStr(file), VStr("<unknown>()"));
  }

  /** Without backtrace filters the error element reads the display class
      name and "class: message"; a fatal error displays as "Fatal Error". */
  lemma {:induction false} ErrorTexts(heap: Heap, opts: Config, replace: (string, string, string) -> string, ex: Record)
    requires EmptyAt(opts, "backtrace_filters")
    ensures var e := ErrorNode(heap, opts, replace, ex);
            && |e.children| == 3
            && e.children[0].name == "class" && e.children[0].text == ClassName(ex.className)
            && e.children[1].name == "message" && e.children[1].text == ClassName(ex.className) + ": " + ex.GetMessage()
            && e.children[2].name == "backtrace"
            && (ex.className == KindClassName(FatalKind) ==> e.children[0].text == "Fatal Error")
  {
    var fs := ErrorFieldNodes(heap, opts, replace, ex);
    var kids := fs + [Container(heap, "backtrace", [], BacktraceLines(heap, opts, replace, ex))];
    assert ErrorNode(heap, opts, replace, ex).children == kids;
    assert kids[0] == fs[0] && kids[1] == fs[1];
    ClassNameOfKinds();
  }

  /** The `request` element: url, component and action always, then
      params, session and cgi-data exactly for the non-empty areas. */
  lemma {:induction false} RequestLayout(heap: Heap, h: History, opts: Config)
    ensures var c := RequestNode(heap, h, opts).0.children;
            && |c| == 3 + (if EmptyAt(opts, "parameters") then 0 else 1) + (if EmptyAt(opts, "session_data") then 0 else 1)
                        + (if EmptyAt(opts, "cgi_data") then 0 else 1)
            && c[0] == Leaf(heap, "url", OrBlank(opts, "url"))
            && c[1] == Leaf(heap, "component", OrBlank(opts, "controller"))
            && c[2] == Leaf(heap, "action", OrBlank(opts, "action"))
            && (!EmptyAt(opts, "parameters") <==> |c| > 3 && c[3].name == "params")
  {
    var head := RequestBasics(heap, opts);
    var vars := RequestVarNodes(heap, h, opts).0;
    assert RequestNode(heap, h, opts).0.children == head + vars;
    RequestVarParts(heap, h, opts);
    HeadThenRest(head, vars);
  }

  /** The optional parts of a request: one element per non-empty value,
      the parameters first. */
  lemma {:induction false} RequestVarParts(heap: Heap, h: History, opts: Config)
    ensures var v := RequestVarNodes(heap, h, opts).0;
            && |v| == (if EmptyAt(opts, "parameters") then 0 else 1) + (if EmptyAt(opts, "session_data") then 0 else 1)
                      + (if EmptyAt(opts, "cgi_data") then 0 else 1)
            && (!EmptyAt(opts, "parameters") <==> |v| > 0 && v[0].name == "params")
  {
    var ps := OptionalVars(heap, h, "params", Get(opts, "parameters"));
    var ss := OptionalVars(heap, ps.1, "session", Get(opts, "session_data"));
    var cs := OptionalVars(heap, ss.1, "cgi-data", Get(opts, "cgi_data"));
    var v := ps.0 + ss.0 + cs.0;
    if ps.0 != [] {
      assert v[0] == ps.0[0];
    } else if ss.0 != [] {
      assert v[0] == ss.0[0];
    } else if cs.0 != [] {
      assert v[0] == cs.0[0];
    }
  }

  /** Indexing into three fixed elements followed by the rest. */
  lemma {:induction false} HeadThenRest(head: seq<Node>, rest: seq<Node>)
    requires |head| == 3
    ensures var c := head + rest;
            && |c| == 3 + |rest| && c[0] == head[0] && c[1] == head[1] && c[2] == head[2]
            && (|rest| > 0 ==> c[3] == rest[0])
  {
  }

  /** Rendering a notice only ever adds to the registry. */
  lemma {:induction false} NoticeExtendsRegistry(heap: Heap, h: History, ex: Record, opts: Config, replace: (string, string, string) -> string)
    ensures h <= NoticeNode(heap, h, ex, opts, replace).1
  {
    var req := RequestPart(heap, h, opts);
    if WantsRequest(opts) {
      var ps := OptionalVars(heap, h, "params", Get(opts, "parameters"));
      var ss := OptionalVars(heap, ps.1, "session", Get(opts, "session_data"));
      assert h <= ps.1 && ps.1 <= ss.1;
    }
  }

  // ---- asXml: building the document ------------------------------------

  /** Closing a callback: the element `tag` appended, followed by the
      children its callback appended, is the element holding them. */
  lemma {:induction false} CloseContainer(t: Node, p: Path, heap: Heap, name: string, attributes: seq<(Key, Value)>, kids: seq<Node>)
    requires ValidPath(t, p)
    ensures ValidPath(AppendAt(t, p, [Element(heap, name, VStr(""), attributes)]), p + [|At(t, p).children|])
    ensures AppendAt(AppendAt(t, p, [Element(heap, name, VStr(""), attributes)]), p + [|At(t, p).children|], kids)
            == AppendAt(t, p, [Container(heap, name, attributes, kids)])
  {
    NestedAppend(t, p, Element(heap, name, VStr(""), attributes), kids);
    assert [] + kids == kids;
  }

  /** `tag($name, $value, $attributes)` inside a callback that has already
      added `done` to the element it fills. */
  method AddLeaf(c: Builder, heap: Heap, ghost base: Node, ghost done: seq<Node>, name: string, value: Value, attributes: seq<(Key, Value)>)
    requires c.Valid() && ValidPath(base, c.path) && c.doc.root == AppendAt(base, c.path, done)
    modifies c.doc
    ensures c.Valid() && c.doc.root == AppendAt(base, c.path, done + [Element(heap, name, value, attributes)])
  {
    var _ := c.Tag(heap, name, value, attributes, false);
    AppendAppend(base, c.path, done, [Element(heap, name, value, attributes)]);
  }

  /** The `notifier` callback. */
  method NotifierBlock(b: Builder, heap: Heap)
    requires b.Valid()
    modifies b.doc
    ensures b.Valid() && b.doc.root == AppendAt(old(b.doc.root), b.path, [NotifierNode(heap)])
  {
    ghost var root0 := b.doc.root;
    var n := b.Tag(heap, "notifier", VStr(""), [], false);
    ghost var base := b.doc.root;
    AppendNothing(base, n.path);
    ghost var done: seq<Node> := [];
    AddLeaf(n, heap, base, done, "name", VStr(PROJECT_NAME), []);
    done := done + [Leaf(heap, "name", VStr(PROJECT_NAME))];
    AddLeaf(n, heap, base, done, "version", VStr(VERSION), []);
    done := done + [Leaf(heap, "version", VStr(VERSION))];
    AddLeaf(n, heap, base, done, "url", VStr(PROJECT_URL), []);
    done := done + [Leaf(heap, "url", VStr(PROJECT_URL))];
    CloseContainer(root0, b.path, heap, "notifier", [], done);
    assert done == NotifierNode(heap).children;
  }

  /** The `notifier` callback as the source runs it: the new `<notifier/>`
      is blank when `tag` hands it to the callback, so the callback fills a
      fresh document and the notice keeps an empty `notifier`.  The same
      holds for every container `tag` opens with no attributes and no text. */
  method NotifierBlockAsWritten(b: Builder, heap: Heap) returns (n: Builder)
    requires b.Valid()
    modifies b.doc
    ensures b.Valid() && b.doc.root == AppendAt(old(b.doc.root), b.path, [Node("notifier", "", [], [])])
    ensures fresh(n.doc) && n.Valid() && n.doc.root == Node(RootName, "", [], NotifierNode(heap).children)
  {
    BlankElement(heap, "notifier");
    n := b.TagAsWritten(heap, "notifier", VStr(""), [], false);
    ghost var base := n.doc.root;
    AppendNothing(base, n.path);
    ghost var done: seq<Node> := [];
    AddLeaf(n, heap, base, done, "name", VStr(PROJECT_NAME), []);
    done := done + [Leaf(heap, "name", VStr(PROJECT_NAME))];
    AddLeaf(n, heap, base, done, "version", VStr(VERSION), []);
    done := done + [Leaf(heap, "version", VStr(VERSION))];
    AddLeaf(n, heap, base, done, "url", VStr(PROJECT_URL), []);
    done := done + [Leaf(heap, "url", VStr(PROJECT_URL))];
    assert done == NotifierNode(heap).children;
  }

  /** As written, the notice's `notifier` is not the one the callback
      describes: it has no children, where the intended one has three. */
  lemma {:induction false} NotifierLostAsWritten(heap: Heap)
    ensures |NotifierNode(heap).children| == 3
    ensures NotifierNode(heap) != Node("notifier", "", [], [])
    ensures Markup(Node("notifier", "", [], [])) == "<notifier/>"
  {
  }

  /** `if (!empty($v)) tag($name, '', array(), callback calling xmlVarsFor)`. */
  method OptionalVarsBlock(b: Builder, heap: Heap, reg: HashRegistry, name: string, v: Value)
    requires b.Valid()
    modifies b.doc, reg
    ensures b.Valid()
    ensures b.doc.root == AppendAt(old(b.doc.root), b.path, OptionalVars(heap, old(reg.hashes), name, v).0)
    ensures reg.hashes == OptionalVars(heap, old(reg.hashes), name, v).1
  {
    if Empty(v) {
      AppendNothing(b.doc.root, b.path);
    } else {
      ghost var root0 := b.doc.root;
      ghost var h0 := reg.hashes;
      var c := b.Tag(heap, name, VStr(""), [], false);
      XmlVarsFor(c, heap, reg, v);
      CloseContainer(root0, b.path, heap, name, [], VarsOf(heap, h0, v).0);
    }
  }

  /** `Notice::forException($exception, $options)` */
  method ForException(exception: Record, rt: Runtime, caller: Config, rx: Regex) returns (n: Notice)
    ensures fresh(n) && n.exception == exception && n.rx == rx
    ensures n.options == FilteredOptions(MergedOptions(rt, caller), rx.matches)
  {
    n := new Notice(exception, rt, caller, rx);
  }

  /** The redacted entries while pattern `j` is being applied: the first
      `t` entries have seen it, the others not yet. */
  function Redacting(es: seq<(Key, Value)>, pats: seq<string>, j: nat, t: nat, m: (string, string) -> bool): (r: seq<(Key, Value)>)
    requires j < |pats|
    ensures |r| == |es|
  {
    seq(|es|, k requires 0 <= k < |es| => RedactEntry(es[k], if k < t then pats[..j + 1] else pats[..j], m))
  }

  lemma {:induction false} RedactingEnds(es: seq<(Key, Value)>, pats: seq<string>, j: nat, m: (string, string) -> bool)
    requires j < |pats|
    ensures Redacting(es, pats, j, 0, m) == RedactEntries(es, pats[..j], m)
    ensures Redacting(es, pats, j, |es|, m) == RedactEntries(es, pats[..j + 1], m)
  {
  }

  /** A notice: the exception, the options after merging and filtering,
      and the regular-expression engine the filters run on. */
  class Notice {
    const exception: Record
    var options: Config
    const rx: Regex

    /** `new Notice($exception, $options)`: the runtime's defaults under
        the caller's options, then `filterData()`. */
    constructor(exception: Record, rt: Runtime, caller: Config, rx: Regex)
      ensures this.exception == exception && this.rx == rx
      ensures options == FilteredOptions(MergedOptions(rt, caller), rx.matches)
    {
      this.exception := exception;
      this.rx := rx;
      options := MergedOptions(rt, caller);
      new;
      FilterData();
    }

    /** `filterData()`: with a non-empty `params_filters`, filter each of
        the three request areas in turn. */
    method FilterData()
      modifies this
      ensures options == FilteredOptions(old(options), rx.matches)
    {
      if EmptyAt(options, "params_filters") {
        return;
      }
      ghost var opts0 := options;
      var i := 0;
      assert ParamAreas[..0] == [];
      while i < |ParamAreas|
        invariant 0 <= i <= |ParamAreas|
        invariant options == FilterAreas(opts0, ParamAreas[..i], rx.matches)
      {
        assert ParamAreas[..i + 1][..i] == ParamAreas[..i] && ParamAreas[..i + 1][i] == ParamAreas[i];
        FilterParams(ParamAreas[i]);
        i := i + 1;
      }
      assert ParamAreas[..i] == ParamAreas;
    }

    /** `filterParams($name)`: for each pattern, in order, every entry of
        the area whose key it matches is replaced by "[FILTERED]". */
    method FilterParams(name: string)
      modifies this
      ensures options == ParamsFiltered(old(options), name, rx.matches)
    {
      if EmptyAt(options, name) {
        return;
      }
      var filters := Get(options, "params_filters");
      var area := Get(options, name);
      if !filters.VArr? || !area.VArr? {
        return;
      }
      var fs := filters.entries;
      var es := area.entries;
      ghost var opts0 := options;
      ghost var pats := Patterns(fs);
      assert pats[..0] == [];
      RedactEntriesNoPatterns(es, rx.matches);
      assert opts0[name := VArr(es)] == opts0;
      var j := 0;
      while j < |fs|
        invariant 0 <= j <= |fs|
        invariant options == opts0[name := VArr(RedactEntries(es, pats[..j], rx.matches))]
      {
        RedactingEnds(es, pats, j, rx.matches);
        ApplyPattern(name, es, pats, j, ToStr(fs[j].1));
        j := j + 1;
      }
      assert pats[..j] == pats;
    }

    /** The inner `foreach` of `filterParams`: pattern `j` against every
        key of the area, as it was when filtering began. */
    method ApplyPattern(name: string, es: seq<(Key, Value)>, ghost pats: seq<string>, j: nat, pattern: string)
      requires j < |pats| && pattern == pats[j]
      requires name in options && options[name] == VArr(Redacting(es, pats, j, 0, rx.matches))
      modifies this
      ensures options == old(options)[name := VArr(Redacting(es, pats, j, |es|, rx.matches))]
    {
      ghost var opts0 := options;
      var t := 0;
      while t < |es|
        invariant 0 <= t <= |es|
        invariant options == opts0[name := VArr(Redacting(es, pats, j, t, rx.matches))]
      {
        var key := es[t].0;
        AnyMatchSnoc(pats, j, KeyString(key), rx.matches);
        if rx.matches(pattern, KeyString(key)) {
          var cur := options[name].entries;
          options := options[name := VArr(cur[t := (key, VStr(Filtered))])];
        }
        assert Redacting(es, pats, j, t + 1, rx.matches) == (if rx.matches(pattern, KeyString(key))
          then Redacting(es, pats, j, t, rx.matches)[t := (key, VStr(Filtered))]
          else Redacting(es, pats, j, t, rx.matches));
        t := t + 1;
      }
    }

    /** `filterTrace($str)`: each backtrace filter's replacement in turn. */
    method FilterTrace(str: string) returns (r: string)
      ensures r == TraceFilter(options, rx.replace, str)
    {
      var filters := Get(options, "backtrace_filters");
      if Empty(filters) || !filters.VArr? {
        return str;
      }
      var fs := filters.entries;
      r := str;
      var i := 0;
      while i < |fs|
        invariant 0 <= i <= |fs|
        invariant ApplyReplacements(fs[i..], rx.replace, r) == ApplyReplacements(fs, rx.replace, str)
      {
        assert fs[i..][0] == fs[i] && fs[i..][1..] == fs[i + 1..];
        r := rx.replace(KeyString(fs[i].0), ToStr(fs[i].1), r);
        i := i + 1;
      }
      assert fs[i..] == [];
    }

    /** The `server-environment` callback. */
    method EnvBlock(b: Builder, heap: Heap)
      requires b.Valid()
      modifies b.doc
      ensures b.Valid() && b.doc.root == AppendAt(old(b.doc.root), b.path, [EnvNode(heap, options)])
    {
      ghost var root0 := b.doc.root;
      var env := b.Tag(heap, "server-environment", VStr(""), [], false);
      ghost var base := b.doc.root;
      AppendNothing(base, env.path);
      ghost var done: seq<Node> := [];
      AddLeaf(env, heap, base, done, "project-root", Get(options, "project_root"), []);
      done := done + [Leaf(heap, "project-root", Get(options, "project_root"))];
      AddLeaf(env, heap, base, done, "environment-name", Get(options, "environment_name"), []);
      done := done + [Leaf(heap, "environment-name", Get(options, "environment_name"))];
      CloseContainer(root0, b.path, heap, "server-environment", [], done);
      assert done == EnvNode(heap, options).children;
    }

    /** The `request` callback: url, component and action, then the three
        optional variable lists, threading the registry. */
    method RequestBlock(b: Builder, heap: Heap, reg: HashRegistry)
      requires b.Valid()
      modifies b.doc, reg
      ensures b.Valid()
      ensures b.doc.root == AppendAt(old(b.doc.root), b.path, [RequestNode(heap, old(reg.hashes), options).0])
      ensures reg.hashes == RequestNode(heap, old(reg.hashes), options).1
    {
      ghost var root0 := b.doc.root;
      ghost var h0 := reg.hashes;
      var r := b.Tag(heap, "request", VStr(""), [], false);
      ghost var base := b.doc.root;
      ghost var heads := RequestBasics(heap, options);
      RequestFields(r, heap);
      ghost var vars := RequestVarNodes(heap, h0, options);
      RequestVars(r, heap, reg);
      AppendAppend(base, r.path, heads, vars.0);
      CloseContainer(root0, b.path, heap, "request", [], heads + vars.0);
    }

    /** The url, component and action of the `request` callback, each
        blank unless set. */
    method RequestFields(r: Builder, heap: Heap)
      requires r.Valid()
      modifies r.doc
      ensures r.Valid()
      ensures r.doc.root == AppendAt(old(r.doc.root), r.path, RequestBasics(heap, options))
    {
      ghost var base := r.doc.root;
      AppendNothing(base, r.path);
      ghost var done: seq<Node> := [];
      AddLeaf(r, heap, base, done, "url", OrBlank(options, "url"), []);
      done := done + [Leaf(heap, "url", OrBlank(options, "url"))];
      AddLeaf(r, heap, base, done, "component", OrBlank(options, "controller"), []);
      done := done + [Leaf(heap, "component", OrBlank(options, "controller"))];
      AddLeaf(r, heap, base, done, "action", OrBlank(options, "action"), []);
      done := done + [Leaf(heap, "action", OrBlank(options, "action"))];
      assert done == [Leaf(heap, "url", OrBlank(options, "url")), Leaf(heap, "component", OrBlank(options, "controller")),
                      Leaf(heap, "action", OrBlank(options, "action"))];
    }

    /** The params, session and cgi-data of the `request` callback, each
        present only when non-empty, threading the registry. */
    method RequestVars(r: Builder, heap: Heap, reg: HashRegistry)
      requires r.Valid()
      modifies r.doc, reg
      ensures r.Valid()
      ensures r.doc.root == AppendAt(old(r.doc.root), r.path, RequestVarNodes(heap, old(reg.hashes), options).0)
      ensures reg.hashes == RequestVarNodes(heap, old(reg.hashes), options).1
    {
      ghost var base := r.doc.root;
      ghost var ps := OptionalVars(heap, reg.hashes, "params", Get(options, "parameters"));
      OptionalVarsBlock(r, heap, reg, "params", Get(options, "parameters"));
      ghost var ss := OptionalVars(heap, ps.1, "session", Get(options, "session_data"));
      OptionalVarsBlock(r, heap, reg, "session", Get(options, "session_data"));
      AppendAppend(base, r.path, ps.0, ss.0);
      ghost var cs := OptionalVars(heap, ss.1, "cgi-data", Get(options, "cgi_data"));
      OptionalVarsBlock(r, heap, reg, "cgi-data", Get(options, "cgi_data"));
      AppendAppend(base, r.path, ps.0 + ss.0, cs.0);
    }

    /** One turn of the frame `foreach`: the line for frame `i`, with the
        file and the method passed through `filterTrace`. */
    method FrameStep(c: Builder, heap: Heap, ghost base: Node, ghost done: seq<Node>, trace: seq<Value>, i: nat)
      requires i < |trace| && c.Valid() && ValidPath(base, c.path)
      requires c.doc.root == AppendAt(base, c.path, done + FrameLines(heap, options, rx.replace, trace[..i]))
      modifies c.doc
      ensures c.Valid() && c.doc.root == AppendAt(base, c.path, done + FrameLines(heap, options, rx.replace, trace[..i + 1]))
    {
      var frame := trace[i];
      var line := Lookup(frame, "line");
      var file := Lookup(frame, "file");
      var fileAttr := Unknown;
      if file != VNull {
        fileAttr := FilterTrace(ToStr(file));
      }
      var fn := FilterTrace(FormatMethod(frame));
      ghost var lines := FrameLines(heap, options, rx.replace, trace[..i]);
      AddLeaf(c, heap, base, done + lines, "line", VStr(""), LineAttrs(if line != VNull then line else VInt(0), VStr(fileAttr), VStr(fn)));
      FrameLinesSnoc(heap, options, rx.replace, done, trace, i);
    }

    /** The `foreach` over the frames: one `line` per frame, in order. */
    method FrameLoop(c: Builder, heap: Heap, ghost base: Node, ghost done: seq<Node>, trace: seq<Value>)
      requires c.Valid() && ValidPath(base, c.path)
      requires c.doc.root == AppendAt(base, c.path, done)
      modifies c.doc
      ensures c.Valid() && c.doc.root == AppendAt(base, c.path, done + FrameLines(heap, options, rx.replace, trace))
    {
      ghost var opts := options;
      var i := 0;
      assert trace[..0] == [] && done + [] == done;
      while i < |trace|
        invariant 0 <= i <= |trace| && options == opts
        invariant c.Valid() && ValidPath(base, c.path)
        invariant c.doc.root == AppendAt(base, c.path, done + FrameLines(heap, opts, rx.replace, trace[..i]))
      {
        FrameStep(c, heap, base, done, trace, i);
        i := i + 1;
      }
      assert trace[..i] == trace;
    }

    /** The `backtrace` callback: the site line, then the blank line or one
        line per frame. */
    method BacktraceBlock(b: Builder, heap: Heap)
      requires b.Valid()
      modifies b.doc
      ensures b.Valid()
      ensures b.doc.root == AppendAt(old(b.doc.root), b.path, [Container(heap, "backtrace", [], BacktraceLines(heap, options, rx.replace, exception))])
    {
      ghost var root0 := b.doc.root;
      var bt := b.Tag(heap, "backtrace", VStr(""), [], false);
      ghost var base := b.doc.root;
      AppendNothing(base, bt.path);
      var trace := exception.GetTrace();
      var file1 := exception.GetFile();
      var fileAttr := Unknown;
      if !Empty(VStr(file1)) {
        fileAttr := FilterTrace(file1);
      }
      AddLeaf(bt, heap, base, [], "line", VStr(""), LineAttrs(VInt(exception.GetLine()), VStr(fileAttr), VStr(Unknown)));
      ghost var done := [SiteLine(heap, options, rx.replace, exception)];
      assert [] + done == done;
      if trace == [] {
        AddLeaf(bt, heap, base, done, "line", VStr(""), LineAttrs(VStr(""), VStr(""), VStr("")));
        done := done + [BlankLine(heap)];
      } else {
        FrameLoop(bt, heap, base, done, trace);
        done := done + FrameLines(heap, options, rx.replace, trace);
      }
      assert done == BacktraceLines(heap, options, rx.replace, exception);
      CloseContainer(root0, b.path, heap, "backtrace", [], done);
    }

    /** The `error` callback: class, message and backtrace. */
    method ErrorBlock(b: Builder, heap: Heap)
      requires b.Valid()
      modifies b.doc
      ensures b.Valid() && b.doc.root == AppendAt(old(b.doc.root), b.path, [ErrorNode(heap, options, rx.replace, exception)])
    {
      ghost var root0 := b.doc.root;
      var e := b.Tag(heap, "error", VStr(""), [], false);
      ghost var base := b.doc.root;
      ghost var texts := ErrorFieldNodes(heap, options, rx.replace, exception);
      ErrorFields(e, heap);
      ghost var backtrace := Container(heap, "backtrace", [], BacktraceLines(heap, options, rx.replace, exception));
      BacktraceBlock(e, heap);
      AppendAppend(base, e.path, texts, [backtrace]);
      CloseContainer(root0, b.path, heap, "error", [], texts + [backtrace]);
      assert texts + [backtrace] == ErrorNode(heap, options, rx.replace, exception).children;
    }

    /** The class and the message of the `error` callback, both filtered. */
    method ErrorFields(e: Builder, heap: Heap)
      requires e.Valid()
      modifies e.doc
      ensures e.Valid()
      ensures e.doc.root == AppendAt(old(e.doc.root), e.path, ErrorFieldNodes(heap, options, rx.replace, exception))
    {
      ghost var base := e.doc.root;
      AppendNothing(base, e.path);
      var cls := ClassName(exception.className);
      var fc := FilterTrace(cls);
      ghost var done: seq<Node> := [];
      AddLeaf(e, heap, base, done, "class", VStr(fc), []);
      done := done + [Leaf(heap, "class", VStr(fc))];
      var fm := FilterTrace(cls + ": " + exception.GetMessage());
      AddLeaf(e, heap, base, done, "message", VStr(fm), []);
      done := done + [Leaf(heap, "message", VStr(fm))];
      assert done == [Leaf(heap, "class", VStr(fc)), Leaf(heap, "message", VStr(fm))];
    }

    /** The first three children of `notice`: api-key, notifier, error. */
    method NoticeHead(n: Builder, heap: Heap)
      requires n.Valid()
      modifies n.doc
      ensures n.Valid()
      ensures n.doc.root == AppendAt(old(n.doc.root), n.path, NoticeBasics(heap, exception, options, rx.replace))
    {
      ghost var base := n.doc.root;
      ghost var api := Leaf(heap, "api-key", Get(options, "api_key"));
      ghost var err := ErrorNode(heap, options, rx.replace, exception);
      AppendNothing(base, n.path);
      AddLeaf(n, heap, base, [], "api-key", Get(options, "api_key"), []);
      assert [] + [api] == [api];
      NotifierBlock(n, heap);
      AppendAppend(base, n.path, [api], [NotifierNode(heap)]);
      ErrorBlock(n, heap);
      AppendAppend(base, n.path, [api] + [NotifierNode(heap)], [err]);
      assert [api] + [NotifierNode(heap)] + [err] == [api, NotifierNode(heap), err];
    }

    /** The rest of `notice`: the request when any of its fields is set,
        the user attributes when given, and the server environment. */
    method NoticeTail(n: Builder, heap: Heap, reg: HashRegistry)
      requires n.Valid()
      modifies n.doc, reg
      ensures n.Valid()
      ensures n.doc.root == AppendAt(old(n.doc.root), n.path, NoticeRest(heap, old(reg.hashes), options).0)
      ensures reg.hashes == NoticeRest(heap, old(reg.hashes), options).1
    {
      ghost var base := n.doc.root;
      ghost var req := RequestPart(heap, reg.hashes, options);
      if WantsRequest(options) {
        RequestBlock(n, heap, reg);
      } else {
        AppendNothing(n.doc.root, n.path);
      }
      assert reg.hashes == req.1;
      ghost var done := req.0;
      ghost var user := OptionalVars(heap, req.1, "user-attributes", Get(options, "user"));
      OptionalVarsBlock(n, heap, reg, "user-attributes", Get(options, "user"));
      AppendAppend(base, n.path, done, user.0);
      done := done + user.0;
      EnvBlock(n, heap);
      AppendAppend(base, n.path, done, [EnvNode(heap, options)]);
    }

    /** The body of the `notice` callback, in the order `asXml` adds the
        children. */
    method NoticeBody(n: Builder, heap: Heap, reg: HashRegistry)
      requires n.Valid()
      modifies n.doc, reg
      ensures n.Valid()
      ensures n.doc.root == AppendAt(old(n.doc.root), n.path, NoticeNode(heap, old(reg.hashes), exception, options, rx.replace).0.children)
      ensures reg.hashes == NoticeNode(heap, old(reg.hashes), exception, options, rx.replace).1
    {
      ghost var base := n.doc.root;
      ghost var h0 := reg.hashes;
      ghost var heads := NoticeBasics(heap, exception, options, rx.replace);
      NoticeHead(n, heap);
      ghost var rest := NoticeRest(heap, h0, options);
      NoticeTail(n, heap, reg);
      AppendAppend(base, n.path, heads, rest.0);
    }

    /** `asXml()`: a fresh document, the notice element with its version,
        its body, and the notice element's markup. */
    method AsXml(heap: Heap, reg: HashRegistry) returns (xml: string)
      modifies reg
      ensures xml == NoticeXml(heap, old(reg.hashes), exception, options, rx.replace)
      ensures reg.hashes == NoticeNode(heap, old(reg.hashes), exception, options, rx.replace).1
    {
      ghost var h0 := reg.hashes;
      ghost var result := NoticeNode(heap, h0, exception, options, rx.replace);
      var builder := new Builder();
      ghost var root0 := builder.doc.root;
      var notice := builder.Tag(heap, "notice", VStr(""), NoticeAttrs, false);
      NoticeBody(notice, heap, reg);
      CloseContainer(root0, [], heap, "notice", NoticeAttrs, result.0.children);
      assert result.0 == Container(heap, "notice", NoticeAttrs, result.0.children);
      AppendedChild(root0, [], result.0);
      assert notice.path == [0];
      xml := notice.AsXml();
    }
  }
}

