/** The notifier's identity, as lib/Errbit.php declares it. */
module LibInfo {
  const VERSION: string := "0.0.1"
  const API_VERSION: string := "2.2"
  const PROJECT_NAME: string := "errbit-php"
  const PROJECT_URL: string := "https://github.com/flippa/errbit-php"
  const NOTICES_PATH: string := "/notifier_api/v2/notices/"
}

/** lib/Errbit/Notice.php: the older notice document.  It has no filtering,
    no recursion guard, no site line, raw class names and messages, and it
    writes through the older builder, whose first-child cursor decides
    where nested variables land. */
module LibNotice {
  import opened Wrappers
  import opened PhpValues
  import opened SimpleXml
  import opened LibXmlBuilder
  import opened Errors
  import opened LibInfo
  import Notice
  import ErrbitClient

  // ---- Options ---------------------------------------------------------

  /** The defaults the constructor puts under the caller's options.  The
      session goes under "session", a key `asXml` never reads. */
  function LibDefaults(rt: Notice.Runtime): Config
  {
    var uri := Lookup(rt.server, "REQUEST_URI");
    map["url" := if Truthy(uri) then uri else VNull,
        "parameters" := Notice.OrEmptyArray(rt.request),
        "session" := Notice.OrEmptyArray(rt.session),
        "cgi_data" := Notice.OrEmptyArray(rt.server)]
  }

  /** `array_merge($defaults, $options)`: the caller's options win. */
  function LibMergedOptions(rt: Notice.Runtime, caller: Config): (r: Config)
    ensures r.Keys == caller.Keys + {"url", "parameters", "session", "cgi_data"}
    ensures forall k :: k in caller ==> r[k] == caller[k]
    ensures forall k :: k in LibDefaults(rt) && k !in caller ==> r[k] == LibDefaults(rt)[k]
  {
    LibDefaults(rt) + caller
  }

  /** The session the runtime holds never reaches the notice: only the
      caller's "session_data" does. */
  lemma {:induction false} RuntimeSessionUnused(rt: Notice.Runtime, caller: Config)
    ensures Get(LibMergedOptions(rt, caller), "session_data") == Get(caller, "session_data")
  {
  }

  /** The defaults of src/Errbit/Exception/Notice.php put the session
      under "session_data", where the notice reads it. */
  lemma {:induction false} SrcSessionUsed(rt: Notice.Runtime, caller: Config)
    requires "session_data" !in caller && Truthy(rt.session)
    ensures Get(Notice.MergedOptions(rt, caller), "session_data") == rt.session
  {
  }

  // ---- The document ----------------------------------------------------

  /** `tag($name, $v)` with one value: a string becomes the text, an
      array the attributes. */
  function Leaf(name: string, v: Value, ic: IsCallable): Node
  {
    LibElement(name, ParseArgs([Val(v)], ic))
  }

  /** `tag($name, function ($x) { ... })` once the callback has added `kids`. */
  function Container(name: string, kids: seq<Node>): Node
  {
    Node(name, "", [], kids)
  }

  /** `isset($frame[$k]) ? $frame[$k] : $default` */
  function IssetOr(frame: Value, k: string, default: Value): Value
  {
    if Lookup(frame, k) != VNull then Lookup(frame, k) else default
  }

  function LineArgs(frame: Value): seq<(Key, Value)>
  {
    [(KStr("number"), IssetOr(frame, "line", VInt(0))),
     (KStr("file"), IssetOr(frame, "file", VStr("<unknown>"))),
     (KStr("method"), VStr(Notice.FormatMethod(frame)))]
  }

  /** The backtrace `line` of one frame. */
  function LineElement(frame: Value, ic: IsCallable): Node
  {
    LibElement("line", ParseArgs([Val(VArr(LineArgs(frame)))], ic))
  }

  /** One `line` per frame, in order. */
  function Lines(trace: seq<Value>, ic: IsCallable): (r: seq<Node>)
    ensures |r| == |trace|
    decreases |trace|
  {
    if trace == [] then [] else Lines(trace[..|trace| - 1], ic) + [LineElement(trace[|trace| - 1], ic)]
  }

  function ErrorHeads(ex: Record, ic: IsCallable): seq<Node>
  {
    [Leaf("class", VStr(ex.className), ic), Leaf("message", VStr(ex.GetMessage()), ic)]
  }

  function ErrorNode(ex: Record, ic: IsCallable): Node
  {
    Container("error", ErrorHeads(ex, ic) + [Container("backtrace", Lines(ex.GetTrace(), ic))])
  }

  function NotifierNode(ic: IsCallable): Node
  {
    Container("notifier", [Leaf("name", VStr(PROJECT_NAME), ic), Leaf("version", VStr(VERSION), ic),
                           Leaf("url", VStr(PROJECT_URL), ic)])
  }

  // ---- xmlVarsFor ------------------------------------------------------

  /** `tag('var', array('key' => $key), $callback)` */
  function VarArgs(k: Key): seq<Arg>
  {
    [Val(VArr(Notice.VarAttrs(k))), Closure("xmlVarsFor")]
  }

  /** `tag('var', $value, array('key' => $key))` */
  function LeafArgs(e: (Key, Value)): seq<Arg>
  {
    [Val(e.1), Val(VArr(Notice.VarAttrs(e.0)))]
  }

  /** `xmlVarsFor($builder, $entries)` on the element the builder is at:
      the entries in order, each one `var` more at the end of its children. */
  function VarsInto(n: Node, es: seq<(Key, Value)>, ic: IsCallable): (r: Node)
    ensures r.name == n.name && r.text == n.text && r.attrs == n.attrs
    ensures |r.children| == |n.children| + |es|
    decreases Notice.SizeEntries(es)
  {
    if es == [] then n
    else VarsInto(EntryInto(n, es[0], ic), es[1..], ic)
  }

  /** One entry.  An array value adds an empty `var` and then fills,
      through the builder `tag` hands to the callback, the FIRST `var`
      child of the element, which is the new one only if there was none
      before. */
  function EntryInto(n: Node, e: (Key, Value), ic: IsCallable): (r: Node)
    ensures r.name == n.name && r.text == n.text && r.attrs == n.attrs
    ensures |r.children| == |n.children| + 1
    decreases Notice.Size(e.1)
  {
    if e.1.VArr? then
      var n1 := n.(children := n.children + [LibElement("var", ParseArgs(VarArgs(e.0), ic))]);
      assert n1.children[|n.children|].name == "var";
      var f := FirstNamed(n1.children, "var");
      n1.(children := n1.children[f := VarsInto(n1.children[f], e.1.entries, ic)])
    else
      n.(children := n.children + [LibElement("var", ParseArgs(LeafArgs(e), ic))])
  }

  /** Every `var` below another element except the first: the ones that
      can never receive nested variables. */
  predicate LaterVarsEmpty(n: Node, from: nat)
  {
    forall j :: from <= j < |n.children| && j != FirstNamed(n.children, "var") ==> n.children[j].children == []
  }

  lemma {:induction false} FirstNamedReplace(cs: seq<Node>, f: nat, y: Node, name: string)
    requires f == FirstNamed(cs, name) && f < |cs| && y.name == name
    ensures FirstNamed(cs[f := y], name) == f
  {
    var r := cs[f := y];
    assert forall j :: 0 <= j < f ==> r[j] == cs[j];
    assert r[f].name == name;
  }

  /** Appending a childless `var` keeps the later `var`s empty. */
  lemma {:induction false} AppendLaterVars(n: Node, x: Node, from: nat)
    requires from <= |n.children| && LaterVarsEmpty(n, from) && x.name == "var" && x.children == []
    ensures LaterVarsEmpty(n.(children := n.children + [x]), from)
  {
    var cs1 := n.children + [x];
    FirstNamedAppend(n.children, x);
    assert forall j :: 0 <= j < |n.children| ==> cs1[j] == n.children[j];
  }

  /** Filling the first `var` keeps the later ones empty. */
  lemma {:induction false} FillFirstLaterVars(n1: Node, y: Node, from: nat)
    requires LaterVarsEmpty(n1, from) && y.name == "var"
    requires FirstNamed(n1.children, "var") < |n1.children|
    ensures LaterVarsEmpty(n1.(children := n1.children[FirstNamed(n1.children, "var") := y]), from)
  {
    var f := FirstNamed(n1.children, "var");
    FirstNamedReplace(n1.children, f, y, "var");
  }

  lemma {:induction false} EntryIntoLaterVars(n: Node, e: (Key, Value), ic: IsCallable, from: nat)
    requires from <= |n.children| && LaterVarsEmpty(n, from)
    ensures LaterVarsEmpty(EntryInto(n, e, ic), from)
  {
    if e.1.VArr? {
      var x := LibElement("var", ParseArgs(VarArgs(e.0), ic));
      AppendLaterVars(n, x, from);
      var n1 := n.(children := n.children + [x]);
      FirstNamedAppend(n.children, x);
      var f := FirstNamed(n1.children, "var");
      FillFirstLaterVars(n1, VarsInto(n1.children[f], e.1.entries, ic), from);
    } else {
      AppendLaterVars(n, LibElement("var", ParseArgs(LeafArgs(e), ic)), from);
    }
  }

  /** With the first-child cursor, nested values only ever land in the
      first `var` of an element: every other `var` that `xmlVarsFor`
      appends stays empty, whatever the entries. */
  lemma {:induction false} VarsIntoLaterVars(n: Node, es: seq<(Key, Value)>, ic: IsCallable, from: nat)
    requires from <= |n.children| && LaterVarsEmpty(n, from)
    ensures LaterVarsEmpty(VarsInto(n, es, ic), from)
    decreases |es|
  {
    if es != [] {
      EntryIntoLaterVars(n, es[0], ic, from);
      VarsIntoLaterVars(EntryInto(n, es[0], ic), es[1..], ic, from);
    }
  }

  /** An element with no children yet: all the `var`s `xmlVarsFor` adds
      to it but the first are empty. */
  lemma {:induction false} OnlyFirstVarNests(name: string, es: seq<(Key, Value)>, ic: IsCallable)
    ensures var r := VarsInto(Container(name, []), es, ic);
            forall j :: 0 <= j < |r.children| && j != FirstNamed(r.children, "var") ==> r.children[j].children == []
  {
    VarsIntoLaterVars(Container(name, []), es, ic, 0);
  }

  /** `xmlVarsFor($builder, $array)` */
  method XmlVarsFor(b: LibBuilder, v: Value, ic: IsCallable)
    requires b.Valid()
    modifies b.doc
    ensures b.Valid()
    ensures b.doc.root == ReplaceAt(old(b.doc.root), b.path, VarsInto(old(b.Current()), ErrbitClient.Entries(v), ic))
    decreases Notice.Size(v), 1
  {
    var es := ErrbitClient.Entries(v);
    ghost var root0 := b.doc.root;
    ghost var n0 := b.Current();
    ReplaceAtSame(root0, b.path);
    var i := 0;
    while i < |es|
      invariant 0 <= i <= |es|
      invariant b.Valid() && ValidPath(root0, b.path)
      invariant b.doc.root == ReplaceAt(root0, b.path, b.Current())
      invariant VarsInto(b.Current(), es[i..], ic) == VarsInto(n0, es, ic)
    {
      Notice.ElementSmaller(es, i);
      ghost var cur := b.Current();
      XmlVarEntry(b, es[i], ic);
      ReplaceTwice(root0, b.path, cur, EntryInto(cur, es[i], ic));
      assert es[i..][0] == es[i] && es[i..][1..] == es[i + 1..];
      i := i + 1;
    }
  }

  /** One pass of the loop of `xmlVarsFor`. */
  method XmlVarEntry(b: LibBuilder, e: (Key, Value), ic: IsCallable)
    requires b.Valid()
    modifies b.doc
    ensures b.Valid()
    ensures b.doc.root == ReplaceAt(old(b.doc.root), b.path, EntryInto(old(b.Current()), e, ic))
    decreases Notice.Size(e.1), 2
  {
    ghost var t := b.doc.root;
    ghost var n := b.Current();
    if e.1.VArr? {
      var x := LibElement("var", ParseArgs(VarArgs(e.0), ic));
      var node, callback := b.Tag("var", VarArgs(e.0), ic);
      ghost var n1 := n.(children := n.children + [x]);
      FirstNamedAppend(n.children, x);
      ghost var f := FirstNamed(n1.children, "var");
      assert node.path == b.path + [f];
      ReplaceChild(t, b.path, n1, f, VarsInto(n1.children[f], e.1.entries, ic));
      XmlVarsFor(node, e.1, ic);
    } else {
      var node, callback := b.Tag("var", LeafArgs(e), ic);
    }
  }

  // ---- The notice ------------------------------------------------------

  /** The `request` element: url, component and action, then the three
      variable areas that are non-empty. */
  function VarsPart(opts: Config, name: string, key: string, ic: IsCallable): seq<Node>
  {
    if !EmptyAt(opts, key) then [VarsInto(Container(name, []), ErrbitClient.Entries(Get(opts, key)), ic)] else []
  }

  function RequestHeads(opts: Config, ic: IsCallable): seq<Node>
  {
    [Leaf("url", Notice.OrBlank(opts, "url"), ic), Leaf("component", Notice.OrBlank(opts, "controller"), ic),
     Leaf("action", Notice.OrBlank(opts, "action"), ic)]
  }

  function RequestVars(opts: Config, ic: IsCallable): seq<Node>
  {
    VarsPart(opts, "params", "parameters", ic) + VarsPart(opts, "session", "session_data", ic)
    + VarsPart(opts, "cgi-data", "cgi_data", ic)
  }

  function RequestNode(opts: Config, ic: IsCallable): Node
  {
    Container("request", RequestHeads(opts, ic) + RequestVars(opts, ic))
  }

  function RequestPart(opts: Config, ic: IsCallable): seq<Node>
  {
    if Notice.WantsRequest(opts) then [RequestNode(opts, ic)] else []
  }

  function EnvNode(opts: Config, ic: IsCallable): Node
  {
    Container("server-environment", [Leaf("project-root", Get(opts, "project_root"), ic),
                                     Leaf("environment-name", Get(opts, "environment_name"), ic),
                                     Leaf("hostname", Get(opts, "hostname"), ic)])
  }

  function NoticeArgs(): seq<Arg>
  {
    [Val(VArr([(KStr("version"), VStr(API_VERSION))])), Closure("notice")]
  }

  function NoticeHeads(ex: Record, opts: Config, ic: IsCallable): seq<Node>
  {
    [Leaf("api-key", Get(opts, "api_key"), ic), NotifierNode(ic), ErrorNode(ex, ic)]
  }

  function NoticeKids(ex: Record, opts: Config, ic: IsCallable): seq<Node>
  {
    NoticeHeads(ex, opts, ic) + RequestPart(opts, ic) + [EnvNode(opts, ic)]
  }

  /** The `notice` element `asXml` serialises. */
  function NoticeNode(ex: Record, opts: Config, ic: IsCallable): Node
  {
    LibElement("notice", ParseArgs(NoticeArgs(), ic)).(children := NoticeKids(ex, opts, ic))
  }

  // ---- Building it -----------------------------------------------------

  /** `tag($name, function ...)` reads no value and no attributes. */
  lemma {:induction false} ClosureOnly(name: string, purpose: string, ic: IsCallable)
    ensures LibElement(name, ParseArgs([Closure(purpose)], ic)) == Container(name, [])
    ensures ParseArgs([Closure(purpose)], ic).callback == Some(Closure(purpose))
  {
    assert [Closure(purpose)][..0] == [];
  }

  /** Filling a container just added, and then closing it. */
  lemma {:induction false} CloseContainer(t: Node, p: Path, name: string, kids: seq<Node>)
    requires ValidPath(t, p)
    ensures ValidPath(AppendAt(t, p, [Container(name, [])]), p + [|At(t, p).children|])
    ensures AppendAt(AppendAt(t, p, [Container(name, [])]), p + [|At(t, p).children|], kids)
            == AppendAt(t, p, [Container(name, kids)])
  {
    NestedAppend(t, p, Container(name, []), kids);
    assert [] + kids == kids;
  }

  /** `tag($name, $value)` inside a callback that has already added `done`. */
  method AddLeaf(c: LibBuilder, ghost base: Node, ghost done: seq<Node>, name: string, v: Value, ic: IsCallable)
    requires c.Valid() && ValidPath(base, c.path) && c.doc.root == AppendAt(base, c.path, done)
    modifies c.doc
    ensures c.Valid() && c.doc.root == AppendAt(base, c.path, done + [Leaf(name, v, ic)])
  {
    var node, callback := c.Tag(name, [Val(v)], ic);
    AppendAppend(base, c.path, done, [Leaf(name, v, ic)]);
  }

  /** `tag($name, function ...)` at a builder whose element has no child of
      that name: a builder at the new, empty element. */
  method Open(b: LibBuilder, name: string, purpose: string, ic: IsCallable) returns (c: LibBuilder)
    requires b.Valid() && NoneNamed(b.Current().children, name)
    modifies b.doc
    ensures b.Valid() && c.doc == b.doc && c.Valid()
    ensures b.doc.root == AppendAt(old(b.doc.root), b.path, [Container(name, [])])
    ensures c.path == b.path + [|old(b.Current()).children|]
    ensures c.Current() == Container(name, []) && c.doc.root == AppendAt(c.doc.root, c.path, [])
  {
    ClosureOnly(name, purpose, ic);
    ghost var t0 := b.doc.root;
    var callback;
    c, callback := b.Tag(name, [Closure(purpose)], ic);
    AppendedChild(t0, b.path, Container(name, []));
    AppendNothing(c.doc.root, c.path);
  }

  /** The `notifier` callback. */
  method NotifierBlock(b: LibBuilder, ic: IsCallable)
    requires b.Valid() && NoneNamed(b.Current().children, "notifier")
    modifies b.doc
    ensures b.Valid() && b.doc.root == AppendAt(old(b.doc.root), b.path, [NotifierNode(ic)])
  {
    ghost var root0 := b.doc.root;
    var n := Open(b, "notifier", "notifier", ic);
    ghost var base := b.doc.root;
    ghost var done: seq<Node> := [];
    AddLeaf(n, base, done, "name", VStr(PROJECT_NAME), ic);
    done := done + [Leaf("name", VStr(PROJECT_NAME), ic)];
    AddLeaf(n, base, done, "version", VStr(VERSION), ic);
    done := done + [Leaf("version", VStr(VERSION), ic)];
    AddLeaf(n, base, done, "url", VStr(PROJECT_URL), ic);
    done := done + [Leaf("url", VStr(PROJECT_URL), ic)];
    CloseContainer(root0, b.path, "notifier", done);
    assert done == NotifierNode(ic).children;
  }

  /** The `backtrace` callback: `foreach` over the trace, one `line` each. */
  method BacktraceLoop(c: LibBuilder, ghost base: Node, trace: seq<Value>, ic: IsCallable)
    requires c.Valid() && ValidPath(base, c.path) && c.doc.root == AppendAt(base, c.path, [])
    modifies c.doc
    ensures c.Valid() && c.doc.root == AppendAt(base, c.path, Lines(trace, ic))
  {
    var i := 0;
    while i < |trace|
      invariant 0 <= i <= |trace|
      invariant c.Valid() && c.doc.root == AppendAt(base, c.path, Lines(trace[..i], ic))
    {
      assert trace[..i + 1][..i] == trace[..i];
      var node, callback := c.Tag("line", [Val(VArr(LineArgs(trace[i])))], ic);
      AppendAppend(base, c.path, Lines(trace[..i], ic), [LineElement(trace[i], ic)]);
      i := i + 1;
    }
    assert trace[..i] == trace;
  }

  /** The `error` callback: the raw class name, the raw message, the
      backtrace. */
  method ErrorBlock(b: LibBuilder, ex: Record, ic: IsCallable)
    requires b.Valid() && NoneNamed(b.Current().children, "error")
    modifies b.doc
    ensures b.Valid() && b.doc.root == AppendAt(old(b.doc.root), b.path, [ErrorNode(ex, ic)])
  {
    ghost var root0 := b.doc.root;
    var e := Open(b, "error", "error", ic);
    ghost var base := b.doc.root;
    ErrorHeadBlock(e, base, ex, ic);
    ghost var heads := ErrorHeads(ex, ic);
    BacktraceBlock(e, base, heads, ex.GetTrace(), ic);
    AppendAppend(base, e.path, heads, [Container("backtrace", Lines(ex.GetTrace(), ic))]);
    CloseContainer(root0, b.path, "error", heads + [Container("backtrace", Lines(ex.GetTrace(), ic))]);
  }

  method ErrorHeadBlock(e: LibBuilder, ghost base: Node, ex: Record, ic: IsCallable)
    requires e.Valid() && ValidPath(base, e.path) && e.doc.root == AppendAt(base, e.path, [])
    modifies e.doc
    ensures e.Valid() && e.doc.root == AppendAt(base, e.path, ErrorHeads(ex, ic))
  {
    ghost var done: seq<Node> := [];
    AddLeaf(e, base, done, "class", VStr(ex.className), ic);
    done := done + [Leaf("class", VStr(ex.className), ic)];
    AddLeaf(e, base, done, "message", VStr(ex.GetMessage()), ic);
    done := done + [Leaf("message", VStr(ex.GetMessage()), ic)];
    assert done == ErrorHeads(ex, ic);
  }

  method BacktraceBlock(e: LibBuilder, ghost base: Node, ghost done: seq<Node>, trace: seq<Value>, ic: IsCallable)
    requires e.Valid() && ValidPath(base, e.path) && e.doc.root == AppendAt(base, e.path, done)
    requires At(base, e.path).children == [] && NoneNamed(done, "backtrace")
    modifies e.doc
    ensures e.Valid() && e.doc.root == AppendAt(AppendAt(base, e.path, done), e.path, [Container("backtrace", Lines(trace, ic))])
  {
    ghost var root0 := e.doc.root;
    assert e.Current().children == done;
    var t := Open(e, "backtrace", "backtrace", ic);
    BacktraceLoop(t, e.doc.root, trace, ic);
    CloseContainer(root0, e.path, "backtrace", Lines(trace, ic));
  }

  /** `if (!empty($options[$key])) tag($name, function ... xmlVarsFor ...)`
      inside the `request` callback, after `done`. */
  method VarsBlock(r: LibBuilder, ghost base: Node, ghost done: seq<Node>, name: string, key: string, opts: Config, ic: IsCallable)
    requires r.Valid() && ValidPath(base, r.path) && r.doc.root == AppendAt(base, r.path, done)
    requires At(base, r.path).children == [] && NoneNamed(done, name)
    modifies r.doc
    ensures r.Valid() && r.doc.root == AppendAt(base, r.path, done + VarsPart(opts, name, key, ic))
  {
    if !EmptyAt(opts, key) {
      ghost var root0 := r.doc.root;
      assert r.Current().children == done;
      var c := Open(r, name, name, ic);
      ghost var y := VarsInto(Container(name, []), ErrbitClient.Entries(Get(opts, key)), ic);
      XmlVarsFor(c, Get(opts, key), ic);
      FillNewChild(root0, r.path, Container(name, []), y);
      AppendAppend(base, r.path, done, [y]);
    } else {
      assert done + [] == done;
    }
  }

  /** Each variable area is added to a `request` that has no element of
      its name yet. */
  lemma {:induction false} RequestNamesDistinct(opts: Config, ic: IsCallable)
    ensures var heads, params, session := RequestHeads(opts, ic), VarsPart(opts, "params", "parameters", ic),
              VarsPart(opts, "session", "session_data", ic);
            && NoneNamed(heads, "params") && NoneNamed(heads + params, "session")
            && NoneNamed(heads + params + session, "cgi-data")
  {
  }

  /** The url, component and action of the `request` callback. */
  method RequestHeadsBlock(r: LibBuilder, ghost base: Node, opts: Config, ic: IsCallable)
    requires r.Valid() && ValidPath(base, r.path) && r.doc.root == AppendAt(base, r.path, [])
    modifies r.doc
    ensures r.Valid() && r.doc.root == AppendAt(base, r.path, RequestHeads(opts, ic))
  {
    ghost var done: seq<Node> := [];
    AddLeaf(r, base, done, "url", Notice.OrBlank(opts, "url"), ic);
    done := done + [Leaf("url", Notice.OrBlank(opts, "url"), ic)];
    AddLeaf(r, base, done, "component", Notice.OrBlank(opts, "controller"), ic);
    done := done + [Leaf("component", Notice.OrBlank(opts, "controller"), ic)];
    AddLeaf(r, base, done, "action", Notice.OrBlank(opts, "action"), ic);
    done := done + [Leaf("action", Notice.OrBlank(opts, "action"), ic)];
    assert done == RequestHeads(opts, ic);
  }

  /** The three variable areas of the `request` callback. */
  method RequestVarsBlock(r: LibBuilder, ghost base: Node, opts: Config, ic: IsCallable)
    requires r.Valid() && ValidPath(base, r.path) && r.doc.root == AppendAt(base, r.path, RequestHeads(opts, ic))
    requires At(base, r.path).children == []
    modifies r.doc
    ensures r.Valid() && r.doc.root == AppendAt(base, r.path, RequestHeads(opts, ic) + RequestVars(opts, ic))
  {
    ghost var heads := RequestHeads(opts, ic);
    ghost var params := VarsPart(opts, "params", "parameters", ic);
    ghost var session := VarsPart(opts, "session", "session_data", ic);
    ghost var cgi := VarsPart(opts, "cgi-data", "cgi_data", ic);
    RequestNamesDistinct(opts, ic);
    VarsBlock(r, base, heads, "params", "parameters", opts, ic);
    VarsBlock(r, base, heads + params, "session", "session_data", opts, ic);
    VarsBlock(r, base, heads + params + session, "cgi-data", "cgi_data", opts, ic);
    assert heads + params + session + cgi == heads + RequestVars(opts, ic);
  }

  /** The `request` callback. */
  method RequestBlock(b: LibBuilder, opts: Config, ic: IsCallable)
    requires b.Valid() && NoneNamed(b.Current().children, "request")
    modifies b.doc
    ensures b.Valid() && b.doc.root == AppendAt(old(b.doc.root), b.path, [RequestNode(opts, ic)])
  {
    ghost var root0 := b.doc.root;
    var r := Open(b, "request", "request", ic);
    ghost var base := b.doc.root;
    RequestHeadsBlock(r, base, opts, ic);
    RequestVarsBlock(r, base, opts, ic);
    CloseContainer(root0, b.path, "request", RequestHeads(opts, ic) + RequestVars(opts, ic));
  }

  /** The `server-environment` callback. */
  method EnvBlock(b: LibBuilder, opts: Config, ic: IsCallable)
    requires b.Valid() && NoneNamed(b.Current().children, "server-environment")
    modifies b.doc
    ensures b.Valid() && b.doc.root == AppendAt(old(b.doc.root), b.path, [EnvNode(opts, ic)])
  {
    ghost var root0 := b.doc.root;
    var n := Open(b, "server-environment", "server-environment", ic);
    ghost var base := b.doc.root;
    ghost var done: seq<Node> := [];
    AddLeaf(n, base, done, "project-root", Get(opts, "project_root"), ic);
    done := done + [Leaf("project-root", Get(opts, "project_root"), ic)];
    AddLeaf(n, base, done, "environment-name", Get(opts, "environment_name"), ic);
    done := done + [Leaf("environment-name", Get(opts, "environment_name"), ic)];
    AddLeaf(n, base, done, "hostname", Get(opts, "hostname"), ic);
    done := done + [Leaf("hostname", Get(opts, "hostname"), ic)];
    CloseContainer(root0, b.path, "server-environment", done);
    assert done == EnvNode(opts, ic).children;
  }

  /** The api key, the notifier and the error, in the `notice` callback. */
  method NoticeHeadBlock(n: LibBuilder, ex: Record, opts: Config, ic: IsCallable)
    requires n.Valid() && n.Current().children == []
    modifies n.doc
    ensures n.Valid() && n.doc.root == AppendAt(old(n.doc.root), n.path, NoticeHeads(ex, opts, ic))
  {
    ghost var base := n.doc.root;
    AppendNothing(base, n.path);
    ghost var key := Leaf("api-key", Get(opts, "api_key"), ic);
    AddLeaf(n, base, [], "api-key", Get(opts, "api_key"), ic);
    assert [] + [key] == [key];
    ghost var t1 := n.doc.root;
    NotifierBlock(n, ic);
    AppendAppend(base, n.path, [key], [NotifierNode(ic)]);
    assert n.Current().children == [key, NotifierNode(ic)];
    ErrorBlock(n, ex, ic);
    AppendAppend(base, n.path, [key, NotifierNode(ic)], [ErrorNode(ex, ic)]);
    assert [key, NotifierNode(ic)] + [ErrorNode(ex, ic)] == NoticeHeads(ex, opts, ic);
  }

  /** The request (when one of its six options is set) and the server
      environment, in the `notice` callback. */
  method NoticeTailBlock(n: LibBuilder, ex: Record, opts: Config, ic: IsCallable)
    requires n.Valid() && n.Current().children == NoticeHeads(ex, opts, ic)
    modifies n.doc
    ensures n.Valid() && n.doc.root == AppendAt(old(n.doc.root), n.path, RequestPart(opts, ic) + [EnvNode(opts, ic)])
  {
    ghost var base := n.doc.root;
    if Notice.WantsRequest(opts) {
      RequestBlock(n, opts, ic);
    } else {
      AppendNothing(base, n.path);
    }
    assert n.Current().children == NoticeHeads(ex, opts, ic) + RequestPart(opts, ic);
    EnvBlock(n, opts, ic);
    AppendAppend(base, n.path, RequestPart(opts, ic), [EnvNode(opts, ic)]);
  }

  /** The `notice` callback. */
  method NoticeBody(n: LibBuilder, ex: Record, opts: Config, ic: IsCallable)
    requires n.Valid() && n.Current().children == []
    modifies n.doc
    ensures n.Valid() && n.doc.root == AppendAt(old(n.doc.root), n.path, NoticeKids(ex, opts, ic))
  {
    ghost var root1 := n.doc.root;
    NoticeHeadBlock(n, ex, opts, ic);
    NoticeTailBlock(n, ex, opts, ic);
    AppendAppend(root1, n.path, NoticeHeads(ex, opts, ic), RequestPart(opts, ic) + [EnvNode(opts, ic)]);
    assert NoticeHeads(ex, opts, ic) + (RequestPart(opts, ic) + [EnvNode(opts, ic)]) == NoticeKids(ex, opts, ic);
  }

  /** An Errbit_Notice: the exception and the merged options, which
      `_filterData` leaves as they are. */
  class ErrbitNotice {
    const exception: Record
    const options: Config

    /** `new Errbit_Notice($exception, $options)` */
    constructor(exception: Record, rt: Notice.Runtime, caller: Config)
      ensures this.exception == exception && options == LibMergedOptions(rt, caller)
    {
      this.exception := exception;
      options := LibMergedOptions(rt, caller);
    }

    /** `Errbit_Notice::forException($exception, $options)` */
    static method ForException(exception: Record, rt: Notice.Runtime, caller: Config) returns (n: ErrbitNotice)
      ensures fresh(n) && n.exception == exception && n.options == LibMergedOptions(rt, caller)
    {
      n := new ErrbitNotice(exception, rt, caller);
    }

    /** `asXml()`: a fresh builder, the `notice` element with its version
        and its body, and that element's markup. */
    method AsXml(ic: IsCallable) returns (xml: string)
      ensures xml == Markup(NoticeNode(exception, options, ic))
    {
      var b := new LibBuilder();
      ghost var root0 := b.doc.root;
      var n, callback := b.Tag("notice", NoticeArgs(), ic);
      ghost var el := LibElement("notice", ParseArgs(NoticeArgs(), ic));
      AppendedChild(root0, [], el);
      NoticeBody(n, exception, options, ic);
      ghost var kids := NoticeKids(exception, options, ic);
      assert [] + kids == kids;
      assert n.Current() == NoticeNode(exception, options, ic);
      xml := n.AsXml();
    }
  }

  // ---- What the document holds -------------------------------------------

  function Names(cs: seq<Node>): (r: seq<string>)
    ensures |r| == |cs| && forall i :: 0 <= i < |cs| ==> r[i] == cs[i].name
  {
    seq(|cs|, i requires 0 <= i < |cs| => cs[i].name)
  }

  lemma {:induction false} NamesConcat(a: seq<Node>, b: seq<Node>)
    ensures Names(a + b) == Names(a) + Names(b)
  {
  }

  /** One argument is read from the defaults. */
  lemma {:induction false} ParseOne(a: Arg, ic: IsCallable)
    ensures ParseArgs([a], ic) == ReadArg(Parsed("", [], None), a, ic)
  {
    assert [a][..0] == [];
  }

  /** A one-value tag: a string is the text; an array that is not callable
      gives the attributes; any other value that is not callable is
      dropped. */
  lemma {:induction false} LeafCases(name: string, v: Value, ic: IsCallable)
    ensures v.VStr? ==> Leaf(name, v, ic) == Node(name, v.s, [], [])
    ensures v.VArr? && !ic(v) ==> Leaf(name, v, ic) == Node(name, "", LibAttrs(v.entries), [])
    ensures !v.VStr? && !v.VArr? && !ic(v) ==> Leaf(name, v, ic) == Node(name, "", [], [])
  {
    ParseOne(Val(v), ic);
  }

  /** Three attributes of distinct names, set in order. */
  lemma {:induction false} LibAttrsThree(a: (Key, Value), b: (Key, Value), c: (Key, Value))
    requires a.0.KStr? && b.0.KStr? && c.0.KStr? && a.0.s != "" && b.0.s != "" && c.0.s != ""
    requires a.0.s != b.0.s && a.0.s != c.0.s && b.0.s != c.0.s
    ensures LibAttrs([a, b, c]) == [(a.0.s, ToStr(a.1)), (b.0.s, ToStr(b.1)), (c.0.s, ToStr(c.1))]
  {
    assert [a, b, c][..2] == [a, b] && [a, b][..1] == [a] && [a][..0] == [];
    assert LibAttrs([a]) == [(a.0.s, ToStr(a.1))];
    assert LibAttrs([a, b]) == [(a.0.s, ToStr(a.1)), (b.0.s, ToStr(b.1))];
  }

  /** The attributes of a backtrace line: the frame's line (0 when unset),
      its file ("<unknown>" when unset) and its method. */
  lemma {:induction false} LineLayout(frame: Value, ic: IsCallable)
    ensures LineElement(frame, ic) == Node("line", "", [("number", ToStr(IssetOr(frame, "line", VInt(0)))),
                                                      ("file", ToStr(IssetOr(frame, "file", VStr("<unknown>")))),
                                                      ("method", Notice.FormatMethod(frame))], [])
  {
    var a := LineArgs(frame);
    ParseOne(Val(VArr(a)), ic);
    LibAttrsThree(a[0], a[1], a[2]);
    assert a == [a[0], a[1], a[2]];
  }

  /** The backtrace has exactly one line per frame, in order; an empty
      trace gives an empty backtrace. */
  lemma {:induction false} LinesOnePerFrame(trace: seq<Value>, ic: IsCallable, i: nat)
    requires i < |trace|
    ensures Lines(trace, ic)[i] == LineElement(trace[i], ic)
    decreases |trace|
  {
    var init := trace[..|trace| - 1];
    if i < |trace| - 1 {
      assert init[i] == trace[i];
      LinesOnePerFrame(init, ic, i);
    }
  }

  /** The error element: the raw class name, the raw message, and the
      backtrace. */
  lemma {:induction false} ErrorLayout(ex: Record, ic: IsCallable)
    ensures var e := ErrorNode(ex, ic);
            && Names(e.children) == ["class", "message", "backtrace"]
            && e.children[0].text == ex.className && e.children[1].text == ex.GetMessage()
            && e.children[2].children == Lines(ex.GetTrace(), ic)
            && (ex.GetTrace() == [] ==> e.children[2].children == [])
  {
    var hs := ErrorHeads(ex, ic);
    var kids := hs + [Container("backtrace", Lines(ex.GetTrace(), ic))];
    assert ErrorNode(ex, ic).children == kids;
    assert kids == [hs[0], hs[1], kids[2]];
    Names3(hs[0], hs[1], kids[2]);
    LeafCases("class", VStr(ex.className), ic);
    LeafCases("message", VStr(ex.GetMessage()), ic);
  }

  lemma {:induction false} NoticeArgsParsed(ic: IsCallable)
    ensures ParseArgs(NoticeArgs(), ic) == Parsed("", [(KStr("version"), VStr(API_VERSION))], Some(Closure("notice")))
  {
    var version := [(KStr("version"), VStr(API_VERSION))];
    assert NoticeArgs()[..1] == [Val(VArr(version))];
    ParseOne(Val(VArr(version)), ic);
  }

  /** The notice element carries the API version. */
  lemma {:induction false} NoticeVersion(ex: Record, opts: Config, ic: IsCallable)
    ensures var n := NoticeNode(ex, opts, ic);
            n.name == "notice" && n.text == "" && n.attrs == [("version", API_VERSION)]
  {
    NoticeArgsParsed(ic);
    var version := [(KStr("version"), VStr(API_VERSION))];
    assert version[..0] == [];
    assert LibAttrs(version) == [("version", API_VERSION)];
  }

  /** The order of the notice's children: api-key, notifier, error, the
      request exactly when one of its six options is non-empty, and the
      server environment always. */
  lemma {:induction false} NoticeLayout(ex: Record, opts: Config, ic: IsCallable)
    ensures Names(NoticeNode(ex, opts, ic).children)
            == ["api-key", "notifier", "error"] + (if Notice.WantsRequest(opts) then ["request"] else []) + ["server-environment"]
  {
    var heads, req, env := NoticeHeads(ex, opts, ic), RequestPart(opts, ic), [EnvNode(opts, ic)];
    NamesConcat(heads, req);
    NamesConcat(heads + req, env);
    assert Names(heads) == ["api-key", "notifier", "error"];
    assert Names(req) == if Notice.WantsRequest(opts) then ["request"] else [];
  }

  /** The name of an optional element: present exactly when the option is
      non-empty. */
  function NameIfSet(opts: Config, key: string, name: string): seq<string>
  {
    if !EmptyAt(opts, key) then [name] else []
  }

  /** The children of the request: url, component and action, each blank
      unless set, then each non-empty variable area. */
  lemma {:induction false} RequestLayout(opts: Config, ic: IsCallable)
    ensures Names(RequestNode(opts, ic).children)
            == ["url", "component", "action"] + NameIfSet(opts, "parameters", "params")
               + NameIfSet(opts, "session_data", "session") + NameIfSet(opts, "cgi_data", "cgi-data")
  {
    var heads, vars := RequestHeads(opts, ic), RequestVars(opts, ic);
    assert RequestNode(opts, ic).children == heads + vars;
    NamesConcat(heads, vars);
    RequestVarsNames(opts, ic);
    Names3(heads[0], heads[1], heads[2]);
    assert heads == [heads[0], heads[1], heads[2]];
    ConcatThree(["url", "component", "action"], NameIfSet(opts, "parameters", "params"),
                NameIfSet(opts, "session_data", "session"), NameIfSet(opts, "cgi_data", "cgi-data"));
  }

  lemma {:induction false} ConcatThree<T>(h: seq<T>, x: seq<T>, y: seq<T>, z: seq<T>)
    ensures h + x + y + z == h + (x + y + z)
  {
  }

  lemma {:induction false} Names3(a: Node, b: Node, c: Node)
    ensures Names([a, b, c]) == [a.name, b.name, c.name]
  {
  }

  /** The variable areas of the request, in order, each when non-empty. */
  lemma {:induction false} RequestVarsNames(opts: Config, ic: IsCallable)
    ensures Names(RequestVars(opts, ic)) == NameIfSet(opts, "parameters", "params")
                                            + NameIfSet(opts, "session_data", "session") + NameIfSet(opts, "cgi_data", "cgi-data")
  {
    var p, s, c := VarsPart(opts, "params", "parameters", ic), VarsPart(opts, "session", "session_data", ic),
                   VarsPart(opts, "cgi-data", "cgi_data", ic);
    VarsPartName(opts, "params", "parameters", ic);
    VarsPartName(opts, "session", "session_data", ic);
    VarsPartName(opts, "cgi-data", "cgi_data", ic);
    NamesConcat(p, s);
    NamesConcat(p + s, c);
  }

  /** A variable area is one element of its name, or none when empty. */
  lemma {:induction false} VarsPartName(opts: Config, name: string, key: string, ic: IsCallable)
    ensures Names(VarsPart(opts, name, key, ic)) == NameIfSet(opts, key, name)
  {
  }

  /** A notice built from the runtime alone never reports the session:
      unless the caller passes "session_data", the request has no
      `session` element, whatever `$_SESSION` holds. */
  lemma {:induction false} SessionNeverFromRuntime(rt: Notice.Runtime, caller: Config, ic: IsCallable)
    requires "session_data" !in caller
    ensures "session" !in Names(RequestNode(LibMergedOptions(rt, caller), ic).children)
  {
    RuntimeSessionUnused(rt, caller);
    RequestLayout(LibMergedOptions(rt, caller), ic);
  }

  /** Two array-valued parameters: the second one's value lands in the
      first `var`, and the second `var` stays empty. */
  lemma {:induction false} TwoArraysShareFirstVar(ic: IsCallable)
    ensures var es := [(KStr("a"), VArr([(KInt(0), VStr("x"))])), (KStr("b"), VArr([(KInt(0), VStr("y"))]))];
            var r := VarsInto(Container("params", []), es, ic);
            |r.children| == 2 && r.children[1].children == [] && |r.children[0].children| == 2
  {
    var es := [(KStr("a"), VArr([(KInt(0), VStr("x"))])), (KStr("b"), VArr([(KInt(0), VStr("y"))]))];
    var r := VarsInto(Container("params", []), es, ic);
    OnlyFirstVarNests("params", es, ic);
    var n1 := EntryInto(Container("params", []), es[0], ic);
    assert es[1..][1..] == [];
    assert r == EntryInto(n1, es[1], ic);
    var x := LibElement("var", ParseArgs(VarArgs(KStr("a")), ic));
    FirstNamedAppend([], x);
    assert [] + [x] == [x];
    assert |n1.children| == 1 && n1.children[0].name == "var" && |n1.children[0].children| == 1;
    FirstNamedAppend(n1.children, LibElement("var", ParseArgs(VarArgs(KStr("b")), ic)));
  }
}
