/** The older builder of lib/Errbit/XmlBuilder.php.  Unlike the builder of
    src/, `tag` takes its value, attributes and callback in any order; the
    builder it returns (and hands to the callback) sits at the FIRST child of
    the given name, not at the child just added; and `asXml` returns the raw
    markup, without filtering characters XML forbids. */
module LibXmlBuilder {
  import opened Wrappers
  import opened PhpValues
  import opened SimpleXml

  /** An argument of `tag` after the name: a PHP value, or one of the
      closures the notifier writes itself (always callable). */
  datatype Arg = Val(v: Value) | Closure(purpose: string)

  /** How `tag` reads one argument: strings are the value, callables the
      callback, other arrays the attributes; anything else is dropped. */
  datatype Role = AsValue | AsCallback | AsAttributes | Ignored

  /** `is_callable`: which values PHP can call depends on the functions
      and classes loaded, so it is a parameter; only strings, objects and
      arrays of two entries (a class or object and a method name) can be
      callable. */
  type IsCallable = f: Value -> bool | forall v :: f(v) ==> v.VStr? || v.VObj? || (v.VArr? && |v.entries| == 2)
    witness (v: Value) => false

  function RoleOf(a: Arg, isCallable: IsCallable): Role
  {
    match a
    case Closure(_) => AsCallback
    case Val(v) =>
      if v.VStr? then AsValue
      else if isCallable(v) then AsCallback
      else if v.VArr? then AsAttributes
      else Ignored
  }

  /** What the argument loop leaves: `$value`, `$attributes`, `$callback`. */
  datatype Parsed = Parsed(value: string, attributes: seq<(Key, Value)>, callback: Option<Arg>)

  function ReadArg(p: Parsed, a: Arg, isCallable: IsCallable): Parsed
  {
    match RoleOf(a, isCallable)
    case AsValue => p.(value := a.v.s)
    case AsCallback => p.(callback := Some(a))
    case AsAttributes => p.(attributes := a.v.entries)
    case Ignored => p
  }

  /** The arguments read in order, from `''`, `array()` and `null`. */
  function ParseArgs(args: seq<Arg>, isCallable: IsCallable): Parsed
    decreases |args|
  {
    if args == [] then Parsed("", [], None)
    else ReadArg(ParseArgs(args[..|args| - 1], isCallable), args[|args| - 1], isCallable)
  }

  /** The position of the last argument read in the given role. */
  function LastInRole(args: seq<Arg>, isCallable: IsCallable, role: Role): (r: Option<nat>)
    ensures r.Some? ==> r.value < |args| && RoleOf(args[r.value], isCallable) == role
    ensures r.Some? ==> forall j :: r.value < j < |args| ==> RoleOf(args[j], isCallable) != role
    ensures r.None? ==> forall j :: 0 <= j < |args| ==> RoleOf(args[j], isCallable) != role
    decreases |args|
  {
    if args == [] then None
    else if RoleOf(args[|args| - 1], isCallable) == role then Some(|args| - 1)
    else LastInRole(args[..|args| - 1], isCallable, role)
  }

  /** The last string argument is the value; with none it stays `''`. */
  lemma {:induction false} ParseArgsLastValue(args: seq<Arg>, isCallable: IsCallable)
    ensures ParseArgs(args, isCallable).value == match LastInRole(args, isCallable, AsValue)
                                                 case Some(i) => args[i].v.s
                                                 case None => ""
    decreases |args|
  {
    if args != [] {
      var init := args[..|args| - 1];
      ParseArgsLastValue(init, isCallable);
      assert forall j :: 0 <= j < |init| ==> init[j] == args[j];
    }
  }

  /** The last array argument that is not callable is the attributes;
      with none they stay `array()`. */
  lemma {:induction false} ParseArgsLastAttributes(args: seq<Arg>, isCallable: IsCallable)
    ensures ParseArgs(args, isCallable).attributes == match LastInRole(args, isCallable, AsAttributes)
                                                      case Some(i) => args[i].v.entries
                                                      case None => []
    decreases |args|
  {
    if args != [] {
      var init := args[..|args| - 1];
      ParseArgsLastAttributes(init, isCallable);
      assert forall j :: 0 <= j < |init| ==> init[j] == args[j];
    }
  }

  /** The last callable argument is the callback; with none it stays
      `null`. */
  lemma {:induction false} ParseArgsLastCallback(args: seq<Arg>, isCallable: IsCallable)
    ensures ParseArgs(args, isCallable).callback == match LastInRole(args, isCallable, AsCallback)
                                                    case Some(i) => Some(args[i])
                                                    case None => None
    decreases |args|
  {
    if args != [] {
      var init := args[..|args| - 1];
      ParseArgsLastCallback(init, isCallable);
      assert forall j :: 0 <= j < |init| ==> init[j] == args[j];
    }
  }

  /** The argument loop of `tag`. */
  method ReadArgs(args: seq<Arg>, isCallable: IsCallable) returns (p: Parsed)
    ensures p == ParseArgs(args, isCallable)
  {
    p := Parsed("", [], None);
    var i := 0;
    while i < |args|
      invariant 0 <= i <= |args|
      invariant p == ParseArgs(args[..i], isCallable)
    {
      assert args[..i + 1][..i] == args[..i];
      var a := args[i];
      match a {
        case Closure(_) =>
          p := p.(callback := Some(a));
        case Val(v) =>
          if v.VStr? {
            p := p.(value := v.s);
          } else if isCallable(v) {
            p := p.(callback := Some(a));
          } else if v.VArr? {
            p := p.(attributes := v.entries);
          }
      }
      i := i + 1;
    }
    assert args[..i] == args;
  }

  /** `$element[$attr] = $v` for each entry: a non-empty string key sets
      the attribute to the value cast to a string.  (Integer keys address
      elements rather than attributes and are not modelled.) */
  function LibAttrs(attributes: seq<(Key, Value)>): seq<(string, string)>
    decreases |attributes|
  {
    if attributes == [] then []
    else
      var attrs := LibAttrs(attributes[..|attributes| - 1]);
      var entry := attributes[|attributes| - 1];
      if entry.0.KStr? && entry.0.s != "" then SetAttr(attrs, entry.0.s, ToStr(entry.1)) else attrs
  }

  /** The element never has two attributes of one name. */
  lemma {:induction false} LibAttrsDistinct(attributes: seq<(Key, Value)>)
    ensures DistinctNames(LibAttrs(attributes))
    decreases |attributes|
  {
    if attributes != [] {
      var init := attributes[..|attributes| - 1];
      var entry := attributes[|attributes| - 1];
      LibAttrsDistinct(init);
      if entry.0.KStr? && entry.0.s != "" {
        SetAttrKeepsDistinct(LibAttrs(init), entry.0.s, ToStr(entry.1));
      }
    }
  }

  /** The element has an attribute exactly for each non-empty string key. */
  lemma {:induction false} LibAttrsNames(attributes: seq<(Key, Value)>, n: string)
    ensures AttrValue(LibAttrs(attributes), n).Some? <==>
            n != "" && exists i :: 0 <= i < |attributes| && attributes[i].0 == KStr(n)
    decreases |attributes|
  {
    if attributes != [] {
      var init := attributes[..|attributes| - 1];
      var entry := attributes[|attributes| - 1];
      LibAttrsNames(init, n);
      if entry.0.KStr? && entry.0.s != "" && entry.0.s != n {
        SetAttrKeepsOthers(LibAttrs(init), entry.0.s, ToStr(entry.1), n);
      }
      if exists i :: 0 <= i < |attributes| && attributes[i].0 == KStr(n) {
        var i :| 0 <= i < |attributes| && attributes[i].0 == KStr(n);
        if i < |init| {
          assert init[i] == attributes[i];
        }
      }
      if exists i :: 0 <= i < |init| && init[i].0 == KStr(n) {
        var i :| 0 <= i < |init| && init[i].0 == KStr(n);
        assert attributes[i] == init[i];
      }
    }
  }

  /** The attribute of the last entry with a given string key holds that
      entry's value as a string. */
  lemma {:induction false} LibAttrsLastValue(attributes: seq<(Key, Value)>, i: nat)
    requires i < |attributes| && attributes[i].0.KStr? && attributes[i].0.s != ""
    requires forall j :: i < j < |attributes| ==> attributes[j].0 != attributes[i].0
    ensures AttrValue(LibAttrs(attributes), attributes[i].0.s) == Some(ToStr(attributes[i].1))
    decreases |attributes|
  {
    var init := attributes[..|attributes| - 1];
    var entry := attributes[|attributes| - 1];
    if i < |attributes| - 1 {
      assert init[i] == attributes[i];
      assert forall j :: i < j < |init| ==> init[j] == attributes[j];
      LibAttrsLastValue(init, i);
      if entry.0.KStr? && entry.0.s != "" {
        SetAttrKeepsOthers(LibAttrs(init), entry.0.s, ToStr(entry.1), attributes[i].0.s);
      }
    }
  }

  /** The attribute loop of `tag`. */
  method SetAttributes(attributes: seq<(Key, Value)>) returns (attrs: seq<(string, string)>)
    ensures attrs == LibAttrs(attributes)
  {
    attrs := [];
    var i := 0;
    while i < |attributes|
      invariant 0 <= i <= |attributes|
      invariant attrs == LibAttrs(attributes[..i])
    {
      var entry := attributes[i];
      assert attributes[..i + 1][..i] == attributes[..i];
      if entry.0.KStr? && entry.0.s != "" {
        attrs := SetAttr(attrs, entry.0.s, ToStr(entry.1));
      }
      i := i + 1;
    }
    assert attributes[..i] == attributes;
  }

  /** The element `tag` adds: the value as text, then the attributes. */
  function LibElement(name: string, p: Parsed): Node
  {
    Node(name, p.value, LibAttrs(p.attributes), [])
  }

  predicate NoneNamed(cs: seq<Node>, name: string)
  {
    forall j :: 0 <= j < |cs| ==> cs[j].name != name
  }

  /** The index of the first child called `name` (`|cs|` when there is
      none): what `$this->_xml->$name` designates. */
  function FirstNamed(cs: seq<Node>, name: string): (r: nat)
    ensures r <= |cs|
    ensures r < |cs| ==> cs[r].name == name
    ensures forall j :: 0 <= j < r ==> cs[j].name != name
    ensures r == |cs| <==> NoneNamed(cs, name)
    decreases |cs|
  {
    if cs == [] then 0
    else if cs[0].name == name then 0
    else 1 + FirstNamed(cs[1..], name)
  }

  /** Adding a child never moves the first child of a name; with none
      before, the first one is the one added. */
  lemma {:induction false} FirstNamedAppend(cs: seq<Node>, x: Node)
    ensures NoneNamed(cs, x.name) ==> FirstNamed(cs + [x], x.name) == |cs|
    ensures !NoneNamed(cs, x.name) ==> FirstNamed(cs + [x], x.name) == FirstNamed(cs, x.name)
  {
    var r := FirstNamed(cs + [x], x.name);
    assert (cs + [x])[|cs|] == x;
    assert forall j :: 0 <= j < |cs| ==> (cs + [x])[j] == cs[j];
  }

  /** Editing the first `var` child after appending one is one edit of
      the element at `p`. */
  lemma {:induction false} ReplaceChild(t: Node, p: Path, n1: Node, f: nat, y: Node)
    requires ValidPath(t, p) && f < |n1.children|
    ensures ValidPath(ReplaceAt(t, p, n1), p + [f])
    ensures At(ReplaceAt(t, p, n1), p + [f]) == n1.children[f]
    ensures ReplaceAt(ReplaceAt(t, p, n1), p + [f], y) == ReplaceAt(t, p, n1.(children := n1.children[f := y]))
  {
    var t1 := ReplaceAt(t, p, n1);
    assert [f][1..] == [];
    assert ValidPath(n1, [f]);
    assert At(n1, [f]) == At(n1.children[f], []) == n1.children[f];
    AtConcat(t1, p, [f]);
    ReplaceAtConcat(t1, p, [f], y);
    assert ReplaceAt(n1, [f], y) == n1.(children := n1.children[f := y]) by {
      assert [f][1..] == [];
    }
    ReplaceTwice(t, p, n1, n1.(children := n1.children[f := y]));
  }

  /** Filling a newly appended element is appending the filled element. */
  lemma {:induction false} FillNewChild(t: Node, p: Path, leaf: Node, y: Node)
    requires ValidPath(t, p)
    ensures ValidPath(AppendAt(t, p, [leaf]), p + [|At(t, p).children|])
    ensures ReplaceAt(AppendAt(t, p, [leaf]), p + [|At(t, p).children|], y) == AppendAt(t, p, [y])
  {
    var n := At(t, p);
    var n1 := n.(children := n.children + [leaf]);
    ReplaceChild(t, p, n1, |n.children|, y);
    assert n1.children[|n.children| := y] == n.children + [y];
  }

  /** An Errbit_XmlBuilder: the document and the element it wraps. */
  class LibBuilder {
    const doc: Document
    const path: Path

    predicate Valid()
      reads doc
    {
      ValidPath(doc.root, path)
    }

    function Current(): Node
      reads doc
      requires Valid()
    {
      At(doc.root, path)
    }

    /** `new Errbit_XmlBuilder()`: a fresh `<__ErrbitXMLBuilder__/>`. */
    constructor()
      ensures fresh(doc) && path == [] && Valid()
      ensures doc.root == Node(RootName, "", [], [])
    {
      doc := new Document(Node(RootName, "", [], []));
      path := [];
    }

    /** `new self($xml)` over an element that exists. */
    constructor Over(doc: Document, path: Path)
      requires ValidPath(doc.root, path)
      ensures this.doc == doc && this.path == path && Valid()
    {
      this.doc := doc;
      this.path := path;
    }

    /** `tag($name, ...$args)`: append a child with the value and the
        attributes the arguments give, and return a builder at the first
        child of that name (the new one only when there was none before),
        with the callback, if any, for the caller to run on it.  The
        assignment at index `count($this->_xml->$name)` always adds a new
        child at the end. */
    method Tag(name: string, args: seq<Arg>, isCallable: IsCallable) returns (node: LibBuilder, callback: Option<Arg>)
      requires Valid()
      modifies doc
      ensures Valid()
      ensures doc.root == AppendAt(old(doc.root), path, [LibElement(name, ParseArgs(args, isCallable))])
      ensures callback == ParseArgs(args, isCallable).callback
      ensures node.doc == doc && node.Valid()
      ensures NoneNamed(old(Current()).children, name) ==> node.path == path + [|old(Current()).children|]
      ensures !NoneNamed(old(Current()).children, name) ==> node.path == path + [FirstNamed(old(Current()).children, name)]
    {
      var p := ReadArgs(args, isCallable);
      var attrs := SetAttributes(p.attributes);
      var siblings := Current().children;
      var element := Node(name, p.value, attrs, []);
      ghost var before := doc.root;
      doc.root := AppendAt(doc.root, path, [element]);
      FirstNamedAppend(siblings, element);
      var first := FirstNamed(Current().children, name);
      assert ValidPath(At(doc.root, path), [first]) by {
        assert [first][1..] == [];
      }
      AtConcat(doc.root, path, [first]);
      node := new LibBuilder.Over(doc, path + [first]);
      callback := p.callback;
    }

    /** `attribute($name, $value)`: set an attribute of this element to
        the value cast to a string; an empty name changes nothing.
        Returns this builder. */
    method Attribute(name: string, value: Value) returns (self: LibBuilder)
      requires Valid()
      modifies doc
      ensures self == this && Valid()
      ensures name == "" ==> doc.root == old(doc.root)
      ensures name != "" ==> doc.root == ReplaceAt(old(doc.root), path,
                old(Current()).(attrs := SetAttr(old(Current()).attrs, name, ToStr(value))))
    {
      if name != "" {
        var n := Current();
        doc.root := ReplaceAt(doc.root, path, n.(attrs := SetAttr(n.attrs, name, ToStr(value))));
      }
      self := this;
    }

    /** `asXml()`: the markup of this element, the whole document with
        its declaration for a builder at the root; nothing is filtered. */
    function AsXml(): string
      reads doc
      requires Valid()
    {
      if path == [] then DocumentMarkup(doc.root) else Markup(Current())
    }
  }

  /** A second `tag` of one name hands back the builder of the first
      element of that name, whatever the first element holds. */
  lemma {:induction false} SecondTagReturnsFirst(cs: seq<Node>, x: Node, y: Node)
    requires NoneNamed(cs, x.name) && y.name == x.name
    ensures FirstNamed(cs + [x], x.name) == |cs|
    ensures FirstNamed(cs + [x] + [y], x.name) == |cs|
  {
    FirstNamedAppend(cs, x);
    FirstNamedAppend(cs + [x], y);
  }
}
