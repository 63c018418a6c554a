/** src/Errbit/Utils/XmlBuilder.php: a builder positioned at one element of a
    SimpleXML document.  `tag` appends a child element and returns a builder
    for it; the callbacks the source hands to `tag` are modelled by the caller
    going on with the returned builder. */
module XmlBuilder {
  import opened Wrappers
  import opened PhpValues
  import opened SimpleXml

  /** `normalizeValue`: the string a value becomes as element text or
      attribute value. */
  function NormalizeValue(heap: Heap, v: Value): string
  {
    match v
    case VObj(id) =>
      var o := Deref(heap, id);
      if o.asString.Some? then o.asString.value else "[" + o.cls + "]"
    case VBool(b) => if b then "true" else "false"
    case VNull => ""
    case VRes(kind) => "[resource:" + kind + "]"
    case VArr(_) => "[array]"
    case VInt(i) => IntToString(i)
    case VStr(s) => s
  }

  /** Null, integers and strings normalise to their PHP string cast; booleans
      are spelt out instead of being cast to "1" or "". */
  lemma {:induction false} NormalizeValueVersusCast(heap: Heap, v: Value)
    ensures (v.VNull? || v.VInt? || v.VStr?) ==> NormalizeValue(heap, v) == ToStr(v)
    ensures v.VBool? ==> NormalizeValue(heap, v) != ToStr(v) && NormalizeValue(heap, v) != ""
  {
  }

  /** Arrays, resources and objects without `__toString` are written as a
      bracketed placeholder. */
  lemma {:induction false} NormalizeValuePlaceholders(heap: Heap, v: Value)
    requires v.VArr? || v.VRes? || (v.VObj? && Deref(heap, v.id).asString.None?)
    ensures var s := NormalizeValue(heap, v); |s| >= 2 && s[0] == '[' && s[|s| - 1] == ']'
  {
  }

  /** The attributes `tag` gives a new element: every entry of `$attributes`
      whose name is a non-empty string, in order, with its value normalised. */
  function TagAttrs(heap: Heap, attributes: seq<(Key, Value)>): seq<(string, string)>
    decreases |attributes|
  {
    if attributes == [] then []
    else
      var prev := TagAttrs(heap, attributes[..|attributes| - 1]);
      var entry := attributes[|attributes| - 1];
      if entry.0.KStr? && entry.0.s != "" then SetAttr(prev, entry.0.s, NormalizeValue(heap, entry.1)) else prev
  }

  predicate DistinctKeys(es: seq<(Key, Value)>)
  {
    forall i, j :: 0 <= i < j < |es| ==> es[i].0 != es[j].0
  }

  /** An element never gets two attributes of one name. */
  lemma {:induction false} TagAttrsDistinct(heap: Heap, attributes: seq<(Key, Value)>)
    ensures DistinctNames(TagAttrs(heap, attributes))
    decreases |attributes|
  {
    if attributes != [] {
      var init := attributes[..|attributes| - 1];
      var entry := attributes[|attributes| - 1];
      TagAttrsDistinct(heap, init);
      if entry.0.KStr? && entry.0.s != "" {
        SetAttrKeepsDistinct(TagAttrs(heap, init), entry.0.s, NormalizeValue(heap, entry.1));
      }
    }
  }

  /** An element gets exactly the attributes named by non-empty string keys. */
  lemma {:induction false} TagAttrsNames(heap: Heap, attributes: seq<(Key, Value)>, n: string)
    ensures AttrValue(TagAttrs(heap, attributes), n).Some?
            <==> n != "" && exists i :: 0 <= i < |attributes| && attributes[i].0 == KStr(n)
    decreases |attributes|
  {
    if attributes != [] {
      var init := attributes[..|attributes| - 1];
      var entry := attributes[|attributes| - 1];
      TagAttrsNames(heap, init, n);
      assert forall i :: 0 <= i < |init| ==> init[i] == attributes[i];
      if entry.0.KStr? && entry.0.s != "" && n != entry.0.s {
        SetAttrKeepsOthers(TagAttrs(heap, init), entry.0.s, NormalizeValue(heap, entry.1), n);
      }
    }
  }

  /** With distinct keys, as a PHP array has, each attribute holds the
      normalised value given for it. */
  lemma {:induction false} TagAttrsValue(heap: Heap, attributes: seq<(Key, Value)>, i: nat)
    requires DistinctKeys(attributes) && i < |attributes|
    requires attributes[i].0.KStr? && attributes[i].0.s != ""
    ensures AttrValue(TagAttrs(heap, attributes), attributes[i].0.s) == Some(NormalizeValue(heap, attributes[i].1))
    decreases |attributes|
  {
    var init := attributes[..|attributes| - 1];
    var entry := attributes[|attributes| - 1];
    var n := attributes[i].0.s;
    if i < |attributes| - 1 {
      assert forall j :: 0 <= j < |init| ==> init[j] == attributes[j];
      TagAttrsValue(heap, init, i);
      assert entry.0 != attributes[i].0;
      if entry.0.KStr? && entry.0.s != "" {
        SetAttrKeepsOthers(TagAttrs(heap, init), entry.0.s, NormalizeValue(heap, entry.1), n);
      }
    }
  }

  /** The element `tag($name, $value, $attributes)` appends. */
  function Element(heap: Heap, name: string, value: Value, attributes: seq<(Key, Value)>): Node
  {
    Node(name, NormalizeValue(heap, value), TagAttrs(heap, attributes), [])
  }

  /** The index of the last child called `name`, which is what the XPath
      `name[last()]` selects among the children. */
  function LastNamed(cs: seq<Node>, name: string): (r: Option<nat>)
    ensures r.Some? ==> r.value < |cs| && cs[r.value].name == name
    ensures r.Some? ==> forall j :: r.value < j < |cs| ==> cs[j].name != name
    ensures r.None? ==> forall j :: 0 <= j < |cs| ==> cs[j].name != name
  {
    if cs == [] then None
    else if cs[|cs| - 1].name == name then Some(|cs| - 1)
    else LastNamed(cs[..|cs| - 1], name)
  }

  /** The number of children called `name`: the index `tag` assigns at. */
  function CountNamed(cs: seq<Node>, name: string): nat
  {
    if cs == [] then 0
    else CountNamed(cs[..|cs| - 1], name) + (if cs[|cs| - 1].name == name then 1 else 0)
  }

  /** Assigning at index `count` of the children called `name` adds one more
      such child, and it is the last one. */
  lemma {:induction false} AppendNamed(cs: seq<Node>, x: Node)
    ensures CountNamed(cs + [x], x.name) == CountNamed(cs, x.name) + 1
    ensures LastNamed(cs + [x], x.name) == Some(|cs|)
  {
    assert (cs + [x])[..|cs|] == cs;
  }

  // ---- utf8ForXML ------------------------------------------------------

  /** The characters XML 1.0 allows, in the ranges the source's pattern
      keeps: tab, newline, carriage return, U+0020..U+D7FF and
      U+E000..U+FFFD. */
  predicate XmlChar(c: char)
  {
    c == '\t' || c == '\n' || c == '\r' || (0x20 <= c as int <= 0xD7FF) || (0xE000 <= c as int <= 0xFFFD)
  }

  predicate AllXmlChars(s: string)
  {
    forall i :: 0 <= i < |s| ==> XmlChar(s[i])
  }

  /** The rest of `s` after its leading run of characters XML does not allow. */
  function SkipInvalid(s: string): (r: string)
    ensures |r| <= |s|
  {
    if s == [] || XmlChar(s[0]) then s else SkipInvalid(s[1..])
  }

  /** What is skipped is a run of disallowed characters, and what remains
      is a suffix that is empty or starts with an allowed character. */
  lemma {:induction false} SkipInvalidMeaning(s: string)
    ensures var r := SkipInvalid(s);
            && r == s[|s| - |r|..] && (r == [] || XmlChar(r[0]))
            && forall i :: 0 <= i < |s| - |r| ==> !XmlChar(s[i])
  {
    if s != [] && !XmlChar(s[0]) {
      SkipInvalidMeaning(s[1..]);
      var r := SkipInvalid(s[1..]);
      assert forall i :: 1 <= i < |s| - |r| ==> s[i] == s[1..][i - 1];
    }
  }

  /** `utf8ForXML`: every maximal run of characters outside the allowed
      ranges becomes one space. */
  function Utf8ForXml(s: string): (r: string)
    ensures AllXmlChars(r)
    ensures |r| <= |s|
    decreases |s|
  {
    if s == [] then []
    else if XmlChar(s[0]) then [s[0]] + Utf8ForXml(s[1..])
    else " " + Utf8ForXml(SkipInvalid(s[1..]))
  }

  /** Text made of allowed characters passes through unchanged. */
  lemma {:induction false} Utf8ForXmlKeepsValid(s: string)
    requires AllXmlChars(s)
    ensures Utf8ForXml(s) == s
  {
    if s != [] {
      assert AllXmlChars(s[1..]) by {
        assert forall i :: 0 <= i < |s| - 1 ==> s[1..][i] == s[i + 1];
      }
      Utf8ForXmlKeepsValid(s[1..]);
    }
  }

  /** Filtering twice filters no more than filtering once. */
  lemma {:induction false} Utf8ForXmlIdempotent(s: string)
    ensures Utf8ForXml(Utf8ForXml(s)) == Utf8ForXml(s)
  {
    Utf8ForXmlKeepsValid(Utf8ForXml(s));
  }

  /** An allowed prefix is kept as it is. */
  lemma {:induction false} Utf8ForXmlValidPrefix(a: string, s: string)
    requires AllXmlChars(a)
    ensures Utf8ForXml(a + s) == a + Utf8ForXml(s)
  {
    var t := a + s;
    assert t[..|a|] == a && t[|a|..] == s;
    Utf8ForXmlKeepsFront(t, |a|);
  }

  /** The filter keeps an allowed front of its input. */
  lemma {:induction false} Utf8ForXmlKeepsFront(t: string, k: nat)
    requires k <= |t| && AllXmlChars(t[..k])
    ensures Utf8ForXml(t) == t[..k] + Utf8ForXml(t[k..])
    decreases k
  {
    if k == 0 {
      assert t[..0] == [] && t[0..] == t;
    } else {
      var rest := t[1..];
      assert XmlChar(t[..k][0]);
      assert rest[..k - 1] == t[1..k] && rest[k - 1..] == t[k..];
      var front, u := t[..k], rest[..k - 1];
      assert AllXmlChars(u) by {
        assert forall i :: 0 <= i < |u| ==> u[i] == front[i + 1];
      }
      Utf8ForXmlKeepsFront(rest, k - 1);
      assert Utf8ForXml(t) == [t[0]] + Utf8ForXml(rest);
      assert [t[0]] + t[1..k] == t[..k];
      AppendAssoc([t[0]], t[1..k], Utf8ForXml(t[k..]));
    }
  }

  lemma {:induction false} AppendAssoc<T>(x: seq<T>, y: seq<T>, z: seq<T>)
    ensures x + (y + z) == (x + y) + z
  {
  }

  lemma {:induction false} SkipInvalidRun(bad: string, rest: string)
    requires forall i :: 0 <= i < |bad| ==> !XmlChar(bad[i])
    requires rest == [] || XmlChar(rest[0])
    ensures SkipInvalid(bad + rest) == rest
  {
    if bad != [] {
      assert (bad + rest)[0] == bad[0] && (bad + rest)[1..] == bad[1..] + rest;
      SkipInvalidRun(bad[1..], rest);
    } else {
      assert bad + rest == rest;
    }
  }

  /** A whole run of disallowed characters, however long, becomes a single
      space. */
  lemma {:induction false} Utf8ForXmlRun(a: string, bad: string, rest: string)
    requires AllXmlChars(a)
    requires |bad| > 0 && forall i :: 0 <= i < |bad| ==> !XmlChar(bad[i])
    requires rest == [] || XmlChar(rest[0])
    ensures Utf8ForXml(a + bad + rest) == a + " " + Utf8ForXml(rest)
  {
    assert a + bad + rest == a + (bad + rest);
    Utf8ForXmlValidPrefix(a, bad + rest);
    Utf8ForXmlBadHead(bad, rest);
  }

  lemma {:induction false} Utf8ForXmlBadHead(bad: string, rest: string)
    requires |bad| > 0 && forall i :: 0 <= i < |bad| ==> !XmlChar(bad[i])
    requires rest == [] || XmlChar(rest[0])
    ensures Utf8ForXml(bad + rest) == " " + Utf8ForXml(rest)
  {
    var t := bad + rest;
    assert t[0] == bad[0] && !XmlChar(t[0]);
    assert t[1..] == bad[1..] + rest;
    SkipInvalidRun(bad[1..], rest);
  }

  // ---- The builder -----------------------------------------------------

  /** The attribute loop of `tag`: `setAttribute` for each usable entry, in
      order. */
  method SetAttributes(heap: Heap, attributes: seq<(Key, Value)>) returns (attrs: seq<(string, string)>)
    ensures attrs == TagAttrs(heap, attributes)
  {
    attrs := [];
    var i := 0;
    while i < |attributes|
      invariant 0 <= i <= |attributes|
      invariant attrs == TagAttrs(heap, attributes[..i])
    {
      var entry := attributes[i];
      assert attributes[..i + 1][..i] == attributes[..i];
      if entry.0.KStr? && entry.0.s != "" {
        attrs := SetAttr(attrs, entry.0.s, NormalizeValue(heap, entry.1));
      }
      i := i + 1;
    }
    assert attributes[..i] == attributes;
  }

  /** Text that libxml's `xmlIsBlankNode` reports as blank: spaces, tabs,
      newlines and carriage returns only (the empty text included). */
  predicate BlankText(s: string)
  {
    forall i :: 0 <= i < |s| ==> s[i] == ' ' || s[i] == '\t' || s[i] == '\n' || s[i] == '\r'
  }

  /** PHP's boolean cast of one SimpleXML element: false exactly when the
      element has no attributes, no children and only blank text. */
  predicate ElementTruthy(n: Node)
  {
    n.attrs != [] || !BlankText(n.text) || n.children != []
  }

  /** A new element `tag` makes with an empty value and no attributes is
      blank, whatever its name. */
  lemma {:induction false} BlankElement(heap: Heap, name: string)
    ensures Element(heap, name, VStr(""), []) == Node(name, "", [], [])
    ensures !ElementTruthy(Element(heap, name, VStr(""), []))
  {
  }

  /** Whitespace alone does not make an element true: `tag($name, ' ')`
      with no attributes is blank, while any other character makes the
      element true. */
  lemma {:induction false} WhitespaceIsBlank(heap: Heap, name: string, c: char)
    ensures !ElementTruthy(Element(heap, name, VStr(" \t\n"), []))
    ensures c != ' ' && c != '\t' && c != '\n' && c != '\r' ==> ElementTruthy(Element(heap, name, VStr([c]), []))
  {
    var e := Element(heap, name, VStr([c]), []);
    assert e.text == [c] && e.text[0] == c;
  }

  /** An XmlBuilder: the document it writes into and the element it is at. */
  class Builder {
    const doc: Document
    const path: Path

    predicate Valid()
      reads doc
    {
      ValidPath(doc.root, path)
    }

    /** The element this builder is at. */
    function Current(): Node
      reads doc
      requires Valid()
    {
      At(doc.root, path)
    }

    /** `new XmlBuilder()`: a builder at the root of a fresh
        `<__ErrbitXMLBuilder__/>` document. */
    constructor()
      ensures fresh(doc) && path == [] && Valid()
      ensures doc.root == Node(RootName, "", [], [])
    {
      doc := new Document(Node(RootName, "", [], []));
      path := [];
    }

    /** `new self($element)`: a builder at an element that already exists. */
    constructor Over(doc: Document, path: Path)
      requires ValidPath(doc.root, path)
      ensures this.doc == doc && this.path == path && Valid()
    {
      this.doc := doc;
      this.path := path;
    }

    /** `new self($element)` as line 39 runs it: `$xml ?: new
        SimpleXMLElement(...)` casts the element to bool, and a blank element
        (no attributes, no text, no children) is false, so the builder is put
        at the root of a fresh document instead. */
    constructor OverAsWritten(doc: Document, path: Path)
      requires ValidPath(doc.root, path)
      ensures ElementTruthy(At(doc.root, path)) ==> this.doc == doc && this.path == path
      ensures !ElementTruthy(At(doc.root, path)) ==>
                fresh(this.doc) && this.path == [] && this.doc.root == Node(RootName, "", [], [])
      ensures Valid()
    {
      if ElementTruthy(At(doc.root, path)) {
        this.doc := doc;
        this.path := path;
      } else {
        this.doc := new Document(Node(RootName, "", [], []));
        this.path := [];
      }
    }

    /** `tag($name, $value, $attributes, null, $getLastChild)` as written:
        the document changes as in `Tag`, but the builder handed back (and
        to the callback) is made by `OverAsWritten`, so for a blank new
        element it is at a fresh document that nothing else refers to. */
    method TagAsWritten(heap: Heap, name: string, value: Value, attributes: seq<(Key, Value)>, getLastChild: bool)
      returns (node: Builder)
      requires Valid()
      modifies doc
      ensures Valid()
      ensures doc.root == AppendAt(old(doc.root), path, [Element(heap, name, value, attributes)])
      ensures ElementTruthy(Element(heap, name, value, attributes)) ==>
                node.doc == doc && node.path == path + [|old(Current()).children|]
      ensures !ElementTruthy(Element(heap, name, value, attributes)) ==>
                fresh(node.doc) && node.path == [] && node.doc.root == Node(RootName, "", [], [])
      ensures node.Valid()
    {
      var attrs := SetAttributes(heap, attributes);
      var siblings := Current().children;
      var element := Node(name, NormalizeValue(heap, value), attrs, []);
      ghost var before := doc.root;
      doc.root := AppendAt(doc.root, path, [element]);
      AppendedChild(before, path, element);
      node := new Builder.OverAsWritten(doc, path + [|siblings|]);
      if getLastChild {
        AppendNamed(siblings, element);
        var last := LastNamed(Current().children, name);
        if last.Some? {
          node := new Builder.OverAsWritten(doc, path + [last.value]);
        }
      }
    }

    /** `tag($name, $value, $attributes, null, $getLastChild)`: append a child
        element with the normalised value as text and the usable attributes,
        and return a builder at it.  With `getLastChild` the builder is found
        again by XPath, which selects the same element. */
    method Tag(heap: Heap, name: string, value: Value, attributes: seq<(Key, Value)>, getLastChild: bool)
      returns (node: Builder)
      requires Valid()
      modifies doc
      ensures Valid()
      ensures doc.root == AppendAt(old(doc.root), path, [Element(heap, name, value, attributes)])
      ensures node.doc == doc && node.path == path + [|old(Current()).children|]
      ensures node.Valid() && node.Current() == Element(heap, name, value, attributes)
    {
      var attrs := SetAttributes(heap, attributes);
      var siblings := Current().children;
      var element := Node(name, NormalizeValue(heap, value), attrs, []);
      ghost var before := doc.root;
      doc.root := AppendAt(doc.root, path, [element]);
      AppendedChild(before, path, element);
      node := new Builder.Over(doc, path + [|siblings|]);
      if getLastChild {
        AppendNamed(siblings, element);
        var last := LastNamed(Current().children, name);
        if last.Some? {
          node := new Builder.Over(doc, path + [last.value]);
        }
      }
    }

    /** `attribute($name, $value)`: set an attribute on this element; an
        empty name changes nothing.  Returns this builder. */
    method Attribute(heap: Heap, name: string, value: Value) returns (self: Builder)
      requires Valid()
      modifies doc
      ensures self == this && Valid()
      ensures name == "" ==> doc.root == old(doc.root)
      ensures name != "" ==> doc.root == ReplaceAt(old(doc.root), path,
                old(Current()).(attrs := SetAttr(old(Current()).attrs, name, NormalizeValue(heap, value))))
    {
      if name != "" {
        var n := Current();
        doc.root := ReplaceAt(doc.root, path, n.(attrs := SetAttr(n.attrs, name, NormalizeValue(heap, value))));
      }
      self := this;
    }

    /** `asXml()`: this element's markup (the whole document, declaration
        included, for a builder at the root), filtered by `utf8ForXML`. */
    function AsXml(): (xml: string)
      reads doc
      requires Valid()
      ensures AllXmlChars(xml)
      ensures var m := if path == [] then DocumentMarkup(doc.root) else Markup(Current());
              AllXmlChars(m) ==> xml == m
    {
      var m := if path == [] then DocumentMarkup(doc.root) else Markup(Current());
      assert AllXmlChars(m) ==> Utf8ForXml(m) == m by {
        if AllXmlChars(m) {
          Utf8ForXmlKeepsValid(m);
        }
      }
      Utf8ForXml(m)
    }
  }
}
