/** The part of SimpleXML the builder relies on: an element tree, positions in
    it, the two edits the builder makes (replace the element at a position,
    append children to it), and the serialisation `asXML()` performs. */
module SimpleXml {
  import opened Wrappers

  /** An element: its name, its text content (written before its children),
      its attributes in insertion order, and its child elements. */
  datatype Node = Node(name: string, text: string, attrs: seq<(string, string)>, children: seq<Node>)

  /** A position: the child indices that lead from the root to an element. */
  type Path = seq<nat>

  predicate ValidPath(t: Node, p: Path)
    decreases |p|
  {
    p == [] || (p[0] < |t.children| && ValidPath(t.children[p[0]], p[1..]))
  }

  /** The element at a position. */
  function At(t: Node, p: Path): Node
    requires ValidPath(t, p)
    decreases |p|
  {
    if p == [] then t else At(t.children[p[0]], p[1..])
  }

  /** The tree with the element at `p` replaced by `x`. */
  function ReplaceAt(t: Node, p: Path, x: Node): (r: Node)
    requires ValidPath(t, p)
    ensures ValidPath(r, p) && At(r, p) == x
    ensures p != [] ==> r.name == t.name && r.text == t.text && r.attrs == t.attrs && |r.children| == |t.children|
    decreases |p|
  {
    if p == [] then x
    else t.(children := t.children[p[0] := ReplaceAt(t.children[p[0]], p[1..], x)])
  }

  /** The tree with `kids` appended to the children of the element at `p`. */
  function AppendAt(t: Node, p: Path, kids: seq<Node>): (r: Node)
    requires ValidPath(t, p)
    ensures ValidPath(r, p)
    ensures At(r, p) == At(t, p).(children := At(t, p).children + kids)
  {
    ReplaceAt(t, p, At(t, p).(children := At(t, p).children + kids))
  }

  /** Paths compose: walking `p` then `q` is walking `p + q`. */
  lemma {:induction false} AtConcat(t: Node, p: Path, q: Path)
    requires ValidPath(t, p)
    ensures ValidPath(t, p + q) <==> ValidPath(At(t, p), q)
    ensures ValidPath(t, p + q) ==> At(t, p + q) == At(At(t, p), q)
    decreases |p|
  {
    if p == [] {
      assert p + q == q;
    } else {
      assert (p + q)[0] == p[0] && (p + q)[1..] == p[1..] + q;
      AtConcat(t.children[p[0]], p[1..], q);
    }
  }

  /** Replacing deep inside the element at `p` is replacing that element by
      its edited copy. */
  lemma {:induction false} ReplaceAtConcat(t: Node, p: Path, q: Path, y: Node)
    requires ValidPath(t, p) && ValidPath(At(t, p), q)
    ensures ValidPath(t, p + q)
    ensures ReplaceAt(t, p + q, y) == ReplaceAt(t, p, ReplaceAt(At(t, p), q, y))
    decreases |p|
  {
    AtConcat(t, p, q);
    if p == [] {
      assert p + q == q;
    } else {
      assert (p + q)[0] == p[0] && (p + q)[1..] == p[1..] + q;
      ReplaceAtConcat(t.children[p[0]], p[1..], q, y);
    }
  }

  /** A second replacement at the same position overrides the first. */
  lemma {:induction false} ReplaceTwice(t: Node, p: Path, x: Node, y: Node)
    requires ValidPath(t, p)
    ensures ReplaceAt(ReplaceAt(t, p, x), p, y) == ReplaceAt(t, p, y)
    decreases |p|
  {
    if p != [] {
      ReplaceTwice(t.children[p[0]], p[1..], x, y);
    }
  }

  /** A replacement leaves every sibling of the replaced element as it was. */
  lemma {:induction false} ReplaceAtKeepsSiblings(t: Node, p: Path, i: nat, j: nat, x: Node)
    requires ValidPath(t, p) && i < |At(t, p).children| && j < |At(t, p).children| && i != j
    ensures ValidPath(t, p + [i]) && ValidPath(t, p + [j])
    ensures ValidPath(ReplaceAt(t, p + [i], x), p + [j])
    ensures At(ReplaceAt(t, p + [i], x), p + [j]) == At(t, p + [j])
  {
    var n := At(t, p);
    assert ValidPath(n, [i]) && ValidPath(n, [j]) by {
      assert [i][1..] == [] && [j][1..] == [];
    }
    AtConcat(t, p, [i]);
    AtConcat(t, p, [j]);
    ReplaceAtConcat(t, p, [i], x);
    var n' := ReplaceAt(n, [i], x);
    assert n'.children[j] == n.children[j];
    assert ValidPath(n', [j]) && At(n', [j]) == At(n, [j]) by {
      assert [j][1..] == [];
    }
    var r := ReplaceAt(t, p, n');
    AtConcat(r, p, [j]);
  }

  /** Two appends at one position are one append of both lists. */
  lemma {:induction false} AppendAppend(t: Node, p: Path, a: seq<Node>, b: seq<Node>)
    requires ValidPath(t, p)
    ensures AppendAt(AppendAt(t, p, a), p, b) == AppendAt(t, p, a + b)
  {
    var n := At(t, p);
    var n1 := n.(children := n.children + a);
    AppendAfterReplace(t, p, n1, b);
    assert n1.(children := n1.children + b) == n.(children := n.children + (a + b));
  }

  /** Appending to an element just put in place edits the element put there. */
  lemma {:induction false} AppendAfterReplace(t: Node, p: Path, x: Node, b: seq<Node>)
    requires ValidPath(t, p)
    ensures AppendAt(ReplaceAt(t, p, x), p, b) == ReplaceAt(t, p, x.(children := x.children + b))
  {
    ReplaceTwice(t, p, x, x.(children := x.children + b));
  }

  /** After appending an element at `p`, the newcomer sits at `p + [k]`,
      `k` being the number of children `p` had before. */
  lemma {:induction false} AppendedChild(t: Node, p: Path, leaf: Node)
    requires ValidPath(t, p)
    ensures ValidPath(AppendAt(t, p, [leaf]), p + [|At(t, p).children|])
    ensures At(AppendAt(t, p, [leaf]), p + [|At(t, p).children|]) == leaf
  {
    var k := |At(t, p).children|;
    var t1 := AppendAt(t, p, [leaf]);
    assert ValidPath(At(t1, p), [k]) by {
      assert [k][1..] == [];
    }
    AtConcat(t1, p, [k]);
  }

  /** Filling the newcomer's children afterwards is the same as appending the
      filled element in the first place; this is how a builder for a new tag
      and the builder that created it compose. */
  lemma {:induction false} NestedAppend(t: Node, p: Path, leaf: Node, kids: seq<Node>)
    requires ValidPath(t, p)
    ensures ValidPath(AppendAt(t, p, [leaf]), p + [|At(t, p).children|])
    ensures AppendAt(AppendAt(t, p, [leaf]), p + [|At(t, p).children|], kids)
            == AppendAt(t, p, [leaf.(children := leaf.children + kids)])
  {
    var n := At(t, p);
    var k := |n.children|;
    var t1 := AppendAt(t, p, [leaf]);
    var n1 := At(t1, p);
    var leaf' := leaf.(children := leaf.children + kids);
    AppendedChild(t, p, leaf);
    assert ValidPath(n1, [k]) by {
      assert [k][1..] == [];
    }
    AtConcat(t1, p, [k]);
    ReplaceAtConcat(t1, p, [k], leaf');
    assert ReplaceAt(n1, [k], leaf') == n.(children := n.children + [leaf']) by {
      assert [k][1..] == [];
      assert (n.children + [leaf])[k := leaf'] == n.children + [leaf'];
    }
    ReplaceTwice(t, p, n.(children := n.children + [leaf]), n.(children := n.children + [leaf']));
  }

  /** Replacing an element by itself changes nothing. */
  lemma {:induction false} ReplaceAtSame(t: Node, p: Path)
    requires ValidPath(t, p)
    ensures ReplaceAt(t, p, At(t, p)) == t
    decreases |p|
  {
    if p != [] {
      ReplaceAtSame(t.children[p[0]], p[1..]);
      assert t.children[p[0] := t.children[p[0]]] == t.children;
    }
  }

  /** Appending no children changes nothing. */
  lemma {:induction false} AppendNothing(t: Node, p: Path)
    requires ValidPath(t, p)
    ensures AppendAt(t, p, []) == t
  {
    assert At(t, p).children + [] == At(t, p).children;
    ReplaceAtSame(t, p);
  }

  /** A builder for a newly appended element keeps filling it: appending
      `more` under it is appending the element with `done + more` as its
      children in the first place. */
  lemma {:induction false} ExtendNewChild(t: Node, p: Path, leaf: Node, done: seq<Node>, more: seq<Node>)
    requires ValidPath(t, p)
    ensures ValidPath(AppendAt(t, p, [leaf.(children := done)]), p + [|At(t, p).children|])
    ensures AppendAt(AppendAt(t, p, [leaf.(children := done)]), p + [|At(t, p).children|], more)
            == AppendAt(t, p, [leaf.(children := done + more)])
  {
    NestedAppend(t, p, leaf.(children := done), more);
  }

  /** The value of attribute `name`, if the element has one. */
  function AttrValue(attrs: seq<(string, string)>, name: string): (r: Option<string>)
    ensures r.Some? <==> exists i :: 0 <= i < |attrs| && attrs[i].0 == name
  {
    if attrs == [] then None
    else if attrs[0].0 == name then Some(attrs[0].1)
    else (assert forall i :: 1 <= i < |attrs| ==> attrs[1..][i - 1] == attrs[i];
          AttrValue(attrs[1..], name))
  }

  predicate DistinctNames(attrs: seq<(string, string)>)
  {
    forall i, j :: 0 <= i < j < |attrs| ==> attrs[i].0 != attrs[j].0
  }

  /** DOM's `setAttribute`: overwrite the value of an attribute already
      present, in place, or append a new one. */
  function SetAttr(attrs: seq<(string, string)>, name: string, value: string): (r: seq<(string, string)>)
    ensures AttrValue(r, name) == Some(value)
    ensures AttrValue(attrs, name).Some? ==> |r| == |attrs|
    ensures AttrValue(attrs, name).None? ==> r == attrs + [(name, value)]
  {
    if attrs == [] then [(name, value)]
    else if attrs[0].0 == name then [(name, value)] + attrs[1..]
    else
      var rest := SetAttr(attrs[1..], name, value);
      assert ([attrs[0]] + rest)[1..] == rest;
      (if AttrValue(attrs[1..], name).None? then
         assert attrs == [attrs[0]] + attrs[1..]; [attrs[0]] + rest
       else [attrs[0]] + rest)
  }

  /** Setting one attribute leaves the others alone. */
  lemma {:induction false} SetAttrKeepsOthers(attrs: seq<(string, string)>, name: string, value: string, other: string)
    requires other != name
    ensures AttrValue(SetAttr(attrs, name, value), other) == AttrValue(attrs, other)
  {
    if attrs != [] && attrs[0].0 != name {
      SetAttrKeepsOthers(attrs[1..], name, value, other);
      assert ([attrs[0]] + SetAttr(attrs[1..], name, value))[1..] == SetAttr(attrs[1..], name, value);
    }
  }

  /** Setting attributes never introduces a second attribute of one name. */
  lemma {:induction false} SetAttrKeepsDistinct(attrs: seq<(string, string)>, name: string, value: string)
    requires DistinctNames(attrs)
    ensures DistinctNames(SetAttr(attrs, name, value))
  {
    if attrs != [] && attrs[0].0 == name {
      var r := SetAttr(attrs, name, value);
      assert forall i :: 1 <= i < |r| ==> r[i] == attrs[i];
    } else if attrs != [] {
      var tail := attrs[1..];
      assert DistinctNames(tail) && AttrValue(tail, attrs[0].0).None? by {
        assert forall k :: 0 <= k < |tail| ==> tail[k] == attrs[k + 1];
      }
      SetAttrKeepsDistinct(tail, name, value);
      SetAttrKeepsOthers(tail, name, value, attrs[0].0);
      ConsDistinct(attrs[0], SetAttr(tail, name, value));
    }
  }

  /** A new name in front of distinct names keeps them distinct. */
  lemma {:induction false} ConsDistinct(x: (string, string), rest: seq<(string, string)>)
    requires DistinctNames(rest) && AttrValue(rest, x.0).None?
    ensures DistinctNames([x] + rest)
  {
    var r := [x] + rest;
    forall i, j | 0 <= i < j < |r|
      ensures r[i].0 != r[j].0
    {
      assert r[j] == rest[j - 1];
      if i > 0 {
        assert r[i] == rest[i - 1];
      }
    }
  }

  // ---- Serialisation --------------------------------------------------

  /** SimpleXML's `asXML()` on the document element: the XML declaration,
      the element, and a final newline. */
  const Declaration: string := "<?xml version=\"1.0\"?>\n"

  function DocumentMarkup(root: Node): string
  {
    Declaration + Markup(root) + "\n"
  }

  /** `asXML()` on an element: its markup.  An element with neither text nor
      children is written self-closed.  The markup opens with `<` and the
      element's name and closes with `>`. */
  function Markup(n: Node): (r: string)
    ensures |r| > |n.name| + 1 && r[..|n.name| + 1] == "<" + n.name
    ensures r[|r| - 1] == '>'
    decreases n, 1
  {
    "<" + n.name + AttrsMarkup(n.attrs)
    + (if n.text == "" && n.children == [] then "/>"
       else ">" + EscapeText(n.text) + ChildrenMarkup(n.children) + "</" + n.name + ">")
  }

  function ChildrenMarkup(ns: seq<Node>): string
    decreases ns, 0
  {
    if ns == [] then "" else Markup(ns[0]) + ChildrenMarkup(ns[1..])
  }

  function AttrsMarkup(attrs: seq<(string, string)>): string
  {
    if attrs == [] then ""
    else " " + attrs[0].0 + "=\"" + EscapeAttr(attrs[0].1) + "\"" + AttrsMarkup(attrs[1..])
  }

  function EscapeTextChar(c: char): string
  {
    if c == '&' then "&amp;" else if c == '<' then "&lt;" else if c == '>' then "&gt;" else [c]
  }

  function EscapeAttrChar(c: char): string
  {
    if c == '"' then "&quot;" else EscapeTextChar(c)
  }

  /** Text content with the markup characters replaced by entities. */
  function EscapeText(s: string): (r: string)
    ensures forall i :: 0 <= i < |r| ==> r[i] != '<' && r[i] != '>'
    ensures |r| >= |s|
  {
    if s == [] then [] else EscapeTextChar(s[0]) + EscapeText(s[1..])
  }

  /** An attribute value with markup characters and double quotes replaced by
      entities, so that it cannot end the quoted value early. */
  function EscapeAttr(s: string): (r: string)
    ensures forall i :: 0 <= i < |r| ==> r[i] != '<' && r[i] != '>' && r[i] != '"'
    ensures |r| >= |s|
  {
    if s == [] then [] else EscapeAttrChar(s[0]) + EscapeAttr(s[1..])
  }

  /** What an XML reader makes of character data: the four entities the
      serialiser writes are decoded, every other character stands for itself. */
  function Unescape(s: string): string
  {
    if s == [] then []
    else if |s| >= 5 && s[..5] == "&amp;" then "&" + Unescape(s[5..])
    else if |s| >= 4 && s[..4] == "&lt;" then "<" + Unescape(s[4..])
    else if |s| >= 4 && s[..4] == "&gt;" then ">" + Unescape(s[4..])
    else if |s| >= 6 && s[..6] == "&quot;" then "\"" + Unescape(s[6..])
    else [s[0]] + Unescape(s[1..])
  }

  lemma {:induction false} UnescapeTextChar(c: char, rest: string)
    ensures Unescape(EscapeTextChar(c) + rest) == [c] + Unescape(rest)
  {
    var s := EscapeTextChar(c) + rest;
    if c == '&' {
      assert s[..5] == "&amp;" && s[5..] == rest;
    } else if c == '<' {
      assert s[..4] == "&lt;" && s[4..] == rest;
      assert !(|s| >= 5 && s[..5] == "&amp;") by { assert s[1] == 'l'; }
    } else if c == '>' {
      assert s[..4] == "&gt;" && s[4..] == rest;
      assert !(|s| >= 5 && s[..5] == "&amp;") && s[..4] != "&lt;" by { assert s[1] == 'g'; }
    } else {
      assert s == [c] + rest && s[0] == c && s[1..] == rest;
    }
  }

  lemma {:induction false} UnescapeAttrChar(c: char, rest: string)
    ensures Unescape(EscapeAttrChar(c) + rest) == [c] + Unescape(rest)
  {
    if c == '"' {
      var s := EscapeAttrChar(c) + rest;
      assert s == "&quot;" + rest;
      assert s[..6] == "&quot;" && s[6..] == rest;
      assert s[..5] != "&amp;" && s[..4] != "&lt;" && s[..4] != "&gt;" by { assert s[1] == 'q'; }
    } else {
      UnescapeTextChar(c, rest);
    }
  }

  /** Reading escaped text back gives the original text. */
  lemma {:induction false} TextRoundTrip(s: string)
    ensures Unescape(EscapeText(s)) == s
  {
    if s != [] {
      UnescapeTextChar(s[0], EscapeText(s[1..]));
      TextRoundTrip(s[1..]);
    }
  }

  /** Reading an escaped attribute value back gives the original value. */
  lemma {:induction false} AttrRoundTrip(s: string)
    ensures Unescape(EscapeAttr(s)) == s
  {
    if s != [] {
      UnescapeAttrChar(s[0], EscapeAttr(s[1..]));
      AttrRoundTrip(s[1..]);
    }
  }

  /** The document element a new builder starts from. */
  const RootName: string := "__ErrbitXMLBuilder__"

  /** A SimpleXML document: the tree every builder over it edits, in place. */
  class Document {
    var root: Node

    constructor(root: Node)
      ensures this.root == root
    {
      this.root := root;
    }
  }
}
