/**
 * An already-parsed XML element tree, as ElementTree hands it to the
 * validators and decoders: a tag, the attribute mapping in its iteration
 * order, the optional leading text and the ordered children. Parsing text
 * into a tree (`fromstring`) and serialising it back (`tostring`) are not
 * modelled; a document is either a tree or a parse failure.
 */
module Xml {
  import opened Basics
  import opened Text

  /** Attribute mapping in iteration order; keys are those of a dict. */
  type Attrs = seq<(string, string)>

  /** `text` is `None` for an element with no leading character data. */
  datatype Element = Element(tag: string, attrs: Attrs, text: Option<string>, children: seq<Element>)

  /** The result of `fromstring`: a tree, or a `ParseError`. */
  datatype Parsed = ParseFailed | Tree(root: Element)

  /** Number of children carrying `tag`. */
  function CountTag(children: seq<Element>, tag: string): nat
  {
    if |children| == 0 then 0
    else (if children[0].tag == tag then 1 else 0) + CountTag(children[1..], tag)
  }

  /** Child `i` is the first child carrying `tag`. */
  predicate FirstWithTag(children: seq<Element>, tag: string, i: int)
  {
    0 <= i < |children| && children[i].tag == tag
    && forall j :: 0 <= j < i ==> children[j].tag != tag
  }

  /** ElementTree's `findall(tag)`: the direct children carrying `tag`, in document order. */
  function FindAll(children: seq<Element>, tag: string): (r: seq<Element>)
    ensures |r| == CountTag(children, tag)
  {
    if |children| == 0 then []
    else (if children[0].tag == tag then [children[0]] else []) + FindAll(children[1..], tag)
  }

  /** `findall` keeps exactly the children carrying the tag. */
  lemma {:induction false} FindAllMembers(children: seq<Element>, tag: string)
    ensures forall x :: x in FindAll(children, tag) <==> x in children && x.tag == tag
    decreases |children|
  {
    if |children| > 0 {
      FindAllMembers(children[1..], tag);
      assert forall x :: x in children <==> x == children[0] || x in children[1..];
    }
  }

  /** The first match of `findall` is the first child carrying the tag. */
  lemma {:induction false} FindAllHead(children: seq<Element>, tag: string)
    requires |FindAll(children, tag)| > 0
    ensures exists i :: FirstWithTag(children, tag, i) && FindAll(children, tag)[0] == children[i]
    decreases |children|
  {
    if children[0].tag == tag {
      assert FirstWithTag(children, tag, 0);
    } else {
      FindAllHead(children[1..], tag);
      var i :| FirstWithTag(children[1..], tag, i) && FindAll(children[1..], tag)[0] == children[1..][i];
      assert FirstWithTag(children, tag, i + 1);
    }
  }

  /** `findall` is a filter: it distributes over concatenation of children. */
  lemma {:induction false} FindAllAppend(a: seq<Element>, b: seq<Element>, tag: string)
    ensures FindAll(a + b, tag) == FindAll(a, tag) + FindAll(b, tag)
    decreases |a|
  {
    if |a| > 0 {
      var x := a[0];
      var keep: seq<Element> := if x.tag == tag then [x] else [];
      assert a + b == [x] + (a[1..] + b);
      assert a == [x] + a[1..];
      FindAllCons(x, a[1..] + b, tag);
      FindAllCons(x, a[1..], tag);
      FindAllAppend(a[1..], b, tag);
      assert keep + (FindAll(a[1..], tag) + FindAll(b, tag)) == (keep + FindAll(a[1..], tag)) + FindAll(b, tag);
    } else {
      assert a + b == b;
    }
  }

  /** `findall` on a list with a known first child. */
  lemma FindAllCons(x: Element, rest: seq<Element>, tag: string)
    ensures FindAll([x] + rest, tag) == (if x.tag == tag then [x] else []) + FindAll(rest, tag)
  {
    assert ([x] + rest)[0] == x;
    assert ([x] + rest)[1..] == rest;
  }

  lemma {:induction false} CountTagPositive(ch: seq<Element>, tag: string, i: int)
    requires 0 <= i < |ch| && ch[i].tag == tag
    ensures CountTag(ch, tag) > 0
    decreases |ch|
  {
    if i > 0 {
      CountTagPositive(ch[1..], tag, i - 1);
    }
  }

  /** A list with a child carrying the tag has a first one. */
  lemma {:induction false} FirstTagged(ch: seq<Element>, tag: string) returns (k: int)
    requires CountTag(ch, tag) > 0
    ensures FirstWithTag(ch, tag, k)
    decreases |ch|
  {
    if ch[0].tag == tag {
      k := 0;
    } else {
      var j := FirstTagged(ch[1..], tag);
      k := j + 1;
    }
  }

  /** When only one child carries the tag, any two children carrying it are the same child. */
  lemma {:induction false} OnlyTagged(ch: seq<Element>, tag: string, i: int, j: int)
    requires CountTag(ch, tag) == 1
    requires 0 <= i < |ch| && 0 <= j < |ch| && ch[i].tag == tag && ch[j].tag == tag
    ensures i == j
    decreases |ch|
  {
    if ch[0].tag == tag {
      if i > 0 {
        CountTagPositive(ch[1..], tag, i - 1);
      }
      if j > 0 {
        CountTagPositive(ch[1..], tag, j - 1);
      }
    } else {
      OnlyTagged(ch[1..], tag, i - 1, j - 1);
    }
  }

  /** `find` returns the first child carrying the tag. */
  lemma FindFirst(ch: seq<Element>, tag: string, i: int)
    requires FirstWithTag(ch, tag, i)
    ensures Find(ch, tag) == Some(ch[i])
  {
    FindAllAt(ch, tag, i);
  }

  lemma {:induction false} FindAllAt(ch: seq<Element>, tag: string, i: int)
    requires FirstWithTag(ch, tag, i)
    ensures |FindAll(ch, tag)| > 0 && FindAll(ch, tag)[0] == ch[i]
    decreases i
  {
    if i > 0 {
      assert ch[0].tag != tag;
      assert FirstWithTag(ch[1..], tag, i - 1);
      FindAllAt(ch[1..], tag, i - 1);
    }
  }

  /** ElementTree's `find(tag)`: the first direct child carrying `tag`, if any. */
  function Find(children: seq<Element>, tag: string): (r: Option<Element>)
    ensures r.None? <==> CountTag(children, tag) == 0
    ensures r.Some? ==> exists i :: FirstWithTag(children, tag, i) && r.value == children[i]
  {
    var all := FindAll(children, tag);
    if |all| == 0 then None
    else
      FindAllHead(children, tag);
      Some(all[0])
  }

  /** `key in attrib.keys()`. */
  predicate HasKey(attrs: Attrs, key: string)
  {
    exists i :: 0 <= i < |attrs| && attrs[i].0 == key
  }

  /** `attrib[key]`, with `None` for the `KeyError`. */
  function Lookup(attrs: Attrs, key: string): (r: Option<string>)
    ensures r.Some? <==> HasKey(attrs, key)
    ensures r.Some? ==> (key, r.value) in attrs
  {
    if |attrs| == 0 then None
    else if attrs[0].0 == key then Some(attrs[0].1)
    else
      var r := Lookup(attrs[1..], key);
      assert HasKey(attrs, key) ==> attrs[0].0 == key || HasKey(attrs[1..], key) by {
        if HasKey(attrs, key) {
          var i :| 0 <= i < |attrs| && attrs[i].0 == key;
          if i > 0 { assert attrs[1..][i - 1].0 == key; }
        }
      }
      assert HasKey(attrs[1..], key) ==> HasKey(attrs, key) by {
        if HasKey(attrs[1..], key) {
          var i :| 0 <= i < |attrs[1..]| && attrs[1..][i].0 == key;
          assert attrs[i + 1].0 == key;
        }
      }
      r
  }

  /** `'{}="{}"'.format(k, v)`. */
  function RenderPair(p: (string, string)): string
  {
    p.0 + "=\"" + p.1 + "\""
  }

  function RenderPairs(attrs: Attrs): (r: seq<string>)
    ensures |r| == |attrs|
    ensures forall i :: 0 <= i < |attrs| ==> r[i] == RenderPair(attrs[i])
  {
    if |attrs| == 0 then [] else [RenderPair(attrs[0])] + RenderPairs(attrs[1..])
  }

  /**
   * `' '.join(['{}="{}"'.format(k, v) for k, v in attrs])`: the attribute
   * text handed to the export templates. Nothing is escaped.
   */
  function RenderAttrs(attrs: Attrs): string
  {
    Join(RenderPairs(attrs), ' ')
  }

  /** Index of the first `c` in `s`. */
  function IndexOf(s: string, c: char): (r: Option<nat>)
    ensures r.None? <==> c !in s
    ensures r.Some? ==> r.value < |s| && s[r.value] == c && c !in s[..r.value]
  {
    if |s| == 0 then None
    else if s[0] == c then Some(0)
    else
      match IndexOf(s[1..], c)
      case None => None
      case Some(k) =>
        assert s[..k + 1] == [s[0]] + s[1..][..k];
        Some(k + 1)
  }

  /** Reads back the output of `RenderAttrs`: `k="v"` pairs separated by single spaces. */
  function ParseAttrs(s: string): Option<Attrs>
  {
    if |s| == 0 then Some([]) else ParsePairs(s)
  }

  /** Reads one `k="v"` pair off the front of `s`, with the text after the closing quote. */
  function ParsePair(s: string): (r: Option<((string, string), string)>)
    ensures r.Some? ==> |r.value.1| < |s|
  {
    match IndexOf(s, '=')
    case None => None
    case Some(i) =>
      var rest := s[i + 1..];
      if |rest| == 0 || rest[0] != '"' then None
      else
        match IndexOf(rest[1..], '"')
        case None => None
        case Some(j) => Some(((s[..i], rest[1..][..j]), rest[1..][j + 1..]))
  }

  function ParsePairs(s: string): Option<Attrs>
    decreases |s|
  {
    var front := ParsePair(s);
    if front.None? then None
    else
      var pair := front.value.0;
      var after := front.value.1;
      if |after| == 0 then Some([pair])
      else if after[0] != ' ' then None
      else
        match ParsePairs(after[1..])
        case None => None
        case Some(more) => Some([pair] + more)
  }

  /** Attributes the renderer can represent unambiguously. */
  predicate Renderable(attrs: Attrs)
  {
    forall i :: 0 <= i < |attrs| ==> '=' !in attrs[i].0 && '"' !in attrs[i].1
  }

  lemma IndexOfPrefix(a: string, c: char, b: string)
    requires c !in a
    ensures IndexOf(a + [c] + b, c) == Some(|a|)
  {
    var s := a + [c] + b;
    assert forall k :: 0 <= k < |a| ==> s[k] == a[k];
    assert forall m :: |a| < m <= |s| ==> s[..m][|a|] == c;
  }

  /** A rendered pair is read back off the front of any text that follows it. */
  lemma ParsePairOf(p: (string, string), tail: string)
    requires '=' !in p.0 && '"' !in p.1
    ensures ParsePair(RenderPair(p) + tail) == Some((p, tail))
  {
    var s := RenderPair(p) + tail;
    var q := "\"" + p.1 + "\"" + tail;
    assert s == p.0 + ['='] + q;
    IndexOfPrefix(p.0, '=', q);
    assert s[|p.0| + 1..] == q;
    assert q[1..] == p.1 + ['"'] + tail;
    IndexOfPrefix(p.1, '"', tail);
    assert q[1..][|p.1| + 1..] == tail;
    assert s[..|p.0|] == p.0;
    assert q[1..][..|p.1|] == p.1;
  }

  lemma RenderAttrsCons(attrs: Attrs)
    requires |attrs| > 1
    ensures RenderAttrs(attrs) == RenderPair(attrs[0]) + " " + RenderAttrs(attrs[1..])
  {
    assert RenderPairs(attrs)[1..] == RenderPairs(attrs[1..]);
  }

  /** Rendering then reading back gives the attributes, when no key holds `=` and no value `"`. */
  lemma {:induction false} ParseRenderAttrs(attrs: Attrs)
    requires Renderable(attrs)
    ensures ParseAttrs(RenderAttrs(attrs)) == Some(attrs)
    decreases |attrs|
  {
    if |attrs| > 0 {
      ParsePairsRender(attrs);
    }
  }

  lemma ParsePairsOne(p: (string, string))
    requires '=' !in p.0 && '"' !in p.1
    ensures ParsePairs(RenderPair(p)) == Some([p])
  {
    ParsePairOf(p, "");
    assert RenderPair(p) + "" == RenderPair(p);
  }

  lemma ParsePairsCons(p: (string, string), rest: string)
    requires '=' !in p.0 && '"' !in p.1
    ensures ParsePairs(RenderPair(p) + " " + rest)
      == (match ParsePairs(rest) case None => None case Some(more) => Some([p] + more))
  {
    ParsePairOf(p, " " + rest);
    assert RenderPair(p) + " " + rest == RenderPair(p) + (" " + rest);
    assert (" " + rest)[1..] == rest;
  }

  lemma {:induction false} ParsePairsRender(attrs: Attrs)
    requires |attrs| > 0 && Renderable(attrs)
    ensures |RenderAttrs(attrs)| > 0
    ensures ParsePairs(RenderAttrs(attrs)) == Some(attrs)
    decreases |attrs|
  {
    if |attrs| == 1 {
      assert RenderPairs(attrs) == [RenderPair(attrs[0])];
      ParsePairsOne(attrs[0]);
      assert attrs == [attrs[0]];
    } else {
      RenderAttrsCons(attrs);
      ParsePairsRender(attrs[1..]);
      ParsePairsCons(attrs[0], RenderAttrs(attrs[1..]));
      assert attrs == [attrs[0]] + attrs[1..];
    }
  }

  /** Without escaping, a value holding `"` renders like two separate attributes. */
  lemma RenderAttrsAmbiguous()
    ensures RenderAttrs([("a", "x\" b=\"y")]) == RenderAttrs([("a", "x"), ("b", "y")])
  {
    RenderAttrsCons([("a", "x"), ("b", "y")]);
    assert RenderPair(("a", "x\" b=\"y")) == RenderPair(("a", "x")) + " " + RenderPair(("b", "y"));
  }
}
