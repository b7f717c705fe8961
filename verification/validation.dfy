/**
 * Structural validation of the HIT exchange XML: a `<seg>` item, a `<hits>`
 * batch document and a single `<hit>` document (appraise/wmt13/models.py).
 * Each validator either passes or raises exactly one error; the error names
 * the first check that failed, in the order the source checks them, which
 * differs between `validate_hits_xml_file` and `validate_hit_xml`.
 */
module Validation {
  import opened Basics
  import opened Xml

  /** The reason carried by the one `ValidationError` a validator raises. */
  datatype Invalid =
    | ParseError                       // `fromstring` raised `ParseError`
    | RootTag(expected: string)        // expected <hits> / <hit> on top-level
    | ChildTag                         // expected <hit> on second level
    | MissingAttribute(name: string)   // missing required <hit> attribute
    | IllegalTag(tag: string)          // a <seg> item with another tag
    | SourceCount                      // exactly one <source> element expected
    | SourceText                       // missing required <source> text value
    | ReferenceText                    // missing required <reference> text value
    | TranslationCount                 // five <translation> elements expected
    | TranslationText                  // missing required <translation> text value
    | SegCount                         // required 3 <seg> children

  /** `HIT_REQUIRED_ATTRIBUTES`, in the order they are checked. */
  const RequiredAttributes: seq<string> := ["block-id", "source-language", "target-language", "systems"]

  const TranslationsPerSeg: nat := 5
  const SegsPerHit: nat := 3

  // ---------------------------------------------------------------------
  // Declarative shape of a valid document, stated over child indices.

  /** A `<seg>` the source accepts. A second `<reference>` is not looked at. */
  predicate IsSeg(e: Element)
  {
    var ch := e.children;
    && e.tag == "seg"
    && CountTag(ch, "source") == 1
    && (forall i :: 0 <= i < |ch| && ch[i].tag == "source" ==> ch[i].text.Some?)
    && (forall i :: 0 <= i < |ch| && FirstWithTag(ch, "reference", i) ==> ch[i].text.Some?)
    && CountTag(ch, "translation") == TranslationsPerSeg
    && (forall i :: 0 <= i < |ch| && ch[i].tag == "translation" ==> ch[i].text.Some?)
  }

  /** A `<hit>` the source accepts: the tag, every required attribute and three valid segments. */
  predicate IsHit(h: Element)
  {
    && h.tag == "hit"
    && (forall a :: a in RequiredAttributes ==> HasKey(h.attrs, a))
    && |h.children| == SegsPerHit
    && (forall j :: 0 <= j < |h.children| ==> IsSeg(h.children[j]))
  }

  /** A `<hits>` batch the source accepts: every child is a valid `<hit>`. */
  predicate IsHitsDocument(root: Element)
  {
    root.tag == "hits" && forall i :: 0 <= i < |root.children| ==> IsHit(root.children[i])
  }

  // ---------------------------------------------------------------------
  // The validators, check by check.

  /** `validate_item_xml` on an element (models.py:440-459). */
  function ValidateSeg(e: Element): Outcome<Invalid>
  {
    var sources := FindAll(e.children, "source");
    var reference := Find(e.children, "reference");
    var translations := FindAll(e.children, "translation");
    if e.tag != "seg" then Fail(IllegalTag(e.tag))
    else if |sources| != 1 then Fail(SourceCount)
    else if sources[0].text.None? then Fail(SourceText)
    else if reference.Some? && reference.value.text.None? then Fail(ReferenceText)
    else if |translations| != TranslationsPerSeg then Fail(TranslationCount)
    else if exists t :: t in translations && t.text.None? then Fail(TranslationText)
    else Pass
  }

  /** `validate_item_xml` on item text: the text is parsed first (models.py:433-438). */
  function ValidateItem(p: Parsed): Outcome<Invalid>
  {
    match p
    case ParseFailed => Fail(ParseError)
    case Tree(e) => ValidateSeg(e)
  }

  /** The first required attribute missing from `attrs`, in checking order. */
  function FirstMissing(attrs: Attrs, required: seq<string>): (r: Option<string>)
    ensures r.None? <==> forall a :: a in required ==> HasKey(attrs, a)
    ensures r.Some? ==> r.value in required && !HasKey(attrs, r.value)
    ensures r.Some? ==>
      exists k :: 0 <= k < |required| && required[k] == r.value && forall j :: 0 <= j < k ==> HasKey(attrs, required[j])
  {
    if |required| == 0 then None
    else if !HasKey(attrs, required[0]) then Some(required[0])
    else FirstMissing(attrs, required[1..])
  }

  /** Validates the segments of one `<hit>` in order; the first failure wins. */
  function ValidateSegs(segs: seq<Element>): (r: Outcome<Invalid>)
  {
    if |segs| == 0 then Pass
    else match ValidateSeg(segs[0])
      case Fail(err) => Fail(err)
      case Pass => ValidateSegs(segs[1..])
  }

  /** The segment loop over a `<hit>`, then the check that it counted three. */
  function ValidateSegCount(h: Element): Outcome<Invalid>
  {
    match ValidateSegs(h.children)
    case Fail(err) => Fail(err)
    case Pass => if |h.children| != SegsPerHit then Fail(SegCount) else Pass
  }

  /**
   * The checks `validate_hits_xml_file` makes on each `<hit>` after its tag
   * (models.py:62-76): every attribute, then the segments.
   */
  function ValidateHitBody(h: Element): Outcome<Invalid>
  {
    match FirstMissing(h.attrs, RequiredAttributes)
    case Some(a) => Fail(MissingAttribute(a))
    case None => ValidateSegCount(h)
  }

  /**
   * The checks `validate_hit_xml` makes after the tag (models.py:98-110).
   * There the segment loop and the count check sit inside the loop over the
   * required attributes, so they run after each attribute found present.
   */
  function ValidateHitNested(h: Element, required: seq<string>): Outcome<Invalid>
  {
    if |required| == 0 then Pass
    else if !HasKey(h.attrs, required[0]) then Fail(MissingAttribute(required[0]))
    else match ValidateSegCount(h)
      case Fail(err) => Fail(err)
      case Pass => ValidateHitNested(h, required[1..])
  }

  /** The loop over the `<hit>` children of `<hits>` (models.py:59-76). */
  function ValidateHitList(hits: seq<Element>): Outcome<Invalid>
  {
    if |hits| == 0 then Pass
    else if hits[0].tag != "hit" then Fail(ChildTag)
    else match ValidateHitBody(hits[0])
      case Fail(err) => Fail(err)
      case Pass => ValidateHitList(hits[1..])
  }

  /** `validate_hits_xml_file` (models.py:45-82). */
  function ValidateHits(p: Parsed): Outcome<Invalid>
  {
    match p
    case ParseFailed => Fail(ParseError)
    case Tree(root) =>
      if root.tag != "hits" then Fail(RootTag("hits")) else ValidateHitList(root.children)
  }

  /** `validate_hit_xml`: the same rules applied to a `<hit>` root (models.py:85-115). */
  function ValidateHit(p: Parsed): Outcome<Invalid>
  {
    match p
    case ParseFailed => Fail(ParseError)
    case Tree(root) =>
      if root.tag != "hit" then Fail(RootTag("hit")) else ValidateHitNested(root, RequiredAttributes)
  }

  // ---------------------------------------------------------------------
  // The validators accept exactly the documents of the declarative shape.

  /** The source check holds iff every `source` child has text, given there is exactly one. */
  lemma OneSourceText(ch: seq<Element>)
    requires CountTag(ch, "source") == 1
    ensures FindAll(ch, "source")[0].text.Some?
        <==> forall i :: 0 <= i < |ch| && ch[i].tag == "source" ==> ch[i].text.Some?
  {
    var k := FirstTagged(ch, "source");
    FindAllAt(ch, "source", k);
    forall i | 0 <= i < |ch| && ch[i].tag == "source"
      ensures ch[i] == ch[k]
    {
      OnlyTagged(ch, "source", i, k);
    }
  }

  lemma TranslationsHaveText(ch: seq<Element>)
    ensures (exists t :: t in FindAll(ch, "translation") && t.text.None?)
        <==> !(forall i :: 0 <= i < |ch| && ch[i].tag == "translation" ==> ch[i].text.Some?)
  {
    var all := FindAll(ch, "translation");
    FindAllMembers(ch, "translation");
    if exists t :: t in all && t.text.None? {
      var t :| t in all && t.text.None?;
      var i :| 0 <= i < |ch| && ch[i] == t;
    }
  }

  lemma ReferenceHasText(ch: seq<Element>)
    ensures (Find(ch, "reference").Some? && Find(ch, "reference").value.text.None?)
        <==> !(forall i :: 0 <= i < |ch| && FirstWithTag(ch, "reference", i) ==> ch[i].text.Some?)
  {
    var r := Find(ch, "reference");
    if r.Some? {
      var k :| FirstWithTag(ch, "reference", k) && r.value == ch[k];
      forall i | FirstWithTag(ch, "reference", i) ensures i == k {
      }
    } else {
      forall i | FirstWithTag(ch, "reference", i) ensures false {
        CountTagPositive(ch, "reference", i);
      }
    }
  }

  /** `validate_item_xml` accepts an element iff it has the shape of a `<seg>` (models.py:440-459). */
  lemma ValidateSegAccepts(e: Element)
    ensures ValidateSeg(e).Pass? <==> IsSeg(e)
  {
    var ch := e.children;
    if CountTag(ch, "source") == 1 {
      OneSourceText(ch);
    }
    ReferenceHasText(ch);
    TranslationsHaveText(ch);
  }

  lemma {:induction false} ValidateSegsAccepts(segs: seq<Element>)
    ensures ValidateSegs(segs).Pass? <==> forall j :: 0 <= j < |segs| ==> IsSeg(segs[j])
    decreases |segs|
  {
    if |segs| > 0 {
      ValidateSegAccepts(segs[0]);
      ValidateSegsAccepts(segs[1..]);
      assert forall j :: 1 <= j < |segs| ==> segs[j] == segs[1..][j - 1];
    }
  }

  lemma ValidateHitBodyAccepts(h: Element)
    requires h.tag == "hit"
    ensures ValidateHitBody(h).Pass? <==> IsHit(h)
  {
    ValidateSegsAccepts(h.children);
  }

  lemma {:induction false} ValidateHitListAccepts(hits: seq<Element>)
    ensures ValidateHitList(hits).Pass? <==> forall i :: 0 <= i < |hits| ==> IsHit(hits[i])
    decreases |hits|
  {
    if |hits| > 0 {
      if hits[0].tag == "hit" {
        ValidateHitBodyAccepts(hits[0]);
      }
      ValidateHitListAccepts(hits[1..]);
      assert forall i :: 1 <= i < |hits| ==> hits[i] == hits[1..][i - 1];
    }
  }

  /** `validate_hits_xml_file` accepts iff the document parses and has the batch shape; any failure is one error. */
  lemma ValidateHitsAccepts(p: Parsed)
    ensures ValidateHits(p).Pass? <==> p.Tree? && IsHitsDocument(p.root)
  {
    if p.Tree? && p.root.tag == "hits" {
      ValidateHitListAccepts(p.root.children);
    }
  }

  /**
   * The nested loop fails at the first missing attribute, unless the segments
   * fail before it is reached; it passes iff every attribute is present and
   * the segments pass.
   */
  lemma {:induction false} ValidateHitNestedOrder(h: Element, required: seq<string>)
    requires |required| > 0
    ensures ValidateHitNested(h, required) ==
      if !HasKey(h.attrs, required[0]) then Fail(MissingAttribute(required[0]))
      else if ValidateSegCount(h).Fail? then ValidateSegCount(h)
      else match FirstMissing(h.attrs, required)
        case Some(a) => Fail(MissingAttribute(a))
        case None => Pass
    decreases |required|
  {
    if HasKey(h.attrs, required[0]) && ValidateSegCount(h).Pass? && |required| > 1 {
      ValidateHitNestedOrder(h, required[1..]);
    }
  }

  /** `validate_hit_xml` accepts iff the document parses and its root is a valid `<hit>`. */
  lemma ValidateHitAccepts(p: Parsed)
    ensures ValidateHit(p).Pass? <==> p.Tree? && IsHit(p.root)
  {
    if p.Tree? && p.root.tag == "hit" {
      ValidateHitNestedOrder(p.root, RequiredAttributes);
      ValidateHitBodyAccepts(p.root);
    }
  }

  /**
   * The two validators accept the same `<hit>` elements but may report
   * different first errors: with `block-id` present, a segment error of
   * `validate_hit_xml` comes before any later missing attribute.
   */
  lemma SegmentErrorFirst(h: Element)
    requires h.tag == "hit" && HasKey(h.attrs, "block-id") && ValidateSegCount(h).Fail?
    ensures ValidateHit(Tree(h)) == ValidateSegCount(h)
  {
    ValidateHitNestedOrder(h, RequiredAttributes);
  }

  /** `<hit block-id="1"/>`: one validator reports the segment count, the other a missing language. */
  lemma EmptyHitErrorsDiffer(id: string)
    ensures ValidateHit(Tree(Element("hit", [("block-id", id)], None, []))) == Fail(SegCount)
    ensures ValidateHitBody(Element("hit", [("block-id", id)], None, [])) == Fail(MissingAttribute("source-language"))
  {
    var h := Element("hit", [("block-id", id)], None, []);
    assert h.attrs[0].0 == "block-id";
    assert !HasKey(h.attrs, "source-language");
    SegmentErrorFirst(h);
    assert RequiredAttributes[0] == "block-id";
    assert RequiredAttributes[1..][0] == "source-language";
    assert FirstMissing(h.attrs, RequiredAttributes[1..]) == Some("source-language");
  }

  /** A batch wrapping one `<hit>` is accepted iff that `<hit>` is accepted on its own. */
  lemma BatchOfOne(attrs: Attrs, text: Option<string>, h: Element)
    ensures ValidateHits(Tree(Element("hits", attrs, text, [h]))).Pass? <==> ValidateHit(Tree(h)).Pass?
  {
    ValidateHitsAccepts(Tree(Element("hits", attrs, text, [h])));
    ValidateHitAccepts(Tree(h));
  }

  /** A batch with no `<hit>` children at all is accepted. */
  lemma EmptyBatchAccepted(attrs: Attrs, text: Option<string>)
    ensures ValidateHits(Tree(Element("hits", attrs, text, []))) == Pass
  {
  }

  /** Only the first `<reference>` is checked: a second one without text is accepted. */
  lemma SecondReferenceUnchecked(src: Element, ref1: Element, ref2: Element, ts: seq<Element>)
    requires src.tag == "source" && src.text.Some?
    requires ref1.tag == "reference" && ref1.text.Some?
    requires ref2.tag == "reference" && ref2.text.None?
    requires |ts| == TranslationsPerSeg
    requires forall k :: 0 <= k < |ts| ==> ts[k].tag == "translation" && ts[k].text.Some?
    ensures ValidateSeg(Element("seg", [], None, [src, ref1, ref2] + ts)) == Pass
  {
    var ch := [src, ref1, ref2] + ts;
    SecondReferenceFinds(src, ref1, ref2, ts);
    assert forall t :: t in ts ==> t.text.Some?;
  }

  lemma SecondReferenceFinds(src: Element, ref1: Element, ref2: Element, ts: seq<Element>)
    requires src.tag == "source" && ref1.tag == "reference" && ref2.tag == "reference"
    requires forall k :: 0 <= k < |ts| ==> ts[k].tag == "translation"
    ensures FindAll([src, ref1, ref2] + ts, "source") == [src]
    ensures FindAll([src, ref1, ref2] + ts, "translation") == ts
    ensures Find([src, ref1, ref2] + ts, "reference") == Some(ref1)
  {
    AllTagged(ts, "translation");
    NoneTagged(ts, "source");
    NoneTagged(ts, "reference");
    ThreeHeads(src, ref1, ref2, ts, "source");
    ThreeHeads(src, ref1, ref2, ts, "translation");
    ThreeHeads(src, ref1, ref2, ts, "reference");
  }

  /** `findall` over three known children followed by the rest. */
  lemma ThreeHeads(x: Element, y: Element, z: Element, rest: seq<Element>, tag: string)
    ensures FindAll([x, y, z] + rest, tag)
      == (if x.tag == tag then [x] else []) + ((if y.tag == tag then [y] else [])
       + ((if z.tag == tag then [z] else []) + FindAll(rest, tag)))
  {
    assert [x, y, z] + rest == [x] + ([y] + ([z] + rest));
    FindAllCons(z, rest, tag);
    FindAllCons(y, [z] + rest, tag);
    FindAllCons(x, [y] + ([z] + rest), tag);
  }

  lemma {:induction false} AllTagged(es: seq<Element>, tag: string)
    requires forall k :: 0 <= k < |es| ==> es[k].tag == tag
    ensures FindAll(es, tag) == es
    decreases |es|
  {
    if |es| > 0 {
      AllTagged(es[1..], tag);
    }
  }

  lemma {:induction false} NoneTagged(es: seq<Element>, tag: string)
    requires forall k :: 0 <= k < |es| ==> es[k].tag != tag
    ensures FindAll(es, tag) == []
    decreases |es|
  {
    if |es| > 0 {
      NoneTagged(es[1..], tag);
    }
  }
}
