/**
 * `RankingTask.reload_dynamic_fields` (appraise/wmt13/models.py:518-544):
 * the fields of a ranking item derived from its `<seg>` XML on every load.
 */
module Segments {
  import opened Basics
  import opened Xml
  import opened Validation

  /** An element's text and attributes, as the source stores them in a pair. */
  type TextAttrs = (Option<string>, Attrs)

  /** The derived, non-persisted fields of a `RankingTask`; `None` is Python's `None`. */
  datatype ItemFields = ItemFields(
    attributes: Option<Attrs>,
    source: Option<TextAttrs>,
    reference: Option<TextAttrs>,
    translations: Option<seq<TextAttrs>>)

  /** The class-level defaults before any reload. */
  const Unloaded: ItemFields := ItemFields(None, None, None, None)

  /** The stored `item_xml`: blank, or text that `fromstring` parsed (or failed to). */
  datatype ItemXml = Blank | Given(parsed: Parsed)

  function TextAndAttrs(e: Element): TextAttrs
  {
    (e.text, e.attrs)
  }

  function Project(es: seq<Element>): (r: seq<TextAttrs>)
    ensures |r| == |es|
    ensures forall k :: 0 <= k < |es| ==> r[k] == TextAndAttrs(es[k])
  {
    if |es| == 0 then [] else [TextAndAttrs(es[0])] + Project(es[1..])
  }

  /**
   * Reloads the fields from `xml`. A blank `item_xml` leaves everything as it
   * was; a parse failure resets source, reference and translations but keeps
   * the attributes; a missing `<source>` or `<reference>` keeps the old value.
   */
  function Reload(prev: ItemFields, xml: ItemXml): (r: ItemFields)
    ensures xml.Blank? ==> r == prev
    ensures xml == Given(ParseFailed) ==> r == ItemFields(prev.attributes, None, None, None)
    ensures xml.Given? && xml.parsed.Tree? ==>
      var ch := xml.parsed.root.children;
      && r.attributes == Some(xml.parsed.root.attrs)
      && (CountTag(ch, "source") == 0 ==> r.source == prev.source)
      && (forall i :: 0 <= i < |ch| && FirstWithTag(ch, "source", i) ==> r.source == Some(TextAndAttrs(ch[i])))
      && (CountTag(ch, "reference") == 0 ==> r.reference == prev.reference)
      && (forall i :: 0 <= i < |ch| && FirstWithTag(ch, "reference", i) ==> r.reference == Some(TextAndAttrs(ch[i])))
      && r.translations.Some?
      && |r.translations.value| == CountTag(ch, "translation")
      && (forall k :: 0 <= k < |r.translations.value| ==>
            r.translations.value[k] == TextAndAttrs(FindAll(ch, "translation")[k]))
  {
    match xml
    case Blank => prev
    case Given(ParseFailed) => prev.(source := None, reference := None, translations := None)
    case Given(Tree(e)) =>
      var source := Find(e.children, "source");
      var reference := Find(e.children, "reference");
      assert forall i :: FirstWithTag(e.children, "source", i) ==> source == Some(e.children[i]) by {
        forall i | FirstWithTag(e.children, "source", i) ensures source == Some(e.children[i]) {
          FindFirst(e.children, "source", i);
        }
      }
      assert forall i :: FirstWithTag(e.children, "reference", i) ==> reference == Some(e.children[i]) by {
        forall i | FirstWithTag(e.children, "reference", i) ensures reference == Some(e.children[i]) {
          FindFirst(e.children, "reference", i);
        }
      }
      ItemFields(
        Some(e.attrs),
        if source.Some? then Some(TextAndAttrs(source.value)) else prev.source,
        if reference.Some? then Some(TextAndAttrs(reference.value)) else prev.reference,
        Some(Project(FindAll(e.children, "translation"))))
  }

  /**
   * Translations keep document order: a `<translation>` preceded by `n` other
   * translation children is decoded at position `n`.
   */
  lemma TranslationsInDocumentOrder(prev: ItemFields, e: Element, before: seq<Element>, t: Element, after: seq<Element>)
    requires e.children == before + [t] + after
    requires t.tag == "translation"
    ensures
      var r := Reload(prev, Given(Tree(e)));
      var n := CountTag(before, "translation");
      r.translations.Some? && n < |r.translations.value| && r.translations.value[n] == TextAndAttrs(t)
  {
    FindAllAppend(before + [t], after, "translation");
    FindAllAppend(before, [t], "translation");
  }

  /** A parse failure clears source, reference and translations whatever they held. */
  lemma ParseFailureResets(prev: ItemFields)
    ensures Reload(prev, Given(ParseFailed)).source.None?
    ensures Reload(prev, Given(ParseFailed)).reference.None?
    ensures Reload(prev, Given(ParseFailed)).translations.None?
  {
  }

  /**
   * A validated `<seg>` decodes to a source with text, an optional reference
   * with text and exactly five translations with text, in document order.
   */
  lemma ValidSegDecodes(e: Element)
    requires IsSeg(e)
    ensures
      var r := Reload(Unloaded, Given(Tree(e)));
      && r.attributes == Some(e.attrs)
      && r.source.Some? && r.source.value.0.Some?
      && (r.reference.Some? ==> r.reference.value.0.Some?)
      && r.translations.Some?
      && |r.translations.value| == TranslationsPerSeg
      && (forall k :: 0 <= k < TranslationsPerSeg ==> r.translations.value[k].0.Some?)
  {
    var ch := e.children;
    var r := Reload(Unloaded, Given(Tree(e)));
    var s := Find(ch, "source");
    assert s.Some?;
    var ref := Find(ch, "reference");
    var all := FindAll(ch, "translation");
    FindAllMembers(ch, "translation");
    forall k | 0 <= k < TranslationsPerSeg ensures r.translations.value[k].0.Some? {
      assert all[k] in all;
    }
  }
}
