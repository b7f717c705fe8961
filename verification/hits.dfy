/**
 * The HIT record and its save rule (appraise/wmt13/models.py:119-223): a
 * HIT is validated and given its ranking items only on the first save; later
 * saves write the fields back and never touch the items again.
 */
module Hits {
  import opened Basics
  import opened Xml
  import opened Validation
  import opened Segments

  /** `LANGUAGE_PAIR_CHOICES` (models.py:29-40). */
  datatype LanguagePair =
    | EngCes | EngDeu | EngSpa | EngFra | EngRus
    | CesEng | DeuEng | SpaEng | FraEng | RusEng

  /** The stored choice value of a language pair. */
  function Code(lp: LanguagePair): (r: string)
    ensures |r| == 7 && r[3..4] == "2"
  {
    match lp
    case EngCes => "eng2ces"
    case EngDeu => "eng2deu"
    case EngSpa => "eng2spa"
    case EngFra => "eng2fra"
    case EngRus => "eng2rus"
    case CesEng => "ces2eng"
    case DeuEng => "deu2eng"
    case SpaEng => "spa2eng"
    case FraEng => "fra2eng"
    case RusEng => "rus2eng"
  }

  /** Distinct choices are stored as distinct values. */
  lemma CodeInjective(a: LanguagePair, b: LanguagePair)
    requires a != b
    ensures Code(a) != Code(b)
  {
  }

  /** The editable fields of a HIT; `hitXml` is the parsed `hit_xml` text. */
  datatype HitFields = HitFields(
    hitId: string,
    blockId: int,
    hitXml: Parsed,
    languagePair: LanguagePair,
    users: set<nat>,
    active: bool)

  /**
   * A HIT as the store sees it: its fields, its primary key once saved, and
   * the `item_xml` of the ranking items created for it.
   */
  datatype HitRecord = HitRecord(fields: HitFields, pk: Option<nat>, items: seq<Element>)

  /** A freshly constructed, unsaved HIT. */
  function New(fields: HitFields): HitRecord
  {
    HitRecord(fields, None, [])
  }

  /** Unsaved HITs have no items; saved ones have three valid `<seg>` items. */
  predicate Consistent(h: HitRecord)
  {
    && (h.pk.None? ==> h.items == [])
    && (h.pk.Some? ==> |h.items| == SegsPerHit && forall i :: 0 <= i < |h.items| ==> IsSeg(h.items[i]))
  }

  /**
   * `HIT.save` (models.py:205-223). On the first save `full_clean` runs
   * `validate_hit_xml`; if it raises nothing is stored, otherwise the HIT gets
   * `newPk` and one item per child of the `<hit>` root, in document order.
   * A HIT that already has a primary key is written back unchanged.
   */
  function Save(h: HitRecord, newPk: nat): (r: Result<HitRecord, Invalid>)
    ensures h.pk.Some? ==> r == Success(h)
    ensures h.pk.None? ==> (r.Success? <==> h.fields.hitXml.Tree? && IsHit(h.fields.hitXml.root))
    ensures h.pk.None? && r.Success? ==>
      && r.value.fields == h.fields
      && r.value.pk == Some(newPk)
      && r.value.items == h.items + h.fields.hitXml.root.children
  {
    if h.pk.Some? then Success(h)
    else
      ValidateHitAccepts(h.fields.hitXml);
      match ValidateHit(h.fields.hitXml)
      case Fail(err) => Failure(err)
      case Pass => Success(h.(pk := Some(newPk), items := h.items + h.fields.hitXml.root.children))
  }

  /** Saving keeps a HIT consistent; the first successful save yields exactly three items. */
  lemma SavePreservesConsistent(h: HitRecord, newPk: nat)
    requires Consistent(h)
    requires Save(h, newPk).Success?
    ensures Consistent(Save(h, newPk).value)
    ensures |Save(h, newPk).value.items| == SegsPerHit
  {
    if h.pk.None? {
      assert h.items + h.fields.hitXml.root.children == h.fields.hitXml.root.children;
    }
  }

  /** A HIT whose XML fails validation is not stored: no key, no items. */
  lemma FailedSaveStoresNothing(fields: HitFields, newPk: nat)
    requires !(fields.hitXml.Tree? && IsHit(fields.hitXml.root))
    ensures Save(New(fields), newPk).Failure?
  {
  }

  /** Saving twice is saving once: items are created only on the first save. */
  lemma SaveTwice(h: HitRecord, p: nat, q: nat)
    requires Save(h, p).Success?
    ensures Save(Save(h, p).value, q) == Save(h, p)
  {
  }

  /** Editing the fields of a saved HIT, even its XML, never re-derives its items. */
  lemma SavedItemsNotRederived(h: HitRecord, f: HitFields, q: nat)
    requires h.pk.Some?
    ensures Save(h.(fields := f), q).Success?
    ensures Save(h.(fields := f), q).value.items == h.items
  {
  }

  /** Each created item passes `validate_item_xml`, so `RankingTask.save` accepts it (models.py:514). */
  lemma CreatedItemsValidate(h: HitRecord)
    requires Consistent(h) && h.pk.Some?
    ensures forall i :: 0 <= i < |h.items| ==> ValidateItem(Tree(h.items[i])) == Pass
  {
    forall i | 0 <= i < |h.items| ensures ValidateItem(Tree(h.items[i])) == Pass {
      ValidateSegAccepts(h.items[i]);
    }
  }

  /**
   * Creating a HIT from a valid `<hit>` document gives three items, taken in
   * document order, each decoding to five translations with text.
   */
  lemma CreatedHitDecodes(fields: HitFields, newPk: nat)
    requires fields.hitXml.Tree? && IsHit(fields.hitXml.root)
    ensures Save(New(fields), newPk).Success?
    ensures
      var items := Save(New(fields), newPk).value.items;
      && items == fields.hitXml.root.children
      && |items| == SegsPerHit
      && forall i :: 0 <= i < |items| ==>
           var r := Reload(Unloaded, Given(Tree(items[i])));
           r.translations.Some? && |r.translations.value| == TranslationsPerSeg
           && r.source.Some? && r.source.value.0.Some?
  {
    var items := Save(New(fields), newPk).value.items;
    assert items == [] + fields.hitXml.root.children;
    assert [] + fields.hitXml.root.children == fields.hitXml.root.children;
    forall i | 0 <= i < |items|
      ensures var r := Reload(Unloaded, Given(Tree(items[i])));
              r.translations.Some? && |r.translations.value| == TranslationsPerSeg
              && r.source.Some? && r.source.value.0.Some?
    {
      ValidSegDecodes(items[i]);
    }
  }
}
