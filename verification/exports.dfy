/**
 * The context records the `export_to_*_xml` methods of `RankingResult` hand
 * to their templates (appraise/wmt13/models.py:624-800). Rendering the
 * template text is not modelled; an uncaught Python exception on the way to
 * the context is `Raised`.
 */
module Exports {
  import opened Basics
  import opened Text
  import opened Xml
  import opened Segments
  import opened Results
  import opened ErrorOrder
  import opened Clock

  /** The judge, handed to the templates as the user object. */
  type UserId = string

  /** A context handed to the template, or the exception that prevented it. */
  datatype Export<C> = Rendered(context: C) | Raised

  /** Quality checking and 3-way ranking (models.py:644-661, 783-800). */
  datatype TextContext = TextContext(
    attributes: string, duration: string, result: Option<string>, skipped: bool, user: UserId)

  /** Ranking (models.py:663-690): one (translation attributes, rank) pair per translation. */
  datatype RankingContext = RankingContext(
    attributes: string, duration: string, skipped: bool, translations: seq<(string, int)>, user: UserId)

  /** Post-editing (models.py:692-733). */
  datatype PostEditContext = PostEditContext(
    attributes: string, duration: string, editId: Option<string>, fromScratch: bool,
    postedited: string, skipped: bool, translationAttributes: string, user: UserId)

  /** Error classification (models.py:735-781). */
  datatype ErrorContext = ErrorContext(
    attributes: string, duration: string, errors: seq<Triple>, missingWords: bool,
    skipped: bool, tooManyErrors: bool, user: UserId)

  /** A stored result: the item it judges, the judge, the duration and the raw string. */
  datatype ResultRecord = ResultRecord(item: ItemFields, user: UserId, duration: Option<Time>, raw: string)
  {
    predicate Valid()
    {
      duration.Some? ==> duration.value.Valid()
    }
  }

  const FromScratch: string := "FROM_SCRATCH"
  const MissingWords: string := "MISSING_WORDS"
  const TooManyErrors: string := "TOO_MANY_ERRORS"

  // ---------------------------------------------------------------------
  // Quality checking and 3-way ranking.

  function ExportText(item: ItemFields, d: Decoded<string>, duration: string, user: UserId): (r: Export<TextContext>)
    ensures r.Rendered? <==> item.attributes.Some? && !d.Failed?
    ensures r.Rendered? ==>
      && r.context.attributes == RenderAttrs(item.attributes.value)
      && (r.context.skipped <==> d.Skipped?)
      && (r.context.result.Some? <==> d.Ok?)
      && (d.Ok? ==> r.context.result.value == d.value)
  {
    if item.attributes.None? then Raised
    else match d
      case Skipped => Rendered(TextContext(RenderAttrs(item.attributes.value), duration, None, true, user))
      case Ok(text) => Rendered(TextContext(RenderAttrs(item.attributes.value), duration, Some(text), false, user))
      case Failed => Raised
  }

  // ---------------------------------------------------------------------
  // Ranking.

  /** `(attributes of translation i, ranks[i])` for every translation, in order. */
  function RankPairs(translations: seq<TextAttrs>, ranks: seq<int>): (r: seq<(string, int)>)
    requires |ranks| >= |translations|
    ensures |r| == |translations|
    ensures forall i :: 0 <= i < |r| ==> r[i] == (RenderAttrs(translations[i].1), ranks[i])
  {
    if |translations| == 0 then []
    else [(RenderAttrs(translations[0].1), ranks[0])] + RankPairs(translations[1..], ranks[1..])
  }

  /**
   * `export_to_ranking_xml`. Skipped iff the result was left undecoded, and
   * then no pairs; otherwise translation i is paired with rank i, which needs
   * at least as many ranks as translations (extra ranks are ignored).
   */
  function ExportRanking(item: ItemFields, d: Decoded<seq<int>>, duration: string, user: UserId): (r: Export<RankingContext>)
    ensures r.Rendered? <==>
      && item.attributes.Some?
      && (|| d.Skipped?
          || (d.Ok? && item.translations.Some? && |d.value| >= |item.translations.value|)
          || (d.Failed? && item.translations == Some([])))
    ensures r.Rendered? ==>
      && r.context.attributes == RenderAttrs(item.attributes.value)
      && (r.context.skipped <==> d.Skipped?)
      && (d.Skipped? ==> r.context.translations == [])
    ensures r.Rendered? && d.Ok? ==>
      && |r.context.translations| == |item.translations.value|
      && forall i :: 0 <= i < |r.context.translations| ==>
           r.context.translations[i] == (RenderAttrs(item.translations.value[i].1), d.value[i])
  {
    if item.attributes.None? then Raised
    else
      var attributes := RenderAttrs(item.attributes.value);
      match d
      case Skipped => Rendered(RankingContext(attributes, duration, true, [], user))
      case Ok(ranks) =>
        if item.translations.None? || |ranks| < |item.translations.value| then Raised
        else Rendered(RankingContext(attributes, duration, false, RankPairs(item.translations.value, ranks), user))
      case Failed =>
        if item.translations == Some([]) then Rendered(RankingContext(attributes, duration, false, [], user))
        else Raised
  }

  // ---------------------------------------------------------------------
  // Post-editing.

  /** The element Python's `xs[i]` selects: negative indices count from the end. */
  function PyIndex(i: int, n: nat): (k: int)
    ensures -(n as int) <= i < n ==> 0 <= k < n
    ensures 0 <= i ==> k == i
    ensures i < 0 ==> n - k == -i   // the `-i`-th element from the end
  {
    if i < 0 then i + n else i
  }

  /** Python's `xs[i]` on a list of `n` elements succeeds iff `-n <= i < n`. */
  predicate InIndexRange(i: int, n: nat)
  {
    -(n as int) <= i < n
  }

  /**
   * The lines of a post-edit that export without raising: `results[0]`,
   * then `results[1]` after `FROM_SCRATCH`, an `int()` edit id, and a
   * translation at that index.
   */
  predicate EditRenders(item: ItemFields, lines: seq<string>)
  {
    && |lines| >= 1 && (lines[0] == FromScratch ==> |lines| >= 2)
    && item.translations.Some?
    && var id := if lines[0] == FromScratch then lines[1] else lines[0];
       ParseInt(id).Some? && InIndexRange(ParseInt(id).value, |item.translations.value|)
  }

  /**
   * What a rendered post-edit context holds for decoded lines: the
   * from-scratch flag, the edit id line, the last line as the edited text,
   * and the attributes of the translation Python's index `int(edit_id)` selects.
   */
  predicate EditExported(item: ItemFields, lines: seq<string>, c: PostEditContext)
  {
    && |lines| >= 1
    && (c.fromScratch <==> lines[0] == FromScratch)
    && (c.fromScratch ==> |lines| >= 2)
    && c.editId == Some(if c.fromScratch then lines[1] else lines[0])
    && c.postedited == lines[|lines| - 1]
    && item.translations.Some?
    && var index := ParseInt(c.editId.value);
       && index.Some? && InIndexRange(index.value, |item.translations.value|)
       && c.translationAttributes == RenderAttrs(item.translations.value[PyIndex(index.value, |item.translations.value|)].1)
  }

  /**
   * `export_to_postediting_xml`. The first line may be `FROM_SCRATCH`; the
   * edited translation's index is the line after it, or the first line; the
   * edited text is the last line. The exported translation attributes are
   * those of the translation that index selects.
   */
  function ExportPostEdit(item: ItemFields, d: Decoded<seq<string>>, duration: string, user: UserId): (r: Export<PostEditContext>)
    ensures r.Rendered? <==> item.attributes.Some? && (d.Skipped? || (d.Ok? && EditRenders(item, d.value)))
    ensures r.Rendered? ==>
      && item.attributes.Some?
      && r.context.attributes == RenderAttrs(item.attributes.value)
      && (r.context.skipped <==> d.Skipped?)
    ensures r.Rendered? && d.Skipped? ==>
      && r.context.editId.None? && !r.context.fromScratch
      && r.context.postedited == "" && r.context.translationAttributes == ""
    ensures r.Rendered? && d.Ok? ==> EditExported(item, d.value, r.context)
    ensures d.Failed? ==> r.Raised?
  {
    if item.attributes.None? then Raised
    else
      match d
      case Skipped => Rendered(PostEditContext(RenderAttrs(item.attributes.value), duration, None, false, "", true, "", user))
      case Failed => Raised
      case Ok(lines) => ExportEditLines(item, lines, duration, user)
  }

  /** The post-editing export of decoded lines: raises where indexing the lines or the translations raises. */
  function ExportEditLines(item: ItemFields, lines: seq<string>, duration: string, user: UserId): (r: Export<PostEditContext>)
    requires item.attributes.Some?
    ensures r.Rendered? <==> EditRenders(item, lines)
    ensures r.Rendered? ==>
      && r.context.attributes == RenderAttrs(item.attributes.value)
      && !r.context.skipped
      && EditExported(item, lines, r.context)
  {
    if |lines| == 0 then Raised
    else
      var fromScratch := lines[0] == FromScratch;
      if fromScratch && |lines| < 2 then Raised
      else
        var editId := if fromScratch then lines[1] else lines[0];
        match ParseInt(editId)
        case None => Raised
        case Some(i) =>
          if item.translations.None? || !InIndexRange(i, |item.translations.value|) then Raised
          else
            var n := |item.translations.value|;
            var chosen := item.translations.value[PyIndex(i, n)].1;
            Rendered(PostEditContext(RenderAttrs(item.attributes.value), duration, Some(editId), fromScratch,
                                     lines[|lines| - 1], false, RenderAttrs(chosen), user))
  }

  /** The raw post-editing string a client submits. */
  function EncodePostEdit(fromScratch: bool, index: nat, text: string): string
  {
    Join((if fromScratch then [FromScratch] else []) + [IntToString(index), text], '\n')
  }

  // ---------------------------------------------------------------------
  // Error classification.

  /** What the loop over decoded lines collects (models.py:748-764). */
  datatype Scan = Scan(errors: seq<Triple>, missingWords: bool, tooManyErrors: bool)

  /** `error_class, severity = details.split(':')` for every comma part; `None` is the `ValueError`. */
  function Details(word: int, parts: seq<string>): (r: Option<seq<Triple>>)
    ensures r.Some? <==> forall j :: 0 <= j < |parts| ==> |Split(parts[j], ':')| == 2
    ensures r.Some? ==> |r.value| == |parts|
    ensures r.Some? ==> forall j :: 0 <= j < |parts| ==>
      r.value[j] == (word, Split(parts[j], ':')[0], Split(parts[j], ':')[1])
  {
    if |parts| == 0 then Some([])
    else
      var fields := Split(parts[0], ':');
      var rest := Details(word, parts[1..]);
      assert forall j :: 1 <= j < |parts| ==> parts[j] == parts[1..][j - 1];
      if |fields| != 2 || rest.None? then None
      else Some([(word, fields[0], fields[1])] + rest.value)
  }

  /** One decoded line: a `word=details` entry, a marker, or something ignored. */
  function ScanEntry(entry: seq<string>): (r: Option<Scan>)
    ensures r.Some? ==> |entry| >= 1
    ensures r.Some? && |entry| != 2 ==> r.value.errors == []
    ensures r.Some? ==> (r.value.missingWords <==> |entry| != 2 && entry[0] == MissingWords)
    ensures r.Some? ==> (r.value.tooManyErrors <==> |entry| != 2 && entry[0] == TooManyErrors)
    ensures r.None? <==>
      || |entry| == 0
      || (|entry| == 2 && (ParseInt(entry[0]).None? || Details(ParseInt(entry[0]).value, Split(entry[1], ',')).None?))
  {
    if |entry| == 2 then
      match ParseInt(entry[0])
      case None => None
      case Some(word) =>
        match Details(word, Split(entry[1], ','))
        case None => None
        case Some(errors) => Some(Scan(errors, false, false))
    else if |entry| == 0 then None
    else if entry[0] == MissingWords then Some(Scan([], true, false))
    else if entry[0] == TooManyErrors then Some(Scan([], false, true))
    else Some(Scan([], false, false))
  }

  /** The whole loop: errors in line order, flags set by any marker line; `None` if anything raised. */
  function ScanAll(entries: seq<seq<string>>): Option<Scan>
  {
    if |entries| == 0 then Some(Scan([], false, false))
    else
      var head := ScanEntry(entries[0]);
      var rest := ScanAll(entries[1..]);
      if head.None? || rest.None? then None
      else Some(Merge(head.value, rest.value))
  }

  /** What two stretches of lines collect together. */
  function Merge(x: Scan, y: Scan): Scan
  {
    Scan(x.errors + y.errors, x.missingWords || y.missingWords, x.tooManyErrors || y.tooManyErrors)
  }

  lemma MergeAssociative(x: Scan, y: Scan, z: Scan)
    ensures Merge(x, Merge(y, z)) == Merge(Merge(x, y), z)
  {
    assert x.errors + (y.errors + z.errors) == (x.errors + y.errors) + z.errors;
  }

  lemma MergeEmpty(x: Scan)
    ensures Merge(Scan([], false, false), x) == x
    ensures Merge(x, Scan([], false, false)) == x
  {
    assert [] + x.errors == x.errors;
    assert x.errors + [] == x.errors;
  }

  /**
   * The loop raises iff some line raises; a flag is set iff some line that is
   * not a `word=details` entry is the corresponding marker.
   */
  lemma {:induction false} ScanFlags(entries: seq<seq<string>>)
    ensures ScanAll(entries).Some? <==> forall i :: 0 <= i < |entries| ==> ScanEntry(entries[i]).Some?
    ensures ScanAll(entries).Some? ==> (ScanAll(entries).value.missingWords <==>
      exists i :: 0 <= i < |entries| && 0 < |entries[i]| != 2 && entries[i][0] == MissingWords)
    ensures ScanAll(entries).Some? ==> (ScanAll(entries).value.tooManyErrors <==>
      exists i :: 0 <= i < |entries| && 0 < |entries[i]| != 2 && entries[i][0] == TooManyErrors)
    decreases |entries|
  {
    if |entries| > 0 {
      ScanFlags(entries[1..]);
      assert forall i :: 1 <= i < |entries| ==> entries[i] == entries[1..][i - 1];
    }
  }

  /**
   * `export_to_error_classification_xml`. The attributes are the item's
   * followed by those of its first translation; errors are sorted by tuple.
   */
  function ExportErrors(item: ItemFields, d: Decoded<seq<seq<string>>>, duration: string, user: UserId): (r: Export<ErrorContext>)
    ensures r.Rendered? <==>
      && item.attributes.Some? && item.translations.Some? && |item.translations.value| > 0
      && (d.Skipped? || (d.Ok? && ScanAll(d.value).Some?))
    ensures r.Rendered? ==>
      && item.attributes.Some? && item.translations.Some? && |item.translations.value| > 0
      && r.context.attributes == RenderAttrs(item.attributes.value + item.translations.value[0].1)
      && (r.context.skipped <==> d.Skipped?)
      && Sorted(r.context.errors)
    ensures r.Rendered? && d.Skipped? ==>
      r.context.errors == [] && !r.context.missingWords && !r.context.tooManyErrors
    ensures r.Rendered? && d.Ok? ==>
      && ScanAll(d.value).Some?
      && multiset(r.context.errors) == multiset(ScanAll(d.value).value.errors)
      && r.context.missingWords == ScanAll(d.value).value.missingWords
      && r.context.tooManyErrors == ScanAll(d.value).value.tooManyErrors
    ensures d.Failed? ==> r.Raised?
  {
    if item.attributes.None? || item.translations.None? || |item.translations.value| == 0 then Raised
    else
      var attributes := RenderAttrs(item.attributes.value + item.translations.value[0].1);
      match d
      case Failed => Raised
      case Skipped => Rendered(ErrorContext(attributes, duration, [], false, true, false, user))
      case Ok(entries) =>
        match ScanAll(entries)
        case None => Raised
        case Some(scan) =>
          Rendered(ErrorContext(attributes, duration, SortTriples(scan.errors),
                                scan.missingWords, false, scan.tooManyErrors, user))
  }

  // ---------------------------------------------------------------------
  // Dispatch.

  datatype ResultContext =
    | QualityCheckingXml(text: TextContext)
    | RankingXml(ranking: RankingContext)
    | PostEditingXml(postEdit: PostEditContext)
    | ErrorClassificationXml(errorClass: ErrorContext)
    | ThreeWayRankingXml(threeWay: TextContext)
  {
    predicate Skipped()
    {
      match this
      case QualityCheckingXml(c) => c.skipped
      case RankingXml(c) => c.skipped
      case PostEditingXml(c) => c.skipped
      case ErrorClassificationXml(c) => c.skipped
      case ThreeWayRankingXml(c) => c.skipped
    }
  }

  function Wrap<C>(e: Export<C>, wrap: C -> ResultContext): Export<ResultContext>
  {
    match e
    case Raised => Raised
    case Rendered(c) => Rendered(wrap(c))
  }

  /** `RankingResult.export_to_xml` (models.py:624-642), decoding the raw result first. */
  function ExportResult(tt: TaskType, rec: ResultRecord): (r: Export<ResultContext>)
    requires rec.Valid()
    ensures r.Rendered? ==> (r.context.Skipped() <==> IsSkip(rec.raw))
  {
    var duration := FormatDuration(rec.duration);
    match tt
    case QualityChecking => Wrap(ExportText(rec.item, DecodeText(rec.raw), duration, rec.user), c => QualityCheckingXml(c))
    case Ranking => Wrap(ExportRanking(rec.item, DecodeRanks(rec.raw), duration, rec.user), c => RankingXml(c))
    case PostEditing => Wrap(ExportPostEdit(rec.item, DecodeLines(rec.raw), duration, rec.user), c => PostEditingXml(c))
    case ErrorClassification => Wrap(ExportErrors(rec.item, DecodeEntries(rec.raw), duration, rec.user), c => ErrorClassificationXml(c))
    case ThreeWayRanking => Wrap(ExportText(rec.item, DecodeText(rec.raw), duration, rec.user), c => ThreeWayRankingXml(c))
  }

  // ---------------------------------------------------------------------
  // Properties across decoding and export.

  /** A skipped result exports as skipped for every task type that renders at all. */
  lemma SkippedExports(tt: TaskType, rec: ResultRecord)
    requires rec.Valid() && IsSkip(rec.raw) && rec.item.attributes.Some?
    requires tt == ErrorClassification ==> rec.item.translations.Some? && |rec.item.translations.value| > 0
    ensures ExportResult(tt, rec).Rendered?
    ensures ExportResult(tt, rec).context.Skipped()
  {
  }

  /**
   * Ranks a client encodes come back paired with the translations in order,
   * and each translation's rendered attributes parse back to its attributes.
   */
  lemma RankingRoundTrip(item: ItemFields, ranks: seq<int>, duration: string, user: UserId)
    requires item.attributes.Some? && item.translations.Some?
    requires |ranks| >= 1 && |ranks| >= |item.translations.value|
    requires forall i :: 0 <= i < |item.translations.value| ==> Renderable(item.translations.value[i].1)
    ensures var r := ExportRanking(item, DecodeRanks(EncodeRanks(ranks)), duration, user);
      && r.Rendered? && !r.context.skipped
      && |r.context.translations| == |item.translations.value|
      && forall i :: 0 <= i < |r.context.translations| ==>
           && r.context.translations[i].1 == ranks[i]
           && ParseAttrs(r.context.translations[i].0) == Some(item.translations.value[i].1)
  {
    RanksRoundTrip(ranks);
    forall i | 0 <= i < |item.translations.value|
      ensures ParseAttrs(RenderAttrs(item.translations.value[i].1)) == Some(item.translations.value[i].1)
    {
      ParseRenderAttrs(item.translations.value[i].1);
    }
  }

  /** Encoded post-edit lines decode to the same lines. */
  lemma PostEditLines(fromScratch: bool, index: nat, text: string)
    requires '\n' !in text
    ensures var lines := (if fromScratch then [FromScratch] else []) + [IntToString(index), text];
      DecodeLines(EncodePostEdit(fromScratch, index, text)) == Ok(lines)
  {
    var lines := (if fromScratch then [FromScratch] else []) + [IntToString(index), text];
    IntToStringChars(index);
    forall i | 0 <= i < |lines| ensures '\n' !in lines[i] {
    }
    SplitJoin(lines, '\n');
    var raw := EncodePostEdit(fromScratch, index, text);
    JoinStartsWithFirst(lines, '\n');
    assert raw[0] == lines[0][0];
    assert lines[0][0] != 'S';
  }

  /**
   * A post-edit a client encodes exports the index it names, the edited
   * text, the from-scratch flag, and the attributes of the chosen translation.
   */
  lemma PostEditRoundTrip(item: ItemFields, fromScratch: bool, index: nat, text: string, duration: string, user: UserId)
    requires item.attributes.Some? && item.translations.Some? && index < |item.translations.value|
    requires '\n' !in text
    ensures var r := ExportPostEdit(item, DecodeLines(EncodePostEdit(fromScratch, index, text)), duration, user);
      && r.Rendered? && !r.context.skipped
      && r.context.fromScratch == fromScratch
      && r.context.editId == Some(IntToString(index))
      && r.context.postedited == text
      && r.context.translationAttributes == RenderAttrs(item.translations.value[index].1)
  {
    PostEditLines(fromScratch, index, text);
    ParseIntToString(index);
    IndexIsNoMarker(index);
    ExportEdited(item, fromScratch, IntToString(index), index, text, duration, user);
  }

  lemma IndexIsNoMarker(index: int)
    ensures IntToString(index) != FromScratch
  {
    IntToStringChars(index);
    assert IntToString(index)[0] != 'F';
  }

  /** Decoded post-edit lines naming a valid index export that translation and the edited text. */
  lemma ExportEdited(item: ItemFields, fromScratch: bool, id: string, index: int, text: string, duration: string, user: UserId)
    requires item.attributes.Some? && item.translations.Some? && 0 <= index < |item.translations.value|
    requires id != FromScratch && ParseInt(id) == Some(index)
    ensures var r := ExportPostEdit(item, Ok((if fromScratch then [FromScratch] else []) + [id, text]), duration, user);
      && r.Rendered? && !r.context.skipped
      && r.context.fromScratch == fromScratch
      && r.context.editId == Some(id)
      && r.context.postedited == text
      && r.context.translationAttributes == RenderAttrs(item.translations.value[index].1)
  {
    var lines := (if fromScratch then [FromScratch] else []) + [id, text];
    assert lines[0] == FromScratch <==> fromScratch;
    assert (if fromScratch then lines[1] else lines[0]) == id;
  }

  // ---------------------------------------------------------------------
  // The client side of the error-classification grammar, and the round trip.

  /** A word the judge marked: its index and the (class, severity) pairs on it. */
  datatype Marked = Marked(word: int, details: seq<(string, string)>)

  /** Text that may stand as an error class or severity inside a raw result. */
  predicate Clean(t: string)
  {
    ':' !in t && ',' !in t && '=' !in t && '\n' !in t
  }

  predicate WellMarked(ms: seq<Marked>)
  {
    forall i :: 0 <= i < |ms| ==>
      && |ms[i].details| >= 1
      && forall j :: 0 <= j < |ms[i].details| ==> Clean(ms[i].details[j].0) && Clean(ms[i].details[j].1)
  }

  function DetailTexts(ds: seq<(string, string)>): (r: seq<string>)
    ensures |r| == |ds|
    ensures forall j :: 0 <= j < |ds| ==> r[j] == ds[j].0 + [':'] + ds[j].1
  {
    if |ds| == 0 then [] else [ds[0].0 + [':'] + ds[0].1] + DetailTexts(ds[1..])
  }

  /** The `word=class:severity,...` line for one marked word. */
  function EntryLine(m: Marked): string
  {
    IntToString(m.word) + ['='] + Join(DetailTexts(m.details), ',')
  }

  function EntryLines(ms: seq<Marked>): (r: seq<string>)
    ensures |r| == |ms|
    ensures forall i :: 0 <= i < |ms| ==> r[i] == EntryLine(ms[i])
  {
    if |ms| == 0 then [] else [EntryLine(ms[0])] + EntryLines(ms[1..])
  }

  function MarkerLines(missing: bool, tooMany: bool): seq<string>
  {
    (if missing then [MissingWords] else []) + (if tooMany then [TooManyErrors] else [])
  }

  /** The raw error-classification string a client submits. */
  function EncodeErrors(ms: seq<Marked>, missing: bool, tooMany: bool): string
  {
    Join(EntryLines(ms) + MarkerLines(missing, tooMany), '\n')
  }

  function WordTriples(word: int, ds: seq<(string, string)>): (r: seq<Triple>)
    ensures |r| == |ds|
    ensures forall j :: 0 <= j < |ds| ==> r[j] == (word, ds[j].0, ds[j].1)
  {
    if |ds| == 0 then [] else [(word, ds[0].0, ds[0].1)] + WordTriples(word, ds[1..])
  }

  /** Every (word, class, severity) the judge marked, word by word. */
  function MarkedTriples(ms: seq<Marked>): seq<Triple>
  {
    if |ms| == 0 then [] else WordTriples(ms[0].word, ms[0].details) + MarkedTriples(ms[1..])
  }

  /** The loop over a concatenation collects both halves' errors and flags. */
  lemma {:induction false} ScanAllAppend(a: seq<seq<string>>, b: seq<seq<string>>)
    requires ScanAll(a).Some? && ScanAll(b).Some?
    ensures ScanAll(a + b) == Some(Merge(ScanAll(a).value, ScanAll(b).value))
    decreases |a|
  {
    if |a| == 0 {
      assert a + b == b;
      MergeEmpty(ScanAll(b).value);
    } else {
      var h := ScanEntry(a[0]).value;
      ScanAllAppend(a[1..], b);
      assert (a + b)[0] == a[0];
      assert (a + b)[1..] == a[1..] + b;
      MergeAssociative(h, ScanAll(a[1..]).value, ScanAll(b).value);
    }
  }

  lemma DetailsOfTexts(word: int, ds: seq<(string, string)>)
    requires forall j :: 0 <= j < |ds| ==> Clean(ds[j].0) && Clean(ds[j].1)
    ensures Details(word, DetailTexts(ds)) == Some(WordTriples(word, ds))
  {
    var parts := DetailTexts(ds);
    forall j | 0 <= j < |ds| ensures Split(parts[j], ':') == [ds[j].0, ds[j].1] {
      SplitPrefix(ds[j].0, ':', ds[j].1);
      SplitNoSep(ds[j].1, ':');
    }
  }

  /** A marked word's line splits at `=` into the word and its details. */
  lemma EntrySplits(m: Marked)
    requires |m.details| >= 1
    requires forall j :: 0 <= j < |m.details| ==> Clean(m.details[j].0) && Clean(m.details[j].1)
    ensures Split(EntryLine(m), '=') == [IntToString(m.word), Join(DetailTexts(m.details), ',')]
    ensures '\n' !in EntryLine(m)
  {
    var texts := DetailTexts(m.details);
    forall j | 0 <= j < |texts| ensures '=' !in texts[j] && '\n' !in texts[j] {
    }
    JoinAvoids(texts, ',', '=');
    JoinAvoids(texts, ',', '\n');
    IntToStringChars(m.word);
    SplitPrefix(IntToString(m.word), '=', Join(texts, ','));
    SplitNoSep(Join(texts, ','), '=');
  }

  lemma EntryScans(m: Marked)
    requires |m.details| >= 1
    requires forall j :: 0 <= j < |m.details| ==> Clean(m.details[j].0) && Clean(m.details[j].1)
    ensures ScanEntry(Split(EntryLine(m), '=')) == Some(Scan(WordTriples(m.word, m.details), false, false))
  {
    var texts := DetailTexts(m.details);
    EntrySplits(m);
    ParseIntToString(m.word);
    forall j | 0 <= j < |texts| ensures ',' !in texts[j] {
    }
    SplitJoin(texts, ',');
    DetailsOfTexts(m.word, m.details);
  }

  lemma {:induction false} EntriesScan(ms: seq<Marked>)
    requires WellMarked(ms)
    ensures ScanAll(SplitEach(EntryLines(ms), '=')) == Some(Scan(MarkedTriples(ms), false, false))
    decreases |ms|
  {
    var entries := SplitEach(EntryLines(ms), '=');
    if |ms| > 0 {
      EntryScans(ms[0]);
      assert WellMarked(ms[1..]) by {
        forall i | 0 <= i < |ms[1..]| ensures |ms[1..][i].details| >= 1 {
          assert ms[1..][i] == ms[i + 1];
        }
      }
      EntriesScan(ms[1..]);
      assert entries[1..] == SplitEach(EntryLines(ms[1..]), '=');
    }
  }

  lemma {:induction false} ScanOne(e: seq<string>)
    requires ScanEntry(e).Some?
    ensures ScanAll([e]) == ScanEntry(e)
  {
    assert [e][1..] == [];
    MergeEmpty(ScanEntry(e).value);
  }

  function MarkerEntries(missing: bool, tooMany: bool): seq<seq<string>>
  {
    (if missing then [[MissingWords]] else []) + (if tooMany then [[TooManyErrors]] else [])
  }

  lemma SplitOptional(m: string, t: string, first: bool, second: bool)
    requires '=' !in m && '=' !in t
    ensures SplitEach((if first then [m] else []) + (if second then [t] else []), '=')
         == (if first then [[m]] else []) + (if second then [[t]] else [])
  {
    SplitNoSep(m, '=');
    SplitNoSep(t, '=');
  }

  lemma MarkersSplit(missing: bool, tooMany: bool)
    ensures SplitEach(MarkerLines(missing, tooMany), '=') == MarkerEntries(missing, tooMany)
  {
    SplitOptional(MissingWords, TooManyErrors, missing, tooMany);
  }

  lemma MarkersScan(missing: bool, tooMany: bool)
    ensures ScanAll(MarkerEntries(missing, tooMany)) == Some(Scan([], missing, tooMany))
  {
    var m: seq<seq<string>> := if missing then [[MissingWords]] else [];
    var t: seq<seq<string>> := if tooMany then [[TooManyErrors]] else [];
    ScanOne([MissingWords]);
    ScanOne([TooManyErrors]);
    ScanAllAppend(m, t);
  }

  lemma LinesHaveNoNewline(ms: seq<Marked>, missing: bool, tooMany: bool)
    requires WellMarked(ms)
    ensures forall i :: 0 <= i < |EntryLines(ms) + MarkerLines(missing, tooMany)| ==>
      '\n' !in (EntryLines(ms) + MarkerLines(missing, tooMany))[i]
  {
    var lines := EntryLines(ms) + MarkerLines(missing, tooMany);
    forall i | 0 <= i < |lines| ensures '\n' !in lines[i] {
      if i < |ms| {
        EntrySplits(ms[i]);
      }
    }
  }

  lemma FirstLineStart(ms: seq<Marked>, missing: bool, tooMany: bool)
    requires |ms| > 0 || missing || tooMany
    ensures var lines := EntryLines(ms) + MarkerLines(missing, tooMany);
      |lines| > 0 && |lines[0]| > 0 && lines[0][0] != 'S'
  {
    var lines := EntryLines(ms) + MarkerLines(missing, tooMany);
    if |ms| > 0 {
      IntToStringChars(ms[0].word);
      assert lines[0] == EntryLine(ms[0]);
      assert lines[0][0] == IntToString(ms[0].word)[0];
    } else {
      assert lines == MarkerLines(missing, tooMany);
    }
  }

  /** The encoded string splits back into its lines. */
  lemma ErrorLines(ms: seq<Marked>, missing: bool, tooMany: bool)
    requires WellMarked(ms) && (|ms| > 0 || missing || tooMany)
    ensures Split(EncodeErrors(ms, missing, tooMany), '\n') == EntryLines(ms) + MarkerLines(missing, tooMany)
  {
    LinesHaveNoNewline(ms, missing, tooMany);
    SplitJoin(EntryLines(ms) + MarkerLines(missing, tooMany), '\n');
  }

  /** The encoded string is neither empty nor `SKIPPED`. */
  lemma ErrorsNotSkipped(ms: seq<Marked>, missing: bool, tooMany: bool)
    requires |ms| > 0 || missing || tooMany
    ensures !IsSkip(EncodeErrors(ms, missing, tooMany))
  {
    FirstLineStart(ms, missing, tooMany);
    JoinStartsWithFirst(EntryLines(ms) + MarkerLines(missing, tooMany), '\n');
  }

  lemma EntriesThenMarkers(ms: seq<Marked>, missing: bool, tooMany: bool)
    ensures SplitEach(EntryLines(ms) + MarkerLines(missing, tooMany), '=')
         == SplitEach(EntryLines(ms), '=') + MarkerEntries(missing, tooMany)
  {
    SplitEachAppend(EntryLines(ms), MarkerLines(missing, tooMany), '=');
    MarkersSplit(missing, tooMany);
  }

  lemma ErrorEntries(ms: seq<Marked>, missing: bool, tooMany: bool)
    requires WellMarked(ms) && (|ms| > 0 || missing || tooMany)
    ensures DecodeEntries(EncodeErrors(ms, missing, tooMany))
         == Ok(SplitEach(EntryLines(ms), '=') + MarkerEntries(missing, tooMany))
  {
    ErrorLines(ms, missing, tooMany);
    ErrorsNotSkipped(ms, missing, tooMany);
    EntriesThenMarkers(ms, missing, tooMany);
  }

  lemma EntriesThenMarkersScan(ms: seq<Marked>, missing: bool, tooMany: bool)
    requires WellMarked(ms)
    ensures ScanAll(SplitEach(EntryLines(ms), '=') + MarkerEntries(missing, tooMany))
         == Some(Scan(MarkedTriples(ms), missing, tooMany))
  {
    MarkersScan(missing, tooMany);
    EntriesScan(ms);
    ScanAllAppend(SplitEach(EntryLines(ms), '='), MarkerEntries(missing, tooMany));
    assert MarkedTriples(ms) + [] == MarkedTriples(ms);
  }

  /**
   * Errors a client encodes export as exactly the marked (word, class,
   * severity) triples, sorted, with the two marker flags as submitted.
   */
  lemma ErrorsRoundTrip(item: ItemFields, ms: seq<Marked>, missing: bool, tooMany: bool, duration: string, user: UserId)
    requires item.attributes.Some? && item.translations.Some? && |item.translations.value| > 0
    requires WellMarked(ms) && (|ms| > 0 || missing || tooMany)
    ensures var r := ExportErrors(item, DecodeEntries(EncodeErrors(ms, missing, tooMany)), duration, user);
      && r.Rendered? && !r.context.skipped
      && Sorted(r.context.errors)
      && multiset(r.context.errors) == multiset(MarkedTriples(ms))
      && r.context.missingWords == missing
      && r.context.tooManyErrors == tooMany
  {
    ErrorEntries(ms, missing, tooMany);
    EntriesThenMarkersScan(ms, missing, tooMany);
    ExportScanned(item, DecodeEntries(EncodeErrors(ms, missing, tooMany)), Scan(MarkedTriples(ms), missing, tooMany), duration, user);
  }

  /** An item whose decoded lines scan without raising exports what the scan collected. */
  lemma ExportScanned(item: ItemFields, d: Decoded<seq<seq<string>>>, scan: Scan, duration: string, user: UserId)
    requires item.attributes.Some? && item.translations.Some? && |item.translations.value| > 0
    requires d.Ok? && ScanAll(d.value) == Some(scan)
    ensures var r := ExportErrors(item, d, duration, user);
      && r.Rendered? && !r.context.skipped
      && Sorted(r.context.errors)
      && multiset(r.context.errors) == multiset(scan.errors)
      && r.context.missingWords == scan.missingWords
      && r.context.tooManyErrors == scan.tooManyErrors
  {
  }
}
