/**
 * The HIT and result admin of appraise/wmt13/admin.py: which HIT fields are
 * editable, the two CSV exports, and the batch loop that averages the
 * agreement coefficients over the HITs for which they could be computed.
 */
module Admin {
  import opened Basics
  import opened Text
  import opened Xml
  import opened Validation
  import Status

  // ---------------------------------------------------------------------
  // `HITAdmin.get_readonly_fields` (admin.py:155-165).

  /** The HIT fields the change form shows (the two fieldsets, admin.py:143-153). */
  datatype AdminField = ActiveField | MturkOnlyField | HitIdField | BlockIdField
                      | LanguagePairField | UsersField | HitXmlField

  const FormFields: seq<AdminField> :=
    [ActiveField, MturkOnlyField, HitIdField, BlockIdField, LanguagePairField, UsersField, HitXmlField]

  /** `hit_id` is always read-only; the rest of the identity only once the HIT exists. */
  function ReadonlyFields(existing: bool): (r: seq<AdminField>)
    ensures |r| > 0 && r[0] == HitIdField
    ensures forall f :: f in r <==>
      f == HitIdField || (existing && (f == BlockIdField || f == HitXmlField || f == LanguagePairField))
    ensures |r| == if existing then 4 else 1
  {
    if existing then [HitIdField, BlockIdField, HitXmlField, LanguagePairField] else [HitIdField]
  }

  /** The fields of the form left editable. */
  function Editable(existing: bool): (r: seq<AdminField>)
    ensures forall f :: f in r <==> f in FormFields && f !in ReadonlyFields(existing)
  {
    Filter(FormFields, ReadonlyFields(existing))
  }

  function Filter(fs: seq<AdminField>, out: seq<AdminField>): (r: seq<AdminField>)
    ensures forall f :: f in r <==> f in fs && f !in out
  {
    if |fs| == 0 then []
    else
      assert forall f :: f in fs <==> f == fs[0] || f in fs[1..];
      (if fs[0] in out then [] else [fs[0]]) + Filter(fs[1..], out)
  }

  /** The form shows every field. */
  lemma EveryFieldShown(f: AdminField)
    ensures f in FormFields
  {
    match f
    case ActiveField => assert FormFields[0] == f;
    case MturkOnlyField => assert FormFields[1] == f;
    case HitIdField => assert FormFields[2] == f;
    case BlockIdField => assert FormFields[3] == f;
    case LanguagePairField => assert FormFields[4] == f;
    case UsersField => assert FormFields[5] == f;
    case HitXmlField => assert FormFields[6] == f;
  }

  /** Creating a HIT leaves every field but `hit_id` editable. */
  lemma EditableOnCreation(f: AdminField)
    ensures f in Editable(false) <==> f != HitIdField
  {
    EveryFieldShown(f);
    assert f in ReadonlyFields(false) <==> f == HitIdField;
  }

  /** Editing an existing HIT leaves only the two flags and the users editable. */
  lemma EditableOnChange(f: AdminField)
    ensures f in Editable(true) <==> f == ActiveField || f == MturkOnlyField || f == UsersField
  {
    EveryFieldShown(f);
    assert f in ReadonlyFields(true) <==> f == HitIdField || f == BlockIdField || f == HitXmlField || f == LanguagePairField;
  }

  // ---------------------------------------------------------------------
  // The selection an admin action receives.

  /**
   * An object of the admin queryset: a HIT (its id, the parsed `hit_xml` and
   * the text its `export_to_apf` returns), a ranking result (the row its
   * `export_to_csv` returns), or anything else, which every action ignores.
   */
  datatype Selected = HitSel(hitId: string, hitXml: Parsed, apf: string)
                    | ResultSel(row: string)
                    | OtherSel

  // ---------------------------------------------------------------------
  // Comma-separated lines.

  /** A CSV cell the source writes unquoted: it must hold neither separator. */
  predicate Cell(s: string)
  {
    ',' !in s && '\n' !in s
  }

  /** A line of cells joined by commas splits back into the cells. */
  lemma LineRoundTrip(cells: seq<string>)
    requires |cells| >= 1
    requires forall i :: 0 <= i < |cells| ==> Cell(cells[i])
    ensures Split(Join(cells, ','), ',') == cells
    ensures '\n' !in Join(cells, ',')
  {
    SplitJoin(cells, ',');
    JoinAvoids(cells, ',', '\n');
  }

  /** A document of newline-free lines splits back into the lines. */
  lemma DocumentRoundTrip(lines: seq<string>)
    requires |lines| >= 1
    requires forall i :: 0 <= i < |lines| ==> '\n' !in lines[i]
    ensures Split(Join(lines, '\n'), '\n') == lines
  {
    SplitJoin(lines, '\n');
  }

  // ---------------------------------------------------------------------
  // `export_hit_ids_to_csv` (admin.py:42-57).

  const HitIdColumns: seq<string> := ["appraise_id", "srclang", "trglang"]

  /** The CSV header `appraise_id,srclang,trglang`. */
  function HitIdHeader(): string
  {
    Join(HitIdColumns, ',')
  }

  /** `_attr['source-language']` and `_attr['target-language']`; `None` for the `KeyError`. */
  function HitIdCells(hitId: string, attrs: Attrs): (r: Option<seq<string>>)
    ensures r.Some? <==> HasKey(attrs, "source-language") && HasKey(attrs, "target-language")
    ensures r.Some? ==>
      && |r.value| == 3 && r.value[0] == hitId
      && ("source-language", r.value[1]) in attrs
      && ("target-language", r.value[2]) in attrs
  {
    match (Lookup(attrs, "source-language"), Lookup(attrs, "target-language"))
    case (Some(src), Some(trg)) => Some([hitId, src, trg])
    case _ => None
  }

  /** The cells of one row per HIT of the selection, in selection order; `None` once any lookup fails. */
  function HitIdRows(sel: seq<Selected>, attrsOf: Parsed -> Attrs): (r: Option<seq<seq<string>>>)
    ensures r.Some? <==> forall i :: 0 <= i < |sel| && sel[i].HitSel? ==>
      HitIdCells(sel[i].hitId, attrsOf(sel[i].hitXml)).Some?
    ensures r.Some? ==> |r.value| == CountHits(sel)
    ensures r.Some? ==> forall k :: 0 <= k < |r.value| ==> |r.value[k]| == 3
    ensures r.Some? ==> forall k :: 0 <= k < |r.value| ==>
      HitIdCells(HitsOf(sel)[k].hitId, attrsOf(HitsOf(sel)[k].hitXml)) == Some(r.value[k])
  {
    if |sel| == 0 then Some([])
    else
      var rest := HitIdRows(sel[1..], attrsOf);
      assert forall i :: 1 <= i < |sel| ==> sel[i] == sel[1..][i - 1];
      match sel[0]
      case HitSel(id, xml, _) =>
        assert HitsOf(sel) == [sel[0]] + HitsOf(sel[1..]);
        (match (HitIdCells(id, attrsOf(xml)), rest)
         case (Some(cells), Some(rows)) => Some([cells] + rows)
         case _ => None)
      case _ =>
        assert HitsOf(sel) == HitsOf(sel[1..]);
        rest
  }

  function CountHits(sel: seq<Selected>): nat
  {
    if |sel| == 0 then 0 else (if sel[0].HitSel? then 1 else 0) + CountHits(sel[1..])
  }

  /** The HITs of the selection, in selection order: what `isinstance(result, HIT)` lets through. */
  function HitsOf(sel: seq<Selected>): (r: seq<Selected>)
    ensures |r| == CountHits(sel)
    ensures forall k :: 0 <= k < |r| ==> r[k].HitSel?
    ensures forall x :: x in r <==> x in sel && x.HitSel?
  {
    if |sel| == 0 then []
    else
      assert forall x :: x in sel <==> x == sel[0] || x in sel[1..];
      (if sel[0].HitSel? then [sel[0]] else []) + HitsOf(sel[1..])
  }

  /** The HITs of two stretches of the selection are those of the first followed by those of the second. */
  lemma {:induction false} HitsOfAppend(a: seq<Selected>, b: seq<Selected>)
    ensures HitsOf(a + b) == HitsOf(a) + HitsOf(b)
    decreases |a|
  {
    if |a| > 0 {
      assert (a + b)[0] == a[0];
      assert (a + b)[1..] == a[1..] + b;
      HitsOfAppend(a[1..], b);
    } else {
      assert a + b == b;
    }
  }

  /** A single selected object is one HIT if it is a HIT, and none otherwise. */
  lemma HitsOfOne(x: Selected)
    ensures HitsOf([x]) == if x.HitSel? then [x] else []
  {
    assert [x][1..] == [];
  }

  function JoinLines(rows: seq<seq<string>>): (r: seq<string>)
    ensures |r| == |rows|
    ensures forall k :: 0 <= k < |rows| ==> r[k] == Join(rows[k], ',')
  {
    if |rows| == 0 then [] else [Join(rows[0], ',')] + JoinLines(rows[1..])
  }

  /** The export text, given where the HIT attributes are looked up. */
  function HitIdsCsvFrom(sel: seq<Selected>, attrsOf: Parsed -> Attrs): Option<string>
  {
    match HitIdRows(sel, attrsOf)
    case None => None
    case Some(rows) => Some(Join([HitIdHeader()] + JoinLines(rows), '\n'))
  }

  /**
   * As written: `hit_attributes` is the class-level `{}` (models.py:156),
   * which nothing fills in, so every lookup misses.
   */
  function ClassAttributes(xml: Parsed): Attrs
  {
    []
  }

  function HitIdsCsvAsWritten(sel: seq<Selected>): Option<string>
  {
    HitIdsCsvFrom(sel, ClassAttributes)
  }

  /** As written, any HIT in the selection raises; a selection without HITs exports only the header. */
  lemma AsWrittenRaisesOnAnyHit(sel: seq<Selected>)
    ensures HitIdsCsvAsWritten(sel).None? <==> exists i :: 0 <= i < |sel| && sel[i].HitSel?
    ensures HitIdsCsvAsWritten(sel).Some? ==> HitIdsCsvAsWritten(sel) == Some(HitIdHeader())
  {
    forall i | 0 <= i < |sel| && sel[i].HitSel?
      ensures HitIdCells(sel[i].hitId, ClassAttributes(sel[i].hitXml)).None?
    {
    }
    NoHitsCountsZero(sel);
    var rows := HitIdRows(sel, ClassAttributes);
    if rows.Some? {
      assert [HitIdHeader()] + JoinLines(rows.value) == [HitIdHeader()];
    }
  }

  lemma {:induction false} NoHitsCountsZero(sel: seq<Selected>)
    ensures CountHits(sel) == 0 <==> forall i :: 0 <= i < |sel| ==> !sel[i].HitSel?
  {
    if |sel| > 0 {
      NoHitsCountsZero(sel[1..]);
      assert forall i :: 1 <= i < |sel| ==> sel[i] == sel[1..][i - 1];
    }
  }

  /** The attributes of the parsed `hit_xml` root, which the export evidently means to read. */
  function RootAttributes(xml: Parsed): Attrs
  {
    if xml.Tree? then xml.root.attrs else []
  }

  /** The HIT-id export reading each HIT's attributes from its `hit_xml`. */
  function HitIdsCsv(sel: seq<Selected>): Option<string>
  {
    HitIdsCsvFrom(sel, RootAttributes)
  }

  /**
   * Every HIT that passed `validate_hit_xml` exports a row, and the k-th row
   * is the k-th HIT's id followed by the two languages of its `<hit>` root.
   */
  lemma ValidHitsExport(sel: seq<Selected>)
    requires forall i :: 0 <= i < |sel| && sel[i].HitSel? ==> sel[i].hitXml.Tree? && IsHit(sel[i].hitXml.root)
    ensures HitIdsCsv(sel).Some?
    ensures HitIdRows(sel, RootAttributes).Some?
    ensures var rows := HitIdRows(sel, RootAttributes).value;
      && |rows| == CountHits(sel)
      && forall k :: 0 <= k < |rows| ==>
        var h := HitsOf(sel)[k];
        && h.hitXml.Tree?
        && Lookup(h.hitXml.root.attrs, "source-language").Some?
        && Lookup(h.hitXml.root.attrs, "target-language").Some?
        && rows[k] == [h.hitId, Lookup(h.hitXml.root.attrs, "source-language").value,
                       Lookup(h.hitXml.root.attrs, "target-language").value]
  {
    forall i | 0 <= i < |sel| && sel[i].HitSel?
      ensures HitIdCells(sel[i].hitId, RootAttributes(sel[i].hitXml)).Some?
    {
      ValidHitCells(sel[i]);
    }
    var rows := HitIdRows(sel, RootAttributes).value;
    forall k | 0 <= k < |rows|
      ensures var h := HitsOf(sel)[k];
        && h.hitXml.Tree?
        && Lookup(h.hitXml.root.attrs, "source-language").Some?
        && Lookup(h.hitXml.root.attrs, "target-language").Some?
        && rows[k] == [h.hitId, Lookup(h.hitXml.root.attrs, "source-language").value,
                       Lookup(h.hitXml.root.attrs, "target-language").value]
    {
      var h := HitsOf(sel)[k];
      assert h in sel;
      ValidHitCells(h);
    }
  }

  /** A valid `<hit>` yields the row of its id and the languages of its root. */
  lemma ValidHitCells(h: Selected)
    requires h.HitSel? && h.hitXml.Tree? && IsHit(h.hitXml.root)
    ensures Lookup(h.hitXml.root.attrs, "source-language").Some?
    ensures Lookup(h.hitXml.root.attrs, "target-language").Some?
    ensures HitIdCells(h.hitId, RootAttributes(h.hitXml)) ==
      Some([h.hitId, Lookup(h.hitXml.root.attrs, "source-language").value,
            Lookup(h.hitXml.root.attrs, "target-language").value])
  {
    var attrs := h.hitXml.root.attrs;
    assert RequiredAttributes[1] == "source-language" && RequiredAttributes[2] == "target-language";
    assert HasKey(attrs, RequiredAttributes[1]) && HasKey(attrs, RequiredAttributes[2]);
  }

  /** A header and rows of unquoted cells split back into the header and the rows. */
  lemma CsvRoundTrip(header: seq<string>, rows: seq<seq<string>>)
    requires |header| >= 1 && forall j :: 0 <= j < |header| ==> Cell(header[j])
    requires forall k :: 0 <= k < |rows| ==> |rows[k]| >= 1 && forall j :: 0 <= j < |rows[k]| ==> Cell(rows[k][j])
    ensures var lines := Split(Join([Join(header, ',')] + JoinLines(rows), '\n'), '\n');
      && |lines| == |rows| + 1
      && Split(lines[0], ',') == header
      && forall k :: 1 <= k < |lines| ==> Split(lines[k], ',') == rows[k - 1]
  {
    var lines := [Join(header, ',')] + JoinLines(rows);
    LineRoundTrip(header);
    forall k | 0 <= k < |rows|
      ensures Split(Join(rows[k], ','), ',') == rows[k] && '\n' !in Join(rows[k], ',')
    {
      LineRoundTrip(rows[k]);
    }
    assert forall k :: 1 <= k < |lines| ==> lines[k] == Join(rows[k - 1], ',');
    assert forall i :: 0 <= i < |lines| ==> '\n' !in lines[i];
    DocumentRoundTrip(lines);
    assert forall k :: 1 <= k < |lines| ==> Split(lines[k], ',') == rows[k - 1];
  }

  lemma HitIdColumnsAreCells()
    ensures forall j :: 0 <= j < |HitIdColumns| ==> Cell(HitIdColumns[j])
  {
  }

  /**
   * When no id or language holds a comma or newline, the export splits back
   * into the header and one three-field line per HIT.
   */
  lemma HitIdsCsvParses(sel: seq<Selected>, attrsOf: Parsed -> Attrs)
    requires HitIdsCsvFrom(sel, attrsOf).Some?
    requires forall k :: 0 <= k < |HitIdRows(sel, attrsOf).value| ==>
      forall j :: 0 <= j < 3 ==> Cell(HitIdRows(sel, attrsOf).value[k][j])
    ensures var lines := Split(HitIdsCsvFrom(sel, attrsOf).value, '\n');
      && |lines| == CountHits(sel) + 1
      && Split(lines[0], ',') == HitIdColumns
      && forall k :: 1 <= k < |lines| ==> Split(lines[k], ',') == HitIdRows(sel, attrsOf).value[k - 1]
  {
    HitIdColumnsAreCells();
    CsvRoundTrip(HitIdColumns, HitIdRows(sel, attrsOf).value);
  }

  // ---------------------------------------------------------------------
  // `export_results_to_csv` (admin.py:168-182).

  /** The 21 columns of the result CSV, in three groups. */
  const SegmentColumns: seq<string> := ["srclang", "trglang", "srcIndex", "documentId", "segmentId", "judgeId"]
  const SystemColumns: seq<string> := [
    "system1Number", "system1Id", "system2Number", "system2Id", "system3Number",
    "system3Id", "system4Number", "system4Id", "system5Number", "system5Id"]
  const RankColumns: seq<string> := ["system1rank", "system2rank", "system3rank", "system4rank", "system5rank"]
  const ResultColumns: seq<string> := SegmentColumns + SystemColumns + RankColumns

  function ResultsHeader(): string
  {
    Join(ResultColumns, ',')
  }

  function CountResults(sel: seq<Selected>): nat
  {
    if |sel| == 0 then 0 else (if sel[0].ResultSel? then 1 else 0) + CountResults(sel[1..])
  }

  /** The rows of the ranking results of the selection: one per ranking result, in selection order. */
  function ResultRows(sel: seq<Selected>): (r: seq<string>)
    ensures |r| == CountResults(sel) <= |sel|
    ensures forall x :: x in r <==> exists i :: 0 <= i < |sel| && sel[i] == ResultSel(x)
  {
    if |sel| == 0 then []
    else
      assert forall i :: 1 <= i < |sel| ==> sel[i] == sel[1..][i - 1];
      (if sel[0].ResultSel? then [sel[0].row] else []) + ResultRows(sel[1..])
  }

  /**
   * The rows of two stretches of the selection are those of the first, then
   * those of the second; with `ResultRowsOne` this pins down every row.
   */
  lemma {:induction false} ResultRowsAppend(a: seq<Selected>, b: seq<Selected>)
    ensures ResultRows(a + b) == ResultRows(a) + ResultRows(b)
    decreases |a|
  {
    if |a| > 0 {
      assert (a + b)[0] == a[0];
      assert (a + b)[1..] == a[1..] + b;
      ResultRowsAppend(a[1..], b);
    } else {
      assert a + b == b;
    }
  }

  /** A ranking result contributes its own row; any other object contributes none. */
  lemma ResultRowsOne(x: Selected)
    ensures ResultRows([x]) == if x.ResultSel? then [x.row] else []
  {
    assert [x][1..] == [];
  }

  function ResultsCsv(sel: seq<Selected>): string
  {
    Join([ResultsHeader()] + ResultRows(sel), '\n')
  }

  predicate AllCells(cols: seq<string>)
  {
    forall i :: 0 <= i < |cols| ==> Cell(cols[i])
  }

  lemma SegmentColumnsAreCells()
    ensures AllCells(SegmentColumns)
  {
  }

  lemma SystemColumnsAreCells()
    ensures AllCells(SystemColumns)
  {
  }

  lemma RankColumnsAreCells()
    ensures AllCells(RankColumns)
  {
  }

  lemma ResultColumnsAreCells()
    ensures |ResultColumns| == 21
    ensures forall i :: 0 <= i < |ResultColumns| ==> Cell(ResultColumns[i])
  {
    SegmentColumnsAreCells();
    SystemColumnsAreCells();
    RankColumnsAreCells();
    var a := SegmentColumns;
    var b := SystemColumns;
    var c := RankColumns;
    assert forall i :: 0 <= i < |ResultColumns| ==>
      ResultColumns[i] == if i < |a| then a[i] else if i < |a| + |b| then b[i - |a|] else c[i - |a| - |b|];
  }

  /** The header names 21 columns and is a single line. */
  lemma ResultsHeaderColumns()
    ensures Split(ResultsHeader(), ',') == ResultColumns
    ensures |Split(ResultsHeader(), ',')| == 21
    ensures '\n' !in ResultsHeader()
  {
    ResultColumnsAreCells();
    LineRoundTrip(ResultColumns);
  }

  /** With single-line rows, the export is the header and exactly one line per ranking result. */
  lemma ResultsCsvLines(sel: seq<Selected>)
    requires forall i :: 0 <= i < |sel| && sel[i].ResultSel? ==> '\n' !in sel[i].row
    ensures Split(ResultsCsv(sel), '\n') == [ResultsHeader()] + ResultRows(sel)
  {
    var rows := ResultRows(sel);
    ResultsHeaderColumns();
    var lines := [ResultsHeader()] + rows;
    forall k | 0 <= k < |lines|
      ensures '\n' !in lines[k]
    {
      if k > 0 {
        assert lines[k] == rows[k - 1] && rows[k - 1] in rows;
      }
    }
    DocumentRoundTrip(lines);
  }

  // ---------------------------------------------------------------------
  // `export_hit_results_agreements` (admin.py:78-125).

  /** A `(coder, item, label)` line of an export in Artstein and Poesio (2007) format. */
  type Triple = (string, string, string)

  /** `(x[0], x[1], x[2])`, with `None` for the `IndexError` of a short line. */
  function FirstThree(fields: seq<string>): (r: Option<Triple>)
    ensures r.Some? <==> |fields| >= 3
  {
    if |fields| >= 3 then Some((fields[0], fields[1], fields[2])) else None
  }

  function TriplesOf(lines: seq<string>): (r: Option<seq<Triple>>)
    ensures r.None? <==> exists i :: 0 <= i < |lines| && |Split(lines[i], ',')| < 3
    ensures r.Some? ==> |r.value| == |lines|
    ensures r.Some? ==> forall i :: 0 <= i < |lines| ==>
      var f := Split(lines[i], ',');
      |f| >= 3 && r.value[i] == (f[0], f[1], f[2])
  {
    if |lines| == 0 then Some([])
    else
      assert forall i :: 1 <= i < |lines| ==> lines[i] == lines[1..][i - 1];
      match (FirstThree(Split(lines[0], ',')), TriplesOf(lines[1..]))
      case (Some(t), Some(ts)) => Some([t] + ts)
      case _ => None
  }

  /** The data triples of a HIT's export: every line split on commas, its first three fields kept. */
  function Triples(apf: string): Option<seq<Triple>>
  {
    TriplesOf(Split(apf, '\n'))
  }

  /** An empty export splits to one empty line, which is too short: the HIT is skipped. */
  lemma EmptyExportSkipped()
    ensures Triples("").None?
  {
    assert Split("", '\n') == [""];
    assert Split("", ',') == [""];
  }

  /** The alpha, kappa, pi and S coefficients of one HIT. */
  datatype Scores = Scores(alpha: real, kappa: real, pi: real, s: real)

  const NoScores: Scores := Scores(0.0, 0.0, 0.0, 0.0)

  function Plus(a: Scores, b: Scores): Scores
  {
    Scores(a.alpha + b.alpha, a.kappa + b.kappa, a.pi + b.pi, a.s + b.s)
  }

  function Over(a: Scores, n: nat): Scores
    requires n > 0
  {
    Scores(a.alpha / n as real, a.kappa / n as real, a.pi / n as real, a.s / n as real)
  }

  /**
   * The coefficients of one selected object; `None` when it is not a HIT,
   * when a line of its export is too short, or when `coefficients` (the
   * `AnnotationTask` computation) divides by zero.
   */
  function HitScores(x: Selected, coefficients: seq<Triple> -> Option<Scores>): Option<Scores>
  {
    if x.HitSel? then
      match Triples(x.apf)
      case None => None
      case Some(data) => coefficients(data)
    else None
  }

  /** The coefficients of the HITs that succeeded, in selection order. */
  function Successful(sel: seq<Selected>, coefficients: seq<Triple> -> Option<Scores>): (r: seq<Scores>)
    ensures |r| <= |sel|
  {
    if |sel| == 0 then []
    else
      var last := sel[|sel| - 1];
      Successful(sel[..|sel| - 1], coefficients) + (match HitScores(last, coefficients) case Some(c) => [c] case None => [])
  }

  /** The successful lines are exactly the coefficients of the HITs that succeeded. */
  lemma {:induction false} SuccessfulMembers(sel: seq<Selected>, coefficients: seq<Triple> -> Option<Scores>)
    ensures forall c :: c in Successful(sel, coefficients) <==>
      exists i :: 0 <= i < |sel| && HitScores(sel[i], coefficients) == Some(c)
    ensures (forall i :: 0 <= i < |sel| ==> HitScores(sel[i], coefficients).None?) ==> Successful(sel, coefficients) == []
  {
    if |sel| > 0 {
      var init := sel[..|sel| - 1];
      var last := sel[|sel| - 1];
      SuccessfulMembers(init, coefficients);
      assert forall i :: 0 <= i < |init| ==> init[i] == sel[i];
      assert forall c :: (exists i :: 0 <= i < |sel| && HitScores(sel[i], coefficients) == Some(c)) <==>
        (exists i :: 0 <= i < |init| && HitScores(init[i], coefficients) == Some(c)) || HitScores(last, coefficients) == Some(c);
    }
  }

  /** The positions of the selection whose HIT yields coefficients. */
  function Succeeded(sel: seq<Selected>, coefficients: seq<Triple> -> Option<Scores>): set<nat>
  {
    set i: nat | i < |sel| && HitScores(sel[i], coefficients).Some?
  }

  /** There is one successful line per HIT whose coefficients could be computed. */
  lemma {:induction false} SuccessfulCount(sel: seq<Selected>, coefficients: seq<Triple> -> Option<Scores>)
    ensures |Successful(sel, coefficients)| == |Succeeded(sel, coefficients)|
  {
    if |sel| > 0 {
      var init := sel[..|sel| - 1];
      SuccessfulCount(init, coefficients);
      SucceededSnoc(sel, coefficients);
      var last := HitScores(sel[|sel| - 1], coefficients);
      assert Successful(sel, coefficients) ==
        Successful(init, coefficients) + (match last case Some(c) => [c] case None => []);
    } else {
      assert Succeeded(sel, coefficients) == {};
    }
  }

  lemma SucceededSnoc(sel: seq<Selected>, coefficients: seq<Triple> -> Option<Scores>)
    requires |sel| > 0
    ensures var init := Succeeded(sel[..|sel| - 1], coefficients);
      |Succeeded(sel, coefficients)| ==
        |init| + if HitScores(sel[|sel| - 1], coefficients).Some? then 1 else 0
  {
    var n := |sel| - 1;
    var a := Succeeded(sel[..n], coefficients);
    var b := Succeeded(sel, coefficients);
    var extra: set<nat> := if HitScores(sel[n], coefficients).Some? then {n} else {};
    forall i: nat ensures i in b <==> i in a + extra {
      if i < n {
        assert sel[..n][i] == sel[i];
      }
    }
    assert b == a + extra;
    assert a !! extra;
  }

  /** The componentwise sum. */
  function Total(ss: seq<Scores>): Scores
  {
    if |ss| == 0 then NoScores else Plus(Total(ss[..|ss| - 1]), ss[|ss| - 1])
  }

  /** `scores[i] / (len(results) or 1)`. */
  function Mean(ss: seq<Scores>): Scores
  {
    Over(Total(ss), Status.OrOne(|ss|))
  }

  /** The lines of the report: one per successful HIT, then the averages. */
  function Report(sel: seq<Selected>, coefficients: seq<Triple> -> Option<Scores>): seq<Scores>
  {
    Successful(sel, coefficients) + [Mean(Successful(sel, coefficients))]
  }

  /**
   * One pass of the loop: a HIT whose triples and coefficients are both
   * available appends its line and adds to the sums; anything else is skipped.
   */
  method AgreementStep(x: Selected, coefficients: seq<Triple> -> Option<Scores>, results: seq<Scores>, scores: Scores)
    returns (results': seq<Scores>, scores': Scores)
    ensures HitScores(x, coefficients).None? ==> results' == results && scores' == scores
    ensures HitScores(x, coefficients).Some? ==>
      var c := HitScores(x, coefficients).value;
      results' == results + [c] && scores' == Plus(scores, c)
  {
    results', scores' := results, scores;
    if x.HitSel? {
      var data := Triples(x.apf);
      if data.Some? {
        var computed := coefficients(data.value);
        if computed.Some? {
          results' := results + [computed.value];
          scores' := Plus(scores, computed.value);
        }
      }
    }
  }

  /** The loop of `export_hit_results_agreements`, accumulating the sums as it goes. */
  method AgreementReport(sel: seq<Selected>, coefficients: seq<Triple> -> Option<Scores>) returns (lines: seq<Scores>)
    ensures lines == Report(sel, coefficients)
    ensures |lines| == |Successful(sel, coefficients)| + 1
  {
    var results: seq<Scores> := [];
    var scores := NoScores;
    var i := 0;
    while i < |sel|
      invariant 0 <= i <= |sel|
      invariant results == Successful(sel[..i], coefficients)
      invariant scores == Total(results)
    {
      SuccessfulStep(sel, i, coefficients);
      results, scores := AgreementStep(sel[i], coefficients, results, scores);
      i := i + 1;
    }
    assert sel[..|sel|] == sel;
    var n := if |results| == 0 then 1 else |results|;
    lines := results + [Over(scores, n)];
    ReportOf(sel, coefficients, results, scores);
  }

  /** One more selected object extends the successful lines and their sums as `AgreementStep` does. */
  lemma SuccessfulStep(sel: seq<Selected>, i: nat, coefficients: seq<Triple> -> Option<Scores>)
    requires i < |sel|
    ensures HitScores(sel[i], coefficients).None? ==>
      Successful(sel[..i + 1], coefficients) == Successful(sel[..i], coefficients)
    ensures HitScores(sel[i], coefficients).Some? ==>
      && Successful(sel[..i + 1], coefficients) == Successful(sel[..i], coefficients) + [HitScores(sel[i], coefficients).value]
      && Total(Successful(sel[..i + 1], coefficients)) ==
         Plus(Total(Successful(sel[..i], coefficients)), HitScores(sel[i], coefficients).value)
  {
    assert sel[..i + 1] == sel[..i] + [sel[i]];
    if HitScores(sel[i], coefficients).Some? {
      SuccessfulHitCounted(sel[..i], sel[i], coefficients);
    } else {
      FailedHitContributesNothing(sel[..i], sel[i], coefficients);
    }
  }

  /** The lines and sums the loop ends with make up the report. */
  lemma ReportOf(sel: seq<Selected>, coefficients: seq<Triple> -> Option<Scores>, results: seq<Scores>, scores: Scores)
    requires results == Successful(sel, coefficients) && scores == Total(results)
    ensures results + [Over(scores, if |results| == 0 then 1 else |results|)] == Report(sel, coefficients)
  {
    assert Status.OrOne(|results|) == if |results| == 0 then 1 else |results|;
  }

  /** A HIT that fails (short line, zero division) or a non-HIT adds no line and nothing to the sums. */
  lemma FailedHitContributesNothing(sel: seq<Selected>, x: Selected, coefficients: seq<Triple> -> Option<Scores>)
    requires HitScores(x, coefficients).None?
    ensures Successful(sel + [x], coefficients) == Successful(sel, coefficients)
  {
    assert (sel + [x])[..|sel|] == sel;
  }

  /** A HIT that succeeds adds its line and its coefficients to the sums. */
  lemma SuccessfulHitCounted(sel: seq<Selected>, x: Selected, coefficients: seq<Triple> -> Option<Scores>)
    requires HitScores(x, coefficients).Some?
    ensures Successful(sel + [x], coefficients) == Successful(sel, coefficients) + [HitScores(x, coefficients).value]
    ensures Total(Successful(sel + [x], coefficients)) ==
      Plus(Total(Successful(sel, coefficients)), HitScores(x, coefficients).value)
  {
    assert (sel + [x])[..|sel|] == sel;
    var s := Successful(sel, coefficients) + [HitScores(x, coefficients).value];
    assert s[..|s| - 1] == Successful(sel, coefficients);
  }

  /** A batch in which no HIT succeeds reports a single line of zeros. */
  lemma NothingSucceededReportsZeros(sel: seq<Selected>, coefficients: seq<Triple> -> Option<Scores>)
    requires forall i :: 0 <= i < |sel| ==> HitScores(sel[i], coefficients).None?
    ensures Report(sel, coefficients) == [NoScores]
  {
    SuccessfulMembers(sel, coefficients);
  }

  /** Every coefficient of `a` lies between `lo` and `hi`. */
  predicate Within(a: Scores, lo: real, hi: real)
  {
    && lo <= a.alpha <= hi && lo <= a.kappa <= hi
    && lo <= a.pi <= hi && lo <= a.s <= hi
  }

  /** The sums of `n` lines whose coefficients lie between `lo` and `hi` lie between `n` copies of the bounds. */
  lemma {:induction false} TotalWithin(ss: seq<Scores>, lo: real, hi: real)
    requires forall i :: 0 <= i < |ss| ==> Within(ss[i], lo, hi)
    ensures Within(Total(ss), Status.Repeat(lo, |ss|), Status.Repeat(hi, |ss|))
  {
    if |ss| > 0 {
      var init := ss[..|ss| - 1];
      assert forall i :: 0 <= i < |init| ==> init[i] == ss[i];
      TotalWithin(init, lo, hi);
      assert Within(ss[|ss| - 1], lo, hi);
    }
  }

  /** A sum of `k` values between `lo` and `hi`, divided by `k`, lies between them. */
  lemma ComponentMean(sum: real, k: nat, lo: real, hi: real)
    requires k > 0 && Status.Repeat(lo, k) <= sum <= Status.Repeat(hi, k)
    ensures lo <= sum / k as real <= hi
  {
    Status.RepeatIsProduct(lo, k);
    Status.RepeatIsProduct(hi, k);
    Status.MeanBetween(sum / k as real, sum, k as real, lo, hi);
  }

  /** Averaging over a non-empty list keeps every coefficient within the bounds of the lines. */
  lemma MeanWithin(ss: seq<Scores>, lo: real, hi: real)
    requires |ss| > 0
    requires forall i :: 0 <= i < |ss| ==> Within(ss[i], lo, hi)
    ensures Within(Mean(ss), lo, hi)
  {
    TotalWithin(ss, lo, hi);
    var t := Total(ss);
    assert Mean(ss) == Over(t, |ss|);
    ComponentMean(t.alpha, |ss|, lo, hi);
    ComponentMean(t.kappa, |ss|, lo, hi);
    ComponentMean(t.pi, |ss|, lo, hi);
    ComponentMean(t.s, |ss|, lo, hi);
  }

  /**
   * The last line of the report, `scores[i] / (len(results) or 1)`, lies
   * within any bounds every successful HIT's coefficients keep (the zeros
   * of an empty report included, when the bounds admit zero).
   */
  lemma ReportAveragesWithin(sel: seq<Selected>, coefficients: seq<Triple> -> Option<Scores>, lo: real, hi: real)
    requires lo <= 0.0 <= hi
    requires forall i :: 0 <= i < |sel| && HitScores(sel[i], coefficients).Some? ==>
      Within(HitScores(sel[i], coefficients).value, lo, hi)
    ensures var report := Report(sel, coefficients);
      |report| >= 1 && Within(report[|report| - 1], lo, hi)
  {
    var ss := Successful(sel, coefficients);
    SuccessfulMembers(sel, coefficients);
    forall i | 0 <= i < |ss| ensures Within(ss[i], lo, hi) {
      assert ss[i] in ss;
    }
    if |ss| > 0 {
      MeanWithin(ss, lo, hi);
    }
    assert Report(sel, coefficients)[|ss|] == Mean(ss);
  }
}
