# Appraise WMT13 evaluation core, modelled in Dafny

Appraise collects human judgements of machine translation. The `wmt13` app
describes each HIT (a unit of work) in XML. A `<hit>` holds three `<seg>`
items. Each item has a source sentence, an optional reference and five
system translations. A judge answers with a raw result string, whose
grammar depends on the task type. Administrators export those results and
compute agreement statistics over them.

This project models that core as immutable datatypes and pure functions:

- **Validation.** The validators accept or reject an already-parsed element tree (`Xml`, `Validation`):
  - `validate_item_xml` for a `<seg>`;
  - `validate_hit_xml` for a `<hit>`;
  - `validate_hits_xml_file` for a `<hits>` batch.

  The parse itself is an input with a `ParseFailed` case.
- **Item fields.** The fields `RankingTask.reload_dynamic_fields` derives from an item (`Segments`).
- **First save.** The first-save rule of `HIT.save`, as a state machine from unsaved to saved. Only the first save creates the three items (`Hits`).
- **Result decoding.** `RankingResult.reload_dynamic_fields` decodes the raw string per task type into `Skipped | Ok(v) | Failed`. `Failed` stands for the caught exception that the source stores as the result (`Results`).
- **Template contexts.**
  - The records the `export_to_*_xml` methods hand to their templates (`Exports`).
  - Python's `str` of a `datetime.time` duration (`Clock`).
  - The tuple order of `errors.sort()` (`ErrorOrder`).
  - The client-side encoders, so that round trips can be stated.
- **Status.** The completion status of a HIT for one user and for all users, including the progress band and the average duration (`Status`).
- **Admin.** From appraise/wmt13/admin.py (`Admin`):
  - the read-only fields of the HIT form;
  - the HIT-id and results CSV exports;
  - the loop that averages agreement coefficients over the HITs for which they could be computed.

Three behaviours of the code are modelled as they are:

- errors are sorted by the whole `(word, class, severity)` tuple (`ErrorOrder.SortTriples`);
- two of three items done is in the success band (`Status.TwoOfThreeIsSuccess`);
- post-editing fields are separated by newlines (`Results.DecodeLines`).

In `validate_hit_xml` the segment and count checks sit inside the loop over the required attributes (models.py:105-110). The model keeps that nesting (`Validation.ValidateHitNested`). It accepts the same HITs as the batch validator, but can report a different first error.

Every module states its operations' contracts over the same element tree,
so the properties compose across modules. For example, a HIT that
validates is saved with three items, and each of them decodes to a source
with text and five translations (`Hits.CreatedHitDecodes`).

## Model

| member | source | states |
|---|---|---|
| Validation.ValidateSegAccepts | appraise/wmt13/models.py:429-462 | an item element is accepted iff its tag is `seg`, it has exactly one `source` child and that child has text, the first `reference` (if any) has text, and there are exactly five `translation` children, all with text |
| Validation.OneSourceText | appraise/wmt13/models.py:444-448 | with exactly one `source` child, checking `find('source').text` is the same as requiring every `source` child to have text |
| Validation.TranslationsHaveText | appraise/wmt13/models.py:457-459 | the `iterfind('translation')` loop raises iff some `translation` child has no text |
| Validation.ReferenceHasText | appraise/wmt13/models.py:450-452 | the reference check fails iff the first `reference` child exists and has no text |
| Validation.SecondReferenceUnchecked | appraise/wmt13/models.py:450-452 | a `<seg>` whose second `reference` has no text is still accepted; only the first is checked |
| Validation.SecondReferenceFinds | appraise/wmt13/models.py:444-457 | with a source, two references and translations, `findall`/`find` pick the single source, all translations and the first reference |
| Validation.FirstMissing | appraise/wmt13/models.py:97-99 | the first required attribute found missing, in checking order; none iff every one of `HIT_REQUIRED_ATTRIBUTES` is present |
| Validation.ValidateSegsAccepts | appraise/wmt13/models.py:105-108 | the loop over the children of a `<hit>` passes iff every child is a valid `<seg>` |
| Validation.ValidateHitBodyAccepts | appraise/wmt13/models.py:62-76 | for a `<hit>` inside a batch, the attribute check followed by the segment and count checks passes iff it has all four required attributes and exactly three valid `<seg>` children |
| Validation.ValidateHitNestedOrder | appraise/wmt13/models.py:96-110 | the segment and count checks run inside the loop over the required attributes: a missing `block-id` is reported first, then a segment or count error, then the first other missing attribute |
| Validation.SegmentErrorFirst | appraise/wmt13/models.py:96-110 | for a `<hit>` that has a `block-id`, a segment or count error is the one `validate_hit_xml` reports, whatever other attributes are missing |
| Validation.EmptyHitErrorsDiffer | appraise/wmt13/models.py:62-76 | `<hit block-id="…"/>` is rejected by both validators, for the segment count by `validate_hit_xml` and for the missing `source-language` inside a batch |
| Validation.ValidateHitListAccepts | appraise/wmt13/models.py:59-76 | the loop over the children of `<hits>` passes iff every child is a valid `<hit>` |
| Validation.ValidateHitsAccepts | appraise/wmt13/models.py:45-82 | a batch is accepted iff it parses, its root is `hits` and every child is a valid `<hit>`; every failure is one error, with no partial acceptance |
| Validation.ValidateHitAccepts | appraise/wmt13/models.py:85-115 | a single HIT is accepted iff it parses and its root is a `hit` with all four required attributes and exactly three valid `<seg>` children, so the nested loop accepts exactly what a batch accepts |
| Validation.BatchOfOne | appraise/wmt13/models.py:45-115 | a batch holding exactly one `<hit>` is accepted iff that `<hit>` is accepted on its own |
| Validation.EmptyBatchAccepted | appraise/wmt13/models.py:56-76 | a `<hits>` root without children is accepted |
| Xml.FindAllMembers | appraise/wmt13/models.py:454-457 | `findall(tag)` holds exactly the children carrying the tag |
| Xml.FindAllAppend | appraise/wmt13/models.py:537-539 | `findall` distributes over a concatenation of children, so document order is kept |
| Xml.FindFirst | appraise/wmt13/models.py:528-534 | `find(tag)` is the first child carrying the tag |
| Xml.Find | appraise/wmt13/models.py:528-534 | `find` is `None` iff no child carries the tag, and otherwise is the first child that does |
| Xml.Lookup | appraise/wmt13/admin.py:52-53 | `attrib[key]` is defined iff the key is present, and then the pair is in the mapping |
| Xml.ParseRenderAttrs | appraise/wmt13/models.py:650-651 | the `k="v"` rendering joined by spaces can be read back to the same attribute list when no key holds `=` and no value holds `"` |
| Xml.RenderAttrsAmbiguous | appraise/wmt13/models.py:650-651 | without escaping, a value holding `"` renders exactly like two separate attributes |
| Segments.Reload | appraise/wmt13/models.py:518-544 | a blank item leaves every field as it was; a parse failure clears source, reference and translations but keeps the attributes; otherwise the attributes are the root's, source and reference are the first matching child or keep their old value, and the translations are the `translation` children |
| Segments.TranslationsInDocumentOrder | appraise/wmt13/models.py:536-539 | a `translation` child preceded by n other translations is decoded at position n |
| Segments.ParseFailureResets | appraise/wmt13/models.py:541-544 | after a parse failure, source, reference and translations are `None` whatever they held before |
| Segments.ValidSegDecodes | appraise/wmt13/models.py:518-544 | a `<seg>` that passes validation decodes to a source with text, a reference that has text if present, and five translations with text |
| Hits.Code | appraise/wmt13/models.py:29-40 | each language-pair choice is stored as a seven-character value of the form `xxx2yyy` |
| Hits.CodeInjective | appraise/wmt13/models.py:29-40 | distinct language pairs are stored as distinct values |
| Hits.Save | appraise/wmt13/models.py:205-223 | saving a stored HIT changes nothing; a first save succeeds iff `hit_xml` parses to a valid `<hit>`, and then assigns the key and appends one item per root child |
| Hits.SavePreservesConsistent | appraise/wmt13/models.py:205-223 | saving keeps a HIT consistent, and a successful save leaves exactly three items |
| Hits.FailedSaveStoresNothing | appraise/wmt13/models.py:210-211 | a new HIT whose XML fails validation is not stored |
| Hits.SaveTwice | appraise/wmt13/models.py:210-223 | saving twice is the same as saving once; items are created only on the first save |
| Hits.SavedItemsNotRederived | appraise/wmt13/models.py:210-223 | editing a stored HIT, even its XML, never creates or changes its items |
| Hits.CreatedItemsValidate | appraise/wmt13/models.py:218-221 | every item created for a stored HIT passes `validate_item_xml`, so the item's own save accepts it |
| Hits.CreatedHitDecodes | appraise/wmt13/models.py:205-223 | a valid HIT saved for the first time yields exactly its three `<seg>` children as items, each decoding to a source with text and five translations |
| Results.DecodeText | appraise/wmt13/models.py:603-604 | quality checking and 3-way ranking keep the raw string, and skip it iff it is empty or `SKIPPED` |
| Results.DecodeRanks | appraise/wmt13/models.py:606-608 | ranking fails iff some comma-separated field is not an integer; otherwise it gives one integer per field, in order |
| Results.ParseEachSpec | appraise/wmt13/models.py:608 | a list comprehension over a parser that may raise succeeds iff every piece parses, and then holds one value per piece, in order |
| Results.ParseAllSpec | appraise/wmt13/models.py:608 | the list comprehension of `int()` succeeds iff every piece parses, and then holds each piece's value |
| Results.DecodeLines | appraise/wmt13/models.py:610-611 | post-editing gives the newline-separated fields, which join back to the raw string |
| Results.DecodeEntries | appraise/wmt13/models.py:613-615 | error classification gives one `=`-split entry per line, none containing a newline |
| Results.DecodeSkips | appraise/wmt13/models.py:600 | for every task type, results are left unset iff the raw string is empty or `SKIPPED` |
| Results.OnlyRankingFails | appraise/wmt13/models.py:602-622 | a stored exception can only arise for ranking, and exactly when the ranks do not parse |
| Results.RanksRoundTrip | appraise/wmt13/models.py:606-608 | a non-empty list of ranks, comma-joined as a client submits it, decodes to the same list |
| Text.JoinSplit | appraise/wmt13/models.py:607 | joining the pieces of `split(sep)` with `sep` gives back the original string |
| Text.SplitJoin | appraise/wmt13/models.py:611 | splitting a join of separator-free pieces gives back the pieces |
| Text.ParseIntToString | appraise/wmt13/models.py:608 | `int(str(n)) == n` for every integer |
| Text.SpaceAfterSign | appraise/wmt13/models.py:608 | `int()` skips whitespace between the sign and the digits, including Unicode whitespace such as U+00A0, so `int(u'- 7') == -7` |
| Exports.ExportText | appraise/wmt13/models.py:644-661 | for every text result that decodes (`Results.OnlyRankingFails`: quality checking and 3-way ranking never fail), the context exists iff the item has attributes; `skipped` is set iff results are `None`, and the result is the decoded text |
| Exports.ExportRanking | appraise/wmt13/models.py:663-690 | the context renders iff the item has attributes and the results are skipped, or there are at least as many ranks as translations, or the ranks failed to parse and the item has no translations (the loop over translations then never indexes the stored exception); a skipped result has no pairs; otherwise pair i is (rendered attributes of translation i, rank i) and extra ranks are ignored |
| Exports.ExportPostEdit | appraise/wmt13/models.py:692-733 | the context renders iff the item has attributes and the result is skipped, or it has a first line (and a second after `FROM_SCRATCH`), the item has translations, and `int(edit_id)` parses to an index Python accepts for them; `from_scratch` holds iff the first line is `FROM_SCRATCH`; `edit_id` is line 1 if it does and line 0 otherwise; the edited text is the last line; the exported attributes are those of the translation that Python's index `int(edit_id)` selects; a skipped result exports no id, no text and no attributes |
| Exports.ExportEditLines | appraise/wmt13/models.py:703-720 | for decoded lines, the export raises exactly where `results[0]`, `results[1]`, `int(edit_id)` or `translations[int(edit_id)]` raises, and otherwise holds the flag, the edit id, the last line and the chosen translation's attributes |
| Exports.PyIndex | appraise/wmt13/models.py:712 | a Python index in range selects a position in the list; a non-negative index selects itself, and a negative index -j selects the j-th element from the end |
| Exports.Details | appraise/wmt13/models.py:756-758 | the comma parts yield one `(word, class, severity)` each, in order, iff every part splits on `:` into exactly two fields |
| Exports.ScanEntry | appraise/wmt13/models.py:753-764 | a two-field line yields its triples and raises if the word or a detail is malformed; any other line sets `missing_words` or `too_many_errors` iff its first field is that marker, and is otherwise ignored |
| Exports.ScanFlags | appraise/wmt13/models.py:752-764 | the loop raises iff some line raises; each flag is set iff some non-entry line is that marker |
| Exports.ScanAllAppend | appraise/wmt13/models.py:752-764 | the loop over two stretches of lines collects both stretches' errors, in order, and either's flags |
| Exports.ExportErrors | appraise/wmt13/models.py:735-781 | the context renders iff the item has attributes and a first translation and the result is skipped or every line scans without raising; its attributes are the item's followed by that translation's; the errors are sorted and are a permutation of the scanned triples; the flags are those the scan set |
| Exports.ExportResult | appraise/wmt13/models.py:624-642 | for every task type, a rendered context is marked skipped iff the raw result is empty or `SKIPPED` |
| Exports.SkippedExports | appraise/wmt13/models.py:624-642 | a skipped result renders as skipped for every task type that has the attributes the template reads |
| Exports.RankingRoundTrip | appraise/wmt13/models.py:674-680 | ranks a client submits come back one per translation, in order, and each translation's rendered attributes read back to its attributes |
| Exports.PostEditRoundTrip | appraise/wmt13/models.py:703-720 | a post-edit a client submits exports the from-scratch flag, the index it names, the edited text, and the attributes of the translation at that index |
| Exports.ErrorsRoundTrip | appraise/wmt13/models.py:748-777 | errors a client submits export as exactly the marked `(word, class, severity)` triples, sorted, with the two marker flags as submitted |
| ErrorOrder.SortTriples | appraise/wmt13/models.py:766-767 | `errors.sort()` returns the triples in ascending tuple order, none lost and none added |
| ErrorOrder.Insert | appraise/wmt13/models.py:767 | inserting into a sorted list keeps it sorted and adds exactly the one element |
| ErrorOrder.LeTotal | appraise/wmt13/models.py:767 | any two triples are comparable under Python's tuple order |
| ErrorOrder.LeTransitive | appraise/wmt13/models.py:767 | Python's tuple order on `(int, str, str)` is transitive |
| ErrorOrder.StrLeAntisymmetric | appraise/wmt13/models.py:767 | Python's string `<=` is antisymmetric |
| Clock.FormatTime | appraise/wmt13/models.py:561-567 | `str` of a time is `HH:MM:SS` with the fields' values, followed by `.ffffff` exactly when the microseconds are non-zero |
| Clock.FormatDuration | appraise/wmt13/models.py:563-567 | a missing duration prints as `None`; a present one prints as its time |
| Clock.FormatTimeInjective | appraise/wmt13/models.py:561-567 | different durations print differently |
| Status.StatusOf | appraise/wmt13/models.py:296-334 | the status record shows done and items, the percentage 100·done/(items or 1), the danger band iff 100·done < 33·(items or 1), the warning band iff 33·(items or 1) ≤ 100·done < 66·(items or 1), the success band iff 66·(items or 1) ≤ 100·done, and the average of the counted durations |
| Status.StatusForUser | appraise/wmt13/models.py:286-334 | for one user, done is the number of the user's results, with the percentage, all three bands and the average duration over those results as in `StatusOf` |
| Status.PercentageScaled | appraise/wmt13/models.py:300 | the percentage times (items or 1) is 100·done, and it is at most 100 when no more than all items are done |
| Status.BandExact | appraise/wmt13/models.py:300-307 | the floating thresholds on the percentage are exact integer comparisons |
| Status.Counted | appraise/wmt13/models.py:313 | the average counts exactly the stored durations that Python 2 finds true, so midnight is excluded |
| Status.CountedMultiplicity | appraise/wmt13/models.py:313 | each non-midnight duration is counted as many times as it was stored, and midnight never |
| Status.CountedAppend | appraise/wmt13/models.py:313 | the counted durations of two stretches of results are those of the first followed by those of the second |
| Status.AverageSeconds | appraise/wmt13/models.py:313-314 | the average times the number of counted durations (or 1) is their sum, and it is 0 when none are counted |
| Status.AverageWithinBounds | appraise/wmt13/models.py:313-316 | the average lies between any lower and upper bound of the counted durations |
| Status.FinishedIsSuccess | appraise/wmt13/models.py:376-383 | a finished HIT with items shows the success band |
| Status.EmptyHitFinishedButDanger | appraise/wmt13/models.py:300-307 | a HIT without items counts as finished, yet shows the danger band |
| Status.TwoOfThreeIsSuccess | appraise/wmt13/models.py:300-307 | two of three items done is 66.67%, which is not below 66, so the band is success |
| Status.MinDone | appraise/wmt13/models.py:351-352 | `min(done or [0])` is no more than any user's count, equals some user's count, and is 0 with no users |
| Status.Pool | appraise/wmt13/models.py:362-367 | the pooled durations are exactly those of some assigned user |
| Status.PoolAppend | appraise/wmt13/models.py:362-367 | pooling two groups of users gives the first group's durations followed by the second's, so each user's durations appear once each, in user order |
| Status.PoolOne | appraise/wmt13/models.py:362-367 | pooling a single user gives exactly that user's durations |
| Status.PooledTotals | appraise/wmt13/models.py:362-372 | the counted durations and their total in seconds over two groups of users add up, so the pooled average weighs every counted duration once |
| Status.StatusForUsers | appraise/wmt13/models.py:336-374 | the all-users status shows the smallest per-user count (0 with no users, in the danger band), with the percentage and all three bands of that count as in `StatusOf`, and the average over the pooled durations of all users |
| Status.SingleUserAgrees | appraise/wmt13/models.py:286-374 | with a single assigned user, the all-users status equals that user's status |
| Admin.ReadonlyFields | appraise/wmt13/admin.py:155-165 | `hit_id` is always read-only and comes first; `block_id`, `hit_xml` and `language_pair` are also read-only exactly when the HIT exists |
| Admin.Editable | appraise/wmt13/admin.py:143-165 | a form field is editable iff it is not read-only |
| Admin.EditableOnCreation | appraise/wmt13/admin.py:161-165 | creating a HIT leaves every field except `hit_id` editable |
| Admin.EditableOnChange | appraise/wmt13/admin.py:161-165 | editing an existing HIT leaves only `active`, `mturk_only` and `users` editable |
| Admin.HitIdCells | appraise/wmt13/admin.py:49-54 | a HIT row exists iff both language attributes are present; it is the HIT id followed by those two values |
| Admin.HitsOf | appraise/wmt13/admin.py:46-48 | the HITs of a selection, one per HIT, holding exactly the selected objects that are HITs |
| Admin.HitsOfAppend | appraise/wmt13/admin.py:46-48 | the HITs of two stretches of the selection are those of the first followed by those of the second, so the HITs keep selection order and multiplicity |
| Admin.HitsOfOne | appraise/wmt13/admin.py:46-48 | a single selected object contributes itself if it is a HIT, and nothing otherwise |
| Admin.HitIdRows | appraise/wmt13/admin.py:46-54 | the rows exist iff every HIT in the selection has its row; there is then one row per HIT, and row k is the cells of the k-th HIT |
| Admin.HitIdsCsvParses | appraise/wmt13/admin.py:46-56 | with unquoted cells, the export splits back into the header `appraise_id,srclang,trglang` and exactly one row per HIT, each row being that HIT's cells |
| Admin.AsWrittenRaisesOnAnyHit | appraise/wmt13/admin.py:49-53 | reading the class-level `hit_attributes`, the export raises iff the selection holds a HIT, and otherwise is the header alone |
| Admin.ValidHitCells | appraise/wmt13/admin.py:49-54 | a valid HIT has both language attributes, and its row is its id followed by their values |
| Admin.ValidHitsExport | appraise/wmt13/admin.py:46-56 | reading each HIT's attributes from its `hit_xml`, every selection of valid HITs exports one row per HIT, row k being the k-th HIT's id, source language and target language |
| Admin.CsvRoundTrip | appraise/wmt13/admin.py:54-56 | a header and rows of unquoted cells, comma-joined and then newline-joined, split back into the header and the rows |
| Admin.ResultRows | appraise/wmt13/admin.py:177-179 | the result rows are exactly those of the ranking results in the selection, one per result; other objects are ignored |
| Admin.ResultRowsAppend | appraise/wmt13/admin.py:177-179 | the rows of two stretches of the selection are those of the first followed by those of the second, so rows keep selection order |
| Admin.ResultRowsOne | appraise/wmt13/admin.py:177-179 | a single ranking result contributes exactly its row, and any other object none |
| Admin.ResultsHeaderColumns | appraise/wmt13/admin.py:172-175 | the results header is a single line of 21 named columns |
| Admin.ResultsCsvLines | appraise/wmt13/admin.py:168-182 | with single-line rows, the results export is the header plus exactly one line per ranking result, in selection order |
| Admin.TriplesOf | appraise/wmt13/admin.py:92-98 | the data triples are the first three fields of every line; a single line with fewer than three fields loses the whole HIT |
| Admin.EmptyExportSkipped | appraise/wmt13/admin.py:86-98 | an empty export splits to one empty line, which is too short, so the HIT is skipped and the `not _raw` guard never fires |
| Admin.SuccessfulMembers | appraise/wmt13/admin.py:84-117 | the output lines are exactly the coefficients of the HITs that succeeded, and none if no HIT succeeded |
| Admin.SuccessfulCount | appraise/wmt13/admin.py:113-117 | there is one output line per selected HIT whose coefficients could be computed |
| Admin.AgreementStep | appraise/wmt13/admin.py:93-117 | a HIT that fails (a short line or a zero division) or a non-HIT changes nothing; a successful HIT appends its line and adds its coefficients to the sums |
| Admin.AgreementReport | appraise/wmt13/admin.py:78-125 | the loop outputs one line per successful HIT, then one line of averages over them |
| Admin.NothingSucceededReportsZeros | appraise/wmt13/admin.py:119-122 | a batch in which no HIT succeeds reports a single line of four zeros |
| Admin.MeanWithin | appraise/wmt13/admin.py:119-120 | when every coefficient of every line lies between two bounds, so does each average |
| Admin.ReportAveragesWithin | appraise/wmt13/admin.py:119-122 | when every successful HIT's coefficients lie between bounds around 0, so do the averages on the last line, including the zeros reported when no HIT succeeded |

## Left out

- Parsing and serialising XML: `fromstring` and `tostring` are foreign. The model starts from an element tree, and a parse error is the `ParseFailed` input.
- The Django ORM is not modelled: queries, counts, `full_clean` and the many-to-many users. Counts, result lists and the stored items are function inputs or record fields.
- Template rendering and `HttpResponse` are not modelled. Exports stop at the context record a template receives, and the CSV exports at the response text.
- `HIT._create_hit_id` (models.py:196-203) is not modelled: it depends on UUID randomness and a database collision loop.
- The `pre_delete` file cleanup and the `post_save` cache hook are not modelled. The hook calls into views that are not part of this model.
- URL reversing, logging and the admin registrations are not modelled.
- `export_hit_xml` and `HIT.export_to_xml` are not modelled. They render templates over `task_attributes`, which only the not-modelled `HIT.reload_dynamic_fields` fills.
- `HIT.reload_dynamic_fields` reads a text field as if it were a file. It is not modelled beyond the attributes of the parsed root.
- `get_status_header`, `get_finished_for_user` and the `get_task_type_display` dispatch are not modelled. The task type is an explicit `TaskType` argument.
- appraise/wmt13/admin.py is written against a different revision of appraise/wmt13/models.py than the one modelled here. It uses several names that models.py does not define:
  - `UserHITMapping` (imported at admin.py:13-14);
  - a HIT field `mturk_only` (admin.py:136, 146 and 193);
  - the lookup `item__hit__…` (admin.py:192-193), where `RankingTask`'s foreign key is `task`;
  - `HIT.export_to_apf` and `RankingResult.export_to_csv`.

  Against the modelled models.py the admin module would fail at import. The model takes the admin's own view: `mturk_only` is a HIT form field (`Admin.MturkOnlyField`), and the outputs of the two missing methods are opaque fields of the selected object (`apf`, `row`).
- `AnnotationTask` (alpha, kappa, pi and S) is not part of this model. It is a parameter that returns the four coefficients, or `None` for a division by zero.
- `datetime_to_seconds` is not part of this model. It is a parameter from a time to seconds.
- Floating-point arithmetic is exact `real` arithmetic. This covers the percentage, the average duration and the coefficient averages, and the `'{:.2f}'` and `str(float)` renderings are not modelled.
- Exports.ExportRanking: Python 2 exceptions can be indexed by their arguments, so a stored exception renders whenever the item has no more translations than the exception has arguments. For a `ValueError` from `int()` that is one argument. For a `UnicodeEncodeError`, raised by `int()` on a field holding a character at or above U+0100 that is neither a digit nor whitespace, it is five, enough for the usual five translations. The model treats every failed ranking with translations as raising.
- Text.ParseInt: accepts only ASCII digits. Python's `int()` also accepts other Unicode decimal digits (Arabic-Indic, full-width and others). Whitespace is the Python 2.7 Unicode whitespace set, skipped around the number and between the sign and the digits.
- Admin.Successful: has only a length bound in its own contract. Its meaning is stated by `Admin.SuccessfulMembers` and `Admin.SuccessfulCount`.
- Status.Counted: its own contract states length and membership. Multiplicity and order are stated by `Status.CountedMultiplicity` and `Status.CountedAppend`.
- Status.Pool: its own contract states membership. Order and multiplicity are stated by `Status.PoolAppend`, `Status.PoolOne` and `Status.PooledTotals`.
- Xml.RenderAttrs: assumes ASCII attribute values. Under Python 2, `'{}="{}"'.format` on a byte-string template raises `UnicodeEncodeError` for a non-ASCII unicode value, and the model renders it instead. The same holds for every export contract built on it (`Exports.ExportText`, `Exports.ExportRanking`, `Exports.ExportPostEdit`, `Exports.ExportErrors`).
- Hits.Save: each item's XML is `tostring` of a `<seg>`, which also serialises the text after the element's closing tag. When that tail text is not blank, the item's own `full_clean` fails to parse it and raises after the HIT is stored. The model stores the `<seg>` element alone. The same holds for `Hits.CreatedItemsValidate` and `Hits.CreatedHitDecodes`.
- Exports.ExportText: a stored exception would render its text. The model maps it to `Raised`, which no text result reaches (`Results.OnlyRankingFails`).
- Exports.ErrorsRoundTrip: covers submissions whose classes and severities hold none of `:` `,` `=` and newline, and whose words have at least one detail. Other submissions do not survive the encoding.

## Findings

| source | as written | input that shows it | evidently intended | confidence | as-written member | corrected member |
|---|---|---|---|---|---|---|
| appraise/wmt13/admin.py:49-53 | reads `result.hit_attributes`. In the modelled appraise/wmt13/models.py that is the class-level `{}` at line 156, which nothing fills, so `_attr['source-language']` raises `KeyError`. The admin module targets a different models.py revision (see "## Left out"), so this holds only if that revision also leaves `hit_attributes` as the class-level `{}` | any selection that contains a HIT | the language attributes of the HIT's own `hit_xml` root, which validation guarantees are present; the modelled `HIT.reload_dynamic_fields` fills `task_attributes` from exactly that root (models.py:241-251) | low, not executed | Admin.AsWrittenRaisesOnAnyHit | Admin.ValidHitsExport |
