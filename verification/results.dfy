/**
 * `RankingResult.reload_dynamic_fields` (appraise/wmt13/models.py:596-622):
 * decoding the judge's raw result string per task type. The source stores
 * the caught exception in place of a value; here that case is `Failed`.
 */
module Results {
  import opened Basics
  import opened Text

  /** The task types the source dispatches on by their display labels. */
  datatype TaskType = QualityChecking | Ranking | PostEditing | ErrorClassification | ThreeWayRanking

  /** `results` after a reload: left `None`, a decoded value, or the caught exception. */
  datatype Decoded<T> = Skipped | Ok(value: T) | Failed

  const SkipSentinel: string := "SKIPPED"

  /** `not raw_result or raw_result == 'SKIPPED'`: the result is left undecoded. */
  predicate IsSkip(raw: string)
  {
    raw == "" || raw == SkipSentinel
  }

  /** `[parse(x) for x in pieces]`, with `None` as soon as any piece fails to parse. */
  function ParseEach(parse: string -> Option<int>, pieces: seq<string>): Option<seq<int>>
  {
    if |pieces| == 0 then Some([])
    else
      var head := parse(pieces[0]);
      var tail := ParseEach(parse, pieces[1..]);
      if head.Some? && tail.Some? then Some([head.value] + tail.value) else None
  }

  /** The comprehension succeeds iff every piece parses, and then holds each piece's value, in order. */
  lemma {:induction false} ParseEachSpec(parse: string -> Option<int>, pieces: seq<string>)
    ensures ParseEach(parse, pieces).Some? <==> forall i :: 0 <= i < |pieces| ==> parse(pieces[i]).Some?
    ensures ParseEach(parse, pieces).Some? ==>
      && |ParseEach(parse, pieces).value| == |pieces|
      && forall i :: 0 <= i < |pieces| ==> parse(pieces[i]) == Some(ParseEach(parse, pieces).value[i])
    decreases |pieces|
  {
    if |pieces| > 0 {
      ParseEachSpec(parse, pieces[1..]);
      assert forall i :: 1 <= i < |pieces| ==> pieces[i] == pieces[1..][i - 1];
    }
  }

  /** `[int(x) for x in pieces]`, with `None` for the `ValueError` of any piece. */
  function ParseAll(pieces: seq<string>): Option<seq<int>>
  {
    ParseEach(ParseInt, pieces)
  }

  /** The list comprehension succeeds iff every piece parses, and then holds each piece's value. */
  lemma ParseAllSpec(pieces: seq<string>)
    ensures ParseAll(pieces).Some? <==> forall i :: 0 <= i < |pieces| ==> ParseInt(pieces[i]).Some?
    ensures ParseAll(pieces).Some? ==>
      && |ParseAll(pieces).value| == |pieces|
      && forall i :: 0 <= i < |pieces| ==> ParseInt(pieces[i]) == Some(ParseAll(pieces).value[i])
  {
    ParseEachSpec(ParseInt, pieces);
  }

  /** Quality checking and 3-way ranking keep the raw text. */
  function DecodeText(raw: string): (r: Decoded<string>)
    ensures r.Skipped? <==> IsSkip(raw)
    ensures !r.Failed?
    ensures r.Ok? ==> r.value == raw
  {
    if IsSkip(raw) then Skipped else Ok(raw)
  }

  /** Ranking: one integer per comma-separated field; any bad field fails the whole result. */
  function DecodeRanks(raw: string): (r: Decoded<seq<int>>)
    ensures r.Skipped? <==> IsSkip(raw)
    ensures r.Failed? <==>
      !IsSkip(raw) && exists i :: 0 <= i < |Split(raw, ',')| && ParseInt(Split(raw, ',')[i]).None?
    ensures r.Ok? ==>
      && |r.value| == Count(raw, ',') + 1
      && forall i :: 0 <= i < |r.value| ==> ParseInt(Split(raw, ',')[i]) == Some(r.value[i])
  {
    if IsSkip(raw) then Skipped
    else
      var parsed := ParseAll(Split(raw, ','));
      ParseAllSpec(Split(raw, ','));
      if parsed.None? then
        assert !IsSkip(raw);
        assert exists i :: 0 <= i < |Split(raw, ',')| && ParseInt(Split(raw, ',')[i]).None?;
        Failed
      else Ok(parsed.value)
  }

  /** Post-editing: the newline-separated fields. */
  function DecodeLines(raw: string): (r: Decoded<seq<string>>)
    ensures r.Skipped? <==> IsSkip(raw)
    ensures !r.Failed?
    ensures r.Ok? ==> |r.value| >= 1 && forall i :: 0 <= i < |r.value| ==> '\n' !in r.value[i]
    ensures r.Ok? ==> Join(r.value, '\n') == raw
  {
    if IsSkip(raw) then Skipped
    else
      JoinSplit(raw, '\n');
      Ok(Split(raw, '\n'))
  }

  function SplitEach(lines: seq<string>, sep: char): (r: seq<seq<string>>)
    ensures |r| == |lines|
    ensures forall i :: 0 <= i < |lines| ==> r[i] == Split(lines[i], sep)
  {
    if |lines| == 0 then [] else [Split(lines[0], sep)] + SplitEach(lines[1..], sep)
  }

  lemma {:induction false} SplitEachAppend(a: seq<string>, b: seq<string>, sep: char)
    ensures SplitEach(a + b, sep) == SplitEach(a, sep) + SplitEach(b, sep)
    decreases |a|
  {
    if |a| == 0 {
      assert a + b == b;
    } else {
      assert (a + b)[0] == a[0];
      assert (a + b)[1..] == a[1..] + b;
      SplitEachAppend(a[1..], b, sep);
    }
  }

  /** Error classification: each newline-separated line split again on `=`. */
  function DecodeEntries(raw: string): (r: Decoded<seq<seq<string>>>)
    ensures r.Skipped? <==> IsSkip(raw)
    ensures !r.Failed?
    ensures r.Ok? ==>
      && |r.value| == Count(raw, '\n') + 1
      && forall i :: 0 <= i < |r.value| ==> |r.value[i]| >= 1 && '\n' !in Join(r.value[i], '=')
  {
    if IsSkip(raw) then Skipped
    else
      var lines := Split(raw, '\n');
      var entries := SplitEach(lines, '=');
      assert forall i :: 0 <= i < |entries| ==> Join(entries[i], '=') == lines[i] by {
        forall i | 0 <= i < |entries| ensures Join(entries[i], '=') == lines[i] {
          JoinSplit(lines[i], '=');
        }
      }
      Ok(entries)
  }

  /** The decoded value of any task type. */
  datatype Payload = TextPayload(text: string) | RanksPayload(ranks: seq<int>)
                   | LinesPayload(lines: seq<string>) | EntriesPayload(entries: seq<seq<string>>)

  function Lift<T>(d: Decoded<T>, wrap: T -> Payload): Decoded<Payload>
  {
    match d
    case Skipped => Skipped
    case Failed => Failed
    case Ok(v) => Ok(wrap(v))
  }

  /** The dispatch on the task type (models.py:600-622). */
  function Decode(tt: TaskType, raw: string): Decoded<Payload>
  {
    match tt
    case QualityChecking => Lift(DecodeText(raw), t => TextPayload(t))
    case Ranking => Lift(DecodeRanks(raw), r => RanksPayload(r))
    case PostEditing => Lift(DecodeLines(raw), l => LinesPayload(l))
    case ErrorClassification => Lift(DecodeEntries(raw), e => EntriesPayload(e))
    case ThreeWayRanking => Lift(DecodeText(raw), t => TextPayload(t))
  }

  /** Every task type leaves an empty or `SKIPPED` result undecoded, and only those. */
  lemma DecodeSkips(tt: TaskType, raw: string)
    ensures Decode(tt, raw).Skipped? <==> IsSkip(raw)
  {
  }

  /** Only ranking results can fail to decode: the other grammars accept every string. */
  lemma OnlyRankingFails(tt: TaskType, raw: string)
    ensures Decode(tt, raw).Failed? <==> tt == Ranking && DecodeRanks(raw).Failed?
  {
  }

  // ---------------------------------------------------------------------
  // The client side of the ranking grammar, and the round trip.

  function RenderAll(ranks: seq<int>): (r: seq<string>)
    ensures |r| == |ranks|
    ensures forall i :: 0 <= i < |ranks| ==> r[i] == IntToString(ranks[i])
  {
    if |ranks| == 0 then [] else [IntToString(ranks[0])] + RenderAll(ranks[1..])
  }

  /** The raw ranking string a client submits: the ranks, comma-separated. */
  function EncodeRanks(ranks: seq<int>): string
  {
    Join(RenderAll(ranks), ',')
  }

  lemma IntToStringChars(n: int)
    ensures forall i :: 0 <= i < |IntToString(n)| ==> IsDigit(IntToString(n)[i]) || IntToString(n)[i] == '-'
  {
    var m: nat := if n < 0 then -n else n;
    var d := NatToString(m);
    if n < 0 {
      assert IntToString(n) == "-" + d;
    }
  }

  lemma {:induction false} JoinStartsWithFirst(parts: seq<string>, sep: char)
    requires |parts| > 0 && |parts[0]| > 0
    ensures |Join(parts, sep)| > 0 && Join(parts, sep)[0] == parts[0][0]
  {
  }

  lemma RenderedPieces(ranks: seq<int>)
    ensures forall i :: 0 <= i < |ranks| ==> ',' !in RenderAll(ranks)[i] && ParseInt(RenderAll(ranks)[i]) == Some(ranks[i])
  {
    var strs := RenderAll(ranks);
    forall i | 0 <= i < |strs| ensures ',' !in strs[i] && ParseInt(strs[i]) == Some(ranks[i]) {
      IntToStringChars(ranks[i]);
      ParseIntToString(ranks[i]);
    }
  }

  lemma EncodedRanksNotSkipped(ranks: seq<int>)
    requires |ranks| >= 1
    ensures !IsSkip(EncodeRanks(ranks))
  {
    JoinStartsWithFirst(RenderAll(ranks), ',');
    IntToStringChars(ranks[0]);
    assert EncodeRanks(ranks)[0] != 'S';
  }

  /** A non-empty list of ranks survives encoding and decoding unchanged. */
  lemma RanksRoundTrip(ranks: seq<int>)
    requires |ranks| >= 1
    ensures DecodeRanks(EncodeRanks(ranks)) == Ok(ranks)
  {
    var strs := RenderAll(ranks);
    RenderedPieces(ranks);
    SplitJoin(strs, ',');
    EncodedRanksNotSkipped(ranks);
    ParseAllSpec(strs);
    assert ParseAll(strs).value == ranks;
  }
}
