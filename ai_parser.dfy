/** The AI extraction path: the HTML is reduced before it is sent, the
    generative model (with JSON decoding) is an oracle, and what it returns is
    validated record by record. */
module AiParser {

  import opened Wrappers
  import opened JsString
  import opened Seqs
  import opened Entries
  import opened Base

  /** One object of the model's JSON array; an absent property or a JSON
      null is `None`. */
  datatype RawRecord = RawRecord(
    courtNumber: Option<string>,
    itemNumber: Option<string>,
    caseNumber: Option<string>,
    caseTitle: Option<string>,
    judgeName: Option<string>,
    status: Option<string>)

  /** What the model call and `JSON.parse` give back for one prompt: the
      decoded records, or the value they threw. */
  datatype GeminiReply = Records(records: seq<RawRecord>) | ReplyFailed(error: Thrown)

  /** `parseDisplayBoardHTML` either resolves with entries or rejects. */
  datatype AiResult = Extracted(entries: seq<DisplayBoardEntry>) | ExtractionFailed(error: Thrown)

  const MissingKeyMessage: string := "GEMINI_API_KEY is not configured"

  // ----- HTML reduction -----

  /** The first index at or after `from` where `p` occurs. */
  function IndexOf(s: string, p: string, from: nat, ignoreCase: bool): (r: Option<nat>)
    ensures r.Some? ==> from <= r.value && MatchesAt(s, p, r.value, ignoreCase)
    ensures r.Some? ==> forall j :: from <= j < r.value ==> !MatchesAt(s, p, j, ignoreCase)
    ensures r.None? ==> forall j :: from <= j ==> !MatchesAt(s, p, j, ignoreCase)
    decreases |s| - from
  {
    if from + |p| > |s| then None
    else if MatchesAt(s, p, from, ignoreCase) then Some(from)
    else IndexOf(s, p, from + 1, ignoreCase)
  }

  /** `s.replace(/open[\s\S]*?close/g, '')`: scanning left to right, each
      `open` that has a later `close` is removed together with everything up
      to the first such `close`. */
  function RemoveBlocks(s: string, open: string, close: string, ignoreCase: bool): (r: string)
    requires open != []
    ensures |r| <= |s|
    decreases |s|
  {
    if s == [] then s
    else
      var j := IndexOf(s, close, |open|, ignoreCase);
      if MatchesAt(s, open, 0, ignoreCase) && j.Some? then
        RemoveBlocks(s[j.value + |close|..], open, close, ignoreCase)
      else
        [s[0]] + RemoveBlocks(s[1..], open, close, ignoreCase)
  }

  /** A text in which `open` never occurs is left as it is. */
  lemma {:induction false} RemoveBlocksWithoutOpener(s: string, open: string, close: string, ignoreCase: bool)
    requires open != []
    requires forall i :: !MatchesAt(s, open, i, ignoreCase)
    ensures RemoveBlocks(s, open, close, ignoreCase) == s
    decreases |s|
  {
    if s != [] {
      forall i ensures !MatchesAt(s[1..], open, i, ignoreCase) {
        if MatchesAt(s[1..], open, i, ignoreCase) {
          assert MatchesAt(s, open, i + 1, ignoreCase);
        }
      }
      RemoveBlocksWithoutOpener(s[1..], open, close, ignoreCase);
    }
  }

  /** The length of the white-space run `s` starts with. */
  function WhitespaceRun(s: string): (n: nat)
    ensures n <= |s|
    ensures forall k :: 0 <= k < n ==> IsWhitespace(s[k])
    ensures n == |s| || !IsWhitespace(s[n])
    decreases |s|
  {
    if s != [] && IsWhitespace(s[0]) then 1 + WhitespaceRun(s[1..]) else 0
  }

  predicate NoDoubleWhitespace(s: string)
  {
    forall i :: 0 < i < |s| ==> !IsWhitespace(s[i - 1]) || !IsWhitespace(s[i])
  }

  /** `s.replace(/\s{2,}/g, ' ')`: every run of two or more white-space
      characters becomes one space; a lone white-space character stays. */
  function CollapseWhitespace(s: string): (r: string)
    ensures |r| <= |s|
    ensures r == [] <==> s == []
    ensures s != [] ==> (IsWhitespace(r[0]) <==> IsWhitespace(s[0]))
    ensures NoDoubleWhitespace(r)
    decreases |s|
  {
    if s == [] then []
    else if IsWhitespace(s[0]) then
      var n := WhitespaceRun(s);
      var rest := CollapseWhitespace(s[n..]);
      var r := (if n >= 2 then " " else [s[0]]) + rest;
      assert NoDoubleWhitespace(r) by {
        assert rest == [] || !IsWhitespace(rest[0]);
        forall i | 1 < i < |r| ensures !IsWhitespace(r[i - 1]) || !IsWhitespace(r[i]) {
          assert r[i - 1] == rest[i - 2] && r[i] == rest[i - 1];
        }
      }
      r
    else
      var rest := CollapseWhitespace(s[1..]);
      var r := [s[0]] + rest;
      assert NoDoubleWhitespace(r) by {
        forall i | 1 < i < |r| ensures !IsWhitespace(r[i - 1]) || !IsWhitespace(r[i]) {
          assert r[i - 1] == rest[i - 2] && r[i] == rest[i - 1];
        }
      }
      r
  }

  /** The characters of `s` that are not white space, in their order. */
  function NonWhitespace(s: string): (r: string)
    ensures |r| <= |s|
    decreases |s|
  {
    if s == [] then [] else (if IsWhitespace(s[0]) then [] else [s[0]]) + NonWhitespace(s[1..])
  }

  lemma {:induction false} NonWhitespaceConcat(a: string, b: string)
    ensures NonWhitespace(a + b) == NonWhitespace(a) + NonWhitespace(b)
    decreases |a|
  {
    if a == [] {
      assert a + b == b;
    } else {
      assert (a + b)[1..] == a[1..] + b;
      NonWhitespaceConcat(a[1..], b);
    }
  }

  lemma {:induction false} NonWhitespaceOfBlank(s: string)
    requires AllWhitespace(s)
    ensures NonWhitespace(s) == []
    decreases |s|
  {
    if s != [] {
      assert AllWhitespace(s[1..]) by {
        forall i | 0 <= i < |s| - 1 ensures IsWhitespace(s[1..][i]) {
          assert s[1..][i] == s[i + 1];
        }
      }
      NonWhitespaceOfBlank(s[1..]);
    }
  }

  /** Collapsing white space keeps every other character, in order. */
  lemma {:induction false} CollapseKeepsNonWhitespace(s: string)
    ensures NonWhitespace(CollapseWhitespace(s)) == NonWhitespace(s)
    decreases |s|
  {
    if s != [] {
      if IsWhitespace(s[0]) {
        var n := WhitespaceRun(s);
        var head: string := if n >= 2 then " " else [s[0]];
        assert CollapseWhitespace(s) == head + CollapseWhitespace(s[n..]);
        assert s == s[..n] + s[n..];
        NonWhitespaceConcat(s[..n], s[n..]);
        NonWhitespaceOfBlank(s[..n]);
        NonWhitespaceConcat(head, CollapseWhitespace(s[n..]));
        NonWhitespaceOfBlank(head);
        CollapseKeepsNonWhitespace(s[n..]);
      } else {
        assert CollapseWhitespace(s) == [s[0]] + CollapseWhitespace(s[1..]);
        NonWhitespaceConcat([s[0]], CollapseWhitespace(s[1..]));
        CollapseKeepsNonWhitespace(s[1..]);
      }
    }
  }

  lemma {:induction false} WhitespaceRunOfPrefix(w: string, t: string)
    requires AllWhitespace(w)
    requires t == [] || !IsWhitespace(t[0])
    ensures WhitespaceRun(w + t) == |w|
    decreases |w|
  {
    if w == [] {
      assert w + t == t;
    } else {
      assert (w + t)[1..] == w[1..] + t;
      assert AllWhitespace(w[1..]) by {
        forall i | 0 <= i < |w| - 1 ensures IsWhitespace(w[1..][i]) {
          assert w[1..][i] == w[i + 1];
        }
      }
      WhitespaceRunOfPrefix(w[1..], t);
    }
  }

  /** A leading run of `w` that is followed by a non-white-space character
      or the end collapses apart from what follows. */
  lemma CollapseLeadingRun(w: string, t: string)
    requires w != [] && AllWhitespace(w)
    requires t == [] || !IsWhitespace(t[0])
    ensures CollapseWhitespace(w + t) == (if |w| >= 2 then " " else w) + CollapseWhitespace(t)
  {
    WhitespaceRunOfPrefix(w, t);
    assert (w + t)[|w|..] == t;
    assert |w| == 1 ==> [(w + t)[0]] == w;
  }

  lemma CollapseOfCharStart(s: string)
    requires s != [] && !IsWhitespace(s[0])
    ensures CollapseWhitespace(s) == [s[0]] + CollapseWhitespace(s[1..])
  {
  }

  lemma Associates(x: string, y: string, z: string)
    ensures x + y + z == x + (y + z)
  {
  }

  lemma CollapseCons(c: char, rest: string)
    requires !IsWhitespace(c)
    ensures CollapseWhitespace([c] + rest) == [c] + CollapseWhitespace(rest)
  {
    assert ([c] + rest)[1..] == rest;
    CollapseOfCharStart([c] + rest);
  }

  lemma ConcatStepAtChar(c: char, rest: string, b: string)
    requires !IsWhitespace(c)
    requires CollapseWhitespace(rest + b) == CollapseWhitespace(rest) + CollapseWhitespace(b)
    ensures CollapseWhitespace([c] + rest + b) == CollapseWhitespace([c] + rest) + CollapseWhitespace(b)
  {
    Associates([c], rest, b);
    CollapseCons(c, rest + b);
    CollapseCons(c, rest);
    Associates([c], CollapseWhitespace(rest), CollapseWhitespace(b));
  }

  lemma ConcatStepAtRun(w: string, rest: string, b: string)
    requires w != [] && AllWhitespace(w)
    requires rest != [] && !IsWhitespace(rest[0])
    requires CollapseWhitespace(rest + b) == CollapseWhitespace(rest) + CollapseWhitespace(b)
    ensures CollapseWhitespace(w + rest + b) == CollapseWhitespace(w + rest) + CollapseWhitespace(b)
  {
    var head: string := if |w| >= 2 then " " else w;
    Associates(w, rest, b);
    assert (rest + b)[0] == rest[0];
    CollapseLeadingRun(w, rest + b);
    CollapseLeadingRun(w, rest);
    Associates(head, CollapseWhitespace(rest), CollapseWhitespace(b));
  }

  /** No run crosses the end of a text that ends in another character, so
      such a text collapses apart from what follows it. */
  lemma {:induction false} CollapseConcat(a: string, b: string)
    requires a == [] || !IsWhitespace(a[|a| - 1])
    ensures CollapseWhitespace(a + b) == CollapseWhitespace(a) + CollapseWhitespace(b)
    decreases |a|
  {
    if a == [] {
      assert a + b == b;
    } else if IsWhitespace(a[0]) {
      var n := WhitespaceRun(a);
      assert n < |a| by {
        assert !IsWhitespace(a[|a| - 1]);
      }
      var w, rest := a[..n], a[n..];
      assert a == w + rest;
      assert AllWhitespace(w) by {
        forall k | 0 <= k < |w| ensures IsWhitespace(w[k]) {
          assert w[k] == a[k];
        }
      }
      assert rest[0] == a[n];
      assert rest[|rest| - 1] == a[|a| - 1];
      CollapseConcat(rest, b);
      ConcatStepAtRun(w, rest, b);
    } else {
      var rest := a[1..];
      assert rest == [] || rest[|rest| - 1] == a[|a| - 1];
      CollapseConcat(rest, b);
      assert a == [a[0]] + rest;
      ConcatStepAtChar(a[0], rest, b);
    }
  }

  /** A maximal run of two or more white-space characters, wherever it
      stands, becomes one space; a lone white-space character stays as it
      is; the text on either side collapses on its own. */
  lemma CollapseRun(a: string, w: string, t: string)
    requires a == [] || !IsWhitespace(a[|a| - 1])
    requires w != [] && AllWhitespace(w)
    requires t == [] || !IsWhitespace(t[0])
    ensures CollapseWhitespace(a + w + t)
      == CollapseWhitespace(a) + (if |w| >= 2 then " " else w) + CollapseWhitespace(t)
  {
    assert a + w + t == a + (w + t);
    CollapseConcat(a, w + t);
    CollapseLeadingRun(w, t);
  }

  lemma NoDoubleWhitespaceTail(s: string)
    requires s != [] && NoDoubleWhitespace(s)
    ensures NoDoubleWhitespace(s[1..])
  {
    var t := s[1..];
    forall i | 0 < i < |t| ensures !IsWhitespace(t[i - 1]) || !IsWhitespace(t[i]) {
      assert t[i - 1] == s[i] && t[i] == s[i + 1];
    }
  }

  /** A text with no two adjacent white-space characters is left as it is. */
  lemma {:induction false} CollapseWithoutRuns(s: string)
    requires NoDoubleWhitespace(s)
    ensures CollapseWhitespace(s) == s
    decreases |s|
  {
    if s != [] {
      NoDoubleWhitespaceTail(s);
      CollapseWithoutRuns(s[1..]);
      if IsWhitespace(s[0]) {
        LoneWhitespaceRun(s);
        assert s[1..] == s[WhitespaceRun(s)..];
      }
    }
  }

  lemma LoneWhitespaceRun(s: string)
    requires s != [] && IsWhitespace(s[0]) && NoDoubleWhitespace(s)
    ensures WhitespaceRun(s) == 1
  {
    if |s| > 1 {
      assert !IsWhitespace(s[1]);
    }
    assert WhitespaceRun(s[1..]) == 0;
  }

  lemma CollapseWhitespaceIdempotent(s: string)
    ensures CollapseWhitespace(CollapseWhitespace(s)) == CollapseWhitespace(s)
  {
    CollapseWithoutRuns(CollapseWhitespace(s));
  }

  /** Dropping white space at both ends keeps the non-white-space characters. */
  lemma NonWhitespaceOfMiddle(s: string, i: nat, j: nat)
    requires i <= j <= |s|
    requires AllWhitespace(s[..i]) && AllWhitespace(s[j..])
    ensures NonWhitespace(s[i..j]) == NonWhitespace(s)
  {
    var lead, mid, trail := s[..i], s[i..j], s[j..];
    assert s == lead + mid + trail;
    NonWhitespaceConcat(lead + mid, trail);
    NonWhitespaceConcat(lead, mid);
    NonWhitespaceOfBlank(lead);
    NonWhitespaceOfBlank(trail);
  }

  /** Trimming removes white space only. */
  lemma TrimKeepsNonWhitespace(s: string)
    ensures NonWhitespace(Trim(s)) == NonWhitespace(s)
  {
    var i := TrimOffset(s);
    var n := |Trim(s)|;
    NonWhitespaceOfMiddle(s, i, i + n);
  }

  lemma TrimKeepsNoDoubleWhitespace(s: string)
    requires NoDoubleWhitespace(s)
    ensures NoDoubleWhitespace(Trim(s))
  {
    var r := Trim(s);
    var i := TrimOffset(s);
    forall k | 0 < k < |r| ensures !IsWhitespace(r[k - 1]) || !IsWhitespace(r[k]) {
      assert r[k - 1] == s[i + k - 1] && r[k] == s[i + k];
    }
  }

  /** The four block removals of `stripNonEssentialHTML`, in their order:
      scripts, styles and the head case-insensitively, then comments. */
  function RemoveNonEssentialBlocks(html: string): (r: string)
    ensures |r| <= |html|
  {
    var noScript := RemoveBlocks(html, "<script", "</script>", true);
    var noStyle := RemoveBlocks(noScript, "<style", "</style>", true);
    var noHead := RemoveBlocks(noStyle, "<head", "</head>", true);
    RemoveBlocks(noHead, "<!--", "-->", false)
  }

  /** `stripNonEssentialHTML`: script, style and head blocks and comments are
      cut out, white-space runs collapsed and the ends trimmed. Apart from
      white space, what is left is exactly what the block removals left. */
  function StripNonEssentialHtml(html: string): (r: string)
    ensures |r| <= |html|
    ensures IsTrimmed(r)
    ensures NoDoubleWhitespace(r)
    ensures NonWhitespace(r) == NonWhitespace(RemoveNonEssentialBlocks(html))
    ensures r == Trim(CollapseWhitespace(RemoveNonEssentialBlocks(html)))
  {
    var collapsed := CollapseWhitespace(RemoveNonEssentialBlocks(html));
    TrimKeepsNoDoubleWhitespace(collapsed);
    CollapseKeepsNonWhitespace(RemoveNonEssentialBlocks(html));
    TrimKeepsNonWhitespace(collapsed);
    var r := Trim(collapsed);
    assert |r| <= |collapsed|;
    r
  }

  /** No opener starting with `<` occurs in a text without `<`. */
  lemma NoAngleNoOpener(s: string, open: string, ignoreCase: bool, i: int)
    requires forall k :: 0 <= k < |s| ==> s[k] != '<'
    requires open != [] && open[0] == '<'
    ensures !MatchesAt(s, open, i, ignoreCase)
  {
    if 0 <= i < |s| {
      assert LowerChar(s[i]) != '<';
    }
  }

  /** A block whose opener starts with `<` is never found in a text without `<`. */
  lemma TagFreeKeepsBlocks(s: string, open: string, close: string, ignoreCase: bool)
    requires forall k :: 0 <= k < |s| ==> s[k] != '<'
    requires open != [] && open[0] == '<'
    ensures RemoveBlocks(s, open, close, ignoreCase) == s
  {
    forall i ensures !MatchesAt(s, open, i, ignoreCase) {
      NoAngleNoOpener(s, open, ignoreCase, i);
    }
    RemoveBlocksWithoutOpener(s, open, close, ignoreCase);
  }

  /** None of the four blocks is found in a text without `<`. */
  lemma TagFreeKeepsAllBlocks(html: string)
    requires forall k :: 0 <= k < |html| ==> html[k] != '<'
    ensures RemoveNonEssentialBlocks(html) == html
  {
    TagFreeKeepsBlocks(html, "<script", "</script>", true);
    TagFreeKeepsBlocks(html, "<style", "</style>", true);
    TagFreeKeepsBlocks(html, "<head", "</head>", true);
    TagFreeKeepsBlocks(html, "<!--", "-->", false);
  }

  /** A text without any `<` loses only white space: its runs are collapsed
      and its ends trimmed, and every other character is sent. */
  lemma StripTagFreeText(html: string)
    requires forall k :: 0 <= k < |html| ==> html[k] != '<'
    ensures StripNonEssentialHtml(html) == Trim(CollapseWhitespace(html))
    ensures NonWhitespace(StripNonEssentialHtml(html)) == NonWhitespace(html)
  {
    TagFreeKeepsAllBlocks(html);
  }

  // ----- validation of the model's records -----

  /** The filter of `parseDisplayBoardHTML`: a court number that is present
      and not blank after trimming. */
  predicate HasCourtNumber(record: RawRecord)
  {
    Truthy(record.courtNumber) && Trim(record.courtNumber.value) != ""
  }

  /** The record-by-record filter and map of `parseDisplayBoardHTML`. */
  function ValidateRecord(record: RawRecord): (r: Option<DisplayBoardEntry>)
    ensures r.Some? <==> HasCourtNumber(record)
    ensures r.Some? ==>
      var cn := record.courtNumber.value;
      && r.value.courtNumber == (if HasDigit(cn) then Digits(cn) else cn)
      && r.value.courtNumber != ""
      && (Truthy(r.value.status) && (Truthy(record.status) ==> r.value.status == record.status))
      && (!Truthy(record.status) ==> r.value.status == Some(Waiting))
  {
    if !HasCourtNumber(record) then None
    else
      var cn := record.courtNumber.value;
      TrimEmpty(cn);
      Some(DisplayBoardEntry(
        ExtractNumber(cn),
        OrNull(record.itemNumber),
        OrNull(record.caseNumber),
        OrNull(record.caseTitle),
        OrNull(record.judgeName),
        Some(if Truthy(record.status) then record.status.value else Waiting)))
  }

  function ValidateRecords(records: seq<RawRecord>): seq<DisplayBoardEntry>
  {
    FilterMap(ValidateRecord, records)
  }

  /** The optional fields are passed on verbatim when non-empty and nulled otherwise. */
  lemma ValidateRecordOptionalFields(record: RawRecord)
    requires HasCourtNumber(record)
    ensures ValidateRecord(record).Some?
    ensures var e := ValidateRecord(record).value;
      && e.itemNumber == OrNull(record.itemNumber)
      && e.caseNumber == OrNull(record.caseNumber)
      && e.caseTitle == OrNull(record.caseTitle)
      && e.judgeName == OrNull(record.judgeName)
  {
  }

  /** A record without a usable court number is dropped, and only it: the
      others keep their entries and their order. */
  lemma ValidateRecordsDropsBlankCourt(before: seq<RawRecord>, record: RawRecord, after: seq<RawRecord>)
    requires !HasCourtNumber(record)
    ensures ValidateRecords(before + [record] + after) == ValidateRecords(before + after)
  {
    FilterMapSkips(ValidateRecord, before, record, after);
  }

  /** A record with a court number yields exactly one entry, in its place. */
  lemma ValidateRecordsKeepsCourt(before: seq<RawRecord>, record: RawRecord, after: seq<RawRecord>)
    requires HasCourtNumber(record)
    ensures ValidateRecords(before + [record] + after)
         == ValidateRecords(before) + [ValidateRecord(record).value] + ValidateRecords(after)
  {
    FilterMapKeeps(ValidateRecord, before, record, after);
  }

  /** One blank court number among otherwise usable records shortens the
      output by exactly one. */
  lemma ValidateRecordsOneBlank(before: seq<RawRecord>, record: RawRecord, after: seq<RawRecord>)
    requires !HasCourtNumber(record)
    requires forall r :: r in before + after ==> HasCourtNumber(r)
    ensures |ValidateRecords(before + [record] + after)| == |before + [record] + after| - 1
  {
    ValidateRecordsDropsBlankCourt(before, record, after);
    FilterMapAllAccepted(ValidateRecord, before + after);
  }

  /** Every validated entry has a court number and a non-empty status. */
  lemma ValidateRecordsWellFormed(records: seq<RawRecord>, e: DisplayBoardEntry)
    requires e in ValidateRecords(records)
    ensures e.courtNumber != "" && Truthy(e.status)
  {
    FilterMapFrom(ValidateRecord, records, e);
  }

  // ----- the extraction call -----

  /** `parseDisplayBoardHTML(html)` with the configured key and the model as
      an oracle from the text sent to what comes back. */
  function ParseDisplayBoardHtml(apiKey: string, html: string, gemini: string -> GeminiReply): (r: AiResult)
    ensures apiKey == "" ==> r == ExtractionFailed(ErrorValue(MissingKeyMessage))
    ensures apiKey != "" ==> (r.Extracted? <==> gemini(StripNonEssentialHtml(html)).Records?)
    ensures r.Extracted? ==> r.entries == ValidateRecords(gemini(StripNonEssentialHtml(html)).records)
  {
    if apiKey == "" then ExtractionFailed(ErrorValue(MissingKeyMessage))
    else
      match gemini(StripNonEssentialHtml(html))
      case Records(records) => Extracted(ValidateRecords(records))
      case ReplyFailed(error) => ExtractionFailed(error)
  }

  /** Without a key the model is never consulted: its answers cannot matter. */
  lemma MissingKeyIgnoresModel(html: string, gemini1: string -> GeminiReply, gemini2: string -> GeminiReply)
    ensures ParseDisplayBoardHtml("", html, gemini1) == ParseDisplayBoardHtml("", html, gemini2)
    ensures ParseDisplayBoardHtml("", html, gemini1).ExtractionFailed?
  {
  }
}
