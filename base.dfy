/** The text normalizers every scraper inherits. */
module Base {

  import opened Wrappers
  import opened JsString

  /** The trimmed texts a display board uses for "nothing here". */
  predicate IsNullMarker(t: string)
  {
    t == "NA" || t == "-" || t == "*" || t == ""
  }

  /** `cleanText`: null for a null, empty or placeholder cell, the trimmed
      text otherwise. */
  function CleanText(text: Option<string>): (r: Option<string>)
    ensures r.None? <==> text.None? || IsNullMarker(Trim(text.value))
    ensures r.Some? ==> r.value == Trim(text.value) && r.value != "" && IsTrimmed(r.value)
  {
    if text.None? || text.value == "" then None
    else
      var cleaned := Trim(text.value);
      if IsNullMarker(cleaned) then None else Some(cleaned)
  }

  /** `cleanText(cleanText(x)) == cleanText(x)`. */
  lemma CleanTextIdempotent(text: Option<string>)
    ensures CleanText(CleanText(text)) == CleanText(text)
  {
    var r := CleanText(text);
    if r.Some? {
      TrimOfTrimmed(r.value);
    }
  }

  /** Cleaning text that was already trimmed, with an empty result read as
      null (`t.trim() || null`), is cleaning the raw text. */
  lemma CleanTextOfTrimmedOrNull(text: string)
    ensures CleanText(if Trim(text) == "" then None else Some(Trim(text))) == CleanText(Some(text))
  {
    var t := Trim(text);
    if t != "" {
      TrimIdempotent(text);
      assert text != "";
      assert CleanText(Some(t)) == (if IsNullMarker(t) then None else Some(t));
    }
  }

  /** White space alone cleans to null. */
  lemma CleanTextOfBlank(text: string)
    requires AllWhitespace(text)
    ensures CleanText(Some(text)).None?
  {
    TrimEmpty(text);
  }

  /** The placeholder match is case-sensitive: a padded lower-case "na" is kept. */
  lemma CleanTextKeepsLowerCaseNa()
    ensures CleanText(Some(" na ")) == Some("na")
  {
    assert " na "[1..] == "na ";
    assert TrimStart("na ") == "na " by { assert !IsWhitespace('n'); }
    assert "na "[..2] == "na";
    assert TrimEnd("na") == "na" by { assert !IsWhitespace('a'); }
    assert Trim(" na ") == "na";
    assert "na"[0] != "NA"[0];
  }

  /** `extractNumber`: the digits of the text, or the text itself when it has none. */
  function ExtractNumber(text: string): (r: string)
    ensures HasDigit(text) ==> r == Digits(text) && r != [] && forall i :: 0 <= i < |r| ==> IsDigit(r[i])
    ensures !HasDigit(text) ==> r == text
    ensures r == [] <==> text == []
  {
    var d := Digits(text);
    if d != [] then d else text
  }

  lemma ExtractNumberIdempotent(text: string)
    ensures ExtractNumber(ExtractNumber(text)) == ExtractNumber(text)
  {
    var r := ExtractNumber(text);
    if HasDigit(text) {
      DigitsOfDigits(r);
      assert IsDigit(r[0]);
    }
  }
}
