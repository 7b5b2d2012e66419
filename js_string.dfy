/** The JavaScript string built-ins the scrapers rely on, written out:
    `String.prototype.trim`, the regex classes `\s` and `\D`, `toLowerCase`
    (ASCII letters only), `includes`, `parseInt(s, 10)` and `String(n)` for an
    integer `n`. */
module JsString {

  import opened Wrappers

  /** ECMAScript WhiteSpace and LineTerminator code points: what `trim()`
      removes and what `\s` matches. */
  predicate IsWhitespace(c: char)
  {
    || c == '\t' || c == '\n' || c == '\U{000B}' || c == '\U{000C}' || c == '\r' || c == ' '
    || c == '\U{00A0}' || c == '\U{1680}' || ('\U{2000}' <= c <= '\U{200A}')
    || c == '\U{2028}' || c == '\U{2029}' || c == '\U{202F}' || c == '\U{205F}'
    || c == '\U{3000}' || c == '\U{FEFF}'
  }

  /** What the regex class `\d` matches (so `\D` is its complement). */
  predicate IsDigit(c: char)
  {
    '0' <= c <= '9'
  }

  predicate HasDigit(s: string)
  {
    exists i :: 0 <= i < |s| && IsDigit(s[i])
  }

  predicate AllWhitespace(s: string)
  {
    forall i :: 0 <= i < |s| ==> IsWhitespace(s[i])
  }

  /** Neither the first nor the last character is white space. */
  predicate IsTrimmed(s: string)
  {
    s == [] || (!IsWhitespace(s[0]) && !IsWhitespace(s[|s| - 1]))
  }

  function TrimStart(s: string): (r: string)
    ensures |r| <= |s| && r == s[|s| - |r|..]
    ensures AllWhitespace(s[..|s| - |r|])
    ensures r == [] || !IsWhitespace(r[0])
    decreases |s|
  {
    if s != [] && IsWhitespace(s[0]) then TrimStart(s[1..]) else s
  }

  function TrimEnd(s: string): (r: string)
    ensures |r| <= |s| && r == s[..|r|]
    ensures AllWhitespace(s[|r|..])
    ensures r == [] || !IsWhitespace(r[|r| - 1])
    decreases |s|
  {
    if s != [] && IsWhitespace(s[|s| - 1]) then
      var r := TrimEnd(s[..|s| - 1]);
      assert s[..|s| - 1][..|r|] == s[..|r|];
      assert s[|r|..] == s[..|s| - 1][|r|..] + [s[|s| - 1]];
      r
    else s
  }

  /** Where the text kept by `trim()` starts. */
  function TrimOffset(s: string): nat
  {
    |s| - |TrimStart(s)|
  }

  /** `s.trim()`: the slice of `s` left once the white space at both ends is
      removed. */
  function Trim(s: string): (r: string)
    ensures IsTrimmed(r)
    ensures TrimOffset(s) + |r| <= |s| && r == s[TrimOffset(s)..TrimOffset(s) + |r|]
    ensures AllWhitespace(s[..TrimOffset(s)]) && AllWhitespace(s[TrimOffset(s) + |r|..])
  {
    var t := TrimStart(s);
    var r := TrimEnd(t);
    SuffixSlices(s, |s| - |t|, |r|);
    r
  }

  /** Slicing a suffix is slicing the whole. */
  lemma SuffixSlices(s: string, i: nat, n: nat)
    requires i + n <= |s|
    ensures s[i..][..n] == s[i..i + n] && s[i..][n..] == s[i + n..]
  {
  }

  lemma TrimOfTrimmed(s: string)
    requires IsTrimmed(s)
    ensures Trim(s) == s
  {
    assert TrimStart(s) == s;
    assert TrimEnd(s) == s;
  }

  lemma TrimIdempotent(s: string)
    ensures Trim(Trim(s)) == Trim(s)
  {
    TrimOfTrimmed(Trim(s));
  }

  /** `trim()` gives the empty string exactly for all-white-space input. */
  lemma TrimEmpty(s: string)
    ensures Trim(s) == [] <==> AllWhitespace(s)
  {
    var t := TrimStart(s);
    var k := |s| - |t|;
    if t == [] {
      assert s[..k] == s;
    } else {
      assert t[0] == s[k];
      assert !AllWhitespace(s);
    }
  }

  lemma DigitIsNotWhitespace(c: char)
    requires IsDigit(c)
    ensures !IsWhitespace(c)
  {
  }

  /** Cutting white space off both ends removes no digit. */
  lemma CoreHasDigit(s: string, i: nat, n: nat)
    requires i + n <= |s| && AllWhitespace(s[..i]) && AllWhitespace(s[i + n..])
    ensures HasDigit(s[i..i + n]) <==> HasDigit(s)
  {
    var r := s[i..i + n];
    if HasDigit(s) {
      var k :| 0 <= k < |s| && IsDigit(s[k]);
      DigitIsNotWhitespace(s[k]);
      assert r[k - i] == s[k];
    }
    if HasDigit(r) {
      var k :| 0 <= k < |r| && IsDigit(r[k]);
      assert s[i + k] == r[k];
    }
  }

  /** Trimming removes no digit. */
  lemma TrimHasDigit(s: string)
    ensures HasDigit(Trim(s)) <==> HasDigit(s)
  {
    var r := Trim(s);
    var i := TrimOffset(s);
    assert i + |r| <= |s| && r == s[i..i + |r|];
    CoreHasDigit(s, i, |r|);
  }

  /** `s.replace(/\D/g, '')`: the digits of `s`, in order. */
  function Digits(s: string): (r: string)
    ensures |r| <= |s|
    ensures forall i :: 0 <= i < |r| ==> IsDigit(r[i])
    ensures r == [] <==> !HasDigit(s)
    decreases |s|
  {
    if s == [] then []
    else
      var rest := Digits(s[1..]);
      assert HasDigit(s) <==> IsDigit(s[0]) || HasDigit(s[1..]) by {
        if HasDigit(s) && !IsDigit(s[0]) {
          var i :| 0 <= i < |s| && IsDigit(s[i]);
          assert s[1..][i - 1] == s[i];
        }
        if HasDigit(s[1..]) {
          var i :| 0 <= i < |s[1..]| && IsDigit(s[1..][i]);
          assert s[i + 1] == s[1..][i];
        }
      }
      (if IsDigit(s[0]) then [s[0]] else []) + rest
  }

  /** A string of digits has itself as its digits. */
  lemma {:induction false} DigitsOfDigits(s: string)
    requires forall i :: 0 <= i < |s| ==> IsDigit(s[i])
    ensures Digits(s) == s
    decreases |s|
  {
    if s != [] {
      DigitsOfDigits(s[1..]);
    }
  }

  /** Digits are taken in order, piece by piece. */
  lemma {:induction false} DigitsConcat(a: string, b: string)
    ensures Digits(a + b) == Digits(a) + Digits(b)
    decreases |a|
  {
    if a == [] {
      assert a + b == b;
    } else {
      assert (a + b)[1..] == a[1..] + b;
      DigitsConcat(a[1..], b);
    }
  }

  /** `toLowerCase()` on one character; only ASCII letters are modelled. */
  function LowerChar(c: char): char
  {
    if 'A' <= c <= 'Z' then (c as int + 32) as char else c
  }

  function Lower(s: string): (r: string)
    ensures |r| == |s|
  {
    seq(|s|, i requires 0 <= i < |s| => LowerChar(s[i]))
  }

  /** `s.includes(p)`. */
  predicate Contains(s: string, p: string)
    decreases |s|
  {
    |p| <= |s| && (s[..|p|] == p || Contains(s[1..], p))
  }

  /** `p` occurs in `s` at index `i`, comparing characters exactly or, when
      `ignoreCase` holds, as the regex flag `i` compares ASCII patterns. */
  predicate MatchesAt(s: string, p: string, i: int, ignoreCase: bool)
  {
    0 <= i && i + |p| <= |s|
    && forall k :: 0 <= k < |p| ==> (if ignoreCase then LowerChar(s[i + k]) == LowerChar(p[k]) else s[i + k] == p[k])
  }

  /** The reference meaning of a case-insensitive substring test. */
  ghost predicate ContainsIgnoringCase(s: string, p: string)
  {
    exists i :: MatchesAt(s, p, i, true)
  }

  lemma MatchesAtSlice(s: string, p: string, i: int)
    requires 0 <= i && i + |p| <= |s|
    ensures MatchesAt(s, p, i, false) <==> s[i..i + |p|] == p
  {
    if MatchesAt(s, p, i, false) {
      assert forall k :: 0 <= k < |p| ==> s[i..i + |p|][k] == p[k];
    }
  }

  lemma {:induction false} ContainsOccurs(s: string, p: string)
    ensures Contains(s, p) <==> exists i :: MatchesAt(s, p, i, false)
    decreases |s|
  {
    if |p| <= |s| {
      MatchesAtSlice(s, p, 0);
      if s[..|p|] == p {
        assert MatchesAt(s, p, 0, false);
      } else {
        ContainsOccurs(s[1..], p);
        if Contains(s[1..], p) {
          var i :| MatchesAt(s[1..], p, i, false);
          assert MatchesAt(s, p, i + 1, false);
        }
        forall i | MatchesAt(s, p, i, false) ensures MatchesAt(s[1..], p, i - 1, false) {
          assert i != 0;
        }
      }
    } else {
      forall i ensures !MatchesAt(s, p, i, false) {}
    }
  }

  /** Lower-casing and then testing for a lower-case pattern is a
      case-insensitive substring test. */
  lemma LowerContains(s: string, p: string)
    requires Lower(p) == p
    ensures Contains(Lower(s), p) <==> ContainsIgnoringCase(s, p)
  {
    ContainsOccurs(Lower(s), p);
    forall i ensures MatchesAt(Lower(s), p, i, false) <==> MatchesAt(s, p, i, true) {
      if 0 <= i && i + |p| <= |s| {
        forall k | 0 <= k < |p| ensures Lower(s)[i + k] == p[k] <==> LowerChar(s[i + k]) == LowerChar(p[k]) {
          assert Lower(p)[k] == LowerChar(p[k]);
        }
      }
    }
  }

  /** The whitespace-and-sign prefix rules of `parseInt(s, 10)`: the longest
      run of digits at the start of `s`. */
  function DigitPrefix(s: string): (r: string)
    ensures |r| <= |s| && r == s[..|r|]
    ensures forall i :: 0 <= i < |r| ==> IsDigit(r[i])
    ensures |r| == |s| || !IsDigit(s[|r|])
    decreases |s|
  {
    if s != [] && IsDigit(s[0]) then [s[0]] + DigitPrefix(s[1..]) else []
  }

  function DecimalValue(d: string): nat
    decreases |d|
  {
    if d == [] then 0
    else
      var c := d[|d| - 1];
      DecimalValue(d[..|d| - 1]) * 10 + (if IsDigit(c) then c as int - '0' as int else 0)
  }

  /** `parseInt(s, 10)`, with `None` for `NaN`. */
  function ParseInt(s: string): Option<int>
  {
    var t := TrimStart(s);
    var signed := t != [] && (t[0] == '-' || t[0] == '+');
    var d := DigitPrefix(if signed then t[1..] else t);
    var v: int := DecimalValue(d);
    if d == [] then None else Some(if signed && t[0] == '-' then -v else v)
  }

  function DigitChar(n: nat): char
    requires n < 10
  {
    ('0' as int + n) as char
  }

  function NatToString(n: nat): (r: string)
    ensures r != [] && forall i :: 0 <= i < |r| ==> IsDigit(r[i])
    decreases n
  {
    if n < 10 then [DigitChar(n)] else NatToString(n / 10) + [DigitChar(n % 10)]
  }

  /** `String(n)` for an integer `n`. */
  function IntToString(n: int): string
  {
    if n < 0 then "-" + NatToString(-n) else NatToString(n)
  }

  lemma {:induction false} DecimalValueOfNatToString(n: nat)
    ensures DecimalValue(NatToString(n)) == n
    decreases n
  {
    var r := NatToString(n);
    if n >= 10 {
      DecimalValueOfNatToString(n / 10);
      assert r[..|r| - 1] == NatToString(n / 10);
    }
  }

  lemma {:induction false} DigitPrefixOfDigits(s: string)
    requires forall i :: 0 <= i < |s| ==> IsDigit(s[i])
    ensures DigitPrefix(s) == s
    decreases |s|
  {
    if s != [] {
      DigitPrefixOfDigits(s[1..]);
    }
  }

  lemma TrimStartNoLeading(s: string)
    requires s != [] && !IsWhitespace(s[0])
    ensures TrimStart(s) == s
  {
  }

  /** `parseInt(String(n), 10) == n`: the two spellings of a court id agree. */
  lemma ParseIntOfIntToString(n: int)
    ensures ParseInt(IntToString(n)) == Some(n)
  {
    var m: nat := if n < 0 then -n else n;
    var d := NatToString(m);
    DecimalValueOfNatToString(m);
    DigitPrefixOfDigits(d);
    var s := IntToString(n);
    assert IsDigit(d[0]);
    if n < 0 {
      assert s == "-" + d;
      TrimStartNoLeading(s);
      assert s[1..] == d;
    } else {
      assert s == d;
      TrimStartNoLeading(s);
    }
  }
}
