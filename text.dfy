/**
 * String helpers shared by the PHP endpoints and the React pages: PHP's and
 * JavaScript's `trim`, the 11-digit phone check, the digit-only input
 * sanitiser, `String.prototype.includes`, ASCII lower-casing, and decimal
 * printing/parsing of the session timestamp.
 */
module Text {
  import opened Wrappers

  predicate IsAsciiDigit(c: char) {
    '0' <= c <= '9'
  }

  predicate AllDigits(s: string) {
    forall i :: 0 <= i < |s| ==> IsAsciiDigit(s[i])
  }

  /** The stored phone format: exactly 11 ASCII digits. */
  predicate IsElevenDigits(s: string) {
    |s| == 11 && AllDigits(s)
  }

  /**
   * `preg_match('/^[0-9]{11}$/', $s)`. Without the D modifier PCRE's `$` also
   * matches just before a final newline, so "08012345678\n" matches too.
   */
  predicate PregElevenDigits(s: string) {
    IsElevenDigits(s) || (|s| == 12 && s[11] == '\n' && IsElevenDigits(s[..11]))
  }

  // ---------------------------------------------------------------- trimming

  /** The characters PHP's `trim` strips by default: " \t\n\r\0\x0B". */
  predicate IsPhpTrimChar(c: char) {
    c == ' ' || c == '\t' || c == '\n' || c == '\r' || c == '\0' || c as int == 0x0B
  }

  /** The characters JavaScript's `String.prototype.trim` strips (WhiteSpace and LineTerminator). */
  predicate IsJsWhitespace(c: char) {
    var n := c as int;
    n == 0x09 || n == 0x0A || n == 0x0B || n == 0x0C || n == 0x0D || n == 0x20 ||
    n == 0xA0 || n == 0x1680 || (0x2000 <= n <= 0x200A) || n == 0x2028 || n == 0x2029 ||
    n == 0x202F || n == 0x205F || n == 0x3000 || n == 0xFEFF
  }

  /** Index of the first character at or after `k` that is not stripped. */
  function SkipStart(s: string, strip: char -> bool, k: nat): (j: nat)
    requires k <= |s|
    requires forall i :: 0 <= i < k ==> strip(s[i])
    ensures k <= j <= |s|
    ensures forall i :: 0 <= i < j ==> strip(s[i])
    ensures j < |s| ==> !strip(s[j])
    decreases |s| - k
  {
    if k < |s| && strip(s[k]) then SkipStart(s, strip, k + 1) else k
  }

  /** End of the text once the stripped characters before `k` (and not before `lo`) are dropped. */
  function SkipEnd(s: string, strip: char -> bool, lo: nat, k: nat): (j: nat)
    requires lo <= k <= |s|
    requires forall i :: k <= i < |s| ==> strip(s[i])
    ensures lo <= j <= k
    ensures forall i :: j <= i < |s| ==> strip(s[i])
    ensures j > lo ==> !strip(s[j - 1])
  {
    if k > lo && strip(s[k - 1]) then SkipEnd(s, strip, lo, k - 1) else k
  }

  /**
   * `r` is `s` with a run of `strip` characters cut from its start and a run
   * cut from its end, and nothing else changed.
   */
  predicate EndsCut(s: string, r: string, strip: char -> bool) {
    exists a, b :: 0 <= a <= b <= |s| && r == s[a..b] &&
      (forall i :: 0 <= i < a ==> strip(s[i])) && (forall i :: b <= i < |s| ==> strip(s[i]))
  }

  /** Strips `strip` characters from both ends; the middle is untouched. */
  function Trim(s: string, strip: char -> bool): (r: string)
    ensures EndsCut(s, r, strip)
    ensures |r| <= |s|
    ensures |r| > 0 ==> !strip(r[0]) && !strip(r[|r| - 1])
    ensures r == "" <==> forall i :: 0 <= i < |s| ==> strip(s[i])
    ensures (forall i :: 0 <= i < |s| ==> !strip(s[i])) ==> r == s
    ensures |s| == 0 || (!strip(s[0]) && !strip(s[|s| - 1])) ==> r == s
  {
    var a := SkipStart(s, strip, 0);
    var b := SkipEnd(s, strip, a, |s|);
    assert EndsCut(s, s[a..b], strip) by {
      assert forall i :: b <= i < |s| ==> strip(s[i]);
    }
    s[a..b]
  }

  /** PHP `trim($s)`. */
  function PhpTrim(s: string): (r: string)
    ensures EndsCut(s, r, IsPhpTrimChar)
    ensures |r| <= |s|
    ensures |r| > 0 ==> !IsPhpTrimChar(r[0]) && !IsPhpTrimChar(r[|r| - 1])
    ensures |s| == 0 || (!IsPhpTrimChar(s[0]) && !IsPhpTrimChar(s[|s| - 1])) ==> r == s
    ensures r == "" <==> forall i :: 0 <= i < |s| ==> IsPhpTrimChar(s[i])
  {
    Trim(s, IsPhpTrimChar)
  }

  /** JavaScript `s.trim()`. */
  function JsTrim(s: string): (r: string)
    ensures EndsCut(s, r, IsJsWhitespace)
    ensures |r| <= |s|
    ensures |r| > 0 ==> !IsJsWhitespace(r[0]) && !IsJsWhitespace(r[|r| - 1])
    ensures |s| == 0 || (!IsJsWhitespace(s[0]) && !IsJsWhitespace(s[|s| - 1])) ==> r == s
    ensures r == "" <==> forall i :: 0 <= i < |s| ==> IsJsWhitespace(s[i])
  {
    Trim(s, IsJsWhitespace)
  }

  /** Trimming twice is trimming once. */
  lemma TrimIdempotent(s: string)
    ensures PhpTrim(PhpTrim(s)) == PhpTrim(s)
    ensures JsTrim(JsTrim(s)) == JsTrim(s)
  {
  }

  /**
   * Every endpoint trims the phone before matching it, so the newline that
   * PCRE's `$` tolerates can never be there: the regex test is exactly
   * "11 ASCII digits".
   */
  lemma TrimmedPhoneCheck(s: string)
    ensures PregElevenDigits(PhpTrim(s)) <==> IsElevenDigits(PhpTrim(s))
  {
    var t := PhpTrim(s);
    if |t| == 12 {
      assert !IsPhpTrimChar(t[11]);
    }
  }

  /** Neither trim removes an ASCII digit, so a string of digits is its own trim. */
  lemma DigitsAreNotTrimmed(s: string)
    requires AllDigits(s)
    ensures PhpTrim(s) == s && JsTrim(s) == s
  {
    if s != [] {
      assert IsAsciiDigit(s[0]) && IsAsciiDigit(s[|s| - 1]);
    }
  }

  // ------------------------------------------------------ digit sanitiser

  /** `s.replace(/\D/g, '')`: the ASCII digits of `s`, in order. */
  function Digits(s: string): (r: string)
    ensures AllDigits(r) && |r| <= |s|
  {
    if s == [] then [] else (if IsAsciiDigit(s[0]) then [s[0]] else []) + Digits(s[1..])
  }

  lemma {:induction false} DigitsOfDigits(s: string)
    requires AllDigits(s)
    ensures Digits(s) == s
  {
    if s != [] {
      DigitsOfDigits(s[1..]);
    }
  }

  /** Removing non-digits distributes over concatenation, so it keeps the digits' order. */
  lemma {:induction false} DigitsAppend(s: string, t: string)
    ensures Digits(s + t) == Digits(s) + Digits(t)
  {
    if s == [] {
      assert s + t == t;
    } else {
      assert (s + t)[1..] == s[1..] + t;
      DigitsAppend(s[1..], t);
    }
  }

  /** `s.replace(/\D/g, '').slice(0, limit)`: the phone-input sanitiser. */
  function KeepDigits(s: string, limit: nat): (r: string)
    ensures AllDigits(r)
    ensures |r| == if |Digits(s)| < limit then |Digits(s)| else limit
    ensures r == Digits(s)[..|r|]
  {
    var d := Digits(s);
    if |d| <= limit then d else d[..limit]
  }

  /** Sanitising an already-sanitised value changes nothing. */
  lemma KeepDigitsIdempotent(s: string, limit: nat)
    ensures KeepDigits(KeepDigits(s, limit), limit) == KeepDigits(s, limit)
  {
    DigitsOfDigits(KeepDigits(s, limit));
  }

  // ------------------------------------------------------------- searching

  /** JavaScript `s.includes(q)`. */
  predicate Contains(s: string, q: string)
    decreases |s|
  {
    q <= s || (|s| > 0 && Contains(s[1..], q))
  }

  /** `q` occurs in `s` starting at position `i`. */
  predicate OccursAt(s: string, q: string, i: int) {
    0 <= i <= |s| - |q| && s[i..i + |q|] == q
  }

  /** `includes` means: `q` occurs at some position of `s`. */
  lemma {:induction false} ContainsAt(s: string, q: string)
    ensures Contains(s, q) <==> exists i :: OccursAt(s, q, i)
  {
    if q <= s {
      assert OccursAt(s, q, 0);
    } else if |s| > 0 {
      ContainsAt(s[1..], q);
      if exists i :: OccursAt(s, q, i) {
        var i :| OccursAt(s, q, i);
        assert i != 0;
        assert OccursAt(s[1..], q, i - 1);
      }
      if Contains(s[1..], q) {
        var j :| OccursAt(s[1..], q, j);
        assert OccursAt(s, q, j + 1);
      }
    }
  }

  /** ASCII-only `toLowerCase` of one character. */
  function LowerChar(c: char): (d: char)
    ensures !('A' <= d <= 'Z')
  {
    if 'A' <= c <= 'Z' then (c as int + 32) as char else c
  }

  /** `s.toLowerCase()`, for the ASCII letters. */
  function ToLower(s: string): (r: string)
    ensures |r| == |s|
    ensures forall i :: 0 <= i < |s| ==> r[i] == LowerChar(s[i])
  {
    seq(|s|, i requires 0 <= i < |s| => LowerChar(s[i]))
  }

  // ------------------------------------------------- decimal timestamps

  function DigitChar(d: nat): (c: char)
    requires d < 10
    ensures IsAsciiDigit(c)
  {
    "0123456789"[d]
  }

  function DigitValue(c: char): (d: nat)
    requires IsAsciiDigit(c)
    ensures d < 10
  {
    c as int - '0' as int
  }

  /** `String(n)` for a non-negative integer. */
  function NatToString(n: nat): (s: string)
    ensures |s| > 0 && AllDigits(s)
  {
    if n < 10 then [DigitChar(n)] else NatToString(n / 10) + [DigitChar(n % 10)]
  }

  /** The value of a string of decimal digits. */
  function DecimalValue(s: string): nat
    requires AllDigits(s)
  {
    if s == [] then 0 else DecimalValue(s[..|s| - 1]) * 10 + DigitValue(s[|s| - 1])
  }

  /**
   * JavaScript `Number(s)`, for the strings this program stores: surrounding
   * whitespace is ignored, a blank string is 0, a string of decimal digits is
   * its value, anything else is NaN (`None`).
   */
  function JsNumber(s: string): (r: Option<int>)
    ensures AllDigits(s) && s != "" ==> r == Some(DecimalValue(s))
  {
    var t := JsTrim(s);
    assert AllDigits(s) && s != "" ==> t == s by {
      if AllDigits(s) && s != "" {
        assert !IsJsWhitespace(s[0]);
        forall i | 0 <= i < |s| ensures !IsJsWhitespace(s[i]) {
          assert IsAsciiDigit(s[i]);
        }
      }
    }
    if t == "" then Some(0)
    else if AllDigits(t) then Some(DecimalValue(t))
    else None
  }

  lemma {:induction false} DecimalOfNatToString(n: nat)
    ensures DecimalValue(NatToString(n)) == n
  {
    if n >= 10 {
      var s := NatToString(n / 10);
      var t := s + [DigitChar(n % 10)];
      assert t[..|t| - 1] == s;
      DecimalOfNatToString(n / 10);
    }
  }

  /** Reading back a timestamp written with `String(n)` gives `n`. */
  lemma NumberOfNatToString(n: nat)
    ensures JsNumber(NatToString(n)) == Some(n)
  {
    DecimalOfNatToString(n);
  }
}
