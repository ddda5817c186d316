/**
 * The string helpers of `Mapping`: `trim` over the characters " \t\r\n",
 * `toLower` as in the "C" locale (only 'A'..'Z' change), `normalizar`, and
 * the `std::stoi` the loader parses ids with. Strings are sequences of
 * characters; no encoding is involved.
 */
module Text {
  import opened Common

  /** The characters `trim` strips. */
  predicate IsBlank(c: char) {
    c == ' ' || c == '\t' || c == '\r' || c == '\n'
  }

  /** `find_first_not_of` from `i`: the first non-blank index, or `|s|` for none. */
  function FirstNonBlank(s: string, i: nat): (r: nat)
    requires i <= |s|
    ensures i <= r <= |s| && (forall k | i <= k < r :: IsBlank(s[k])) && (r < |s| ==> !IsBlank(s[r]))
    decreases |s| - i
  {
    if i == |s| || !IsBlank(s[i]) then i else FirstNonBlank(s, i + 1)
  }

  /** `find_last_not_of` below `j`: one past the last non-blank index, or 0 for none. */
  function EndNonBlank(s: string, j: nat): (r: nat)
    requires j <= |s|
    ensures r <= j && (forall k | r <= k < j :: IsBlank(s[k])) && (r > 0 ==> !IsBlank(s[r - 1]))
  {
    if j == 0 || !IsBlank(s[j - 1]) then j else EndNonBlank(s, j - 1)
  }

  /** The result neither starts nor ends with a blank. */
  predicate Trimmed(s: string) {
    |s| > 0 ==> !IsBlank(s[0]) && !IsBlank(s[|s| - 1])
  }

  /**
   * `trim`: "" when every character is blank; otherwise the text from the
   * first to the last non-blank character, the interior untouched
   * (`TrimMeaning`).
   */
  function Trim(s: string): (r: string)
    ensures Trimmed(r) && |r| <= |s|
  {
    var a := FirstNonBlank(s, 0);
    if a == |s| then ""
    else
      var b := EndNonBlank(s, |s|);
      assert !IsBlank(s[a]);
      s[a..b]
  }

  /** `trim` cuts blanks only, and only at the two ends. */
  lemma TrimMeaning(s: string)
    ensures (forall k | 0 <= k < |s| :: IsBlank(s[k])) <==> Trim(s) == ""
    ensures exists i, j | 0 <= i <= j <= |s| :: Trim(s) == s[i..j]
                && (forall k | 0 <= k < i :: IsBlank(s[k])) && (forall k | j <= k < |s| :: IsBlank(s[k]))
  {
    var a := FirstNonBlank(s, 0);
    if a == |s| {
      assert Trim(s) == s[0..0];
    } else {
      var b := EndNonBlank(s, |s|);
      assert !IsBlank(s[a]);
    }
  }

  /** What `trim` returns is determined by its position in the input. */
  lemma TrimIdempotent(s: string)
    ensures Trim(Trim(s)) == Trim(s)
  {
    TrimOfTrimmed(Trim(s));
  }

  /** A string without blanks at either end is its own `trim`. */
  lemma TrimOfTrimmed(s: string)
    requires Trimmed(s)
    ensures Trim(s) == s
  {
    if |s| > 0 {
      assert FirstNonBlank(s, 0) == 0;
      assert EndNonBlank(s, |s|) == |s|;
    }
  }

  /** `std::tolower` of one character in the "C" locale. */
  function Lower(c: char): (r: char)
    ensures ('A' <= c <= 'Z') ==> r as int == c as int + 32
    ensures !('A' <= c <= 'Z') ==> r == c
  {
    if 'A' <= c <= 'Z' then (c as int + 32) as char else c
  }

  /** `toLower`: each character lowered in turn. */
  function ToLower(s: string): (r: string)
    ensures |r| == |s|
  {
    if |s| == 0 then [] else [Lower(s[0])] + ToLower(s[1..])
  }

  /** The lowered string holds the lowered character at every position. */
  lemma {:induction false} ToLowerAt(s: string)
    ensures forall k | 0 <= k < |s| :: ToLower(s)[k] == Lower(s[k])
  {
    if |s| > 0 {
      ToLowerAt(s[1..]);
      assert forall k | 1 <= k < |s| :: ToLower(s)[k] == ToLower(s[1..])[k - 1];
    }
  }

  lemma ToLowerIdempotent(s: string)
    ensures ToLower(ToLower(s)) == ToLower(s)
  {
    ToLowerAt(s);
    ToLowerAt(ToLower(s));
  }

  /** Lowering neither creates nor removes blanks. */
  lemma LowerKeepsBlank(c: char)
    ensures IsBlank(Lower(c)) <==> IsBlank(c)
  {
  }

  /** `normalizar`: the lowered `trim`. */
  function Normalize(s: string): (r: string)
    ensures |r| == |Trim(s)|
  {
    ToLower(Trim(s))
  }

  /** A normalised string has no blank at either end. */
  lemma NormalizeTrimmed(s: string)
    ensures Trimmed(Normalize(s))
  {
    var t := Trim(s);
    ToLowerAt(t);
    if |t| > 0 {
      LowerKeepsBlank(t[0]);
      LowerKeepsBlank(t[|t| - 1]);
    }
  }

  lemma NormalizeIdempotent(s: string)
    ensures Normalize(Normalize(s)) == Normalize(s)
  {
    var t := Trim(s);
    NormalizeTrimmed(s);
    TrimOfTrimmed(ToLower(t));
    ToLowerIdempotent(t);
  }

  /** Surrounding blanks and letter case do not change the normalised form. */
  lemma NormalizeOfTrim(s: string)
    ensures Normalize(Trim(s)) == Normalize(s)
  {
    TrimIdempotent(s);
  }

  // ---------------------------------------------------------------------
  // `std::stoi`
  // ---------------------------------------------------------------------

  const IntMin: int := -0x8000_0000
  const IntMax: int := 0x7fff_ffff

  /** The characters `isspace` accepts, which `stoi` skips first. */
  predicate IsSpace(c: char) {
    c == ' ' || c == '\t' || c == '\n' || c == '\U{000B}' || c == '\U{000C}' || c == '\r'
  }

  predicate IsDigit(c: char) {
    '0' <= c <= '9'
  }

  function SkipSpace(s: string, i: nat): (r: nat)
    requires i <= |s|
    ensures i <= r <= |s| && (forall k | i <= k < r :: IsSpace(s[k])) && (r < |s| ==> !IsSpace(s[r]))
    decreases |s| - i
  {
    if i == |s| || !IsSpace(s[i]) then i else SkipSpace(s, i + 1)
  }

  /** One past the run of digits starting at `i`. */
  function DigitsEnd(s: string, i: nat): (r: nat)
    requires i <= |s|
    ensures i <= r <= |s| && (forall k | i <= k < r :: IsDigit(s[k])) && (r < |s| ==> !IsDigit(s[r]))
    decreases |s| - i
  {
    if i == |s| || !IsDigit(s[i]) then i else DigitsEnd(s, i + 1)
  }

  /** The decimal value of a run of digits. */
  function DigitValue(c: char): nat
    requires IsDigit(c)
  {
    c as int - '0' as int
  }

  function DigitsValue(d: string): nat
    requires forall k | 0 <= k < |d| :: IsDigit(d[k])
  {
    if |d| == 0 then 0 else DigitsValue(d[..|d| - 1]) * 10 + DigitValue(d[|d| - 1])
  }

  /**
   * `std::stoi`: after optional spaces and one optional sign, the longest run
   * of digits, whatever follows it; no digits, or a value outside `int`, is
   * the exception the loader catches.
   */
  function Stoi(s: string): (r: Option<int>)
    ensures r.Some? ==> IntMin <= r.value <= IntMax
  {
    var a := SkipSpace(s, 0);
    var neg := a < |s| && s[a] == '-';
    var b := if a < |s| && (s[a] == '-' || s[a] == '+') then a + 1 else a;
    var e := DigitsEnd(s, b);
    if e == b then None
    else
      var v := DigitsValue(s[b..e]);
      var x: int := if neg then 0 - v as int else v;
      if IntMin <= x <= IntMax then Some(x) else None
  }

  // ---------------------------------------------------------------------
  // Decimal text, the inverse of `stoi` on ids
  // ---------------------------------------------------------------------

  function Digit(d: nat): (c: char)
    requires d < 10
    ensures IsDigit(c) && DigitValue(c) == d
  {
    ('0' as int + d) as char
  }

  /** The decimal text of `n`, without leading zeros. */
  function Decimal(n: nat): (s: string)
    ensures |s| > 0 && forall k | 0 <= k < |s| :: IsDigit(s[k])
  {
    if n < 10 then [Digit(n)] else Decimal(n / 10) + [Digit(n % 10)]
  }

  lemma {:induction false} DecimalValue(n: nat)
    ensures DigitsValue(Decimal(n)) == n
  {
    if n >= 10 {
      var s := Decimal(n);
      assert s[..|s| - 1] == Decimal(n / 10);
      DecimalValue(n / 10);
    }
  }

  /** `stoi` reads back the decimal text of a number, and fails for one beyond `int`. */
  lemma StoiDecimal(n: nat)
    ensures Stoi(Decimal(n)) == if n <= IntMax then Some(n) else None
  {
    var s := Decimal(n);
    assert SkipSpace(s, 0) == 0;
    DigitsRun(s, 0);
    assert s[0..|s|] == s;
    DecimalValue(n);
  }

  lemma {:induction false} DigitsRun(s: string, i: nat)
    requires i <= |s| && forall k | i <= k < |s| :: IsDigit(s[k])
    ensures DigitsEnd(s, i) == |s|
    decreases |s| - i
  {
    if i < |s| {
      DigitsRun(s, i + 1);
    }
  }

  lemma {:induction false} DigitsStop(s: string, i: nat, j: nat)
    requires i <= j <= |s| && (forall k | i <= k < j :: IsDigit(s[k])) && (j < |s| ==> !IsDigit(s[j]))
    ensures DigitsEnd(s, i) == j
    decreases j - i
  {
    if i < j {
      DigitsStop(s, i + 1, j);
    }
  }

  /** `stoi` ignores whatever follows the digits. */
  lemma StoiIgnoresTail(d: string, t: string)
    requires |d| > 0 && (forall k | 0 <= k < |d| :: IsDigit(d[k])) && (|t| > 0 ==> !IsDigit(t[0]))
    ensures Stoi(d + t) == Stoi(d)
  {
    var s := d + t;
    DigitsStop(s, 0, |d|);
    DigitsRun(d, 0);
    StoiUnsigned(s, |d|);
    StoiUnsigned(d, |d|);
    assert s[0..|d|] == d[0..|d|];
  }

  /** Text starting with `e` digits reads as their value. */
  lemma StoiUnsigned(s: string, e: nat)
    requires 0 < e <= |s| && IsDigit(s[0]) && DigitsEnd(s, 0) == e
    ensures forall k | 0 <= k < e :: IsDigit(s[k])
    ensures Stoi(s) == if DigitsValue(s[0..e]) <= IntMax then Some(DigitsValue(s[0..e])) else None
  {
    assert SkipSpace(s, 0) == 0;
  }

  /** Text with no digit after the optional spaces and sign is not a number. */
  lemma StoiNoDigits(s: string)
    requires forall k | 0 <= k < |s| :: !IsDigit(s[k])
    ensures Stoi(s) == None
  {
  }
}
