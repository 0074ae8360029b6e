/** When JavaScript's `Number(s)` is `NaN`: the StringNumericLiteral grammar of
    ECMA-262 (section 7.1.4.1.1, "StringToNumber"), written out as predicates.
    `Number` trims the same white space as `String.prototype.trim`, reads the
    empty string as 0, and is `NaN` exactly when the trimmed text is not a
    StrNumericLiteral. */
module JsNumber {
  import opened Text

  predicate IsDecimalDigits(s: string) {
    |s| >= 1 && forall i :: 0 <= i < |s| ==> IsDigit(s[i])
  }

  predicate IsSign(c: char) {
    c == '+' || c == '-'
  }

  predicate IsSignedInteger(s: string) {
    IsDecimalDigits(s) || (|s| >= 1 && IsSign(s[0]) && IsDecimalDigits(s[1..]))
  }

  predicate IsExponentIndicator(c: char) {
    c == 'e' || c == 'E'
  }

  predicate IsExponentPart(s: string) {
    |s| >= 1 && IsExponentIndicator(s[0]) && IsSignedInteger(s[1..])
  }

  /** Digits with at most one `.`, and a digit on at least one side of it. */
  predicate IsMantissa(m: string) {
    var k := IndexOf(m, '.');
    if k == |m| then IsDecimalDigits(m)
    else
      var whole, frac := m[..k], m[k + 1..];
      (IsDecimalDigits(whole) && (frac == [] || IsDecimalDigits(frac)))
      || (whole == [] && IsDecimalDigits(frac))
  }

  /** The index of the first `e` or `E`, or `|s|`. */
  function ExponentStart(s: string): (k: nat)
    ensures k <= |s|
    ensures k < |s| ==> IsExponentIndicator(s[k])
    ensures forall i :: 0 <= i < k ==> !IsExponentIndicator(s[i])
  {
    if s == [] || IsExponentIndicator(s[0]) then 0 else 1 + ExponentStart(s[1..])
  }

  /** StrUnsignedDecimalLiteral: `Infinity`, or a mantissa with an optional
      exponent. A mantissa holds no `e`, so the exponent starts at the first one. */
  predicate IsUnsignedDecimal(s: string) {
    s == "Infinity"
    || (var k := ExponentStart(s); IsMantissa(s[..k]) && (k == |s| || IsExponentPart(s[k..])))
  }

  predicate IsDecimalLiteral(s: string) {
    IsUnsignedDecimal(s) || (|s| >= 1 && IsSign(s[0]) && IsUnsignedDecimal(s[1..]))
  }

  predicate IsRadixDigit(c: char, radix: nat) {
    if radix == 2 then c == '0' || c == '1'
    else if radix == 8 then '0' <= c <= '7'
    else IsDigit(c) || ('a' <= c <= 'f') || ('A' <= c <= 'F')
  }

  /** NonDecimalIntegerLiteral without separators: `0b`, `0o` or `0x` and at least one digit. */
  predicate IsNonDecimalInteger(s: string) {
    && |s| >= 3 && s[0] == '0'
    && var radix := if s[1] == 'b' || s[1] == 'B' then 2
                    else if s[1] == 'o' || s[1] == 'O' then 8
                    else if s[1] == 'x' || s[1] == 'X' then 16
                    else 0;
       radix != 0 && forall i :: 2 <= i < |s| ==> IsRadixDigit(s[i], radix)
  }

  /** `isNaN(Number(s))`. */
  predicate IsNaN(s: string) {
    var t := Trim(s);
    !(t == [] || IsDecimalLiteral(t) || IsNonDecimalInteger(t))
  }

  /** `Number("")` is 0 and `Number` of a string of ASCII digits is that number:
      neither is `NaN`. */
  lemma DigitsAreNumbers(s: string)
    requires s == [] || IsDecimalDigits(s)
    ensures !IsNaN(s)
  {
    if s != [] {
      assert !IsSpace(s[0]) && !IsSpace(s[|s| - 1]);
      TrimOfTrimmed(s);
      assert ExponentStart(s) == |s|;
      assert s[..|s|] == s;
      assert IndexOf(s, '.') == |s|;
      assert IsUnsignedDecimal(s);
    }
  }

  /** The lower-case letters no numeric literal can hold apart from `Infinity`. */
  predicate IsForeignLetter(c: char) {
    'g' <= c <= 'z' && c != 'o' && c != 'x'
  }

  /** A white-space-free text holding a letter a number cannot contain is `NaN`;
      typical header words such as `id` or `name` are. */
  lemma LetterMakesNaN(s: string, i: nat)
    requires i < |s| && IsForeignLetter(s[i])
    requires forall j :: 0 <= j < |s| ==> !IsSpace(s[j])
    requires s != "Infinity" && s != "+Infinity" && s != "-Infinity"
    ensures IsNaN(s)
  {
    assert !IsSpace(s[0]) && !IsSpace(s[|s| - 1]);
    TrimOfTrimmed(s);
    LetterNotDecimal(s, i);
    LetterNotNonDecimal(s, i);
  }

  lemma LetterNotDecimal(s: string, i: nat)
    requires i < |s| && IsForeignLetter(s[i])
    requires s != "Infinity" && s != "+Infinity" && s != "-Infinity"
    ensures !IsDecimalLiteral(s)
  {
    LetterNotUnsigned(s, i);
    if IsSign(s[0]) {
      var u := s[1..];
      assert u != "Infinity" by {
        assert s == [s[0]] + u;
        assert ['+'] + "Infinity" == "+Infinity" && ['-'] + "Infinity" == "-Infinity";
      }
      assert u[i - 1] == s[i];
      LetterNotUnsigned(u, i - 1);
    }
  }

  lemma LetterNotNonDecimal(s: string, i: nat)
    requires i < |s| && IsForeignLetter(s[i])
    ensures !IsNonDecimalInteger(s)
  {
  }

  lemma LetterNotUnsigned(u: string, i: nat)
    requires i < |u| && IsForeignLetter(u[i]) && u != "Infinity"
    ensures !IsUnsignedDecimal(u)
  {
    var k := ExponentStart(u);
    if i < k {
      assert u[..k][i] == u[i];
      NoLetterInMantissa(u[..k], i);
    } else if i > k {
      var x := u[k..][1..];
      assert x[i - k - 1] == u[i];
      assert !IsDecimalDigits(x);
      if |x| >= 1 && i - k - 1 >= 1 {
        assert x[1..][i - k - 2] == u[i];
      }
    }
  }

  lemma NoLetterInMantissa(m: string, i: nat)
    requires i < |m| && !IsDigit(m[i]) && m[i] != '.'
    ensures !IsMantissa(m)
  {
    var k := IndexOf(m, '.');
    if k < |m| {
      if i < k {
        assert m[..k][i] == m[i];
      } else {
        assert m[k + 1..][i - k - 1] == m[i];
      }
    }
  }
}
