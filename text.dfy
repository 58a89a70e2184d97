/**
 * The two string normalisations the screens apply to form input:
 * `String.prototype.trim()` and `replace(/\D/g, '')` (keep only '0'..'9').
 */
module Text {

  /** The characters `trim()` removes: ECMAScript WhiteSpace and LineTerminator code points. */
  predicate IsWhitespace(c: char)
  {
    var n := c as int;
    n == 0x09 || n == 0x0A || n == 0x0B || n == 0x0C || n == 0x0D || n == 0x20 || n == 0xA0
    || n == 0x1680 || (0x2000 <= n <= 0x200A) || n == 0x2028 || n == 0x2029 || n == 0x202F
    || n == 0x205F || n == 0x3000 || n == 0xFEFF
  }

  /** The characters `\d` matches: the ASCII digits only. */
  predicate IsDigit(c: char)
  {
    '0' <= c <= '9'
  }

  predicate AllWhitespace(s: string)
  {
    forall i :: 0 <= i < |s| ==> IsWhitespace(s[i])
  }

  predicate AllDigits(s: string)
  {
    forall i :: 0 <= i < |s| ==> IsDigit(s[i])
  }

  /** Neither the first nor the last character is whitespace. */
  predicate Unpadded(s: string)
  {
    s == [] || (!IsWhitespace(s[0]) && !IsWhitespace(s[|s| - 1]))
  }

  /** Drops the leading whitespace: the result is a suffix of `s` and all that was dropped is whitespace. */
  function TrimStart(s: string): (r: string)
    ensures |r| <= |s| && r == s[|s| - |r|..]
    ensures AllWhitespace(s[..|s| - |r|])
    ensures r != [] ==> !IsWhitespace(r[0])
  {
    if s != [] && IsWhitespace(s[0]) then
      var t := TrimStart(s[1..]);
      assert s[..|s| - |t|] == [s[0]] + s[1..][..|s| - 1 - |t|];
      t
    else
      s
  }

  /** Drops the trailing whitespace: the result is a prefix of `s` and all that was dropped is whitespace. */
  function TrimEnd(s: string): (r: string)
    ensures |r| <= |s| && r == s[..|r|]
    ensures AllWhitespace(s[|r|..])
    ensures r != [] ==> !IsWhitespace(r[|r| - 1])
  {
    if s != [] && IsWhitespace(s[|s| - 1]) then
      var t := TrimEnd(s[..|s| - 1]);
      assert s[|t|..] == s[..|s| - 1][|t|..] + [s[|s| - 1]];
      t
    else
      s
  }

  /** `trim()`: the result is unpadded, blank exactly when `s` is all whitespace, and `s` itself when `s` is unpadded. */
  function Trim(s: string): (r: string)
    ensures |r| <= |s|
    ensures Unpadded(r)
    ensures r == [] <==> AllWhitespace(s)
    ensures Unpadded(s) ==> r == s
  {
    var t := TrimStart(s);
    var r := TrimEnd(t);
    assert r != [] ==> r[0] == t[0];
    if r == [] then
      assert t == [];
      assert s[..|s| - |t|] == s;
      r
    else
      assert !IsWhitespace(s[|s| - |t|]);
      r
  }

  /** `replace(/\D/g, '')`: the digits of `s`, in order. */
  function Digits(s: string): (r: string)
    ensures |r| <= |s|
    ensures AllDigits(r)
  {
    if s == [] then []
    else (if IsDigit(s[0]) then [s[0]] else []) + Digits(s[1..])
  }

  lemma {:induction false} DigitsAppend(a: string, b: string)
    ensures Digits(a + b) == Digits(a) + Digits(b)
  {
    if a == [] {
      assert a + b == b;
    } else {
      var head := if IsDigit(a[0]) then [a[0]] else [];
      assert (a + b)[0] == a[0] && (a + b)[1..] == a[1..] + b;
      assert Digits(a + b) == head + Digits(a[1..] + b);
      DigitsAppend(a[1..], b);
      assert Digits(a) == head + Digits(a[1..]);
    }
  }

  /** One character is kept exactly when it is a digit; with `DigitsAppend` this fixes `Digits` on every string. */
  lemma DigitsOfChar(c: char)
    ensures Digits([c]) == if IsDigit(c) then [c] else []
  {
    assert [c][1..] == [];
  }

  /** A string of digits only is its own digit form. */
  lemma {:induction false} DigitsOfDigitString(s: string)
    requires AllDigits(s)
    ensures Digits(s) == s
  {
    if s != [] {
      DigitsOfDigitString(s[1..]);
    }
  }

  /** Normalising twice is normalising once. */
  lemma DigitsIdempotent(s: string)
    ensures Digits(Digits(s)) == Digits(s)
  {
    DigitsOfDigitString(Digits(s));
  }

  lemma {:induction false} DigitsOfWhitespace(s: string)
    requires AllWhitespace(s)
    ensures Digits(s) == []
  {
    if s != [] {
      DigitsOfWhitespace(s[1..]);
    }
  }

  lemma DigitsIgnoreTrimStart(s: string)
    ensures Digits(TrimStart(s)) == Digits(s)
  {
    var t := TrimStart(s);
    var lead := s[..|s| - |t|];
    assert s == lead + t;
    DigitsAppend(lead, t);
    DigitsOfWhitespace(lead);
  }

  lemma DigitsIgnoreTrimEnd(s: string)
    ensures Digits(TrimEnd(s)) == Digits(s)
  {
    var r := TrimEnd(s);
    var trail := s[|r|..];
    assert s == r + trail;
    DigitsAppend(r, trail);
    DigitsOfWhitespace(trail);
  }

  /** Trimming first does not change the digit form: `Digits(Trim(s)) == Digits(s)`. */
  lemma DigitsIgnoreTrim(s: string)
    ensures Digits(Trim(s)) == Digits(s)
  {
    DigitsIgnoreTrimStart(s);
    DigitsIgnoreTrimEnd(TrimStart(s));
  }

  /** A non-blank digit string needs no trimming. */
  lemma DigitStringIsTrimmed(s: string)
    requires AllDigits(s)
    ensures Trim(s) == s
  {
    if s != [] {
      assert !IsWhitespace(s[0]) && !IsWhitespace(s[|s| - 1]);
    }
  }

  /** Trimming twice is trimming once. */
  lemma TrimIdempotent(s: string)
    ensures Trim(Trim(s)) == Trim(s)
  {
  }
}
