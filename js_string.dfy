/**
 * JavaScript strings as the source's code sees them: sequences of UTF-16 code
 * units. Only the string primitives that the chat client uses are modelled:
 * `trim`, `toLowerCase` (restricted to what the exit test needs) and the
 * UTF-16 encoding of text written as literals.
 */
module JsString {

  /** One UTF-16 code unit. Dafny's `char` cannot hold a lone surrogate, a unit can. */
  newtype CodeUnit = x: int | 0 <= x < 0x1_0000

  /** A JavaScript string value. */
  type Str = seq<CodeUnit>

  predicate IsSurrogate(u: CodeUnit) { 0xD800 <= u <= 0xDFFF }

  /** The UTF-16 encoding of one Unicode scalar value. */
  function EncodeChar(c: char): (r: Str)
    ensures |r| == 1 <==> c as int < 0x1_0000
    ensures |r| == 1 ==> r[0] as int == c as int && !IsSurrogate(r[0])
    ensures |r| == 2 ==> 0xD800 <= r[0] <= 0xDBFF && 0xDC00 <= r[1] <= 0xDFFF
    ensures |r| == 2 ==> 0x1_0000 + (r[0] as int - 0xD800) * 0x400 + (r[1] as int - 0xDC00) == c as int
  {
    var n := c as int;
    if n < 0x1_0000 then [n as CodeUnit]
    else [(0xD800 + (n - 0x1_0000) / 0x400) as CodeUnit, (0xDC00 + (n - 0x1_0000) % 0x400) as CodeUnit]
  }

  /** The UTF-16 encoding of a text, the string value JavaScript holds for it. */
  function Encode(s: string): Str
  {
    if s == [] then [] else EncodeChar(s[0]) + Encode(s[1..])
  }

  lemma {:induction false} EncodeAppend(a: string, b: string)
    ensures Encode(a + b) == Encode(a) + Encode(b)
  {
    if a == [] {
      assert a + b == b;
    } else {
      assert (a + b)[1..] == a[1..] + b;
      EncodeAppend(a[1..], b);
    }
  }

  /** Every character lies in the Basic Multilingual Plane, where UTF-16 uses one unit per character. */
  predicate InBmp(s: string) { forall k | 0 <= k < |s| :: s[k] as int < 0x1_0000 }

  /** The code units of a literal written in the Basic Multilingual Plane (the form of every literal in the source). */
  function Units(s: string): (r: Str)
    requires InBmp(s)
    ensures |r| == |s|
  {
    seq(|s|, i requires 0 <= i < |s| => s[i] as int as CodeUnit)
  }

  /** `Units` is the UTF-16 encoding, specialised to the Basic Multilingual Plane. */
  lemma {:induction false} UnitsIsEncode(s: string)
    requires InBmp(s)
    ensures Units(s) == Encode(s)
  {
    if s != [] {
      UnitsIsEncode(s[1..]);
      assert Units(s) == [s[0] as int as CodeUnit] + Units(s[1..]);
    }
  }

  /**
   * ECMAScript WhiteSpace and LineTerminator code points, the units that
   * `String.prototype.trim` removes: TAB, LF, VT, FF, CR, SPACE, NBSP,
   * OGHAM SPACE MARK, U+2000..U+200A, LINE and PARAGRAPH SEPARATOR,
   * NARROW NBSP, MEDIUM MATHEMATICAL SPACE, IDEOGRAPHIC SPACE and the BOM.
   */
  predicate IsWhiteSpace(u: CodeUnit)
  {
    (0x09 <= u <= 0x0D) || u == 0x20 || u == 0xA0 || u == 0x1680 ||
    (0x2000 <= u <= 0x200A) || u == 0x2028 || u == 0x2029 || u == 0x202F ||
    u == 0x205F || u == 0x3000 || u == 0xFEFF
  }

  predicate AllWhiteSpace(s: Str) { forall k | 0 <= k < |s| :: IsWhiteSpace(s[k]) }

  /** Neither the first nor the last unit is white space. */
  predicate IsTrimmed(s: Str) { s != [] ==> !IsWhiteSpace(s[0]) && !IsWhiteSpace(s[|s| - 1]) }

  /** Drops leading white space. */
  function TrimStart(s: Str): Str
  {
    if s != [] && IsWhiteSpace(s[0]) then TrimStart(s[1..]) else s
  }

  /** Drops trailing white space. */
  function TrimEnd(s: Str): Str
  {
    if s != [] && IsWhiteSpace(s[|s| - 1]) then TrimEnd(s[..|s| - 1]) else s
  }

  /** `TrimStart` cuts a white-space prefix and stops at the first other unit. */
  lemma {:induction false} TrimStartSpec(s: Str)
    ensures |TrimStart(s)| <= |s| && TrimStart(s) == s[|s| - |TrimStart(s)|..]
    ensures AllWhiteSpace(s[..|s| - |TrimStart(s)|])
    ensures TrimStart(s) != [] ==> !IsWhiteSpace(TrimStart(s)[0])
  {
    if s != [] && IsWhiteSpace(s[0]) {
      TrimStartSpec(s[1..]);
    }
  }

  /** `TrimEnd` cuts a white-space suffix and stops at the last other unit. */
  lemma {:induction false} TrimEndSpec(s: Str)
    ensures |TrimEnd(s)| <= |s| && TrimEnd(s) == s[..|TrimEnd(s)|]
    ensures AllWhiteSpace(s[|TrimEnd(s)|..])
    ensures TrimEnd(s) != [] ==> !IsWhiteSpace(TrimEnd(s)[|TrimEnd(s)| - 1])
  {
    if s != [] && IsWhiteSpace(s[|s| - 1]) {
      TrimEndSpec(s[..|s| - 1]);
      assert s[|TrimEnd(s)|..] == s[..|s| - 1][|TrimEnd(s)|..] + [s[|s| - 1]];
    }
  }

  /** `String.prototype.trim`. */
  function Trim(s: Str): (r: Str)
    ensures IsTrimmed(r)
  {
    TrimStartSpec(s);
    TrimEndSpec(TrimStart(s));
    var r := TrimEnd(TrimStart(s));
    assert r != [] ==> r[0] == TrimStart(s)[0];
    r
  }

  /** The trimmed string is the input with only white space cut from its two ends. */
  lemma TrimIsSlice(s: Str)
    ensures exists i :: 0 <= i <= |s| - |Trim(s)| && AllWhiteSpace(s[..i]) && s[i..] == Trim(s) + s[i + |Trim(s)|..] && AllWhiteSpace(s[i + |Trim(s)|..])
  {
    TrimStartSpec(s);
    var t := TrimStart(s);
    TrimEndSpec(t);
    var r := TrimEnd(t);
    var i := |s| - |t|;
    assert s[i..] == t;
    assert t == r + t[|r|..];
    assert s[i + |r|..] == t[|r|..];
    assert 0 <= i <= |s| - |r| && AllWhiteSpace(s[..i]) && s[i..] == r + s[i + |r|..] && AllWhiteSpace(s[i + |r|..]);
  }

  /** The trimmed string is empty exactly when the string is all white space. */
  lemma TrimEmptyIff(s: Str)
    ensures Trim(s) == [] <==> AllWhiteSpace(s)
  {
    TrimStartSpec(s);
    var t := TrimStart(s);
    TrimEndSpec(t);
    if t == [] {
      assert s[..|s|] == s;
    } else {
      assert TrimEnd(t) != [] by { assert TrimEnd(t)[0] == t[0]; }
    }
  }

  /** A string with no white space at either end is its own trim. */
  lemma {:induction false} TrimOfTrimmed(s: Str)
    requires IsTrimmed(s)
    ensures Trim(s) == s
  {
  }

  /** Trimming twice is trimming once. */
  lemma TrimIdempotent(s: Str)
    ensures Trim(Trim(s)) == Trim(s)
  {
    TrimOfTrimmed(Trim(s));
  }

  /** Lower-cases one code unit; the ASCII capitals A..Z are the only ones modelled. */
  function LowerUnit(u: CodeUnit): CodeUnit
  {
    if 0x41 <= u <= 0x5A then u + 0x20 else u
  }

  /** `String.prototype.toLowerCase`, restricted to ASCII letters. */
  function ToLowerCase(s: Str): Str
  {
    seq(|s|, i requires 0 <= i < |s| => LowerUnit(s[i]))
  }
}
