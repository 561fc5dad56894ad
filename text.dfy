/** Character and string helpers for the parts of Python's `str` API that the scrapers rely on.
    Only the ASCII behaviour is modelled: `strip()` removes ASCII whitespace, `lower()` folds A-Z,
    and `int()` accepts an optionally signed run of ASCII digits. */
module Text {
  import opened Wrappers

  predicate IsDigit(c: char) { '0' <= c <= '9' }

  /** The ASCII characters for which Python's `str.isspace()` holds. */
  predicate IsSpace(c: char) { c == ' ' || ('\t' <= c <= '\r') || ('\U{1C}' <= c <= '\U{1F}') }

  predicate AllDigits(s: string) { forall i :: 0 <= i < |s| ==> IsDigit(s[i]) }

  /** `s.isdigit()` for ASCII text: non-empty and only digits. */
  predicate IsDigitString(s: string) { |s| > 0 && AllDigits(s) }

  function DigitValue(c: char): (d: nat)
    requires IsDigit(c)
    ensures d < 10
  {
    (c as int) - ('0' as int)
  }

  /** The number written by a run of decimal digits (the empty run is 0). */
  function DigitsValue(s: string): (n: nat)
    requires AllDigits(s)
    decreases |s|
  {
    if s == [] then 0 else DigitsValue(s[..|s| - 1]) * 10 + DigitValue(s[|s| - 1])
  }

  function TrimLeft(s: string): (r: string)
    ensures |r| <= |s| && r == s[|s| - |r|..]
    ensures r == [] || !IsSpace(r[0])
    ensures forall i :: 0 <= i < |s| - |r| ==> IsSpace(s[i])
  {
    if s != [] && IsSpace(s[0]) then TrimLeft(s[1..]) else s
  }

  function TrimRight(s: string): (r: string)
    ensures |r| <= |s| && r == s[..|r|]
    ensures r == [] || !IsSpace(r[|r| - 1])
    ensures forall i :: |r| <= i < |s| ==> IsSpace(s[i])
  {
    if s != [] && IsSpace(s[|s| - 1]) then TrimRight(s[..|s| - 1]) else s
  }

  /** Python's `s.strip()`: the text between the leading and the trailing whitespace. */
  function Strip(s: string): string
  {
    TrimRight(TrimLeft(s))
  }

  lemma StripShape(s: string)
    ensures var r := Strip(s);
      (r == [] || (!IsSpace(r[0]) && !IsSpace(r[|r| - 1]))) &&
      exists i :: 0 <= i <= |s| - |r| && OccursAt(s, r, i)
  {
    var l := TrimLeft(s);
    var r := TrimRight(l);
    var i := |s| - |l|;
    assert r == s[i..i + |r|] by {
      assert l == s[i..] && r == l[..|r|];
    }
    assert OccursAt(s, r, i);
  }

  /** `strip()` only removes whitespace: every other character keeps its number of occurrences. */
  lemma StripKeeps(s: string, c: char)
    requires !IsSpace(c)
    ensures multiset(Strip(s))[c] == multiset(s)[c]
  {
    TrimLeftKeeps(s, c);
    TrimRightKeeps(TrimLeft(s), c);
  }

  lemma TrimLeftKeeps(s: string, c: char)
    requires !IsSpace(c)
    ensures multiset(TrimLeft(s))[c] == multiset(s)[c]
  {
    var r := TrimLeft(s);
    var i := |s| - |r|;
    assert s == s[..i] + r;
    SpacesKeep(s[..i], r, c);
  }

  lemma TrimRightKeeps(s: string, c: char)
    requires !IsSpace(c)
    ensures multiset(TrimRight(s))[c] == multiset(s)[c]
  {
    var r := TrimRight(s);
    assert s == r + s[|r|..];
    SpacesKeep(s[|r|..], r, c);
  }

  /** Whitespace around a text adds no occurrence of a non-space character. */
  lemma SpacesKeep(spaces: string, t: string, c: char)
    requires !IsSpace(c) && forall q :: 0 <= q < |spaces| ==> IsSpace(spaces[q])
    ensures multiset(spaces + t)[c] == multiset(t)[c] && multiset(t + spaces)[c] == multiset(t)[c]
  {
    assert c !in spaces;
    assert multiset(spaces + t) == multiset(spaces) + multiset(t);
    assert multiset(t + spaces) == multiset(t) + multiset(spaces);
  }

  function LowerChar(c: char): char
  {
    if 'A' <= c <= 'Z' then ((c as int) + 32) as char else c
  }

  /** Python's `s.lower()` restricted to ASCII letters. */
  function Lower(s: string): (r: string)
    ensures |r| == |s|
    ensures forall i :: 0 <= i < |s| ==> r[i] == LowerChar(s[i])
  {
    if s == [] then [] else [LowerChar(s[0])] + Lower(s[1..])
  }

  predicate StartsWith(s: string, prefix: string)
  {
    |prefix| <= |s| && s[..|prefix|] == prefix
  }

  /** `sub` occurs in `s` starting at position `i`. */
  predicate OccursAt(s: string, sub: string, i: int)
  {
    0 <= i <= |s| - |sub| && s[i..i + |sub|] == sub
  }

  /** Python's `sub in s` for strings. */
  predicate Contains(s: string, sub: string)
  {
    exists i | 0 <= i <= |s| - |sub| :: OccursAt(s, sub, i)
  }

  /** Python's `int(s)` on a string: surrounding whitespace, an optional sign and at least one digit.
      Anything else raises ValueError, modelled as None. */
  function ParseInt(s: string): (r: Option<int>)
    ensures IsDigitString(s) ==> r == Some(DigitsValue(s))
  {
    var t := Strip(s);
    if IsDigitString(t) then Some(DigitsValue(t))
    else if |t| >= 2 && t[0] == '+' && IsDigitString(t[1..]) then Some(DigitsValue(t[1..]))
    else if |t| >= 2 && t[0] == '-' && IsDigitString(t[1..]) then Some(-(DigitsValue(t[1..]) as int))
    else None
  }

  function NatToString(n: nat): (s: string)
    ensures IsDigitString(s)
    decreases n
  {
    var last := [('0' as int + n % 10) as char];
    if n < 10 then last else NatToString(n / 10) + last
  }

  /** Python's `str(n)` for an integer. */
  function IntToString(n: int): string
  {
    if n < 0 then "-" + NatToString(-n) else NatToString(n)
  }

  lemma {:induction false} NatToStringValue(n: nat)
    ensures DigitsValue(NatToString(n)) == n
    decreases n
  {
    var s := NatToString(n);
    if n >= 10 {
      NatToStringValue(n / 10);
      assert s[..|s| - 1] == NatToString(n / 10);
    }
  }

  lemma NatToStringNoSpace(n: nat)
    ensures Strip(NatToString(n)) == NatToString(n)
  {
    var s := NatToString(n);
    assert !IsSpace(s[0]) && !IsSpace(s[|s| - 1]);
  }

  /** `int(str(n)) == n`: the decimal text of an integer parses back to it. */
  lemma IntToStringRoundTrip(n: int)
    ensures ParseInt(IntToString(n)) == Some(n)
  {
    if n < 0 {
      var d := NatToString(-n);
      NatToStringValue(-n);
      var s := "-" + d;
      assert !IsSpace(s[0]) && !IsSpace(s[|s| - 1]);
      assert Strip(s) == s;
      assert s[1..] == d;
    } else {
      NatToStringValue(n);
      NatToStringNoSpace(n);
    }
  }

  /** The position of the first `c` in `s`, if any. */
  function IndexOf(s: string, c: char): (r: Option<nat>)
    ensures r.Some? ==> r.value < |s| && s[r.value] == c && c !in s[..r.value]
    ensures r.None? ==> c !in s
  {
    if s == [] then None
    else if s[0] == c then Some(0)
    else
      var r := IndexOf(s[1..], c);
      if r.Some? then
        assert s[..r.value + 1] == [s[0]] + s[1..][..r.value];
        Some(r.value + 1)
      else None
  }

  /** The leftmost position where `sub` occurs in `s` (what `str.find` reports). */
  function FirstOccurrence(s: string, sub: string): (r: Option<nat>)
    ensures r.Some? ==> OccursAt(s, sub, r.value) && forall q :: 0 <= q < r.value ==> !OccursAt(s, sub, q)
    ensures r.None? ==> forall q :: !OccursAt(s, sub, q)
    decreases |s|
  {
    if |s| < |sub| then None
    else if s[..|sub|] == sub then Some(0)
    else
      var r := FirstOccurrence(s[1..], sub);
      forall q | 1 <= q ensures OccursAt(s, sub, q) <==> OccursAt(s[1..], sub, q - 1) {
        OccursAtTail(s, sub, q);
      }
      if r.Some? then Some(r.value + 1) else None
  }

  /** An occurrence past the first character is an occurrence in the tail. */
  lemma OccursAtTail(s: string, sub: string, q: int)
    requires s != [] && 1 <= q
    ensures OccursAt(s, sub, q) <==> OccursAt(s[1..], sub, q - 1)
  {
    if q <= |s| - |sub| {
      var a, b := s[q..q + |sub|], s[1..][q - 1..q - 1 + |sub|];
      assert |a| == |b| && forall k :: 0 <= k < |a| ==> a[k] == b[k];
    }
  }

  /** Python's `s.split(sep)[-1]`: the text after the last separator the left-to-right split finds. */
  function SplitLast(s: string, sep: string): (r: string)
    requires |sep| > 0
    decreases |s|
  {
    match FirstOccurrence(s, sep)
    case None => s
    case Some(p) => SplitLast(s[p + |sep|..], sep)
  }

  /** Python's `s.split(c)[0]` for a one-character separator: the text before the first `c`. */
  function SplitFirst(s: string, c: char): (r: string)
    ensures c !in r && r <= s
    ensures c in s ==> |r| < |s| && s[|r|] == c
  {
    match IndexOf(s, c)
    case None => s
    case Some(k) => s[..k]
  }

  /** Python's `s.count(c)` for one character. */
  function CountChar(s: string, c: char): (n: nat)
    ensures n <= |s|
    ensures n == multiset(s)[c]
  {
    if s == [] then 0
    else
      assert s == [s[0]] + s[1..];
      (if s[0] == c then 1 else 0) + CountChar(s[1..], c)
  }

  function Pow10(n: nat): (p: nat)
    ensures p > 0
  {
    if n == 0 then 1 else 10 * Pow10(n - 1)
  }

  /** Python's `float(s)` for plain decimal notation: surrounding whitespace, an optional sign, and
      digits with an optional fractional part ("8", "8.5", ".5", "8."). Exponents, "inf" and "nan"
      are not modelled and read as ValueError (None). */
  function ParseDecimal(s: string): Option<real>
  {
    var t := Strip(s);
    var negative := |t| > 0 && t[0] == '-';
    var body := if |t| > 0 && (t[0] == '+' || t[0] == '-') then t[1..] else t;
    match UnsignedDecimal(body)
    case None => None
    case Some(v) => Some(if negative then -v else v)
  }

  /** The value of the digits after a decimal point: "25" is 0.25. */
  function FracValue(frac: string): (r: real)
    requires AllDigits(frac)
    ensures 0.0 <= r < 1.0
    decreases |frac|
  {
    if frac == [] then 0.0 else (DigitValue(frac[0]) as real + FracValue(frac[1..])) / 10.0
  }

  /** The magnitude of a decimal number without sign: digits with at most one point, and at least
      one digit. */
  function UnsignedDecimal(body: string): Option<real>
  {
    match IndexOf(body, '.')
    case None => if IsDigitString(body) then Some(DigitsValue(body) as real) else None
    case Some(k) =>
      var whole, frac := body[..k], body[k + 1..];
      if AllDigits(whole) && AllDigits(frac) && |whole| + |frac| > 0
      then Some(PointValue(whole, frac))
      else None
  }

  /** The number written `whole.frac`. */
  function PointValue(whole: string, frac: string): real
    requires AllDigits(whole) && AllDigits(frac)
  {
    DigitsValue(whole) as real + FracValue(frac)
  }

  lemma {:induction false} DigitsValueBound(s: string)
    requires AllDigits(s)
    ensures DigitsValue(s) < Pow10(|s|)
    decreases |s|
  {
    if s != [] {
      DigitsValueBound(s[..|s| - 1]);
    }
  }

  /** A text with no whitespace at either end is its own `strip()`. */
  lemma StripNoSpaceEnds(s: string)
    requires s != [] && !IsSpace(s[0]) && !IsSpace(s[|s| - 1])
    ensures Strip(s) == s
  {
  }

  /** `float` of a text that starts and ends with a digit is its unsigned value. */
  lemma ParseDecimalUnsigned(s: string)
    requires s != [] && IsDigit(s[0]) && IsDigit(s[|s| - 1])
    ensures ParseDecimal(s) == UnsignedDecimal(s)
  {
    StripNoSpaceEnds(s);
  }

  /** `float` of a plain digit string is its value. */
  lemma ParseDecimalDigits(d: string)
    requires IsDigitString(d)
    ensures ParseDecimal(d) == Some(DigitsValue(d) as real)
  {
    ParseDecimalUnsigned(d);
    assert '.' !in d by {
      forall q | 0 <= q < |d| ensures d[q] != '.' { assert IsDigit(d[q]); }
    }
  }

  /** `float` of digits, a point and digits (the text `s`). */
  lemma ParseDecimalPoint(whole: string, frac: string, s: string)
    requires IsDigitString(whole) && IsDigitString(frac) && s == whole + "." + frac
    ensures ParseDecimal(s) == Some(PointValue(whole, frac))
  {
    assert IsDigit(s[0]) && IsDigit(s[|s| - 1]);
    ParseDecimalUnsigned(s);
    UnsignedDecimalPoint(whole, frac);
  }

  lemma UnsignedDecimalPoint(whole: string, frac: string)
    requires AllDigits(whole) && AllDigits(frac)
    ensures UnsignedDecimal(whole + "." + frac) ==
      if |whole| + |frac| > 0 then Some(PointValue(whole, frac)) else None
  {
    var s := whole + "." + frac;
    assert IndexOf(s, '.') == Some(|whole|) by {
      assert s[..|whole|] == whole;
      forall q | 0 <= q < |whole| ensures whole[q] != '.' { assert IsDigit(whole[q]); }
      IndexOfFirst(s, '.', |whole|);
    }
    assert s[..|whole|] == whole && s[|whole| + 1..] == frac;
  }

  /** The first occurrence of `c` is where `IndexOf` finds it. */
  lemma IndexOfFirst(s: string, c: char, i: nat)
    requires i < |s| && s[i] == c && c !in s[..i]
    ensures IndexOf(s, c) == Some(i)
  {
    assert s[..IndexOf(s, c).value + 1][i] == c;
  }

  /** `float` of digits followed by ".5", which is `x`. */
  lemma ParseDecimalHalf(d: string, x: real)
    requires IsDigitString(d) && x == DigitsValue(d) as real + 0.5
    ensures ParseDecimal(d + ".5") == Some(x)
  {
    PointHalf(d);
    ParseDecimalPoint(d, "5", d + ".5");
  }

  lemma PointHalf(d: string)
    requires AllDigits(d)
    ensures PointValue(d, "5") == DigitsValue(d) as real + 0.5
  {
    assert FracValue("5") == 0.5 by {
      assert "5"[1..] == "";
    }
  }
}
