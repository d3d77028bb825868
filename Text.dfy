/**
 * The string primitives the chat assistant relies on: ASCII lower-casing
 * (`str.lower()`), substring containment (Python's `needle in hay`), the
 * first run of decimal digits (`re.search(r'\d+', s)`), `int(...)` on a
 * digit string, `str(n)` for the numbers quoted in replies, and `', '.join`.
 */
module Text {
  import opened Wrappers

  predicate IsUpper(c: char) { 'A' <= c <= 'Z' }

  /** Lower-cases an ASCII capital; every other character is left alone. */
  function LowerChar(c: char): (d: char)
    ensures !IsUpper(d)
    ensures IsUpper(c) ==> d as int == c as int + 32
    ensures !IsUpper(c) ==> d == c
  {
    if IsUpper(c) then (c as int + 32) as char else c
  }

  /** `s.lower()`, restricted to ASCII letters. */
  function Lower(s: string): (r: string)
    ensures |r| == |s|
    ensures forall i :: 0 <= i < |s| ==> r[i] == LowerChar(s[i])
    ensures forall i :: 0 <= i < |r| ==> !IsUpper(r[i])
  {
    seq(|s|, i requires 0 <= i < |s| => LowerChar(s[i]))
  }

  predicate IsPrefix(p: string, s: string) {
    |p| <= |s| && s[..|p|] == p
  }

  /** Python's `needle in hay`: `needle` occurs as a contiguous block of `hay` (the empty string occurs everywhere). */
  function Contains(hay: string, needle: string): (b: bool)
    ensures b <==> exists i :: 0 <= i <= |hay| - |needle| && IsPrefix(needle, hay[i..])
    decreases |hay|
  {
    if IsPrefix(needle, hay) then
      assert hay[0..] == hay;
      true
    else if hay == [] then
      false
    else
      var b := Contains(hay[1..], needle);
      assert forall i :: 1 <= i <= |hay| ==> hay[1..][i - 1..] == hay[i..];
      b
  }

  /** A needle holding a character that the haystack lacks cannot occur in it. */
  lemma NotContainsWithoutChar(hay: string, needle: string, c: char)
    requires c in needle && c !in hay
    ensures !Contains(hay, needle)
  {
    var j :| 0 <= j < |needle| && needle[j] == c;
    forall i | 0 <= i <= |hay| - |needle| ensures !IsPrefix(needle, hay[i..]) {
      assert hay[i..][j] == hay[i + j];
    }
  }

  // ---------------------------------------------------------------------------
  // Decimal digits
  // ---------------------------------------------------------------------------

  predicate IsDigit(c: char) { '0' <= c <= '9' }

  predicate AllDigits(s: string) {
    forall i :: 0 <= i < |s| ==> IsDigit(s[i])
  }

  function DigitValue(c: char): nat
    requires IsDigit(c)
  {
    c as int - '0' as int
  }

  function DigitChar(d: nat): (c: char)
    requires d < 10
    ensures IsDigit(c) && DigitValue(c) == d
  {
    ('0' as int + d) as char
  }

  /** The position of the first decimal digit of `s`, if there is one. */
  function FirstDigitAt(s: string): (r: Option<nat>)
    ensures r.Some? ==> r.value < |s| && IsDigit(s[r.value])
    ensures r.Some? ==> forall k :: 0 <= k < r.value ==> !IsDigit(s[k])
    ensures r.None? <==> forall k :: 0 <= k < |s| ==> !IsDigit(s[k])
    decreases |s|
  {
    if s == [] then None
    else if IsDigit(s[0]) then Some(0)
    else
      match FirstDigitAt(s[1..])
      case None => None
      case Some(i) => Some(i + 1)
  }

  /** The longest block of digits at the front of `s`. */
  function LeadingDigits(s: string): (r: string)
    ensures IsPrefix(r, s) && AllDigits(r)
    ensures |r| < |s| ==> !IsDigit(s[|r|])
    decreases |s|
  {
    if s == [] || !IsDigit(s[0]) then []
    else [s[0]] + LeadingDigits(s[1..])
  }

  /**
   * `re.search(r'\d+', s).group()`: the leftmost non-empty run of digits,
   * extended as far as it goes; None when `s` holds no digit.
   */
  function FirstDigitRun(s: string): (r: Option<string>)
    ensures r.None? <==> forall k :: 0 <= k < |s| ==> !IsDigit(s[k])
    ensures r.Some? ==> r.value != [] && AllDigits(r.value)
    ensures r.Some? ==> exists i :: 0 <= i < |s| && (forall k :: 0 <= k < i ==> !IsDigit(s[k]))
                                    && IsPrefix(r.value, s[i..])
                                    && (i + |r.value| < |s| ==> !IsDigit(s[i..][|r.value|]))
  {
    match FirstDigitAt(s)
    case None => None
    case Some(i) =>
      var d := LeadingDigits(s[i..]);
      assert d[0] == s[i];
      Some(d)
  }

  /** `int(s)` for a string of ASCII digits (leading zeros allowed). */
  function DigitsValue(s: string): (v: nat)
    requires AllDigits(s)
    ensures v == 0 <==> forall i :: 0 <= i < |s| ==> s[i] == '0'
    decreases |s|
  {
    if s == [] then 0
    else
      var p := s[..|s| - 1];
      assert forall i :: 0 <= i < |p| ==> p[i] == s[i];
      DigitsValue(p) * 10 + DigitValue(s[|s| - 1])
  }

  /** `str(n)`: the canonical decimal spelling of `n`, which `int(...)` reads back as `n`. */
  function NatToString(n: nat): (s: string)
    ensures s != [] && AllDigits(s)
    ensures DigitsValue(s) == n
    ensures s[0] == '0' <==> n == 0
    ensures n == 0 ==> s == "0"
    decreases n
  {
    if n < 10 then [DigitChar(n)]
    else
      var p := NatToString(n / 10);
      var s := p + [DigitChar(n % 10)];
      assert s[..|s| - 1] == p;
      s
  }

  /** `sep.join(parts)`. */
  function Join(sep: string, parts: seq<string>): (r: string)
    ensures parts == [] ==> r == ""
    ensures |parts| == 1 ==> r == parts[0]
    ensures parts != [] ==> IsPrefix(parts[0], r)
    decreases |parts|
  {
    if parts == [] then ""
    else if |parts| == 1 then parts[0]
    else
      var r := parts[0] + sep + Join(sep, parts[1..]);
      assert r[..|parts[0]|] == parts[0];
      r
  }

  /** Every part occurs in the joined string. */
  lemma {:induction false} JoinContainsEveryPart(sep: string, parts: seq<string>, i: int)
    requires 0 <= i < |parts|
    ensures Contains(Join(sep, parts), parts[i])
    decreases |parts|
  {
    var r := Join(sep, parts);
    if i == 0 {
      assert IsPrefix(parts[0], r[0..]);
    } else {
      var head := parts[0] + sep;
      var rest := Join(sep, parts[1..]);
      assert r == head + rest;
      JoinContainsEveryPart(sep, parts[1..], i - 1);
      var p :| 0 <= p <= |rest| - |parts[i]| && IsPrefix(parts[i], rest[p..]);
      assert r[|head| + p..] == rest[p..];
    }
  }

  /** Joining one more part appends the separator and then that part: with the one-part case this fixes `Join`. */
  lemma {:induction false} JoinSnoc(sep: string, parts: seq<string>, p: string)
    requires parts != []
    ensures Join(sep, parts + [p]) == Join(sep, parts) + sep + p
    decreases |parts|
  {
    var ps := parts + [p];
    assert ps[0] == parts[0] && ps[1..] == parts[1..] + [p];
    assert Join(sep, ps) == parts[0] + sep + Join(sep, parts[1..] + [p]);
    if |parts| == 1 {
      assert parts[1..] + [p] == [p];
      assert Join(sep, parts) == parts[0];
    } else {
      JoinSnoc(sep, parts[1..], p);
      assert Join(sep, parts) == parts[0] + sep + Join(sep, parts[1..]);
    }
  }
}
