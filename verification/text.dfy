/** The handful of Python string operations the core relies on, restricted to
    ASCII: `str.isspace` (also the `\s` class of `re`), the `\w` class,
    `str.lower`, `str.strip`, and `in` between two strings, which is
    substring containment.
 */
module Text {

  /** Python's `str.isspace` on ASCII: tab, newline, vertical tab, form feed,
      carriage return, the four separators 0x1C..0x1F, and the space. */
  predicate IsSpace(c: char) {
    c == ' ' || '\t' <= c <= '\r' || '\U{1C}' <= c <= '\U{1F}'
  }

  predicate IsUpper(c: char) {
    'A' <= c <= 'Z'
  }

  /** The ASCII part of the `\w` class of `re`: letters, digits, underscore. */
  predicate IsWordChar(c: char) {
    'a' <= c <= 'z' || IsUpper(c) || '0' <= c <= '9' || c == '_'
  }

  /** The inverse of `LowerChar` on letters: `str.upper` on ASCII. */
  function UpperChar(c: char): char {
    if 'a' <= c <= 'z' then (c as int - 32) as char else c
  }

  function LowerChar(c: char): (r: char)
    ensures !IsUpper(r)
    ensures !IsUpper(c) ==> r == c
    ensures IsUpper(c) ==> 'a' <= r <= 'z' && UpperChar(r) == c
  {
    if IsUpper(c) then (c as int + 32) as char else c
  }

  /** `s.lower()` */
  function Lower(s: string): (r: string)
    ensures |r| == |s|
  {
    seq(|s|, i requires 0 <= i < |s| => LowerChar(s[i]))
  }

  /** `lower()` replaces each capital by its own small letter and keeps
      every other character in place. */
  lemma LowerMeaning(s: string)
    ensures forall i :: 0 <= i < |s| ==> !IsUpper(Lower(s)[i])
    ensures forall i :: 0 <= i < |s| && !IsUpper(s[i]) ==> Lower(s)[i] == s[i]
    ensures forall i :: 0 <= i < |s| && IsUpper(s[i]) ==> UpperChar(Lower(s)[i]) == s[i]
  {
  }

  /** `s.lstrip()`: the leading whitespace is removed, and only that. */
  function StripStart(s: string): (r: string)
    ensures |r| <= |s| && r == s[|s| - |r|..]
    ensures forall i :: 0 <= i < |s| - |r| ==> IsSpace(s[i])
    ensures |r| > 0 ==> !IsSpace(r[0])
    ensures |s| > 0 && !IsSpace(s[0]) ==> r == s
  {
    if |s| > 0 && IsSpace(s[0]) then
      var r := StripStart(s[1..]);
      assert forall i :: 0 < i < |s| - |r| ==> s[i] == s[1..][i - 1];
      r
    else s
  }

  /** `s.rstrip()`: the trailing whitespace is removed, and only that. */
  function StripEnd(s: string): (r: string)
    ensures |r| <= |s| && r == s[..|r|]
    ensures forall i :: |r| <= i < |s| ==> IsSpace(s[i])
    ensures |r| > 0 ==> !IsSpace(r[|r| - 1])
    ensures |s| > 0 && !IsSpace(s[|s| - 1]) ==> r == s
  {
    if |s| > 0 && IsSpace(s[|s| - 1]) then
      var r := StripEnd(s[..|s| - 1]);
      assert forall i :: |r| <= i < |s| - 1 ==> s[i] == s[..|s| - 1][i];
      r
    else s
  }

  /** `r` is what is left of `s` once `p` leading and `|s| - p - |r|`
      trailing whitespace characters are cut off. */
  predicate TrimmedAt(s: string, r: string, p: int) {
    0 <= p && p + |r| <= |s| && r == s[p..p + |r|]
    && (forall i :: 0 <= i < p ==> IsSpace(s[i]))
    && (forall i :: p + |r| <= i < |s| ==> IsSpace(s[i]))
  }

  /** Cutting a whitespace prefix, then a whitespace suffix of what is left,
      trims the input at the prefix's length. */
  lemma TrimmedStartEnd(s: string, t: string, r: string)
    requires |t| <= |s| && t == s[|s| - |t|..]
    requires forall i :: 0 <= i < |s| - |t| ==> IsSpace(s[i])
    requires |r| <= |t| && r == t[..|r|]
    requires forall i :: |r| <= i < |t| ==> IsSpace(t[i])
    ensures TrimmedAt(s, r, |s| - |t|)
  {
    var p := |s| - |t|;
    assert r == s[p..p + |r|];
    forall i | p + |r| <= i < |s|
      ensures IsSpace(s[i])
    {
      assert s[i] == t[i - p];
    }
  }

  /** `s.strip()` */
  function Strip(s: string): (r: string)
    ensures |r| <= |s|
    ensures |r| > 0 ==> !IsSpace(r[0]) && !IsSpace(r[|r| - 1])
  {
    StripEnd(StripStart(s))
  }

  /** `strip()` cuts off the surrounding whitespace and nothing else: what
      is left is a slice of the input with only whitespace around it. */
  lemma StripTrims(s: string)
    ensures exists p :: TrimmedAt(s, Strip(s), p)
  {
    var t := StripStart(s);
    var r := StripEnd(t);
    TrimmedStartEnd(s, t, r);
    assert Strip(s) == r;
    assert TrimmedAt(s, Strip(s), |s| - |t|);
  }

  /** Trimming takes no capital into a string that had none. */
  lemma TrimmedKeepsCase(s: string, r: string)
    requires exists p :: TrimmedAt(s, r, p)
    requires forall i :: 0 <= i < |s| ==> !IsUpper(s[i])
    ensures forall i :: 0 <= i < |r| ==> !IsUpper(r[i])
  {
    var p :| TrimmedAt(s, r, p);
    forall i | 0 <= i < |r|
      ensures !IsUpper(r[i])
    {
      assert r[i] == s[p + i];
    }
  }

  /** `s.lower().strip()`, the normalisation every platform lookup and the
      title filter apply. */
  function Normalize(s: string): string {
    Strip(Lower(s))
  }

  lemma NormalizeEmpty()
    ensures Normalize("") == ""
  {
    assert Lower("") == "";
  }

  /** A normal form holds no capital and is not padded, so normalising it
      again changes nothing. */
  lemma NormalizeIsNormal(s: string)
    ensures forall i :: 0 <= i < |Normalize(s)| ==> !IsUpper(Normalize(s)[i])
    ensures |Normalize(s)| > 0 ==> !IsSpace(Normalize(s)[0]) && !IsSpace(Normalize(s)[|Normalize(s)| - 1])
    ensures Normalize(Normalize(s)) == Normalize(s)
  {
    var l := Lower(s);
    LowerMeaning(s);
    StripTrims(l);
    TrimmedKeepsCase(l, Normalize(s));
    var n := Normalize(s);
    NormalizeFixed(n);
  }

  /** `needle` occurs in `hay` starting at index `i`. */
  predicate OccursAt(hay: string, needle: string, i: int) {
    0 <= i && i + |needle| <= |hay| && hay[i..i + |needle|] == needle
  }

  /** Python's `needle in hay` for two strings. */
  predicate Contains(hay: string, needle: string)
    ensures Contains(hay, needle) ==> |needle| <= |hay|
    ensures |needle| == 0 ==> Contains(hay, needle)
  {
    assert |needle| == 0 ==> OccursAt(hay, needle, 0);
    exists i | 0 <= i <= |hay| - |needle| :: OccursAt(hay, needle, i)
  }

  /** `hay.find(needle)`: the first position where `needle` occurs, scanning
      from `from`, or -1. */
  function FindFrom(hay: string, needle: string, from: nat): (i: int)
    ensures i == -1 || from <= i <= |hay| - |needle|
    ensures i >= 0 ==> OccursAt(hay, needle, i)
    ensures forall j :: from <= j && (i < 0 || j < i) ==> !OccursAt(hay, needle, j)
    decreases |hay| - from
  {
    if from + |needle| > |hay| then -1
    else if hay[from..from + |needle|] == needle then from
    else FindFrom(hay, needle, from + 1)
  }

  /** Python's `in` agrees with `find`: the needle is contained exactly
      when the scan finds it, and then at its first occurrence. */
  lemma ContainsIffFind(hay: string, needle: string)
    ensures Contains(hay, needle) <==> FindFrom(hay, needle, 0) >= 0
    ensures Contains(hay, needle) ==> OccursAt(hay, needle, FindFrom(hay, needle, 0))
  {
    var i := FindFrom(hay, needle, 0);
    if i >= 0 {
      ContainsAt(hay, needle, i);
    }
  }

  lemma ContainsAt(hay: string, needle: string, i: int)
    requires OccursAt(hay, needle, i)
    ensures Contains(hay, needle)
  {
  }

  lemma ContainsEmpty(hay: string)
    ensures Contains(hay, "")
  {
    assert OccursAt(hay, "", 0);
  }

  lemma ContainsSelf(hay: string)
    ensures Contains(hay, hay)
  {
    assert OccursAt(hay, hay, 0);
  }

  /** A needle whose first character does not occur in the haystack is not
      contained in it. */
  lemma NotContainsWithoutHead(hay: string, needle: string)
    requires |needle| > 0 && needle[0] !in hay
    ensures !Contains(hay, needle)
  {
  }

  /** A string that has no upper-case letter and no leading or trailing
      whitespace is its own normal form. */
  lemma NormalizeFixed(s: string)
    requires forall c :: c in s ==> !IsUpper(c)
    requires |s| > 0 ==> !IsSpace(s[0]) && !IsSpace(s[|s| - 1])
    ensures Normalize(s) == s
  {
    assert forall i :: 0 <= i < |s| ==> !IsUpper(s[i]);
    assert Lower(s) == s;
  }

  lemma LowerAppend(a: string, b: string)
    ensures Lower(a + b) == Lower(a) + Lower(b)
  {
    assert forall i :: 0 <= i < |a + b| ==> Lower(a + b)[i] == (Lower(a) + Lower(b))[i];
  }

  /** Lower-casing twice is lower-casing once. */
  lemma NormalizeIgnoresCase(s: string)
    ensures Normalize(Lower(s)) == Normalize(s)
  {
    assert Lower(Lower(s)) == Lower(s);
  }

  lemma {:induction false} StripStartAppendSpace(x: string)
    ensures StripStart(x + " ") == (if StripStart(x) == "" then "" else StripStart(x) + " ")
    decreases |x|
  {
    if |x| > 0 && IsSpace(x[0]) {
      assert (x + " ")[1..] == x[1..] + " ";
      StripStartAppendSpace(x[1..]);
    } else if |x| == 0 {
      assert ("" + " ")[1..] == "";
    }
  }

  lemma StripStartPrependSpace(x: string)
    ensures StripStart(" " + x) == StripStart(x)
  {
    assert (" " + x)[1..] == x;
  }

  lemma StripEndAppendSpace(y: string)
    ensures StripEnd(y + " ") == StripEnd(y)
  {
    assert (y + " ")[..|y|] == y;
  }

  lemma LowerSpace()
    ensures Lower(" ") == " "
  {
    assert Lower(" ")[0] == LowerChar(' ') == ' ';
  }

  /** One more leading or trailing space does not change the normal form. */
  lemma NormalizeIgnoresPadding(s: string)
    ensures Normalize(" " + s) == Normalize(s)
    ensures Normalize(s + " ") == Normalize(s)
  {
    NormalizeIgnoresLeadingSpace(s);
    NormalizeIgnoresTrailingSpace(s);
  }

  lemma NormalizeIgnoresLeadingSpace(s: string)
    ensures Normalize(" " + s) == Normalize(s)
  {
    LowerSpace();
    LowerAppend(" ", s);
    StripStartPrependSpace(Lower(s));
    assert Lower(" " + s) == " " + Lower(s);
  }

  lemma NormalizeIgnoresTrailingSpace(s: string)
    ensures Normalize(s + " ") == Normalize(s)
  {
    var x := Lower(s);
    LowerSpace();
    LowerAppend(s, " ");
    assert Lower(s + " ") == x + " ";
    StripStartAppendSpace(x);
    var y := StripStart(x);
    if y != "" {
      StripEndAppendSpace(y);
      assert StripStart(x + " ") == y + " ";
    }
  }

  /** The number a string of decimal digits spells, most significant digit
      first. */
  function DigitsValue(d: string): int {
    if |d| == 0 then 0
    else 10 * DigitsValue(d[..|d| - 1]) + (d[|d| - 1] as int - '0' as int)
  }

  /** `str(n)` for a natural number: the decimal digits of `n`, without
      leading zeros. */
  function NatToString(n: nat): (r: string)
    ensures |r| > 0
    ensures forall i :: 0 <= i < |r| ==> '0' <= r[i] <= '9'
    ensures DigitsValue(r) == n
    ensures r[0] == '0' ==> r == "0"
  {
    var digit := ['0' + (n % 10) as char];
    if n < 10 then digit
    else
      var high := NatToString(n / 10);
      assert (high + digit)[..|high + digit| - 1] == high;
      high + digit
  }

  /** A decimal numeral as `str` writes one: digits only, at least one,
      and no leading zero. */
  predicate Decimal(d: string) {
    && |d| > 0
    && (forall i :: 0 <= i < |d| ==> '0' <= d[i] <= '9')
    && (d[0] == '0' ==> d == "0")
  }

  lemma {:induction false} DigitsValueNonNegative(d: string)
    requires forall i :: 0 <= i < |d| ==> '0' <= d[i] <= '9'
    ensures DigitsValue(d) >= 0
    decreases |d|
  {
    if |d| > 0 {
      DigitsValueNonNegative(d[..|d| - 1]);
    }
  }

  /** A numeral of two or more digits is worth at least ten. */
  lemma {:induction false} DigitsValueOfLong(d: string)
    requires Decimal(d) && |d| > 1
    ensures DigitsValue(d) >= 10
    decreases |d|
  {
    var high := d[..|d| - 1];
    if |high| > 1 {
      DigitsValueOfLong(high);
    }
    assert DigitsValue(high) >= 1 by {
      if |high| == 1 {
        assert high[0] == d[0] && d[0] != '0';
      }
    }
  }

  /** Two decimal numerals of the same value are the same string, so the
      contract of `NatToString` leaves it no choice. */
  lemma {:induction false} DecimalUnique(a: string, b: string)
    requires Decimal(a) && Decimal(b) && DigitsValue(a) == DigitsValue(b)
    ensures a == b
    decreases |a|
  {
    if |a| > 1 { DigitsValueOfLong(a); }
    if |b| > 1 { DigitsValueOfLong(b); }
    if |a| == 1 && |b| == 1 {
      assert DigitsValue(a[..0]) == 0 && DigitsValue(b[..0]) == 0;
    } else {
      var ha, hb := a[..|a| - 1], b[..|b| - 1];
      assert |a| > 1 && |b| > 1 by {
        DigitsValueNonNegative(a[..0]);
        DigitsValueNonNegative(b[..0]);
      }
      assert ha[0] == a[0] && hb[0] == b[0];
      DigitsValueNonNegative(ha);
      DigitsValueNonNegative(hb);
      assert DigitsValue(ha) == DigitsValue(hb);
      DecimalUnique(ha, hb);
      assert a == ha + [a[|a| - 1]] && b == hb + [b[|b| - 1]];
    }
  }

  /** The numeral `str` gives for `n` is the only one worth `n`. */
  lemma NatToStringUnique(n: nat, d: string)
    requires Decimal(d) && DigitsValue(d) == n
    ensures d == NatToString(n)
  {
    DecimalUnique(d, NatToString(n));
  }

  /** `str(i)` for an integer: a minus sign exactly for negative numbers,
      followed by the digits of the magnitude. */
  function IntToString(i: int): (r: string)
    ensures |r| > 0
    ensures r[0] == '-' <==> i < 0
    ensures i < 0 ==> Decimal(r[1..]) && DigitsValue(r[1..]) == -i
    ensures i >= 0 ==> Decimal(r) && DigitsValue(r) == i
  {
    if i < 0 then
      var d := NatToString(-i);
      assert ("-" + d)[1..] == d;
      "-" + d
    else NatToString(i)
  }
}
