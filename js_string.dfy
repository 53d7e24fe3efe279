/** The few ECMAScript string built-ins the game logic relies on:
    String.prototype.trim, Number.prototype.toString on integers and
    String.prototype.padStart with a one-character pad. Strings are
    sequences of code points; every character the trim set names lies in
    the Basic Multilingual Plane, so UTF-16 code units and code points agree
    on it. */
module JsString {

  /** The WhiteSpace and LineTerminator code points of ECMAScript, the
      characters `trim` strips from both ends. */
  const WhitespaceChars: set<char> := {
    '\t', '\n', '\U{000B}', '\U{000C}', '\r', ' ', '\U{00A0}', '\U{1680}',
    '\U{2000}', '\U{2001}', '\U{2002}', '\U{2003}', '\U{2004}', '\U{2005}',
    '\U{2006}', '\U{2007}', '\U{2008}', '\U{2009}', '\U{200A}',
    '\U{2028}', '\U{2029}', '\U{202F}', '\U{205F}', '\U{3000}', '\U{FEFF}'
  }

  predicate IsWhitespace(c: char) {
    c in WhitespaceChars
  }

  predicate AllWhitespace(s: string) {
    forall k :: 0 <= k < |s| ==> IsWhitespace(s[k])
  }

  /** The index of the first non-whitespace character of `s` at or after
      `i` (or `|s|`), when everything before `i` is whitespace. */
  function LeadingBlanks(s: string, i: nat): (lo: nat)
    requires i <= |s|
    requires forall k :: 0 <= k < i ==> IsWhitespace(s[k])
    ensures i <= lo <= |s|
    ensures forall k :: 0 <= k < lo ==> IsWhitespace(s[k])
    ensures lo == |s| || !IsWhitespace(s[lo])
    decreases |s| - i
  {
    if i < |s| && IsWhitespace(s[i]) then LeadingBlanks(s, i + 1) else i
  }

  /** The end of `s[lo..hi]` once its trailing whitespace is dropped, when
      everything from `hi` on is whitespace. */
  function TrailingBlanks(s: string, lo: nat, hi: nat): (e: nat)
    requires lo <= hi <= |s|
    requires forall k :: hi <= k < |s| ==> IsWhitespace(s[k])
    ensures lo <= e <= hi
    ensures forall k :: e <= k < |s| ==> IsWhitespace(s[k])
    ensures e == lo || !IsWhitespace(s[e - 1])
    decreases hi - lo
  {
    if lo < hi && IsWhitespace(s[hi - 1]) then TrailingBlanks(s, lo, hi - 1) else hi
  }

  /** `r` is `s` with a whitespace-only prefix of length `lo` and a
      whitespace-only suffix cut off. */
  predicate Margins(s: string, r: string, lo: int) {
    0 <= lo <= |s| - |r| && r == s[lo..lo + |r|]
    && (forall k :: 0 <= k < lo ==> IsWhitespace(s[k]))
    && (forall k :: lo + |r| <= k < |s| ==> IsWhitespace(s[k]))
  }

  /** `s.trim()`: the middle of `s` between a whitespace-only prefix and a
      whitespace-only suffix, with no whitespace at either end; it is empty
      exactly when `s` is blank. */
  function Trim(s: string): (r: string)
    ensures exists lo :: Margins(s, r, lo)
    ensures r == [] || (!IsWhitespace(r[0]) && !IsWhitespace(r[|r| - 1]))
    ensures r == [] <==> AllWhitespace(s)
  {
    var lo := LeadingBlanks(s, 0);
    var hi := TrailingBlanks(s, lo, |s|);
    assert Margins(s, s[lo..hi], lo);
    s[lo..hi]
  }

  /** Trimming twice is trimming once. */
  lemma TrimIdempotent(s: string)
    ensures Trim(Trim(s)) == Trim(s)
  {
    var r := Trim(s);
    assert LeadingBlanks(r, 0) == 0;
    assert TrailingBlanks(r, 0, |r|) == |r|;
    assert r[0..|r|] == r;
  }

  function DigitChar(d: nat): (c: char)
    requires d < 10
    ensures '0' <= c <= '9'
  {
    "0123456789"[d]
  }

  function DigitValue(c: char): (d: nat)
    requires '0' <= c <= '9'
    ensures d < 10
  {
    (c as int - '0' as int) as nat
  }

  lemma DigitRoundTrip(d: nat)
    requires d < 10
    ensures DigitValue(DigitChar(d)) == d
  {
  }

  predicate AllDigits(s: string) {
    forall i :: 0 <= i < |s| ==> '0' <= s[i] <= '9'
  }

  /** `n.toString()` for a non-negative integer: decimal digits, most
      significant first, with no leading zero. */
  function NatToString(n: nat): (r: string)
    ensures |r| >= 1 && AllDigits(r)
    ensures |r| == 1 || r[0] != '0'
    ensures n < 10 <==> |r| == 1
  {
    if n < 10 then [DigitChar(n)] else NatToString(n / 10) + [DigitChar(n % 10)]
  }

  /** `i.toString()` for any integer: a minus sign before the digits of a
      negative value. */
  function IntToString(i: int): (r: string)
    ensures i >= 0 ==> r == NatToString(i)
    ensures i < 0 ==> r == "-" + NatToString(-i)
  {
    if i < 0 then "-" + NatToString(-i) else NatToString(i)
  }

  /** The value a string of decimal digits denotes (the reading side of
      NatToString, used to state round trips). */
  function DecimalValue(s: string): nat
    requires AllDigits(s)
  {
    if s == [] then 0 else DecimalValue(s[..|s| - 1]) * 10 + DigitValue(s[|s| - 1])
  }

  /** Reading back what NatToString wrote gives the number again. */
  lemma {:induction false} NatToStringRoundTrip(n: nat)
    ensures DecimalValue(NatToString(n)) == n
  {
    var r := NatToString(n);
    if n >= 10 {
      var front := NatToString(n / 10);
      assert r == front + [DigitChar(n % 10)];
      NatToStringRoundTrip(n / 10);
      assert r[..|r| - 1] == front;
      DigitRoundTrip(n % 10);
    } else {
      DigitRoundTrip(n);
    }
  }

  function Repeat(c: char, k: nat): (r: string)
    ensures |r| == k && forall i :: 0 <= i < k ==> r[i] == c
  {
    if k == 0 then [] else [c] + Repeat(c, k - 1)
  }

  /** `s.padStart(width, fill)` with a one-character `fill`: `s` itself when
      it is already `width` long or longer, otherwise `s` preceded by just
      enough copies of `fill` to reach `width`. */
  function PadStart(s: string, width: nat, fill: char): (r: string)
    ensures |r| == if |s| >= width then |s| else width
    ensures r[|r| - |s|..] == s
    ensures forall i :: 0 <= i < |r| - |s| ==> r[i] == fill
  {
    if |s| >= width then s else Repeat(fill, width - |s|) + s
  }

  /** Leading zeros do not change the value of a digit string. */
  lemma {:induction false} LeadingZeroValue(s: string)
    requires AllDigits(s)
    ensures AllDigits("0" + s) && DecimalValue("0" + s) == DecimalValue(s)
  {
    var z := "0" + s;
    if s != [] {
      assert z[..|z| - 1] == "0" + s[..|s| - 1];
      LeadingZeroValue(s[..|s| - 1]);
    }
  }

  /** Zero-padding a digit string keeps its value. */
  lemma {:induction false} ZeroPadValue(s: string, width: nat)
    requires AllDigits(s)
    ensures AllDigits(PadStart(s, width, '0'))
    ensures DecimalValue(PadStart(s, width, '0')) == DecimalValue(s)
    decreases width - |s|
  {
    if |s| < width {
      LeadingZeroValue(s);
      ZeroPadValue("0" + s, width);
      PadOneMore(s, width);
    }
  }

  /** Padding `s` is padding `s` with one fill character already in front. */
  lemma PadOneMore(s: string, width: nat)
    requires |s| < width
    ensures PadStart(s, width, '0') == PadStart("0" + s, width, '0')
  {
    var a, b := PadStart(s, width, '0'), PadStart("0" + s, width, '0');
    assert |a| == |b| == width;
    forall i | 0 <= i < width ensures a[i] == b[i] {
      if i < width - |s| {
        assert a[i] == '0';
        if i < width - |s| - 1 {
          assert b[i] == '0';
        } else {
          assert b[i] == b[width - |s| - 1..][0];
        }
      } else {
        assert a[i] == a[width - |s|..][i - (width - |s|)];
        assert b[i] == b[width - |s| - 1..][i - (width - |s| - 1)];
      }
    }
  }
}
