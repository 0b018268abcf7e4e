/** JavaScript string operations the core uses. A string is a sequence of Unicode scalar
    values here, where JavaScript counts UTF-16 code units; the two agree on text within
    the Basic Multilingual Plane. */
module Text {

  // ---------------------------------------------------------------- decimal numbers

  predicate IsDigit(c: char) { '0' <= c <= '9' }

  function DigitChar(d: nat): (c: char)
    requires d < 10
    ensures IsDigit(c) && DigitValue(c) == d
  {
    ['0', '1', '2', '3', '4', '5', '6', '7', '8', '9'][d]
  }

  function DigitValue(c: char): (d: nat)
    requires IsDigit(c)
    ensures d < 10
  {
    (c as int) - ('0' as int)
  }

  predicate AllDigits(s: string) { forall i :: 0 <= i < |s| ==> IsDigit(s[i]) }

  /** `String(n)` for a non-negative integer: its decimal digits, with no leading zero. */
  function NatToString(n: nat): (s: string)
    ensures |s| > 0 && AllDigits(s)
    ensures s[0] == '0' ==> n == 0
  {
    if n < 10 then [DigitChar(n)] else NatToString(n / 10) + [DigitChar(n % 10)]
  }

  /** `String(n)` (or a template literal `${n}`) for any integer. */
  function IntToString(n: int): (s: string)
    ensures |s| > 0
    ensures n < 0 <==> s[0] == '-'
  {
    if n < 0 then "-" + NatToString(-n) else NatToString(n)
  }

  /** The value of a string of decimal digits, read most significant digit first. */
  function DigitsValue(s: string): (n: nat)
    requires AllDigits(s)
  {
    if s == [] then 0 else DigitsValue(s[..|s| - 1]) * 10 + DigitValue(s[|s| - 1])
  }

  lemma {:induction false} DigitsValueOfNatToString(n: nat)
    ensures DigitsValue(NatToString(n)) == n
  {
    if n >= 10 {
      var s := NatToString(n);
      assert s[..|s| - 1] == NatToString(n / 10);
      DigitsValueOfNatToString(n / 10);
    }
  }

  /** NatToString uses exactly k digits for a number with k digits. */
  lemma {:induction false} NatToStringLength(n: nat, k: nat, low: nat)
    requires low == Pow10(k)
    requires k > 0 && low <= n < low * 10
    ensures |NatToString(n)| == k + 1
  {
    if k > 1 {
      NatToStringLength(n / 10, k - 1, Pow10(k - 1));
    } else {
      assert 10 <= n < 100;
    }
  }

  function Pow10(k: nat): (p: nat)
    ensures p >= 1
  {
    if k == 0 then 1 else 10 * Pow10(k - 1)
  }

  lemma NatToStringFourDigits(n: nat)
    requires 1000 <= n <= 9999
    ensures |NatToString(n)| == 4
  {
    NatToStringLength(n, 3, 1000);
  }

  // ---------------------------------------------------------------- padStart

  function Repeat(c: char, k: nat): (s: string)
    ensures |s| == k && forall i :: 0 <= i < k ==> s[i] == c
  {
    if k == 0 then [] else [c] + Repeat(c, k - 1)
  }

  /** `s.padStart(width, c)` with a one-character pad string. */
  function PadStart(s: string, width: nat, c: char): (r: string)
    ensures |s| >= width ==> r == s
    ensures |s| < width ==> |r| == width
    ensures exists k: nat {:trigger Repeat(c, k)} :: r == Repeat(c, k) + s
  {
    if |s| >= width then (assert s == Repeat(c, 0) + s; s) else Repeat(c, width - |s|) + s
  }

  /** `String(n).padStart(2, '0')` for the numbers of a month or a day. */
  function Pad2(n: nat): (s: string)
    requires n < 100
    ensures |s| == 2 && AllDigits(s) && DigitsValue(s) == n
  {
    if n < 10 then
      assert DigitsValue("0") == 0;
      "0" + [DigitChar(n)]
    else
      DigitsValueOfNatToString(n);
      NatToStringLength(n, 1, 10);
      NatToString(n)
  }

  // ---------------------------------------------------------------- parseInt

  /** The result of JavaScript's `parseInt`: an integer or NaN. */
  datatype ParsedInt = NaN | Int(value: int)

  /** The characters JavaScript's `trim` and `parseInt` skip: the WhiteSpace and
      LineTerminator code points of ECMAScript. */
  predicate IsSpace(c: char) {
    c == '\t' || c == '\n' || c == '\U{000B}' || c == '\U{000C}' || c == '\r' || c == ' ' ||
    c == '\U{00A0}' || c == '\U{1680}' || ('\U{2000}' <= c <= '\U{200A}') ||
    c == '\U{2028}' || c == '\U{2029}' || c == '\U{202F}' || c == '\U{205F}' ||
    c == '\U{3000}' || c == '\U{FEFF}'
  }

  function TrimStart(s: string): (r: string)
    ensures r == [] || !IsSpace(r[0])
    ensures exists k :: 0 <= k <= |s| && r == s[k..] && forall i :: 0 <= i < k ==> IsSpace(s[i])
  {
    if s != [] && IsSpace(s[0]) then
      var r := TrimStart(s[1..]);
      var k :| 0 <= k <= |s[1..]| && r == s[1..][k..] && forall i :: 0 <= i < k ==> IsSpace(s[1..][i]);
      assert r == s[k + 1..];
      r
    else
      assert s == s[0..];
      s
  }

  /** The longest prefix of `s` whose characters satisfy `isDigit`. */
  function DigitPrefix(s: string, isDigit: char -> bool): (r: string)
    ensures r <= s
    ensures forall i :: 0 <= i < |r| ==> isDigit(r[i])
    ensures |r| < |s| ==> !isDigit(s[|r|])
  {
    if s != [] && isDigit(s[0]) then [s[0]] + DigitPrefix(s[1..], isDigit) else []
  }

  predicate IsHexDigit(c: char) { IsDigit(c) || 'a' <= c <= 'f' || 'A' <= c <= 'F' }

  function HexValue(s: string): nat
    requires forall i :: 0 <= i < |s| ==> IsHexDigit(s[i])
  {
    if s == [] then 0
    else
      var c := s[|s| - 1];
      assert IsHexDigit(c);
      var d: nat := if IsDigit(c) then DigitValue(c)
               else if 'a' <= c <= 'f' then (c as int) - ('a' as int) + 10
               else (c as int) - ('A' as int) + 10;
      HexValue(s[..|s| - 1]) * 16 + d
  }

  /** JavaScript's `parseInt(s)` with no radix: leading white space is skipped, one
      optional sign is read, a `0x`/`0X` prefix selects base 16, and the longest run of
      digits that follows is the value; no digit at all gives NaN. */
  function ParseInt(s: string): ParsedInt {
    var t := TrimStart(s);
    var sign: int := if t != [] && t[0] == '-' then -1 else 1;
    var u := if t != [] && (t[0] == '-' || t[0] == '+') then t[1..] else t;
    if |u| >= 2 && u[0] == '0' && (u[1] == 'x' || u[1] == 'X') then
      var h := DigitPrefix(u[2..], IsHexDigit);
      if h == [] then NaN else Int(sign * HexValue(h))
    else
      var d := DigitPrefix(u, IsDigit);
      if d == [] then NaN else Int(sign * DigitsValue(d))
  }

  lemma DigitPrefixOfDigits(s: string)
    requires AllDigits(s)
    ensures DigitPrefix(s, IsDigit) == s
  {
  }

  /** The decimal text of an integer reads back, through `parseInt`, as that integer. */
  lemma ParseIntOfIntToString(n: int)
    ensures ParseInt(IntToString(n)) == Int(n)
  {
    var s := IntToString(n);
    var m: nat := if n < 0 then -n else n;
    var digits := NatToString(m);
    assert TrimStart(s) == s by {
      assert !IsSpace(s[0]);
    }
    var u := if n < 0 then s[1..] else s;
    assert u == digits;
    assert |u| >= 2 ==> u[0] != '0';
    DigitPrefixOfDigits(digits);
    DigitsValueOfNatToString(m);
  }

  // ---------------------------------------------------------------- slice

  /** The index a `slice` argument denotes: negative values count from the end,
      and the result is clamped to `0..len`. */
  function SliceIndex(k: int, len: nat): (i: nat)
    ensures i <= len
  {
    if k < 0 then (if len + k < 0 then 0 else len + k) else (if k > len then len else k)
  }

  /** `s.slice(a, b)` on a string or an array. */
  function Slice<T>(s: seq<T>, a: int, b: int): (r: seq<T>)
    ensures |r| <= |s|
    ensures SliceIndex(a, |s|) < SliceIndex(b, |s|) ==> r == s[SliceIndex(a, |s|)..SliceIndex(b, |s|)]
    ensures SliceIndex(a, |s|) >= SliceIndex(b, |s|) ==> r == []
  {
    var i, j := SliceIndex(a, |s|), SliceIndex(b, |s|);
    if i < j then s[i..j] else []
  }

  /** `s.slice(a)`: from `a` to the end. */
  function SliceFrom<T>(s: seq<T>, a: int): (r: seq<T>)
    ensures r == s[SliceIndex(a, |s|)..]
  {
    Slice(s, a, |s|)
  }

  // ---------------------------------------------------------------- case and search

  /** `toLowerCase` on the ASCII letters. */
  function LowerChar(c: char): (r: char)
    ensures 'A' <= c <= 'Z' ==> 'a' <= r <= 'z'
    ensures !('A' <= c <= 'Z') ==> r == c
  {
    if 'A' <= c <= 'Z' then ((c as int) + 32) as char else c
  }

  function Lower(s: string): (r: string)
    ensures |r| == |s|
    ensures forall i :: 0 <= i < |s| ==> r[i] == LowerChar(s[i])
  {
    if s == [] then [] else [LowerChar(s[0])] + Lower(s[1..])
  }

  /** Lowercasing twice is lowercasing once. */
  lemma LowerIdempotent(s: string)
    ensures Lower(Lower(s)) == Lower(s)
  {
    assert forall i :: 0 <= i < |s| ==> LowerChar(LowerChar(s[i])) == LowerChar(s[i]);
  }

  predicate OccursAt(haystack: string, needle: string, i: int)
  {
    0 <= i && i + |needle| <= |haystack| && haystack[i..i + |needle|] == needle
  }

  /** `haystack.includes(needle)`. */
  predicate Contains(haystack: string, needle: string)
  {
    needle <= haystack || (haystack != [] && Contains(haystack[1..], needle))
  }

  /** `includes` holds exactly when the needle occurs at some position. */
  lemma {:induction false} ContainsAt(haystack: string, needle: string)
    ensures Contains(haystack, needle) <==>
            exists i :: OccursAt(haystack, needle, i)
  {
    if needle <= haystack {
      assert OccursAt(haystack, needle, 0);
    } else if haystack != [] {
      ContainsAt(haystack[1..], needle);
      if exists i :: OccursAt(haystack, needle, i) {
        var i :| OccursAt(haystack, needle, i);
        assert i != 0;
        assert OccursAt(haystack[1..], needle, i - 1) by {
          assert haystack[1..][i - 1..i - 1 + |needle|] == haystack[i..i + |needle|];
        }
      }
      if exists i :: OccursAt(haystack[1..], needle, i) {
        var i :| OccursAt(haystack[1..], needle, i);
        assert OccursAt(haystack, needle, i + 1) by {
          assert haystack[1..][i..i + |needle|] == haystack[i + 1..i + 1 + |needle|];
        }
      }
    } else {
      assert forall i :: !OccursAt(haystack, needle, i);
    }
  }

  lemma ContainsEmpty(haystack: string)
    ensures Contains(haystack, "")
  {
  }

  // ---------------------------------------------------------------- trim

  function TrimEnd(s: string): (r: string)
    ensures r == [] || !IsSpace(r[|r| - 1])
    ensures r <= s && forall i :: |r| <= i < |s| ==> IsSpace(s[i])
  {
    if s != [] && IsSpace(s[|s| - 1]) then TrimEnd(s[..|s| - 1]) else s
  }

  /** `s.trim()`. */
  function Trim(s: string): (r: string)
  {
    TrimEnd(TrimStart(s))
  }

  /** A trimmed string is empty exactly when every character is white space. */
  lemma TrimEmpty(s: string)
    ensures Trim(s) == "" <==> forall i :: 0 <= i < |s| ==> IsSpace(s[i])
  {
    var t := TrimStart(s);
    var k :| 0 <= k <= |s| && t == s[k..] && forall i :: 0 <= i < k ==> IsSpace(s[i]);
    if Trim(s) == "" {
      assert t == [];
      assert k == |s|;
    }
    if forall i :: 0 <= i < |s| ==> IsSpace(s[i]) {
      assert t == [];
    }
  }

  // ---------------------------------------------------------------- split

  /** `s.split(c)[0]`: the part before the first occurrence of `c`, or all of `s`. */
  function BeforeFirst(s: string, c: char): (r: string)
    ensures r <= s
    ensures c !in r
    ensures |r| < |s| ==> s[|r|] == c
  {
    if s == [] || s[0] == c then [] else [s[0]] + BeforeFirst(s[1..], c)
  }
}
