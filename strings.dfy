/** Text helpers shared by the Java and native parts: Java's String.trim,
    String.indexOf and Locale.ROOT lower-casing (ASCII part), and the decimal
    conversions behind printf's %d and %02d. */
module Strings {

  /** Java's String.trim() treats every char whose code is at most U+0020 as space. */
  predicate IsTrimmable(c: char) {
    c <= ' '
  }

  function TrimLeft(s: string): (r: string)
    ensures |r| <= |s|
  {
    if s != [] && IsTrimmable(s[0]) then TrimLeft(s[1..]) else s
  }

  function TrimRight(s: string): (r: string)
    ensures |r| <= |s|
  {
    if s != [] && IsTrimmable(s[|s| - 1]) then TrimRight(s[..|s| - 1]) else s
  }

  /** TrimLeft cuts a run of trimmable chars off the front and stops at the
      first char that is not. */
  lemma {:induction false} TrimLeftSpec(s: string)
    ensures TrimLeft(s) == s[|s| - |TrimLeft(s)|..]
    ensures TrimLeft(s) != [] ==> !IsTrimmable(TrimLeft(s)[0])
    ensures forall i :: 0 <= i < |s| - |TrimLeft(s)| ==> IsTrimmable(s[i])
    decreases |s|
  {
    if s != [] && IsTrimmable(s[0]) {
      var rest := s[1..];
      TrimLeftSpec(rest);
      assert rest[|rest| - |TrimLeft(rest)|..] == s[|s| - |TrimLeft(s)|..];
      forall i | 0 <= i < |s| - |TrimLeft(s)| ensures IsTrimmable(s[i]) {
        if i > 0 {
          assert s[i] == rest[i - 1];
        }
      }
    }
  }

  /** TrimRight cuts a run of trimmable chars off the end and stops at the
      last char that is not. */
  lemma {:induction false} TrimRightSpec(s: string)
    ensures TrimRight(s) == s[..|TrimRight(s)|]
    ensures TrimRight(s) != [] ==> !IsTrimmable(TrimRight(s)[|TrimRight(s)| - 1])
    ensures forall i :: |TrimRight(s)| <= i < |s| ==> IsTrimmable(s[i])
    decreases |s|
  {
    if s != [] && IsTrimmable(s[|s| - 1]) {
      var init := s[..|s| - 1];
      TrimRightSpec(init);
      assert init[..|TrimRight(init)|] == s[..|TrimRight(s)|];
      forall i | |TrimRight(s)| <= i < |s| ensures IsTrimmable(s[i]) {
        if i < |s| - 1 {
          assert s[i] == init[i];
        }
      }
    }
  }

  /** Number of trimmable chars Java's trim() cuts from the front of `s`. */
  function LeadingSpace(s: string): (n: nat)
    ensures n <= |s|
  {
    |s| - |TrimLeft(s)|
  }

  /** Java's String.trim(): the slice of `s` between the trimmable chars cut
      from either end. */
  function Trim(s: string): (r: string)
    ensures LeadingSpace(s) + |r| <= |s|
  {
    TrimRight(TrimLeft(s))
  }

  /** Java's String.trim() returns the slice of `s` that neither starts nor
      ends with a trimmable char; everything cut off on either side is
      trimmable, and the result is empty exactly for an all-space string. */
  lemma TrimSpec(s: string)
    ensures Trim(s) == s[LeadingSpace(s)..LeadingSpace(s) + |Trim(s)|]
    ensures forall i :: 0 <= i < LeadingSpace(s) ==> IsTrimmable(s[i])
    ensures forall i :: LeadingSpace(s) + |Trim(s)| <= i < |s| ==> IsTrimmable(s[i])
    ensures Trim(s) != [] ==> !IsTrimmable(Trim(s)[0]) && !IsTrimmable(Trim(s)[|Trim(s)| - 1])
    ensures Trim(s) == [] <==> forall i :: 0 <= i < |s| ==> IsTrimmable(s[i])
  {
    var left := TrimLeft(s);
    var r := Trim(s);
    var a := |s| - |left|;
    TrimLeftSpec(s);
    TrimRightSpec(left);
    assert left == s[a..] && r == left[..|r|];
    assert s[a..][..|r|] == s[a..a + |r|];
    forall i | a + |r| <= i < |s| ensures IsTrimmable(s[i]) {
      assert s[i] == left[i - a];
    }
    if r != [] {
      assert r[0] == s[a];
    }
  }

  /** A string that starts and ends with a non-space char and is followed by
      trailing space trims back to itself. */
  lemma TrimTrailingSpace(s: string, tail: string)
    requires s != [] && !IsTrimmable(s[0]) && !IsTrimmable(s[|s| - 1])
    requires forall i :: 0 <= i < |tail| ==> IsTrimmable(tail[i])
    ensures Trim(s + tail) == s
  {
    var t := s + tail;
    assert TrimLeft(t) == t;
    TrimRightTrailing(s, tail);
  }

  lemma {:induction false} TrimRightTrailing(s: string, tail: string)
    requires s != [] && !IsTrimmable(s[|s| - 1])
    requires forall i :: 0 <= i < |tail| ==> IsTrimmable(tail[i])
    ensures TrimRight(s + tail) == s
    decreases |tail|
  {
    if tail == [] {
      assert s + tail == s;
    } else {
      var t := s + tail;
      assert t[..|t| - 1] == s + tail[..|tail| - 1];
      TrimRightTrailing(s, tail[..|tail| - 1]);
    }
  }

  /** Locale.ROOT lower-casing, restricted to ASCII letters (length-preserving). */
  function LowerChar(c: char): char {
    if 'A' <= c <= 'Z' then (c as int + 32) as char else c
  }

  function Lower(s: string): (r: string)
    ensures |r| == |s| && forall i :: 0 <= i < |s| ==> r[i] == LowerChar(s[i])
  {
    seq(|s|, i requires 0 <= i < |s| => LowerChar(s[i]))
  }

  predicate OccursAt(text: string, pat: string, i: int) {
    0 <= i && i + |pat| <= |text| && text[i..i + |pat|] == pat
  }

  /** First index at or after `from` where `pat` occurs, or -1. */
  function IndexFrom(text: string, pat: string, from: nat): (r: int)
    requires from <= |text| + 1
    ensures r == -1 || (from <= r && OccursAt(text, pat, r))
    ensures r == -1 ==> forall j :: from <= j ==> !OccursAt(text, pat, j)
    ensures r != -1 ==> forall j :: from <= j < r ==> !OccursAt(text, pat, j)
    decreases |text| + 1 - from
  {
    if from + |pat| > |text| then -1
    else if text[from..from + |pat|] == pat then from
    else IndexFrom(text, pat, from + 1)
  }

  /** Java's String.indexOf(String): the first occurrence, or -1. */
  function IndexOf(text: string, pat: string): (r: int)
    ensures r == -1 || OccursAt(text, pat, r)
    ensures r == -1 <==> forall j :: !OccursAt(text, pat, j)
    ensures r != -1 ==> forall j :: 0 <= j < r ==> !OccursAt(text, pat, j)
  {
    IndexFrom(text, pat, 0)
  }

  predicate IsDigit(c: char) {
    '0' <= c <= '9'
  }

  function DigitChar(d: nat): (c: char)
    requires d < 10
    ensures IsDigit(c) && c as int - '0' as int == d
  {
    ('0' as int + d) as char
  }

  /** Decimal digits of `n`, without leading zeros ("0" for zero). */
  function NatToString(n: nat): (r: string)
    ensures 1 <= |r| && forall i :: 0 <= i < |r| ==> IsDigit(r[i])
    ensures |r| == 1 <==> n < 10
  {
    if n < 10 then [DigitChar(n)] else NatToString(n / 10) + [DigitChar(n % 10)]
  }

  function DigitValue(c: char): nat
    requires IsDigit(c)
  {
    c as int - '0' as int
  }

  function DigitsValue(s: string): nat
    requires forall i :: 0 <= i < |s| ==> IsDigit(s[i])
  {
    if s == [] then 0 else DigitsValue(s[..|s| - 1]) * 10 + DigitValue(s[|s| - 1])
  }

  lemma {:induction false} NatToStringValue(n: nat)
    ensures DigitsValue(NatToString(n)) == n
  {
    if n >= 10 {
      var r := NatToString(n);
      assert r[..|r| - 1] == NatToString(n / 10);
      NatToStringValue(n / 10);
    }
  }

  /** printf's %d: an optional minus sign and the digits of the magnitude. */
  function IntToString(i: int): (r: string)
    ensures r != [] && (r[0] == '-' <==> i < 0)
    ensures forall k :: (if i < 0 then 1 else 0) <= k < |r| ==> IsDigit(r[k])
  {
    if i < 0 then "-" + NatToString(-i) else NatToString(i)
  }

  /** Reads back what IntToString wrote. */
  function ParseInt(s: string): int
    requires s != [] && forall k :: (if s[0] == '-' then 1 else 0) <= k < |s| ==> IsDigit(s[k])
  {
    if s[0] == '-' then -(DigitsValue(s[1..]) as int) else DigitsValue(s)
  }

  lemma IntToStringRoundTrip(i: int)
    ensures ParseInt(IntToString(i)) == i
  {
    if i < 0 {
      assert IntToString(i)[1..] == NatToString(-i);
      NatToStringValue(-i);
    } else {
      NatToStringValue(i);
    }
  }

  /** Java's %02d: zero-padded to two chars; a negative value keeps its sign
      and needs no padding; wider values keep all their digits. */
  function Pad2(n: int): (r: string)
    ensures 2 <= |r|
  {
    if n < 0 then "-" + NatToString(-n)
    else if n < 10 then "0" + NatToString(n)
    else NatToString(n)
  }

  /** For 0..99, %02d writes exactly two digits that read back as the value. */
  lemma Pad2TwoDigits(n: int)
    requires 0 <= n < 100
    ensures |Pad2(n)| == 2 && IsDigit(Pad2(n)[0]) && IsDigit(Pad2(n)[1])
    ensures DigitValue(Pad2(n)[0]) * 10 + DigitValue(Pad2(n)[1]) == n
  {
    if n >= 10 {
      assert NatToString(n / 10) == [DigitChar(n / 10)];
    }
  }
}
