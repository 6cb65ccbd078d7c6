/**
 * Decimal rendering of integers, as Python's f-string and strftime
 * directives produce it (`{n}`, `{n:03d}`, `%m`, ...), together with the
 * digit-string reading that shows the renderings are injective.
 */
module Text {

  predicate IsDigit(c: char) {
    '0' <= c <= '9'
  }

  predicate AllDigits(s: string) {
    forall i :: 0 <= i < |s| ==> IsDigit(s[i])
  }

  function DigitChar(d: nat): (c: char)
    requires d < 10
    ensures IsDigit(c) && (c as int) - ('0' as int) == d
  {
    ('0' as int + d) as char
  }

  /** Plain decimal rendering of a natural number, no leading zeros. */
  function Dec(n: nat): (s: string)
    ensures 1 <= |s| && AllDigits(s)
    ensures n < 10 <==> |s| == 1
    ensures n < 100 ==> |s| <= 2
    ensures n < 1000 ==> |s| <= 3
    ensures n < 10000 ==> |s| <= 4
    ensures s[0] == '0' <==> n == 0
  {
    if n < 10 then [DigitChar(n)]
    else
      var head := Dec(n / 10);
      assert (head + [DigitChar(n % 10)])[0] == head[0];
      head + [DigitChar(n % 10)]
  }

  /** Python's `str(i)` / `{i}` for an int: a minus sign, then the digits. */
  function IntStr(i: int): (s: string)
    ensures 1 <= |s|
    ensures forall k :: 0 <= k < |s| ==> IsDigit(s[k]) || s[k] == '-'
    ensures i < 0 ==> s[0] == '-'
    ensures i >= 0 ==> AllDigits(s) && Value(s) == i
    ensures i < 0 ==> |s| >= 2 && AllDigits(s[1..]) && Value(s[1..]) == -i
    ensures i >= 0 ==> s[0] != '0' || s == "0"
    ensures i < 0 ==> s[1] != '0'
  {
    if i < 0 then
      ValueOfDec(-i);
      assert ("-" + Dec(-i))[1..] == Dec(-i);
      "-" + Dec(-i)
    else
      ValueOfDec(i);
      Dec(i)
  }

  function Zeros(k: nat): (s: string)
    ensures |s| == k && AllDigits(s)
  {
    if k == 0 then [] else Zeros(k - 1) + ['0']
  }

  /** Python's `{n:0Wd}` for a natural number: zero-filled to at least `width` characters. */
  function ZeroPad(n: nat, width: nat): (s: string)
    ensures AllDigits(s)
    ensures |s| == if |Dec(n)| < width then width else |Dec(n)|
  {
    var d := Dec(n);
    (if |d| < width then Zeros(width - |d|) else []) + d
  }

  /** Equal concatenations of equally long pieces have equal pieces. */
  lemma SplitEqual(a1: string, a2: string, b1: string, b2: string)
    requires |a1| == |b1| && a1 + a2 == b1 + b2
    ensures a1 == b1 && a2 == b2
  {
    assert a1 == (a1 + a2)[..|a1|] && b1 == (b1 + b2)[..|b1|];
    assert a2 == (a1 + a2)[|a1|..] && b2 == (b1 + b2)[|b1|..];
  }

  lemma SplitEqual4(a1: string, a2: string, a3: string, a4: string, b1: string, b2: string, b3: string, b4: string)
    requires |a1| == |b1| && |a2| == |b2| && |a3| == |b3|
    requires a1 + (a2 + (a3 + a4)) == b1 + (b2 + (b3 + b4))
    ensures a1 == b1 && a2 == b2 && a3 == b3 && a4 == b4
  {
    SplitEqual(a1, a2 + (a3 + a4), b1, b2 + (b3 + b4));
    SplitEqual(a2, a3 + a4, b2, b3 + b4);
    SplitEqual(a3, a4, b3, b4);
  }

  /** The number a string of digits denotes (leading zeros allowed). */
  function Value(s: string): nat
    requires AllDigits(s)
  {
    if s == [] then 0 else Value(s[..|s| - 1]) * 10 + ((s[|s| - 1] as int) - ('0' as int))
  }

  lemma {:induction false} ValueOfDec(n: nat)
    ensures Value(Dec(n)) == n
  {
    var s := Dec(n);
    if n >= 10 {
      assert s[..|s| - 1] == Dec(n / 10);
      ValueOfDec(n / 10);
    }
  }

  lemma {:induction false} ValueIgnoresLeadingZeros(k: nat, s: string)
    requires AllDigits(s)
    ensures AllDigits(Zeros(k) + s) && Value(Zeros(k) + s) == Value(s)
  {
    if s == [] {
      assert Zeros(k) + s == Zeros(k);
      ZerosValue(k);
    } else {
      var t := Zeros(k) + s;
      assert t[..|t| - 1] == Zeros(k) + s[..|s| - 1];
      ValueIgnoresLeadingZeros(k, s[..|s| - 1]);
    }
  }

  lemma {:induction false} ZerosValue(k: nat)
    ensures Value(Zeros(k)) == 0
  {
    if k > 0 {
      assert Zeros(k)[..k - 1] == Zeros(k - 1);
      ZerosValue(k - 1);
    }
  }

  /** Zero-padding loses nothing: the padded digits still denote `n`. */
  lemma ValueOfZeroPad(n: nat, width: nat)
    ensures Value(ZeroPad(n, width)) == n
  {
    var d := Dec(n);
    ValueOfDec(n);
    if |d| < width {
      ValueIgnoresLeadingZeros(width - |d|, d);
    } else {
      assert ZeroPad(n, width) == d;
    }
  }

  lemma ZeroPadInjective(a: nat, b: nat, width: nat)
    requires ZeroPad(a, width) == ZeroPad(b, width)
    ensures a == b
  {
    ValueOfZeroPad(a, width);
    ValueOfZeroPad(b, width);
  }

  lemma DecInjective(a: nat, b: nat)
    requires Dec(a) == Dec(b)
    ensures a == b
  {
    ValueOfDec(a);
    ValueOfDec(b);
  }

  lemma IntStrInjective(a: int, b: int)
    requires IntStr(a) == IntStr(b)
    ensures a == b
  {
    if a < 0 && b < 0 {
      var s := IntStr(a);
      assert Dec(-a) == s[1..];
      assert Dec(-b) == s[1..];
      DecInjective(-a, -b);
    } else if a >= 0 && b >= 0 {
      DecInjective(a, b);
    }
  }
}
