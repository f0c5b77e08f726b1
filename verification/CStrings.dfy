/** C strings and the decimal formats of printf, as far as the talker relies on them.

    A Dafny `string` stands for the bytes of a C string before its terminating NUL.
 */
module CStrings {

  /** The sign of `strcmp(s, t)` is negative. */
  predicate StrLt(s: string, t: string) {
    t != "" && (s == "" || s[0] < t[0] || (s[0] == t[0] && StrLt(s[1..], t[1..])))
  }

  /** `strcmp`: only the sign of the result is defined by C. */
  function StrCmp(s: string, t: string): (c: int)
    ensures c == 0 <==> s == t
    ensures c < 0 <==> StrLt(s, t)
    ensures c > 0 <==> StrLt(t, s)
  {
    if s == "" then (if t == "" then 0 else -1)
    else if t == "" then 1
    else if s[0] != t[0] then (if s[0] < t[0] then -1 else 1)
    else
      assert s == [s[0]] + s[1..] && t == [t[0]] + t[1..];
      StrCmp(s[1..], t[1..])
  }

  lemma {:induction false} StrLtTransitive(s: string, t: string, u: string)
    requires StrLt(s, t) && StrLt(t, u)
    ensures StrLt(s, u)
  {
    if s != "" && s[0] == t[0] && t[0] == u[0] {
      StrLtTransitive(s[1..], t[1..], u[1..]);
    }
  }

  lemma StrLtTrichotomy(s: string, t: string)
    ensures StrLt(s, t) || s == t || StrLt(t, s)
    ensures !(StrLt(s, t) && StrLt(t, s)) && !StrLt(s, s)
  {
    var c, d := StrCmp(s, t), StrCmp(s, s);
  }

  /** The first difference decides. */
  lemma {:induction false} StrLtAt(s: string, t: string, k: nat)
    requires k <= |s| && k < |t| && s[..k] == t[..k]
    requires k == |s| || s[k] < t[k]
    ensures StrLt(s, t)
  {
    if k > 0 {
      assert s[0] == s[..k][0] == t[..k][0] == t[0];
      assert s[1..][..k - 1] == s[..k][1..] == t[..k][1..] == t[1..][..k - 1];
      StrLtAt(s[1..], t[1..], k - 1);
    }
  }

  // ---------------------------------------------------------------- decimal numbers

  function Digit(d: nat): (c: char)
    requires d < 10
    ensures IsDigit(c) && DigitValue(c) == d
  {
    (48 + d) as char
  }

  predicate IsDigit(c: char) { '0' <= c <= '9' }

  /** TONUMB */
  function DigitValue(c: char): int { c as int - '0' as int }

  /** `%0<w>d` of a non-negative number; `%lu` when w is 0. */
  function Pad(n: nat, w: nat): (s: string)
    ensures |s| >= 1 && |s| >= w
    decreases n, w
  {
    if n < 10 && w <= 1 then [Digit(n)]
    else Pad(n / 10, if w == 0 then 0 else w - 1) + [Digit(n % 10)]
  }

  function Dec(n: nat): string { Pad(n, 0) }

  /** `%d` */
  function Signed(n: int): string {
    if n < 0 then "-" + Dec(-n) else Dec(n)
  }

  /** The number a run of digits spells. */
  function Value(s: string): int {
    if s == "" then 0 else 10 * Value(s[..|s| - 1]) + DigitValue(s[|s| - 1])
  }

  lemma ValueStep(s: string, i: nat)
    requires i < |s|
    ensures Value(s[..i + 1]) == 10 * Value(s[..i]) + DigitValue(s[i])
  {
    assert s[..i + 1][..i] == s[..i];
  }

  lemma {:induction false} ValueOfPad(n: nat, w: nat)
    ensures Value(Pad(n, w)) == n
    decreases n, w
  {
    if n < 10 && w <= 1 {
      assert Pad(n, w)[..0] == "";
    } else {
      var v := if w == 0 then 0 else w - 1;
      ValueOfPad(n / 10, v);
      assert Pad(n, w)[..|Pad(n, w)| - 1] == Pad(n / 10, v);
    }
  }

  lemma {:induction false} PadDigits(n: nat, w: nat, i: nat)
    requires i < |Pad(n, w)|
    ensures IsDigit(Pad(n, w)[i])
    decreases n, w
  {
    if i < |Pad(n, w)| - 1 {
      PadDigits(n / 10, if w == 0 then 0 else w - 1, i);
    }
  }

  lemma PadInjective(m: nat, n: nat, w: nat)
    requires Pad(m, w) == Pad(n, w)
    ensures m == n
  {
    ValueOfPad(m, w);
    ValueOfPad(n, w);
  }

  function Pow10(w: nat): (p: nat)
    ensures p >= 1
  {
    if w == 0 then 1 else 10 * Pow10(w - 1)
  }

  lemma {:induction false} PadWidth(n: nat, w: nat)
    requires n < Pow10(w) && w >= 1
    ensures |Pad(n, w)| == w
  {
    if w > 1 {
      assert n / 10 < Pow10(w - 1);
      PadWidth(n / 10, w - 1);
    }
  }

  lemma {:induction false} StrLtSnoc(s: string, t: string, c: char, d: char)
    requires |s| == |t|
    ensures StrLt(s + [c], t + [d]) <==> StrLt(s, t) || (s == t && c < d)
  {
    if s == "" {
    } else {
      assert (s + [c])[1..] == s[1..] + [c] && (t + [d])[1..] == t[1..] + [d];
      assert s == [s[0]] + s[1..] && t == [t[0]] + t[1..];
      StrLtSnoc(s[1..], t[1..], c, d);
    }
  }

  /** Zero-padded numbers of the same width sort as numbers. */
  lemma {:induction false} PadIncreasing(m: nat, n: nat, w: nat)
    requires m < n < Pow10(w)
    ensures StrLt(Pad(m, w), Pad(n, w))
  {
    if w > 1 {
      PadWidth(m / 10, w - 1);
      PadWidth(n / 10, w - 1);
      StrLtSnoc(Pad(m / 10, w - 1), Pad(n / 10, w - 1), Digit(m % 10), Digit(n % 10));
      if m / 10 < n / 10 {
        PadIncreasing(m / 10, n / 10, w - 1);
      }
    }
  }

  lemma {:induction false} PadOfPower(w: nat)
    requires w >= 1
    ensures |Pad(Pow10(w), w)| == w + 1 && Pad(Pow10(w), w)[0] == '1'
    ensures Pad(Pow10(w) - 1, w)[0] == '9'
  {
    if w == 1 {
      assert Pad(10, 1) == Pad(1, 0) + [Digit(0)];
      assert Pad(1, 0) == "1";
    } else {
      PadOfPower(w - 1);
      assert Pow10(w) / 10 == Pow10(w - 1) && (Pow10(w) - 1) / 10 == Pow10(w - 1) - 1;
    }
  }

  /** "%0<w>d" names counted from 1 are strictly increasing exactly up to 10^w - 1. */
  lemma NamesIncreaseIff(count: nat, w: nat)
    requires w >= 1
    ensures (forall i, j :: 1 <= i < j <= count ==> StrLt(Pad(i, w), Pad(j, w))) <==> count < Pow10(w)
  {
    if count < Pow10(w) {
      forall i, j | 1 <= i < j <= count
        ensures StrLt(Pad(i, w), Pad(j, w))
      {
        PadIncreasing(i, j, w);
      }
    } else {
      PadOfPower(w);
      assert Pow10(w) >= 10;
      var i, j := Pow10(w) - 1, Pow10(w);
      assert 1 <= i < j <= count && !StrLt(Pad(i, w), Pad(j, w));
    }
  }
}
