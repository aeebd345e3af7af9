/** Bit reversal by formatting, reversing and parsing (Python/reverse_bits.py). */
module ReverseBits {
  import opened Wrappers

  const WIDTH: nat := 32

  /** The binary digits of n without leading zeros; empty for 0 */
  function Digits(n: nat): string {
    if n == 0 then "" else Digits(n / 2) + (if n % 2 == 1 then "1" else "0")
  }

  function Zeros(k: nat): string { seq(k, _ => '0') }

  function PadTo(width: int, s: string): string { if |s| < width then Zeros(width - |s|) + s else s }

  /** '{0:032b}'.format(n): zero-padded to width 32, sign included, and never truncated */
  function Format(n: int): string {
    if n < 0 then "-" + PadTo(WIDTH - 1, Digits(-n)) else PadTo(WIDTH, Digits(n))
  }

  /** s[::-1] */
  function Reverse(s: string): (r: string)
    ensures |r| == |s| && forall i :: 0 <= i < |s| ==> r[i] == s[|s| - 1 - i]
  {
    seq(|s|, i requires 0 <= i < |s| => s[|s| - 1 - i])
  }

  predicate IsBinary(s: string) { forall i :: 0 <= i < |s| ==> s[i] == '0' || s[i] == '1' }

  function Value(s: string): nat {
    if s == "" then 0 else 2 * Value(s[..|s| - 1]) + if s[|s| - 1] == '1' then 1 else 0
  }

  /** int(s, 2) on strings of signs and binary digits; None is Python's ValueError */
  function Parse(s: string): Option<int> {
    if s != "" && IsBinary(s) then Some(Value(s))
    else if |s| > 1 && s[0] == '-' && IsBinary(s[1..]) then Some(0 - Value(s[1..]))
    else None
  }

  function ReverseBits(n: int): Option<int> {
    var a := Format(n);
    var reverse := Reverse(a);
    Parse(reverse)
  }

  // ----- strings and values -----

  function Pow2(k: nat): nat { if k == 0 then 1 else 2 * Pow2(k - 1) }

  lemma {:induction false} Pow2Monotone(j: nat, k: nat)
    requires j <= k
    ensures 1 <= Pow2(j) <= Pow2(k)
    decreases k
  {
    if j < k {
      Pow2Monotone(j, k - 1);
    } else if k > 0 {
      Pow2Monotone(j - 1, k - 1);
    }
  }

  lemma {:induction false} Pow2Add(j: nat, k: nat)
    ensures Pow2(j + k) == Pow2(j) * Pow2(k)
  {
    if j > 0 {
      Pow2Add(j - 1, k);
    }
  }

  lemma Pow2Of32()
    ensures Pow2(32) == 0x1_0000_0000
  {
    assert Pow2(4) == 16;
    Pow2Add(4, 4);
    Pow2Add(8, 8);
    Pow2Add(16, 16);
  }

  lemma {:induction false} ValueBound(s: string)
    ensures Value(s) < Pow2(|s|)
  {
    if s != "" {
      ValueBound(s[..|s| - 1]);
    }
  }

  /** A leading one makes the value large, a leading zero leaves it to the rest */
  lemma {:induction false} ValueHead(s: string)
    requires s != ""
    ensures Value(s) == (if s[0] == '1' then Pow2(|s| - 1) else 0) + Value(s[1..])
  {
    if |s| > 1 {
      var t := s[..|s| - 1];
      ValueHead(t);
      assert t[1..] == s[1..][..|s| - 2];
    }
  }

  lemma {:induction false} ValueZeros(k: nat, s: string)
    ensures Value(Zeros(k) + s) == Value(s)
  {
    if k == 0 {
      assert Zeros(0) + s == s;
    } else {
      ValueHead(Zeros(k) + s);
      assert (Zeros(k) + s)[1..] == Zeros(k - 1) + s;
      ValueZeros(k - 1, s);
    }
  }

  lemma {:induction false} DigitsValue(n: nat)
    ensures IsBinary(Digits(n)) && Value(Digits(n)) == n
    ensures n > 0 ==> Digits(n) != "" && Digits(n)[0] == '1'
  {
    if n > 0 {
      var t := Digits(n / 2);
      DigitsValue(n / 2);
      var s := t + (if n % 2 == 1 then "1" else "0");
      assert s[..|s| - 1] == t;
      assert Value(s) == 2 * (n / 2) + n % 2;
    }
  }

  /** Binary strings of one length are determined by their value */
  lemma {:induction false} ValueInjective(s: string, t: string)
    requires |s| == |t| && IsBinary(s) && IsBinary(t) && Value(s) == Value(t)
    ensures s == t
  {
    if s != "" {
      var n := |s| - 1;
      ValueInjective(s[..n], t[..n]);
      assert s == s[..n] + [s[n]] && t == t[..n] + [t[n]];
    }
  }

  lemma FormatValue(n: nat)
    ensures IsBinary(Format(n)) && Value(Format(n)) == n && |Format(n)| >= WIDTH
    ensures |Format(n)| > WIDTH ==> Format(n)[0] == '1'
  {
    DigitsValue(n);
    if |Digits(n)| < WIDTH {
      ValueZeros(WIDTH - |Digits(n)|, Digits(n));
    }
  }

  lemma FormatNotLonger(s: string)
    requires IsBinary(s) && |s| >= WIDTH
    ensures |Format(Value(s))| <= |s|
  {
    var f := Format(Value(s));
    FormatValue(Value(s));
    ValueBound(s);
    if |f| > |s| {
      ValueHead(f);
      Pow2Monotone(|s|, |f| - 1);
    }
  }

  lemma FormatNotShorter(s: string)
    requires IsBinary(s) && |s| >= WIDTH && s[0] == '1'
    ensures |Format(Value(s))| >= |s|
  {
    var f := Format(Value(s));
    FormatValue(Value(s));
    ValueBound(f);
    if |f| < |s| {
      ValueHead(s);
      Pow2Monotone(|f|, |s| - 1);
    }
  }

  /** A binary string of at least 32 digits is the format of its value if and only if it has
      no digit too many. */
  lemma FormatOf(s: string)
    requires IsBinary(s) && |s| >= WIDTH
    ensures Format(Value(s)) == s <==> |s| == WIDTH || s[0] == '1'
    ensures |s| > WIDTH && s[0] != '1' ==> |Format(Value(s))| < |s|
  {
    FormatNotLonger(s);
    FormatValue(Value(s));
    if s[0] == '1' {
      FormatNotShorter(s);
    }
    if |Format(Value(s))| == |s| {
      ValueInjective(Format(Value(s)), s);
    }
  }

  lemma ReverseTwice(s: string)
    ensures Reverse(Reverse(s)) == s
  {
  }

  // ----- the results -----

  /** Every non-negative number is accepted; a negative one ends in its sign and is not. */
  lemma AcceptsExactly(n: int)
    ensures ReverseBits(n).Some? <==> n >= 0
    ensures n >= 0 ==> ReverseBits(n) == Some(Value(Reverse(Format(n))))
  {
    if n >= 0 {
      FormatValue(n);
    } else {
      var r := Reverse(Format(n));
      DigitsValue(-n);
      assert r[|r| - 1] == '-' && |r| > 1;
      assert r[1..][|r| - 2] == '-';
    }
  }

  /** 32 digits below 2^32, and no leading zero beyond */
  lemma WidthExactly(n: nat)
    ensures |Format(n)| == 32 <==> n < 0x1_0000_0000
    ensures n >= 0x1_0000_0000 ==> |Format(n)| > 32 && Pow2(|Format(n)| - 1) <= n < Pow2(|Format(n)|)
  {
    FormatValue(n);
    Pow2Of32();
    ValueBound(Format(n));
    if |Format(n)| > WIDTH {
      ValueHead(Format(n));
      Pow2Monotone(WIDTH, |Format(n)| - 1);
    }
  }

  lemma LastDigit(s: string)
    requires s != ""
    ensures s[|s| - 1] == '1' <==> Value(s) % 2 == 1
  {
    HalfOfDouble(Value(s[..|s| - 1]), if s[|s| - 1] == '1' then 1 else 0);
  }

  /** Reversing twice gives back exactly the numbers below 2^32 and the odd ones. */
  lemma RoundTripExactly(n: nat)
    ensures var once := ReverseBits(n);
            once.Some? && (ReverseBits(once.value) == Some(n) <==> n < 0x1_0000_0000 || n % 2 == 1)
  {
    var f := Format(n);
    var r := Reverse(f);
    AcceptsExactly(n);
    FormatValue(n);
    WidthExactly(n);
    AcceptsExactly(Value(r));
    FormatOf(r);
    LastDigit(f);
    assert r[0] == f[|f| - 1];
    if n < 0x1_0000_0000 || n % 2 == 1 {
      ReverseTwice(f);
    } else {
      ShrinksBelow(n, Format(Value(r)));
    }
  }

  /** A number with more than 32 digits is larger than any value of fewer digits */
  lemma ShrinksBelow(n: nat, g: string)
    requires |Format(n)| > WIDTH && |g| < |Format(n)|
    ensures Value(Reverse(g)) < n
  {
    FormatValue(n);
    ValueHead(Format(n));
    ValueBound(Reverse(g));
    Pow2Monotone(|g|, |Format(n)| - 1);
  }

  /** Bit i of n, counted from the lowest */
  function Bit(n: nat, i: nat): nat { if i == 0 then n % 2 else Bit(n / 2, i - 1) }

  lemma HalfOfDouble(v: nat, b: nat)
    requires b < 2
    ensures (2 * v + b) / 2 == v && (2 * v + b) % 2 == b
  {
  }

  lemma {:induction false} BitOfValue(s: string, i: nat)
    requires IsBinary(s)
    ensures Bit(Value(s), i) == if i < |s| && s[|s| - 1 - i] == '1' then 1 else 0
    decreases i
  {
    if s == "" {
      BitOfZero(i);
    } else {
      var t, b := s[..|s| - 1], if s[|s| - 1] == '1' then 1 else 0;
      assert Value(s) == 2 * Value(t) + b;
      HalfOfDouble(Value(t), b);
      if i > 0 {
        BitOfValue(t, i - 1);
      }
    }
  }

  lemma {:induction false} BitOfZero(i: nat)
    ensures Bit(0, i) == 0
  {
    if i > 0 {
      BitOfZero(i - 1);
    }
  }

  /** Below 2^32, bit i of the result is bit 31 - i of n, and no higher bit is set. For larger
      n the mirror is as wide as n's own digits. */
  lemma BitsMirrored(n: nat, i: nat)
    ensures ReverseBits(n).Some?
    ensures var w := |Format(n)|;
            Bit(ReverseBits(n).value, i) == if i < w then Bit(n, w - 1 - i) else 0
    ensures n < 0x1_0000_0000 ==>
            Bit(ReverseBits(n).value, i) == if i < 32 then Bit(n, 31 - i) else 0
  {
    AcceptsExactly(n);
    FormatValue(n);
    WidthExactly(n);
    var f := Format(n);
    BitOfValue(Reverse(f), i);
    if i < |f| {
      BitOfValue(f, |f| - 1 - i);
    }
  }
}
