/**
 * Python's `str.zfill`, which pandas' `Series.str.zfill` applies to every
 * cell, and what it does to the numerals that county codes are written in.
 */
module Padding {
  import opened Values
  import opened Numerals

  function Max(a: nat, b: nat): nat {
    if a >= b then a else b
  }

  predicate AllZeros(z: string) {
    forall i :: 0 <= i < |z| ==> z[i] == '0'
  }

  function Zeros(n: nat): (z: string)
    ensures |z| == n && AllZeros(z)
  {
    seq(n, _ => '0')
  }

  /**
   * `s.zfill(width)`: '0' characters are inserted on the left until the text
   * is `width` long, after the sign when the text starts with '+' or '-'.
   * Text that is already `width` long or longer comes back unchanged.
   */
  function ZFill(s: string, width: nat): (r: string)
    ensures |r| == Max(width, |s|)
    ensures !Signed(s) ==> r[|r| - |s|..] == s && AllZeros(r[..|r| - |s|])
    ensures Signed(s) ==> r[0] == s[0] && r[|r| - |s| + 1..] == s[1..] && AllZeros(r[1..|r| - |s| + 1])
  {
    if |s| >= width then s
    else if Signed(s) then [s[0]] + Zeros(width - |s|) + s[1..]
    else Zeros(width - |s|) + s
  }

  // ---------------------------------------------------------------------------
  // Lemmas

  /** Padding twice to the same width is padding once. */
  lemma ZFillIdempotent(s: string, width: nat)
    ensures ZFill(ZFill(s, width), width) == ZFill(s, width)
  {
  }

  lemma ZerosAppend(a: nat, b: nat)
    ensures Zeros(a) + Zeros(b) == Zeros(a + b)
  {
  }

  /** Unsigned text is padded by putting zeros in front of it and nothing else. */
  lemma ZFillUnsigned(s: string, width: nat)
    requires !Signed(s)
    ensures ZFill(s, width) == Zeros(Max(width, |s|) - |s|) + s
  {
    if |s| >= width {
      assert Zeros(0) + s == s;
    }
  }

  /** Zeros placed in front of an unsigned input make no difference within the width. */
  lemma ZFillIgnoresLeadingZeros(s: string, k: nat, width: nat)
    requires !Signed(s)
    requires k + |s| <= width
    ensures ZFill(Zeros(k) + s, width) == ZFill(s, width)
  {
    var t := Zeros(k) + s;
    ZerosUnsigned(k, s);
    ZFillUnsigned(t, width);
    ZFillUnsigned(s, width);
    ZerosShift(width - |t|, k, s);
  }

  lemma ZerosShift(m: nat, k: nat, s: string)
    ensures Zeros(m) + (Zeros(k) + s) == Zeros(m + k) + s
  {
    ZerosAppend(m, k);
    assert Zeros(m) + (Zeros(k) + s) == (Zeros(m) + Zeros(k)) + s;
  }

  /** Zeros in front of unsigned text leave it unsigned. */
  lemma ZerosUnsigned(k: nat, s: string)
    requires !Signed(s)
    ensures !Signed(Zeros(k) + s)
  {
    if k == 0 {
      assert Zeros(k) + s == s;
    } else {
      assert (Zeros(k) + s)[0] == '0';
    }
  }

  lemma {:induction false} ZerosValue(k: nat)
    ensures AllDigits(Zeros(k)) && ParseDigits(Zeros(k)) == 0
    decreases k
  {
    if k > 0 {
      assert Zeros(k)[..k - 1] == Zeros(k - 1);
      ZerosValue(k - 1);
    }
  }

  /** Padding a run of digits keeps it a run of digits of the same value. */
  lemma ZFillDigits(s: string, width: nat)
    requires AllDigits(s)
    ensures AllDigits(ZFill(s, width))
    ensures ParseDigits(ZFill(s, width)) == ParseDigits(s)
  {
    if |s| > 0 {
      DigitsUnsigned(s);
    }
    ZFillUnsigned(s, width);
    var z := Zeros(Max(width, |s|) - |s|);
    ZerosValue(|z|);
    ParseDigitsAppend(z, s);
    assert ParseDigits(z) * Pow10(|s|) == 0;
  }

  /**
   * `str(n).zfill(w)` for `0 <= n < 10^w` is a numeral of exactly `w` digits
   * whose value is `n`: `str(n)` at the end, '0' characters before it.
   */
  lemma ZFillNat(n: nat, width: nat)
    requires 1 <= width && n < Pow10(width)
    ensures |ZFill(NatToString(n), width)| == width
    ensures AllDigits(ZFill(NatToString(n), width))
    ensures ParseDigits(ZFill(NatToString(n), width)) == n
    ensures ZFill(NatToString(n), width) == Zeros(width - |NatToString(n)|) + NatToString(n)
  {
    var s := NatToString(n);
    NatToStringLength(n, width);
    assert Max(width, |s|) == width;
    DigitsUnsigned(s);
    ZFillUnsigned(s, width);
    NatToStringRoundTrip(n);
    ZFillDigits(s, width);
  }

  /** `int(str(n).zfill(w)) == n` for `0 <= n < 10^w`. */
  lemma ZFillNatParses(n: nat, width: nat)
    requires 1 <= width && n < Pow10(width)
    ensures ParseInt(ZFill(NatToString(n), width)) == Some(n)
  {
    ZFillNat(n, width);
    ParseIntOfDigits(ZFill(NatToString(n), width));
  }
}
