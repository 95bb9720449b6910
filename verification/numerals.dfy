/**
 * Decimal numerals as Python writes and reads them: `str(n)`, `int(s)`, the
 * number text `pd.to_numeric` accepts, the removal of thousands separators,
 * and the `astype(str)` conversion of a code column.
 */
module Numerals {
  import opened Values

  predicate IsDigit(c: char) {
    '0' <= c <= '9'
  }

  predicate AllDigits(s: string) {
    forall i :: 0 <= i < |s| ==> IsDigit(s[i])
  }

  /** A leading '+' or '-', which `int` accepts and `str.zfill` keeps in front. */
  predicate Signed(s: string) {
    |s| > 0 && (s[0] == '+' || s[0] == '-')
  }

  /** A run of digits carries no sign. */
  lemma DigitsUnsigned(s: string)
    requires AllDigits(s)
    ensures !Signed(s)
  {
    if |s| > 0 {
      assert IsDigit(s[0]);
    }
  }

  function DigitValue(c: char): (d: nat)
    requires IsDigit(c)
    ensures d < 10
  {
    c as int - '0' as int
  }

  function DigitChar(d: nat): (c: char)
    requires d < 10
    ensures IsDigit(c) && DigitValue(c) == d
  {
    ('0' as int + d) as char
  }

  function Pow10(k: nat): (p: nat)
    ensures p >= 1
  {
    if k == 0 then 1 else 10 * Pow10(k - 1)
  }

  /** Python's `str(n)` for a non-negative integer: the shortest decimal numeral. */
  function NatToString(n: nat): (s: string)
    ensures 1 <= |s| && AllDigits(s)
    ensures s[0] == '0' ==> n == 0 && |s| == 1
    decreases n
  {
    if n < 10 then [DigitChar(n)] else NatToString(n / 10) + [DigitChar(n % 10)]
  }

  /** Python's `str(i)`: a '-' in front of a negative number. */
  function IntToString(i: int): (s: string)
    ensures 1 <= |s|
    ensures Signed(s) <==> i < 0
  {
    if i < 0 then "-" + NatToString(-i) else NatToString(i)
  }

  /** The value of a run of digits, most significant first; 0 for the empty run. */
  function ParseDigits(s: string): (n: nat)
    requires AllDigits(s)
    ensures n < Pow10(|s|)
  {
    if |s| == 0 then 0 else 10 * ParseDigits(s[..|s| - 1]) + DigitValue(s[|s| - 1])
  }

  /** The text after an optional sign. */
  function Magnitude(s: string): string {
    if Signed(s) then s[1..] else s
  }

  /**
   * Python's `int(s)` on text (what `astype(int)` applies to a string cell),
   * for an optional sign followed by one or more digits. `None` is the
   * `ValueError` Python raises for anything else.
   */
  function ParseInt(s: string): (r: Option<int>)
    ensures r.Some? <==> && |s| > 0 && (IsDigit(s[0]) || Signed(s))
                         && (forall i :: 1 <= i < |s| ==> IsDigit(s[i]))
                         && exists i :: 0 <= i < |s| && IsDigit(s[i])
    ensures r.Some? && r.value < 0 ==> s[0] == '-'
  {
    var m := Magnitude(s);
    if |m| > 0 && AllDigits(m) then
      Some(if |s| > 0 && s[0] == '-' then -(ParseDigits(m) as int) else ParseDigits(m))
    else
      None
  }

  /** Position of the first '.', or `|s|` when there is none. */
  function DotIndex(s: string): (i: nat)
    ensures i <= |s|
    ensures forall j :: 0 <= j < i ==> s[j] != '.'
    ensures i < |s| ==> s[i] == '.'
  {
    if |s| == 0 || s[0] == '.' then 0 else 1 + DotIndex(s[1..])
  }

  /**
   * The value of a whole part and a fractional part of digits, `whole.frac`:
   * the whole part's integer plus a proper fraction (see `DecimalValueShift`
   * for its exact value).
   */
  function DecimalValue(whole: string, frac: string): (v: real)
    requires AllDigits(whole) && AllDigits(frac)
    ensures v >= 0.0
    ensures ParseDigits(whole) as real <= v < ParseDigits(whole) as real + 1.0
  {
    var w, f, p := ParseDigits(whole), ParseDigits(frac), Pow10(|frac|);
    ParseDigitsAppend(whole, frac);
    var v := w as real + f as real / p as real;
    ShiftFraction(w, f, |frac|, ParseDigits(whole + frac), v);
    v
  }

  /** `v` with its decimal point moved `k` places to the right. */
  function Shifted(v: real, k: nat): real
  {
    v * Pow10(k) as real
  }

  /**
   * `whole.frac` shifted left by the fraction's length is the integer the
   * digits of both parts write together: "12.05" times 100 is 1205.
   */
  lemma DecimalValueShift(whole: string, frac: string)
    requires AllDigits(whole) && AllDigits(frac)
    ensures AllDigits(whole + frac)
    ensures Shifted(DecimalValue(whole, frac), |frac|) == ParseDigits(whole + frac) as real
  {
    ParseDigitsAppend(whole, frac);
    ShiftFraction(ParseDigits(whole), ParseDigits(frac), |frac|, ParseDigits(whole + frac),
                  DecimalValue(whole, frac));
  }

  /** `v = w + f/10^k` for `f < 10^k` lies in `[w, w + 1)`, and shifted by `k` it is `w * 10^k + f`. */
  lemma ShiftFraction(w: nat, f: nat, k: nat, n: nat, v: real)
    requires f < Pow10(k) && n == w * Pow10(k) + f && v == w as real + f as real / Pow10(k) as real
    ensures w as real <= v < w as real + 1.0 && Shifted(v, k) == n as real
  {
    var p := Pow10(k);
    var wr, fr, pr := w as real, f as real, p as real;
    ProperFraction(fr, pr);
    assert (wr + fr / pr) * pr == wr * pr + fr / pr * pr;
    assert (w * p) as real == wr * pr;
  }

  lemma ProperFraction(f: real, p: real)
    requires 0.0 <= f < p
    ensures 0.0 <= f / p < 1.0
    ensures f / p * p == f
  {
    var q := f / p;
    assert q * p == f;
  }

  /**
   * The number that `pd.to_numeric` reads from text: an optional sign, digits,
   * and an optional '.' with more digits, with at least one digit in all
   * (so "5", "5.", ".5" and "-3.25" are numbers). `None` for other text.
   */
  function ParseDecimal(s: string): (r: Option<real>)
    ensures r.Some? ==> exists i :: 0 <= i < |s| && IsDigit(s[i])
    ensures (exists i :: 0 <= i < |s| && !IsDigit(s[i]) && s[i] != '.' && s[i] != '+' && s[i] != '-') ==> r.None?
    ensures r.Some? && r.value < 0.0 ==> s[0] == '-'
  {
    var m := Magnitude(s);
    var d := DotIndex(m);
    var whole := m[..d];
    var frac := if d < |m| then m[d + 1..] else "";
    if |whole| + |frac| > 0 && AllDigits(whole) && AllDigits(frac) then
      DecimalText(s);
      var v := DecimalValue(whole, frac);
      Some(if |s| > 0 && s[0] == '-' then -v else v)
    else
      None
  }

  /**
   * Text the decimal reader accepts holds a digit, and every other character
   * is a sign or the '.'.
   */
  lemma DecimalText(s: string)
    requires var m := Magnitude(s);
             var d := DotIndex(m);
             var frac := if d < |m| then m[d + 1..] else "";
             d + |frac| > 0 && AllDigits(m[..d]) && AllDigits(frac)
    ensures exists i :: 0 <= i < |s| && IsDigit(s[i])
    ensures forall i :: 0 <= i < |s| ==> IsDigit(s[i]) || s[i] == '.' || s[i] == '+' || s[i] == '-'
  {
    var k := if Signed(s) then 1 else 0;
    var m := Magnitude(s);
    assert m == s[k..];
    var d := DotIndex(m);
    var frac := if d < |m| then m[d + 1..] else "";
    forall j | 0 <= j < |m|
      ensures IsDigit(m[j]) || m[j] == '.'
    {
      if j < d {
        assert m[..d][j] == m[j];
      } else if d < j {
        assert frac[j - d - 1] == m[j];
      }
    }
    if d > 0 {
      assert m[..d][0] == m[0];
      assert s[k] == m[0];
    } else {
      assert frac[0] == m[d + 1];
      assert s[k + d + 1] == m[d + 1];
    }
    forall i | 0 <= i < |s|
      ensures IsDigit(s[i]) || s[i] == '.' || s[i] == '+' || s[i] == '-'
    {
      if i >= k {
        assert s[i] == m[i - k];
      }
    }
  }

  /** `str.replace(c, "")`: every occurrence of `c` removed, the rest kept in order. */
  function RemoveAll(s: string, c: char): (r: string)
    ensures forall i :: 0 <= i < |r| ==> r[i] != c
    ensures forall x :: x != c ==> multiset(r)[x] == multiset(s)[x]
    ensures |r| <= |s|
  {
    if |s| == 0 then ""
    else
      assert s == [s[0]] + s[1..];
      (if s[0] == c then "" else [s[0]]) + RemoveAll(s[1..], c)
  }

  /** A code column as pandas read it: integers, or text kept as written. */
  datatype Code = IntCode(n: int) | TextCode(s: string)

  /** `Series.astype(str)` on one cell of a code column. */
  function AsStr(c: Code): (s: string)
    ensures c.IntCode? ==> ParseInt(s) == Some(c.n)
    ensures c.IntCode? ==> (Signed(s) <==> c.n < 0)
    ensures c.TextCode? ==> s == c.s
  {
    match c
    case IntCode(n) => ParseIntRoundTrip(n); IntToString(n)
    case TextCode(s) => s
  }

  // ---------------------------------------------------------------------------
  // Lemmas

  /** Reading digits back gives the number `str` wrote. */
  lemma {:induction false} NatToStringRoundTrip(n: nat)
    ensures ParseDigits(NatToString(n)) == n
    decreases n
  {
    if n >= 10 {
      NatToStringRoundTrip(n / 10);
      var s := NatToString(n / 10);
      var t := s + [DigitChar(n % 10)];
      assert t[..|t| - 1] == s;
    }
  }

  /** `int(str(i)) == i`. */
  lemma ParseIntRoundTrip(i: int)
    ensures ParseInt(IntToString(i)) == Some(i)
  {
    if i < 0 {
      NegativeRoundTrip(-i);
    } else {
      NatRoundTrip(i);
    }
  }

  lemma NatRoundTrip(n: nat)
    ensures ParseInt(IntToString(n)) == Some(n)
  {
    var m := NatToString(n);
    assert IntToString(n) == m;
    NatToStringRoundTrip(n);
    ParseIntOfDigits(m);
  }

  lemma NegativeRoundTrip(n: nat)
    requires n > 0
    ensures ParseInt(IntToString(-(n as int))) == Some(-(n as int))
  {
    var m := NatToString(n);
    assert IntToString(-(n as int)) == "-" + m;
    NatToStringRoundTrip(n);
    ParseIntOfNegative(m);
  }

  /** An unsigned run of digits is read by `int()` as its value. */
  lemma ParseIntOfDigits(s: string)
    requires 0 < |s| && AllDigits(s)
    ensures ParseInt(s) == Some(ParseDigits(s))
  {
    DigitsUnsigned(s);
    assert Magnitude(s) == s;
  }

  /** A '-' before a run of digits is read by `int()` as the negated value. */
  lemma ParseIntOfNegative(m: string)
    requires 0 < |m| && AllDigits(m)
    ensures ParseInt("-" + m) == Some(-(ParseDigits(m) as int))
  {
    var s := "-" + m;
    assert s[0] == '-' && s[1..] == m;
  }

  /** A number below 10^k is written with at most k digits. */
  lemma {:induction false} NatToStringLength(n: nat, k: nat)
    requires 1 <= k && n < Pow10(k)
    ensures |NatToString(n)| <= k
    decreases n
  {
    if n >= 10 {
      NatToStringLength(n / 10, k - 1);
    }
  }

  /** The value of two runs of digits written one after the other. */
  lemma {:induction false} ParseDigitsAppend(x: string, y: string)
    requires AllDigits(x) && AllDigits(y)
    ensures AllDigits(x + y)
    ensures ParseDigits(x + y) == ParseDigits(x) * Pow10(|y|) + ParseDigits(y)
    decreases |y|
  {
    if |y| == 0 {
      assert x + y == x;
    } else {
      var y', c := y[..|y| - 1], y[|y| - 1];
      assert y == y' + [c];
      assert x + y == (x + y') + [c];
      ParseDigitsAppend(x, y');
      ParseDigitsSnoc(x + y', c);
      ParseDigitsSnoc(y', c);
      var px, py, p, d := ParseDigits(x), ParseDigits(y'), Pow10(|y'|), DigitValue(c);
      assert Pow10(|y|) == 10 * p;
      ShiftDigit(px, p, py, d);
    }
  }

  /** One more digit on the right multiplies the value by ten and adds the digit. */
  lemma ParseDigitsSnoc(s: string, c: char)
    requires AllDigits(s) && IsDigit(c)
    ensures AllDigits(s + [c])
    ensures ParseDigits(s + [c]) == 10 * ParseDigits(s) + DigitValue(c)
  {
    var t := s + [c];
    assert t[..|t| - 1] == s;
    assert t[|t| - 1] == c;
  }

  lemma ShiftDigit(a: int, b: int, c: int, d: int)
    ensures 10 * (a * b + c) + d == a * (10 * b) + (10 * c + d)
  {
  }

  /**
   * The text after the sign of a decimal numeral: digits with at most one
   * '.', and at least one digit.
   */
  predicate DecimalNumeral(m: string) {
    && (exists i :: 0 <= i < |m| && IsDigit(m[i]))
    && (forall i :: 0 <= i < |m| ==> IsDigit(m[i]) || m[i] == '.')
    && (forall i, j :: 0 <= i < j < |m| && m[i] == '.' ==> m[j] != '.')
  }

  /** The decimal reader accepts exactly an optional sign followed by a decimal numeral. */
  lemma ParseDecimalAccepts(s: string)
    ensures ParseDecimal(s).Some? <==> DecimalNumeral(Magnitude(s))
  {
    var m := Magnitude(s);
    var d := DotIndex(m);
    var whole := m[..d];
    var frac := if d < |m| then m[d + 1..] else "";
    if ParseDecimal(s).Some? {
      assert |whole| + |frac| > 0 && AllDigits(whole) && AllDigits(frac);
      NumeralOfParts(m, d, whole, frac);
    } else if DecimalNumeral(m) {
      PartsOfNumeral(m, d, whole, frac);
    }
  }

  lemma NumeralOfParts(m: string, d: nat, whole: string, frac: string)
    requires d == DotIndex(m) && whole == m[..d] && frac == (if d < |m| then m[d + 1..] else "")
    requires |whole| + |frac| > 0 && AllDigits(whole) && AllDigits(frac)
    ensures DecimalNumeral(m)
  {
    forall j | 0 <= j < |m|
      ensures IsDigit(m[j]) || m[j] == '.'
      ensures m[j] == '.' ==> j == d
    {
      if j < d {
        assert whole[j] == m[j];
      } else if d < j {
        assert frac[j - d - 1] == m[j];
      }
    }
    if |whole| > 0 {
      assert whole[0] == m[0];
    } else {
      assert frac[0] == m[d + 1];
    }
  }

  lemma PartsOfNumeral(m: string, d: nat, whole: string, frac: string)
    requires d == DotIndex(m) && whole == m[..d] && frac == (if d < |m| then m[d + 1..] else "")
    requires DecimalNumeral(m)
    ensures |whole| + |frac| > 0 && AllDigits(whole) && AllDigits(frac)
  {
    forall j | 0 <= j < |whole|
      ensures IsDigit(whole[j])
    {
      assert whole[j] == m[j];
    }
    forall j | 0 <= j < |frac|
      ensures IsDigit(frac[j])
    {
      assert frac[j] == m[d + 1 + j];
      assert m[d] == '.';
    }
    var i :| 0 <= i < |m| && IsDigit(m[i]);
    if i < d {
      assert |whole| > 0;
    } else {
      assert i != d;
      assert |frac| > 0;
    }
  }

  /**
   * `whole.frac` with a digit on either side is read as `DecimalValue`: the
   * number that, shifted by the fraction's length, is the integer of all its
   * digits (`DecimalValueShift`).
   */
  lemma ParseDecimalOfParts(whole: string, frac: string)
    requires AllDigits(whole) && AllDigits(frac) && |whole| + |frac| > 0
    ensures ParseDecimal(whole + "." + frac) == Some(DecimalValue(whole, frac))
  {
    UnsignedParts(whole, frac);
    SplitParts(whole, frac);
  }

  /** A '-' in front negates the value of `whole.frac`. */
  lemma ParseDecimalOfNegativeParts(whole: string, frac: string)
    requires AllDigits(whole) && AllDigits(frac) && |whole| + |frac| > 0
    ensures ParseDecimal("-" + whole + "." + frac) == Some(-DecimalValue(whole, frac))
  {
    var t := whole + "." + frac;
    var s := "-" + whole + "." + frac;
    assert s == "-" + t;
    assert Signed(s) && s[0] == '-' && Magnitude(s) == t;
    SplitParts(whole, frac);
  }

  /** `whole.frac` splits at its '.' back into the two parts. */
  lemma SplitParts(whole: string, frac: string)
    requires AllDigits(whole)
    ensures var t := whole + "." + frac;
            && DotIndex(t) == |whole| < |t|
            && t[..|whole|] == whole
            && t[|whole| + 1..] == frac
  {
    DotAfterDigits(whole, frac);
    var t := whole + "." + frac;
    assert t[..|whole|] == whole;
    assert t[|whole| + 1..] == frac;
  }

  lemma UnsignedParts(whole: string, frac: string)
    requires AllDigits(whole)
    ensures !Signed(whole + "." + frac) && Magnitude(whole + "." + frac) == whole + "." + frac
  {
    var t := whole + "." + frac;
    if |whole| > 0 {
      assert t[0] == whole[0];
    } else {
      assert t[0] == '.';
    }
  }

  /** The first '.' after a run of digits is the one right after it. */
  lemma DotAfterDigits(whole: string, frac: string)
    requires AllDigits(whole)
    ensures DotIndex(whole + "." + frac) == |whole|
  {
    var t := whole + "." + frac;
    assert t[|whole|] == '.';
    assert forall j :: 0 <= j < |whole| ==> t[j] == whole[j];
  }

  /** `pd.to_numeric` reads an integer numeral as `int` does. */
  lemma ParseDecimalExtendsParseInt(s: string)
    requires ParseInt(s).Some?
    ensures ParseDecimal(s) == Some(ParseInt(s).value as real)
  {
    var m := Magnitude(s);
    var d := DotIndex(m);
    DotIndexOfDigits(m);
    assert m[..d] == m;
  }

  /** A run of digits has no '.'. */
  lemma {:induction false} DotIndexOfDigits(s: string)
    requires AllDigits(s)
    ensures DotIndex(s) == |s|
    decreases |s|
  {
    if |s| > 0 {
      DotIndexOfDigits(s[1..]);
    }
  }

  /** Number text with a fraction, as a rate column holds it. */
  lemma ParseDecimalExample()
    ensures ParseDecimal("3.5") == Some(3.5)
    ensures ParseDecimal("-0.25") == Some(-0.25)
    ensures ParseDecimal("N/A") == None
  {
    ReadThreeAndHalf();
    ReadMinusQuarter();
    RejectNotAvailable();
  }

  lemma RejectNotAvailable()
    ensures ParseDecimal("N/A") == None
  {
    assert DotIndex("N/A") == 3;
    assert !IsDigit("N/A"[0]);
  }

  lemma ReadThreeAndHalf()
    ensures ParseDecimal("3.5") == Some(3.5)
  {
    assert DotIndex("3.5") == 1;
    assert "3.5"[..1] == "3";
    assert "3.5"[2..] == "5";
  }

  lemma ReadMinusQuarter()
    ensures ParseDecimal("-0.25") == Some(-0.25)
  {
    var m := Magnitude("-0.25");
    assert m == "0.25";
    assert DotIndex(m) == 1;
    assert m[..1] == "0";
    assert m[2..] == "25";
    assert ParseDigits("25") == 25 by {
      assert "25"[..1] == "2";
    }
  }

  /** Removing a character distributes over concatenation. */
  lemma {:induction false} RemoveAllAppend(a: string, b: string, c: char)
    ensures RemoveAll(a + b, c) == RemoveAll(a, c) + RemoveAll(b, c)
    decreases |a|
  {
    if |a| == 0 {
      assert a + b == b;
    } else {
      assert (a + b)[1..] == a[1..] + b;
      RemoveAllAppend(a[1..], b, c);
    }
  }

  /** Removing `c` keeps exactly the other characters. */
  lemma RemoveAllMembers(s: string, c: char)
    ensures forall x :: x in RemoveAll(s, c) ==> x in s && x != c
    ensures forall i :: 0 <= i < |s| && s[i] != c ==> s[i] in RemoveAll(s, c)
  {
    var r := RemoveAll(s, c);
    forall x | x in r
      ensures x in s && x != c
    {
      assert multiset(r)[x] > 0;
    }
    forall i | 0 <= i < |s| && s[i] != c
      ensures s[i] in r
    {
      assert multiset(s)[s[i]] > 0;
    }
  }

  /** Digits with thousands separators, at least one digit: without the commas, a run of digits. */
  lemma DigitsWithCommas(s: string)
    requires forall i :: 0 <= i < |s| ==> s[i] == ',' || IsDigit(s[i])
    requires exists i :: 0 <= i < |s| && IsDigit(s[i])
    ensures 0 < |RemoveAll(s, ',')| && AllDigits(RemoveAll(s, ','))
  {
    var t := RemoveAll(s, ',');
    RemoveAllMembers(s, ',');
    var i :| 0 <= i < |s| && IsDigit(s[i]);
    assert s[i] in t;
    forall j | 0 <= j < |t|
      ensures IsDigit(t[j])
    {
      assert t[j] in t;
    }
  }

  /** Text that has no `c` is left as it is. */
  lemma {:induction false} RemoveAllAbsent(s: string, c: char)
    requires forall i :: 0 <= i < |s| ==> s[i] != c
    ensures RemoveAll(s, c) == s
    decreases |s|
  {
    if |s| > 0 {
      RemoveAllAbsent(s[1..], c);
    }
  }
}
