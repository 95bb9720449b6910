/**
 * Column-wise arithmetic on joined county rows: numeric coercion, the
 * year-over-year difference, the per-farm ratio and `fillna`.
 */
module Metrics {
  import opened Values
  import opened Numerals

  /** One cell of a column as read from a CSV file, before coercion. */
  datatype Cell = Number(x: real) | Text(s: string) | Blank

  /**
   * `pd.to_numeric(cell, errors="coerce")`: numbers are kept, number text is
   * read, and anything else becomes missing instead of raising.
   */
  function ToNumeric(c: Cell): (r: Option<real>)
    ensures c.Number? ==> r == Some(c.x)
    ensures c.Text? ==> r == ParseDecimal(c.s)
    ensures r.None? <==> c.Blank? || (c.Text? && ParseDecimal(c.s).None?)
  {
    match c
    case Number(x) => Some(x)
    case Text(s) => ParseDecimal(s)
    case Blank => None
  }

  /** `a - b` on float columns: missing when either side is missing, with no stand-in value. */
  function Difference(a: Option<real>, b: Option<real>): (r: Option<real>)
    ensures r.Some? <==> a.Some? && b.Some?
    ensures r.Some? ==> b.value + r.value == a.value
  {
    if a.Some? && b.Some? then Some(a.value - b.value) else None
  }

  /**
   * `p / f` on two integer columns that may hold missing values, as pandas
   * divides them: a float64 quotient; x/0 is +inf or -inf by the sign of x,
   * 0/0 is NaN, and a missing operand gives NaN.
   */
  function Divide(p: Option<int>, f: Option<int>): (q: Float)
    ensures q.NaN? <==> p.None? || f.None? || (p.value == 0 && f.value == 0)
    ensures q.Finite? ==> f.Some? && f.value != 0 && q.x * f.value as real == p.value as real
    ensures q.PosInf? <==> p.Some? && f.Some? && f.value == 0 && p.value > 0
    ensures q.NegInf? <==> p.Some? && f.Some? && f.value == 0 && p.value < 0
  {
    if p.None? || f.None? then NaN
    else if f.value != 0 then Finite(p.value as real / f.value as real)
    else if p.value > 0 then PosInf
    else if p.value < 0 then NegInf
    else NaN
  }

  /** `Series.fillna(fill)`: a NaN becomes `fill`; every other value, infinities included, stays. */
  function FillNa(q: Float, fill: real): (r: Float)
    ensures !r.NaN?
    ensures q.NaN? ==> r == Finite(fill)
    ensures !q.NaN? ==> r == q
  {
    if q.NaN? then Finite(fill) else q
  }

  /**
   * `policies / farms` followed by `fillna(0)`. The value is 0 exactly when an
   * operand is missing or there are no policies; a nonzero count over zero
   * farms stays infinite rather than becoming 0.
   */
  function PoliciesPerFarm(policies: Option<int>, farms: Option<int>): (r: Float)
    ensures !r.NaN?
    ensures r == Finite(0.0) <==> policies.None? || farms.None? || policies.value == 0
    ensures policies.Some? && farms.Some? && farms.value != 0 ==>
              r.Finite? && r.x * farms.value as real == policies.value as real
    ensures r.PosInf? <==> policies.Some? && farms.Some? && farms.value == 0 && policies.value > 0
    ensures r.NegInf? <==> policies.Some? && farms.Some? && farms.value == 0 && policies.value < 0
  {
    FillNa(Divide(policies, farms), 0.0)
  }

  // ---------------------------------------------------------------------------
  // Lemmas

  /** An integer written as text is read back as that number. */
  lemma ToNumericReadsIntegers(i: int)
    ensures ToNumeric(Text(IntToString(i))) == Some(i as real)
  {
    ParseIntRoundTrip(i);
    ParseDecimalExtendsParseInt(IntToString(i));
  }

  /** The two ends of the fill rule: a missing count gives 0, and so does 0/0; 3/0 does not. */
  lemma PoliciesPerFarmExamples()
    ensures PoliciesPerFarm(Some(10), None) == Finite(0.0)
    ensures PoliciesPerFarm(None, Some(5)) == Finite(0.0)
    ensures PoliciesPerFarm(Some(0), Some(0)) == Finite(0.0)
    ensures PoliciesPerFarm(Some(3), Some(0)) == PosInf
    ensures PoliciesPerFarm(Some(10), Some(5)) == Finite(2.0)
  {
  }
}
