/**
 * The county pipeline behind the unemployment maps (Figures 5 and 6): a FIPS
 * key on the county boundaries and on the unemployment table, a left merge,
 * numeric coercion of two rate columns, and their year-over-year change.
 */
module Unemployment {
  import opened Values
  import opened Numerals
  import opened Padding
  import opened Frames
  import opened Metrics

  /** A county boundary with its two code columns; the geometry itself is not modelled. */
  datatype ShapeCounty = ShapeCounty(statefp: string, countyfp: string)

  /** `STATEFP + COUNTYFP`: the two codes joined as they are in the shapefile. */
  function ShapeFips(c: ShapeCounty): (f: string)
    ensures |f| == |c.statefp| + |c.countyfp|
    ensures f[..|c.statefp|] == c.statefp && f[|c.statefp|..] == c.countyfp
  {
    c.statefp + c.countyfp
  }

  /** The columns of one unemployment-table row that the pipeline reads. */
  datatype RateRow = RateRow(fipsCode: Code, rate2021: Cell, rate2022: Cell)

  /** `fips.astype(str).str.zfill(5)`: the whole code padded at once. */
  function RateFips(r: RateRow): (f: string)
    ensures |f| == Max(5, |AsStr(r.fipsCode)|)
  {
    ZFill(AsStr(r.fipsCode), 5)
  }

  /** One county of the map: boundary, key, the two coerced rates and their change. */
  datatype RateMapRow = RateMapRow(county: ShapeCounty, fips: string, unemployment22: Option<real>,
                                   unemployment21: Option<real>, change: Option<real>)

  /** The rate columns of a merged row; both missing when the county found no match. */
  function ToRateMapRow(row: (ShapeCounty, Option<RateRow>)): (m: RateMapRow)
    ensures row.1.None? ==> m.unemployment22.None? && m.unemployment21.None? && m.change.None?
  {
    var u22 := match row.1 case Some(r) => ToNumeric(r.rate2022) case None => None;
    var u21 := match row.1 case Some(r) => ToNumeric(r.rate2021) case None => None;
    RateMapRow(row.0, ShapeFips(row.0), u22, u21, Difference(u22, u21))
  }

  /** The coerced rates and their change on every merged row. */
  function RateRows(merged: seq<(ShapeCounty, Option<RateRow>)>): seq<RateMapRow>
  {
    seq(|merged|, i requires 0 <= i < |merged| => ToRateMapRow(merged[i]))
  }

  /**
   * `gdf.merge(df, how="left")` on the shared `fips` column, then
   * `to_numeric(..., errors="coerce")` on both rates and `unemp22-21`.
   */
  function UnemploymentMap(counties: seq<ShapeCounty>, rows: seq<RateRow>): (m: seq<RateMapRow>)
    ensures |m| >= |counties|
    ensures forall c :: c in counties ==> exists r :: r in m && r.county == c
    ensures forall r :: r in m ==> RateMergedFrom(r, counties, rows)
    ensures forall i :: 0 <= i < |m| ==> (m[i].change.Some? <==> m[i].unemployment22.Some? && m[i].unemployment21.Some?)
  {
    var merged := LeftJoin(counties, ShapeFips, rows, RateFips);
    var m := RateRows(merged);
    RateRowsFrom(merged, m, counties, rows);
    RateRowsCover(merged, m, counties);
    m
  }

  /**
   * A map row as the merge leaves it: a county of `counties` under its own key,
   * all rates missing when no table row has that key, and otherwise the coerced
   * rates of a table row with that key and their difference.
   */
  predicate RateMergedFrom(r: RateMapRow, counties: seq<ShapeCounty>, rows: seq<RateRow>) {
    && r.county in counties
    && r.fips == ShapeFips(r.county)
    && ((forall x :: x in rows ==> RateFips(x) != r.fips) ==>
          r.unemployment22.None? && r.unemployment21.None? && r.change.None?)
    && ((exists x :: x in rows && RateFips(x) == r.fips) ==>
          exists x :: x in rows && RateFips(x) == r.fips
                    && r.unemployment22 == ToNumeric(x.rate2022) && r.unemployment21 == ToNumeric(x.rate2021))
    && r.change == Difference(r.unemployment22, r.unemployment21)
  }

  /** Every map row derived from a merged row is what the merge promises. */
  lemma RateRowsFrom(merged: seq<(ShapeCounty, Option<RateRow>)>, m: seq<RateMapRow>,
                     counties: seq<ShapeCounty>, rows: seq<RateRow>)
    requires |m| == |merged| && forall i :: 0 <= i < |m| ==> m[i] == ToRateMapRow(merged[i])
    requires forall p :: p in merged ==> p.0 in counties
    requires forall p :: p in merged && p.1.Some? ==> p.1.value in rows && RateFips(p.1.value) == ShapeFips(p.0)
    requires forall p :: p in merged && p.1.None? ==> forall x :: x in rows ==> RateFips(x) != ShapeFips(p.0)
    ensures forall r :: r in m ==> RateMergedFrom(r, counties, rows)
  {
    forall r | r in m
      ensures RateMergedFrom(r, counties, rows)
    {
      var i :| 0 <= i < |m| && m[i] == r;
      assert merged[i] in merged;
      RateMergedRow(merged[i], counties, rows);
    }
  }

  /** A county that the merge kept is still on the map. */
  lemma RateRowsCover(merged: seq<(ShapeCounty, Option<RateRow>)>, m: seq<RateMapRow>, counties: seq<ShapeCounty>)
    requires |m| == |merged| && forall i :: 0 <= i < |m| ==> m[i] == ToRateMapRow(merged[i])
    requires forall c :: c in counties ==> exists p :: p in merged && p.0 == c
    ensures forall c :: c in counties ==> exists r :: r in m && r.county == c
  {
    forall c | c in counties
      ensures exists r :: r in m && r.county == c
    {
      var p :| p in merged && p.0 == c;
      var i :| 0 <= i < |merged| && merged[i] == p;
      assert m[i] in m && m[i].county == c;
    }
  }

  lemma RateMergedRow(p: (ShapeCounty, Option<RateRow>), counties: seq<ShapeCounty>, rows: seq<RateRow>)
    requires p.0 in counties
    requires p.1.Some? ==> p.1.value in rows && RateFips(p.1.value) == ShapeFips(p.0)
    requires p.1.None? ==> forall x :: x in rows ==> RateFips(x) != ShapeFips(p.0)
    ensures RateMergedFrom(ToRateMapRow(p), counties, rows)
  {
  }

  // ---------------------------------------------------------------------------
  // Lemmas

  /**
   * For a code below 100000, `str(code).zfill(5)` has exactly five digits:
   * `str(code)` at the end, only '0' characters before it, and value `code`.
   */
  lemma RateFipsOfCode(code: nat, r21: Cell, r22: Cell)
    requires code < 100000
    ensures var f := RateFips(RateRow(IntCode(code), r21, r22));
            && |f| == 5
            && f == Zeros(5 - |NatToString(code)|) + NatToString(code)
            && ParseInt(f) == Some(code)
  {
    var s := NatToString(code);
    assert AsStr(IntCode(code)) == s;
    assert RateFips(RateRow(IntCode(code), r21, r22)) == ZFill(s, 5);
    Pow10Five();
    ZFillNat(code, 5);
    ZFillNatParses(code, 5);
  }

  lemma Pow10Five()
    ensures Pow10(5) == 100000
  {
    assert Pow10(2) == 100;
  }

  /** A key that already has five characters is left as it is. */
  lemma RateFipsOfFiveCharacters(code: string, r21: Cell, r22: Cell)
    requires |code| == 5
    ensures RateFips(RateRow(TextCode(code), r21, r22)) == code
  {
  }

  /** A shapefile county whose codes have 2 and 3 digits meets the padded integer code of the same county. */
  lemma ShapeFipsMeetsRateFips(statefp: string, countyfp: string, r21: Cell, r22: Cell)
    requires |statefp| == 2 && |countyfp| == 3 && AllDigits(statefp) && AllDigits(countyfp)
    ensures var code := ParseDigits(statefp + countyfp);
            RateFips(RateRow(IntCode(code), r21, r22)) == ShapeFips(ShapeCounty(statefp, countyfp))
  {
    var f := statefp + countyfp;
    assert AllDigits(f);
    var code := ParseDigits(f);
    Pow10Five();
    RateFipsOfCode(code, r21, r22);
    ZFillDigits(NatToString(code), 5);
    NatToStringRoundTrip(code);
    var g := RateFips(RateRow(IntCode(code), r21, r22));
    assert ParseDigits(g) == ParseDigits(f);
    DigitsDetermineText(g, f);
  }

  /** Two numerals of the same length and the same value are the same text. */
  lemma {:induction false} DigitsDetermineText(a: string, b: string)
    requires |a| == |b| && AllDigits(a) && AllDigits(b) && ParseDigits(a) == ParseDigits(b)
    ensures a == b
    decreases |a|
  {
    if |a| > 0 {
      var n := |a|;
      var a', b' := a[..n - 1], b[..n - 1];
      var da, db := DigitValue(a[n - 1]), DigitValue(b[n - 1]);
      assert ParseDigits(a) == 10 * ParseDigits(a') + da;
      assert ParseDigits(b) == 10 * ParseDigits(b') + db;
      SplitLastDigit(ParseDigits(a'), da, ParseDigits(b'), db);
      assert a[n - 1] == b[n - 1];
      DigitsDetermineText(a', b');
      assert a == a' + [a[n - 1]];
      assert b == b' + [b[n - 1]];
    }
  }

  /** A number determines its last decimal digit and the number before it. */
  lemma SplitLastDigit(p: int, d: int, q: int, e: int)
    requires 0 <= d < 10 && 0 <= e < 10 && 10 * p + d == 10 * q + e
    ensures p == q && d == e
  {
    assert 10 * p < 10 * q + 10 && 10 * q < 10 * p + 10;
    assert p - 1 < q < p + 1;
  }

  /**
   * With unique `fips` in the unemployment table the merge keeps every county
   * row, in order; a county with no match gets missing rates and change, and a
   * matched county gets its row's coerced rates and their difference.
   */
  lemma UnemploymentMapRows(counties: seq<ShapeCounty>, rows: seq<RateRow>)
    requires UniqueKeys(rows, RateFips)
    ensures var m := UnemploymentMap(counties, rows);
            && |m| == |counties|
            && forall i :: 0 <= i < |counties| ==>
                 && m[i].county == counties[i]
                 && m[i].fips == ShapeFips(counties[i])
                 && match Lookup(rows, RateFips, ShapeFips(counties[i]))
                    case None =>
                      m[i].unemployment22.None? && m[i].unemployment21.None? && m[i].change.None?
                    case Some(r) =>
                      && m[i].unemployment22 == ToNumeric(r.rate2022)
                      && m[i].unemployment21 == ToNumeric(r.rate2021)
                      && m[i].change == Difference(ToNumeric(r.rate2022), ToNumeric(r.rate2021))
  {
    LeftJoinUniqueKeys(counties, ShapeFips, rows, RateFips);
  }

  /** The change is the 2022 rate less the 2021 rate when both are present, and missing otherwise. */
  lemma ChangeRule(c: ShapeCounty, r: RateRow)
    ensures var m := ToRateMapRow((c, Some(r)));
            && (m.change.Some? <==> ToNumeric(r.rate2022).Some? && ToNumeric(r.rate2021).Some?)
            && (m.change.Some? ==> m.change.value == ToNumeric(r.rate2022).value - ToNumeric(r.rate2021).value)
  {
  }

  // The scenario below: two Alabama counties; only Autauga (integer code 1001)
  // has a row, with 3.5 (as text) in 2021 and 3.0 in 2022.

  lemma Numeral1001()
    ensures NatToString(1001) == "1001"
  {
    assert NatToString(1) == "1";
    assert NatToString(10) == NatToString(1) + [DigitChar(0)];
    assert NatToString(100) == NatToString(10) + [DigitChar(0)];
    assert NatToString(1001) == NatToString(100) + [DigitChar(1)];
  }

  lemma ExampleRateKey()
    ensures RateFips(RateRow(IntCode(1001), Text("3.5"), Number(3.0))) == "01001"
  {
    Numeral1001();
    assert AsStr(IntCode(1001)) == "1001";
    DigitsUnsigned(AsStr(IntCode(1001)));
    ZFillUnsigned("1001", 5);
    assert Zeros(1) + "1001" == "01001";
  }

  lemma ExampleLookups()
    ensures Lookup([RateRow(IntCode(1001), Text("3.5"), Number(3.0))], RateFips, "01001")
            == Some(RateRow(IntCode(1001), Text("3.5"), Number(3.0)))
    ensures Lookup([RateRow(IntCode(1001), Text("3.5"), Number(3.0))], RateFips, "01003") == None
  {
    var rows := [RateRow(IntCode(1001), Text("3.5"), Number(3.0))];
    ExampleRateKey();
    assert rows[1..] == [];
  }

  lemma ExampleMerge()
    ensures LeftJoin([ShapeCounty("01", "001"), ShapeCounty("01", "003")], ShapeFips,
                     [RateRow(IntCode(1001), Text("3.5"), Number(3.0))], RateFips)
            == [(ShapeCounty("01", "001"), Some(RateRow(IntCode(1001), Text("3.5"), Number(3.0)))),
                (ShapeCounty("01", "003"), None)]
  {
    var counties := [ShapeCounty("01", "001"), ShapeCounty("01", "003")];
    var rows := [RateRow(IntCode(1001), Text("3.5"), Number(3.0))];
    assert ShapeFips(counties[0]) == "01001";
    assert ShapeFips(counties[1]) == "01003";
    ExampleLookups();
    JoinOfTwo(counties[0], counties[1], ShapeFips, rows, RateFips, rows[0]);
  }

  lemma ExampleRow()
    ensures ToRateMapRow((ShapeCounty("01", "001"), Some(RateRow(IntCode(1001), Text("3.5"), Number(3.0)))))
            == RateMapRow(ShapeCounty("01", "001"), "01001", Some(3.0), Some(3.5), Some(-0.5))
  {
    ReadThreeAndHalf();
    assert ToNumeric(Text("3.5")) == Some(3.5);
    assert ToNumeric(Number(3.0)) == Some(3.0);
    assert Difference(Some(3.0), Some(3.5)) == Some(-0.5);
    assert ShapeFips(ShapeCounty("01", "001")) == "01001";
  }

  lemma ExampleUnmatchedRow()
    ensures ToRateMapRow((ShapeCounty("01", "003"), None)) == RateMapRow(ShapeCounty("01", "003"), "01003", None, None, None)
  {
    assert ShapeFips(ShapeCounty("01", "003")) == "01003";
  }

  lemma MapOfTwo(counties: seq<ShapeCounty>, rows: seq<RateRow>, p: (ShapeCounty, Option<RateRow>),
                  q: (ShapeCounty, Option<RateRow>))
    requires LeftJoin(counties, ShapeFips, rows, RateFips) == [p, q]
    ensures UnemploymentMap(counties, rows) == [ToRateMapRow(p), ToRateMapRow(q)]
  {
    UnemploymentMapIsRateRows(counties, rows);
    RateRowsOfTwo(p, q);
  }

  lemma UnemploymentMapIsRateRows(counties: seq<ShapeCounty>, rows: seq<RateRow>)
    ensures UnemploymentMap(counties, rows) == RateRows(LeftJoin(counties, ShapeFips, rows, RateFips))
  {
  }

  lemma RateRowsOfTwo(p: (ShapeCounty, Option<RateRow>), q: (ShapeCounty, Option<RateRow>))
    ensures RateRows([p, q]) == [ToRateMapRow(p), ToRateMapRow(q)]
  {
    assert RateRows([p, q])[0] == ToRateMapRow(p);
  }

  /** Autauga gets 3.0, 3.5 and a change of -0.5; the county with no row gets nothing. */
  lemma UnemploymentMapExample()
    ensures UnemploymentMap([ShapeCounty("01", "001"), ShapeCounty("01", "003")],
                            [RateRow(IntCode(1001), Text("3.5"), Number(3.0))])
            == [RateMapRow(ShapeCounty("01", "001"), "01001", Some(3.0), Some(3.5), Some(-0.5)),
                RateMapRow(ShapeCounty("01", "003"), "01003", None, None, None)]
  {
    var c0, c1 := ShapeCounty("01", "001"), ShapeCounty("01", "003");
    var r := RateRow(IntCode(1001), Text("3.5"), Number(3.0));
    ExampleMerge();
    ExampleRow();
    ExampleUnmatchedRow();
    MapOfTwo([c0, c1], [r], (c0, Some(r)), (c1, None));
  }
}
