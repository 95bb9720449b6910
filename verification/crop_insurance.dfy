/**
 * The county pipeline of the crop insurance map: RMA policies summed per
 * county, NASS farm counts, continental-US county and state boundaries, two
 * left merges on GEOID, and policies per farm operation.
 */
module CropInsurance {
  import opened Values
  import opened Numerals
  import opened Padding
  import opened Frames
  import opened Metrics

  // ---------------------------------------------------------------------------
  // RMA Summary of Business

  /** The columns of one Summary of Business row that the pipeline reads. */
  datatype RmaRow = RmaRow(stateFips: Code, countyFips: Code, policiesSoldTotal: int)

  /** `state_fips.astype(str).str.zfill(2) + FIPS.astype(str).str.zfill(3)`: each part padded, then joined. */
  function RmaGeoid(r: RmaRow): (g: string)
    ensures |g| == Max(2, |AsStr(r.stateFips)|) + Max(3, |AsStr(r.countyFips)|)
    ensures g[..|ZFill(AsStr(r.stateFips), 2)|] == ZFill(AsStr(r.stateFips), 2)
  {
    ZFill(AsStr(r.stateFips), 2) + ZFill(AsStr(r.countyFips), 3)
  }

  function PoliciesSold(r: RmaRow): int {
    r.policiesSoldTotal
  }

  /** `groupby(['GEOID'])['policies_sold_total'].sum().reset_index()`. */
  function RmaTotals(rows: seq<RmaRow>): (t: seq<Group>)
    ensures UniqueKeys(t, GroupKey)
    ensures forall x :: x in KeysOf(t) <==> x in KeyColumn(rows, RmaGeoid)
    ensures forall i :: 0 <= i < |t| ==> t[i].total == SumWhere(rows, RmaGeoid, PoliciesSold, t[i].key)
  {
    var g := GroupSum(rows, RmaGeoid, PoliciesSold);
    GroupSumSpec(rows, RmaGeoid, PoliciesSold);
    GroupKeysUnique(g);
    g
  }

  /** The policies sold in county `k` by the raw rows: their sum, or missing when the county has none. */
  function PoliciesIn(rows: seq<RmaRow>, k: string): Option<int> {
    if k in KeyColumn(rows, RmaGeoid) then Some(SumWhere(rows, RmaGeoid, PoliciesSold, k)) else None
  }

  // ---------------------------------------------------------------------------
  // NASS Quick Stats

  /** The fields of one Quick Stats record that the pipeline reads. */
  datatype NassRow = NassRow(stateFipsCode: string, countyCode: string, value: string)

  datatype FarmCount = FarmCount(geoid: string, farms: int)

  /** `state_fips_code + county_code`: the two codes joined as supplied, without padding. */
  function NassGeoid(r: NassRow): (g: string)
    ensures |g| == |r.stateFipsCode| + |r.countyCode|
    ensures g[..|r.stateFipsCode|] == r.stateFipsCode && g[|r.stateFipsCode|..] == r.countyCode
  {
    r.stateFipsCode + r.countyCode
  }

  /** `Value.str.replace(",", "").astype(int)` on one record; `None` where it raises. */
  function ParseFarms(v: string): (r: Option<int>)
    ensures (exists i :: 0 <= i < |v| && v[i] != ',' && !IsDigit(v[i]) && v[i] != '+' && v[i] != '-') ==> r.None?
    ensures ((forall i :: 0 <= i < |v| ==> v[i] == ',' || IsDigit(v[i])) && exists i :: 0 <= i < |v| && IsDigit(v[i]))
              ==> r.Some? && r.value >= 0
  {
    var t := RemoveAll(v, ',');
    RemoveAllMembers(v, ',');
    assert ((forall i :: 0 <= i < |v| ==> v[i] == ',' || IsDigit(v[i])) && exists i :: 0 <= i < |v| && IsDigit(v[i]))
           ==> ParseInt(t) == Some(ParseDigits(t) as int) by {
      if (forall i :: 0 <= i < |v| ==> v[i] == ',' || IsDigit(v[i])) && exists i :: 0 <= i < |v| && IsDigit(v[i]) {
        DigitsWithCommas(v);
        ParseIntOfDigits(t);
      }
    }
    ParseInt(t)
  }

  /** The farm-count table; it fails as a whole when one count does not parse. */
  function NassFarms(rows: seq<NassRow>): (r: Result<seq<FarmCount>>)
    ensures r.Ok? <==> forall i :: 0 <= i < |rows| ==> ParseFarms(rows[i].value).Some?
    ensures r.Ok? ==> |r.value| == |rows|
    ensures r.Ok? ==> forall i :: 0 <= i < |rows| ==>
              r.value[i] == FarmCount(NassGeoid(rows[i]), ParseFarms(rows[i].value).value)
  {
    if |rows| == 0 then Ok([])
    else
      var n := ParseFarms(rows[0].value);
      var rest := NassFarms(rows[1..]);
      assert forall i :: 1 <= i < |rows| ==> rows[1..][i - 1] == rows[i];
      if n.None? then Err("farm count is not an integer")
      else if rest.Err? then rest
      else Ok([FarmCount(NassGeoid(rows[0]), n.value)] + rest.value)
  }

  function FarmKey(f: FarmCount): string {
    f.geoid
  }

  /** The farm count of county `k` by the raw records: the parsed value of its record, or missing. */
  function FarmsIn(rows: seq<NassRow>, k: string): Option<int> {
    match Lookup(rows, NassGeoid, k)
    case Some(r) => ParseFarms(r.value)
    case None => None
  }

  // ---------------------------------------------------------------------------
  // Census boundaries

  /** A county boundary; the geometry itself is not modelled. */
  datatype County = County(geoid: string, stusps: string)

  /** A state boundary; the geometry itself is not modelled. */
  datatype StateShape = StateShape(stusps: string)

  /** `GEOID.astype(int) < 60000` and the state is neither Alaska nor Hawaii. */
  predicate InContinentalUs(c: County) {
    var n := ParseInt(c.geoid);
    n.Some? && n.value < 60000 && c.stusps != "AK" && c.stusps != "HI"
  }

  /** The continental-US counties; fails when some GEOID is not an integer, as `astype(int)` raises. */
  function ContinentalCounties(cs: seq<County>): (r: Result<seq<County>>)
    ensures r.Err? <==> exists i :: 0 <= i < |cs| && ParseInt(cs[i].geoid).None?
    ensures r.Ok? ==> Subsequence(r.value, cs)
    ensures r.Ok? ==> forall c :: c in r.value ==> c in cs && InContinentalUs(c)
    ensures r.Ok? ==> forall i :: 0 <= i < |cs| && InContinentalUs(cs[i]) ==> cs[i] in r.value
    ensures r.Ok? ==> forall c :: multiset(r.value)[c] == if InContinentalUs(c) then multiset(cs)[c] else 0
  {
    if exists i :: 0 <= i < |cs| && ParseInt(cs[i].geoid).None? then Err("GEOID is not an integer")
    else
      FilterMultiplicity(cs, InContinentalUs);
      Ok(Filter(cs, InContinentalUs))
  }

  /** `states[states['STUSPS'].isin(counties['STUSPS'].unique())]`. */
  function StatesWithCounties(states: seq<StateShape>, counties: seq<County>): (r: seq<StateShape>)
    ensures Subsequence(r, states)
    ensures forall s :: s in r ==> s in states && exists c :: c in counties && c.stusps == s.stusps
    ensures forall i :: 0 <= i < |states| && (exists c :: c in counties && c.stusps == states[i].stusps)
              ==> states[i] in r
    ensures forall s :: multiset(r)[s]
              == if exists c :: c in counties && c.stusps == s.stusps then multiset(states)[s] else 0
  {
    var present := set c | c in counties :: c.stusps;
    var keep := (s: StateShape) => s.stusps in present;
    FilterMultiplicity(states, keep);
    Filter(states, keep)
  }

  // ---------------------------------------------------------------------------
  // Merges and the derived column

  /** One county of the map: its boundary, the merged columns and `policies_per_farm`. */
  datatype PolicyMapRow = PolicyMapRow(county: County, policiesSoldTotal: Option<int>, farms: Option<int>,
                                       policiesPerFarm: Float)

  function CountyKey(c: County): string {
    c.geoid
  }

  function WithPoliciesKey(p: (County, Option<Group>)): string {
    p.0.geoid
  }

  function ToMapRow(row: ((County, Option<Group>), Option<FarmCount>)): PolicyMapRow {
    var policies := match row.0.1 case Some(g) => Some(g.total) case None => None;
    var farms := match row.1 case Some(f) => Some(f.farms) case None => None;
    PolicyMapRow(row.0.0, policies, farms, PoliciesPerFarm(policies, farms))
  }

  /** `policies_per_farm` on every row of the twice-merged table. */
  function DeriveRows(withFarms: seq<((County, Option<Group>), Option<FarmCount>)>): seq<PolicyMapRow>
  {
    seq(|withFarms|, i requires 0 <= i < |withFarms| => ToMapRow(withFarms[i]))
  }

  /** The two left merges on GEOID, then `policies_sold_total / farms` with `fillna(0)`. */
  function JoinAndDerive(counties: seq<County>, totals: seq<Group>, farms: seq<FarmCount>)
    : (rows: seq<PolicyMapRow>)
    ensures |rows| >= |counties|
    ensures forall c :: c in counties ==> exists r :: r in rows && r.county == c
    ensures forall r :: r in rows ==> MergedFrom(r, counties, totals, farms)
    ensures forall i :: 0 <= i < |rows| ==> !rows[i].policiesPerFarm.NaN?
  {
    var withPolicies := LeftJoin(counties, CountyKey, totals, GroupKey);
    var withFarms := LeftJoin(withPolicies, WithPoliciesKey, farms, FarmKey);
    var rows := DeriveRows(withFarms);
    MapRowsFrom(withFarms, rows, counties, totals, farms);
    MapRowsCover(withPolicies, withFarms, rows, counties);
    rows
  }

  /**
   * A map row as the two merges leave it: its county is one of `counties`,
   * each merged column holds the matching row's value or is missing exactly
   * when nothing matches, and the ratio is derived from the two.
   */
  predicate MergedFrom(r: PolicyMapRow, counties: seq<County>, totals: seq<Group>, farms: seq<FarmCount>) {
    && r.county in counties
    && (r.policiesSoldTotal.None? <==> forall g :: g in totals ==> g.key != r.county.geoid)
    && (r.policiesSoldTotal.Some? ==>
          exists g :: g in totals && g.key == r.county.geoid && g.total == r.policiesSoldTotal.value)
    && (r.farms.None? <==> forall f :: f in farms ==> f.geoid != r.county.geoid)
    && (r.farms.Some? ==> exists f :: f in farms && f.geoid == r.county.geoid && f.farms == r.farms.value)
    && r.policiesPerFarm == PoliciesPerFarm(r.policiesSoldTotal, r.farms)
  }

  /** Every map row derived from a twice-merged row is what the merges promise. */
  lemma MapRowsFrom(withFarms: seq<((County, Option<Group>), Option<FarmCount>)>, rows: seq<PolicyMapRow>,
                    counties: seq<County>, totals: seq<Group>, farms: seq<FarmCount>)
    requires |rows| == |withFarms| && forall i :: 0 <= i < |rows| ==> rows[i] == ToMapRow(withFarms[i])
    requires forall w :: w in withFarms ==> w.0.0 in counties
    requires forall w :: w in withFarms && w.0.1.Some? ==>
               w.0.1.value in totals && w.0.1.value.key == w.0.0.geoid
    requires forall w :: w in withFarms && w.0.1.None? ==> forall g :: g in totals ==> g.key != w.0.0.geoid
    requires forall w :: w in withFarms && w.1.Some? ==> w.1.value in farms && w.1.value.geoid == w.0.0.geoid
    requires forall w :: w in withFarms && w.1.None? ==> forall f :: f in farms ==> f.geoid != w.0.0.geoid
    ensures forall r :: r in rows ==> MergedFrom(r, counties, totals, farms)
  {
    forall r | r in rows
      ensures MergedFrom(r, counties, totals, farms)
    {
      var i :| 0 <= i < |rows| && rows[i] == r;
      assert withFarms[i] in withFarms;
      MergedRow(withFarms[i], counties, totals, farms);
    }
  }

  /** A county that both merges kept is still on the map. */
  lemma MapRowsCover(withPolicies: seq<(County, Option<Group>)>, withFarms: seq<((County, Option<Group>), Option<FarmCount>)>,
                     rows: seq<PolicyMapRow>, counties: seq<County>)
    requires |rows| == |withFarms| && forall i :: 0 <= i < |rows| ==> rows[i] == ToMapRow(withFarms[i])
    requires forall c :: c in counties ==> exists p :: p in withPolicies && p.0 == c
    requires forall p :: p in withPolicies ==> exists w :: w in withFarms && w.0 == p
    ensures forall c :: c in counties ==> exists r :: r in rows && r.county == c
  {
    forall c | c in counties
      ensures exists r :: r in rows && r.county == c
    {
      var p :| p in withPolicies && p.0 == c;
      var w :| w in withFarms && w.0 == p;
      var i :| 0 <= i < |withFarms| && withFarms[i] == w;
      assert rows[i] in rows && rows[i].county == c;
    }
  }

  lemma MergedRow(w: ((County, Option<Group>), Option<FarmCount>), counties: seq<County>, totals: seq<Group>,
                  farms: seq<FarmCount>)
    requires w.0.0 in counties
    requires w.0.1.Some? ==> w.0.1.value in totals && w.0.1.value.key == w.0.0.geoid
    requires w.0.1.None? ==> forall g :: g in totals ==> g.key != w.0.0.geoid
    requires w.1.Some? ==> w.1.value in farms && w.1.value.geoid == w.0.0.geoid
    requires w.1.None? ==> forall f :: f in farms ==> f.geoid != w.0.0.geoid
    ensures MergedFrom(ToMapRow(w), counties, totals, farms)
  {
  }

  /** What the script leaves for plotting: the county table and the state outlines. */
  datatype CropMap = CropMap(counties: seq<PolicyMapRow>, states: seq<StateShape>)

  /** The whole transform, from the four loaded tables to the plotted ones. */
  function CropPipeline(rma: seq<RmaRow>, nass: seq<NassRow>, counties: seq<County>, states: seq<StateShape>)
    : (r: Result<CropMap>)
    ensures r.Err? <==> (exists i :: 0 <= i < |nass| && ParseFarms(nass[i].value).None?)
                        || (exists i :: 0 <= i < |counties| && ParseInt(counties[i].geoid).None?)
  {
    var totals := RmaTotals(rma);
    match NassFarms(nass)
    case Err(e) => Err(e)
    case Ok(farms) =>
      match ContinentalCounties(counties)
      case Err(e) => Err(e)
      case Ok(kept) => Ok(CropMap(JoinAndDerive(kept, totals, farms), StatesWithCounties(states, kept)))
  }

  // ---------------------------------------------------------------------------
  // Lemmas: keys

  /** For state in [0, 99] and county in [0, 999] the RMA GEOID is five digits reading 1000 * state + county. */
  lemma RmaGeoidFiveDigits(state: int, county: int, policies: int)
    requires 0 <= state < 100 && 0 <= county < 1000
    ensures |RmaGeoid(RmaRow(IntCode(state), IntCode(county), policies))| == 5
    ensures AllDigits(RmaGeoid(RmaRow(IntCode(state), IntCode(county), policies)))
    ensures ParseInt(RmaGeoid(RmaRow(IntCode(state), IntCode(county), policies))) == Some(1000 * state + county)
  {
    var a := ZFill(NatToString(state), 2);
    var b := ZFill(NatToString(county), 3);
    assert AsStr(IntCode(state)) == NatToString(state);
    assert AsStr(IntCode(county)) == NatToString(county);
    assert Pow10(2) == 100 && Pow10(3) == 1000;
    ZFillNat(state, 2);
    ZFillNat(county, 3);
    DigitKey(a, b, state, county);
    assert RmaGeoid(RmaRow(IntCode(state), IntCode(county), policies)) == a + b;
  }

  /** In the same range the GEOID is `str(state)` and `str(county)`, each after just enough '0' characters. */
  lemma RmaGeoidPadded(state: nat, county: nat, policies: int)
    requires state < 100 && county < 1000
    ensures |NatToString(state)| <= 2 && |NatToString(county)| <= 3
    ensures RmaGeoid(RmaRow(IntCode(state), IntCode(county), policies))
            == Zeros(2 - |NatToString(state)|) + NatToString(state) + Zeros(3 - |NatToString(county)|) + NatToString(county)
  {
    var ns, nc := NatToString(state), NatToString(county);
    UnsignedCode(state);
    UnsignedCode(county);
    assert Pow10(2) == 100 && Pow10(3) == 1000;
    NatToStringLength(state, 2);
    NatToStringLength(county, 3);
    PaddedPair(ns, nc);
    assert RmaGeoid(RmaRow(IntCode(state), IntCode(county), policies)) == ZFill(ns, 2) + ZFill(nc, 3);
  }

  /** A non-negative integer code is written as its unsigned numeral. */
  lemma UnsignedCode(n: nat)
    ensures AsStr(IntCode(n)) == NatToString(n) && !Signed(NatToString(n))
  {
    DigitsUnsigned(NatToString(n));
  }

  /** Unsigned parts no longer than their widths are each padded with '0' characters, then joined. */
  lemma PaddedPair(s: string, c: string)
    requires |s| <= 2 && |c| <= 3 && !Signed(s) && !Signed(c)
    ensures ZFill(s, 2) + ZFill(c, 3) == Zeros(2 - |s|) + s + Zeros(3 - |c|) + c
  {
    ZFillUnsigned(s, 2);
    ZFillUnsigned(c, 3);
    var zs, zc := Zeros(2 - |s|), Zeros(3 - |c|);
    assert (zs + s) + (zc + c) == zs + s + zc + c;
  }

  /** Two digit runs of lengths 2 and 3 read together as one five-digit number. */
  lemma DigitKey(a: string, b: string, x: int, y: int)
    requires |a| == 2 && |b| == 3 && AllDigits(a) && AllDigits(b)
    requires ParseDigits(a) == x && ParseDigits(b) == y
    ensures |a + b| == 5 && AllDigits(a + b)
    ensures ParseInt(a + b) == Some(1000 * x + y)
  {
    ParseDigitsAppend(a, b);
    assert Pow10(3) == 1000;
    ParseIntOfDigits(a + b);
  }

  lemma SplitKey(s: int, c: int)
    requires 0 <= c < 1000
    ensures (1000 * s + c) / 1000 == s
  {
  }

  /** In range, different (state, county) pairs never share an RMA GEOID. */
  lemma RmaGeoidInjective(s1: int, c1: int, s2: int, c2: int, p1: int, p2: int)
    requires 0 <= s1 < 100 && 0 <= c1 < 1000 && 0 <= s2 < 100 && 0 <= c2 < 1000
    ensures RmaGeoid(RmaRow(IntCode(s1), IntCode(c1), p1)) == RmaGeoid(RmaRow(IntCode(s2), IntCode(c2), p2))
            <==> s1 == s2 && c1 == c2
  {
    RmaGeoidFiveDigits(s1, c1, p1);
    RmaGeoidFiveDigits(s2, c2, p2);
    SplitKey(s1, c1);
    SplitKey(s2, c2);
  }

  /**
   * The RMA GEOID does not depend on leading zeros in the input: integer 1
   * and text "01" (or "001" for a county) pad to the same part.
   */
  lemma RmaGeoidIgnoresLeadingZeros(state: nat, county: nat, zs: nat, zc: nat, p: int, q: int)
    requires zs + |NatToString(state)| <= 2 && zc + |NatToString(county)| <= 3
    ensures RmaGeoid(RmaRow(TextCode(Zeros(zs) + NatToString(state)), TextCode(Zeros(zc) + NatToString(county)), p))
            == RmaGeoid(RmaRow(IntCode(state), IntCode(county), q))
  {
    var s, c := NatToString(state), NatToString(county);
    DigitsUnsigned(s);
    DigitsUnsigned(c);
    ZFillIgnoresLeadingZeros(s, zs, 2);
    ZFillIgnoresLeadingZeros(c, zc, 3);
  }

  /** When the API supplies 2- and 3-digit codes, the unpadded NASS key is the padded RMA key. */
  lemma NassGeoidAgreesWithRma(stateCode: string, countyCode: string, value: string, p: int)
    requires |stateCode| == 2 && |countyCode| == 3 && AllDigits(stateCode) && AllDigits(countyCode)
    ensures |NassGeoid(NassRow(stateCode, countyCode, value))| == 5
    ensures NassGeoid(NassRow(stateCode, countyCode, value))
            == RmaGeoid(RmaRow(TextCode(stateCode), TextCode(countyCode), p))
  {
  }

  // ---------------------------------------------------------------------------
  // Lemmas: farm counts

  /** Thousands separators are dropped: "1,234" is 1234. */
  lemma ParseFarmsExample()
    ensures ParseFarms("1,234") == Some(1234)
  {
    assert "1,234" == "1" + "," + "234";
    ParseFarmsIgnoresCommas("1", "234");
    Numeral1234();
    ParseFarmsRoundTrip(1234);
  }

  lemma Numeral1234()
    ensures NatToString(1234) == "1" + "234"
  {
    assert NatToString(12) == "12";
    assert NatToString(123) == "123";
  }

  /** A withheld count, as Quick Stats writes "(D)", makes `astype(int)` raise. */
  lemma ParseFarmsWithheld()
    ensures ParseFarms("(D)") == None
  {
    RemoveAllAbsent("(D)", ',');
    assert !IsDigit("(D)"[0]);
  }

  /** A comma anywhere in the count makes no difference. */
  lemma ParseFarmsIgnoresCommas(a: string, b: string)
    ensures ParseFarms(a + "," + b) == ParseFarms(a + b)
  {
    RemoveAllAppend(a + ",", b, ',');
    RemoveAllAppend(a, ",", ',');
    RemoveAllAppend(a, b, ',');
    assert RemoveAll(",", ',') == "" by {
      assert ","[1..] == "";
    }
    assert RemoveAll(a + ",", ',') == RemoveAll(a, ',');
  }

  /** A count written without separators is read back exactly. */
  lemma ParseFarmsRoundTrip(n: nat)
    ensures ParseFarms(NatToString(n)) == Some(n)
  {
    var s := NatToString(n);
    RemoveAllAbsent(s, ',');
    ParseIntRoundTrip(n);
  }

  // ---------------------------------------------------------------------------
  // Lemmas: the joined table

  /** The RMA totals looked up by GEOID are the per-county sums of the raw rows. */
  lemma RmaLookup(rma: seq<RmaRow>, k: string)
    ensures match Lookup(RmaTotals(rma), GroupKey, k)
            case Some(g) => Some(g.total) == PoliciesIn(rma, k)
            case None => PoliciesIn(rma, k).None?
  {
    var t := RmaTotals(rma);
    match Lookup(t, GroupKey, k)
    case Some(g) =>
      var i :| 0 <= i < |t| && t[i] == g;
      assert k in KeysOf(t) by {
        assert KeysOf(t)[i] == k;
      }
    case None =>
      assert k !in KeysOf(t) by {
        forall i | 0 <= i < |t|
          ensures KeysOf(t)[i] != k
        {
          assert t[i] in t;
        }
      }
  }

  /** With unique NASS keys, the farm table looked up by GEOID agrees with the raw records. */
  lemma FarmLookup(nass: seq<NassRow>, farms: seq<FarmCount>, k: string)
    requires NassFarms(nass) == Ok(farms)
    requires UniqueKeys(nass, NassGeoid)
    ensures match Lookup(farms, FarmKey, k)
            case Some(f) => Some(f.farms) == FarmsIn(nass, k)
            case None => FarmsIn(nass, k).None?
  {
    match Lookup(farms, FarmKey, k)
    case Some(f) =>
      var j :| 0 <= j < |farms| && farms[j] == f;
      assert NassGeoid(nass[j]) == k;
      assert nass[j] in nass;
      var r := Lookup(nass, NassGeoid, k).value;
      var j' :| 0 <= j' < |nass| && nass[j'] == r;
      assert j == j';
    case None =>
      assert Lookup(nass, NassGeoid, k).None? by {
        forall x | x in nass
          ensures NassGeoid(x) != k
        {
          var j :| 0 <= j < |nass| && nass[j] == x;
          assert farms[j] in farms;
        }
      }
  }

  lemma FarmKeysUnique(nass: seq<NassRow>, farms: seq<FarmCount>)
    requires NassFarms(nass) == Ok(farms)
    requires UniqueKeys(nass, NassGeoid)
    ensures UniqueKeys(farms, FarmKey)
  {
  }

  /**
   * The state outlines the transform keeps are, in order, the given outlines
   * whose `STUSPS` belongs to some continental county of the raw county table,
   * each as often as the state table has it.
   */
  lemma CropPipelineStates(rma: seq<RmaRow>, nass: seq<NassRow>, counties: seq<County>, states: seq<StateShape>)
    requires CropPipeline(rma, nass, counties, states).Ok?
    ensures var out := CropPipeline(rma, nass, counties, states).value.states;
            && Subsequence(out, states)
            && forall s :: multiset(out)[s]
                 == if exists c :: c in counties && InContinentalUs(c) && c.stusps == s.stusps
                    then multiset(states)[s] else 0
  {
    var kept := ContinentalCounties(counties).value;
    var out := CropPipeline(rma, nass, counties, states).value.states;
    assert out == StatesWithCounties(states, kept);
    forall s: StateShape
      ensures (exists c :: c in kept && c.stusps == s.stusps)
              <==> (exists c :: c in counties && InContinentalUs(c) && c.stusps == s.stusps)
    {
      if c :| c in counties && InContinentalUs(c) && c.stusps == s.stusps {
        var i :| 0 <= i < |counties| && counties[i] == c;
        assert c in kept;
      }
    }
  }

  /**
   * With unique NASS keys the merged table has exactly one row per continental
   * county, in order. Each row holds that county's policy sum and farm count as
   * the raw tables give them (missing when the county is absent there), and
   * `policies_per_farm` from those two.
   */
  lemma CropPipelineRows(rma: seq<RmaRow>, nass: seq<NassRow>, counties: seq<County>, states: seq<StateShape>)
    requires CropPipeline(rma, nass, counties, states).Ok?
    requires UniqueKeys(nass, NassGeoid)
    ensures var out := CropPipeline(rma, nass, counties, states).value.counties;
            var kept := ContinentalCounties(counties).value;
            && |out| == |kept|
            && forall i :: 0 <= i < |kept| ==>
                 && out[i].county == kept[i]
                 && out[i].policiesSoldTotal == PoliciesIn(rma, kept[i].geoid)
                 && out[i].farms == FarmsIn(nass, kept[i].geoid)
                 && out[i].policiesPerFarm == PoliciesPerFarm(out[i].policiesSoldTotal, out[i].farms)
    ensures CropPipeline(rma, nass, counties, states).value.states
            == StatesWithCounties(states, ContinentalCounties(counties).value)
  {
    var totals := RmaTotals(rma);
    var farms := NassFarms(nass).value;
    var kept := ContinentalCounties(counties).value;
    FarmKeysUnique(nass, farms);
    var withPolicies := LeftJoin(kept, CountyKey, totals, GroupKey);
    LeftJoinUniqueKeys(kept, CountyKey, totals, GroupKey);
    var withFarms := LeftJoin(withPolicies, WithPoliciesKey, farms, FarmKey);
    LeftJoinUniqueKeys(withPolicies, WithPoliciesKey, farms, FarmKey);
    var out := CropPipeline(rma, nass, counties, states).value.counties;
    assert out == JoinAndDerive(kept, totals, farms);
    forall i | 0 <= i < |kept|
      ensures out[i].county == kept[i]
      ensures out[i].policiesSoldTotal == PoliciesIn(rma, kept[i].geoid)
      ensures out[i].farms == FarmsIn(nass, kept[i].geoid)
      ensures out[i].policiesPerFarm == PoliciesPerFarm(out[i].policiesSoldTotal, out[i].farms)
    {
      var k := kept[i].geoid;
      assert withFarms[i] == (withPolicies[i], Lookup(farms, FarmKey, k));
      assert out[i] == ToMapRow(withFarms[i]);
      RmaLookup(rma, k);
      FarmLookup(nass, farms, k);
    }
  }

  // The scenario below: two Alabama counties and one Alaska county; only
  // Autauga ("01001") has RMA policies (10) and a NASS farm count (5).

  lemma SmallNumerals()
    ensures NatToString(1) == "1" && NatToString(2) == "2" && NatToString(3) == "3"
    ensures NatToString(5) == "5" && NatToString(13) == "13"
    ensures Zeros(1) == "0" && Zeros(2) == "00"
  {
  }

  lemma ExampleKey1001()
    ensures RmaGeoid(RmaRow(IntCode(1), IntCode(1), 10)) == "01001"
    ensures ParseInt("01001") == Some(1001)
  {
    SmallNumerals();
    RmaGeoidFiveDigits(1, 1, 10);
    RmaGeoidPadded(1, 1, 10);
    assert "01001" == Zeros(1) + "1" + Zeros(2) + "1";
  }

  lemma ExampleKey1003()
    ensures ParseInt("01003") == Some(1003)
  {
    SmallNumerals();
    RmaGeoidFiveDigits(1, 3, 10);
    RmaGeoidPadded(1, 3, 10);
    assert "01003" == Zeros(1) + "1" + Zeros(2) + "3";
  }

  lemma ExampleKey2013()
    ensures ParseInt("02013") == Some(2013)
  {
    SmallNumerals();
    RmaGeoidFiveDigits(2, 13, 10);
    RmaGeoidPadded(2, 13, 10);
    assert "02013" == Zeros(1) + "2" + Zeros(1) + "13";
  }

  lemma ExampleTotals()
    ensures RmaTotals([RmaRow(IntCode(1), IntCode(1), 10)]) == [Group("01001", 10)]
  {
    ExampleKey1001();
    var rows := [RmaRow(IntCode(1), IntCode(1), 10)];
    assert rows[..0] == [];
    assert GroupSum(rows, RmaGeoid, PoliciesSold) == AddTo([], "01001", 10);
  }

  lemma ExampleFarms()
    ensures NassFarms([NassRow("01", "001", "5")]) == Ok([FarmCount("01001", 5)])
  {
    var rows := [NassRow("01", "001", "5")];
    ParseFarmsRoundTrip(5);
    SmallNumerals();
    assert ParseFarms(rows[0].value) == Some(5);
    assert NassGeoid(rows[0]) == "01001";
    assert rows[1..] == [];
    assert NassFarms(rows[1..]) == Ok([]);
    assert NassFarms(rows) == Ok([FarmCount(NassGeoid(rows[0]), 5)] + []);
    assert [FarmCount(NassGeoid(rows[0]), 5)] + [] == [FarmCount("01001", 5)];
  }

  lemma FilterKeepsTwoOfThree<T>(a: T, b: T, c: T, keep: T -> bool)
    requires keep(a) && keep(b) && !keep(c)
    ensures Filter([a, b, c], keep) == [a, b]
  {
    assert [a, b, c][1..] == [b, c];
    assert [b, c][1..] == [c];
    assert [c][1..] == [];
    assert Filter([c], keep) == [];
    assert Filter([b, c], keep) == [b] + [];
    assert Filter([a, b, c], keep) == [a] + [b];
  }

  lemma FilterKeepsFirstOfTwo<T>(a: T, b: T, keep: T -> bool)
    requires keep(a) && !keep(b)
    ensures Filter([a, b], keep) == [a]
  {
    assert [a, b][1..] == [b];
    assert [b][1..] == [];
    assert Filter([b], keep) == [];
    assert Filter([a, b], keep) == [a] + [];
  }

  lemma ExampleGeoidsParse(cs: seq<County>)
    requires cs == [County("01001", "AL"), County("01003", "AL"), County("02013", "AK")]
    ensures !exists i :: 0 <= i < |cs| && ParseInt(cs[i].geoid).None?
  {
    assert ParseInt(cs[0].geoid).Some? by {
      ExampleKey1001();
    }
    assert ParseInt(cs[1].geoid).Some? by {
      ExampleKey1003();
    }
    assert ParseInt(cs[2].geoid).Some? by {
      ExampleKey2013();
    }
  }

  lemma ExampleCounties()
    ensures ContinentalCounties([County("01001", "AL"), County("01003", "AL"), County("02013", "AK")])
            == Ok([County("01001", "AL"), County("01003", "AL")])
  {
    var cs := [County("01001", "AL"), County("01003", "AL"), County("02013", "AK")];
    assert InContinentalUs(cs[0]) by {
      ExampleKey1001();
    }
    assert InContinentalUs(cs[1]) by {
      ExampleKey1003();
    }
    assert !InContinentalUs(cs[2]);
    FilterKeepsTwoOfThree(cs[0], cs[1], cs[2], InContinentalUs);
    ExampleGeoidsParse(cs);
    assert ContinentalCounties(cs) == Ok(Filter(cs, InContinentalUs));
  }

  lemma ExampleStates()
    ensures StatesWithCounties([StateShape("AL"), StateShape("AK")], [County("01001", "AL"), County("01003", "AL")])
            == [StateShape("AL")]
  {
    var kept := [County("01001", "AL"), County("01003", "AL")];
    var states := [StateShape("AL"), StateShape("AK")];
    var present := set c | c in kept :: c.stusps;
    assert present == {"AL"};
    var keep := (s: StateShape) => s.stusps in present;
    FilterKeepsFirstOfTwo(states[0], states[1], keep);
  }

  lemma ExamplePolicyJoin()
    ensures LeftJoin([County("01001", "AL"), County("01003", "AL")], CountyKey, [Group("01001", 10)], GroupKey)
            == [(County("01001", "AL"), Some(Group("01001", 10))), (County("01003", "AL"), None)]
  {
    var totals := [Group("01001", 10)];
    assert totals[1..] == [];
    assert Lookup(totals, GroupKey, "01001") == Some(totals[0]);
    assert Lookup(totals, GroupKey, "01003") == None;
    JoinOfTwo(County("01001", "AL"), County("01003", "AL"), CountyKey, totals, GroupKey, totals[0]);
  }

  lemma ExampleFarmJoin()
    ensures LeftJoin([(County("01001", "AL"), Some(Group("01001", 10))), (County("01003", "AL"), None)],
                     WithPoliciesKey, [FarmCount("01001", 5)], FarmKey)
            == [((County("01001", "AL"), Some(Group("01001", 10))), Some(FarmCount("01001", 5))),
                ((County("01003", "AL"), None), None)]
  {
    var farms := [FarmCount("01001", 5)];
    assert farms[1..] == [];
    assert Lookup(farms, FarmKey, "01001") == Some(farms[0]);
    assert Lookup(farms, FarmKey, "01003") == None;
    JoinOfTwo((County("01001", "AL"), Some(Group("01001", 10))), (County("01003", "AL"), None),
              WithPoliciesKey, farms, FarmKey, farms[0]);
  }

  lemma DeriveOfTwo(counties: seq<County>, totals: seq<Group>, farms: seq<FarmCount>,
                    p: ((County, Option<Group>), Option<FarmCount>), q: ((County, Option<Group>), Option<FarmCount>))
    requires LeftJoin(LeftJoin(counties, CountyKey, totals, GroupKey), WithPoliciesKey, farms, FarmKey) == [p, q]
    ensures JoinAndDerive(counties, totals, farms) == [ToMapRow(p), ToMapRow(q)]
  {
    JoinAndDeriveRows(counties, totals, farms);
    DeriveRowsOfTwo(p, q);
  }

  lemma DeriveRowsOfTwo(p: ((County, Option<Group>), Option<FarmCount>), q: ((County, Option<Group>), Option<FarmCount>))
    ensures DeriveRows([p, q]) == [ToMapRow(p), ToMapRow(q)]
  {
    assert DeriveRows([p, q])[0] == ToMapRow(p);
  }

  lemma JoinAndDeriveRows(counties: seq<County>, totals: seq<Group>, farms: seq<FarmCount>)
    ensures JoinAndDerive(counties, totals, farms)
            == DeriveRows(LeftJoin(LeftJoin(counties, CountyKey, totals, GroupKey), WithPoliciesKey, farms, FarmKey))
  {
  }

  lemma ExampleJoin()
    ensures JoinAndDerive([County("01001", "AL"), County("01003", "AL")], [Group("01001", 10)],
                          [FarmCount("01001", 5)])
            == [PolicyMapRow(County("01001", "AL"), Some(10), Some(5), Finite(2.0)),
                PolicyMapRow(County("01003", "AL"), None, None, Finite(0.0))]
  {
    var c0, c1 := County("01001", "AL"), County("01003", "AL");
    var g, f := Group("01001", 10), FarmCount("01001", 5);
    ExamplePolicyJoin();
    ExampleFarmJoin();
    DeriveOfTwo([c0, c1], [g], [f], ((c0, Some(g)), Some(f)), ((c1, None), None));
    ExampleMapRows();
  }

  lemma ExampleMapRows()
    ensures ToMapRow(((County("01001", "AL"), Some(Group("01001", 10))), Some(FarmCount("01001", 5))))
            == PolicyMapRow(County("01001", "AL"), Some(10), Some(5), Finite(2.0))
    ensures ToMapRow(((County("01003", "AL"), None), None)) == PolicyMapRow(County("01003", "AL"), None, None, Finite(0.0))
  {
    assert PoliciesPerFarm(Some(10), Some(5)) == Finite(2.0);
    assert PoliciesPerFarm(None, None) == Finite(0.0);
  }

  /**
   * Two counties, one of them with 10 policies and 5 farms: it gets 2.0, and
   * the county with neither gets 0; Alaska's county and outline are dropped.
   */
  lemma CropPipelineExample()
    ensures CropPipeline([RmaRow(IntCode(1), IntCode(1), 10)],
                         [NassRow("01", "001", "5")],
                         [County("01001", "AL"), County("01003", "AL"), County("02013", "AK")],
                         [StateShape("AL"), StateShape("AK")])
            == Ok(CropMap([PolicyMapRow(County("01001", "AL"), Some(10), Some(5), Finite(2.0)),
                           PolicyMapRow(County("01003", "AL"), None, None, Finite(0.0))],
                          [StateShape("AL")]))
  {
    ExampleTotals();
    ExampleFarms();
    ExampleCounties();
    ExampleStates();
    ExampleJoin();
  }
}
