# County-keyed joins for agricultural and unemployment maps

This project models, in Dafny, the data preparation behind two choropleth
maps of U.S. counties. Each script builds a five-character county FIPS key
on every table and left-merges the attribute tables onto the county
boundaries. It then derives the column that is plotted.

- `code/Crop_Insurance_Example.py` works as follows:
  - It sums RMA crop-insurance policies per county: a GEOID is made from a
    padded state code and a padded county code, then a `groupby` sum is taken.
  - It reads NASS farm-operation counts. Their GEOID is the two API codes
    joined as given. The counts are text with thousands separators.
  - It keeps the continental-US county boundaries (GEOID below 60000, and
    neither Alaska nor Hawaii). It keeps only the state outlines that still
    have a county.
  - It left-merges policies and farms onto the counties. It computes
    `policies_per_farm = policies / farms` and fills NaN with 0.
- `code/Figures_4_through_6.py` (Figures 5 and 6):
  - It builds `fips` on the county shapefile as `STATEFP + COUNTYFP`.
  - It pads the integer `FIPS_Code` of the unemployment table to 5 characters.
  - It left-merges the unemployment table onto the counties and coerces the
    2021 and 2022 rates with `to_numeric(errors="coerce")`. It takes their
    difference, and a missing value propagates through it.

Modules:

- `Values` holds `Option`, `Result` and `Float`. `Float` is a float64 seen
  as a finite value, ±inf or NaN.
- `Numerals` holds `str(int)`, `int(str)`, decimal text as
  `to_numeric` reads it, and comma removal.
- `Padding` holds Python's `str.zfill`, with its sign rule.
- `StringOrder` holds Python's `<` on `str`. `groupby` orders its keys by it.
- `Frames` holds:
  - the row filter;
  - pandas' left merge, which keeps the left order and yields one row per
    right match, or a single row with a missing side;
  - key lookup;
  - `groupby().sum()`.
- `Metrics` holds `to_numeric`, the difference, pandas' division and
  `fillna`.
- `CropInsurance` and `Unemployment` hold the two scripts' pipelines.

Loading the data, reprojection and plotting are parameters or are left out.
The pipelines begin from the tables as loaded.

Division by zero is done by pandas on the merged columns.
- A nonzero policy count over zero farms is `+inf` (or `-inf`), and
  `fillna(0)` leaves that value alone.
- Only a missing operand, or `0/0` (NaN), becomes 0.
- `Metrics.PoliciesPerFarm` states this, including the infinite case.

`code/Figures_4_through_6.py:54` pads the whole five-digit integer code at
once, rather than padding state and county separately.
`Unemployment.ShapeFipsMeetsRateFips` shows that this equals the shapefile
key of the same county.

## Model

| member | source | states |
|---|---|---|
| Padding.ZFill | code/Crop_Insurance_Example.py:76-77 | `zfill` returns text of length max(width, len). An unsigned input ends the result and is preceded only by '0'. A leading sign stays first, and the zeros go between it and the rest. |
| Padding.ZFillIdempotent | code/Figures_4_through_6.py:54 | Padding an already padded key to the same width changes nothing. |
| Padding.ZFillNat | code/Crop_Insurance_Example.py:76-77 | For 0 <= n < 10^w, `str(n).zfill(w)` has exactly w digits. It reads back as n, and it is `str(n)` after just enough '0' characters. |
| Padding.ZFillIgnoresLeadingZeros | code/Crop_Insurance_Example.py:76-77 | Leading zeros already present in an unsigned code (within the width) do not change the padded result. |
| Numerals.NatToStringRoundTrip | code/Crop_Insurance_Example.py:76-77 | `astype(str)` on a non-negative integer gives a digit run that reads back as the same number. |
| Numerals.ParseIntRoundTrip | code/Crop_Insurance_Example.py:90-91 | `int(str(i)) == i` for every integer, negative ones included. |
| CropInsurance.RmaGeoid | code/Crop_Insurance_Example.py:76-77 | The RMA GEOID is as long as the two padded parts together, and it begins with the padded state code. |
| CropInsurance.RmaGeoidFiveDigits | code/Crop_Insurance_Example.py:76-77 | For a state in [0,99] and a county in [0,999], the GEOID has five characters, all digits, and it reads as 1000·state + county. |
| CropInsurance.RmaGeoidPadded | code/Crop_Insurance_Example.py:76-77 | In that range the GEOID is `str(state)` and `str(county)`, each after exactly enough '0' characters for widths 2 and 3. |
| CropInsurance.RmaGeoidInjective | code/Crop_Insurance_Example.py:76-77 | In that range, two rows share a GEOID exactly when they share both the state code and the county code. |
| CropInsurance.RmaGeoidIgnoresLeadingZeros | code/Crop_Insurance_Example.py:76-77 | Codes given as integers or as text with leading zeros give the same GEOID. |
| Frames.GroupSum | code/Crop_Insurance_Example.py:80-81 | The grouped table has strictly increasing keys (sorted, no duplicates). Its keys are exactly the key values of the rows. Each group's total is the sum of the values of the rows with that key, and the totals add up to the column total. |
| Frames.GroupSumSpec | code/Crop_Insurance_Example.py:80-81 | The table has one group per distinct key. Each group's total is the sum over that key's rows, and no value is lost or counted twice. |
| CropInsurance.RmaTotals | code/Crop_Insurance_Example.py:80-81 | The policy totals have unique GEOIDs. Each GEOID in the raw rows appears, and none other does. Each total is the sum of `policies_sold_total` over the rows with that GEOID. |
| CropInsurance.RmaLookup | code/Crop_Insurance_Example.py:80-81 | Looking up a GEOID in the totals gives the raw rows' sum for it, or missing when no row has that GEOID. |
| CropInsurance.NassGeoid | code/Crop_Insurance_Example.py:86-87 | The NASS GEOID is the state code followed by the county code, unpadded, and each part can be recovered from it. |
| CropInsurance.NassGeoidAgreesWithRma | code/Crop_Insurance_Example.py:86-87 | When the API supplies 2- and 3-digit codes, the unpadded NASS key has five characters and equals the padded RMA key. |
| Numerals.IntToString | code/Crop_Insurance_Example.py:76-77 | `str(i)` is never empty and starts with a sign exactly when i is negative. `Numerals.ParseIntRoundTrip` reads it back as i. |
| Numerals.AsStr | code/Figures_4_through_6.py:54 | `astype(str)` on an integer code gives text that `int()` reads back as the code, with a sign exactly when the code is negative. A text code is kept as written. |
| Numerals.ParseInt | code/Crop_Insurance_Example.py:91 | `int()` accepts text exactly when it is non-empty, starts with a digit or a sign, has only digits after the first character, and holds at least one digit. A negative result comes only from a leading '-'. |
| Numerals.ParseDecimal | code/Figures_4_through_6.py:60-61 | Accepted number text holds at least one digit. Text with a character other than a digit, '.', '+' or '-' is not a number. A negative value comes only from a leading '-'. |
| Numerals.ParseDecimalAccepts | code/Figures_4_through_6.py:60-61 | Text is a number exactly when, after an optional sign, it is digits with at most one '.' and at least one digit. |
| Numerals.ParseDecimalOfParts | code/Figures_4_through_6.py:60-61 | "whole.frac" with at least one digit is read as `DecimalValue(whole, frac)`. |
| Numerals.ParseDecimalOfNegativeParts | code/Figures_4_through_6.py:60-61 | "-whole.frac" is read as the negation of that value. |
| Numerals.DecimalValue | code/Figures_4_through_6.py:60-61 | The value of "whole.frac" is non-negative and lies between the whole part's integer and that integer plus one. |
| Numerals.DecimalValueShift | code/Figures_4_through_6.py:60-61 | The value of "whole.frac", with its point moved right by the fraction's length, is the integer all its digits write: "12.05" is 1205/100. |
| StringOrder.LessIrreflexive | code/Crop_Insurance_Example.py:80 | No key sorts before itself under `groupby`'s key order. |
| StringOrder.LessTransitive | code/Crop_Insurance_Example.py:80 | The key order is transitive. |
| StringOrder.LessTotal | code/Crop_Insurance_Example.py:80 | Any two different keys are ordered one way or the other, so the sorted group keys are determined. |
| CropInsurance.ParseFarms | code/Crop_Insurance_Example.py:90-91 | The model rejects a count with a character other than digits, commas and a sign, standing for `astype(int)` raising. The two differ on the texts the `Numerals.ParseInt` line under Left out lists, in both directions. A count of digits and commas with at least one digit is read as a non-negative number. |
| Numerals.RemoveAll | code/Crop_Insurance_Example.py:90 | `replace(",", "")` leaves no comma. Every other character keeps its count, and the text does not get longer. |
| CropInsurance.ParseFarmsIgnoresCommas | code/Crop_Insurance_Example.py:90-91 | A comma anywhere in a farm count makes no difference to the parsed value. |
| CropInsurance.ParseFarmsRoundTrip | code/Crop_Insurance_Example.py:90-91 | A count written without separators is read back as that count. |
| CropInsurance.ParseFarmsExample | code/Crop_Insurance_Example.py:90-91 | "1,234" is read as 1234. |
| CropInsurance.ParseFarmsWithheld | code/Crop_Insurance_Example.py:90-91 | A withheld count "(D)" does not parse, so `astype(int)` raises. |
| CropInsurance.NassFarms | code/Crop_Insurance_Example.py:86-94 | The farm table succeeds exactly when every count parses. It then has one row per record, in order, holding that record's GEOID and parsed count. Otherwise the script fails. |
| Frames.Filter | code/Crop_Insurance_Example.py:99-101 | A boolean row mask keeps rows in their original order (a subsequence). Every row it keeps satisfies the condition, and every row that satisfies it is kept. |
| Frames.FilterCounts | code/Crop_Insurance_Example.py:99-101 | A row that satisfies the mask occurs in the selection exactly as often as in the table. A row that does not satisfy it does not occur at all. |
| Frames.FilterMultiplicity | code/Crop_Insurance_Example.py:99-101 | The same count, stated for every row at once. |
| CropInsurance.ContinentalCounties | code/Crop_Insurance_Example.py:99-101 | The county filter fails exactly when some GEOID is not an optional sign followed by ASCII digits. This stands for `astype(int)` raising; the two differ on the texts the `Numerals.ParseInt` line under Left out lists, in both directions. Otherwise it keeps, in order, exactly the counties with GEOID < 60000 that are not AK or HI, each as often as the input has it. |
| CropInsurance.StatesWithCounties | code/Crop_Insurance_Example.py:106-107 | The state outlines kept are, in order, exactly those whose `STUSPS` occurs among the kept counties, each as often as the input has it. |
| Frames.Lookup | code/Crop_Insurance_Example.py:112-113 | A key lookup finds nothing exactly when no right row has that key. Otherwise it returns a right row with that key. |
| Frames.LeftJoin | code/Crop_Insurance_Example.py:112-113 | A left merge has at least as many rows as the left table, and every left row appears in it. Every output row pairs a left row with a right row of the same key, or with a missing side. The side is missing exactly when no right row has the key. |
| Frames.LeftJoinUniqueKeys | code/Crop_Insurance_Example.py:112-113 | With unique right keys, the merge has exactly one row per left row, in left order. Each row carries the right row found under its key, or missing. |
| CropInsurance.FarmLookup | code/Crop_Insurance_Example.py:113 | With unique NASS GEOIDs, looking up the farm table agrees with the raw record's parsed count, or is missing when no record has that GEOID. |
| CropInsurance.JoinAndDerive | code/Crop_Insurance_Example.py:112-119 | Every county appears in the merged table, and every row belongs to one of the counties. The policy total is missing exactly when no total has the county's GEOID, and is otherwise the total of one that has it. The same holds for the farm count. `policies_per_farm` is the filled ratio of the two and is never NaN. |
| Metrics.Divide | code/Crop_Insurance_Example.py:116 | The pandas quotient is NaN exactly when an operand is missing or for 0/0. It is +inf or -inf exactly for a positive or negative number over 0. A finite quotient times the denominator is the numerator. |
| Metrics.FillNa | code/Crop_Insurance_Example.py:119 | `fillna` replaces NaN by the fill value and leaves every other value, ±inf included. The result is never NaN. |
| Metrics.PoliciesPerFarm | code/Crop_Insurance_Example.py:116-119 | The result is never NaN. It is 0 exactly when a count is missing or there are no policies. With both counts present and nonzero farms, it is the finite quotient policies/farms. It is +inf exactly for a positive count over zero farms, and -inf exactly for a negative one. |
| Metrics.PoliciesPerFarmExamples | code/Crop_Insurance_Example.py:116-119 | 10/missing and missing/5 are 0, 0/0 is 0, 3/0 is +inf, and 10/5 is 2. |
| CropInsurance.CropPipeline | code/Crop_Insurance_Example.py:76-119 | The whole transform fails exactly when the model's integer reader rejects a farm count or a county GEOID (see the `Numerals.ParseInt` line under Left out). |
| CropInsurance.CropPipelineRows | code/Crop_Insurance_Example.py:76-119 | With unique NASS GEOIDs, the map has one row per continental county, in order. Each row holds the county's raw policy sum and its raw farm count (each missing if absent) and the filled ratio of the two. The state outlines are the state filter applied to the continental counties. |
| CropInsurance.CropPipelineStates | code/Crop_Insurance_Example.py:99-107 | The state outlines the transform keeps are, in order, those whose `STUSPS` belongs to a continental county of the raw county table, each as often as the state table has it. |
| CropInsurance.CropPipelineExample | code/Crop_Insurance_Example.py:76-119 | In a scenario with three counties and two states, Autauga gets 10 policies, 5 farms and 2.0. The other Alabama county gets missing values and 0, and Alaska's county and outline are dropped. |
| Unemployment.ShapeFips | code/Figures_4_through_6.py:48 | The shapefile key is `STATEFP` followed by `COUNTYFP`, and each part can be recovered from it. |
| Unemployment.RateFips | code/Figures_4_through_6.py:54 | The padded unemployment key has length max(5, len(str(code))). |
| Unemployment.RateFipsOfCode | code/Figures_4_through_6.py:54 | For an integer code below 100000, the key has five characters and reads back as the code. It is `str(code)` after just enough '0' characters. |
| Unemployment.RateFipsOfFiveCharacters | code/Figures_4_through_6.py:54 | A code that already has five characters is used as it is. |
| Unemployment.ShapeFipsMeetsRateFips | code/Figures_4_through_6.py:48-54 | A county with 2- and 3-digit shapefile codes has the same key as the integer code with the same digits, padded at once. |
| Metrics.ToNumeric | code/Figures_4_through_6.py:60-61 | Numbers are kept and text is read by `Numerals.ParseDecimal`. A cell becomes missing exactly when it is blank or is text that is not a number. |
| Metrics.ToNumericReadsIntegers | code/Figures_4_through_6.py:60-61 | Integer text is read as that integer. |
| Numerals.ParseDecimalExtendsParseInt | code/Figures_4_through_6.py:60-61 | Text that `int()` accepts is read as the same value by the decimal reader. |
| Numerals.ParseDecimalExample | code/Figures_4_through_6.py:60-61 | "3.5" is 3.5, "-0.25" is -0.25, and "N/A" is missing. |
| Metrics.Difference | code/Figures_4_through_6.py:64 | The change is present exactly when both years are present, and then (in exact arithmetic) the 2021 rate plus the change is the 2022 rate. No fill value is used. |
| Unemployment.ChangeRule | code/Figures_4_through_6.py:60-64 | For a matched county, the change exists exactly when both coerced rates exist, and then it is the 2022 rate minus the 2021 rate. |
| Unemployment.UnemploymentMap | code/Figures_4_through_6.py:57-64 | Every county appears on the map, under its own key, and every row belongs to one of the counties. A county that no table row matches has all rates and the change missing. Otherwise it has the coerced rates of a table row with its key. The change is present exactly when both rates are. |
| Unemployment.UnemploymentMapRows | code/Figures_4_through_6.py:57-64 | With unique `fips` in the unemployment table, there is one row per county, in order, with the county's key. An unmatched county has missing rates and change. A matched county has its row's coerced rates and their difference. |
| Unemployment.UnemploymentMapExample | code/Figures_4_through_6.py:48-64 | Autauga (integer code 1001, 3.5 as text in 2021, 3.0 in 2022) gets key "01001" and a change of -0.5. A county with no row gets all missing. |

## Left out

- Reading files and URLs, the RMA download and the NASS Quick Stats request (API key, query parameters, JSON decoding) are left out. The pipelines start from the loaded tables.
- Reprojection (`to_crs`), geometry, colormaps, plotting and saving figures are left out. County and state boundaries keep only their key columns.
- Figure 4's boxplots of random data do not feed the maps, so they are not modelled.
- Numerals.ParseInt: accepts only an optional sign followed by ASCII digits. Python's `int()` also allows surrounding whitespace, `_` separators and non-ASCII decimal digits such as "١٢". None of these are modelled. Also, `astype(int)` casts to int64 and raises OverflowError outside [-2^63, 2^63). The model's integers are unbounded, so it accepts such text: a 20-digit farm count or GEOID parses here where the script raises.
- Numerals.ParseDecimal: reads only an optional sign, digits and one optional fractional part. `to_numeric` also accepts exponents, "inf", "nan" and surrounding whitespace.
- Metrics.Divide: the quotient is an exact rational, not a float64. Rounding is not modelled.
- Metrics.ToNumeric: rates are exact reals, so "0.1" is read as exactly 1/10. float64 rounding when pandas parses text is not modelled.
- Metrics.Difference: the change is the exact difference of two reals. float64 subtraction can round, so `b + (a - b) == a` need not hold for floats (a = 1e-17, b = 1.0 gives 0.0). Rounding is not modelled.
- Frames.LeftJoin: when the right table repeats a key, the exact row count and order are not given. The contract gives that every left row appears, what each row pairs it with, and the exact rows and order under unique right keys (`Frames.LeftJoinUniqueKeys`).
- CropInsurance.CropPipelineRows: requires unique NASS GEOIDs. With repeats, pandas would emit one row per match; the general merge contract still covers that case.
- Unemployment.UnemploymentMapRows: requires unique `fips` in the unemployment table, for the same reason.
- Unemployment.UnemploymentMap: the merge has no `on=`, so pandas joins on every shared column. The model takes `fips` to be the only shared column.
- CropInsurance.RmaTotals: `policies_sold_total` is taken to be an integer on every row. A missing value there is not modelled. pandas' int64 group sum can wrap around; the model's sum is exact.
- Unemployment.RateFips: the key's text is `str` of the cell as loaded. A `FIPS_Code` column that pandas reads as floats (text such as "1001.0") is a text code here and is not converted.
