/**
 * The dashboard's figures: how many shows, how many are still ahead, the
 * money collected and the mean travel distance, for all rows and for each
 * artist, plus the short list of the next eight shows.
 */
module Dashboard {
  import opened Wrappers
  import opened JsString
  import opened JsNumber
  import opened Seqs
  import opened Shows

  // ---------------------------------------------------------------------
  // safe

  /** `safe(n)`: the number when it is finite, 0 for null, undefined, NaN
      and the infinities. */
  function Safe(a: Amount): (x: real)
    ensures x != 0.0 ==> a.Some? && a.value.Finite?
    ensures a.Some? && a.value.Finite? ==> x == a.value.value
  {
    match a
    case Some(Finite(v)) => v
    case _ => 0.0
  }

  // ---------------------------------------------------------------------
  // Dates

  /** A local calendar day as `new Date(year, monthIndex, day)` receives it:
      `monthIndex` counts from 0. */
  datatype CalendarDate = CalendarDate(year: int, monthIndex: int, day: int)

  /** `a >= b` on the midnights of two days. */
  predicate OnOrAfter(a: CalendarDate, b: CalendarDate) {
    a.year > b.year
    || (a.year == b.year && a.monthIndex > b.monthIndex)
    || (a.year == b.year && a.monthIndex == b.monthIndex && a.day >= b.day)
  }

  /** The integer part, as the `Date` constructor takes it from each
      argument (rounding toward zero). */
  function Truncate(v: real): int {
    if v >= 0.0 then v.Floor else -((-v).Floor)
  }

  /** The `Date` constructor reads years 0 to 99 as 1900 to 1999. */
  function FullYear(y: int): int {
    if 0 <= y <= 99 then 1900 + y else y
  }

  /** `Number(t)` for the `k`-th piece of the split, NaN when it is missing. */
  function Part(parts: seq<string>, k: nat): Number {
    if k < |parts| then ToNumber(parts[k]) else NonFinite
  }

  /** A component `!y` lets through and that gives a valid date: finite and
      not zero. (An infinite component passes `!y` but makes an Invalid
      Date, which compares false with every day; `None` has that effect.) */
  predicate Usable(n: Number) {
    n.Finite? && n.value != 0.0
  }

  /** `parseDateYYYYMMDD(s)`: `null` for a missing or empty string or when a
      component is missing, zero or not a number; otherwise the day built
      from year, month - 1 and day. */
  function ParseDate(s: Option<string>): (d: Option<CalendarDate>)
    ensures s == None || s == Some([]) ==> d == None
  {
    if s.None? || s.value == [] then None else FromParts(Split(s.value, '-'))
  }

  /** The converted first three pieces (NaN for a missing one). */
  function FromParts(parts: seq<string>): Option<CalendarDate> {
    FromNumbers(Part(parts, 0), Part(parts, 1), Part(parts, 2))
  }

  /** `new Date(y, m - 1, d)` when `!y || !m || !d` lets the three numbers
      through. */
  function FromNumbers(y: Number, m: Number, d: Number): Option<CalendarDate> {
    if Usable(y) && Usable(m) && Usable(d) then
      Some(CalendarDate(FullYear(Truncate(y.value)), Truncate(m.value - 1.0), Truncate(d.value)))
    else None
  }

  /** A text of three digit groups joined by '-' parses to exactly that day
      (month counted from 0), provided no group is zero. */
  lemma ParseDateDigits(y: string, m: string, d: string)
    requires y != [] && AllDigits(y) && DigitsValue(y) > 0
    requires m != [] && AllDigits(m) && DigitsValue(m) > 0
    requires d != [] && AllDigits(d) && DigitsValue(d) > 0
    ensures ParseDate(Some(y + "-" + m + "-" + d))
         == Some(CalendarDate(FullYear(DigitsValue(y)), DigitsValue(m) - 1, DigitsValue(d)))
  {
    NotInDigits(y, '-');
    NotInDigits(m, '-');
    NotInDigits(d, '-');
    var parts := [y, m, d];
    JoinThree(y, m, d, '-');
    SplitJoin(parts, '-');
    FromDigitParts(y, m, d);
  }

  /** Three pieces of digits, none of them zero, build that day. */
  lemma FromDigitParts(y: string, m: string, d: string)
    requires y != [] && AllDigits(y) && DigitsValue(y) > 0
    requires m != [] && AllDigits(m) && DigitsValue(m) > 0
    requires d != [] && AllDigits(d) && DigitsValue(d) > 0
    ensures FromParts([y, m, d])
         == Some(CalendarDate(FullYear(DigitsValue(y)), DigitsValue(m) - 1, DigitsValue(d)))
  {
    var parts := [y, m, d];
    PartOfDigits(parts, 0);
    PartOfDigits(parts, 1);
    PartOfDigits(parts, 2);
    FromWholeNumbers(DigitsValue(y), DigitsValue(m), DigitsValue(d));
  }

  /** Non-zero whole numbers build the day they name. */
  lemma FromWholeNumbers(y: int, m: int, d: int)
    requires y != 0 && m != 0 && d != 0
    ensures FromNumbers(Finite(y as real), Finite(m as real), Finite(d as real))
         == Some(CalendarDate(FullYear(y), m - 1, d))
  {
    TruncateWhole(y);
    TruncateWhole(d);
    TruncateWhole(m - 1);
    assert m as real - 1.0 == (m - 1) as real;
  }

  /** A piece made of digits converts to their value. */
  lemma PartOfDigits(parts: seq<string>, k: nat)
    requires k < |parts| && parts[k] != [] && AllDigits(parts[k])
    ensures Part(parts, k) == Finite(DigitsValue(parts[k]) as real)
  {
    ToNumberDigits(parts[k]);
  }

  /** A whole number is its own integer part. */
  lemma TruncateWhole(n: int)
    ensures Truncate(n as real) == n
  {
  }

  /** What makes the parse give `null`: fewer than three pieces, a piece that
      is blank, or a piece of digits that are all zero. */
  lemma ParseDateRejects(s: string)
    ensures |Split(s, '-')| < 3 ==> ParseDate(Some(s)) == None
    ensures forall k :: 0 <= k < 3 && k < |Split(s, '-')| && Trim(Split(s, '-')[k]) == []
              ==> ParseDate(Some(s)) == None
    ensures forall k :: 0 <= k < 3 && k < |Split(s, '-')| && Split(s, '-')[k] != []
              && AllDigits(Split(s, '-')[k]) && DigitsValue(Split(s, '-')[k]) == 0
              ==> ParseDate(Some(s)) == None
  {
    var parts := Split(s, '-');
    if |parts| < 3 {
      UnusablePartRejects(s, 2);
    }
    forall k | 0 <= k < 3 && k < |parts| && Trim(parts[k]) == []
      ensures ParseDate(Some(s)) == None
    {
      TrimEmptyIffBlank(parts[k]);
      ToNumberBlank(parts[k]);
      UnusablePartRejects(s, k);
    }
    forall k | 0 <= k < 3 && k < |parts| && parts[k] != [] && AllDigits(parts[k]) && DigitsValue(parts[k]) == 0
      ensures ParseDate(Some(s)) == None
    {
      ToNumberDigits(parts[k]);
      UnusablePartRejects(s, k);
    }
  }

  /** One unusable component among the first three is enough for `null`. */
  lemma UnusablePartRejects(s: string, k: nat)
    requires k < 3 && !Usable(Part(Split(s, '-'), k))
    ensures ParseDate(Some(s)) == None
  {
    var parts := Split(s, '-');
    if s != [] {
      assert ParseDate(Some(s)) == FromNumbers(Part(parts, 0), Part(parts, 1), Part(parts, 2));
      if k == 0 {
        assert !Usable(Part(parts, 0));
      } else if k == 1 {
        assert !Usable(Part(parts, 1));
      } else {
        assert k == 2;
        assert !Usable(Part(parts, 2));
      }
    }
  }

  /** The pieces are split at '-', so none of them is negative: a parsed day
      has a year from 100 on and a month index and day from 0 on. */
  lemma ParseDateNonNegative(s: Option<string>)
    ensures ParseDate(s).Some? ==>
      ParseDate(s).value.year >= 100 && ParseDate(s).value.monthIndex >= 0 && ParseDate(s).value.day >= 0
  {
    if ParseDate(s).Some? {
      var parts := Split(s.value, '-');
      ToNumberNoMinus(parts[0]);
      ToNumberNoMinus(parts[1]);
      ToNumberNoMinus(parts[2]);
    }
  }

  /** A row counts as upcoming when its date parses to today or later.
      `today` is `startOfToday()`: the caller's local day. */
  predicate IsUpcoming(r: ShowRow, today: CalendarDate) {
    var dt := ParseDate(r.showDate);
    dt.Some? && OnOrAfter(dt.value, today)
  }

  /** The rows that are still ahead, in query order. */
  function UpcomingRows(rows: seq<ShowRow>, today: CalendarDate): seq<ShowRow> {
    Filter(rows, (r: ShowRow) => IsUpcoming(r, today))
  }

  /** A show dated "y-m-d" counts as upcoming exactly on the days up to
      and including its own: it counts on its day, not on any later day; a
      show without a date never counts. */
  lemma UpcomingBoundary(r: ShowRow, y: string, m: string, d: string)
    requires y != [] && AllDigits(y) && DigitsValue(y) > 0
    requires m != [] && AllDigits(m) && DigitsValue(m) > 0
    requires d != [] && AllDigits(d) && DigitsValue(d) > 0
    ensures var day := CalendarDate(FullYear(DigitsValue(y)), DigitsValue(m) - 1, DigitsValue(d));
      r.showDate == Some(y + "-" + m + "-" + d) ==>
        IsUpcoming(r, day)
        && (forall today :: IsUpcoming(r, today) <==> OnOrAfter(day, today))
        && (forall today :: OnOrAfter(today, day) && today != day ==> !IsUpcoming(r, today))
    ensures r.showDate == None ==> forall today :: !IsUpcoming(r, today)
  {
    ParseDateDigits(y, m, d);
  }

  // ---------------------------------------------------------------------
  // computeMetrics

  datatype Metrics = Metrics(
    totalShows: nat,
    upcoming: nat,
    ingresos: real,
    adelantos: real,
    viaticos: real,
    kmAvg: real)

  /** `safe` of one money column, as a function of the row. */
  function SafeMoney(field: MoneyField): ShowRow -> real {
    (r: ShowRow) => Safe(MoneyAmount(r, field))
  }

  /** `rows.reduce((acc, r) => acc + safe(r.<field>), 0)` */
  function MoneySum(rows: seq<ShowRow>, field: MoneyField): real {
    SumBy(rows, SafeMoney(field))
  }

  function KmOf(r: ShowRow): real {
    Safe(r.kmDistance)
  }

  predicate IsPositive(x: real) {
    x > 0.0
  }

  /** `rows.map((r) => safe(r.km_distance)).filter((x) => x > 0)` */
  function KmValues(rows: seq<ShowRow>): seq<real> {
    Filter(Map(rows, KmOf), IsPositive)
  }

  /** The mean of the positive distances, 0 when there are none. */
  function KmAvg(rows: seq<ShowRow>): real {
    var v := KmValues(rows);
    if |v| > 0 then Sum(v) / |v| as real else 0.0
  }

  /** The mean distance is never negative, and it is positive exactly when
      some row has a positive distance. */
  lemma KmAvgSign(rows: seq<ShowRow>)
    ensures KmAvg(rows) >= 0.0
    ensures KmAvg(rows) > 0.0 <==> exists i :: 0 <= i < |rows| && KmOf(rows[i]) > 0.0
  {
    var v := KmValues(rows);
    KmValuesPositive(rows);
    SumPositive(v);
    KmValuesNonEmpty(rows);
  }

  /** Every kept distance is positive. */
  lemma KmValuesPositive(rows: seq<ShowRow>)
    ensures forall i :: 0 <= i < |KmValues(rows)| ==> KmValues(rows)[i] > 0.0
  {
    var v := KmValues(rows);
    forall i | 0 <= i < |v|
      ensures v[i] > 0.0
    {
      assert IsPositive(v[i]);
    }
  }

  /** Some distance is kept exactly when some row has a positive one. */
  lemma KmValuesNonEmpty(rows: seq<ShowRow>)
    ensures KmValues(rows) != [] <==> exists i :: 0 <= i < |rows| && KmOf(rows[i]) > 0.0
  {
    var m := Map(rows, KmOf);
    var v := KmValues(rows);
    FilterMembers(m, IsPositive);
    if i :| 0 <= i < |rows| && KmOf(rows[i]) > 0.0 {
      assert m[i] in m && IsPositive(m[i]);
      assert m[i] in v;
    }
    if v != [] {
      assert v[0] in v;
      var j :| 0 <= j < |m| && m[j] == v[0];
      assert KmOf(rows[j]) > 0.0;
    }
  }

  /** `computeMetrics(rows)` for the day `today`. */
  function ComputeMetrics(rows: seq<ShowRow>, today: CalendarDate): (m: Metrics)
    ensures m.totalShows == |rows|
    ensures m.upcoming <= m.totalShows
    ensures m.kmAvg >= 0.0
  {
    Metrics(
      |rows|,
      |UpcomingRows(rows, today)|,
      MoneySum(rows, ShowCost),
      MoneySum(rows, AdvancePaid),
      MoneySum(rows, Viaticos),
      KmAvgSign(rows); KmAvg(rows))
  }

  /** `upcoming` counts exactly the upcoming rows: each row is counted as
      many times as it occurs when it is upcoming, and not at all otherwise. */
  lemma UpcomingCountsExactly(rows: seq<ShowRow>, today: CalendarDate, r: ShowRow)
    ensures multiset(UpcomingRows(rows, today))[r]
         == if IsUpcoming(r, today) then multiset(rows)[r] else 0
  {
    FilterMultiplicity(rows, (r: ShowRow) => IsUpcoming(r, today), r);
  }

  /** A money sum over two batches of rows is the sum of the two sums. */
  lemma MoneySumAppend(a: seq<ShowRow>, b: seq<ShowRow>, field: MoneyField)
    ensures MoneySum(a + b, field) == MoneySum(a, field) + MoneySum(b, field)
  {
    SumByAppend(a, b, SafeMoney(field));
  }

  /** A money sum adds the finite amounts and nothing else: a row with a
      missing or non-finite amount adds 0. */
  lemma MoneySumIgnoresUnusable(rows: seq<ShowRow>, r: ShowRow, field: MoneyField)
    requires MoneyAmount(r, field).None? || MoneyAmount(r, field).value.NonFinite?
    ensures MoneySum(rows + [r], field) == MoneySum(rows, field)
  {
    MoneySumAppend(rows, [r], field);
    assert [r][1..] == [];
    assert MoneySum([r], field) == SafeMoney(field)(r) + MoneySum([], field);
  }

  /** Distances that are zero, negative, missing or non-finite leave the
      mean unchanged: they are in neither its numerator nor its
      denominator. */
  lemma KmAvgIgnoresNonPositive(rows: seq<ShowRow>, r: ShowRow)
    requires KmOf(r) <= 0.0
    ensures KmValues(rows + [r]) == KmValues(rows)
    ensures KmAvg(rows + [r]) == KmAvg(rows)
  {
    MapAppend(rows, [r], KmOf);
    FilterAppend(Map(rows, KmOf), Map([r], KmOf), IsPositive);
    assert Map([r], KmOf) == [KmOf(r)];
    assert Filter([KmOf(r)], IsPositive) == [];
    assert Map(rows, KmOf) + [] == Map(rows, KmOf);
  }

  /** When some distance is positive, the mean lies between the smallest and
      the largest positive distance. */
  lemma KmAvgBounds(rows: seq<ShowRow>)
    ensures KmValues(rows) == [] ==> KmAvg(rows) == 0.0
    ensures KmValues(rows) != [] ==> Min(KmValues(rows)) <= KmAvg(rows) <= Max(KmValues(rows))
  {
    if KmValues(rows) != [] {
      MeanBounds(KmValues(rows), Min(KmValues(rows)), Max(KmValues(rows)));
    }
  }

  /** A row that only carries a distance and a show cost. */
  function AmountsRow(km: Amount, cost: Amount): ShowRow {
    ShowRow("", None, None, None, None, None, km, cost, None, None)
  }

  /** Four rows: distances 100, 0, null and 50; costs null, NaN, 500 and
      null. */
  function ExampleRows(): seq<ShowRow> {
    [AmountsRow(Some(Finite(100.0)), None), AmountsRow(Some(Finite(0.0)), Some(NonFinite)),
     AmountsRow(None, Some(Finite(500.0))), AmountsRow(Some(Finite(50.0)), None)]
  }

  /** Distances 100, 0, null and 50 average to 75: the 0 and the null are
      not counted. Costs null, NaN and 500 add up to 500. */
  lemma MetricsExample(today: CalendarDate)
    ensures ComputeMetrics(ExampleRows(), today).kmAvg == 75.0
    ensures ComputeMetrics(ExampleRows(), today).ingresos == 500.0
  {
    ExampleKmValues();
    assert Sum([50.0]) == 50.0;
    assert Sum([100.0, 50.0]) == 150.0;
    ExampleCost();
  }

  /** Only the distances 100 and 50 of the example are counted. */
  lemma ExampleKmValues()
    ensures KmValues(ExampleRows()) == [100.0, 50.0]
  {
    assert Map(ExampleRows(), KmOf) == [100.0, 0.0, 0.0, 50.0];
    ExamplePositive();
  }

  /** Of 100, 0, 0 and 50, the positive values are 100 and 50. */
  lemma ExamplePositive()
    ensures Filter([100.0, 0.0, 0.0, 50.0], IsPositive) == [100.0, 50.0]
  {
    var m := [100.0, 0.0, 0.0, 50.0];
    assert m[1..] == [0.0, 0.0, 50.0] && m[2..] == [0.0, 50.0] && m[3..] == [50.0];
    assert Filter([50.0], IsPositive) == [50.0];
    assert Filter([0.0, 50.0], IsPositive) == [50.0];
    assert Filter([0.0, 0.0, 50.0], IsPositive) == [50.0];
  }

  /** The example's costs add up to 500. */
  lemma ExampleCost()
    ensures MoneySum(ExampleRows(), ShowCost) == 500.0
  {
    var rows := ExampleRows();
    assert rows[1..][1..][1..][1..] == [];
  }

  /** The metrics do not depend on the order of the rows. */
  lemma MetricsIgnoreOrder(rows: seq<ShowRow>, other: seq<ShowRow>, today: CalendarDate)
    requires multiset(rows) == multiset(other)
    ensures ComputeMetrics(rows, today) == ComputeMetrics(other, today)
  {
    assert |rows| == |multiset(rows)| == |other|;
    FilterPermutation(rows, other, (r: ShowRow) => IsUpcoming(r, today));
    SumByPermutation(rows, other, SafeMoney(ShowCost));
    SumByPermutation(rows, other, SafeMoney(AdvancePaid));
    SumByPermutation(rows, other, SafeMoney(Viaticos));
    MapPermutation(rows, other, KmOf);
    FilterPermutation(Map(rows, KmOf), Map(other, KmOf), IsPositive);
    SumByPermutation(KmValues(rows), KmValues(other), (x: real) => x);
  }

  // ---------------------------------------------------------------------
  // The artist partitions

  predicate IsJeyf(r: ShowRow) {
    r.artist == Some(JEYF)
  }

  predicate IsElgudi(r: ShowRow) {
    r.artist == Some(ELGUDI)
  }

  predicate HasNoArtist(r: ShowRow) {
    r.artist == None
  }

  /** `shows.filter((s) => s.artist === "JEYF")` */
  function JeyfRows(rows: seq<ShowRow>): seq<ShowRow> {
    Filter(rows, IsJeyf)
  }

  /** `shows.filter((s) => s.artist === "ELGUDI")` */
  function ElgudiRows(rows: seq<ShowRow>): seq<ShowRow> {
    Filter(rows, IsElgudi)
  }

  /** The rows neither artist card shows. */
  function NoArtistRows(rows: seq<ShowRow>): seq<ShowRow> {
    Filter(rows, HasNoArtist)
  }

  /** No row is in both artist partitions. */
  lemma PartitionsDisjoint(rows: seq<ShowRow>)
    ensures multiset(JeyfRows(rows)) * multiset(ElgudiRows(rows)) == multiset{}
  {
    var a, b := multiset(JeyfRows(rows)), multiset(ElgudiRows(rows));
    forall x ensures (a * b)[x] == 0 {
      FilterMultiplicity(rows, IsJeyf, x);
      FilterMultiplicity(rows, IsElgudi, x);
    }
    assert a * b == multiset{};
  }

  /** Every row is in exactly one of the two artist partitions or has no
      artist: the counts and each money sum add up to those of all rows. */
  lemma {:induction false} PartitionsAddUp(rows: seq<ShowRow>, field: MoneyField)
    ensures |JeyfRows(rows)| + |ElgudiRows(rows)| + |NoArtistRows(rows)| == |rows|
    ensures MoneySum(JeyfRows(rows), field) + MoneySum(ElgudiRows(rows), field)
            + MoneySum(NoArtistRows(rows), field) == MoneySum(rows, field)
  {
    if rows != [] {
      var x, rest := rows[0], rows[1..];
      PartitionsAddUp(rest, field);
      assert rows == [x] + rest;
      var g := SafeMoney(field);
      assert MoneySum(rows, field) == g(x) + MoneySum(rest, field);
      match x.artist
      case Some(JEYF) =>
        assert JeyfRows(rows) == [x] + JeyfRows(rest);
        assert MoneySum(JeyfRows(rows), field) == g(x) + MoneySum(JeyfRows(rest), field);
      case Some(ELGUDI) =>
        assert ElgudiRows(rows) == [x] + ElgudiRows(rest);
        assert MoneySum(ElgudiRows(rows), field) == g(x) + MoneySum(ElgudiRows(rest), field);
      case None =>
        assert NoArtistRows(rows) == [x] + NoArtistRows(rest);
        assert MoneySum(NoArtistRows(rows), field) == g(x) + MoneySum(NoArtistRows(rest), field);
    }
  }

  /** The per-artist cards count no more shows than the total, and their
      money sums add up to the total once the rows without an artist are
      added. */
  lemma ArtistMetricsAddUp(rows: seq<ShowRow>, today: CalendarDate)
    ensures ComputeMetrics(JeyfRows(rows), today).totalShows
          + ComputeMetrics(ElgudiRows(rows), today).totalShows
         <= ComputeMetrics(rows, today).totalShows
    ensures ComputeMetrics(JeyfRows(rows), today).ingresos
          + ComputeMetrics(ElgudiRows(rows), today).ingresos
          + MoneySum(NoArtistRows(rows), ShowCost)
         == ComputeMetrics(rows, today).ingresos
  {
    PartitionsAddUp(rows, ShowCost);
  }

  // ---------------------------------------------------------------------
  // The next eight shows

  /** `shows.filter(upcoming).slice(0, 8)` */
  function UpcomingTop8(rows: seq<ShowRow>, today: CalendarDate): (top: seq<ShowRow>)
    ensures |top| <= 8
  {
    Take(UpcomingRows(rows, today), 8)
  }

  /** The short list holds the first eight upcoming rows (all of them when
      there are fewer), each of them upcoming, in query order. */
  lemma UpcomingTop8Spec(rows: seq<ShowRow>, today: CalendarDate)
    ensures UpcomingTop8(rows, today) == UpcomingRows(rows, today)[..|UpcomingTop8(rows, today)|]
    ensures |UpcomingTop8(rows, today)| == if |UpcomingRows(rows, today)| < 8 then |UpcomingRows(rows, today)| else 8
    ensures forall i :: 0 <= i < |UpcomingTop8(rows, today)| ==>
      IsUpcoming(UpcomingTop8(rows, today)[i], today) && UpcomingTop8(rows, today)[i] in rows
    ensures IsSubsequence(UpcomingTop8(rows, today), rows)
  {
    var up := UpcomingRows(rows, today);
    var top := UpcomingTop8(rows, today);
    FilterIsSubsequence(rows, (r: ShowRow) => IsUpcoming(r, today));
    FilterMembers(rows, (r: ShowRow) => IsUpcoming(r, today));
    SubsequencePrefix(up, rows, |top|);
    forall i | 0 <= i < |top|
      ensures IsUpcoming(top[i], today) && top[i] in rows
    {
      assert top[i] == up[i];
      assert up[i] in up;
    }
  }
}
