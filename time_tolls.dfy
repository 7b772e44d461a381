/** `calculate_time_based_toll_rates`: a `time_based_toll` column that starts
    at 0 and, for each of three time bands, gains the band's factor times the
    distance on weekday records that start at or after the band's start and
    end at or before its end, then gains 0.7 times the distance on every
    weekend record. Days are day names, times are seconds after midnight.
    The day names are first put through a parse that turns every one of them
    into Monday, so as written no record is a weekend record. */
module TimeTolls {

  datatype Day = Monday | Tuesday | Wednesday | Thursday | Friday | Saturday | Sunday

  /** A `datetime.time` at whole-second precision. */
  type Seconds = t: int | 0 <= t < 86400

  /** 10:00:00, 18:00:00 and 23:59:59 as seconds after midnight. */
  const TenOClock := 36000
  const SixPm := 64800
  const LastSecond := 86399

  datatype TimedRecord = TimedRecord(distance: real, startDay: Day, startTime: Seconds,
                                     endDay: Day, endTime: Seconds)

  /** One entry of `time_ranges`: start, end and factor. */
  datatype Band = Band(lo: int, hi: int, factor: real)

  const TimeRanges: seq<Band> := [
    Band(0, TenOClock, 0.8),
    Band(TenOClock, SixPm, 1.2),
    Band(SixPm, LastSecond, 0.8)
  ]

  const WeekendDiscountFactor: real := 0.7

  predicate IsWeekday(d: Day) {
    d in {Monday, Tuesday, Wednesday, Thursday, Friday}
  }

  predicate IsWeekend(d: Day) {
    d in {Saturday, Sunday}
  }

  /** `weekday_mask` for one band. */
  predicate WeekdayMatch(r: TimedRecord, b: Band) {
    r.startTime >= b.lo && r.endTime <= b.hi && IsWeekday(r.startDay)
  }

  /** What one pass of the band loop adds to a record's toll: the weekday
      update, then the weekend update. */
  function BandContribution(r: TimedRecord, b: Band): real {
    (if WeekdayMatch(r, b) then b.factor * r.distance else 0.0) +
    (if IsWeekend(r.startDay) then WeekendDiscountFactor * r.distance else 0.0)
  }

  /** The toll of r after the first k passes of the band loop. */
  function TollAfterBands(r: TimedRecord, k: nat): real
    requires k <= |TimeRanges|
  {
    if k == 0 then 0.0 else TollAfterBands(r, k - 1) + BandContribution(r, TimeRanges[k - 1])
  }

  function TimeBasedToll(r: TimedRecord): real {
    TollAfterBands(r, |TimeRanges|)
  }

  /** `strptime(x, '%A')` followed by `strftime('%A')`. The parse keeps only
      the year, month, day and time of what it reads; a bare weekday name sets
      none of them, so the date is the default 1900-01-01, a Monday, and every
      name comes back as "Monday". */
  function ParsedDay(d: Day): Day {
    Monday
  }

  /** A record with its days as the `start_day` and `end_day` columns hold
      them after parsing. */
  function Parsed(r: TimedRecord): TimedRecord {
    r.(startDay := ParsedDay(r.startDay), endDay := ParsedDay(r.endDay))
  }

  /** The value each record has in the column once the loop is done: the
      band loop reads the parsed start day. */
  function TimeBasedTollColumn(records: seq<TimedRecord>): seq<real> {
    seq(|records|, i requires 0 <= i < |records| => TimeBasedToll(Parsed(records[i])))
  }

  lemma TimeBasedTollUnfolds(r: TimedRecord)
    ensures TimeBasedToll(r) == BandContribution(r, TimeRanges[0]) +
      BandContribution(r, TimeRanges[1]) + BandContribution(r, TimeRanges[2])
  {
    assert TollAfterBands(r, 1) == BandContribution(r, TimeRanges[0]);
    assert TollAfterBands(r, 2) == TollAfterBands(r, 1) + BandContribution(r, TimeRanges[1]);
  }

  /** Sum of the factors of the bands the record's times fall into. */
  function MatchedFactors(r: TimedRecord, bands: seq<Band>): real {
    if |bands| == 0 then 0.0
    else
      MatchedFactors(r, bands[..|bands| - 1]) +
      (var b := bands[|bands| - 1]; if r.startTime >= b.lo && r.endTime <= b.hi then b.factor else 0.0)
  }

  /** A weekend record gains 0.7 times its distance on each of the three
      passes, whatever its times. This is the intended toll of a record whose
      day name is kept; the parse in front of the loop never lets a record
      reach it. */
  lemma WeekendToll(r: TimedRecord)
    requires IsWeekend(r.startDay)
    ensures TimeBasedToll(r) == 2.1 * r.distance
  {
    TimeBasedTollUnfolds(r);
  }

  /** A weekday record pays its distance times the sum of the factors of
      every band that holds both its start and its end time. */
  lemma WeekdayToll(r: TimedRecord)
    requires IsWeekday(r.startDay)
    ensures TimeBasedToll(r) == r.distance * MatchedFactors(r, TimeRanges)
  {
    TimeBasedTollUnfolds(r);
    var bs := TimeRanges;
    assert bs[..2] == [bs[0], bs[1]];
    assert bs[..2][..1] == [bs[0]];
    assert bs[..2][..1][..0] == [];
    var f0 := if WeekdayMatch(r, bs[0]) then bs[0].factor else 0.0;
    var f1 := if WeekdayMatch(r, bs[1]) then bs[1].factor else 0.0;
    var f2 := if WeekdayMatch(r, bs[2]) then bs[2].factor else 0.0;
    assert MatchedFactors(r, [bs[0]]) == f0;
    assert MatchedFactors(r, [bs[0], bs[1]]) == f0 + f1;
    assert MatchedFactors(r, bs) == f0 + f1 + f2;
    assert r.distance * (f0 + f1 + f2) == f0 * r.distance + f1 * r.distance + f2 * r.distance;
  }

  /** The bands of an interval that runs forward in time: at most one
      matches and the record pays that band's factor, or nothing when the
      interval crosses a band boundary. */
  function BandOf(s: int, e: int): (f: real)
    requires s < e
    ensures f == 0.0 || f == 0.8 || f == 1.2
  {
    if e <= TenOClock then 0.8
    else if TenOClock <= s && e <= SixPm then 1.2
    else if SixPm <= s && e <= LastSecond then 0.8
    else 0.0
  }

  /** With start before end at most one band matches, so a weekday record
      pays exactly the factor of the band that holds its interval. */
  lemma ForwardIntervalMatchesOneBand(r: TimedRecord)
    requires IsWeekday(r.startDay) && r.startTime < r.endTime
    ensures forall i, j :: 0 <= i < j < |TimeRanges| ==>
      !(WeekdayMatch(r, TimeRanges[i]) && WeekdayMatch(r, TimeRanges[j]))
    ensures TimeBasedToll(r) == r.distance * BandOf(r.startTime, r.endTime)
  {
    TimeBasedTollUnfolds(r);
  }

  /** A weekday record starting and ending at 10:00:00 lies in the first two
      bands and collects 0.8 + 1.2. */
  lemma TenOClockInstant(r: TimedRecord)
    requires IsWeekday(r.startDay) && r.startTime == r.endTime == TenOClock
    ensures TimeBasedToll(r) == 2.0 * r.distance
  {
    TimeBasedTollUnfolds(r);
  }

  /** A weekday record from the evening into the next morning, such as
      18:00:00 to 09:00:00, lies in all three bands, the middle one included,
      and collects 0.8 + 1.2 + 0.8. */
  lemma OvernightCollectsAllBands(r: TimedRecord)
    requires IsWeekday(r.startDay)
    requires SixPm <= r.startTime && r.endTime <= TenOClock
    ensures TimeBasedToll(r) == 2.8 * r.distance
  {
    TimeBasedTollUnfolds(r);
  }

  /** A weekday record that runs forward across 10:00:00 or 18:00:00 pays
      nothing. */
  lemma UnmatchedWeekdayIsFree(r: TimedRecord)
    requires IsWeekday(r.startDay)
    requires (r.startTime < TenOClock < r.endTime) || (r.startTime < SixPm < r.endTime)
    ensures TimeBasedToll(r) == 0.0
  {
    TimeBasedTollUnfolds(r);
  }

  /** The bands only read the times. */
  lemma {:induction false} MatchedFactorsReadTimes(r: TimedRecord, s: TimedRecord, bands: seq<Band>)
    requires r.startTime == s.startTime && r.endTime == s.endTime
    ensures MatchedFactors(r, bands) == MatchedFactors(s, bands)
  {
    if |bands| > 0 {
      MatchedFactorsReadTimes(r, s, bands[..|bands| - 1]);
    }
  }

  /** With the parse as written every record counts as a Monday one: it pays
      its distance times the factors of the bands holding its times, whatever
      its day, and never the weekend factor. */
  lemma ParsedTollIsBandsOnly(r: TimedRecord)
    ensures TimeBasedToll(Parsed(r)) == r.distance * MatchedFactors(r, TimeRanges)
  {
    WeekdayToll(Parsed(r));
    MatchedFactorsReadTimes(Parsed(r), r, TimeRanges);
  }

  /** The whole column as written: every entry is the record's distance times
      the factors of its matching bands. */
  lemma ParsedColumnIsBandsOnly(records: seq<TimedRecord>)
    ensures |TimeBasedTollColumn(records)| == |records|
    ensures forall i :: 0 <= i < |records| ==>
      TimeBasedTollColumn(records)[i] == records[i].distance * MatchedFactors(records[i], TimeRanges)
  {
    forall i | 0 <= i < |records|
      ensures TimeBasedTollColumn(records)[i] == records[i].distance * MatchedFactors(records[i], TimeRanges)
    {
      ParsedTollIsBandsOnly(records[i]);
    }
  }

  /** A Saturday record from 10:00:00 to 10:00:00 over distance 10 pays 20
      after the parse, through the first two weekday bands, where the weekend
      factor would give 21. */
  lemma SaturdayPaysWeekdayBands()
    ensures var r := TimedRecord(10.0, Saturday, TenOClock, Saturday, TenOClock);
      TimeBasedToll(Parsed(r)) == 20.0 && TimeBasedToll(r) == 21.0
  {
    var r := TimedRecord(10.0, Saturday, TenOClock, Saturday, TenOClock);
    TenOClockInstant(Parsed(r));
    WeekendToll(r);
  }

  /** `end_day` is parsed but plays no part in the toll. */
  lemma EndDayIgnored(r: TimedRecord, d: Day)
    ensures TimeBasedToll(r.(endDay := d)) == TimeBasedToll(r)
  {
    TimeBasedTollUnfolds(r);
    TimeBasedTollUnfolds(r.(endDay := d));
  }

  /** The table with the parsed day columns and the toll column. */
  class TimedTable {
    var records: seq<TimedRecord>
    var startDay: seq<Day>
    var endDay: seq<Day>
    var timeBasedToll: seq<real>

    constructor (records: seq<TimedRecord>)
      ensures this.records == records && startDay == [] && endDay == [] && timeBasedToll == []
    {
      this.records := records;
      startDay, endDay := [], [];
      timeBasedToll := [];
    }

    /** The two day columns parsed, the column set to 0.0, then the band loop
        with its two masked additions per band, both reading `start_day`. */
    method CalculateTimeBasedTollRates()
      modifies this
      ensures records == old(records)
      ensures |startDay| == |records| && |endDay| == |records|
      ensures forall i :: 0 <= i < |records| ==>
        startDay[i] == ParsedDay(records[i].startDay) && endDay[i] == ParsedDay(records[i].endDay)
      ensures timeBasedToll == TimeBasedTollColumn(records)
    {
      var rs := records;
      startDay := seq(|rs|, i requires 0 <= i < |rs| => ParsedDay(rs[i].startDay));
      endDay := seq(|rs|, i requires 0 <= i < |rs| => ParsedDay(rs[i].endDay));
      var days := startDay;
      timeBasedToll := seq(|rs|, i => 0.0);
      var k := 0;
      while k < |TimeRanges|
        invariant 0 <= k <= |TimeRanges|
        invariant records == rs && startDay == days
        invariant |endDay| == |rs| && forall i :: 0 <= i < |rs| ==> endDay[i] == ParsedDay(rs[i].endDay)
        invariant |timeBasedToll| == |rs|
        invariant forall i :: 0 <= i < |rs| ==> timeBasedToll[i] == TollAfterBands(Parsed(rs[i]), k)
      {
        var b := TimeRanges[k];
        var toll := timeBasedToll;
        timeBasedToll := seq(|rs|, i requires 0 <= i < |rs| =>
          if rs[i].startTime >= b.lo && rs[i].endTime <= b.hi && IsWeekday(days[i])
          then toll[i] + b.factor * rs[i].distance else toll[i]);
        toll := timeBasedToll;
        timeBasedToll := seq(|rs|, i requires 0 <= i < |rs| =>
          if IsWeekend(days[i]) then toll[i] + WeekendDiscountFactor * rs[i].distance else toll[i]);
        k := k + 1;
      }
    }
  }
}
