/**
  Subordinate tide stations have no harmonic constants of their own: their
  heights and extremum times are derived from a reference harmonic station by
  a height multiplier and a time offset.  SubordinateCalculator in the app holds
  a read-only map from station id to offset record; every operation here is a
  lookup in that map followed by a closed case analysis.
*/
module SubordinateCalculator {
  import opened Wrappers
  import opened Reals

  type StationId = string

  /** A Kotlin `Int` (32-bit, signed). */
  type Int32 = x: int | -0x8000_0000 <= x < 0x8000_0000

  /** The slack threshold of TideHeight: a fixed positive rate whose value is not part of this model. */
  type PositiveReal = t: real | t > 0.0 witness 1.0

  /** java.time.Instant, to the second: epoch seconds within Instant.MIN .. Instant.MAX. */
  const InstantMinSecond: int := -31557014167219200
  const InstantMaxSecond: int := 31556889864403199
  type Instant = s: int | InstantMinSecond <= s <= InstantMaxSecond

  /** Offset record of one subordinate station. */
  datatype SubordinateOffset = SubordinateOffset(
    referenceStationId: StationId,
    timeOffsetHigh: Int32,     // minutes, signed
    timeOffsetLow: Int32,      // minutes, signed
    heightOffsetHigh: real,    // multiplier applied near high water
    heightOffsetLow: real)     // multiplier applied near low water

  /** The calculator's only state: station id to offset record. */
  type Offsets = map<StationId, SubordinateOffset>

  datatype ExtremumType = High | Low

  /** The three tide phases that select a multiplier. */
  datatype TidePhase = Slack | Rising | Falling

  /** A station is subordinate exactly when it has an offset record. */
  function IsSubordinateStation(offsets: Offsets, stationId: StationId): (b: bool)
    ensures b <==> GetReferenceStationId(offsets, stationId).Some?
  {
    stationId in offsets
  }

  /** The reference station of a subordinate station, or None (Kotlin null) for any other station. */
  function GetReferenceStationId(offsets: Offsets, stationId: StationId): (r: Option<StationId>)
    ensures r.Some? <==> stationId in offsets
    ensures r.Some? ==> r.value == offsets[stationId].referenceStationId
  {
    if stationId in offsets then Some(offsets[stationId].referenceStationId) else None
  }

  /**
    The phase read off the reference station's rate: slack strictly inside the
    threshold band, rising from +threshold up, falling from -threshold down.
  */
  function PhaseOf(slackThreshold: PositiveReal, referenceRate: real): (p: TidePhase)
    ensures p == Slack <==> -(slackThreshold as real) < referenceRate < slackThreshold
    ensures p == Rising <==> referenceRate >= slackThreshold
    ensures p == Falling <==> referenceRate <= -(slackThreshold as real)
  {
    if Abs(referenceRate) < slackThreshold then Slack
    else if referenceRate > 0.0 then Rising
    else Falling
  }

  /**
    The height multiplier for a station at a given reference rate: 1.0 for a
    station without an offset record; otherwise the mean of the two
    multipliers at slack water, the high-water multiplier on a rising tide and
    the low-water multiplier on a falling tide.
  */
  function GetHeightMultiplier(offsets: Offsets, slackThreshold: PositiveReal,
                               stationId: StationId, referenceRate: real): (m: real)
    ensures stationId !in offsets ==> m == 1.0
    ensures stationId in offsets && -(slackThreshold as real) < referenceRate < slackThreshold ==>
      m == (offsets[stationId].heightOffsetHigh + offsets[stationId].heightOffsetLow) / 2.0
    ensures stationId in offsets && referenceRate >= slackThreshold ==>
      m == offsets[stationId].heightOffsetHigh
    ensures stationId in offsets && referenceRate <= -(slackThreshold as real) ==>
      m == offsets[stationId].heightOffsetLow
  {
    if stationId !in offsets then 1.0
    else
      var offset := offsets[stationId];
      match PhaseOf(slackThreshold, referenceRate)
      case Slack => (offset.heightOffsetHigh + offset.heightOffsetLow) / 2.0
      case Rising => offset.heightOffsetHigh
      case Falling => offset.heightOffsetLow
  }

  /** The multiplier never leaves the range spanned by the two offsets (or is 1.0 for an unknown station). */
  lemma MultiplierBounded(offsets: Offsets, slackThreshold: PositiveReal, stationId: StationId, referenceRate: real)
    ensures var m := GetHeightMultiplier(offsets, slackThreshold, stationId, referenceRate);
      if stationId in offsets then
        Min(offsets[stationId].heightOffsetHigh, offsets[stationId].heightOffsetLow) <= m
        && m <= Max(offsets[stationId].heightOffsetHigh, offsets[stationId].heightOffsetLow)
      else m == 1.0
  {
  }

  /** Within the slack band the multiplier does not depend on the rate: there is no jump as the rate crosses zero. */
  lemma MultiplierConstantAtSlack(offsets: Offsets, slackThreshold: PositiveReal,
                                  stationId: StationId, rate1: real, rate2: real)
    requires -(slackThreshold as real) < rate1 < slackThreshold
    requires -(slackThreshold as real) < rate2 < slackThreshold
    ensures GetHeightMultiplier(offsets, slackThreshold, stationId, rate1)
         == GetHeightMultiplier(offsets, slackThreshold, stationId, rate2)
  {
  }

  /** Swapping the high and low multipliers of a station and reversing the rate gives the same multiplier. */
  lemma MultiplierMirror(offsets: Offsets, slackThreshold: PositiveReal, stationId: StationId, referenceRate: real)
    requires stationId in offsets
    ensures var o := offsets[stationId];
      var swapped := offsets[stationId := o.(heightOffsetHigh := o.heightOffsetLow, heightOffsetLow := o.heightOffsetHigh)];
      GetHeightMultiplier(swapped, slackThreshold, stationId, -referenceRate)
        == GetHeightMultiplier(offsets, slackThreshold, stationId, referenceRate)
  {
  }

  /** An example: multipliers 1.2 / 0.8, threshold 0.05, rates +-0.2, 0.01, 0 and +-0.05. */
  lemma MultiplierExamples(offsets: Offsets, stationId: StationId)
    requires stationId in offsets
    requires offsets[stationId].heightOffsetHigh == 1.2 && offsets[stationId].heightOffsetLow == 0.8
    ensures GetHeightMultiplier(offsets, 0.05, stationId, 0.2) == 1.2
    ensures GetHeightMultiplier(offsets, 0.05, stationId, -0.2) == 0.8
    ensures GetHeightMultiplier(offsets, 0.05, stationId, 0.01) == 1.0
    ensures GetHeightMultiplier(offsets, 0.05, stationId, 0.0) == 1.0
    ensures GetHeightMultiplier(offsets, 0.05, stationId, 0.05) == 1.2
    ensures GetHeightMultiplier(offsets, 0.05, stationId, -0.05) == 0.8
  {
  }

  /** h * m lies between h * a and h * b whenever m lies between a and b. */
  lemma ScaleBetween(h: real, a: real, b: real, m: real)
    requires Min(a, b) <= m <= Max(a, b)
    ensures Min(h * a, h * b) <= h * m <= Max(h * a, h * b)
  {
    var lo, hi := Min(a, b), Max(a, b);
    assert lo <= m <= hi;
    assert h * m - h * lo == h * (m - lo);
    assert h * hi - h * m == h * (hi - m);
    if h >= 0.0 {
      MulNonNegative(h, m - lo);
      MulNonNegative(h, hi - m);
      assert h * lo <= h * m <= h * hi;
    } else {
      MulNonNegative(-h, m - lo);
      MulNonNegative(-h, hi - m);
      assert h * hi <= h * m <= h * lo;
    }
  }

  lemma MulNonNegative(x: real, y: real)
    requires x >= 0.0 && y >= 0.0
    ensures x * y >= 0.0
  {
  }

  /**
    The subordinate height: the reference height scaled by the multiplier.
    It is the reference height itself for a station without an offset record
    and otherwise lies between the reference height scaled by either offset.
  */
  function ApplyHeightOffset(offsets: Offsets, slackThreshold: PositiveReal, stationId: StationId,
                             referenceHeight: real, referenceRate: real): (h: real)
    ensures h == referenceHeight * GetHeightMultiplier(offsets, slackThreshold, stationId, referenceRate)
    ensures stationId !in offsets ==> h == referenceHeight
    ensures stationId in offsets ==>
      var o := offsets[stationId];
      Min(referenceHeight * o.heightOffsetHigh, referenceHeight * o.heightOffsetLow) <= h
      && h <= Max(referenceHeight * o.heightOffsetHigh, referenceHeight * o.heightOffsetLow)
  {
    var multiplier := GetHeightMultiplier(offsets, slackThreshold, stationId, referenceRate);
    if stationId in offsets then
      MultiplierBounded(offsets, slackThreshold, stationId, referenceRate);
      ScaleBetween(referenceHeight, offsets[stationId].heightOffsetHigh, offsets[stationId].heightOffsetLow, multiplier);
      referenceHeight * multiplier
    else
      referenceHeight * multiplier
  }

  /** The signed offset, in minutes, that applies to an extremum of the given type. */
  function TimeOffsetMinutes(offset: SubordinateOffset, extremumType: ExtremumType): (minutes: Int32)
    ensures extremumType == High ==> minutes == offset.timeOffsetHigh
    ensures extremumType == Low ==> minutes == offset.timeOffsetLow
  {
    match extremumType
    case High => offset.timeOffsetHigh
    case Low => offset.timeOffsetLow
  }

  /**
    The subordinate time of an extremum: the reference time moved by the
    signed offset for the extremum's type, in whole minutes.  A station without
    an offset record keeps the reference time.  Instant.plusSeconds throws when
    the result leaves the Instant range; that is the None result.
  */
  function ApplyTimeOffset(offsets: Offsets, stationId: StationId, extremumType: ExtremumType,
                           referenceTime: Instant): (r: Option<Instant>)
    ensures stationId !in offsets ==> r == Some(referenceTime)
    ensures stationId in offsets ==>
      var shifted := referenceTime + 60 * (if extremumType == High then offsets[stationId].timeOffsetHigh
                                           else offsets[stationId].timeOffsetLow);
      (r.Some? <==> InstantMinSecond <= shifted <= InstantMaxSecond)
      && (r.Some? ==> r.value == shifted)
  {
    if stationId !in offsets then Some(referenceTime)
    else
      var seconds := referenceTime + TimeOffsetMinutes(offsets[stationId], extremumType) * 60;
      if InstantMinSecond <= seconds <= InstantMaxSecond then Some(seconds) else None
  }

  /** Shifting two extrema of the same type keeps their order and their distance. */
  lemma TimeOffsetPreservesOrder(offsets: Offsets, stationId: StationId, extremumType: ExtremumType,
                                 t1: Instant, t2: Instant)
    requires ApplyTimeOffset(offsets, stationId, extremumType, t1).Some?
    requires ApplyTimeOffset(offsets, stationId, extremumType, t2).Some?
    ensures ApplyTimeOffset(offsets, stationId, extremumType, t2).value
          - ApplyTimeOffset(offsets, stationId, extremumType, t1).value == t2 - t1
  {
  }

  /**
    A high followed by a low at the reference station stay in that order at the
    subordinate station exactly when their gap exceeds the difference of the
    two offsets.
  */
  lemma HighLowOrderKept(offsets: Offsets, stationId: StationId, tHigh: Instant, tLow: Instant)
    requires stationId in offsets
    requires ApplyTimeOffset(offsets, stationId, High, tHigh).Some?
    requires ApplyTimeOffset(offsets, stationId, Low, tLow).Some?
    ensures ApplyTimeOffset(offsets, stationId, High, tHigh).value
          < ApplyTimeOffset(offsets, stationId, Low, tLow).value
        <==> tLow - tHigh > 60 * (offsets[stationId].timeOffsetHigh - offsets[stationId].timeOffsetLow)
  {
  }

  /** The doc-comment example: +10 minutes at high water, +15 minutes at low water. */
  lemma TimeOffsetExample(offsets: Offsets, stationId: StationId, t: Instant)
    requires stationId in offsets
    requires offsets[stationId].timeOffsetHigh == 10 && offsets[stationId].timeOffsetLow == 15
    requires t + 900 <= InstantMaxSecond
    ensures ApplyTimeOffset(offsets, stationId, High, t) == Some(t + 600)
    ensures ApplyTimeOffset(offsets, stationId, Low, t) == Some(t + 900)
  {
  }

  /** For a station that is not subordinate the calculator changes nothing. */
  lemma UnknownStationIsNoOp(offsets: Offsets, slackThreshold: PositiveReal, stationId: StationId,
                             referenceHeight: real, referenceRate: real, extremumType: ExtremumType,
                             referenceTime: Instant)
    requires !IsSubordinateStation(offsets, stationId)
    ensures GetReferenceStationId(offsets, stationId) == None
    ensures GetHeightMultiplier(offsets, slackThreshold, stationId, referenceRate) == 1.0
    ensures ApplyHeightOffset(offsets, slackThreshold, stationId, referenceHeight, referenceRate) == referenceHeight
    ensures ApplyTimeOffset(offsets, stationId, extremumType, referenceTime) == Some(referenceTime)
  {
  }
}
