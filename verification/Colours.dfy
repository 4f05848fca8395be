/** The five background-colour helpers that flask_app/app.py exposes to its templates. Each one
    mirrors a band table of the scorer, but tests for a missing value with `is None` only. */
module Colours {
  import opened Wrappers
  import opened Scoring

  datatype Colour = Gray | Green | Yellow | Red

  /** The colour a template shows for a scorer band. */
  function BandColour(b: Band): Colour {
    match b
    case Missing => Gray
    case Low => Green
    case Mid => Yellow
    case High => Red
  }

  function MmrDeltaBackgroundColor(mmrDelta: Option<real>): (c: Colour)
    ensures c == Gray <==> mmrDelta.None?
    ensures c == Green <==> mmrDelta.Some? && mmrDelta.value <= 300.0
    ensures c == Red <==> mmrDelta.Some? && mmrDelta.value >= 500.0
  {
    if mmrDelta.None? then Gray
    else if mmrDelta.value <= 300.0 then Green
    else if 300.0 < mmrDelta.value < 500.0 then Yellow
    else Red
  }

  function SmurfResultRatioBackgroundColor(ratio: Option<real>): (c: Colour)
    ensures c == Gray <==> ratio.None?
    ensures c == Green <==> ratio.Some? && ratio.value >= 0.95
    ensures c == Red <==> ratio.Some? && ratio.value <= 0.75
  {
    if ratio.None? then Gray
    else if ratio.value >= 0.95 then Green
    else if 0.75 < ratio.value < 0.95 then Yellow
    else Red
  }

  function DurationRatioBackgroundColor(ratio: Option<real>): (c: Colour)
    ensures c == Gray <==> ratio.None?
    ensures c == Green <==> ratio.Some? && ratio.value <= 1.3
    ensures c == Red <==> ratio.Some? && ratio.value >= 1.7
  {
    if ratio.None? then Gray
    else if ratio.value <= 1.3 then Green
    else if 1.3 < ratio.value < 1.7 then Yellow
    else Red
  }

  function SmurfLossPercentBackgroundColor(percent: Option<real>): (c: Colour)
    ensures c == Gray <==> percent.None?
    ensures c == Green <==> percent.Some? && percent.value <= 10.0
    ensures c == Red <==> percent.Some? && percent.value >= 17.5
  {
    if percent.None? then Gray
    else if percent.value <= 10.0 then Green
    else if 10.0 < percent.value < 17.5 then Yellow
    else Red
  }

  function SameRaceLossPercentBackgroundColor(percent: Option<real>): (c: Colour)
    ensures c == Gray <==> percent.None?
    ensures c == Green <==> percent.Some? && percent.value <= 60.0
    ensures c == Red <==> percent.Some? && percent.value >= 70.0
  {
    if percent.None? then Gray
    else if percent.value <= 60.0 then Green
    else if 60.0 < percent.value < 70.0 then Yellow
    else Red
  }

  /** For a present, nonzero value the colour shown is the colour of the band the scorer puts it
      in, for four of the five signals; the smurf-loss percentage differs at exactly 10 only. */
  lemma ColoursAgreeWithScorer(x: real)
    requires x != 0.0
    ensures MmrDeltaBackgroundColor(Some(x)) == BandColour(MmrDeltaBand(Some(x)))
    ensures SmurfResultRatioBackgroundColor(Some(x)) == BandColour(SmurfWinLossRatioBand(Some(x)))
    ensures DurationRatioBackgroundColor(Some(x)) == BandColour(AvgDurationRatioBand(Some(x)))
    ensures SameRaceLossPercentBackgroundColor(Some(x)) == BandColour(SameRaceLossPercentBand(Some(x)))
    ensures SmurfLossPercentBackgroundColor(Some(x)) == BandColour(SmurfLossPercentBand(Some(x))) <==> x != 10.0
  {
  }

  /** At exactly 10 the page shows green while the scorer adds its full point. */
  lemma SmurfLossPercentTenDisagrees()
    ensures SmurfLossPercentBackgroundColor(Some(10.0)) == Green
    ensures SmurfLossPercentBand(Some(10.0)) == High && Points(High) == 1.0
  {
  }

  /** Zero is classified by the colour helpers although the scorer treats it as missing. */
  lemma ZeroIsClassified()
    ensures MmrDeltaBackgroundColor(Some(0.0)) == Green && MmrDeltaBand(Some(0.0)) == Missing
    ensures SmurfResultRatioBackgroundColor(Some(0.0)) == Red && SmurfWinLossRatioBand(Some(0.0)) == Missing
    ensures DurationRatioBackgroundColor(Some(0.0)) == Green && AvgDurationRatioBand(Some(0.0)) == Missing
    ensures SmurfLossPercentBackgroundColor(Some(0.0)) == Green && SmurfLossPercentBand(Some(0.0)) == Missing
    ensures SameRaceLossPercentBackgroundColor(Some(0.0)) == Green && SameRaceLossPercentBand(Some(0.0)) == Missing
  {
  }
}
