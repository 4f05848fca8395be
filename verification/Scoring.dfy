/** The smurf scorer of app/matches.py (`get_smurf_score` and its inner `_qual`): five signals are
    each mapped through a fixed threshold table to a partial score, the partial scores are summed,
    and the sum is mapped to a qualitative label. */
module Scoring {
  import opened Wrappers

  /** A signal as the scorer receives it: absent (`None`) or a number. */
  type Signal = Option<real>

  /** Python truthiness of a numeric signal: `None` and `0` are both falsy. */
  predicate Truthy(x: Signal) {
    x.Some? && x.value != 0.0
  }

  /** Which branch of a signal's if-chain was taken. */
  datatype Band = Missing | Low | Mid | High

  /** The partial score of a band, counted in quarter points. */
  function Quarters(b: Band): nat {
    match b
    case Missing => 1
    case Low => 0
    case Mid => 2
    case High => 4
  }

  /** The partial score of a band: 0.25 when the signal is falsy, else 0, 0.5 or 1. */
  function Points(b: Band): (r: real)
    ensures r == 0.0 || r == 0.25 || r == 0.5 || r == 1.0
    ensures r == 0.25 <==> b == Missing
  {
    Quarters(b) as real / 4.0
  }

  /** Rating delta: at most 300 is low, strictly between 300 and 500 is mid. */
  function MmrDeltaBand(x: Signal): (b: Band)
    ensures b == Missing <==> !Truthy(x)
    ensures b == Low <==> Truthy(x) && x.value <= 300.0
    ensures b == High <==> Truthy(x) && x.value >= 500.0
  {
    if !Truthy(x) then Missing
    else if x.value <= 300.0 then Low
    else if 300.0 < x.value < 500.0 then Mid
    else High
  }

  /** Short-game win:loss ratio: at least 0.95 is low, strictly between 0.75 and 0.95 is mid. */
  function SmurfWinLossRatioBand(x: Signal): (b: Band)
    ensures b == Missing <==> !Truthy(x)
    ensures b == Low <==> Truthy(x) && x.value >= 0.95
    ensures b == High <==> Truthy(x) && x.value <= 0.75
  {
    if !Truthy(x) then Missing
    else if x.value >= 0.95 then Low
    else if 0.75 < x.value < 0.95 then Mid
    else High
  }

  /** Win:loss average duration ratio: at most 1.3 is low, strictly between 1.3 and 1.7 is mid. */
  function AvgDurationRatioBand(x: Signal): (b: Band)
    ensures b == Missing <==> !Truthy(x)
    ensures b == Low <==> Truthy(x) && x.value <= 1.3
    ensures b == High <==> Truthy(x) && x.value >= 1.7
  {
    if !Truthy(x) then Missing
    else if x.value <= 1.3 then Low
    else if 1.3 < x.value < 1.7 then Mid
    else High
  }

  /** Share of losses that were short games: strictly below 10 is low, strictly between 10 and
      17.5 is mid; exactly 10 falls through both tests into the high band. */
  function SmurfLossPercentBand(x: Signal): (b: Band)
    ensures b == Missing <==> !Truthy(x)
    ensures b == Low <==> Truthy(x) && x.value < 10.0
    ensures b == High <==> Truthy(x) && (x.value == 10.0 || x.value >= 17.5)
  {
    if !Truthy(x) then Missing
    else if x.value < 10.0 then Low
    else if 10.0 < x.value < 17.5 then Mid
    else High
  }

  /** Share of same-race games that were lost: at most 60 is low, strictly between 60 and 70 is mid. */
  function SameRaceLossPercentBand(x: Signal): (b: Band)
    ensures b == Missing <==> !Truthy(x)
    ensures b == Low <==> Truthy(x) && x.value <= 60.0
    ensures b == High <==> Truthy(x) && x.value >= 70.0
  {
    if !Truthy(x) then Missing
    else if x.value <= 60.0 then Low
    else if 60.0 < x.value < 70.0 then Mid
    else High
  }

  datatype Qual = Unlikely | Possible | Likely | Definitely

  /** The labels in increasing order of suspicion. */
  function Rank(q: Qual): nat {
    match q
    case Unlikely => 0
    case Possible => 1
    case Likely => 2
    case Definitely => 3
  }

  /** `_qual`: the label of a summed score. */
  function QualOf(count: real): (q: Qual)
    ensures q == Unlikely <==> count < 2.0
    ensures q == Possible <==> 2.0 <= count < 2.75
    ensures q == Likely <==> 2.75 <= count <= 3.5
    ensures q == Definitely <==> count > 3.5
  {
    if count < 2.0 then Unlikely
    else if 2.0 <= count < 2.75 then Possible
    else if 2.75 <= count <= 3.5 then Likely
    else Definitely
  }

  /** A higher score never gets a less suspicious label. */
  lemma QualMonotone(a: real, b: real)
    requires a <= b
    ensures Rank(QualOf(a)) <= Rank(QualOf(b))
  {
  }

  /** The five partial scores in quarter points, in the order the source adds them. */
  function TotalQuarters(mmrDelta: Signal, smurfWinLossRatio: Signal, avgDurationRatio: Signal,
                         smurfLossPercent: Signal, sameRaceLossPercent: Signal): nat
  {
    Quarters(MmrDeltaBand(mmrDelta)) + Quarters(SmurfWinLossRatioBand(smurfWinLossRatio))
    + Quarters(AvgDurationRatioBand(avgDurationRatio)) + Quarters(SmurfLossPercentBand(smurfLossPercent))
    + Quarters(SameRaceLossPercentBand(sameRaceLossPercent))
  }

  /** `get_smurf_score`: the summed partial scores, and the label of the sum. */
  function SmurfScore(mmrDelta: Signal, smurfWinLossRatio: Signal, avgDurationRatio: Signal,
                      smurfLossPercent: Signal, sameRaceLossPercent: Signal): (r: (real, Qual))
    ensures 0.0 <= r.0 <= 5.0
    ensures (r.0 * 4.0).Floor as real == r.0 * 4.0
    ensures r.1 == QualOf(r.0)
  {
    var q := TotalQuarters(mmrDelta, smurfWinLossRatio, avgDurationRatio, smurfLossPercent, sameRaceLossPercent);
    var count := q as real / 4.0;
    assert count * 4.0 == q as real;
    (count, QualOf(count))
  }

  /** The score is the running total `count` of the source: the sum of the five partial scores. */
  lemma ScoreIsSumOfPoints(a: Signal, b: Signal, c: Signal, d: Signal, e: Signal)
    ensures SmurfScore(a, b, c, d, e).0
            == Points(MmrDeltaBand(a)) + Points(SmurfWinLossRatioBand(b)) + Points(AvgDurationRatioBand(c))
               + Points(SmurfLossPercentBand(d)) + Points(SameRaceLossPercentBand(e))
  {
  }

  /** With every signal missing, each contributes a quarter point. */
  lemma AllMissingScore()
    ensures SmurfScore(None, None, None, None, None) == (1.25, Unlikely)
  {
  }

  /** A zero signal is treated exactly like a missing one. */
  lemma ZeroIsMissing()
    ensures MmrDeltaBand(Some(0.0)) == MmrDeltaBand(None) == Missing
    ensures SmurfWinLossRatioBand(Some(0.0)) == SmurfWinLossRatioBand(None) == Missing
    ensures AvgDurationRatioBand(Some(0.0)) == AvgDurationRatioBand(None) == Missing
    ensures SmurfLossPercentBand(Some(0.0)) == SmurfLossPercentBand(None) == Missing
    ensures SameRaceLossPercentBand(Some(0.0)) == SameRaceLossPercentBand(None) == Missing
  {
  }

  /** Where the thresholds themselves fall: each boundary value lands in the top band. */
  lemma BoundariesAsWritten()
    ensures MmrDeltaBand(Some(500.0)) == High
    ensures SmurfWinLossRatioBand(Some(0.75)) == High
    ensures SmurfLossPercentBand(Some(10.0)) == High
    ensures AvgDurationRatioBand(Some(1.7)) == High
    ensures SameRaceLossPercentBand(Some(70.0)) == High
    ensures MmrDeltaBand(Some(300.0)) == Low && SmurfWinLossRatioBand(Some(0.95)) == Low
    ensures AvgDurationRatioBand(Some(1.3)) == Low && SameRaceLossPercentBand(Some(60.0)) == Low
  {
  }

  /** Two worked inputs: (500, 0.95, 1.3, 10, 60) scores 2.0 ("Possible"), because 500 and 10
      both reach the top band and the other three reach none; (501, 0.5, 2.0, 20, 80) reaches the
      top band five times. */
  lemma ScoreExamples()
    ensures SmurfScore(Some(500.0), Some(0.95), Some(1.3), Some(10.0), Some(60.0)) == (2.0, Possible)
    ensures SmurfScore(Some(501.0), Some(0.5), Some(2.0), Some(20.0), Some(80.0)) == (5.0, Definitely)
  {
  }

}
