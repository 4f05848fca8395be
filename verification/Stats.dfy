/** The match statistics of app/matches.py (`empty_match_stats`, `get_match_stats`): a list of
    parsed matches is reduced to counts, percentages, average durations and ratios, each guarded
    against a zero denominator, and five of them are handed to the smurf scorer. Numbers are exact:
    Python's floats become reals, and its `round` the round-half-even function below. */
module Stats {
  import opened Wrappers
  import opened Collections
  import opened Static
  import opened Players
  import opened Scoring
  import opened Matches

  // ---------------------------------------------------------------------------------------------
  // Rounding and averaging

  /** `r` is what Python's `round(x)` gives: an integer within 0.5 of `x`, and the even one when
      `x` lies exactly halfway between two integers. */
  predicate IsRoundOf(r: int, x: real) {
    && r as real - 0.5 <= x <= r as real + 0.5
    && ((r as real == x - 0.5 || r as real == x + 0.5) ==> r % 2 == 0)
  }

  /** `r` is what Python's `round(x, 2)` gives: a whole number of hundredths whose count is the
      rounding of `100 * x`. */
  predicate IsRound2Of(r: real, x: real) {
    (r * 100.0).Floor as real == r * 100.0 && IsRoundOf((r * 100.0).Floor, x * 100.0)
  }

  /** The rounding rule leaves no choice: two roundings of the same number are equal. */
  lemma RoundUnique(a: int, b: int, x: real)
    requires IsRoundOf(a, x) && IsRoundOf(b, x)
    ensures a == b
  {
  }

  /** Python's `round(x)`: the nearest integer, and the even one of two equally near. */
  function RoundHalfEven(x: real): (r: int)
    ensures x - 0.5 <= r as real <= x + 0.5
    ensures (r as real == x - 0.5 || r as real == x + 0.5) ==> r % 2 == 0
    ensures IsRoundOf(r, x)
  {
    var f := x.Floor;
    var frac := x - f as real;
    if frac < 0.5 then f
    else if frac > 0.5 then f + 1
    else if f % 2 == 0 then f
    else f + 1
  }

  /** An integer is its own rounding. */
  lemma RoundHalfEvenOfInt(n: int)
    ensures RoundHalfEven(n as real) == n
  {
  }

  /** Rounding never leaves an interval with integer ends. */
  lemma RoundWithin(x: real, lo: int, hi: int)
    requires lo as real <= x <= hi as real
    ensures lo <= RoundHalfEven(x) <= hi
  {
  }

  /** Python's `round(x, 2)`: the nearest multiple of 0.01, ties to the even hundredth. */
  function Round2(x: real): (r: real)
    ensures x - 0.005 <= r <= x + 0.005
    ensures (r * 100.0).Floor as real == r * 100.0
    ensures (r == x - 0.005 || r == x + 0.005) ==> (r * 100.0).Floor % 2 == 0
    ensures x >= 0.0 ==> r >= 0.0
    ensures IsRound2Of(r, x)
  {
    var k := RoundHalfEven(x * 100.0);
    Hundredths(x, k);
    k as real / 100.0
  }

  /** A whole number of hundredths within half a hundredth of `x`. */
  lemma Hundredths(x: real, k: int)
    requires x * 100.0 - 0.5 <= k as real <= x * 100.0 + 0.5
    requires (k as real == x * 100.0 - 0.5 || k as real == x * 100.0 + 0.5) ==> k % 2 == 0
    ensures var r := k as real / 100.0;
            && x - 0.005 <= r <= x + 0.005
            && (r * 100.0).Floor as real == r * 100.0
            && ((r == x - 0.005 || r == x + 0.005) ==> (r * 100.0).Floor % 2 == 0)
            && (x >= 0.0 ==> r >= 0.0)
            && IsRound2Of(r, x)
  {
    var r := k as real / 100.0;
    assert r * 100.0 == k as real;
    assert (r * 100.0).Floor == k;
    if x >= 0.0 {
      assert k as real >= -0.5;
      assert k >= 0;
    }
  }

  /** `round(n / d * 100)`: the share `n` of `d` as a whole percentage. */
  function Percent(n: nat, d: nat): (r: int)
    requires d != 0
    ensures IsRoundOf(r, n as real / d as real * 100.0)
    ensures n <= d ==> 0 <= r <= 100
    ensures n == 0 ==> r == 0
    ensures n == d ==> r == 100
  {
    ShareBounds(n, d);
    RoundHalfEven(n as real / d as real * 100.0)
  }

  /** The share `n` of `d`, in percent, is 0 for none, 100 for all, and in between for a part. */
  lemma ShareBounds(n: nat, d: nat)
    requires d != 0
    ensures var x := n as real / d as real * 100.0;
            && (n <= d ==> 0.0 <= x <= 100.0)
            && (n == 0 ==> x == 0.0)
            && (n == d ==> x == 100.0)
  {
    var q := n as real / d as real;
    assert q * d as real == n as real;
    assert n <= d ==> q <= 1.0;
  }

  /** Exact halves go to the even neighbour: 1 of 8 is 12 (not 13), 19 of 200 is 10 (not 9) and 121
      of 200 is 60 (not 61). */
  lemma PercentTies()
    ensures Percent(1, 8) == 12
    ensures Percent(19, 200) == 10
    ensures Percent(121, 200) == 60
  {
    RoundUnique(Percent(1, 8), 12, 1.0 / 8.0 * 100.0);
    RoundUnique(Percent(19, 200), 10, 19.0 / 200.0 * 100.0);
    RoundUnique(Percent(121, 200), 60, 121.0 / 200.0 * 100.0);
  }

  /** `round(n / d * 100) if d != 0 else None`. */
  function PercentOf(n: nat, d: nat): (r: Option<int>)
    ensures r.None? <==> d == 0
    ensures r.Some? ==> IsRoundOf(r.value, n as real / d as real * 100.0)
    ensures r.Some? && n <= d ==> 0 <= r.value <= 100
  {
    if d != 0 then Some(Percent(n, d)) else None
  }

  /** `round(n / d, 2) if d != 0 else None`. */
  function RatioOf(n: nat, d: nat): (r: Option<real>)
    ensures r.None? <==> d == 0
    ensures r.Some? ==> -0.005 <= r.value - n as real / d as real <= 0.005
    ensures r.Some? ==> (r.value * 100.0).Floor as real == r.value * 100.0
    ensures r.Some? ==> r.value >= 0.0
    ensures r.Some? ==> IsRound2Of(r.value, n as real / d as real)
  {
    if d != 0 then
      var q := n as real / d as real;
      assert q * d as real == n as real;
      assert q >= 0.0;
      Some(Round2(q))
    else None
  }

  function Sum(xs: seq<int>): int {
    if xs == [] then 0 else Sum(xs[..|xs| - 1]) + xs[|xs| - 1]
  }

  /** The arithmetic mean, which the source's `average` helper computes: the value that, taken
      `|xs|` times, gives the sum. */
  function Mean(xs: seq<int>): (m: real)
    requires xs != []
    ensures m * |xs| as real == Sum(xs) as real
  {
    Sum(xs) as real / |xs| as real
  }

  /** A sum of values in `[lo, hi]` lies between `|xs| * lo` and `|xs| * hi`. */
  lemma {:induction false} SumBounds(xs: seq<int>, lo: int, hi: int)
    requires forall i :: 0 <= i < |xs| ==> lo <= xs[i] <= hi
    ensures |xs| * lo <= Sum(xs) <= |xs| * hi
  {
    if xs != [] {
      SumBounds(xs[..|xs| - 1], lo, hi);
    }
  }

  /** The mean of values in `[lo, hi]` lies in `[lo, hi]`. */
  lemma MeanBounds(xs: seq<int>, lo: int, hi: int)
    requires xs != []
    requires forall i :: 0 <= i < |xs| ==> lo <= xs[i] <= hi
    ensures lo as real <= Mean(xs) <= hi as real
  {
    SumBounds(xs, lo, hi);
    var n := |xs| as real;
    assert n * (lo as real) <= Sum(xs) as real <= n * (hi as real);
    assert Mean(xs) * n == Sum(xs) as real;
  }

  // ---------------------------------------------------------------------------------------------
  // The statistics record

  /** The `MatchStats` dataclass; `None` in a field is Python's `None`. */
  datatype MatchStats = MatchStats(
    mmrDelta: Option<int>,
    matchCount: Option<nat>,
    winCount: Option<nat>,
    lossCount: Option<nat>,
    smurfLossCount: Option<nat>,
    smurfWinCount: Option<nat>,
    winPercent: Option<int>,
    smurfLossPercent: Option<int>,
    smurfWinPercent: Option<int>,
    smurfWinLossRatio: Option<real>,
    avgLossDuration: Option<int>,
    avgWinDuration: Option<int>,
    avgDurationRatio: Option<real>,
    sameRaceGamesCount: Option<nat>,
    sameRaceWinCount: Option<nat>,
    sameRaceLossCount: Option<nat>,
    sameRaceWinPercent: Option<int>,
    sameRaceLossPercent: Option<int>,
    smurfScore: Option<real>,
    smurfQual: Option<Qual>)

  /** Every field is `None`. */
  predicate AllNone(s: MatchStats) {
    && s.mmrDelta.None? && s.matchCount.None? && s.winCount.None? && s.lossCount.None?
    && s.smurfLossCount.None? && s.smurfWinCount.None? && s.winPercent.None?
    && s.smurfLossPercent.None? && s.smurfWinPercent.None? && s.smurfWinLossRatio.None?
    && s.avgLossDuration.None? && s.avgWinDuration.None? && s.avgDurationRatio.None?
    && s.sameRaceGamesCount.None? && s.sameRaceWinCount.None? && s.sameRaceLossCount.None?
    && s.sameRaceWinPercent.None? && s.sameRaceLossPercent.None? && s.smurfScore.None? && s.smurfQual.None?
  }

  /** `empty_match_stats`. */
  function EmptyMatchStats(): (r: MatchStats)
    ensures AllNone(r)
  {
    MatchStats(None, None, None, None, None, None, None, None, None, None,
               None, None, None, None, None, None, None, None, None, None)
  }

  // ---------------------------------------------------------------------------------------------
  // The match classes the statistics count

  predicate IsWin(m: Match) {
    m.result == "WIN"
  }

  predicate IsLoss(m: Match) {
    m.result == "LOSS"
  }

  predicate HasKnownResult(m: Match) {
    IsWin(m) || IsLoss(m)
  }

  /** A game shorter than the minimum duration; parsed durations are never `None`. */
  predicate IsShort(m: Match) {
    m.duration < MinMatchDuration
  }

  /** Both sides have the same race, where two unknown races are equal. */
  predicate IsSameRace(m: Match) {
    m.player.race == m.opponent.race
  }

  predicate IsSameRaceWin(m: Match) {
    IsWin(m) && IsSameRace(m)
  }

  predicate IsSameRaceLoss(m: Match) {
    IsLoss(m) && IsSameRace(m)
  }

  predicate IsShortWin(m: Match) {
    IsWin(m) && IsShort(m)
  }

  predicate IsShortLoss(m: Match) {
    IsLoss(m) && IsShort(m)
  }

  function Durations(ms: seq<Match>): (r: seq<int>)
    ensures |r| == |ms| && forall i :: 0 <= i < |ms| ==> r[i] == ms[i].duration
  {
    seq(|ms|, i requires 0 <= i < |ms| => ms[i].duration)
  }

  /** `round(average(durations))`, or `None` for no games. */
  function AvgDuration(ms: seq<Match>): (r: Option<int>)
    ensures r.Some? <==> ms != []
    ensures r.Some? ==> IsRoundOf(r.value, Mean(Durations(ms)))
  {
    if ms != [] then Some(RoundHalfEven(Mean(Durations(ms)))) else None
  }

  /** An optional whole number as a signal for the scorer. */
  function AsSignal(x: Option<int>): (r: Signal)
    ensures r.Some? <==> x.Some?
    ensures x.Some? ==> r.value == x.value as real
  {
    match x
    case None => None
    case Some(v) => Some(v as real)
  }

  // ---------------------------------------------------------------------------------------------
  // get_match_stats

  /** `get_match_stats` for a player whose parsed matches are `matches`. */
  function GetMatchStats(player: Player, matches: seq<Match>): (r: MatchStats)
    ensures AllNone(r) <==> matches == []
    ensures r.matchCount.Some? <==> matches != []
  {
    if |matches| == 0 then EmptyMatchStats()
    else
      var matchCount := |matches|;
      var losses := Filter(matches, IsLoss);
      var wins := Filter(matches, IsWin);
      var winPercent := Percent(|wins|, matchCount);
      var avgLoss := AvgDuration(losses);
      var avgWin := AvgDuration(wins);
      var avgRatio :=
        if IntTruthy(avgLoss) && IntTruthy(avgWin) then Some(Round2(avgWin.value as real / avgLoss.value as real))
        else None;
      var smurfWins := Filter(wins, IsShort);
      var smurfWinPercent := PercentOf(|smurfWins|, |wins|);
      var smurfLosses := Filter(losses, IsShort);
      var smurfLossPercent := PercentOf(|smurfLosses|, |losses|);
      var smurfRatio := RatioOf(|smurfWins|, |smurfLosses|);
      var sameRace := Filter(matches, IsSameRace);
      var sameRaceWins := Filter(matches, IsSameRaceWin);
      var sameRaceLosses := Filter(matches, IsSameRaceLoss);
      var sameRaceWinPercent := PercentOf(|sameRaceWins|, |sameRace|);
      var sameRaceLossPercent := PercentOf(|sameRaceLosses|, |sameRace|);
      var mmrDelta :=
        if IntTruthy(player.ratingMax) && IntTruthy(player.ratingLast)
        then Some(player.ratingMax.value - player.ratingLast.value)
        else None;
      var score := SmurfScore(AsSignal(mmrDelta), smurfRatio, avgRatio, AsSignal(smurfLossPercent),
                              AsSignal(sameRaceLossPercent));
      MatchStats(
        mmrDelta := mmrDelta,
        matchCount := Some(matchCount),
        winCount := Some(|wins|),
        lossCount := Some(|losses|),
        smurfLossCount := Some(|smurfLosses|),
        smurfWinCount := Some(|smurfWins|),
        winPercent := Some(winPercent),
        smurfLossPercent := smurfLossPercent,
        smurfWinPercent := smurfWinPercent,
        smurfWinLossRatio := smurfRatio,
        avgLossDuration := avgLoss,
        avgWinDuration := avgWin,
        avgDurationRatio := avgRatio,
        sameRaceGamesCount := Some(|sameRace|),
        sameRaceWinCount := Some(|sameRaceWins|),
        sameRaceLossCount := Some(|sameRaceLosses|),
        sameRaceWinPercent := sameRaceWinPercent,
        sameRaceLossPercent := sameRaceLossPercent,
        smurfScore := Some(score.0),
        smurfQual := Some(score.1))
  }

  /** No matches: every field of the result is `None`, and nothing is scored. */
  lemma NoMatchesNoStats(player: Player)
    ensures AllNone(GetMatchStats(player, []))
  {
  }

  /** With at least one match every count is present, and the counts nest: wins and losses are
      disjoint (together all matches when every result is a win or a loss), short games are a
      subset of their class, and same-race wins and losses are disjoint same-race games. */
  lemma StatsCounts(player: Player, matches: seq<Match>)
    requires matches != []
    ensures var s := GetMatchStats(player, matches);
            && s.matchCount == Some(|matches|)
            && s.winCount.Some? && s.lossCount.Some? && s.smurfWinCount.Some? && s.smurfLossCount.Some?
            && s.sameRaceGamesCount.Some? && s.sameRaceWinCount.Some? && s.sameRaceLossCount.Some?
            && s.winCount.value + s.lossCount.value <= |matches|
            && ((forall i :: 0 <= i < |matches| ==> HasKnownResult(matches[i])) ==>
                  s.winCount.value + s.lossCount.value == |matches|)
            && s.smurfWinCount.value <= s.winCount.value
            && s.smurfLossCount.value <= s.lossCount.value
            && s.sameRaceWinCount.value + s.sameRaceLossCount.value <= s.sameRaceGamesCount.value
            && s.sameRaceGamesCount.value <= |matches|
  {
    FilterDisjoint(matches, IsWin, IsLoss, HasKnownResult);
    FilterDisjoint(matches, IsSameRaceWin, IsSameRaceLoss, IsSameRace);
    if forall i :: 0 <= i < |matches| ==> HasKnownResult(matches[i]) {
      FilterKeepsAll(matches, HasKnownResult);
    }
  }

  /** Each count of wins and losses, all or short, is the number of positions of `matches` that
      hold a game of its class. */
  lemma StatsCountClasses(player: Player, matches: seq<Match>)
    requires matches != []
    ensures var s := GetMatchStats(player, matches);
            && s.winCount == Some(|PositionsWhere(matches, IsWin)|)
            && s.lossCount == Some(|PositionsWhere(matches, IsLoss)|)
            && s.smurfWinCount == Some(|PositionsWhere(matches, IsShortWin)|)
            && s.smurfLossCount == Some(|PositionsWhere(matches, IsShortLoss)|)
  {
    FilterCount(matches, IsWin);
    FilterCount(matches, IsLoss);
    FilterFilter(matches, IsWin, IsShort, IsShortWin);
    FilterCount(matches, IsShortWin);
    FilterFilter(matches, IsLoss, IsShort, IsShortLoss);
    FilterCount(matches, IsShortLoss);
  }

  /** Each same-race count is the number of positions of `matches` that hold a game of its
      class. */
  lemma SameRaceCountClasses(player: Player, matches: seq<Match>)
    requires matches != []
    ensures var s := GetMatchStats(player, matches);
            && s.sameRaceGamesCount == Some(|PositionsWhere(matches, IsSameRace)|)
            && s.sameRaceWinCount == Some(|PositionsWhere(matches, IsSameRaceWin)|)
            && s.sameRaceLossCount == Some(|PositionsWhere(matches, IsSameRaceLoss)|)
  {
    FilterCount(matches, IsSameRace);
    FilterCount(matches, IsSameRaceWin);
    FilterCount(matches, IsSameRaceLoss);
  }

  /** Two unknown races compare equal: when neither side's race is known in any match, every
      match is a same-race game. */
  lemma UnknownRacesAreSameRace(player: Player, matches: seq<Match>)
    requires matches != []
    requires forall i :: 0 <= i < |matches| ==> matches[i].player.race.None? && matches[i].opponent.race.None?
    ensures GetMatchStats(player, matches).sameRaceGamesCount == Some(|matches|)
  {
    FilterKeepsAll(matches, IsSameRace);
  }

  /** Each percentage of wins and losses is `None` exactly when its denominator is zero, and
      otherwise its share of the denominator in percent under Python's rounding (a tie goes to the
      even neighbour), from 0 to 100. */
  lemma StatsPercentages(player: Player, matches: seq<Match>)
    requires matches != []
    ensures var s := GetMatchStats(player, matches);
            && s.winPercent.Some? && 0 <= s.winPercent.value <= 100
            && IsRoundOf(s.winPercent.value, s.winCount.value as real / |matches| as real * 100.0)
            && (s.smurfWinPercent.None? <==> s.winCount == Some(0))
            && (s.smurfWinPercent.Some? ==> 0 <= s.smurfWinPercent.value <= 100)
            && (s.smurfWinPercent.Some? ==>
                  IsRoundOf(s.smurfWinPercent.value, s.smurfWinCount.value as real / s.winCount.value as real * 100.0))
            && (s.smurfLossPercent.None? <==> s.lossCount == Some(0))
            && (s.smurfLossPercent.Some? ==> 0 <= s.smurfLossPercent.value <= 100)
            && (s.smurfLossPercent.Some? ==>
                  IsRoundOf(s.smurfLossPercent.value, s.smurfLossCount.value as real / s.lossCount.value as real * 100.0))
  {
  }

  /** The same-race percentages are `None` exactly when there is no same-race game, and otherwise
      the shares of same-race wins and losses among same-race games in percent, rounded as Python
      rounds (a tie goes to the even neighbour),
      from 0 to 100. */
  lemma SameRacePercentages(player: Player, matches: seq<Match>)
    requires matches != []
    ensures var s := GetMatchStats(player, matches);
            && (s.sameRaceWinPercent.None? <==> s.sameRaceGamesCount == Some(0))
            && (s.sameRaceWinPercent.Some? ==> 0 <= s.sameRaceWinPercent.value <= 100)
            && (s.sameRaceWinPercent.Some? ==>
                  IsRoundOf(s.sameRaceWinPercent.value,
                            s.sameRaceWinCount.value as real / s.sameRaceGamesCount.value as real * 100.0))
            && (s.sameRaceLossPercent.None? <==> s.sameRaceGamesCount == Some(0))
            && (s.sameRaceLossPercent.Some? ==> 0 <= s.sameRaceLossPercent.value <= 100)
            && (s.sameRaceLossPercent.Some? ==>
                  IsRoundOf(s.sameRaceLossPercent.value,
                            s.sameRaceLossCount.value as real / s.sameRaceGamesCount.value as real * 100.0))
  {
    FilterDisjoint(matches, IsSameRaceWin, IsSameRaceLoss, IsSameRace);
  }

  /** The duration averages are present exactly when there are games of their class, each the
      rounding of the mean duration of that class, ties to even; the ratio of averages is present
      exactly when both averages are nonzero, and is the ratio rounded to hundredths, ties to even. */
  lemma StatsDurationFields(player: Player, matches: seq<Match>)
    requires matches != []
    ensures var s := GetMatchStats(player, matches);
            && (s.avgWinDuration.Some? <==> s.winCount != Some(0))
            && (s.avgWinDuration.Some? ==>
                  IsRoundOf(s.avgWinDuration.value, Mean(Durations(Filter(matches, IsWin)))))
            && (s.avgLossDuration.Some? <==> s.lossCount != Some(0))
            && (s.avgLossDuration.Some? ==>
                  IsRoundOf(s.avgLossDuration.value, Mean(Durations(Filter(matches, IsLoss)))))
            && (s.avgDurationRatio.Some? <==> IntTruthy(s.avgWinDuration) && IntTruthy(s.avgLossDuration))
            && (s.avgDurationRatio.Some? ==>
                  -0.005 <= s.avgDurationRatio.value - s.avgWinDuration.value as real / s.avgLossDuration.value as real
                         <= 0.005)
            && (s.avgDurationRatio.Some? ==>
                  IsRound2Of(s.avgDurationRatio.value, s.avgWinDuration.value as real / s.avgLossDuration.value as real))
  {
  }

  /** The rating delta is present exactly when both ratings are nonzero, as
      `rating_max - rating_last`; the short-game win:loss ratio exactly when there is a short
      loss, as the ratio of short wins to short losses rounded to hundredths, ties to even. */
  lemma StatsDeltaAndRatio(player: Player, matches: seq<Match>)
    requires matches != []
    ensures var s := GetMatchStats(player, matches);
            && (s.mmrDelta.Some? <==> IntTruthy(player.ratingMax) && IntTruthy(player.ratingLast))
            && (s.mmrDelta.Some? ==> s.mmrDelta.value == player.ratingMax.value - player.ratingLast.value)
            && (s.smurfWinLossRatio.None? <==> s.smurfLossCount == Some(0))
            && (s.smurfWinLossRatio.Some? ==>
                  -0.005 <= s.smurfWinLossRatio.value - s.smurfWinCount.value as real / s.smurfLossCount.value as real
                         <= 0.005)
            && (s.smurfWinLossRatio.Some? ==>
                  IsRound2Of(s.smurfWinLossRatio.value, s.smurfWinCount.value as real / s.smurfLossCount.value as real))
            && (s.smurfWinLossRatio.Some? ==> s.smurfWinLossRatio.value >= 0.0)
  {
  }

  /** A rounded average duration lies between the shortest and the longest game of its class. */
  lemma AvgDurationWithin(ms: seq<Match>, lo: int, hi: int)
    requires forall i :: 0 <= i < |ms| ==> lo <= ms[i].duration <= hi
    ensures AvgDuration(ms).Some? ==> lo <= AvgDuration(ms).value <= hi
  {
    if ms != [] {
      MeanBounds(Durations(ms), lo, hi);
      RoundWithin(Mean(Durations(ms)), lo, hi);
    }
  }

  /** The average win duration lies between the shortest and longest win. */
  lemma AvgWinDurationWithin(player: Player, matches: seq<Match>, lo: int, hi: int)
    requires forall m :: m in matches && IsWin(m) ==> lo <= m.duration <= hi
    ensures var s := GetMatchStats(player, matches);
            s.avgWinDuration.Some? ==> lo <= s.avgWinDuration.value <= hi
  {
    var wins := Filter(matches, IsWin);
    FilterMembers(matches, IsWin);
    assert forall i :: 0 <= i < |wins| ==> wins[i] in wins;
    AvgDurationWithin(wins, lo, hi);
  }

  /** The score and label are the scorer's verdict on the rating delta, the short-game ratio, the
      duration ratio, and the short-loss and same-race-loss percentages. */
  lemma StatsScore(player: Player, matches: seq<Match>)
    requires matches != []
    ensures var s := GetMatchStats(player, matches);
            && s.smurfScore.Some? && s.smurfQual.Some?
            && (s.smurfScore.value, s.smurfQual.value)
               == SmurfScore(AsSignal(s.mmrDelta), s.smurfWinLossRatio, s.avgDurationRatio,
                             AsSignal(s.smurfLossPercent), AsSignal(s.sameRaceLossPercent))
            && 0.0 <= s.smurfScore.value <= 5.0
            && s.smurfQual.value == QualOf(s.smurfScore.value)
  {
  }
}
