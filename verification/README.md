# smurf-check, modelled in Dafny

smurf-check looks up a StarCraft II opponent on a ladder-statistics service and judges whether
the opponent is a "smurf", an experienced player on a fresh or low-rated account. This project
models the decision core of the program and proves properties of it:

- **Player records** (`app/player.py`). `Players.dfy` covers race inference from the
  games-played counters, `player_from_summary`, and the filter cascade of
  `player_from_character_search`: filter by name, then race, then region, then sort by rating
  distance. `AlternateNames.dfy` covers `player_from_alternate_names`. Its `_get_sims`
  enumerates the i/l/I look-alike spellings of a name in product order. The candidates are then
  searched in turn until one gives a profile.
- **Match history** (`app/matches.py`). `Matches.dfy` covers three things:
  - `get_match_participants`;
  - the parsing of one match record, with the opponent's id, rating, name and race;
  - the paging loop of `get_matches_for_profile`. It moves a date cursor, keeps only 1v1 games
    with at most two participants, and gives up after five empty pages.
- **Statistics and score** (`app/matches.py`). `Stats.dfy` covers `get_match_stats` and
  `empty_match_stats`: counts, percentages, duration averages and ratios, each guarded against
  a zero denominator. `Scoring.dfy` covers `get_smurf_score` and its `_qual`: five signals,
  each mapped to 0, 0.25, 0.5 or 1 point, summed and labelled.
- **Display colours** (`flask_app/app.py`). `Colours.dfy` covers the five `*_background_color`
  helpers, and how they agree or disagree with the scorer's bands.

`Wrappers.dfy` holds `Option` and `Result`. `Collections.dfy` holds the list comprehensions,
dictionaries and the stable `sorted` that the source uses. `Static.dfy` holds the short-game
threshold of `app/static.py`.

Modelling conventions:
- **Service calls** become inputs. The match-history service is a finite sequence of pages, and
  a call past its end returns an empty page. The character search is a function from a name to
  the profiles found. The summary response is a sequence of entries.
- **The clock's reading** becomes the `startDate` parameter.
- **Numbers** are exact. Python's `round(x)` is round-half-even on reals, and `round(x, 2)` is
  that rule applied to hundredths.
- **Falsy values.** Python's truthiness is written out where the source relies on it:
  `IntTruthy` and `Scoring.Truthy` make `None` and `0` falsy, and `StrTruthy` makes `None` and
  `""` falsy.
- **Errors that reach the caller** are `Result.Failure`. These are the missing player key while
  parsing a record, and the missing race in a summary response. Exceptions that the source
  catches and turns into `None` are `Option.None`. These are `one()` failing, and indexing an
  empty profile list.
- **Code over documentation.** The code is followed where it and its own documentation disagree. The
  scorer's docstring puts the "Likely" band from 2.5, while `_qual` starts it at 2.75. The
  docstring describes the same-race loss share as a share of all losses, while the code divides
  by the number of same-race games.

## Model

| member | source | states |
|---|---|---|
| Collections.FilterMembers | app/matches.py:132-135 | a list comprehension `[x for x in s if p(x)]` keeps exactly the elements of `s` that satisfy `p` |
| Collections.FilterDisjoint | app/matches.py:267-271 | two disjoint conditions within a third select at most as many elements as it, and exactly as many when they cover it |
| Collections.FilterCount | app/matches.py:268-271 | `len` of a list comprehension is the number of positions of the input whose element satisfies the condition |
| Collections.FilterFilter | app/matches.py:282 | a comprehension over a comprehension keeps exactly the elements satisfying both conditions, in order |
| Collections.IndexByLastWins | app/matches.py:343-348 | in a dictionary filled in list order, an element whose key no later element has is the one stored under that key |
| Collections.IndexByEntry | app/player.py:64-67 | every entry of a dictionary filled in list order is the last element of the list carrying that key |
| Collections.SortBy | app/player.py:93-99 | `sorted` with a key gives a list ordered by the key that is a permutation of the input |
| Collections.SortByStable | app/player.py:93-99 | the sort is stable: elements with equal keys keep their relative order |
| Collections.SortByHeadIsLeast | app/player.py:135-138 | the head of the sorted list has the least key of all inputs |
| Collections.SortByHeadIsFirstLeast | app/player.py:93-99 | the head of the stable sort is the earliest input element with the least key: every element before it has a strictly greater key |
| Players.RacesPresent | app/player.py:28-33 | a race is listed exactly when its `GAMES_PLAYED_MAP` counter key is in the record |
| Players.InferRace | app/matches.py:94-101 | the inferred race is `Some(race)` exactly when that race's counter is present and no other race's is; otherwise `one()` fails and gives `None` |
| Players.PlayerFromSummary | app/player.py:58-77 | a single entry is used whatever its race; otherwise the result is the last entry of the requested race, and an error exactly when no entry has that race |
| Players.FilterOnName | app/player.py:84-85 | keeps exactly the profiles whose name contains the searched name |
| Players.FilterOnRace | app/player.py:87-88 | keeps exactly the profiles whose members record holds the race's counter key |
| Players.FilterOnRegion | app/player.py:90-91 | keeps exactly the profiles of the region |
| Players.SortOnMmr | app/player.py:93-99 | the profiles are reordered by rating distance, nothing lost or added |
| Players.SortOnMmrStable | app/player.py:93-99 | profiles at equal distance keep their order |
| Players.PlayerFromNameSearch | app/player.py:101-109 | the player keeps the searched name and race, takes id, region, current and maximum rating from the profile, and has no average rating or realm |
| Players.AfterRaceStage | app/player.py:119-127 | with no race, or a race no name match has played, the name matches are kept unchanged; otherwise exactly the name matches that have played the race |
| Players.RegionStage | app/player.py:129-142 | `None` exactly when the region filter (if a region is given) leaves nothing; otherwise a profile of that region from its input: the only one when the region leaves one, the head of the list without a rating, and with a rating the earliest in list order of the profiles nearest it |
| Players.SelectProfile | app/player.py:111-142 | the chosen profile is one of the search results whose name contains the searched name; no name match gives `None` |
| Players.CharacterSearch | app/player.py:80-142 | the found player carries the searched name and requested race and is built from the profile the cascade selects, which is a name match; `None` exactly when no profile is selected |
| Players.UniqueNameMatchWins | app/player.py:114-117 | a single name match is returned regardless of race, region and rating |
| Players.RaceUniqueWins | app/player.py:119-123 | with several name matches, a race filter that leaves one profile returns it, whatever the region and rating |
| Players.RaceFilterKept | app/player.py:119-127 | when some name match has played the race, the chosen profile has played it |
| Players.RegionUniqueWins | app/player.py:129-133 | when no earlier return applies, a region filter that leaves one profile returns it, whatever the rating |
| Players.HeadFallback | app/player.py:129-142 | without a truthy rating and with no earlier return, the head of the list left by the race and region filters is chosen, or `None` when it is empty |
| Players.NearestRemainingChosen | app/player.py:129-142 | with a truthy rating and no earlier return, the choice is among the profiles left by the race and region filters, nearest the rating of them all, and the earliest in list order among the equally near; `None` exactly when none is left |
| Players.SortedHeadIsNearest | app/player.py:135-138 | the head of `_sort_on_mmr` is one of the profiles, nearest the rating, and every profile before it in the input is strictly farther |
| Players.RaceFilterEmptyIsUndone | app/player.py:119-127 | a race filter that removes every profile leaves the outcome as if no race had been given |
| Players.RegionFilterEmptyIsNone | app/player.py:129-142 | a region filter that removes every profile is not undone and the search gives `None` |
| Players.NearestRatingChosen | app/player.py:135-138 | with a comparison rating and no other filter, the first profile of the stable rating sort is chosen, and it is at least as close as every name match |
| AlternateNames.ReplaceBang | app/player.py:158-159 | every "!" becomes "l" and nothing else changes |
| AlternateNames.SimIndexes | app/player.py:163 | exactly the positions holding i, l or I, in increasing order |
| AlternateNames.SubstituteAt | app/player.py:169-171 | an arrangement changes exactly the listed positions, each to the chosen look-alike |
| AlternateNames.Spellings | app/player.py:167-172 | there are 3^k spellings, and the n-th uses the base-3 digits of n as the choices, in product order |
| AlternateNames.DigitsEncode | app/player.py:168 | every choice of look-alikes is the digit string of some position among the 3^k spellings, so product order misses none |
| AlternateNames.Arrange | app/player.py:169-172 | the inner loop writes the chosen look-alike at each listed position |
| AlternateNames.Enumerate | app/player.py:167-172 | the outer loop yields every spelling in product order |
| AlternateNames.GetSims | app/player.py:156-172 | `_get_sims` yields the spellings of the name after "!"→"l", or none past 5 look-alike positions |
| AlternateNames.SimsCount | app/player.py:161-168 | with k look-alike positions, 3^k names when k ≤ 5 and none otherwise |
| AlternateNames.SimsShape | app/player.py:156-172 | each name has the input's length, differs from the "!"-replaced input only at look-alike positions, holds a look-alike there, and contains no "!" |
| AlternateNames.FirstSimIsAllI | app/player.py:167-168 | within the limit, the first name has "i" at every look-alike position |
| AlternateNames.OwnSpelling | app/player.py:167-172 | a string is among its own spellings at its look-alike positions: product order reaches the unchanged arrangement |
| AlternateNames.NameAmongSims | app/player.py:158-172 | within the limit, the "!"-replaced input itself is among the names |
| AlternateNames.FirstFound | app/player.py:177-180 | a found profile is the search answer for one of the candidates |
| AlternateNames.FirstFoundIsFirst | app/player.py:175-183 | the answer is that of the first candidate whose search succeeds, and `None` exactly when every search fails |
| AlternateNames.SearchInTurn | app/player.py:177-180 | the search loop returns the first successful search in candidate order |
| AlternateNames.PlayerFromAlternateNames | app/player.py:145-183 | an empty or missing name gives `None`; otherwise the first look-alike spelling whose search finds a profile decides the result |
| AlternateNames.AlternateNameFound | app/player.py:174-180 | a profile found this way carries one of the look-alike names and the requested race |
| Matches.GetMatchParticipants | app/matches.py:343-348 | the participants by character id: one entry per id, each a participant of the record under its own id, the last one winning |
| Matches.FirstOtherId | app/matches.py:78 | an id that is not the player's, or `None` when every id is the player's |
| Matches.OpponentId | app/matches.py:77-80 | the opponent id exists exactly when there is one id besides the player's, and is that id |
| Matches.OpponentOf | app/matches.py:82-101 | the opponent keeps the opponent id; with no id or no team it has no name, race or rating; with a team it has the team's rating, and a name exactly when the team has a member with the id; name and race then come from the last such member's record |
| Matches.OpponentCharacter | app/matches.py:93-98 | the dictionary lookup of the opponent among its team's members gives the last member with the id, and `None` exactly when no member has it |
| Matches.ParseMatch | app/matches.py:65-122 | a record fails exactly when the profile's character id is not among its participants |
| Matches.ParseMatchFields | app/matches.py:67-121 | a parsed match carries the record's date, type, map and participants, the duration or 0, the profile's name and race, the player's decision as result and its team's rating (or `None` without a team), and as opponent the record `OpponentOf` builds from the unique other id |
| Matches.NoneDurationIsZero | app/matches.py:73 | a missing duration is stored as 0 |
| Matches.ParsePageSpec | app/matches.py:65-126 | a page parses exactly when each of its records does, and then into one match per record, in order |
| Matches.PrefixFailure | app/matches.py:123-126 | the first record that fails decides the error of the whole page |
| Matches.ParseRecords | app/matches.py:62-126 | the parsing loop gives the page's parse, and leaves the cursor at the last parsed record's date |
| Matches.KeepSinglesMembers | app/matches.py:131-135 | the two filters keep exactly the "_1V1" matches with at most two participants |
| Matches.CountEmpty | app/matches.py:138-140 | the stale count never exceeds the number of calls |
| Matches.CursorsFollowAt | app/matches.py:128-129 | each call's date is the date of the last parsed record of the previous page, taken before filtering, or unchanged after an empty page |
| Matches.AppendPage | app/matches.py:128-140 | one more page extends the kept matches by its filtered records and the stale count by one exactly when it parsed to nothing |
| Matches.GetMatchesForProfile | app/matches.py:51-143 | the loop parses the pages in order, each call starting at the previous page's last date; it returns the filtered matches of all pages once it has `match_count` of them or five empty pages; every returned match is a "_1V1" game with at most two participants; a record that fails to parse aborts the fetch |
| Matches.CollectedAreSingles | app/matches.py:131-137 | every returned match is a "_1V1" game with at most two participants, taken from a served page |
| Matches.CountEmptyStep | app/matches.py:138-140 | the stale count grows by one exactly on an empty page and is never reset |
| Matches.EmptyFeedStopsAfterFive | app/matches.py:55-140 | when every page is empty the loop makes exactly five calls and returns nothing |
| Scoring.Points | app/matches.py:162-218 | each signal adds 0, 0.25, 0.5 or 1, and 0.25 exactly when it is falsy |
| Scoring.MmrDeltaBand | app/matches.py:165-173 | a falsy delta is missing; ≤ 300 is low, ≥ 500 high, in between mid |
| Scoring.SmurfWinLossRatioBand | app/matches.py:176-184 | a falsy ratio is missing; ≥ 0.95 is low, ≤ 0.75 high, in between mid |
| Scoring.AvgDurationRatioBand | app/matches.py:187-195 | a falsy ratio is missing; ≤ 1.3 is low, ≥ 1.7 high, in between mid |
| Scoring.SmurfLossPercentBand | app/matches.py:198-206 | a falsy percentage is missing; < 10 is low; exactly 10 or ≥ 17.5 is high; in between mid |
| Scoring.SameRaceLossPercentBand | app/matches.py:210-218 | a falsy percentage is missing; ≤ 60 is low, ≥ 70 high, in between mid |
| Scoring.QualOf | app/matches.py:221-229 | < 2 is "Unlikely", [2, 2.75) "Possible", [2.75, 3.5] "Likely", > 3.5 "Definitely" |
| Scoring.QualMonotone | app/matches.py:221-229 | a higher score never gets a less suspicious label |
| Scoring.SmurfScore | app/matches.py:146-233 | the score lies in [0, 5], is a multiple of 0.25, and is labelled by `_qual` |
| Scoring.ScoreIsSumOfPoints | app/matches.py:162-219 | the score is the sum of the five partial scores |
| Scoring.AllMissingScore | app/matches.py:165-218 | five missing signals score (1.25, "Unlikely") |
| Scoring.ZeroIsMissing | app/matches.py:165-218 | a zero signal is treated exactly like a missing one |
| Scoring.BoundariesAsWritten | app/matches.py:166-216 | 500, 0.75, 10, 1.7 and 70 each add a full point; 300, 0.95, 1.3 and 60 add nothing |
| Scoring.ScoreExamples | app/matches.py:146-233 | (500, 0.95, 1.3, 10, 60) scores (2.0, "Possible"), since only 500 and 10 reach the top band, and (501, 0.5, 2.0, 20, 80) scores (5.0, "Definitely") |
| Colours.MmrDeltaBackgroundColor | flask_app/app.py:51-60 | gray exactly for `None`, green for ≤ 300, red for ≥ 500 |
| Colours.SmurfResultRatioBackgroundColor | flask_app/app.py:67-76 | gray exactly for `None`, green for ≥ 0.95, red for ≤ 0.75 |
| Colours.DurationRatioBackgroundColor | flask_app/app.py:83-92 | gray exactly for `None`, green for ≤ 1.3, red for ≥ 1.7 |
| Colours.SmurfLossPercentBackgroundColor | flask_app/app.py:99-108 | gray exactly for `None`, green for ≤ 10, red for ≥ 17.5 |
| Colours.SameRaceLossPercentBackgroundColor | flask_app/app.py:115-124 | gray exactly for `None`, green for ≤ 60, red for ≥ 70 |
| Colours.ColoursAgreeWithScorer | flask_app/app.py:51-124 | for a nonzero value each colour is that of the scorer's band, except the short-loss percentage at exactly 10 |
| Colours.SmurfLossPercentTenDisagrees | flask_app/app.py:103-108 | 10% short losses shows green but scores a full point |
| Colours.ZeroIsClassified | flask_app/app.py:51-124 | a value of 0 gets a colour while the scorer counts it as missing |
| Stats.RoundHalfEven | app/matches.py:273 | `round` gives an integer within 0.5 of its argument, and the even one on a tie |
| Stats.RoundUnique | app/matches.py:273 | the rounding rule (within 0.5, even on a tie) admits one integer only, so every contract stated with it fixes the value |
| Stats.RoundWithin | app/matches.py:276-277 | rounding stays within an interval whose ends are integers |
| Stats.Round2 | app/matches.py:278 | `round(x, 2)` is a whole number of hundredths within 0.005 of `x`, the rounding of 100·x in hundredths (even on a tie), and never negative for a non-negative `x` |
| Stats.Percent | app/matches.py:273 | `round(n / d * 100)` is the rounding of 100·n/d (within 0.5, even on a tie); it lies in [0, 100] when n ≤ d, is 0 for n = 0 and 100 for n = d |
| Stats.PercentTies | app/matches.py:273-311 | exact halves go to the even neighbour: 1 of 8 gives 12, 19 of 200 gives 10, 121 of 200 gives 60 |
| Stats.PercentOf | app/matches.py:284 | a guarded percentage is `None` exactly when its denominator is 0, and otherwise the rounding of 100·n/d, even on a tie |
| Stats.RatioOf | app/matches.py:295 | a guarded two-decimal ratio is `None` exactly when its denominator is 0, and otherwise n/d rounded to hundredths (within 0.005, even on a tie), never negative |
| Stats.Mean | app/matches.py:276-277 | the average of a non-empty list, taken once per element, gives the list's sum |
| Stats.MeanBounds | app/matches.py:276-277 | the average of values in [lo, hi] lies in [lo, hi] |
| Stats.AvgDuration | app/matches.py:276-277 | `round(average(durations))` is present exactly for a non-empty class, and is the rounding of the mean duration, even on a tie |
| Stats.EmptyMatchStats | app/matches.py:236-258 | every field is `None` |
| Stats.GetMatchStats | app/matches.py:261-340 | the statistics are all `None` exactly when there are no matches |
| Stats.NoMatchesNoStats | app/matches.py:263-265 | no matches give a record with every field `None` |
| Stats.StatsCounts | app/matches.py:267-311 | win_count + loss_count ≤ match_count, with equality when every result is WIN or LOSS; short wins ≤ wins; short losses ≤ losses; same-race wins + losses ≤ same-race games ≤ matches |
| Stats.StatsCountClasses | app/matches.py:267-289 | the win, loss, short-win and short-loss counts are the numbers of positions holding a game of that class |
| Stats.SameRaceCountClasses | app/matches.py:297-309 | the same-race game, win and loss counts are the numbers of positions holding a game of that class |
| Stats.UnknownRacesAreSameRace | app/matches.py:298-299 | a game where neither race is known counts as a same-race game |
| Stats.StatsPercentages | app/matches.py:273-290 | the win percentage is present and each short-game percentage is `None` exactly when its class is empty; each lies in [0, 100] and is the rounding (even on a tie) of 100 × its count ÷ its denominator count |
| Stats.SameRacePercentages | app/matches.py:302-312 | the same-race percentages are `None` exactly when there is no same-race game, and otherwise lie in [0, 100] and are the roundings (even on a tie) of 100 × same-race wins (or losses) ÷ same-race games |
| Stats.StatsDurationFields | app/matches.py:276-278 | each average exists exactly for a non-empty class and is the rounding of its mean duration, even on a tie; the duration ratio exists exactly when both averages are nonzero and is average win ÷ average loss duration rounded to hundredths, even on a tie |
| Stats.StatsDeltaAndRatio | app/matches.py:295-314 | the rating delta exists exactly when both ratings are nonzero and is `rating_max - rating_last`; the short-game ratio exists exactly when there is a short loss, and is short wins ÷ short losses rounded to hundredths, even on a tie |
| Stats.AvgDurationWithin | app/matches.py:276-277 | a rounded average duration lies between the shortest and longest game it averages |
| Stats.AvgWinDurationWithin | app/matches.py:277 | the average win duration lies between the shortest and longest win |
| Stats.StatsScore | app/matches.py:315-317 | the score and label are the scorer's verdict on the five signals the statistics hold, with score in [0, 5] |

## Left out

- The network. `get_matches`, `get_character_search`, `get_character_summary` and
  `get_character_common` are replaced by their responses, given as inputs. An endless
  non-empty match feed is not modelled, because the pages are a finite sequence.
- `write_json` and all logging. They produce no result that the core reads.
- The clock. `timestamp()` is the `startDate` parameter.
- The `matchType` argument of `get_matches_for_profile`. It only reaches the service call.
- `player_from_character_id` (app/player.py:36-55). It is a service call and record lookups.
  Its race inference at line 45 is not caught, so a record with no race counter or several
  raises there. `Players.InferRace` models the caught form of the same `one()` call at
  app/matches.py:94-101, which gives `None` instead.
- The `matches`, `stats` and `mmr_plot_path` slots of `Player`. The statistics take the match
  list as a separate argument.
- Screenshot reading, plotting, the watch loop, the web routes and the environment-derived
  paths. They are outside the core.
- Floating-point error. Percentages, averages and ratios are exact reals.
- `average`. `app/utils/math_utils.py` is not part of this model; it is taken to be the
  arithmetic mean (`Stats.Mean`).
- Character ids are natural numbers and the `str()` conversions are omitted. The source keys
  its dictionaries by the decimal string of the id, which is one-to-one.
- Stats.GetMatchStats: the `match.duration is None` test of the short-game filters is not
  modelled. Parsed durations are never `None`, because a missing duration is stored as 0.
- Matches.ParseMatch: other exceptions raised while reading a record, such as a missing JSON
  field, are not modelled, because records are typed values. The only error is the missing
  player key.
- Players.CharacterSearch: a search name of `None` is not modelled; names are strings. The
  caller at app/smurf_check.py:48 can pass `None` when no opponent name is given on the
  command line.
- Players.CharacterSearch: a race name outside `GAMES_PLAYED_MAP` is not modelled, because races
  are the `Race` type. In the source the race is free text from the command line, and such a
  race makes `GAMES_PLAYED_MAP[race]` at app/player.py:88 raise `KeyError`, which the handler
  at lines 139-142 turns into `None`.
- Players.SelectProfile: exceptions other than indexing an empty list are not modelled, such
  as a malformed profile record. The profiles are typed values.
