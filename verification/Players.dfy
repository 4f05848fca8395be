/** Player records and profile selection from app/player.py: the race counters of
    `GAMES_PLAYED_MAP`, `player_from_summary` and the filter cascade of
    `player_from_character_search` over an already fetched list of search results. */
module Players {
  import opened Wrappers
  import opened Collections

  datatype Race = Random | Zerg | Terran | Protoss

  /** The races of `GAMES_PLAYED_MAP`, in declaration order. */
  const RaceOrder: seq<Race> := [Random, Zerg, Terran, Protoss]

  /** `GAMES_PLAYED_MAP`: the key of a profile record whose presence shows the race was played. */
  function GamesPlayedKey(r: Race): string {
    match r
    case Random => "randomGamesPlayed"
    case Zerg => "zergGamesPlayed"
    case Terran => "terranGamesPlayed"
    case Protoss => "protossGamesPlayed"
  }

  /** `[race for race in GAMES_PLAYED_MAP if GAMES_PLAYED_MAP[race] in members]`, written out
      over the four entries of the map in their order. */
  function RacesPresent(keys: set<string>): (r: seq<Race>)
    ensures forall race :: race in r <==> GamesPlayedKey(race) in keys
  {
    (if GamesPlayedKey(Random) in keys then [Random] else [])
    + (if GamesPlayedKey(Zerg) in keys then [Zerg] else [])
    + (if GamesPlayedKey(Terran) in keys then [Terran] else [])
    + (if GamesPlayedKey(Protoss) in keys then [Protoss] else [])
  }

  /** `one(RacesPresent(members))`, with the error `one` raises for none or several races read as
      `None`: a record names a race exactly when it carries that race's counter and no other. */
  function InferRace(keys: set<string>): (r: Option<Race>)
    ensures forall race :: r == Some(race) <==>
              GamesPlayedKey(race) in keys && forall other :: other != race ==> GamesPlayedKey(other) !in keys
  {
    var present := RacesPresent(keys);
    if |present| == 1 then Some(present[0]) else None
  }

  /** The `Player` dataclass, without the `matches`, `stats` and `mmr_plot_path` slots that later
      stages fill in. Character ids are the numeric ids of the statistics service. */
  datatype Player = Player(
    characterId: Option<nat>,
    name: Option<string>,
    race: Option<Race>,
    region: Option<string>,
    realm: Option<string>,
    ratingAvg: Option<int>,
    ratingMax: Option<int>,
    ratingLast: Option<int>)

  /** Python truthiness of an optional integer: `None` and `0` are falsy. */
  predicate IntTruthy(x: Option<int>) {
    x.Some? && x.value != 0
  }

  /** Python truthiness of an optional string: `None` and `""` are falsy. */
  predicate StrTruthy(x: Option<string>) {
    x.Some? && x.value != ""
  }

  // ---------------------------------------------------------------------------------------------
  // player_from_summary

  /** One entry of the 1v1 summary response: a race and the ratings over the requested depth. */
  datatype SummaryEntry = SummaryEntry(race: Option<Race>, ratingAvg: Option<int>, ratingMax: Option<int>, ratingLast: Option<int>)

  /** The `KeyError` raised when no summary entry has the requested race. */
  datatype SummaryError = NoProfileForRace(race: Option<Race>)

  function EntryRace(e: SummaryEntry): Option<Race> {
    e.race
  }

  function PlayerFromSummaryEntry(characterId: nat, name: Option<string>, race: Option<Race>,
                                  region: Option<string>, e: SummaryEntry): Player {
    Player(Some(characterId), name, race, region, None, e.ratingAvg, e.ratingMax, e.ratingLast)
  }

  /** `player_from_summary` over the summary response `data`: a single entry is used whatever its
      race; otherwise entries are indexed by race and the last one of the requested race is used,
      and a missing race is an error that reaches the caller. */
  method PlayerFromSummary(characterId: nat, name: Option<string>, race: Option<Race>, region: Option<string>,
                           data: seq<SummaryEntry>) returns (r: Result<Player, SummaryError>)
    ensures |data| == 1 ==> r == Success(PlayerFromSummaryEntry(characterId, name, race, region, data[0]))
    ensures |data| != 1 ==> (r.Success? <==> exists e :: e in data && e.race == race)
    ensures |data| != 1 && r.Success? ==>
              exists i :: 0 <= i < |data| && data[i].race == race && (forall j :: i < j < |data| ==> data[j].race != race)
                          && r.value == PlayerFromSummaryEntry(characterId, name, race, region, data[i])
  {
    if |data| == 1 {
      return Success(PlayerFromSummaryEntry(characterId, name, race, region, data[0]));
    }
    var profileByRace: map<Option<Race>, SummaryEntry> := map[];
    for i := 0 to |data|
      invariant profileByRace == IndexBy(data[..i], EntryRace)
    {
      assert data[..i + 1][..i] == data[..i];
      profileByRace := profileByRace[data[i].race := data[i]];
    }
    assert data[..|data|] == data;
    if race in profileByRace {
      IndexByEntry(data, EntryRace, race);
      r := Success(PlayerFromSummaryEntry(characterId, name, race, region, profileByRace[race]));
    } else {
      r := Failure(NoProfileForRace(race));
    }
  }

  // ---------------------------------------------------------------------------------------------
  // player_from_character_search

  /** One result of the character search: the member character's id, name and region, the keys
      present in its `members` record, its current rating and its maximum rating. */
  datatype SearchProfile = SearchProfile(
    characterId: nat,
    name: string,
    region: string,
    memberKeys: set<string>,
    rating: Option<int>,
    ratingMax: Option<int>)

  /** Python's `sub in s` on strings. */
  predicate IsSubstring(sub: string, s: string) {
    exists i :: 0 <= i <= |s| - |sub| && OccursAt(sub, s, i)
  }

  predicate OccursAt(sub: string, s: string, i: int)
    requires 0 <= i <= |s| - |sub|
  {
    s[i..i + |sub|] == sub
  }

  /** `_filter_on_name`: profiles whose character name contains `name`. */
  function FilterOnName(name: string, profiles: seq<SearchProfile>): (r: seq<SearchProfile>)
    ensures forall p :: p in r <==> p in profiles && IsSubstring(name, p.name)
  {
    var keep := (p: SearchProfile) => IsSubstring(name, p.name);
    FilterMembers(profiles, keep);
    Filter(profiles, keep)
  }

  /** `_filter_on_race`: profiles whose members record has the race's games-played key. */
  function FilterOnRace(race: Race, profiles: seq<SearchProfile>): (r: seq<SearchProfile>)
    ensures forall p :: p in r <==> p in profiles && GamesPlayedKey(race) in p.memberKeys
  {
    var keep := (p: SearchProfile) => GamesPlayedKey(race) in p.memberKeys;
    FilterMembers(profiles, keep);
    Filter(profiles, keep)
  }

  /** `_filter_on_region`: profiles in the given region. */
  function FilterOnRegion(region: string, profiles: seq<SearchProfile>): (r: seq<SearchProfile>)
    ensures forall p :: p in r <==> p in profiles && p.region == region
  {
    var keep := (p: SearchProfile) => region == p.region;
    FilterMembers(profiles, keep);
    Filter(profiles, keep)
  }

  /** The sort key of `_sort_on_mmr`: the distance of the rating from `myMmr`, or 100000 for a
      falsy rating. */
  function MmrDistance(myMmr: int, p: SearchProfile): (d: nat)
    ensures IntTruthy(p.rating) ==> d as int == if p.rating.value >= myMmr then p.rating.value - myMmr else myMmr - p.rating.value
    ensures !IntTruthy(p.rating) ==> d == 100000
  {
    if IntTruthy(p.rating) then
      (if p.rating.value - myMmr >= 0 then p.rating.value - myMmr else myMmr - p.rating.value)
    else 100000
  }

  /** `MmrDistance` from a fixed rating, as a sort key. */
  function DistanceFrom(myMmr: int): SearchProfile -> int {
    p => MmrDistance(myMmr, p)
  }

  /** `_sort_on_mmr`: a stable sort of the profiles by `MmrDistance`. */
  function SortOnMmr(myMmr: int, profiles: seq<SearchProfile>): (r: seq<SearchProfile>)
    ensures multiset(r) == multiset(profiles)
    ensures forall i, j :: 0 <= i < j < |r| ==> MmrDistance(myMmr, r[i]) <= MmrDistance(myMmr, r[j])
  {
    SortBy(DistanceFrom(myMmr), profiles)
  }

  /** The sort is stable: at every distance, the profiles keep their relative order. */
  lemma SortOnMmrStable(myMmr: int, profiles: seq<SearchProfile>, d: nat)
    ensures Filter(SortOnMmr(myMmr, profiles), AtKey(DistanceFrom(myMmr), d))
            == Filter(profiles, AtKey(DistanceFrom(myMmr), d))
  {
    SortByStable(DistanceFrom(myMmr), profiles, d);
  }

  /** `_player_from_name_search`: the player built from a chosen search result. It keeps the
      searched name and race rather than the profile's own. */
  function PlayerFromNameSearch(name: string, race: Option<Race>, p: SearchProfile): (r: Player)
    ensures r.name == Some(name) && r.race == race
    ensures r.characterId == Some(p.characterId) && r.region == Some(p.region)
    ensures r.ratingLast == p.rating && r.ratingMax == p.ratingMax
    ensures r.ratingAvg.None? && r.realm.None?
  {
    Player(Some(p.characterId), Some(name), race, Some(p.region), None, None, p.ratingMax, p.rating)
  }

  /** The list left after the race stage of the cascade: the race filter, undone when it leaves
      nothing. */
  function AfterRaceStage(race: Option<Race>, byName: seq<SearchProfile>): (r: seq<SearchProfile>)
    ensures forall p :: p in r ==> p in byName
    ensures race.Some? && (exists p :: p in byName && GamesPlayedKey(race.value) in p.memberKeys) ==>
              forall p :: p in r <==> p in byName && GamesPlayedKey(race.value) in p.memberKeys
    ensures (race.None? || forall p :: p in byName ==> GamesPlayedKey(race.value) !in p.memberKeys) ==>
              r == byName
  {
    if race.Some? && FilterOnRace(race.value, byName) != [] then
      assert FilterOnRace(race.value, byName)[0] in FilterOnRace(race.value, byName);
      FilterOnRace(race.value, byName)
    else byName
  }

  /** The list the region stage picks from: the region filter when a region is given. */
  function RegionFiltered(region: Option<string>, restored: seq<SearchProfile>): seq<SearchProfile> {
    if StrTruthy(region) then FilterOnRegion(region.value, restored) else restored
  }

  /** `p` is the first profile of `profiles` at its distance from `myMmr`: every profile before
      it is strictly farther, which is where a stable sort by distance puts the nearest first. */
  predicate FirstNearest(myMmr: int, p: SearchProfile, profiles: seq<SearchProfile>) {
    exists i :: 0 <= i < |profiles| && profiles[i] == p
                && forall j :: 0 <= j < i ==> MmrDistance(myMmr, profiles[j]) > MmrDistance(myMmr, p)
  }

  /** The end of the cascade, from the list left by the race stage: a region filter that leaves
      one profile decides; otherwise the nearest rating first when a comparison rating is given,
      and the head of the list, if any. */
  function RegionStage(region: Option<string>, comparisonMmr: Option<int>, restored: seq<SearchProfile>)
    : (r: Option<SearchProfile>)
    ensures r.None? <==> RegionFiltered(region, restored) == []
    ensures r.Some? ==> r.value in restored && r.value in RegionFiltered(region, restored)
    ensures r.Some? && StrTruthy(region) ==> r.value.region == region.value
    ensures StrTruthy(region) && |RegionFiltered(region, restored)| == 1 ==> r == Some(RegionFiltered(region, restored)[0])
    ensures !IntTruthy(comparisonMmr) && r.Some? ==> r == Some(RegionFiltered(region, restored)[0])
    ensures IntTruthy(comparisonMmr) && r.Some? ==>
              forall p :: p in RegionFiltered(region, restored) ==>
                MmrDistance(comparisonMmr.value, r.value) <= MmrDistance(comparisonMmr.value, p)
    ensures IntTruthy(comparisonMmr) && r.Some? ==>
              FirstNearest(comparisonMmr.value, r.value, RegionFiltered(region, restored))
  {
    var byRegion := RegionFiltered(region, restored);
    if StrTruthy(region) && |byRegion| == 1 then
      OnlyIsNearest(comparisonMmr, byRegion);
      Some(byRegion[0])
    else
      var ordered := if IntTruthy(comparisonMmr) then SortOnMmr(comparisonMmr.value, byRegion) else byRegion;
      if IntTruthy(comparisonMmr) then
        SortedHeadIsNearest(comparisonMmr.value, byRegion);
        if ordered == [] then None else Some(ordered[0])
      else if ordered == [] then None
      else Some(ordered[0])
  }

  /** The only profile of a one-element list is the first nearest to any rating. */
  lemma OnlyIsNearest(comparisonMmr: Option<int>, profiles: seq<SearchProfile>)
    requires |profiles| == 1
    ensures IntTruthy(comparisonMmr) ==>
              (forall p :: p in profiles ==> MmrDistance(comparisonMmr.value, profiles[0]) <= MmrDistance(comparisonMmr.value, p))
              && FirstNearest(comparisonMmr.value, profiles[0], profiles)
  {
    if IntTruthy(comparisonMmr) {
      assert profiles[0] == profiles[0];
    }
  }

  /** The head of the stable sort by distance is a profile of the list, nearest the rating, and
      the first of the nearest in list order; the sort of an empty list is empty. */
  lemma SortedHeadIsNearest(myMmr: int, profiles: seq<SearchProfile>)
    ensures |SortOnMmr(myMmr, profiles)| == |profiles|
    ensures profiles != [] ==>
              var h := SortOnMmr(myMmr, profiles)[0];
              && h in profiles
              && (forall p :: p in profiles ==> MmrDistance(myMmr, h) <= MmrDistance(myMmr, p))
              && FirstNearest(myMmr, h, profiles)
  {
    SortByLength(DistanceFrom(myMmr), profiles);
    if profiles != [] {
      SortByHeadIsLeast(DistanceFrom(myMmr), profiles);
      SortByHeadIsFirstLeast(DistanceFrom(myMmr), profiles);
    }
  }

  /** The profile chosen by the cascade of `player_from_character_search` from the search results
      `all`, or `None` where the source's exception handler returns `None` (indexing an empty list). */
  function SelectProfile(name: string, race: Option<Race>, region: Option<string>, comparisonMmr: Option<int>,
                         all: seq<SearchProfile>): (r: Option<SearchProfile>)
    ensures r.Some? ==> r.value in all && IsSubstring(name, r.value.name)
    ensures FilterOnName(name, all) == [] ==> r.None?
  {
    var byName := FilterOnName(name, all);
    if |byName| == 1 then Some(byName[0])
    else if race.Some? && |FilterOnRace(race.value, byName)| == 1 then Some(FilterOnRace(race.value, byName)[0])
    else RegionStage(region, comparisonMmr, AfterRaceStage(race, byName))
  }

  /** `player_from_character_search` over the search results `all`: the player built from the
      profile the cascade selects. */
  function CharacterSearch(name: string, race: Option<Race>, region: Option<string>, comparisonMmr: Option<int>,
                           all: seq<SearchProfile>): (r: Option<Player>)
    ensures r.Some? ==> r.value.name == Some(name) && r.value.race == race
    ensures r.Some? ==> exists p :: p in all && IsSubstring(name, p.name) && r.value == PlayerFromNameSearch(name, race, p)
    ensures r.None? <==> SelectProfile(name, race, region, comparisonMmr, all).None?
    ensures r.Some? ==> r.value == PlayerFromNameSearch(name, race, SelectProfile(name, race, region, comparisonMmr, all).value)
  {
    match SelectProfile(name, race, region, comparisonMmr, all)
    case None => None
    case Some(p) => Some(PlayerFromNameSearch(name, race, p))
  }

  /** A name filter that leaves exactly one profile decides, whatever the race, region or rating. */
  lemma UniqueNameMatchWins(name: string, race: Option<Race>, region: Option<string>, comparisonMmr: Option<int>,
                            all: seq<SearchProfile>)
    requires |FilterOnName(name, all)| == 1
    ensures SelectProfile(name, race, region, comparisonMmr, all) == Some(FilterOnName(name, all)[0])
  {
  }

  /** A race filter that removes every name match is undone: the outcome is as if no race had
      been given. */
  lemma RaceFilterEmptyIsUndone(name: string, race: Race, region: Option<string>, comparisonMmr: Option<int>,
                                all: seq<SearchProfile>)
    requires |FilterOnName(name, all)| != 1
    requires FilterOnRace(race, FilterOnName(name, all)) == []
    ensures SelectProfile(name, Some(race), region, comparisonMmr, all) == SelectProfile(name, None, region, comparisonMmr, all)
  {
  }

  /** Several name matches and a race filter that leaves exactly one: that one is chosen,
      whatever the region or rating. */
  lemma RaceUniqueWins(name: string, race: Race, region: Option<string>, comparisonMmr: Option<int>,
                       all: seq<SearchProfile>)
    requires |FilterOnName(name, all)| != 1
    requires |FilterOnRace(race, FilterOnName(name, all))| == 1
    ensures SelectProfile(name, Some(race), region, comparisonMmr, all) == Some(FilterOnRace(race, FilterOnName(name, all))[0])
  {
  }

  /** When some name match has played the race, the race filter is kept: whatever is chosen has
      played it. */
  lemma RaceFilterKept(name: string, race: Race, region: Option<string>, comparisonMmr: Option<int>,
                       all: seq<SearchProfile>)
    requires exists p :: p in FilterOnName(name, all) && GamesPlayedKey(race) in p.memberKeys
    ensures var r := SelectProfile(name, Some(race), region, comparisonMmr, all);
            r.Some? ==> GamesPlayedKey(race) in r.value.memberKeys
  {
    var byName := FilterOnName(name, all);
    if |byName| == 1 {
      var p :| p in byName && GamesPlayedKey(race) in p.memberKeys;
      assert p == byName[0];
    } else if |FilterOnRace(race, byName)| == 1 {
      assert FilterOnRace(race, byName)[0] in FilterOnRace(race, byName);
    }
  }

  /** With a region given, a region filter that leaves exactly one profile decides, whatever the
      rating. */
  lemma RegionUniqueWins(name: string, race: Option<Race>, region: string, comparisonMmr: Option<int>,
                         all: seq<SearchProfile>)
    requires region != ""
    requires |FilterOnName(name, all)| != 1
    requires race.Some? ==> |FilterOnRace(race.value, FilterOnName(name, all))| != 1
    requires |FilterOnRegion(region, AfterRaceStage(race, FilterOnName(name, all)))| == 1
    ensures SelectProfile(name, race, Some(region), comparisonMmr, all)
            == Some(FilterOnRegion(region, AfterRaceStage(race, FilterOnName(name, all)))[0])
  {
  }

  /** Without a truthy comparison rating, when no earlier return applies, the head of the list
      left by the race and region filters is chosen, and `None` comes when that list is empty. */
  lemma HeadFallback(name: string, race: Option<Race>, region: Option<string>, comparisonMmr: Option<int>,
                     all: seq<SearchProfile>)
    requires !IntTruthy(comparisonMmr)
    requires |FilterOnName(name, all)| != 1
    requires race.Some? ==> |FilterOnRace(race.value, FilterOnName(name, all))| != 1
    ensures var left := RegionFiltered(region, AfterRaceStage(race, FilterOnName(name, all)));
            SelectProfile(name, race, region, comparisonMmr, all) == if left == [] then None else Some(left[0])
  {
  }

  /** With a truthy comparison rating, when no earlier return applies, the chosen profile is
      among those left by the race and region filters, at least as near the rating as every one of
      them, and the first in list order among the equally near ones. */
  lemma NearestRemainingChosen(name: string, race: Option<Race>, region: Option<string>, comparisonMmr: int,
                               all: seq<SearchProfile>)
    requires comparisonMmr != 0
    requires |FilterOnName(name, all)| != 1
    requires race.Some? ==> |FilterOnRace(race.value, FilterOnName(name, all))| != 1
    ensures var left := RegionFiltered(region, AfterRaceStage(race, FilterOnName(name, all)));
            var r := SelectProfile(name, race, region, Some(comparisonMmr), all);
            && (r.None? <==> left == [])
            && (r.Some? ==> r.value in left
                            && (forall p :: p in left ==> MmrDistance(comparisonMmr, r.value) <= MmrDistance(comparisonMmr, p))
                            && FirstNearest(comparisonMmr, r.value, left))
  {
  }

  /** A region filter that removes every remaining profile is not undone, and the search ends in
      `None`. */
  lemma {:induction false} RegionFilterEmptyIsNone(name: string, race: Option<Race>, region: string, comparisonMmr: Option<int>,
                                all: seq<SearchProfile>)
    requires region != ""
    requires |FilterOnName(name, all)| != 1
    requires race.Some? ==> |FilterOnRace(race.value, FilterOnName(name, all))| != 1
    requires FilterOnRegion(region, AfterRaceStage(race, FilterOnName(name, all))) == []
    ensures SelectProfile(name, race, Some(region), comparisonMmr, all).None?
  {
    var byName := FilterOnName(name, all);
    var restored := AfterRaceStage(race, byName);
    assert SelectProfile(name, race, Some(region), comparisonMmr, all)
        == RegionStage(Some(region), comparisonMmr, restored);
    if IntTruthy(comparisonMmr) {
      assert |SortOnMmr(comparisonMmr.value, [])| == 0 by {
        assert multiset(SortOnMmr(comparisonMmr.value, [])) == multiset{};
      }
    }
  }

  /** With a comparison rating and no race or region, several name matches are ordered by
      distance from that rating and the nearest one is chosen. */
  lemma {:induction false} NearestRatingChosen(name: string, comparisonMmr: int, all: seq<SearchProfile>)
    requires comparisonMmr != 0
    requires |FilterOnName(name, all)| > 1
    ensures var r := SelectProfile(name, None, None, Some(comparisonMmr), all);
            r == Some(SortOnMmr(comparisonMmr, FilterOnName(name, all))[0])
            && forall p :: p in FilterOnName(name, all) ==> MmrDistance(comparisonMmr, r.value) <= MmrDistance(comparisonMmr, p)
  {
    SortByHeadIsLeast(DistanceFrom(comparisonMmr), FilterOnName(name, all));
  }
}
