/** The match history of app/matches.py: raw records of the match-history service, their parsing
    into `Match` values, `get_match_participants` and the paginated loop of
    `get_matches_for_profile`. */
module Matches {
  import opened Wrappers
  import opened Collections
  import opened Players

  /** A member of a team record: the character's id and name, and the keys present in the record
      (among them the race counters of `GAMES_PLAYED_MAP`). */
  datatype RawMember = RawMember(characterId: nat, name: string, keys: set<string>)

  /** A team record: its rating and its members. */
  datatype RawTeam = RawTeam(rating: Option<int>, members: seq<RawMember>)

  /** An entry of a record's `participants` list: the player's character id, the decision
      ("WIN", "LOSS", ...) and the team, which the service may leave out. */
  datatype RawParticipant = RawParticipant(playerCharacterId: nat, decision: string, team: Option<RawTeam>)

  /** One record of the match-history response. */
  datatype RawMatch = RawMatch(
    matchType: string,
    date: string,
    duration: Option<int>,
    mapName: string,
    participants: seq<RawParticipant>)

  /** The `Match` dataclass. `participants` is the dictionary of `get_match_participants`. */
  datatype Match = Match(
    player: Player,
    opponent: Player,
    date: string,
    duration: int,
    mapName: string,
    result: string,
    matchType: string,
    participants: map<nat, RawParticipant>)

  /** The `KeyError` of looking the profile's character up among the participants, which the
      parsing loop re-raises. */
  datatype ParseError = PlayerNotAmongParticipants(date: string)

  // ---------------------------------------------------------------------------------------------
  // get_match_participants

  function ParticipantKey(p: RawParticipant): nat {
    p.playerCharacterId
  }

  /** The character ids of the participants of a record. */
  function Ids(ps: seq<RawParticipant>): set<nat> {
    set p | p in ps :: p.playerCharacterId
  }

  /** `get_match_participants`: the participants by character id; a later entry with the same id
      replaces an earlier one. */
  method GetMatchParticipants(m: RawMatch) returns (participants: map<nat, RawParticipant>)
    ensures participants == IndexBy(m.participants, ParticipantKey)
    ensures participants.Keys == Ids(m.participants)
    ensures forall k :: k in participants ==> participants[k] in m.participants && participants[k].playerCharacterId == k
  {
    participants := map[];
    for i := 0 to |m.participants|
      invariant participants == IndexBy(m.participants[..i], ParticipantKey)
    {
      assert m.participants[..i + 1][..i] == m.participants[..i];
      participants := participants[m.participants[i].playerCharacterId := m.participants[i]];
    }
    assert m.participants[..|m.participants|] == m.participants;
    forall k | k in participants
      ensures participants[k] in m.participants && participants[k].playerCharacterId == k
    {
      IndexByEntry(m.participants, ParticipantKey, k);
    }
  }

  // ---------------------------------------------------------------------------------------------
  // Parsing one record

  /** The first participant id other than `playerId`, in list order. */
  function FirstOtherId(ps: seq<RawParticipant>, playerId: nat): (r: Option<nat>)
    ensures r.Some? ==> r.value in Ids(ps) && r.value != playerId
    ensures r.None? ==> Ids(ps) <= {playerId}
  {
    if ps == [] then None
    else if ps[0].playerCharacterId != playerId then Some(ps[0].playerCharacterId)
    else
      var r := FirstOtherId(ps[1..], playerId);
      assert Ids(ps) == {ps[0].playerCharacterId} + Ids(ps[1..]) by {
        assert ps == [ps[0]] + ps[1..];
      }
      r
  }

  /** `one(filter(lambda x: str(x) != str(player_id), participants))`, with the error `one` raises
      read as `None`: the opponent is the participant key other than the player's when there is
      exactly one. */
  function OpponentId(ps: seq<RawParticipant>, playerId: nat): (r: Option<nat>)
    ensures r.Some? <==> |Ids(ps) - {playerId}| == 1
    ensures r.Some? ==> Ids(ps) - {playerId} == {r.value}
  {
    var others := Ids(ps) - {playerId};
    if |others| == 1 then
      var r := FirstOtherId(ps, playerId);
      assert r.value in others;
      assert others - {r.value} == {} by {
        assert |others - {r.value}| == 0;
      }
      r
    else None
  }

  function MemberKey(m: RawMember): nat {
    m.characterId
  }

  /** The opponent as `get_matches_for_profile` builds it: rating, name and race are read from the
      opponent's team record, and each is `None` where a guard of the source fails. */
  function OpponentOf(participants: map<nat, RawParticipant>, opponentId: Option<nat>): (r: Player)
    requires opponentId.Some? ==> opponentId.value in participants
    ensures r.characterId == opponentId
    ensures opponentId.None? || participants[opponentId.value].team.None? ==>
              r.name.None? && r.race.None? && r.ratingLast.None?
    ensures r.race.Some? ==>
              exists m :: m in participants[opponentId.value].team.value.members && m.characterId == opponentId.value
                          && InferRace(m.keys) == r.race
    ensures opponentId.Some? && participants[opponentId.value].team.Some? ==>
              r.ratingLast == participants[opponentId.value].team.value.rating
    ensures opponentId.Some? && participants[opponentId.value].team.Some? ==>
              (r.name.Some? <==> exists m :: m in participants[opponentId.value].team.value.members
                                             && m.characterId == opponentId.value)
    ensures r.name.Some? ==>
              exists i :: 0 <= i < |participants[opponentId.value].team.value.members|
                          && var m := participants[opponentId.value].team.value.members[i];
                          && m.characterId == opponentId.value && r.name == Some(m.name) && r.race == InferRace(m.keys)
                          && forall j :: i < j < |participants[opponentId.value].team.value.members| ==>
                               participants[opponentId.value].team.value.members[j].characterId != opponentId.value
    ensures r.region.None? && r.realm.None? && r.ratingAvg.None? && r.ratingMax.None?
  {
    if opponentId.None? then Player(None, None, None, None, None, None, None, None)
    else
      var team := participants[opponentId.value].team;
      if team.None? then Player(opponentId, None, None, None, None, None, None, None)
      else
        match OpponentCharacter(team.value.members, opponentId.value)
        case Some(character) =>
          Player(opponentId, Some(character.name), InferRace(character.keys), None, None, None, None, team.value.rating)
        case None =>
          Player(opponentId, None, None, None, None, None, None, team.value.rating)
  }

  /** `opponent_characters[opponent_id]` over the dictionary of the opponent team's members by
      character id: the last member with that id, or `None` when no member has it. */
  function OpponentCharacter(members: seq<RawMember>, id: nat): (c: Option<RawMember>)
    ensures c.None? <==> forall m :: m in members ==> m.characterId != id
    ensures c.Some? ==>
              exists i :: 0 <= i < |members| && members[i] == c.value && c.value.characterId == id
                          && forall j :: i < j < |members| ==> members[j].characterId != id
  {
    var characters := IndexBy(members, MemberKey);
    if id in characters then
      IndexByEntry(members, MemberKey, id);
      Some(characters[id])
    else
      assert forall m :: m in members ==> MemberKey(m) in characters;
      None
  }

  /** The body of the parsing loop for one record: a `KeyError` when the profile's character is
      not among the participants, a `Match` otherwise. */
  function ParseMatch(profile: Player, raw: RawMatch): (r: Result<Match, ParseError>)
    ensures r.Failure? <==> profile.characterId.None? || profile.characterId.value !in Ids(raw.participants)
  {
    var participants := IndexBy(raw.participants, ParticipantKey);
    assert participants.Keys == Ids(raw.participants);
    if profile.characterId.None? || profile.characterId.value !in participants then
      Failure(PlayerNotAmongParticipants(raw.date))
    else
      var playerId := profile.characterId.value;
      var entry := participants[playerId];
      var duration := if raw.duration.Some? then raw.duration.value else 0;
      var playerMmr := if entry.team.Some? then entry.team.value.rating else None;
      var opponentId := OpponentId(raw.participants, playerId);
      var player := Player(Some(playerId), profile.name, profile.race, None, None, None, None, playerMmr);
      Success(Match(player, OpponentOf(participants, opponentId), raw.date, duration, raw.mapName,
                    entry.decision, raw.matchType, participants))
  }

  /** What a parsed record holds: the record's date, type and map, its duration or 0, the
      participants by id, the profile's character with its decision and its team's rating, and
      the opponent as `OpponentOf` builds it from the unique other id. */
  lemma ParseMatchFields(profile: Player, raw: RawMatch)
    requires ParseMatch(profile, raw).Success?
    ensures var m := ParseMatch(profile, raw).value;
            && m.date == raw.date && m.matchType == raw.matchType && m.mapName == raw.mapName
            && m.duration == (if raw.duration.Some? then raw.duration.value else 0)
            && m.participants.Keys == Ids(raw.participants)
            && m.player.characterId == profile.characterId
            && m.player.name == profile.name && m.player.race == profile.race
            && m.result == m.participants[profile.characterId.value].decision
            && m.player.region.None? && m.player.realm.None? && m.player.ratingAvg.None? && m.player.ratingMax.None?
            && m.player.ratingLast == (if m.participants[profile.characterId.value].team.Some?
                                       then m.participants[profile.characterId.value].team.value.rating else None)
            && m.opponent.characterId == OpponentId(raw.participants, profile.characterId.value)
            && m.opponent == OpponentOf(m.participants, OpponentId(raw.participants, profile.characterId.value))
  {
  }

  /** A record whose duration is missing is stored with duration 0. */
  lemma NoneDurationIsZero(profile: Player, raw: RawMatch)
    requires raw.duration.None?
    requires ParseMatch(profile, raw).Success?
    ensures ParseMatch(profile, raw).value.duration == 0
  {
  }

  /** The body of the parsing loop as a function of the record. */
  function Parser(profile: Player): RawMatch -> Result<Match, ParseError> {
    raw => ParseMatch(profile, raw)
  }

  /** The parsing loop over one page, with `parse` for its body: the matches of the records in
      order, or the error of the first record that fails. */
  function ParsePage(parse: RawMatch -> Result<Match, ParseError>, page: seq<RawMatch>): (r: Result<seq<Match>, ParseError>)
  {
    if page == [] then Success([])
    else
      match ParsePage(parse, page[..|page| - 1])
      case Failure(e) => Failure(e)
      case Success(ms) =>
        match parse(page[|page| - 1])
        case Failure(e) => Failure(e)
        case Success(m) => Success(ms + [m])
  }

  /** A page parses when each of its records does, into the matches of its records in order. */
  lemma {:induction false} ParsePageSpec(parse: RawMatch -> Result<Match, ParseError>, page: seq<RawMatch>)
    ensures ParsePage(parse, page).Success? <==> forall i :: 0 <= i < |page| ==> parse(page[i]).Success?
    ensures ParsePage(parse, page).Success? ==>
              var ms := ParsePage(parse, page).value;
              |ms| == |page| && forall i :: 0 <= i < |page| ==> parse(page[i]) == Success(ms[i])
  {
    if page != [] {
      var n := |page| - 1;
      var init := page[..n];
      ParsePageSpec(parse, init);
      assert forall i :: 0 <= i < n ==> init[i] == page[i];
    }
  }

  // ---------------------------------------------------------------------------------------------
  // The paginated loop

  /** The page the service serves to the `k`-th call: the scripted responses, then empty pages. */
  function PageAt(pages: seq<seq<RawMatch>>, k: nat): seq<RawMatch> {
    if k < |pages| then pages[k] else []
  }

  /** The date of the next call: that of the last parsed record of the page, or the same date
      after an empty page. */
  function NextCursor(date: string, parsed: seq<Match>): string {
    if parsed == [] then date else parsed[|parsed| - 1].date
  }

  /** The filter `match.type == "_1V1"`. */
  predicate IsOneVsOne(m: Match) {
    m.matchType == "_1V1"
  }

  /** The filter `len(match.participants) <= 2`. */
  predicate AtMostTwoParticipants(m: Match) {
    |m.participants| <= 2
  }

  /** The matches of one page kept by the two filters. */
  function KeepSingles(page: seq<Match>): seq<Match> {
    Filter(Filter(page, IsOneVsOne), AtMostTwoParticipants)
  }

  /** The filters keep exactly the 1v1 matches with at most two participants. */
  lemma KeepSinglesMembers(page: seq<Match>)
    ensures forall m :: m in KeepSingles(page) <==> m in page && IsOneVsOne(m) && AtMostTwoParticipants(m)
  {
    FilterMembers(page, IsOneVsOne);
    FilterMembers(Filter(page, IsOneVsOne), AtMostTwoParticipants);
  }

  /** The `matches` list after the pages `parsed`: the kept matches of each page, page by page. */
  function Collect(parsed: seq<seq<Match>>): seq<Match> {
    if parsed == [] then []
    else Collect(parsed[..|parsed| - 1]) + KeepSingles(parsed[|parsed| - 1])
  }

  /** `stale_count` after the pages `parsed`: the number of empty ones. */
  function CountEmpty(parsed: seq<seq<Match>>): (r: nat)
    ensures r <= |parsed|
  {
    if parsed == [] then 0
    else CountEmpty(parsed[..|parsed| - 1]) + (if parsed[|parsed| - 1] == [] then 1 else 0)
  }

  /** Each of the pages `parsed` is what the page served to that call parses to. */
  ghost predicate ParsedInOrder(profile: Player, pages: seq<seq<RawMatch>>, parsed: seq<seq<Match>>) {
    parsed != [] ==>
      ParsedInOrder(profile, pages, parsed[..|parsed| - 1])
      && ParsePage(Parser(profile), PageAt(pages, |parsed| - 1)) == Success(parsed[|parsed| - 1])
  }

  /** `ParsedInOrder` page by page. */
  lemma {:induction false} ParsedInOrderAt(profile: Player, pages: seq<seq<RawMatch>>, parsed: seq<seq<Match>>, k: nat)
    requires ParsedInOrder(profile, pages, parsed)
    requires k < |parsed|
    ensures ParsePage(Parser(profile), PageAt(pages, k)) == Success(parsed[k])
  {
    if k < |parsed| - 1 {
      ParsedInOrderAt(profile, pages, parsed[..|parsed| - 1], k);
    }
  }

  /** `cursors` holds the date of each call and the date after the last page: each is the date
      after the page before it. */
  ghost predicate CursorsFollow(cursors: seq<string>, parsed: seq<seq<Match>>) {
    && |cursors| == |parsed| + 1
    && (parsed != [] ==>
          var n := |parsed|;
          CursorsFollow(cursors[..n], parsed[..n - 1]) && cursors[n] == NextCursor(cursors[n - 1], parsed[n - 1]))
  }

  /** `CursorsFollow` call by call. */
  lemma {:induction false} CursorsFollowAt(cursors: seq<string>, parsed: seq<seq<Match>>, k: nat)
    requires CursorsFollow(cursors, parsed)
    requires k < |parsed|
    ensures cursors[k + 1] == NextCursor(cursors[k], parsed[k])
  {
    var n := |parsed|;
    if k < n - 1 {
      CursorsFollowAt(cursors[..n], parsed[..n - 1], k);
    }
  }

  /** The loop condition `len(matches) < match_count and stale_count <= 4` held before each of the
      pages `parsed` was fetched. */
  ghost predicate KeptGoing(parsed: seq<seq<Match>>, matchCount: nat) {
    parsed != [] ==>
      var init := parsed[..|parsed| - 1];
      KeptGoing(init, matchCount) && |Collect(init)| < matchCount && CountEmpty(init) <= 4
  }

  /** The `for match in result` loop of `get_matches_for_profile` over one page: every record is
      parsed in turn and the date cursor is moved to each parsed record's date; the first record
      that fails aborts the loop. */
  method ParseRecords(profile: Player, data: seq<RawMatch>, date0: string)
    returns (r: Result<seq<Match>, ParseError>, date: string)
    ensures r == ParsePage(Parser(profile), data)
    ensures r.Success? ==> date == NextCursor(date0, r.value)
  {
    date := date0;
    var potential: seq<Match> := [];
    var i := 0;
    while i < |data|
      invariant i <= |data|
      invariant ParsePage(Parser(profile), data[..i]) == Success(potential)
      invariant date == NextCursor(date0, potential)
    {
      assert data[..i + 1][..i] == data[..i];
      var m := ParseMatch(profile, data[i]);
      if m.Failure? {
        assert ParsePage(Parser(profile), data[..i + 1]) == Failure(m.error);
        PrefixFailure(Parser(profile), data, i + 1);
        return Failure(m.error), date;
      }
      date := m.value.date;
      potential := potential + [m.value];
      i := i + 1;
    }
    assert data[..|data|] == data;
    return Success(potential), date;
  }

  /** One more page: how the loop's ghost summaries of the pages seen so far extend. */
  lemma AppendPage(profile: Player, pages: seq<seq<RawMatch>>, parsed: seq<seq<Match>>, page: seq<Match>,
                   matchCount: nat, cursors: seq<string>, date: string)
    requires |cursors| == |parsed| + 1
    ensures CursorsFollow(cursors + [date], parsed + [page]) <==>
              CursorsFollow(cursors, parsed) && date == NextCursor(cursors[|parsed|], page)
    ensures Collect(parsed + [page]) == Collect(parsed) + KeepSingles(page)
    ensures CountEmpty(parsed + [page]) == CountEmpty(parsed) + (if page == [] then 1 else 0)
    ensures KeptGoing(parsed + [page], matchCount) <==>
              KeptGoing(parsed, matchCount) && |Collect(parsed)| < matchCount && CountEmpty(parsed) <= 4
    ensures ParsedInOrder(profile, pages, parsed + [page]) <==>
              ParsedInOrder(profile, pages, parsed) && ParsePage(Parser(profile), PageAt(pages, |parsed|)) == Success(page)
  {
    assert (parsed + [page])[..|parsed|] == parsed;
    assert (cursors + [date])[..|parsed| + 1] == cursors;
  }

  /** `get_matches_for_profile` with the service's pages given in order by `pages`, `startDate` for
      the clock's reading and `matchCount` for `match_count`. The ghost outputs record the date
      passed to each call and the parsed records of each page served. */
  method GetMatchesForProfile(profile: Player, startDate: string, matchCount: nat, pages: seq<seq<RawMatch>>)
    returns (res: Result<seq<Match>, ParseError>, ghost cursors: seq<string>, ghost parsed: seq<seq<Match>>)
    ensures |cursors| == |parsed| + 1 && cursors[0] == startDate
    ensures ParsedInOrder(profile, pages, parsed)
    ensures CursorsFollow(cursors, parsed)
    ensures KeptGoing(parsed, matchCount)
    ensures res.Success? ==>
              res.value == Collect(parsed) && (|res.value| >= matchCount || CountEmpty(parsed) == 5)
    ensures res.Success? ==> forall m :: m in res.value ==> IsOneVsOne(m) && AtMostTwoParticipants(m)
    ensures res.Failure? ==>
              ParsePage(Parser(profile), PageAt(pages, |parsed|)).Failure?
              && |Collect(parsed)| < matchCount && CountEmpty(parsed) <= 4
  {
    var date := startDate;
    var matches: seq<Match> := [];
    var staleCount: nat := 0;
    var call: nat := 0;
    cursors := [startDate];
    parsed := [];
    while |matches| < matchCount && staleCount <= 4
      invariant |parsed| == call && |cursors| == call + 1 && cursors[0] == startDate && cursors[call] == date
      invariant ParsedInOrder(profile, pages, parsed)
      invariant CursorsFollow(cursors, parsed)
      invariant matches == Collect(parsed) && staleCount == CountEmpty(parsed) && staleCount <= 5
      invariant KeptGoing(parsed, matchCount)
      decreases (if call < |pages| then |pages| - call else 0) + (5 - staleCount)
    {
      var page, lastDate := ParseRecords(profile, PageAt(pages, call), date);
      if page.Failure? {
        return Failure(page.error), cursors, parsed;
      }
      date := lastDate;
      var potential := page.value;
      if potential != [] {
        date := potential[|potential| - 1].date;
        var kept := Filter(potential, IsOneVsOne);
        kept := Filter(kept, AtMostTwoParticipants);
        matches := matches + kept;
      } else {
        staleCount := staleCount + 1;
      }
      AppendPage(profile, pages, parsed, potential, matchCount, cursors, date);
      parsed := parsed + [potential];
      cursors := cursors + [date];
      call := call + 1;
    }
    forall m | m in matches ensures IsOneVsOne(m) && AtMostTwoParticipants(m) {
      CollectedAreSingles(parsed, m);
    }
    return Success(matches), cursors, parsed;
  }

  /** A record that fails to parse makes every longer page fail, with the same error. */
  lemma {:induction false} PrefixFailure(parse: RawMatch -> Result<Match, ParseError>, page: seq<RawMatch>, n: nat)
    requires n <= |page|
    requires ParsePage(parse, page[..n]).Failure?
    ensures ParsePage(parse, page) == ParsePage(parse, page[..n])
    decreases |page| - n
  {
    if n < |page| {
      var init := page[..|page| - 1];
      assert init[..n] == page[..n];
      PrefixFailure(parse, init, n);
    } else {
      assert page[..n] == page;
    }
  }

  /** Every match the loop returns is a 1v1 record with at most two participants, taken from one
      of the pages. */
  lemma {:induction false} CollectedAreSingles(parsed: seq<seq<Match>>, m: Match)
    requires m in Collect(parsed)
    ensures m.matchType == "_1V1" && |m.participants| <= 2
    ensures exists k :: 0 <= k < |parsed| && m in parsed[k]
  {
    var n := |parsed| - 1;
    KeepSinglesMembers(parsed[n]);
    if m !in KeepSingles(parsed[n]) {
      CollectedAreSingles(parsed[..n], m);
      var k :| 0 <= k < n && m in parsed[..n][k];
      assert parsed[..n][k] == parsed[k];
    }
  }

  /** `stale_count` is never reset: it only grows from one page to the next, by one exactly on an
      empty page. */
  lemma CountEmptyStep(parsed: seq<seq<Match>>, page: seq<Match>)
    ensures CountEmpty(parsed + [page]) == CountEmpty(parsed) + (if page == [] then 1 else 0)
  {
    assert (parsed + [page])[..|parsed|] == parsed;
  }

  /** The loop ends after the fifth empty page at the latest: when every page parses to nothing,
      the loop has made exactly five calls and found no match. */
  lemma {:induction false} EmptyFeedStopsAfterFive(parsed: seq<seq<Match>>, matchCount: nat)
    requires matchCount > 0
    requires forall k :: 0 <= k < |parsed| ==> parsed[k] == []
    requires KeptGoing(parsed, matchCount)
    requires |Collect(parsed)| >= matchCount || CountEmpty(parsed) == 5
    ensures |parsed| == 5 && Collect(parsed) == []
  {
    AllEmpty(parsed);
  }

  /** With only empty pages, nothing is collected and every page counts as stale. */
  lemma {:induction false} AllEmpty(parsed: seq<seq<Match>>)
    requires forall k :: 0 <= k < |parsed| ==> parsed[k] == []
    ensures Collect(parsed) == [] && CountEmpty(parsed) == |parsed|
  {
    if parsed != [] {
      var init := parsed[..|parsed| - 1];
      AllEmpty(init);
      assert KeepSingles([]) == [];
    }
  }
}
