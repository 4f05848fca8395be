/** `player_from_alternate_names` of app/player.py and its generator `_get_sims`: names read from a
    screenshot may confuse "i", "l" and "I" (and read "l" as "!"), so every spelling that swaps
    those letters is searched in turn. */
module AlternateNames {
  import opened Wrappers
  import opened Players

  /** More look-alike positions than this and no alternates are generated. */
  const PermsLimit: nat := 5

  /** The one group of `similarities`, in its order. */
  const Lookalikes: seq<char> := ['i', 'l', 'I']

  predicate IsLookalike(c: char) {
    c == 'i' || c == 'l' || c == 'I'
  }

  /** `s.replace("!", "l")`. */
  function ReplaceBang(s: string): (r: string)
    ensures |r| == |s|
    ensures forall p :: 0 <= p < |s| ==> r[p] == if s[p] == '!' then 'l' else s[p]
  {
    seq(|s|, p requires 0 <= p < |s| => if s[p] == '!' then 'l' else s[p])
  }

  /** `idxes`: the positions of `s` holding a look-alike letter, in increasing order. */
  function SimIndexes(s: string): (idx: seq<nat>)
    ensures forall j :: 0 <= j < |idx| ==> idx[j] < |s| && IsLookalike(s[idx[j]])
    ensures forall j, k :: 0 <= j < k < |idx| ==> idx[j] < idx[k]
    ensures forall p :: 0 <= p < |s| && IsLookalike(s[p]) ==> p in idx
  {
    if s == [] then []
    else
      var init := s[..|s| - 1];
      assert forall p :: 0 <= p < |init| ==> init[p] == s[p];
      SimIndexes(init) + (if IsLookalike(s[|s| - 1]) then [|s| - 1] else [])
  }

  function Pow3(k: nat): (r: nat)
    ensures r >= 1
  {
    if k == 0 then 1 else 3 * Pow3(k - 1)
  }

  /** The `n`-th tuple of `product(*pools)` over `k` pools of three letters, as indices into
      `Lookalikes`: the digits of `n` in base 3, most significant first, so that the last pool
      varies fastest. */
  function Digits(n: nat, k: nat): (d: seq<nat>)
    ensures |d| == k
    ensures forall j :: 0 <= j < k ==> d[j] < 3
  {
    if k == 0 then [] else Digits(n / 3, k - 1) + [n % 3]
  }

  /** The position of a tuple in the enumeration: the inverse of `Digits`. */
  function Encode(d: seq<nat>): nat {
    if d == [] then 0 else Encode(d[..|d| - 1]) * 3 + d[|d| - 1]
  }

  lemma {:induction false} DigitsEncode(d: seq<nat>)
    requires forall j :: 0 <= j < |d| ==> d[j] < 3
    ensures Encode(d) < Pow3(|d|)
    ensures Digits(Encode(d), |d|) == d
  {
    if d != [] {
      var init := d[..|d| - 1];
      DigitsEncode(init);
      var e := Encode(init);
      assert (e * 3 + d[|d| - 1]) / 3 == e;
      assert (e * 3 + d[|d| - 1]) % 3 == d[|d| - 1];
      assert d == init + [d[|d| - 1]];
    }
  }

  /** The first tuple picks the first letter of every pool. */
  lemma {:induction false} DigitsZero(k: nat)
    ensures forall j :: 0 <= j < k ==> Digits(0, k)[j] == 0
  {
    if k > 0 {
      DigitsZero(k - 1);
    }
  }

  /** `Substitutable(s, idx, d)`: `idx` are increasing positions of `s` and `d` picks a letter for each. */
  predicate Substitutable(s: string, idx: seq<nat>, d: seq<nat>) {
    && |idx| == |d|
    && (forall j :: 0 <= j < |idx| ==> idx[j] < |s| && d[j] < 3)
    && (forall j, k :: 0 <= j < k < |idx| ==> idx[j] < idx[k])
  }

  /** `L = list(s)`, then `L[i] = x` for each position `i` and chosen letter `x`, in order. */
  function Substitute(s: string, idx: seq<nat>, d: seq<nat>): (r: string)
    requires |idx| == |d|
    requires forall j :: 0 <= j < |idx| ==> idx[j] < |s| && d[j] < 3
    ensures |r| == |s|
  {
    if idx == [] then s
    else
      var m := |idx| - 1;
      Substitute(s, idx[..m], d[..m])[idx[m] := Lookalikes[d[m]]]
  }

  /** What `Substitute` leaves at each position: the chosen letter at a listed position, the
      original character elsewhere. */
  lemma {:induction false} SubstituteAt(s: string, idx: seq<nat>, d: seq<nat>, p: nat)
    requires Substitutable(s, idx, d)
    requires p < |s|
    ensures p !in idx ==> Substitute(s, idx, d)[p] == s[p]
    ensures forall j :: 0 <= j < |idx| && idx[j] == p ==> Substitute(s, idx, d)[p] == Lookalikes[d[j]]
  {
    if idx != [] {
      var m := |idx| - 1;
      SubstituteAt(s, idx[..m], d[..m], p);
      if p != idx[m] {
        assert p in idx ==> p in idx[..m] by {
          if p in idx {
            var j :| 0 <= j < |idx| && idx[j] == p;
            assert j < m && idx[..m][j] == p;
          }
        }
        forall j | 0 <= j < |idx| && idx[j] == p
          ensures Substitute(s, idx, d)[p] == Lookalikes[d[j]]
        {
          assert j < m && idx[..m][j] == p && d[..m][j] == d[j];
        }
      }
    }
  }

  /** The spellings of `s` that put one of "i", "l", "I" at each position of `idx`, in `product`
      order: the `n`-th one picks the letters of `Digits(n, |idx|)`. */
  function Spellings(s: string, idx: seq<nat>): (r: seq<string>)
    requires forall j :: 0 <= j < |idx| ==> idx[j] < |s|
    ensures |r| == Pow3(|idx|)
    ensures forall n :: 0 <= n < |r| ==> r[n] == Substitute(s, idx, Digits(n, |idx|))
  {
    seq(Pow3(|idx|), n requires 0 <= n < Pow3(|idx|) => Substitute(s, idx, Digits(n, |idx|)))
  }

  /** `list(_get_sims(name))`: with `s` the name with every "!" read as "l", the spellings of `s`
      at its look-alike positions; none when there are more than `PermsLimit` such positions. */
  function Sims(name: string): (r: seq<string>)
  {
    var s := ReplaceBang(name);
    var idx := SimIndexes(s);
    if |idx| > PermsLimit then [] else Spellings(s, idx)
  }

  /** The inner loop of `_get_sims`: a copy of `s` with each listed position overwritten by the
      letter the arrangement picks for it. */
  method Arrange(s: string, idxes: seq<nat>, arrangement: seq<nat>) returns (l: string)
    requires |idxes| == |arrangement|
    requires forall j :: 0 <= j < |idxes| ==> idxes[j] < |s| && arrangement[j] < 3
    ensures l == Substitute(s, idxes, arrangement)
  {
    l := s;
    var j := 0;
    while j < |idxes|
      invariant j <= |idxes|
      invariant l == Substitute(s, idxes[..j], arrangement[..j])
    {
      assert idxes[..j + 1][..j] == idxes[..j] && arrangement[..j + 1][..j] == arrangement[..j];
      l := l[idxes[j] := Lookalikes[arrangement[j]]];
      j := j + 1;
    }
    assert idxes[..j] == idxes && arrangement[..j] == arrangement;
  }

  /** The outer loop of `_get_sims`: one spelling per tuple of `product(*pools)`, in order. */
  method Enumerate(s: string, idxes: seq<nat>) returns (sims: seq<string>)
    requires forall j :: 0 <= j < |idxes| ==> idxes[j] < |s|
    ensures sims == Spellings(s, idxes)
  {
    sims := [];
    var n := 0;
    while n < Pow3(|idxes|)
      invariant n <= Pow3(|idxes|)
      invariant |sims| == n
      invariant forall m :: 0 <= m < n ==> sims[m] == Substitute(s, idxes, Digits(m, |idxes|))
    {
      var l := Arrange(s, idxes, Digits(n, |idxes|));
      sims := sims + [l];
      n := n + 1;
    }
  }

  /** `_get_sims`: read "!" as "l", find the look-alike positions, give up beyond the limit and
      enumerate the spellings otherwise. */
  method GetSims(name: string) returns (sims: seq<string>)
    ensures sims == Sims(name)
  {
    var s := name;
    if '!' in s {
      s := ReplaceBang(s);
    } else {
      assert s == ReplaceBang(name);
    }
    var idxes := SimIndexes(s);
    if |idxes| > PermsLimit {
      return [];
    }
    sims := Enumerate(s, idxes);
  }

  /** `3^k` spellings for `k` look-alike positions up to the limit, none beyond it. */
  lemma SimsCount(name: string)
    ensures var k := |SimIndexes(ReplaceBang(name))|;
            |Sims(name)| == if k <= PermsLimit then Pow3(k) else 0
  {
  }

  /** At one position, a substitution over exactly the look-alike positions of `s` leaves a
      look-alike letter where `s` has one and the original character elsewhere. */
  lemma SubstituteShape(s: string, idx: seq<nat>, d: seq<nat>, p: nat)
    requires Substitutable(s, idx, d)
    requires forall j :: 0 <= j < |idx| ==> IsLookalike(s[idx[j]])
    requires forall q :: 0 <= q < |s| && IsLookalike(s[q]) ==> q in idx
    requires p < |s|
    ensures IsLookalike(s[p]) ==> IsLookalike(Substitute(s, idx, d)[p])
    ensures !IsLookalike(s[p]) ==> Substitute(s, idx, d)[p] == s[p]
  {
    SubstituteAt(s, idx, d, p);
    if IsLookalike(s[p]) {
      var j :| 0 <= j < |idx| && idx[j] == p;
      assert d[j] == 0 || d[j] == 1 || d[j] == 2;
    }
  }

  /** Every spelling has the length of the name and differs from it, once "!" is read as "l",
      only at look-alike positions, each of which holds "i", "l" or "I"; none contains "!". */
  lemma SimsShape(name: string, v: string)
    requires v in Sims(name)
    ensures |v| == |name|
    ensures forall p :: 0 <= p < |name| && IsLookalike(ReplaceBang(name)[p]) ==> IsLookalike(v[p])
    ensures forall p :: 0 <= p < |name| && !IsLookalike(ReplaceBang(name)[p]) ==> v[p] == ReplaceBang(name)[p]
    ensures forall p :: 0 <= p < |v| ==> v[p] != '!'
  {
    var s := ReplaceBang(name);
    var idx := SimIndexes(s);
    var sp := Spellings(s, idx);
    var n :| 0 <= n < |sp| && sp[n] == v;
    var d := Digits(n, |idx|);
    forall p | 0 <= p < |s|
      ensures IsLookalike(s[p]) ==> IsLookalike(v[p])
      ensures !IsLookalike(s[p]) ==> v[p] == s[p]
      ensures v[p] != '!'
    {
      SubstituteShape(s, idx, d, p);
    }
  }

  /** The first spelling has "i" at every look-alike position. */
  lemma FirstSimIsAllI(name: string)
    requires |SimIndexes(ReplaceBang(name))| <= PermsLimit
    ensures Sims(name) != []
    ensures forall p :: 0 <= p < |name| && IsLookalike(ReplaceBang(name)[p]) ==> Sims(name)[0][p] == 'i'
  {
    var s := ReplaceBang(name);
    var idx := SimIndexes(s);
    DigitsZero(|idx|);
    forall p | 0 <= p < |s| && IsLookalike(s[p]) ensures Sims(name)[0][p] == 'i' {
      SubstituteAt(s, idx, Digits(0, |idx|), p);
      var j :| 0 <= j < |idx| && idx[j] == p;
    }
  }

  /** The index of a look-alike letter in `Lookalikes`. */
  function LookalikeIndex(c: char): (n: nat)
    requires IsLookalike(c)
    ensures n < 3 && Lookalikes[n] == c
  {
    if c == 'i' then 0 else if c == 'l' then 1 else 2
  }

  /** Substituting at each position the letter already there changes nothing. */
  lemma {:induction false} SubstituteOwnLetters(s: string, idx: seq<nat>, d: seq<nat>)
    requires Substitutable(s, idx, d)
    requires forall j :: 0 <= j < |idx| ==> Lookalikes[d[j]] == s[idx[j]]
    ensures Substitute(s, idx, d) == s
  {
    var v := Substitute(s, idx, d);
    forall p | 0 <= p < |s| ensures v[p] == s[p] {
      SubstituteAt(s, idx, d, p);
    }
  }

  /** A string is one of its own spellings at any increasing list of its look-alike positions. */
  lemma OwnSpelling(s: string, idx: seq<nat>)
    requires forall j :: 0 <= j < |idx| ==> idx[j] < |s| && IsLookalike(s[idx[j]])
    requires forall j, k :: 0 <= j < k < |idx| ==> idx[j] < idx[k]
    ensures s in Spellings(s, idx)
  {
    var d := seq(|idx|, j requires 0 <= j < |idx| => LookalikeIndex(s[idx[j]]));
    assert forall j :: 0 <= j < |idx| ==> d[j] < 3 && Lookalikes[d[j]] == s[idx[j]];
    SubstituteOwnLetters(s, idx, d);
    DigitsEncode(d);
    assert Spellings(s, idx)[Encode(d)] == s;
  }

  /** The name itself, with "!" read as "l", is one of its spellings. */
  lemma NameAmongSims(name: string)
    requires |SimIndexes(ReplaceBang(name))| <= PermsLimit
    ensures ReplaceBang(name) in Sims(name)
  {
    OwnSpelling(ReplaceBang(name), SimIndexes(ReplaceBang(name)));
  }

  /** `player_from_character_search` on one candidate name, with the search service's answer
      for that name given by `search`. */
  function SearchAs(candidate: string, race: Option<Race>, region: Option<string>, ratingLast: Option<int>,
                    search: string -> seq<SearchProfile>): Option<Player> {
    CharacterSearch(candidate, race, region, ratingLast, search(candidate))
  }

  /** `SearchAs` with everything but the candidate name fixed. */
  function SearchFor(race: Option<Race>, region: Option<string>, ratingLast: Option<int>,
                     search: string -> seq<SearchProfile>): string -> Option<Player> {
    candidate => SearchAs(candidate, race, region, ratingLast, search)
  }

  /** The answer of the first candidate, in order, for which `find` answers something. */
  function FirstFound(candidates: seq<string>, find: string -> Option<Player>): (r: Option<Player>)
    ensures r.Some? ==> exists c :: c in candidates && r == find(c)
  {
    if candidates == [] then None
    else if find(candidates[0]).Some? then find(candidates[0])
    else FirstFound(candidates[1..], find)
  }

  /** `FirstFound` answers with the first candidate that is found, and with `None` only when no
      candidate is found. */
  lemma {:induction false} FirstFoundIsFirst(candidates: seq<string>, find: string -> Option<Player>)
    ensures FirstFound(candidates, find).Some? ==>
              exists i :: 0 <= i < |candidates| && FirstFound(candidates, find) == find(candidates[i]) &&
                          forall j :: 0 <= j < i ==> find(candidates[j]).None?
    ensures FirstFound(candidates, find).None? <==> forall i :: 0 <= i < |candidates| ==> find(candidates[i]).None?
  {
    if candidates != [] && find(candidates[0]).None? {
      var rest := candidates[1..];
      FirstFoundIsFirst(rest, find);
      if FirstFound(rest, find).Some? {
        var i :| 0 <= i < |rest| && FirstFound(rest, find) == find(rest[i]) &&
                 forall j :: 0 <= j < i ==> find(rest[j]).None?;
        assert candidates[i + 1] == rest[i];
        assert forall j :: 0 <= j < i + 1 ==> find(candidates[j]).None? by {
          forall j | 0 <= j < i + 1 ensures find(candidates[j]).None? {
            if j > 0 { assert candidates[j] == rest[j - 1]; }
          }
        }
      } else {
        forall i | 0 <= i < |candidates| ensures find(candidates[i]).None? {
          if i > 0 { assert candidates[i] == rest[i - 1]; }
        }
      }
    }
  }

  /** The loop of `player_from_alternate_names`: search the candidates in turn and stop at the
      first one found. */
  method SearchInTurn(candidates: seq<string>, find: string -> Option<Player>) returns (p: Option<Player>)
    ensures p == FirstFound(candidates, find)
  {
    var i := 0;
    while i < |candidates|
      invariant i <= |candidates|
      invariant FirstFound(candidates, find) == FirstFound(candidates[i..], find)
    {
      var profile := find(candidates[i]);
      if profile.Some? {
        return profile;
      }
      assert candidates[i..][1..] == candidates[i + 1..];
      i := i + 1;
    }
    return None;
  }

  /** `player_from_alternate_names`: `None` for a missing or empty name; otherwise the first
      spelling, in generation order, whose search finds a profile. */
  method PlayerFromAlternateNames(name: Option<string>, race: Option<Race>, region: Option<string>,
                                  ratingLast: Option<int>, search: string -> seq<SearchProfile>)
    returns (p: Option<Player>)
    ensures !StrTruthy(name) ==> p.None?
    ensures StrTruthy(name) ==> p == FirstFound(Sims(name.value), SearchFor(race, region, ratingLast, search))
  {
    if !StrTruthy(name) {
      return None;
    }
    var alternateNames := GetSims(name.value);
    p := SearchInTurn(alternateNames, SearchFor(race, region, ratingLast, search));
  }

  /** A found player answers to one of the generated spellings and carries it as its name. */
  lemma AlternateNameFound(name: string, race: Option<Race>, region: Option<string>, ratingLast: Option<int>,
                           search: string -> seq<SearchProfile>)
    requires FirstFound(Sims(name), SearchFor(race, region, ratingLast, search)).Some?
    ensures var p := FirstFound(Sims(name), SearchFor(race, region, ratingLast, search)).value;
            p.name.Some? && p.name.value in Sims(name) && p.race == race
  {
  }
}
