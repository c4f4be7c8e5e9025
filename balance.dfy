/** `getTeams` (helper.py:36-73): every split of the queued players into a red team of
    `n // 2` players and a blue team of the rest is tried, in `itertools.combinations`
    order, and the first split with the smallest rating difference wins. */
module Balance {
  import opened Common

  /** The players are listed once each and all have a rating. */
  predicate IsRoster(players: seq<MemberId>, eloData: map<MemberId, int>) {
    Distinct(players) && Rated(players, eloData)
  }

  /** `players = list(eloData.keys())`: the players are exactly the keys of the rating
      dictionary, each once, in the dictionary's order. */
  predicate KeysOf(players: seq<MemberId>, eloData: map<MemberId, int>) {
    IsRoster(players, eloData) && forall x :: x in eloData ==> x in players
  }

  /** Every element of `c` is one of `ps`. */
  predicate Within(c: seq<MemberId>, ps: seq<MemberId>) {
    forall x :: x in c ==> x in ps
  }

  /** Every element of `ps` has a rating. */
  predicate Rated(ps: seq<MemberId>, elo: map<MemberId, int>) {
    forall x :: x in ps ==> x in elo
  }

  predicate Sorted(s: seq<MemberId>) {
    forall i, j :: 0 <= i < j < |s| ==> s[i] <= s[j]
  }

  /** `[x] + c` for every `c` of `cs`, in order. */
  function WithHead(x: MemberId, cs: seq<seq<MemberId>>): (r: seq<seq<MemberId>>)
    ensures |r| == |cs| && forall i :: 0 <= i < |cs| ==> r[i] == [x] + cs[i]
  {
    seq(|cs|, i requires 0 <= i < |cs| => [x] + cs[i])
  }

  /** `itertools.combinations(ps, k)`: the `k`-element subsequences of `ps` in
      lexicographic order of positions. */
  function Combinations(ps: seq<MemberId>, k: nat): (cs: seq<seq<MemberId>>)
    ensures k <= |ps| ==> |cs| > 0
    decreases |ps|
  {
    if k == 0 then [[]]
    else if |ps| < k then []
    else WithHead(ps[0], Combinations(ps[1..], k - 1)) + Combinations(ps[1..], k)
  }

  /** The `i`-th combination has `k` elements, all taken from `ps`, and no repeats when
      `ps` has none. */
  lemma {:induction false} CombinationShape(ps: seq<MemberId>, k: nat, i: nat)
    requires i < |Combinations(ps, k)|
    ensures var c := Combinations(ps, k)[i];
      |c| == k && Within(c, ps) && (Distinct(ps) ==> Distinct(c))
    decreases |ps|
  {
    if k > 0 {
      var tail := ps[1..];
      var n := |Combinations(tail, k - 1)|;
      if i < n {
        CombinationShape(tail, k - 1, i);
        var c' := Combinations(tail, k - 1)[i];
        assert Combinations(ps, k)[i] == [ps[0]] + c';
        assert Within(c', ps);
        if Distinct(ps) {
          assert ps[0] !in tail;
          DistinctSubseq(ps, 1, |ps|);
          DistinctCons(ps[0], c');
        }
      } else {
        CombinationShape(tail, k, i - n);
        assert Combinations(ps, k)[i] == Combinations(tail, k)[i - n];
        if Distinct(ps) { DistinctSubseq(ps, 1, |ps|); }
      }
    }
  }

  lemma CombinationsShape(ps: seq<MemberId>, k: nat)
    ensures forall i :: 0 <= i < |Combinations(ps, k)| ==>
      var c := Combinations(ps, k)[i];
      |c| == k && Within(c, ps) && (Distinct(ps) ==> Distinct(c))
  {
    forall i | 0 <= i < |Combinations(ps, k)| { CombinationShape(ps, k, i); }
  }

  /** Some element of `cs` has exactly the members `s`. */
  predicate Covered(cs: seq<seq<MemberId>>, s: set<MemberId>) {
    exists i :: 0 <= i < |cs| && Elems(cs[i]) == s
  }

  /** Every `k`-element subset of the players is some combination's element set. */
  lemma {:induction false} CombinationsComplete(ps: seq<MemberId>, k: nat, s: set<MemberId>)
    requires Distinct(ps) && s <= Elems(ps) && |s| == k
    ensures Covered(Combinations(ps, k), s)
    decreases |ps|
  {
    if k == 0 {
      assert s == {};
      assert Elems(Combinations(ps, k)[0]) == s;
    } else {
      SubsetFits(ps, s);
      SubsetOfTail(ps, s);
      if ps[0] in s {
        CombinationsComplete(ps[1..], k - 1, s - {ps[0]});
        CompleteWithFirst(ps, k, s);
      } else {
        CombinationsComplete(ps[1..], k, s);
        CompleteWithoutFirst(ps, k, s);
      }
    }
  }

  lemma SubsetFits(ps: seq<MemberId>, s: set<MemberId>)
    requires Distinct(ps) && s <= Elems(ps)
    ensures |s| <= |ps|
  {
    DistinctCard(ps);
    DiffCard(Elems(ps), s);
  }

  lemma SubsetOfTail(ps: seq<MemberId>, s: set<MemberId>)
    requires Distinct(ps) && s <= Elems(ps) && ps != []
    ensures Distinct(ps[1..])
    ensures ps[0] in s ==> s - {ps[0]} <= Elems(ps[1..]) && |s - {ps[0]}| == |s| - 1
    ensures ps[0] !in s ==> s <= Elems(ps[1..])
  {
    var x, tail := ps[0], ps[1..];
    DistinctSubseq(ps, 1, |ps|);
    assert ps == [x] + tail;
    assert forall y :: y in s ==> y == x || y in tail;
    if x in s {
      DiffCard(s, {x});
    }
  }

  lemma CompleteWithFirst(ps: seq<MemberId>, k: nat, s: set<MemberId>)
    requires 0 < k <= |ps| && ps[0] in s
    requires Covered(Combinations(ps[1..], k - 1), s - {ps[0]})
    ensures Covered(Combinations(ps, k), s)
  {
    var i :| 0 <= i < |Combinations(ps[1..], k - 1)| && Elems(Combinations(ps[1..], k - 1)[i]) == s - {ps[0]};
    var c := [ps[0]] + Combinations(ps[1..], k - 1)[i];
    assert Combinations(ps, k)[i] == c;
    assert Elems(c) == {ps[0]} + Elems(Combinations(ps[1..], k - 1)[i]);
  }

  lemma CompleteWithoutFirst(ps: seq<MemberId>, k: nat, s: set<MemberId>)
    requires 0 < k <= |ps|
    requires Covered(Combinations(ps[1..], k), s)
    ensures Covered(Combinations(ps, k), s)
  {
    var i :| 0 <= i < |Combinations(ps[1..], k)| && Elems(Combinations(ps[1..], k)[i]) == s;
    var n := |Combinations(ps[1..], k - 1)|;
    assert Combinations(ps, k)[n + i] == Combinations(ps[1..], k)[i];
  }

  function InsertSorted(x: MemberId, s: seq<MemberId>): seq<MemberId> {
    if s == [] || x <= s[0] then [x] + s else [s[0]] + InsertSorted(x, s[1..])
  }

  lemma {:induction false} InsertSortedFacts(x: MemberId, s: seq<MemberId>)
    requires Sorted(s)
    ensures var r := InsertSorted(x, s);
      && |r| == |s| + 1 && r[0] == (if s == [] || x <= s[0] then x else s[0])
      && Sorted(r) && multiset(r) == multiset(s) + multiset{x}
  {
    if s != [] && x > s[0] {
      assert s == [s[0]] + s[1..];
      InsertSortedFacts(x, s[1..]);
    }
  }

  /** `sorted(...)` of member ids. */
  function SortIds(s: seq<MemberId>): seq<MemberId> {
    if s == [] then [] else InsertSorted(s[0], SortIds(s[1..]))
  }

  lemma {:induction false} SortIdsFacts(s: seq<MemberId>)
    ensures Sorted(SortIds(s)) && multiset(SortIds(s)) == multiset(s)
  {
    if s != [] {
      assert s == [s[0]] + s[1..];
      SortIdsFacts(s[1..]);
      InsertSortedFacts(s[0], SortIds(s[1..]));
    }
  }

  /** `set(players) - set(team1)`, listed in the order of `players`. */
  function Rest(players: seq<MemberId>, team1: seq<MemberId>): seq<MemberId> {
    if players == [] then []
    else if players[0] in team1 then Rest(players[1..], team1)
    else [players[0]] + Rest(players[1..], team1)
  }

  lemma {:induction false} RestFacts(players: seq<MemberId>, team1: seq<MemberId>)
    ensures var r := Rest(players, team1);
      && (forall x :: x in r <==> x in players && x !in team1)
      && (Distinct(players) ==> Distinct(r))
  {
    if players != [] {
      RestFacts(players[1..], team1);
      assert players == [players[0]] + players[1..];
      if Distinct(players) && players[0] !in team1 {
        DistinctSubseq(players, 1, |players|);
        DistinctCons(players[0], Rest(players[1..], team1));
      }
    }
  }

  /** `team2 = tuple(sorted(set(players) - set(team1)))`. */
  function BlueOf(players: seq<MemberId>, team1: seq<MemberId>): seq<MemberId> {
    SortIds(Rest(players, team1))
  }

  /** The blue team is sorted and holds exactly the players the red team leaves out. */
  lemma BlueFacts(players: seq<MemberId>, team1: seq<MemberId>)
    ensures var team2 := BlueOf(players, team1);
      && Sorted(team2)
      && (forall x :: x in team2 <==> x in players && x !in team1)
      && (Distinct(players) ==> Distinct(team2))
  {
    var rest := Rest(players, team1);
    var team2 := BlueOf(players, team1);
    RestFacts(players, team1);
    SortIdsFacts(rest);
    assert forall x :: x in team2 <==> x in multiset(rest);
    if Distinct(players) { DistinctPermutation(rest, team2); }
  }

  /** Only who is on the red team matters to the blue team, not in which order. */
  lemma {:induction false} RestSameMembers(players: seq<MemberId>, a: seq<MemberId>, b: seq<MemberId>)
    requires forall x :: x in a <==> x in b
    ensures Rest(players, a) == Rest(players, b)
  {
    if players != [] { RestSameMembers(players[1..], a, b); }
  }

  function SumOver(ps: seq<MemberId>, elo: map<MemberId, int>): int
    requires Rated(ps, elo)
  {
    if ps == [] then 0 else elo[ps[0]] + SumOver(ps[1..], elo)
  }

  /** The ratings of one team: `{p: eloData[p] for p in team}`. */
  function Restrict(elo: map<MemberId, int>, team: seq<MemberId>): (r: map<MemberId, int>)
    requires Rated(team, elo)
    ensures forall x :: x in r <==> x in team
    ensures forall x :: x in r ==> r[x] == elo[x]
  {
    map p | p in team :: elo[p]
  }

  lemma RosterRated(players: seq<MemberId>, elo: map<MemberId, int>, team: seq<MemberId>)
    requires IsRoster(players, elo) && Within(team, players)
    ensures Rated(team, elo) && Rated(BlueOf(players, team), elo)
  {
    BlueFacts(players, team);
  }

  /** `abs(sum(eloRed.values()) - sum(eloBlue.values()))` for the split whose red team is
      `team1`. */
  function DiffOf(players: seq<MemberId>, elo: map<MemberId, int>, team1: seq<MemberId>): int
    requires IsRoster(players, elo) && Within(team1, players)
  {
    RosterRated(players, elo, team1);
    SplitDiff(team1, BlueOf(players, team1), elo)
  }

  /** `abs(sum(eloRed.values()) - sum(eloBlue.values()))`. */
  function SplitDiff(red: seq<MemberId>, blue: seq<MemberId>, elo: map<MemberId, int>): int
    requires Rated(red, elo) && Rated(blue, elo)
  {
    Abs(SumOver(red, elo) - SumOver(blue, elo))
  }

  /** The dictionary `getTeams` returns. */
  datatype Matchup = Matchup(redTeam: seq<MemberId>, blueTeam: seq<MemberId>,
                             eloRedTeam: map<MemberId, int>, eloBlueTeam: map<MemberId, int>,
                             eloDifference: int)

  function MatchupOf(players: seq<MemberId>, elo: map<MemberId, int>, team1: seq<MemberId>): Matchup
    requires IsRoster(players, elo) && Within(team1, players)
  {
    RosterRated(players, elo, team1);
    var team2 := BlueOf(players, team1);
    Matchup(team1, team2, Restrict(elo, team1), Restrict(elo, team2), DiffOf(players, elo, team1))
  }

  /** Every combination of `cs` is drawn from the players. */
  predicate AllWithin(cs: seq<seq<MemberId>>, players: seq<MemberId>) {
    forall j :: 0 <= j < |cs| ==> Within(cs[j], players)
  }

  /** The position of the first smallest difference among the first `i` matchups: a
      later matchup replaces the best so far only when it is strictly better. */
  function FirstBest(ms: seq<Matchup>, i: nat): (b: nat)
    requires 0 < i <= |ms|
    ensures b < i
    ensures forall j :: 0 <= j < i ==> ms[b].eloDifference <= ms[j].eloDifference
    ensures forall j :: 0 <= j < b ==> ms[b].eloDifference < ms[j].eloDifference
  {
    if i == 1 then 0
    else
      var b := FirstBest(ms, i - 1);
      if ms[i - 1].eloDifference < ms[b].eloDifference then i - 1 else b
  }

  /** A matchup no better than an earlier one does not replace the best. */
  lemma FirstBestKeeps(ms: seq<Matchup>, i: nat, j: nat)
    requires j < i - 1 && i <= |ms| && ms[j].eloDifference == ms[i - 1].eloDifference
    ensures FirstBest(ms, i) == FirstBest(ms, i - 1)
  {
    assert ms[FirstBest(ms, i - 1)].eloDifference <= ms[j].eloDifference;
  }

  /** The matchup of every combination, in order. */
  function Matchups(players: seq<MemberId>, elo: map<MemberId, int>, cs: seq<seq<MemberId>>): (ms: seq<Matchup>)
    requires IsRoster(players, elo) && AllWithin(cs, players)
  {
    seq(|cs|, j requires 0 <= j < |cs| => MatchupOf(players, elo, cs[j]))
  }

  lemma CombinationsWithin(players: seq<MemberId>)
    ensures AllWithin(Combinations(players, |players| / 2), players)
  {
    CombinationsShape(players, |players| / 2);
  }

  /** Which combination `getTeams` returns. */
  function BestIndex(players: seq<MemberId>, elo: map<MemberId, int>): (i: nat)
    requires IsRoster(players, elo)
    ensures i < |Combinations(players, |players| / 2)|
  {
    var cs := Combinations(players, |players| / 2);
    CombinationsWithin(players);
    FirstBest(Matchups(players, elo, cs), |cs|)
  }

  /** The red team `getTeams` returns. */
  function BestTeam(players: seq<MemberId>, elo: map<MemberId, int>): (team1: seq<MemberId>)
    requires IsRoster(players, elo)
    ensures |team1| == |players| / 2 && Within(team1, players) && Distinct(team1)
  {
    CombinationShape(players, |players| / 2, BestIndex(players, elo));
    Combinations(players, |players| / 2)[BestIndex(players, elo)]
  }

  /** The reference value of `getTeams(eloData)`. */
  function Balance(players: seq<MemberId>, elo: map<MemberId, int>): Matchup
    requires IsRoster(players, elo)
  {
    MatchupOf(players, elo, BestTeam(players, elo))
  }

  /** Python's ordering of tuples of integers. */
  predicate LexLe(a: seq<MemberId>, b: seq<MemberId>) {
    if a == [] then true
    else if b == [] then false
    else if a[0] != b[0] then a[0] < b[0]
    else LexLe(a[1..], b[1..])
  }

  /** `tuple(sorted([team1, team2]))`: the split as a pair of teams ordered
      lexicographically. */
  function MatchupKey(players: seq<MemberId>, team1: seq<MemberId>): (seq<MemberId>, seq<MemberId>) {
    var team2 := BlueOf(players, team1);
    if LexLe(team1, team2) then (team1, team2) else (team2, team1)
  }

  /** A matchup key seen twice belongs to the same split, so it has the same difference. */
  lemma SameKeySameDiff(players: seq<MemberId>, elo: map<MemberId, int>, a: seq<MemberId>, c: seq<MemberId>)
    requires IsRoster(players, elo) && Within(a, players) && Within(c, players)
    requires MatchupKey(players, a) == MatchupKey(players, c)
    ensures DiffOf(players, elo, a) == DiffOf(players, elo, c)
  {
    var b, d := BlueOf(players, a), BlueOf(players, c);
    assert MatchupKey(players, a) == (a, b) || MatchupKey(players, a) == (b, a);
    assert MatchupKey(players, c) == (c, d) || MatchupKey(players, c) == (d, c);
  }

  type Key = (seq<MemberId>, seq<MemberId>)

  /** The key of every combination, in order. */
  function Keys(players: seq<MemberId>, cs: seq<seq<MemberId>>): (keys: seq<Key>) {
    seq(|cs|, j requires 0 <= j < |cs| => MatchupKey(players, cs[j]))
  }

  /** What the `getTeams` loop has built after its first `i` iterations. */
  datatype Scan<K> = Scan(seen: set<K>, best: Option<Matchup>)

  /** The loop over the first `i` (key, matchup) pairs, one iteration per step: a key
      already in `seen` is skipped, otherwise it is added and the matchup replaces the best
      one when its difference is strictly smaller (`None` is the initial infinite
      difference). */
  function ScanOver<K>(keys: seq<K>, ms: seq<Matchup>, i: nat): Scan<K>
    requires |keys| == |ms| && i <= |ms|
  {
    if i == 0 then Scan({}, None)
    else
      var st := ScanOver(keys, ms, i - 1);
      if keys[i - 1] in st.seen then st
      else
        var m := ms[i - 1];
        var best := if st.best.None? || m.eloDifference < st.best.value.eloDifference then Some(m) else st.best;
        Scan(st.seen + {keys[i - 1]}, best)
  }

  /** One iteration of the loop. */
  lemma ScanStep<K>(keys: seq<K>, ms: seq<Matchup>, i: nat, seen: set<K>, best: Option<Matchup>)
    requires |keys| == |ms| && i < |ms| && Scan(seen, best) == ScanOver(keys, ms, i)
    ensures keys[i] in seen ==> ScanOver(keys, ms, i + 1) == Scan(seen, best)
    ensures keys[i] !in seen && (best.None? || ms[i].eloDifference < best.value.eloDifference) ==>
      ScanOver(keys, ms, i + 1) == Scan(seen + {keys[i]}, Some(ms[i]))
    ensures keys[i] !in seen && !(best.None? || ms[i].eloDifference < best.value.eloDifference) ==>
      ScanOver(keys, ms, i + 1) == Scan(seen + {keys[i]}, best)
  {
  }

  /** Equal keys mean equal differences. */
  predicate KeyedDiffs<K(==)>(keys: seq<K>, ms: seq<Matchup>) {
    |keys| == |ms| &&
    forall a, b :: 0 <= a < |ms| && 0 <= b < |ms| && keys[a] == keys[b] ==> ms[a].eloDifference == ms[b].eloDifference
  }

  lemma {:induction false} SeenMember<K>(keys: seq<K>, ms: seq<Matchup>, i: nat, key: K)
    requires |keys| == |ms| && i <= |ms|
    requires key in ScanOver(keys, ms, i).seen
    ensures exists j :: 0 <= j < i && keys[j] == key
  {
    if i > 0 && key !in ScanOver(keys, ms, i - 1).seen {
      assert keys[i - 1] == key;
    } else if i > 0 {
      SeenMember(keys, ms, i - 1, key);
    }
  }

  /** The loop keeps the first best matchup: skipping a key already seen loses nothing, as
      that matchup has the difference of one already considered. */
  lemma {:induction false} ScanFindsFirstBest<K>(keys: seq<K>, ms: seq<Matchup>, i: nat)
    requires KeyedDiffs(keys, ms) && i <= |ms|
    ensures i == 0 <==> ScanOver(keys, ms, i).best.None?
    ensures i > 0 ==> ScanOver(keys, ms, i).best == Some(ms[FirstBest(ms, i)])
  {
    if i > 0 {
      ScanFindsFirstBest(keys, ms, i - 1);
      var st := ScanOver(keys, ms, i - 1);
      if keys[i - 1] in st.seen {
        SeenMember(keys, ms, i - 1, keys[i - 1]);
        var j :| 0 <= j < i - 1 && keys[j] == keys[i - 1];
        FirstBestKeeps(ms, i, j);
      }
    }
  }

  lemma KeysDetermineDiffs(players: seq<MemberId>, elo: map<MemberId, int>, cs: seq<seq<MemberId>>)
    requires IsRoster(players, elo) && AllWithin(cs, players)
    ensures KeyedDiffs(Keys(players, cs), Matchups(players, elo, cs))
  {
    var keys, ms := Keys(players, cs), Matchups(players, elo, cs);
    forall a, b | 0 <= a < |ms| && 0 <= b < |ms| && keys[a] == keys[b]
      ensures ms[a].eloDifference == ms[b].eloDifference
    {
      SameKeySameDiff(players, elo, cs[a], cs[b]);
    }
  }

  lemma MatchupOfFields(players: seq<MemberId>, elo: map<MemberId, int>, team1: seq<MemberId>)
    requires IsRoster(players, elo) && Within(team1, players)
    ensures Rated(team1, elo) && Rated(BlueOf(players, team1), elo)
    ensures MatchupOf(players, elo, team1) ==
        Matchup(team1, BlueOf(players, team1), Restrict(elo, team1), Restrict(elo, BlueOf(players, team1)),
                SplitDiff(team1, BlueOf(players, team1), elo))
  {
    RosterRated(players, elo, team1);
  }

  method GetTeams(eloData: map<MemberId, int>, players: seq<MemberId>) returns (bestMatchup: Matchup)
    requires KeysOf(players, eloData)
    ensures bestMatchup == Balance(players, eloData)
  {
    var n := |players|;
    var teamSize := n / 2;
    var allTeamCombos := Combinations(players, teamSize);
    CombinationsWithin(players);
    ghost var keys := Keys(players, allTeamCombos);
    ghost var ms := Matchups(players, eloData, allTeamCombos);
    var seen: set<Key> := {};
    // `None` stands for the initial `smallestDiff = float('inf')`.
    var best: Option<Matchup> := None;
    for i := 0 to |allTeamCombos|
      invariant Scan(seen, best) == ScanOver(keys, ms, i)
    {
      var team1 := allTeamCombos[i];
      var team2 := BlueOf(players, team1);
      var matchupKey := MatchupKey(players, team1);
      ScanStep(keys, ms, i, seen, best);
      if matchupKey in seen {
        continue;
      }
      seen := seen + {matchupKey};
      MatchupOfFields(players, eloData, team1);
      var eloRed := Restrict(eloData, team1);
      var eloBlue := Restrict(eloData, team2);
      var diff := SplitDiff(team1, team2, eloData);
      if best.None? || diff < best.value.eloDifference {
        best := Some(Matchup(team1, team2, eloRed, eloBlue, diff));
      }
    }
    KeysDetermineDiffs(players, eloData, allTeamCombos);
    ScanFindsFirstBest(keys, ms, |allTeamCombos|);
    bestMatchup := best.value;
  }

  lemma {:induction false} SumOverRemove(ps: seq<MemberId>, elo: map<MemberId, int>, x: MemberId)
    requires x in ps && Rated(ps, elo)
    ensures Rated(RemoveFirst(ps, x), elo)
    ensures SumOver(ps, elo) == elo[x] + SumOver(RemoveFirst(ps, x), elo)
  {
    if ps[0] != x {
      SumOverRemove(ps[1..], elo, x);
      var r := RemoveFirst(ps[1..], x);
      assert RemoveFirst(ps, x) == [ps[0]] + r;
      assert ([ps[0]] + r)[1..] == r;
    }
  }

  /** The sum of a team's ratings depends only on who is on it, not on the order. */
  lemma {:induction false} SumOverSameMembers(a: seq<MemberId>, b: seq<MemberId>, elo: map<MemberId, int>)
    requires Distinct(a) && Distinct(b) && forall x :: x in a <==> x in b
    requires Rated(a, elo)
    ensures Rated(b, elo) && SumOver(a, elo) == SumOver(b, elo)
  {
    if a != [] {
      var x := a[0];
      SumOverRemove(b, elo, x);
      RemoveFirstDistinct(b, x);
      var b' := RemoveFirst(b, x);
      assert a == [x] + a[1..];
      DistinctSubseq(a, 1, |a|);
      assert forall y :: y in a[1..] <==> y in b';
      SumOverSameMembers(a[1..], b', elo);
    } else {
      assert Elems(b) == {};
      DistinctCard(b);
    }
  }

  /** The blue team has everybody the red team leaves out. */
  lemma BlueCount(players: seq<MemberId>, team1: seq<MemberId>)
    requires Distinct(players) && Within(team1, players) && Distinct(team1)
    ensures |BlueOf(players, team1)| == |players| - |team1|
  {
    var blue := BlueOf(players, team1);
    BlueFacts(players, team1);
    DistinctCard(players);
    DistinctCard(team1);
    DistinctCard(blue);
    assert Elems(blue) == Elems(players) - Elems(team1);
    assert Elems(team1) <= Elems(players);
    DiffCard(Elems(players), Elems(team1));
  }

  /** The split into `team1` and the rest: blue holds the others in ascending order, the
      sides partition the players, each side's dictionary holds its players' ratings, and
      the difference is that of the two sums. */
  lemma MatchupShape(players: seq<MemberId>, elo: map<MemberId, int>, team1: seq<MemberId>)
    requires IsRoster(players, elo) && Within(team1, players) && Distinct(team1)
    ensures var m := MatchupOf(players, elo, team1);
      && m.redTeam == team1
      && |m.blueTeam| == |players| - |team1|
      && Distinct(m.blueTeam) && Sorted(m.blueTeam)
      && (forall x :: x in players <==> x in m.redTeam || x in m.blueTeam)
      && (forall x :: !(x in m.redTeam && x in m.blueTeam))
      && (forall x :: x in m.eloRedTeam <==> x in m.redTeam)
      && (forall x :: x in m.eloBlueTeam <==> x in m.blueTeam)
      && (forall x :: x in m.eloRedTeam ==> m.eloRedTeam[x] == elo[x])
      && (forall x :: x in m.eloBlueTeam ==> m.eloBlueTeam[x] == elo[x])
      && m.eloDifference == Abs(SumOver(m.redTeam, elo) - SumOver(m.blueTeam, elo))
  {
    BlueCount(players, team1);
    BlueFacts(players, team1);
    RosterRated(players, elo, team1);
    var blue := BlueOf(players, team1);
    var m := MatchupOf(players, elo, team1);
    assert m == Matchup(team1, blue, Restrict(elo, team1), Restrict(elo, blue), DiffOf(players, elo, team1));
  }

  /** The returned matchup splits the players into `n // 2` red players and the rest; with
      an odd number of players blue has the extra one. (`MatchupShape` gives the rest of
      its shape.) */
  lemma BalanceShape(players: seq<MemberId>, elo: map<MemberId, int>)
    requires IsRoster(players, elo)
    ensures var m := Balance(players, elo);
      && |m.redTeam| == |players| / 2 && |m.blueTeam| == |players| - |players| / 2
      && Distinct(m.redTeam) && Distinct(m.blueTeam)
      && (forall x :: x in players <==> x in m.redTeam || x in m.blueTeam)
      && (forall x :: !(x in m.redTeam && x in m.blueTeam))
  {
    var t := BestTeam(players, elo);
    BlueCount(players, t);
    BlueFacts(players, t);
  }

  /** The difference of the returned matchup is that of the matchup at `BestIndex`. */
  lemma BalanceIsBestIndex(players: seq<MemberId>, elo: map<MemberId, int>)
    requires IsRoster(players, elo)
    ensures var cs := Combinations(players, |players| / 2);
      AllWithin(cs, players) &&
      Balance(players, elo) == Matchups(players, elo, cs)[BestIndex(players, elo)]
  {
    CombinationsWithin(players);
  }

  /** No split into `n // 2` red players and the rest is better balanced than the one
      returned. */
  lemma BalanceOptimal(players: seq<MemberId>, elo: map<MemberId, int>, team: seq<MemberId>)
    requires IsRoster(players, elo)
    requires Distinct(team) && |team| == |players| / 2 && Within(team, players)
    ensures Balance(players, elo).eloDifference <= DiffOf(players, elo, team)
  {
    var cs := Combinations(players, |players| / 2);
    CombinationsShape(players, |players| / 2);
    DistinctCard(team);
    assert Elems(team) <= Elems(players);
    CombinationsComplete(players, |players| / 2, Elems(team));
    var i :| 0 <= i < |cs| && Elems(cs[i]) == Elems(team);
    var c := cs[i];
    assert forall x :: x in c <==> x in team by {
      forall x ensures x in c <==> x in team { assert x in c <==> x in Elems(c); }
    }
    RestSameMembers(players, c, team);
    RosterRated(players, elo, c);
    SumOverSameMembers(c, team, elo);
    assert DiffOf(players, elo, c) == DiffOf(players, elo, team);
    BalanceIsBestIndex(players, elo);
    var ms := Matchups(players, elo, cs);
    assert ms[i].eloDifference == DiffOf(players, elo, c);
  }

  /** Ties go to the first combination: every earlier one is strictly worse. */
  lemma BalanceFirstBest(players: seq<MemberId>, elo: map<MemberId, int>, j: nat)
    requires IsRoster(players, elo) && j < BestIndex(players, elo)
    requires Within(Combinations(players, |players| / 2)[j], players)
    ensures Balance(players, elo).eloDifference < DiffOf(players, elo, Combinations(players, |players| / 2)[j])
  {
    var cs := Combinations(players, |players| / 2);
    BalanceIsBestIndex(players, elo);
    var ms := Matchups(players, elo, cs);
    assert ms[j].eloDifference == DiffOf(players, elo, cs[j]);
  }
}
