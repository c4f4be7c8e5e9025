/** `calculatePreGameElo` (helper.py:75-108): before a match, how much every player stands
    to win or lose. Each side's average rating is the expected opponent strength of the
    other side; a player's `won` is `round(K * (1 - e))` and `loss` is `round(K * (0 - e))`
    for the expected score `e`. The logistic formula for `e` is a parameter here. */
module PreGame {
  import opened Common
  import opened Balance

  /** The default of the `perPlayerK` parameter. */
  const DefaultK: int := 30

  /** Python's `round` on a float: to the nearest integer, ties to the even one. */
  function RoundHalfEven(x: real): int {
    var f := x.Floor;
    var frac := x - f as real;
    if frac < 0.5 then f
    else if frac > 0.5 then f + 1
    else if f % 2 == 0 then f
    else f + 1
  }

  /** `RoundHalfEven` returns the nearest integer, and the even one of two nearest. */
  lemma RoundNearest(x: real)
    ensures var r := RoundHalfEven(x);
      r as real - 0.5 <= x <= r as real + 0.5 &&
      ((x == r as real - 0.5 || x == r as real + 0.5) ==> r % 2 == 0)
  {
  }

  /** The two properties of `RoundHalfEven` determine it. */
  lemma RoundUnique(x: real, r: int)
    requires r as real - 0.5 <= x <= r as real + 0.5
    requires (x == r as real - 0.5 || x == r as real + 0.5) ==> r % 2 == 0
    ensures RoundHalfEven(x) == r
  {
    RoundNearest(x);
  }

  /** Shifting by an even integer commutes with rounding. */
  lemma RoundShift(x: real, n: int)
    requires n % 2 == 0
    ensures RoundHalfEven(x + n as real) == RoundHalfEven(x) + n
  {
    var r := RoundHalfEven(x);
    RoundNearest(x);
    assert (r + n) % 2 == 0 <==> r % 2 == 0;
    RoundUnique(x + n as real, r + n);
  }

  /** Rounding is symmetric about zero. */
  lemma RoundNeg(x: real)
    ensures RoundHalfEven(-x) == -RoundHalfEven(x)
  {
    var r := RoundHalfEven(x);
    RoundNearest(x);
    assert (-r) % 2 == 0 <==> r % 2 == 0;
    RoundUnique(-x, -r);
  }

  /** What the logistic formula `1 / (1 + 10 ** (...))` yields: a score strictly between 0
      and 1. */
  type Probability = e: real | 0.0 < e < 1.0 witness 0.5

  /** One player's entry: `{"won": ..., "loss": ...}`. */
  datatype Delta = Delta(won: int, loss: int)

  /** What `calculatePreGameElo` returns: one table per side. */
  datatype PreGame = PreGame(redTeam: map<MemberId, Delta>, blueTeam: map<MemberId, Delta>)

  /** The entry of a player whose expected score is `e`. */
  function DeltaFor(k: int, e: real): Delta {
    Delta(RoundHalfEven(k as real * (1.0 - e)), RoundHalfEven(k as real * (0.0 - e)))
  }

  /** `sum(elo.values()) / len(team)` for a side whose dictionary holds its players. */
  function Average(team: seq<MemberId>, elo: map<MemberId, int>): real
    requires |team| > 0 && Rated(team, elo)
  {
    SumOver(team, elo) as real / |team| as real
  }

  /** What the function needs of its matchup: two non-empty sides (it divides by their
      sizes) whose dictionaries hold exactly their players, each listed once. */
  predicate Scored(m: Matchup) {
    |m.redTeam| > 0 && |m.blueTeam| > 0 && Distinct(m.redTeam) && Distinct(m.blueTeam)
    && Rated(m.redTeam, m.eloRedTeam) && (forall x :: x in m.eloRedTeam ==> x in m.redTeam)
    && Rated(m.blueTeam, m.eloBlueTeam) && (forall x :: x in m.eloBlueTeam ==> x in m.blueTeam)
  }

  /** The table of one side against an opponent average. */
  function SideTable(team: seq<MemberId>, elo: map<MemberId, int>, avgOpponent: real, k: int,
                     expected: (real, int) -> Probability): map<MemberId, Delta>
    requires Rated(team, elo)
  {
    map p | p in team :: DeltaFor(k, expected(avgOpponent, elo[p]))
  }

  /** The reference value of `calculatePreGameElo(matchup, k)`. */
  function PreGameOf(m: Matchup, k: int, expected: (real, int) -> Probability): PreGame
    requires Scored(m)
  {
    var avgBlue := Average(m.blueTeam, m.eloBlueTeam);
    var avgRed := Average(m.redTeam, m.eloRedTeam);
    PreGame(SideTable(m.redTeam, m.eloRedTeam, avgBlue, k, expected),
            SideTable(m.blueTeam, m.eloBlueTeam, avgRed, k, expected))
  }

  lemma SideTableSnoc(team: seq<MemberId>, elo: map<MemberId, int>, avgOpponent: real, k: int,
                      expected: (real, int) -> Probability, i: nat)
    requires Rated(team, elo) && i < |team|
    ensures Rated(team[..i], elo) && Rated(team[..i + 1], elo)
    ensures SideTable(team[..i + 1], elo, avgOpponent, k, expected) ==
      SideTable(team[..i], elo, avgOpponent, k, expected)[team[i] := DeltaFor(k, expected(avgOpponent, elo[team[i]]))]
  {
    assert team[..i + 1] == team[..i] + [team[i]];
  }

  /** One of the two loops: the entry of every player of `team`. */
  method Adjustments(team: seq<MemberId>, elo: map<MemberId, int>, avgOpponent: real, k: int,
                     expected: (real, int) -> Probability) returns (adjustments: map<MemberId, Delta>)
    requires Rated(team, elo)
    ensures adjustments == SideTable(team, elo, avgOpponent, k, expected)
  {
    adjustments := map[];
    for i := 0 to |team|
      invariant Rated(team[..i], elo)
      invariant adjustments == SideTable(team[..i], elo, avgOpponent, k, expected)
    {
      var player := team[i];
      var expectedScore := expected(avgOpponent, elo[player]);
      SideTableSnoc(team, elo, avgOpponent, k, expected, i);
      adjustments := adjustments[player := DeltaFor(k, expectedScore)];
    }
    assert team[..|team|] == team;
  }

  method CalculatePreGameElo(matchup: Matchup, perPlayerK: int, expected: (real, int) -> Probability)
    returns (adjustments: PreGame)
    requires Scored(matchup)
    ensures adjustments == PreGameOf(matchup, perPlayerK, expected)
  {
    var avgBlueElo := SumOver(matchup.blueTeam, matchup.eloBlueTeam) as real / |matchup.blueTeam| as real;
    var avgRedElo := SumOver(matchup.redTeam, matchup.eloRedTeam) as real / |matchup.redTeam| as real;
    var redAdjustments := Adjustments(matchup.redTeam, matchup.eloRedTeam, avgBlueElo, perPlayerK, expected);
    var blueAdjustments := Adjustments(matchup.blueTeam, matchup.eloBlueTeam, avgRedElo, perPlayerK, expected);
    adjustments := PreGame(redAdjustments, blueAdjustments);
  }

  /** Each table has exactly one entry per player of its side. */
  lemma PreGameShape(m: Matchup, k: int, expected: (real, int) -> Probability)
    requires Scored(m)
    ensures forall p :: p in PreGameOf(m, k, expected).redTeam <==> p in m.redTeam
    ensures forall p :: p in PreGameOf(m, k, expected).blueTeam <==> p in m.blueTeam
  {
  }

  /** With an expected score strictly between 0 and 1, a win never costs and a loss
      never pays, and neither moves a rating by more than `k`. */
  lemma DeltaSigns(k: int, e: real)
    requires k >= 0 && 0.0 < e < 1.0
    ensures 0 <= DeltaFor(k, e).won <= k
    ensures -k <= DeltaFor(k, e).loss <= 0
  {
    var w, l := k as real * (1.0 - e), k as real * (0.0 - e);
    assert 0.0 <= w <= k as real && -(k as real) <= l <= 0.0 by {
      assert k as real * e <= k as real;
    }
    RoundNearest(w);
    RoundNearest(l);
  }

  /** With an even `k` (30 by default), winning is worth exactly `k` more than losing. */
  lemma WonMinusLoss(k: int, e: real)
    requires k % 2 == 0
    ensures DeltaFor(k, e).won - DeltaFor(k, e).loss == k
  {
    var x := k as real * (0.0 - e);
    assert k as real * (1.0 - e) == x + k as real;
    RoundShift(x, k);
  }

  /** The signs hold for every entry of a table. */
  lemma SideTableSigns(team: seq<MemberId>, elo: map<MemberId, int>, avgOpponent: real, k: int,
                       expected: (real, int) -> Probability, p: MemberId)
    requires Rated(team, elo) && k >= 0
    requires p in SideTable(team, elo, avgOpponent, k, expected)
    ensures 0 <= SideTable(team, elo, avgOpponent, k, expected)[p].won <= k
    ensures -k <= SideTable(team, elo, avgOpponent, k, expected)[p].loss <= 0
  {
    var e := expected(avgOpponent, elo[p]);
    assert SideTable(team, elo, avgOpponent, k, expected)[p] == DeltaFor(k, e);
    DeltaSigns(k, e);
  }

  lemma PreGameSigns(m: Matchup, k: int, expected: (real, int) -> Probability, p: MemberId)
    requires Scored(m) && k >= 0
    ensures p in PreGameOf(m, k, expected).redTeam ==>
      0 <= PreGameOf(m, k, expected).redTeam[p].won && PreGameOf(m, k, expected).redTeam[p].loss <= 0
    ensures p in PreGameOf(m, k, expected).blueTeam ==>
      0 <= PreGameOf(m, k, expected).blueTeam[p].won && PreGameOf(m, k, expected).blueTeam[p].loss <= 0
  {
    var avgBlue := Average(m.blueTeam, m.eloBlueTeam);
    var avgRed := Average(m.redTeam, m.eloRedTeam);
    if p in PreGameOf(m, k, expected).redTeam {
      SideTableSigns(m.redTeam, m.eloRedTeam, avgBlue, k, expected, p);
    }
    if p in PreGameOf(m, k, expected).blueTeam {
      SideTableSigns(m.blueTeam, m.eloBlueTeam, avgRed, k, expected, p);
    }
  }

  /** Every matchup `getTeams` returns for two or more players can be scored. */
  lemma BalanceScored(players: seq<MemberId>, elo: map<MemberId, int>)
    requires IsRoster(players, elo) && |players| >= 2
    ensures Scored(Balance.Balance(players, elo))
  {
    BalanceShape(players, elo);
    RosterRated(players, elo, BestTeam(players, elo));
  }
}
