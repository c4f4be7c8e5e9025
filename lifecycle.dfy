/** The match registry `matches` (bot.py:19) and what the host commands do to it and to the
    rating ledger: `startMatch` (bot.py:371-547), `cancelMatch` (bot.py:553-564),
    `endMatch` (bot.py:603-652), `swapWinners` (bot.py:701-768) and the roster swap of
    `ReplacePlayerView.replace` (bot.py:1104-1168). Each command is a function from the
    state before to the state after; a rejected call returns the state unchanged. */
module Lifecycle {
  import opened Common
  import opened Ledger
  import opened Balance
  import opened PreGame
  import Queue
  import ShortId

  /** A registry entry: the frozen delta tables, the two rosters, the result (`None`
      while the match is being played), the host and the guild it was started in. */
  datatype Match = Match(preGame: PreGame, redTeam: seq<MemberId>, blueTeam: seq<MemberId>,
                         whoWon: Option<Side>, host: MemberId, guild: GuildId)

  type Matches = map<string, Match>

  datatype State = State(ledger: Ledger, matches: Matches)

  /** A match whose delta tables cover its rosters: both sides non-empty, each player
      listed once and on one side only, and every player has an entry in their side's
      table. */
  predicate WellFormed(mt: Match) {
    |mt.redTeam| > 0 && |mt.blueTeam| > 0
    && Distinct(mt.redTeam) && Distinct(mt.blueTeam)
    && (forall x :: x in mt.redTeam ==> x !in mt.blueTeam)
    && (forall x :: x in mt.redTeam ==> x in mt.preGame.redTeam)
    && (forall x :: x in mt.blueTeam ==> x in mt.preGame.blueTeam)
  }

  predicate AllWellFormed(ms: Matches) {
    forall id :: id in ms ==> WellFormed(ms[id])
  }

  // ---------------------------------------------------------------------------------
  // Crediting a side

  /** What one side's players are credited with: the `won` or the `loss` entry, times
      `factor`, and the `played` and `wins` increments. */
  datatype Award = Award(won: bool, factor: int, played: int, wins: int)

  /** `endMatch`: the winners get `won`, a game and a win; the losers `loss` and a game. */
  function EndAward(side: Side, winner: Side): Award {
    if side == winner then Award(true, 1, 1, 1) else Award(false, 1, 1, 0)
  }

  /** `swapWinners`: twice the new outcome's entry, no game, and a win gained or lost. */
  function SwapAward(side: Side, newWinner: Side): Award {
    if side == newWinner then Award(true, 2, 0, 1) else Award(false, 2, 0, -1)
  }

  /** The rating change a player with entry `d` is credited with. */
  function Gain(d: Delta, a: Award): int {
    a.factor * (if a.won then d.won else d.loss)
  }

  /** The `stats` dictionary passed to `updateElo` for one player. */
  function Credit(a: Award, d: Delta): seq<(Stat, int)> {
    MatchStats(Gain(d, a), a.played, a.wins)
  }

  /** The ledger after a loop over a side, and whether it ran to the end. */
  datatype Run = Run(ledger: Ledger, ok: bool)

  /** `for m in team: updateElo(m, guild, {...}, update=True)`. A player without an entry
      in `table` raises `KeyError`, which ends the handler; the updates made before it
      stay. */
  function CreditSide(l: Ledger, g: GuildId, team: seq<MemberId>, table: map<MemberId, Delta>, a: Award): Run {
    if team == [] then Run(l, true)
    else
      var r := CreditSide(l, g, team[..|team| - 1], table, a);
      var m := team[|team| - 1];
      if !r.ok then r
      else if m !in table then Run(r.ledger, false)
      else Run(UpdatedLedger(r.ledger, g, m, Credit(a, table[m]), true), true)
  }

  /** A loop that stopped stays stopped. */
  lemma {:induction false} CreditSideStopped(l: Ledger, g: GuildId, team: seq<MemberId>,
                                             table: map<MemberId, Delta>, a: Award, i: nat)
    requires i <= |team| && !CreditSide(l, g, team[..i], table, a).ok
    ensures CreditSide(l, g, team, table, a) == CreditSide(l, g, team[..i], table, a)
    decreases |team| - i
  {
    if i < |team| {
      assert team[..i + 1][..i] == team[..i];
      CreditSideStopped(l, g, team, table, a, i + 1);
    } else {
      assert team[..i] == team;
    }
  }

  lemma RecordOfLookup(l: Ledger, g: GuildId, m: MemberId)
    ensures RecordOf(l, g, m) == (if Lookup(l, g, m).Some? then Lookup(l, g, m).value else DefaultRecord())
  {
  }

  /** When every player has an entry the loop runs through, each player's record gets
      their credit applied once, and nothing else changes. */
  lemma {:induction false} CreditSideEffect(l: Ledger, g: GuildId, team: seq<MemberId>,
                                            table: map<MemberId, Delta>, a: Award, g2: GuildId, x: MemberId)
    requires Distinct(team) && forall y :: y in team ==> y in table
    ensures CreditSide(l, g, team, table, a).ok
    ensures g2 == g && x in team ==>
      Lookup(CreditSide(l, g, team, table, a).ledger, g, x) == Some(ApplyStats(RecordOf(l, g, x), Credit(a, table[x]), true))
    ensures g2 != g || x !in team ==> Lookup(CreditSide(l, g, team, table, a).ledger, g2, x) == Lookup(l, g2, x)
  {
    if team != [] {
      var init := team[..|team| - 1];
      var m := team[|team| - 1];
      assert team == init + [m];
      assert Distinct(init) && m !in init;
      CreditSideEffect(l, g, init, table, a, g2, x);
      var r := CreditSide(l, g, init, table, a);
      UpdatedLookup(r.ledger, g, m, Credit(a, table[m]), true, g2, x);
      if g2 == g && x == m {
        CreditSideEffect(l, g, init, table, a, g, m);
        RecordOfLookup(r.ledger, g, m);
        RecordOfLookup(l, g, m);
      }
    }
  }

  /** Both loops of `endMatch` or `swapWinners`: red first; a `KeyError` on red skips
      blue. */
  function Settle(l: Ledger, mt: Match, redAward: Award, blueAward: Award): Ledger {
    var red := CreditSide(l, mt.guild, mt.redTeam, mt.preGame.redTeam, redAward);
    if !red.ok then red.ledger
    else CreditSide(red.ledger, mt.guild, mt.blueTeam, mt.preGame.blueTeam, blueAward).ledger
  }

  /** On a well-formed match every player of each side gets that side's credit once;
      everybody else, and every other guild, is untouched. */
  lemma SettleEffect(l: Ledger, mt: Match, redAward: Award, blueAward: Award, g2: GuildId, x: MemberId)
    requires WellFormed(mt)
    ensures var l2 := Settle(l, mt, redAward, blueAward);
      && (g2 == mt.guild && x in mt.redTeam ==>
            Lookup(l2, g2, x) == Some(ApplyStats(RecordOf(l, g2, x), Credit(redAward, mt.preGame.redTeam[x]), true)))
      && (g2 == mt.guild && x in mt.blueTeam ==>
            Lookup(l2, g2, x) == Some(ApplyStats(RecordOf(l, g2, x), Credit(blueAward, mt.preGame.blueTeam[x]), true)))
      && (g2 != mt.guild || (x !in mt.redTeam && x !in mt.blueTeam) ==> Lookup(l2, g2, x) == Lookup(l, g2, x))
  {
    var g := mt.guild;
    CreditSideEffect(l, g, mt.redTeam, mt.preGame.redTeam, redAward, g2, x);
    var red := CreditSide(l, g, mt.redTeam, mt.preGame.redTeam, redAward);
    CreditSideEffect(red.ledger, g, mt.blueTeam, mt.preGame.blueTeam, blueAward, g2, x);
    if g2 == g && x in mt.blueTeam {
      CreditSideEffect(l, g, mt.redTeam, mt.preGame.redTeam, redAward, g, x);
      RecordOfLookup(red.ledger, g, x);
      RecordOfLookup(l, g, x);
    }
  }

  /** Crediting keeps every record full. */
  lemma {:induction false} CreditSideFull(l: Ledger, g: GuildId, team: seq<MemberId>, table: map<MemberId, Delta>, a: Award)
    requires AllFull(l)
    ensures AllFull(CreditSide(l, g, team, table, a).ledger)
  {
    if team != [] {
      var init := team[..|team| - 1];
      var m := team[|team| - 1];
      CreditSideFull(l, g, init, table, a);
      var r := CreditSide(l, g, init, table, a);
      if r.ok && m in table {
        UpdatedFull(r.ledger, g, m, Credit(a, table[m]), true);
      }
    }
  }

  lemma SettleFull(l: Ledger, mt: Match, redAward: Award, blueAward: Award)
    requires AllFull(l)
    ensures AllFull(Settle(l, mt, redAward, blueAward))
  {
    CreditSideFull(l, mt.guild, mt.redTeam, mt.preGame.redTeam, redAward);
    var red := CreditSide(l, mt.guild, mt.redTeam, mt.preGame.redTeam, redAward);
    CreditSideFull(red.ledger, mt.guild, mt.blueTeam, mt.preGame.blueTeam, blueAward);
  }

  /** What a player's full record becomes under one credit. */
  lemma CreditCounters(r: Record, a: Award, d: Delta)
    requires Full(r)
    ensures var r2 := ApplyStats(r, Credit(a, d), true);
      && Full(r2)
      && r2[Elo] == r[Elo] + Gain(d, a) && r2[Played] == r[Played] + a.played
      && r2[Wins] == r[Wins] + a.wins && r2[Hosted] == r[Hosted]
  {
    MatchStatsAdd(r, Gain(d, a), a.played, a.wins);
  }

  // ---------------------------------------------------------------------------------
  // cancelMatch, endMatch, swapWinners

  /** `cancelMatch`: refused for an unknown or finished match; otherwise the entry is
      popped. */
  function CancelSpec(s: State, id: string): State {
    if id !in s.matches || s.matches[id].whoWon.Some? then s
    else State(s.ledger, s.matches - {id})
  }

  /** A refused cancel changes nothing; an accepted one removes exactly that match and
      leaves every rating alone. */
  lemma CancelFacts(s: State, id: string)
    ensures id !in s.matches || s.matches[id].whoWon.Some? ==> CancelSpec(s, id) == s
    ensures id in s.matches && s.matches[id].whoWon.None? ==>
      && CancelSpec(s, id).ledger == s.ledger
      && id !in CancelSpec(s, id).matches
      && forall id2 :: id2 != id ==>
           (id2 in CancelSpec(s, id).matches <==> id2 in s.matches) &&
           (id2 in s.matches ==> CancelSpec(s, id).matches[id2] == s.matches[id2])
  {
  }

  /** Whether a command may act on a match that is still being played. */
  predicate Pending(s: State, id: string) {
    id in s.matches && s.matches[id].whoWon.None?
  }

  /** Whether a command may act on a match with a result. */
  predicate Resolved(s: State, id: string) {
    id in s.matches && s.matches[id].whoWon.Some?
  }

  /** `endMatch(matchId, winner)`: refused unless the match is pending; otherwise the
      result is recorded (the match stays in the registry) and both sides are credited. */
  function EndSpec(s: State, id: string, winner: Side): State {
    if !Pending(s, id) then s
    else
      var mt := s.matches[id];
      State(Settle(s.ledger, mt, EndAward(Red, winner), EndAward(Blue, winner)),
            s.matches[id := mt.(whoWon := Some(winner))])
  }

  /** `swapWinners(matchId)`: refused unless the match has a result; otherwise the result
      is flipped and both sides are credited with the new outcome, doubled. */
  function SwapSpec(s: State, id: string): State {
    if !Resolved(s, id) then s
    else
      var mt := s.matches[id];
      var w := Flip(mt.whoWon.value);
      State(Settle(s.ledger, mt, SwapAward(Red, w), SwapAward(Blue, w)),
            s.matches[id := mt.(whoWon := Some(w))])
  }

  /** A refused end changes nothing, and a second end of the same match is always
      refused: the deltas are never applied twice. The accepted end keeps the match with
      its result set and leaves every other entry alone. */
  lemma EndFacts(s: State, id: string, winner: Side, again: Side)
    ensures !Pending(s, id) ==> EndSpec(s, id, winner) == s
    ensures EndSpec(EndSpec(s, id, winner), id, again) == EndSpec(s, id, winner)
    ensures Pending(s, id) ==>
      && EndSpec(s, id, winner).matches == s.matches[id := s.matches[id].(whoWon := Some(winner))]
      && Resolved(EndSpec(s, id, winner), id)
  {
  }

  /** On a well-formed pending match over full records, every player gets their side's
      outcome entry added to `elo`, one game, and one win exactly when their side won;
      nobody else's record changes. */
  lemma EndCredits(s: State, id: string, winner: Side, x: MemberId, g2: GuildId)
    requires Pending(s, id) && WellFormed(s.matches[id]) && AllFull(s.ledger)
    ensures var mt := s.matches[id]; var g := mt.guild;
      var r := RecordOf(s.ledger, g, x); var r2 := RecordOf(EndSpec(s, id, winner).ledger, g, x);
      && (x in mt.redTeam ==> (Full(r2)
            && r2[Elo] == r[Elo] + (if winner == Red then mt.preGame.redTeam[x].won else mt.preGame.redTeam[x].loss)
            && r2[Played] == r[Played] + 1 && r2[Wins] == r[Wins] + (if winner == Red then 1 else 0)
            && r2[Hosted] == r[Hosted]))
      && (x in mt.blueTeam ==> (Full(r2)
            && r2[Elo] == r[Elo] + (if winner == Blue then mt.preGame.blueTeam[x].won else mt.preGame.blueTeam[x].loss)
            && r2[Played] == r[Played] + 1 && r2[Wins] == r[Wins] + (if winner == Blue then 1 else 0)
            && r2[Hosted] == r[Hosted]))
      && (g2 != g || (x !in mt.redTeam && x !in mt.blueTeam) ==>
            Lookup(EndSpec(s, id, winner).ledger, g2, x) == Lookup(s.ledger, g2, x))
  {
    var mt := s.matches[id];
    var g := mt.guild;
    SettleEffect(s.ledger, mt, EndAward(Red, winner), EndAward(Blue, winner), g2, x);
    SettleEffect(s.ledger, mt, EndAward(Red, winner), EndAward(Blue, winner), g, x);
    var r := RecordOf(s.ledger, g, x);
    if x in mt.redTeam {
      CreditCounters(r, EndAward(Red, winner), mt.preGame.redTeam[x]);
    }
    if x in mt.blueTeam {
      CreditCounters(r, EndAward(Blue, winner), mt.preGame.blueTeam[x]);
    }
  }

  /** A refused swap changes nothing; two swaps restore the result and the registry. */
  lemma SwapFacts(s: State, id: string)
    ensures !Resolved(s, id) ==> SwapSpec(s, id) == s
    ensures Resolved(s, id) ==>
      && Resolved(SwapSpec(s, id), id)
      && SwapSpec(s, id).matches[id].whoWon == Some(Flip(s.matches[id].whoWon.value))
      && SwapSpec(SwapSpec(s, id), id).matches == s.matches
  {
    if Resolved(s, id) {
      var mt := s.matches[id];
      assert Flip(Flip(mt.whoWon.value)) == mt.whoWon.value;
      assert mt.(whoWon := Some(mt.whoWon.value)) == mt;
    }
  }

  /** On a well-formed resolved match over full records, every player gets twice their
      side's new outcome entry, no game, and a win gained (new winners) or lost (new
      losers). */
  lemma SwapCredits(s: State, id: string, x: MemberId, g2: GuildId)
    requires Resolved(s, id) && WellFormed(s.matches[id]) && AllFull(s.ledger)
    ensures var mt := s.matches[id]; var g := mt.guild; var w := Flip(mt.whoWon.value);
      var r := RecordOf(s.ledger, g, x); var r2 := RecordOf(SwapSpec(s, id).ledger, g, x);
      && (x in mt.redTeam ==> (Full(r2)
            && r2[Elo] == r[Elo] + 2 * (if w == Red then mt.preGame.redTeam[x].won else mt.preGame.redTeam[x].loss)
            && r2[Played] == r[Played] && r2[Wins] == r[Wins] + (if w == Red then 1 else -1)
            && r2[Hosted] == r[Hosted]))
      && (x in mt.blueTeam ==> (Full(r2)
            && r2[Elo] == r[Elo] + 2 * (if w == Blue then mt.preGame.blueTeam[x].won else mt.preGame.blueTeam[x].loss)
            && r2[Played] == r[Played] && r2[Wins] == r[Wins] + (if w == Blue then 1 else -1)
            && r2[Hosted] == r[Hosted]))
      && (g2 != g || (x !in mt.redTeam && x !in mt.blueTeam) ==>
            Lookup(SwapSpec(s, id).ledger, g2, x) == Lookup(s.ledger, g2, x))
  {
    var mt := s.matches[id];
    var g := mt.guild;
    var w := Flip(mt.whoWon.value);
    SettleEffect(s.ledger, mt, SwapAward(Red, w), SwapAward(Blue, w), g2, x);
    SettleEffect(s.ledger, mt, SwapAward(Red, w), SwapAward(Blue, w), g, x);
    var r := RecordOf(s.ledger, g, x);
    if x in mt.redTeam {
      CreditCounters(r, SwapAward(Red, w), mt.preGame.redTeam[x]);
    }
    if x in mt.blueTeam {
      CreditCounters(r, SwapAward(Blue, w), mt.preGame.blueTeam[x]);
    }
  }

  /** `n` presses of "swap winners" on the same match. */
  function Swaps(s: State, id: string, n: nat): State {
    if n == 0 then s else SwapSpec(Swaps(s, id, n - 1), id)
  }

  /** The side of a player of a match. */
  function SideOf(mt: Match, x: MemberId): Side {
    if x in mt.redTeam then Red else Blue
  }

  /** `endMatch` and `swapWinners` keep every record full. */
  lemma EndSwapFull(s: State, id: string, winner: Side)
    requires AllFull(s.ledger)
    ensures AllFull(EndSpec(s, id, winner).ledger) && AllFull(SwapSpec(s, id).ledger)
  {
    if Pending(s, id) {
      SettleFull(s.ledger, s.matches[id], EndAward(Red, winner), EndAward(Blue, winner));
    }
    if Resolved(s, id) {
      var w := Flip(s.matches[id].whoWon.value);
      SettleFull(s.ledger, s.matches[id], SwapAward(Red, w), SwapAward(Blue, w));
    }
  }

  /** The winner after `n` flips. */
  function WinnerAfter(winner: Side, n: nat): (w: Side)
    ensures w == (if n % 2 == 0 then winner else Flip(winner))
  {
    if n == 0 then winner else Flip(WinnerAfter(winner, n - 1))
  }

  /** After `endMatch` and `n` swaps the match shows the original winner flipped `n`
      times, the rest of the registry is as before, and every record is still full. */
  lemma {:induction false} SwapsShape(s: State, id: string, winner: Side, n: nat)
    requires Pending(s, id) && AllFull(s.ledger)
    ensures var s2 := Swaps(EndSpec(s, id, winner), id, n);
      && AllFull(s2.ledger)
      && s2.matches == s.matches[id := s.matches[id].(whoWon := Some(WinnerAfter(winner, n)))]
  {
    var mt := s.matches[id];
    EndSwapFull(s, id, winner);
    if n > 0 {
      SwapsShape(s, id, winner, n - 1);
      var s1 := Swaps(EndSpec(s, id, winner), id, n - 1);
      EndSwapFull(s1, id, winner);
      assert s1.matches[id] == mt.(whoWon := Some(WinnerAfter(winner, n - 1)));
    }
  }

  /** After `endMatch` and any number of swaps, with the rosters unchanged, every player
      has exactly one more game, and one more win exactly when their side is the current
      winner. */
  lemma {:induction false} SwapsAccounting(s: State, id: string, winner: Side, n: nat, x: MemberId)
    requires Pending(s, id) && WellFormed(s.matches[id]) && AllFull(s.ledger)
    requires x in s.matches[id].redTeam || x in s.matches[id].blueTeam
    ensures var s2 := Swaps(EndSpec(s, id, winner), id, n); var mt := s.matches[id];
      var r := RecordOf(s.ledger, mt.guild, x); var r2 := RecordOf(s2.ledger, mt.guild, x);
      && Full(r2) && r2[Played] == r[Played] + 1
      && r2[Wins] == r[Wins] + (if SideOf(mt, x) == WinnerAfter(winner, n) then 1 else 0)
  {
    var mt := s.matches[id];
    var g := mt.guild;
    if n == 0 {
      EndCredits(s, id, winner, x, g);
    } else {
      SwapsAccounting(s, id, winner, n - 1, x);
      SwapsShape(s, id, winner, n - 1);
      var s1 := Swaps(EndSpec(s, id, winner), id, n - 1);
      assert s1.matches[id] == mt.(whoWon := Some(WinnerAfter(winner, n - 1)));
      SwapCredits(s1, id, x, g);
    }
  }

  /** The doubled swap does not undo the first result: a red player of a match red won,
      after one swap, has gained `won + 2 * loss`, where reversing the result would have
      left `loss`; the two agree only when `won == -loss`. */
  lemma SwapAfterEndElo(s: State, id: string, x: MemberId)
    requires Pending(s, id) && WellFormed(s.matches[id]) && AllFull(s.ledger)
    requires x in s.matches[id].redTeam
    ensures var mt := s.matches[id]; var d := mt.preGame.redTeam[x];
      var r := RecordOf(s.ledger, mt.guild, x); var r2 := RecordOf(SwapSpec(EndSpec(s, id, Red), id).ledger, mt.guild, x);
      && Full(r2) && r2[Elo] == r[Elo] + d.won + 2 * d.loss
      && (r2[Elo] == r[Elo] + d.loss <==> d.won + d.loss == 0)
  {
    var mt := s.matches[id];
    var s1 := EndSpec(s, id, Red);
    EndCredits(s, id, Red, x, mt.guild);
    SettleFull(s.ledger, mt, EndAward(Red, Red), EndAward(Blue, Red));
    assert s1.matches[id] == mt.(whoWon := Some(Red));
    SwapCredits(s1, id, x, mt.guild);
  }

  // ---------------------------------------------------------------------------------
  // startMatch

  /** `formattedMembers`: each player's stored rating, 100 when there is none. */
  function Ratings(l: Ledger, g: GuildId, players: seq<MemberId>): (elo: map<MemberId, int>)
    ensures forall x :: x in elo <==> x in players
  {
    map m | m in players :: RatingOf(l, g, m)
  }

  /** A split of `sel` into two sides of `n // 2` red and the rest blue, each player once. */
  ghost predicate SplitOf(teams: Matchup, sel: seq<MemberId>) {
    && |teams.redTeam| == |sel| / 2 && |teams.blueTeam| == |sel| - |sel| / 2
    && Distinct(teams.redTeam) && Distinct(teams.blueTeam)
    && (forall x :: x in sel <==> x in teams.redTeam || x in teams.blueTeam)
    && (forall x :: !(x in teams.redTeam && x in teams.blueTeam))
  }

  /** The registry entry for the split `teams` of the selection `sel` with delta tables
      `pre`: the rosters `redTeam` / `blueTeam` are built by walking the selection in
      order and putting each player on the side the split gave them. */
  function Entry(teams: Matchup, pre: PreGame, sel: seq<MemberId>, host: MemberId, g: GuildId): Match {
    Match(pre, FilterIn(sel, Elems(teams.redTeam)), FilterIn(sel, Elems(teams.blueTeam)), None, host, g)
  }

  /** The entry's rosters are the split's sides, in selection order, so its tables
      cover them when the tables are keyed by the split. */
  lemma EntryFacts(teams: Matchup, pre: PreGame, sel: seq<MemberId>, host: MemberId, g: GuildId)
    requires Distinct(sel) && |sel| >= 2 && SplitOf(teams, sel)
    requires forall x :: x in pre.redTeam <==> x in teams.redTeam
    requires forall x :: x in pre.blueTeam <==> x in teams.blueTeam
    ensures var mt := Entry(teams, pre, sel, host, g);
      && WellFormed(mt) && mt.whoWon.None? && mt.host == host && mt.guild == g
      && (forall x :: x in sel <==> x in mt.redTeam || x in mt.blueTeam)
      && |mt.redTeam| == |sel| / 2 && |mt.blueTeam| == |sel| - |sel| / 2
      && (forall x :: x in mt.preGame.redTeam <==> x in mt.redTeam)
      && (forall x :: x in mt.preGame.blueTeam <==> x in mt.blueTeam)
  {
    var red := FilterIn(sel, Elems(teams.redTeam));
    var blue := FilterIn(sel, Elems(teams.blueTeam));
    assert Elems(red) == Elems(teams.redTeam);
    assert Elems(blue) == Elems(teams.blueTeam);
    DistinctCard(red);
    DistinctCard(teams.redTeam);
    DistinctCard(blue);
    DistinctCard(teams.blueTeam);
  }

  /** The registry entry `startMatch` stores for the selected players: the balanced
      split and its delta tables with `K = 30`. */
  function NewMatch(l: Ledger, g: GuildId, host: MemberId, sel: seq<MemberId>,
                    expected: (real, int) -> Probability): Match
    requires Distinct(sel) && |sel| >= 2
  {
    var elo := Ratings(l, g, sel);
    BalanceScored(sel, elo);
    var teams := Balance.Balance(sel, elo);
    Entry(teams, PreGameOf(teams, DefaultK, expected), sel, host, g)
  }

  /** The new entry is pending, well formed, splits exactly the selected players into
      `n // 2` red and the rest blue, and its delta tables have an entry for exactly the
      players of their side. */
  lemma NewMatchFacts(l: Ledger, g: GuildId, host: MemberId, sel: seq<MemberId>, expected: (real, int) -> Probability)
    requires Distinct(sel) && |sel| >= 2
    ensures var mt := NewMatch(l, g, host, sel, expected);
      && WellFormed(mt) && mt.whoWon.None? && mt.host == host && mt.guild == g
      && (forall x :: x in sel <==> x in mt.redTeam || x in mt.blueTeam)
      && |mt.redTeam| == |sel| / 2 && |mt.blueTeam| == |sel| - |sel| / 2
      && (forall x :: x in mt.preGame.redTeam <==> x in mt.redTeam)
      && (forall x :: x in mt.preGame.blueTeam <==> x in mt.blueTeam)
  {
    var elo := Ratings(l, g, sel);
    BalanceScored(sel, elo);
    BalanceShape(sel, elo);
    var teams := Balance.Balance(sel, elo);
    assert SplitOf(teams, sel);
    PreGameShape(teams, DefaultK, expected);
    EntryFacts(teams, PreGameOf(teams, DefaultK, expected), sel, host, g);
  }

  /** The registry insert and the host's `updateElo(host, {"hosted": 1}, update=True)`. */
  function Commit(s: State, g: GuildId, host: MemberId, id: string, mt: Match): State {
    State(UpdatedLedger(s.ledger, g, host, [(Hosted, 1)], true), s.matches[id := mt])
  }

  /** The host is credited with one hosted game and no other record changes; records
      stay full and matches well formed. */
  lemma CommitFacts(s: State, g: GuildId, host: MemberId, id: string, mt: Match, g2: GuildId, m2: MemberId)
    requires AllFull(s.ledger) && AllWellFormed(s.matches) && WellFormed(mt)
    ensures var s2 := Commit(s, g, host, id, mt);
      && AllFull(s2.ledger) && AllWellFormed(s2.matches)
      && RecordOf(s2.ledger, g, host)[Hosted] == RecordOf(s.ledger, g, host)[Hosted] + 1
      && ((g2, m2) != (g, host) ==> Lookup(s2.ledger, g2, m2) == Lookup(s.ledger, g2, m2))
  {
    UpdatedFull(s.ledger, g, host, [(Hosted, 1)], true);
    ApplyStatsGiven(RecordOf(s.ledger, g, host), [(Hosted, 1)], true, 0);
    UpdatedLookup(s.ledger, g, host, [(Hosted, 1)], true, g2, m2);
  }

  /** Registering a new match keeps every record full and every match well formed. */
  lemma CommitKeepsInvariant(s: State, g: GuildId, host: MemberId, id: string, sel: seq<MemberId>,
                             expected: (real, int) -> Probability)
    requires AllFull(s.ledger) && AllWellFormed(s.matches) && Distinct(sel) && |sel| >= 2
    ensures AllFull(Commit(s, g, host, id, NewMatch(s.ledger, g, host, sel, expected)).ledger)
    ensures AllWellFormed(Commit(s, g, host, id, NewMatch(s.ledger, g, host, sel, expected)).matches)
  {
    NewMatchFacts(s.ledger, g, host, sel, expected);
    CommitFacts(s, g, host, id, NewMatch(s.ledger, g, host, sel, expected), g, host);
  }

  /** How `startMatch` ends. */
  datatype StartOutcome = Started(id: string) | NotEnoughPlayers | HostNotInQueue | IdsExhausted

  datatype StartResult = StartResult(state: State, outcome: StartOutcome)

  /** `startMatch` by `host` in guild `g` for a `matchType`-a-side game. `queue` lists
      the members of the queue channel and `bots` the bots among them; `presence` is the
      guild's join-time table and `draws` the attempts of the id generator. The queue
      without bots must hold `2 * matchType` players, among them the host; the host's
      `hosted` counter goes up by one and the new entry is stored under a fresh id. When
      every supplied draw collides (`IdsExhausted`) the source would keep drawing; here
      nothing changes. */
  function StartSpec(s: State, g: GuildId, host: MemberId, queue: seq<MemberId>, bots: set<MemberId>,
                     presence: map<MemberId, int>, matchType: nat, draws: seq<seq<nat>>,
                     expected: (real, int) -> Probability): StartResult
    requires Distinct(queue) && matchType >= 1
    requires forall i :: 0 <= i < |draws| ==> ShortId.ValidDraw(draws[i], ShortId.DefaultLength)
  {
    var humans := Queue.Humans(queue, bots);
    if |humans| < 2 * matchType then StartResult(s, NotEnoughPlayers)
    else if host !in humans then StartResult(s, HostNotInQueue)
    else
      var id := ShortId.FreshId(s.matches.Keys, draws, ShortId.DefaultLength);
      if id.None? then StartResult(s, IdsExhausted)
      else
        var sel := Queue.Selection(presence, humans, host, matchType);
        StartResult(Commit(s, g, host, id.value, NewMatch(s.ledger, g, host, sel, expected)), Started(id.value))
  }

  /** A start is refused, changing nothing, when the queue without bots is too small or
      lacks the host; otherwise it succeeds exactly when some draw gives an unused id. */
  lemma StartRefusals(s: State, g: GuildId, host: MemberId, queue: seq<MemberId>, bots: set<MemberId>,
                      presence: map<MemberId, int>, matchType: nat, draws: seq<seq<nat>>,
                      expected: (real, int) -> Probability)
    requires Distinct(queue) && matchType >= 1
    requires forall i :: 0 <= i < |draws| ==> ShortId.ValidDraw(draws[i], ShortId.DefaultLength)
    ensures var res := StartSpec(s, g, host, queue, bots, presence, matchType, draws, expected);
      var humans := Queue.Humans(queue, bots);
      && (|humans| < 2 * matchType ==> res == StartResult(s, NotEnoughPlayers))
      && (|humans| >= 2 * matchType && host !in humans ==> res == StartResult(s, HostNotInQueue))
      && (res.outcome.Started? <==>
            |humans| >= 2 * matchType && host in humans && ShortId.FreshId(s.matches.Keys, draws, ShortId.DefaultLength).Some?)
      && (!res.outcome.Started? ==> res.state == s)
  {
  }

  /** A successful start stores, under an id of six letters and digits that no live
      match had, the entry for the selection of the queue without bots, and credits the
      host (`CommitFacts`, `NewMatchFacts` and `SelectionMembers` say what that entry and
      that credit are). */
  lemma StartInserts(s: State, g: GuildId, host: MemberId, queue: seq<MemberId>, bots: set<MemberId>,
                     presence: map<MemberId, int>, matchType: nat, draws: seq<seq<nat>>,
                     expected: (real, int) -> Probability)
    requires Distinct(queue) && matchType >= 1
    requires forall i :: 0 <= i < |draws| ==> ShortId.ValidDraw(draws[i], ShortId.DefaultLength)
    requires StartSpec(s, g, host, queue, bots, presence, matchType, draws, expected).outcome.Started?
    ensures var res := StartSpec(s, g, host, queue, bots, presence, matchType, draws, expected);
      var id := res.outcome.id; var humans := Queue.Humans(queue, bots);
      && id !in s.matches && |id| == ShortId.DefaultLength
      && (forall j :: 0 <= j < |id| ==> ShortId.IsAlnum(id[j]))
      && host in humans && 2 * matchType <= |humans| && Distinct(humans)
      && res.outcome == Started(ShortId.FreshId(s.matches.Keys, draws, ShortId.DefaultLength).value)
      && res.state == Commit(s, g, host, id, NewMatch(s.ledger, g, host, Queue.Selection(presence, humans, host, matchType), expected))
  {
  }

  // ---------------------------------------------------------------------------------
  // ReplacePlayerView.replace

  /** `teamList.remove(out); teamList.append(sub)`. */
  function Swapped(team: seq<MemberId>, out: MemberId, sub: MemberId): seq<MemberId>
    requires out in team
  {
    RemoveFirst(team, out) + [sub]
  }

  /** The recalculation at the end of `replace` as written: `getTeams` over the ratings of
      `redTeam + blueTeam` (a dictionary, so each player once, in first-occurrence order),
      then `calculatePreGameElo` of the split it returns. With fewer than two players
      `calculatePreGameElo` divides by zero; the rosters are stored by then and the old
      tables stay. */
  function RebalancedAsWritten(s: State, id: string, mt: Match, expected: (real, int) -> Probability): State {
    var players := Dedup(mt.redTeam + mt.blueTeam);
    if |players| < 2 then State(s.ledger, s.matches[id := mt])
    else
      var elo := Ratings(s.ledger, mt.guild, players);
      BalanceScored(players, elo);
      State(s.ledger, s.matches[id := mt.(preGame := PreGameOf(Balance.Balance(players, elo), DefaultK, expected))])
  }

  /** `ReplacePlayerView.replace` as written, replacing `out` by `sub` in match `id`;
      `moveOk` says the channel edit and the two moves succeeded. Its guard reads the
      key `"is won"`, which is never set, so only an unknown id is refused. The side's
      list is changed in place before the moves; a failed move returns without
      recalculating. The "update match dict" step tests `out in match["redTeam"]` after
      `out` was removed from that very list, so a red replacement stores the red list as
      `blueTeam` as well. */
  function ReplaceAsWritten(s: State, id: string, out: MemberId, sub: MemberId, moveOk: bool,
                            expected: (real, int) -> Probability): State {
    if id !in s.matches then s
    else
      var mt := s.matches[id];
      if out in mt.redTeam then
        var list := Swapped(mt.redTeam, out, sub);
        if !moveOk then State(s.ledger, s.matches[id := mt.(redTeam := list)])
        else if out in list then RebalancedAsWritten(s, id, mt.(redTeam := list), expected)
        else RebalancedAsWritten(s, id, mt.(redTeam := list, blueTeam := list), expected)
      else if out in mt.blueTeam then
        var list := Swapped(mt.blueTeam, out, sub);
        if !moveOk then State(s.ledger, s.matches[id := mt.(blueTeam := list)])
        else RebalancedAsWritten(s, id, mt.(blueTeam := list), expected)
      else s
  }

  /** As written, a match that already has a result still has its roster changed. */
  lemma ReplaceIgnoresResult(s: State, id: string, out: MemberId, sub: MemberId, expected: (real, int) -> Probability)
    requires Resolved(s, id) && out in s.matches[id].redTeam && sub !in s.matches[id].redTeam
    ensures ReplaceAsWritten(s, id, out, sub, false, expected).matches[id].redTeam != s.matches[id].redTeam
  {
    var list := Swapped(s.matches[id].redTeam, out, sub);
    assert sub in list;
  }

  /** As written, replacing a red player (listed once) overwrites the blue roster with the
      new red one: the blue players drop out of the match. */
  lemma ReplaceRedOverwritesBlue(s: State, id: string, out: MemberId, sub: MemberId, expected: (real, int) -> Probability)
    requires id in s.matches && out in s.matches[id].redTeam && Distinct(s.matches[id].redTeam) && sub != out
    ensures var mt2 := ReplaceAsWritten(s, id, out, sub, true, expected).matches[id];
      mt2.blueTeam == mt2.redTeam == Swapped(s.matches[id].redTeam, out, sub)
  {
    RemoveFirstDistinct(s.matches[id].redTeam, out);
  }

  /** As written, after a failed move the new player is on the roster without an entry in
      the delta table of their side, so `endMatch` on that match stops with `KeyError`. */
  lemma ReplaceFailedMoveUncovered(s: State, id: string, out: MemberId, sub: MemberId, expected: (real, int) -> Probability)
    requires id in s.matches && out in s.matches[id].redTeam && sub !in s.matches[id].preGame.redTeam
    ensures var mt2 := ReplaceAsWritten(s, id, out, sub, false, expected).matches[id];
      sub in mt2.redTeam && sub !in mt2.preGame.redTeam && !WellFormed(mt2)
  {
  }

  /** As written, the recalculation after a replacement may move players between the
      two delta tables while the rosters stay: with red `[1, 2]` rated 100 each and blue
      `[3, 5]` rated 200 each, `getTeams` picks red `(1, 3)`, so player 2, still on the red
      roster, has no red entry and `endMatch` stops with `KeyError` after crediting 1. */
  lemma ReplaceRepartitionUncovered(s: State, id: string, expected: (real, int) -> Probability)
    requires id in s.matches && s.matches[id].redTeam == [1, 2] && s.matches[id].blueTeam == [3, 4]
    requires var g := s.matches[id].guild;
      RatingOf(s.ledger, g, 1) == 100 && RatingOf(s.ledger, g, 2) == 100
      && RatingOf(s.ledger, g, 3) == 200 && RatingOf(s.ledger, g, 5) == 200
    ensures id in ReplaceAsWritten(s, id, 4, 5, true, expected).matches
    ensures var mt2 := ReplaceAsWritten(s, id, 4, 5, true, expected).matches[id];
      && mt2.redTeam == [1, 2] && mt2.blueTeam == [3, 5]
      && 2 in mt2.redTeam && 2 !in mt2.preGame.redTeam && !WellFormed(mt2)
      && forall l: Ledger, a: Award :: !CreditSide(l, mt2.guild, mt2.redTeam, mt2.preGame.redTeam, a).ok
  {
    var mt := s.matches[id];
    assert Swapped(mt.blueTeam, 4, 5) == [3, 5];
    var mt3 := mt.(blueTeam := [3, 5]);
    assert ReplaceAsWritten(s, id, 4, 5, true, expected) == RebalancedAsWritten(s, id, mt3, expected);
    RebalanceRepartitions(s, id, mt3, expected);
  }

  /** The recalculation of that example: `getTeams` puts 1 and 3 on red. */
  lemma RebalanceRepartitions(s: State, id: string, mt: Match, expected: (real, int) -> Probability)
    requires mt.redTeam == [1, 2] && mt.blueTeam == [3, 5]
    requires RatingOf(s.ledger, mt.guild, 1) == 100 && RatingOf(s.ledger, mt.guild, 2) == 100
    requires RatingOf(s.ledger, mt.guild, 3) == 200 && RatingOf(s.ledger, mt.guild, 5) == 200
    ensures var mt2 := RebalancedAsWritten(s, id, mt, expected).matches[id];
      mt2.redTeam == [1, 2] && mt2.blueTeam == [3, 5] && 2 !in mt2.preGame.redTeam
  {
    var players: seq<MemberId> := [1, 2, 3, 5];
    assert mt.redTeam + mt.blueTeam == players;
    DedupDistinct(players);
    var elo := Ratings(s.ledger, mt.guild, players);
    RepartitionBest(players, elo);
    BalanceScored(players, elo);
    PreGameShape(Balance.Balance(players, elo), DefaultK, expected);
  }

  /** The split `getTeams` returns for the ratings of that example. */
  lemma RepartitionBest(players: seq<MemberId>, elo: map<MemberId, int>)
    requires players == [1, 2, 3, 5] && ExampleRatings(players, elo)
    ensures IsRoster(players, elo) && Balance.Balance(players, elo).redTeam == [1, 3]
  {
    RepartitionDiffs(elo);
    RepartitionCombinations();
    var cs := Combinations(players, |players| / 2);
    CombinationShape(players, 2, 0);
    CombinationShape(players, 2, 1);
    SecondPairBest(players, elo);
    assert Balance.Balance(players, elo).redTeam == BestTeam(players, elo) == cs[1];
  }

  /** `getTeams` keeps the second combination when the first is uneven and the second
      level. */
  lemma SecondPairBest(players: seq<MemberId>, elo: map<MemberId, int>)
    requires IsRoster(players, elo)
    requires var cs := Combinations(players, |players| / 2);
      && |cs| >= 2 && Within(cs[0], players) && Within(cs[1], players)
      && Distinct(cs[1]) && |cs[1]| == |players| / 2
      && DiffOf(players, elo, cs[0]) > 0 && DiffOf(players, elo, cs[1]) == 0
    ensures BestIndex(players, elo) == 1
  {
    var cs := Combinations(players, |players| / 2);
    BalanceOptimal(players, elo, cs[1]);
    if BestIndex(players, elo) == 0 {
      BalanceIsBestIndex(players, elo);
    } else if BestIndex(players, elo) > 1 {
      BalanceFirstBest(players, elo, 1);
    }
  }

  /** The first two pairs `itertools.combinations((1, 2, 3, 5), 2)` yields. */
  lemma RepartitionCombinations()
    ensures var cs := Combinations([1, 2, 3, 5], 2); |cs| >= 2 && cs[0] == [1, 2] && cs[1] == [1, 3]
  {
    var c35 := Combinations([3, 5], 1);
    assert [3, 5][1..] == [5];
    assert c35 == WithHead(3, Combinations([5], 0)) + Combinations([5], 1);
    assert c35[0] == [3];
    var c235 := Combinations([2, 3, 5], 1);
    assert [2, 3, 5][1..] == [3, 5];
    assert c235 == WithHead(2, Combinations([3, 5], 0)) + c35;
    assert c235[0] == [2] && c235[1] == [3];
    var cs := Combinations([1, 2, 3, 5], 2);
    assert [1, 2, 3, 5][1..] == [2, 3, 5];
    assert cs == WithHead(1, c235) + Combinations([2, 3, 5], 2);
  }

  /** Players 1 and 2 rated 100, players 3 and 5 rated 200, nobody else. */
  ghost predicate ExampleRatings(players: seq<MemberId>, elo: map<MemberId, int>) {
    && (forall x :: x in elo <==> x in players)
    && 1 in elo && 2 in elo && 3 in elo && 5 in elo
    && elo[1] == 100 && elo[2] == 100 && elo[3] == 200 && elo[5] == 200
  }

  /** Red (1, 2) is 200 apart from blue (3, 5); red (1, 3) is level with blue (2, 5). */
  lemma RepartitionDiffs(elo: map<MemberId, int>)
    requires ExampleRatings([1, 2, 3, 5], elo)
    ensures IsRoster([1, 2, 3, 5], elo)
    ensures DiffOf([1, 2, 3, 5], elo, [1, 2]) == 200 && DiffOf([1, 2, 3, 5], elo, [1, 3]) == 0
  {
    var players: seq<MemberId> := [1, 2, 3, 5];
    assert IsRoster(players, elo);
    assert Rest([5], [1, 2]) == [5];
    assert Rest([3, 5], [1, 2]) == [3, 5];
    assert Rest(players, [1, 2]) == [3, 5];
    assert InsertSorted(5, []) == [5];
    assert SortIds([5]) == [5];
    assert SortIds([3, 5]) == [3, 5];
    assert SumOver([5], elo) == 200;
    assert SumOver([3, 5], elo) == 400;
    assert SumOver([2], elo) == 100;
    assert SumOver([1, 2], elo) == 200;
    assert Rest([5], [1, 3]) == [5];
    assert Rest([3, 5], [1, 3]) == [5];
    assert Rest(players, [1, 3]) == [2, 5];
    assert SortIds([2, 5]) == [2, 5];
    assert SumOver([3], elo) == 200;
    assert SumOver([1, 3], elo) == 300;
    assert SumOver([2, 5], elo) == 300;
  }

  /** The ratings of a match's actual rosters, as a matchup. */
  function Lineup(l: Ledger, mt: Match): (m: Matchup)
    requires Distinct(mt.redTeam) && Distinct(mt.blueTeam)
    ensures m.redTeam == mt.redTeam && m.blueTeam == mt.blueTeam
    ensures (|mt.redTeam| > 0 && |mt.blueTeam| > 0) ==> Scored(m)
  {
    var elo := Ratings(l, mt.guild, mt.redTeam + mt.blueTeam);
    Matchup(mt.redTeam, mt.blueTeam, Restrict(elo, mt.redTeam), Restrict(elo, mt.blueTeam),
            SplitDiff(mt.redTeam, mt.blueTeam, elo))
  }

  /** The replacement keeps a roster free of repeats and apart from the other side. */
  lemma SwappedFacts(team: seq<MemberId>, other: seq<MemberId>, out: MemberId, sub: MemberId)
    requires Distinct(team) && out in team && sub !in team && sub !in other
    requires forall x :: x in team ==> x !in other
    ensures var t := Swapped(team, out, sub);
      && Distinct(t) && |t| > 0 && (forall x :: x in t ==> x !in other)
      && (forall x :: x in t <==> (x in team && x != out) || x == sub)
  {
    RemoveFirstDistinct(team, out);
    DistinctSnoc(RemoveFirst(team, out), sub);
  }

  /** Match `id` with the tables recalculated for its actual rosters. */
  function Rescored(s: State, id: string, mt: Match, expected: (real, int) -> Probability): State
    requires Distinct(mt.redTeam) && Distinct(mt.blueTeam) && |mt.redTeam| > 0 && |mt.blueTeam| > 0
  {
    State(s.ledger, s.matches[id := mt.(preGame := PreGameOf(Lineup(s.ledger, mt), DefaultK, expected))])
  }

  lemma RescoredFacts(s: State, id: string, mt: Match, expected: (real, int) -> Probability)
    requires Distinct(mt.redTeam) && Distinct(mt.blueTeam) && |mt.redTeam| > 0 && |mt.blueTeam| > 0
    requires (forall x :: x in mt.redTeam ==> x !in mt.blueTeam) && AllWellFormed(s.matches)
    requires id in s.matches
    ensures var s2 := Rescored(s, id, mt, expected);
      && AllWellFormed(s2.matches) && s2.ledger == s.ledger && s2.matches.Keys == s.matches.Keys
      && (forall id2 :: id2 in s.matches && id2 != id ==> s2.matches[id2] == s.matches[id2])
  {
    var pre := PreGameOf(Lineup(s.ledger, mt), DefaultK, expected);
    PreGameShape(Lineup(s.ledger, mt), DefaultK, expected);
    assert WellFormed(mt.(preGame := pre));
    StoreFacts(s.matches, id, mt.(preGame := pre));
  }

  /** Storing a well-formed entry under an existing id keeps the registry well formed and
      leaves the other entries alone. */
  lemma StoreFacts(ms: Matches, id: string, mt: Match)
    requires AllWellFormed(ms) && WellFormed(mt) && id in ms
    ensures AllWellFormed(ms[id := mt]) && ms[id := mt].Keys == ms.Keys
    ensures forall id2 :: id2 in ms && id2 != id ==> ms[id := mt][id2] == ms[id2]
  {
  }

  /** The corrected replace: refused for an unknown or finished match, a player not in
      it, a replacement already in it, or a failed move; otherwise the player's side gets
      the replacement in their place and the delta tables are recalculated for the
      actual rosters. */
  function ReplaceSpec(s: State, id: string, out: MemberId, sub: MemberId, moveOk: bool,
                       expected: (real, int) -> Probability): State
    requires AllWellFormed(s.matches)
  {
    if !Pending(s, id) || !moveOk then s
    else
      var mt := s.matches[id];
      if sub in mt.redTeam || sub in mt.blueTeam then s
      else if out in mt.redTeam then
        SwappedFacts(mt.redTeam, mt.blueTeam, out, sub);
        Rescored(s, id, mt.(redTeam := Swapped(mt.redTeam, out, sub)), expected)
      else if out in mt.blueTeam then
        SwappedFacts(mt.blueTeam, mt.redTeam, out, sub);
        Rescored(s, id, mt.(blueTeam := Swapped(mt.blueTeam, out, sub)), expected)
      else s
  }

  /** The corrected replace keeps every match well formed: the delta tables cover the
      rosters, so a later `endMatch` credits every player. It changes only match `id`,
      never a rating, and refuses finished matches. */
  lemma ReplaceFacts(s: State, id: string, out: MemberId, sub: MemberId, moveOk: bool,
                     expected: (real, int) -> Probability)
    requires AllWellFormed(s.matches)
    ensures var s2 := ReplaceSpec(s, id, out, sub, moveOk, expected);
      && AllWellFormed(s2.matches)
      && s2.ledger == s.ledger
      && (Resolved(s, id) ==> s2 == s)
      && s2.matches.Keys == s.matches.Keys
      && (forall id2 :: id2 in s.matches && id2 != id ==> s2.matches[id2] == s.matches[id2])
  {
    if Pending(s, id) && moveOk {
      var mt := s.matches[id];
      if sub !in mt.redTeam && sub !in mt.blueTeam {
        if out in mt.redTeam {
          SwappedFacts(mt.redTeam, mt.blueTeam, out, sub);
          RescoredFacts(s, id, mt.(redTeam := Swapped(mt.redTeam, out, sub)), expected);
        } else if out in mt.blueTeam {
          SwappedFacts(mt.blueTeam, mt.redTeam, out, sub);
          RescoredFacts(s, id, mt.(blueTeam := Swapped(mt.blueTeam, out, sub)), expected);
        }
      }
    }
  }

  /** On the side of the replaced player the roster is the old one with the replacement in
      their place; the other side, the result, host and guild are unchanged. */
  lemma ReplaceRoster(s: State, id: string, out: MemberId, sub: MemberId, expected: (real, int) -> Probability)
    requires AllWellFormed(s.matches) && Pending(s, id)
    requires sub !in s.matches[id].redTeam && sub !in s.matches[id].blueTeam
    requires out in s.matches[id].redTeam || out in s.matches[id].blueTeam
    ensures var mt := s.matches[id]; var mt2 := ReplaceSpec(s, id, out, sub, true, expected).matches[id];
      && mt2.whoWon == mt.whoWon && mt2.host == mt.host && mt2.guild == mt.guild
      && (out in mt.redTeam ==> mt2.redTeam == Swapped(mt.redTeam, out, sub) && mt2.blueTeam == mt.blueTeam)
      && (out in mt.blueTeam ==> mt2.blueTeam == Swapped(mt.blueTeam, out, sub) && mt2.redTeam == mt.redTeam)
  {
  }

  /** The other commands keep every match well formed too. */
  lemma CommandsKeepWellFormed(s: State, id: string, winner: Side)
    requires AllWellFormed(s.matches)
    ensures AllWellFormed(CancelSpec(s, id).matches)
    ensures AllWellFormed(EndSpec(s, id, winner).matches)
    ensures AllWellFormed(SwapSpec(s, id).matches)
  {
  }
}
