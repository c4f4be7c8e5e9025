/** The bot's mutable state and its handlers (bot.py): the four module-level dictionaries
    `guildStats`, `matches`, `voicePresence` and `penaltyData` become the fields of one
    object, and each handler that changes them becomes a method proved to leave the state
    its specification function gives. Discord calls (messages, voice channels, moves,
    role and nickname edits) are left out; what they report back is passed in. */
module Engine {
  import opened Common
  import opened Ledger
  import opened Balance
  import opened PreGame
  import opened Lifecycle
  import opened Presence
  import Nickname
  import Duration
  import Queue
  import ShortId

  class Bot {
    var guildStats: Ledger
    var matches: Matches
    var voicePresence: VoicePresence
    var penaltyData: Penalties

    /** Every stored record holds its four counters, and every match has two disjoint
        sides whose players all have an entry in their side's delta table. */
    ghost predicate Valid()
      reads this
    {
      AllFull(guildStats) && AllWellFormed(matches)
    }

    /** The part of the state the match commands act on. */
    function Snapshot(): State
      reads this
    {
      State(guildStats, matches)
    }

    constructor ()
      ensures Valid()
      ensures guildStats == map[] && matches == map[] && voicePresence == map[] && penaltyData == map[]
    {
      guildStats := map[];
      matches := map[];
      voicePresence := map[];
      penaltyData := map[];
    }

    /** `updateElo`: creates the record with the defaults if missing, then applies each
        `(key, value)` in order. With `updateNick` it returns the nickname the member is
        given, `[<elo>] <display name without its tag>`. */
    method UpdateElo(member: MemberId, guild: GuildId, stats: seq<(Stat, int)>, updateNick: bool,
                     update: bool, displayName: string) returns (newNick: Option<string>)
      modifies this
      ensures guildStats == UpdatedLedger(old(guildStats), guild, member, stats, update)
      ensures matches == old(matches) && voicePresence == old(voicePresence) && penaltyData == old(penaltyData)
      ensures newNick == if updateNick then Some(Nickname.NickName(RatingOf(guildStats, guild, member), displayName)) else None
    {
      var table: Table := if guild in guildStats then guildStats[guild] else map[];
      var record: Record := if member in table then table[member] else DefaultRecord();
      ghost var start := record;
      ghost var l0 := guildStats;
      assert table == GuildTable(l0, guild) && start == RecordOf(l0, guild, member);
      guildStats := guildStats[guild := table[member := record]];
      for i := 0 to |stats|
        invariant record == ApplyStats(start, stats[..i], update)
        invariant guildStats == l0[guild := table[member := record]]
        invariant matches == old(matches) && voicePresence == old(voicePresence) && penaltyData == old(penaltyData)
      {
        ApplyStatsSnoc(start, stats, update, i);
        var key, value := stats[i].0, stats[i].1;
        record := ApplyStat(record, key, value, update);
        guildStats := guildStats[guild := table[member := record]];
      }
      assert stats[..|stats|] == stats;
      assert guild in guildStats && member in guildStats[guild] && guildStats[guild][member] == record;
      if updateNick {
        var elo := if Elo in record then record[Elo] else DefaultElo;
        assert elo == RatingOf(guildStats, guild, member);
        newNick := Some(Nickname.NickName(elo, displayName));
      } else {
        newNick := None;
      }
    }

    /** One `for m in team: updateElo(...)` loop of `endMatch` or `swapWinners`; `ok` is
        false when a player without an entry in `table` raised `KeyError`. */
    method CreditTeam(guild: GuildId, team: seq<MemberId>, table: map<MemberId, Delta>, award: Award,
                      displayName: MemberId -> string) returns (ok: bool)
      modifies this
      ensures Run(guildStats, ok) == CreditSide(old(guildStats), guild, team, table, award)
      ensures matches == old(matches) && voicePresence == old(voicePresence) && penaltyData == old(penaltyData)
    {
      for i := 0 to |team|
        invariant Run(guildStats, true) == CreditSide(old(guildStats), guild, team[..i], table, award)
        invariant matches == old(matches) && voicePresence == old(voicePresence) && penaltyData == old(penaltyData)
      {
        var m := team[i];
        assert team[..i + 1][..i] == team[..i];
        if m !in table {
          CreditSideStopped(old(guildStats), guild, team, table, award, i + 1);
          return false;
        }
        var _ := UpdateElo(m, guild, Credit(award, table[m]), true, true, displayName(m));
      }
      assert team[..|team|] == team;
      ok := true;
    }

    /** `cancelMatch`: `accepted` is false for an unknown or finished match. */
    method CancelMatch(matchId: string) returns (accepted: bool)
      requires Valid()
      modifies this
      ensures Valid()
      ensures accepted == Pending(old(Snapshot()), matchId)
      ensures Snapshot() == CancelSpec(old(Snapshot()), matchId)
      ensures voicePresence == old(voicePresence) && penaltyData == old(penaltyData)
    {
      if matchId !in matches || matches[matchId].whoWon.Some? {
        return false;
      }
      matches := matches - {matchId};
      accepted := true;
    }

    /** `endMatch(matchId, winner)`. */
    method EndMatch(matchId: string, winner: Side, displayName: MemberId -> string) returns (accepted: bool)
      requires Valid()
      modifies this
      ensures Valid()
      ensures accepted == Pending(old(Snapshot()), matchId)
      ensures Snapshot() == EndSpec(old(Snapshot()), matchId, winner)
      ensures voicePresence == old(voicePresence) && penaltyData == old(penaltyData)
    {
      if matchId !in matches || matches[matchId].whoWon.Some? {
        return false;
      }
      var cMatch := matches[matchId];
      matches := matches[matchId := cMatch.(whoWon := Some(winner))];
      var ok := CreditTeam(cMatch.guild, cMatch.redTeam, cMatch.preGame.redTeam, EndAward(Red, winner), displayName);
      if ok {
        ok := CreditTeam(cMatch.guild, cMatch.blueTeam, cMatch.preGame.blueTeam, EndAward(Blue, winner), displayName);
      }
      SettleFull(old(guildStats), cMatch, EndAward(Red, winner), EndAward(Blue, winner));
      CommandsKeepWellFormed(old(Snapshot()), matchId, winner);
      accepted := true;
    }

    /** `swapWinners(matchId)`. */
    method SwapWinners(matchId: string, displayName: MemberId -> string) returns (accepted: bool)
      requires Valid()
      modifies this
      ensures Valid()
      ensures accepted == Resolved(old(Snapshot()), matchId)
      ensures Snapshot() == SwapSpec(old(Snapshot()), matchId)
      ensures voicePresence == old(voicePresence) && penaltyData == old(penaltyData)
    {
      if matchId !in matches || matches[matchId].whoWon.None? {
        return false;
      }
      var cMatch := matches[matchId];
      var newWinner := Flip(cMatch.whoWon.value);
      matches := matches[matchId := cMatch.(whoWon := Some(newWinner))];
      var ok := CreditTeam(cMatch.guild, cMatch.redTeam, cMatch.preGame.redTeam, SwapAward(Red, newWinner), displayName);
      if ok {
        ok := CreditTeam(cMatch.guild, cMatch.blueTeam, cMatch.preGame.blueTeam, SwapAward(Blue, newWinner), displayName);
      }
      SettleFull(old(guildStats), cMatch, SwapAward(Red, newWinner), SwapAward(Blue, newWinner));
      CommandsKeepWellFormed(old(Snapshot()), matchId, Red);
      accepted := true;
    }

    /** The roster loop of `startMatch`: each selected player goes to the side the
        balancer put them on, in selection order. */
    static method Rosters(queueMembers: seq<MemberId>, teams: Matchup) returns (redTeam: seq<MemberId>, blueTeam: seq<MemberId>)
      ensures redTeam == FilterIn(queueMembers, Elems(teams.redTeam))
      ensures blueTeam == FilterIn(queueMembers, Elems(teams.blueTeam))
    {
      redTeam, blueTeam := [], [];
      for i := 0 to |queueMembers|
        invariant redTeam == FilterIn(queueMembers[..i], Elems(teams.redTeam))
        invariant blueTeam == FilterIn(queueMembers[..i], Elems(teams.blueTeam))
      {
        var m := queueMembers[i];
        assert queueMembers[..i + 1] == queueMembers[..i] + [m];
        FilterInSnoc(queueMembers[..i], m, Elems(teams.redTeam));
        FilterInSnoc(queueMembers[..i], m, Elems(teams.blueTeam));
        if m in teams.redTeam {
          redTeam := redTeam + [m];
        }
        if m in teams.blueTeam {
          blueTeam := blueTeam + [m];
        }
      }
      assert queueMembers[..|queueMembers|] == queueMembers;
    }

    /** The start-time selection: the queue sorted by join time (members without one
        last), the host moved to the front, cut to `2 * matchType` players. */
    static method SelectPlayers(voiceData: map<MemberId, int>, queueMembers: seq<MemberId>, host: MemberId,
                                matchType: nat) returns (selected: seq<MemberId>)
      requires host in queueMembers && 2 * matchType <= |queueMembers|
      ensures selected == Queue.Selection(voiceData, queueMembers, host, matchType)
    {
      var sorted := Queue.SortByJoin(voiceData, queueMembers);
      assert host in multiset(sorted);
      selected := [host] + RemoveFirst(sorted, host);
      selected := selected[..matchType * 2];
    }

    /** The new registry entry: ratings from `guildStats`, the balanced split, its delta
        tables and the rosters in selection order. */
    static method NewEntry(guildStats: Ledger, guild: GuildId, host: MemberId, queueMembers: seq<MemberId>,
                           expected: (real, int) -> Probability) returns (entry: Match)
      requires Distinct(queueMembers) && |queueMembers| >= 2
      ensures entry == NewMatch(guildStats, guild, host, queueMembers, expected)
    {
      var formattedMembers := Ratings(guildStats, guild, queueMembers);
      BalanceScored(queueMembers, formattedMembers);
      var teams := GetTeams(formattedMembers, queueMembers);
      var preGameEloCalc := CalculatePreGameElo(teams, DefaultK, expected);
      var redTeam, blueTeam := Rosters(queueMembers, teams);
      entry := Match(preGameEloCalc, redTeam, blueTeam, None, host, guild);
    }

    /** The part of `startMatch` after the id is drawn: the host's `hosted` counter and
        the registry insert. */
    method Register(guild: GuildId, host: MemberId, queueMembers: seq<MemberId>, matchId: string,
                    expected: (real, int) -> Probability)
      requires Valid() && Distinct(queueMembers) && |queueMembers| >= 2
      modifies this
      ensures Valid()
      ensures Snapshot() == Commit(old(Snapshot()), guild, host, matchId, NewMatch(old(guildStats), guild, host, queueMembers, expected))
      ensures voicePresence == old(voicePresence) && penaltyData == old(penaltyData)
    {
      ghost var s0 := Snapshot();
      var entry := NewEntry(guildStats, guild, host, queueMembers, expected);
      CommitKeepsInvariant(s0, guild, host, matchId, queueMembers, expected);
      var _ := UpdateElo(host, guild, [(Hosted, 1)], false, true, "");
      matches := matches[matchId := entry];
      assert Snapshot() == Commit(s0, guild, host, matchId, entry);
    }

    /** `startMatch` by `host` in guild `guild`; `queue` lists the members of the queue
        channel, `bots` the bots among them and `draws` the id generator's attempts. */
    method StartMatch(guild: GuildId, host: MemberId, queue: seq<MemberId>, bots: set<MemberId>, matchType: nat,
                      draws: seq<seq<nat>>, expected: (real, int) -> Probability) returns (outcome: StartOutcome)
      requires Valid() && Distinct(queue) && matchType >= 1
      requires forall i :: 0 <= i < |draws| ==> ShortId.ValidDraw(draws[i], ShortId.DefaultLength)
      modifies this
      ensures Valid()
      ensures StartResult(Snapshot(), outcome) ==
        StartSpec(old(Snapshot()), guild, host, queue, bots, GuildPresence(old(voicePresence), guild), matchType, draws, expected)
      ensures voicePresence == old(voicePresence) && penaltyData == old(penaltyData)
    {
      ghost var s0 := Snapshot();
      var voiceData := GuildPresence(voicePresence, guild);
      StartRefusals(s0, guild, host, queue, bots, voiceData, matchType, draws, expected);
      var queueMembers := Queue.DropBots(queue, bots);
      if |queueMembers| < matchType * 2 {
        return NotEnoughPlayers;
      }
      if host !in queueMembers {
        return HostNotInQueue;
      }
      var matchId := ShortId.GenerateShortId(matches.Keys, ShortId.DefaultLength, draws);
      if matchId.None? {
        return IdsExhausted;
      }
      StartInserts(s0, guild, host, queue, bots, voiceData, matchType, draws, expected);
      var selected := SelectPlayers(voiceData, queueMembers, host, matchType);
      Register(guild, host, selected, matchId.value, expected);
      outcome := Started(matchId.value);
    }

    /** `ReplacePlayerView.replace`, corrected: replace `out` by `sub` in match `matchId`;
        `moveOk` says the channel edit and the moves succeeded. Nothing is stored unless
        the move succeeded, and the tables are recalculated for the actual rosters. */
    method ReplacePlayer(matchId: string, out: MemberId, sub: MemberId, moveOk: bool,
                         expected: (real, int) -> Probability) returns (accepted: bool)
      requires Valid()
      modifies this`matches
      ensures Valid()
      ensures Snapshot() == ReplaceSpec(old(Snapshot()), matchId, out, sub, moveOk, expected)
      ensures accepted == (Pending(old(Snapshot()), matchId) && moveOk
        && sub !in old(matches)[matchId].redTeam && sub !in old(matches)[matchId].blueTeam
        && (out in old(matches)[matchId].redTeam || out in old(matches)[matchId].blueTeam))
    {
      ghost var s0 := Snapshot();
      if matchId !in matches || matches[matchId].whoWon.Some? || !moveOk {
        return false;
      }
      var cMatch := matches[matchId];
      if sub in cMatch.redTeam || sub in cMatch.blueTeam {
        return false;
      }
      var updated: Match;
      if out in cMatch.redTeam {
        SwappedFacts(cMatch.redTeam, cMatch.blueTeam, out, sub);
        var teamList := RemoveFirst(cMatch.redTeam, out) + [sub];
        updated := cMatch.(redTeam := teamList);
        assert ReplaceSpec(s0, matchId, out, sub, moveOk, expected) == Rescored(s0, matchId, updated, expected);
      } else if out in cMatch.blueTeam {
        SwappedFacts(cMatch.blueTeam, cMatch.redTeam, out, sub);
        var teamList := RemoveFirst(cMatch.blueTeam, out) + [sub];
        updated := cMatch.(blueTeam := teamList);
        assert ReplaceSpec(s0, matchId, out, sub, moveOk, expected) == Rescored(s0, matchId, updated, expected);
      } else {
        return false;
      }
      Rescore(matchId, updated, expected);
      accepted := true;
    }

    /** "Update match dict" and "Recalculate pre-game Elo", corrected to store the
        updated rosters with the tables of those very rosters. */
    method Rescore(matchId: string, updated: Match, expected: (real, int) -> Probability)
      requires Valid() && matchId in matches
      requires Distinct(updated.redTeam) && Distinct(updated.blueTeam) && |updated.redTeam| > 0 && |updated.blueTeam| > 0
      requires forall x :: x in updated.redTeam ==> x !in updated.blueTeam
      modifies this`matches
      ensures Valid()
      ensures Snapshot() == Rescored(old(Snapshot()), matchId, updated, expected)
    {
      ghost var s0 := Snapshot();
      var teams := Lineup(guildStats, updated);
      var preGameEloCalc := CalculatePreGameElo(teams, DefaultK, expected);
      RescoredFacts(s0, matchId, updated, expected);
      matches := matches[matchId := updated.(preGame := preGameEloCalc)];
      assert Snapshot() == Rescored(s0, matchId, updated, expected);
    }

    /** `on_voice_state_update` for member `m` of guild `guild` at time `now`.
        `removeRole` says the handler takes the blacklist role away: the member holds it
        but has no active penalty. */
    method OnVoiceStateUpdate(guild: GuildId, m: MemberId, queueChannel: Option<nat>, ev: VoiceEvent,
                              holdsRole: bool, kickOk: bool, now: int) returns (removeRole: bool)
      modifies this
      ensures voicePresence == VoiceUpdate(old(voicePresence), guild, m, queueChannel, ev, holdsRole, kickOk, now)
      ensures queueChannel.Some? ==> removeRole == (holdsRole && !HasActivePenalty(PenaltiesOf(penaltyData, guild, m), now))
      ensures queueChannel.None? ==> !removeRole
      ensures guildStats == old(guildStats) && matches == old(matches) && penaltyData == old(penaltyData)
    {
      if queueChannel.None? {
        return false;
      }
      var q := queueChannel.value;
      var activePenalty := PenaltiesOf(penaltyData, guild, m);
      removeRole := holdsRole && !HasActivePenalty(activePenalty, now);
      if ev.after == Some(q) && ev.before != Some(q) {
        if holdsRole && kickOk {
          return;
        }
        var guildData: map<MemberId, int> := if guild in voicePresence then voicePresence[guild] else map[];
        voicePresence := voicePresence[guild := guildData[m := now]];
      } else if ev.before == Some(q) && ev.after != Some(q) {
        if guild in voicePresence && m in voicePresence[guild] {
          voicePresence := voicePresence[guild := voicePresence[guild] - {m}];
        }
      }
    }

    /** `/penalty member duration` at time `now`. */
    method Penalty(guild: GuildId, member: MemberId, c: PenaltyContext, duration: string, now: int)
      returns (outcome: PenaltyOutcome)
      modifies this
      ensures outcome == PenaltyVerdict(c, duration)
      ensures penaltyData == AfterPenalty(old(penaltyData), guild, member, c, duration, now)
      ensures guildStats == old(guildStats) && matches == old(matches) && voicePresence == old(voicePresence)
    {
      if !c.canModerate {
        return NoPermission;
      }
      if !c.roleSet {
        return RoleNotSet;
      }
      if !c.roleExists {
        return RoleNotFound;
      }
      if c.holdsRole {
        return AlreadyPenalized;
      }
      var totalSeconds := Duration.ParseDuration(duration);
      if totalSeconds <= 0 {
        return InvalidDuration;
      }
      if !c.addOk {
        return RoleAddFailed;
      }
      var guildData: map<MemberId, seq<(int, int)>> := if guild in penaltyData then penaltyData[guild] else map[];
      var list := if member in guildData then guildData[member] else [];
      penaltyData := penaltyData[guild := guildData[member := list + [(now, totalSeconds)]]];
      outcome := Applied;
    }
  }
}
