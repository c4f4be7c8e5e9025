/** The rating ledger `guildStats` (bot.py:79-95): guild -> member -> record of named
    counters. `updateElo` creates a missing record with the defaults and then, for each
    `(key, value)` of its `stats` argument in order, adds the value to a key the record
    already has (with `update=True`) or sets the key. */
module Ledger {
  import opened Common

  /** The four counters a record holds. */
  datatype Stat = Elo | Wins | Played | Hosted

  type Record = map<Stat, int>
  type Table = map<MemberId, Record>
  type Ledger = map<GuildId, Table>

  /** `{"elo": 100, "wins": 0, "played": 0, "hosted": 0}`. */
  const DefaultElo: int := 100

  function DefaultRecord(): (r: Record)
    ensures Full(r) && r[Elo] == DefaultElo && r[Wins] == 0 && r[Played] == 0 && r[Hosted] == 0
  {
    map[Elo := DefaultElo, Wins := 0, Played := 0, Hosted := 0]
  }

  /** A record holding every counter. */
  predicate Full(r: Record) {
    Elo in r && Wins in r && Played in r && Hosted in r
  }

  /** One iteration of the `for key, value in stats.items()` loop. */
  function ApplyStat(r: Record, key: Stat, value: int, update: bool): Record {
    if update && key in r then r[key := r[key] + value] else r[key := value]
  }

  /** The whole loop, over the items in order. */
  function ApplyStats(r: Record, stats: seq<(Stat, int)>, update: bool): Record {
    if stats == [] then r
    else ApplyStat(ApplyStats(r, stats[..|stats| - 1], update), stats[|stats| - 1].0, stats[|stats| - 1].1, update)
  }

  /** The loop over the first `i + 1` items is the loop over the first `i` and one more
      iteration. */
  lemma ApplyStatsSnoc(r: Record, stats: seq<(Stat, int)>, update: bool, i: nat)
    requires i < |stats|
    ensures ApplyStats(r, stats[..i + 1], update) == ApplyStat(ApplyStats(r, stats[..i], update), stats[i].0, stats[i].1, update)
  {
    assert stats[..i + 1][..i] == stats[..i];
  }

  /** A dictionary's keys are unique. */
  predicate UniqueKeys(stats: seq<(Stat, int)>) {
    forall i, j :: 0 <= i < j < |stats| ==> stats[i].0 != stats[j].0
  }

  function GuildTable(l: Ledger, g: GuildId): Table {
    if g in l then l[g] else map[]
  }

  /** The record `updateElo` starts from: the stored one, or the defaults. */
  function RecordOf(l: Ledger, g: GuildId, m: MemberId): Record {
    if m in GuildTable(l, g) then GuildTable(l, g)[m] else DefaultRecord()
  }

  /** The stored record, if any. */
  function Lookup(l: Ledger, g: GuildId, m: MemberId): Option<Record> {
    if g in l && m in l[g] then Some(l[g][m]) else None
  }

  /** `guildStats.get(guildId, {}).get(str(m.id), {}).get("elo", 100)`. */
  function RatingOf(l: Ledger, g: GuildId, m: MemberId): int {
    if g in l && m in l[g] && Elo in l[g][m] then l[g][m][Elo] else DefaultElo
  }

  /** The ledger after `updateElo(member, guild, stats, update=update)`. */
  function UpdatedLedger(l: Ledger, g: GuildId, m: MemberId, stats: seq<(Stat, int)>, update: bool): Ledger {
    l[g := GuildTable(l, g)[m := ApplyStats(RecordOf(l, g, m), stats, update)]]
  }

  /** After the call the record exists and is the old one (or the defaults) with the
      stats applied; every other record of every guild is untouched, and so is the set
      of members of every other guild. */
  lemma UpdatedLookup(l: Ledger, g: GuildId, m: MemberId, stats: seq<(Stat, int)>, update: bool, g2: GuildId, m2: MemberId)
    ensures var l2 := UpdatedLedger(l, g, m, stats, update);
      && Lookup(l2, g, m) == Some(ApplyStats(RecordOf(l, g, m), stats, update))
      && ((g2, m2) != (g, m) ==> Lookup(l2, g2, m2) == Lookup(l, g2, m2))
      && (g2 != g ==> (g2 in l2 <==> g2 in l))
  {
  }

  /** A record that did not exist starts from the defaults. */
  lemma FreshRecord(l: Ledger, g: GuildId, m: MemberId)
    requires Lookup(l, g, m).None?
    ensures RecordOf(l, g, m) == DefaultRecord()
  {
  }

  /** What the loop does to a key of `stats`: with `update=True` a key already in the
      record gets the old value plus the given one; otherwise the key is set. */
  lemma {:induction false} ApplyStatsGiven(r: Record, stats: seq<(Stat, int)>, update: bool, i: nat)
    requires UniqueKeys(stats) && i < |stats|
    ensures var key := stats[i].0;
      key in ApplyStats(r, stats, update) &&
      ApplyStats(r, stats, update)[key] == (if update && key in r then r[key] + stats[i].1 else stats[i].1)
  {
    var n := |stats| - 1;
    var init := stats[..n];
    if i < n {
      assert UniqueKeys(init) && init[i] == stats[i];
      ApplyStatsGiven(r, init, update, i);
    } else {
      ApplyStatsOther(r, init, update, stats[i].0);
    }
  }

  /** A key not in `stats` keeps its presence and value. */
  lemma {:induction false} ApplyStatsOther(r: Record, stats: seq<(Stat, int)>, update: bool, key: Stat)
    requires forall i :: 0 <= i < |stats| ==> stats[i].0 != key
    ensures key in ApplyStats(r, stats, update) <==> key in r
    ensures key in r ==> ApplyStats(r, stats, update)[key] == r[key]
  {
    if stats != [] {
      var init := stats[..|stats| - 1];
      assert forall i :: 0 <= i < |init| ==> init[i] == stats[i];
      ApplyStatsOther(r, init, update, key);
    }
  }

  /** The loop never removes a key, so full records stay full. */
  lemma {:induction false} ApplyStatsKeys(r: Record, stats: seq<(Stat, int)>, update: bool)
    ensures forall k :: k in r ==> k in ApplyStats(r, stats, update)
    ensures Full(r) ==> Full(ApplyStats(r, stats, update))
  {
    if stats != [] {
      ApplyStatsKeys(r, stats[..|stats| - 1], update);
    }
  }

  /** The three counters `endMatch` and `swapWinners` pass, in their order
      `{"elo": ..., "played": ..., "wins": ...}`. */
  function MatchStats(elo: int, played: int, wins: int): (stats: seq<(Stat, int)>)
    ensures UniqueKeys(stats)
  {
    [(Elo, elo), (Played, played), (Wins, wins)]
  }

  /** On a full record the three counters are added, and `hosted` is kept. */
  lemma MatchStatsAdd(r: Record, elo: int, played: int, wins: int)
    requires Full(r)
    ensures var r2 := ApplyStats(r, MatchStats(elo, played, wins), true);
      && Full(r2)
      && r2[Elo] == r[Elo] + elo && r2[Played] == r[Played] + played && r2[Wins] == r[Wins] + wins
      && r2[Hosted] == r[Hosted]
  {
    var s := MatchStats(elo, played, wins);
    var r1 := ApplyStat(r, Elo, elo, true);
    var r2 := ApplyStat(r1, Played, played, true);
    assert s[..2][..1][..0] == [];
    assert ApplyStats(r, s[..2][..1], true) == r1;
    assert s[..2][..1] == s[..1];
    assert ApplyStats(r, s[..2], true) == r2;
    assert ApplyStats(r, s, true) == ApplyStat(r2, Wins, wins, true);
  }

  /** Every stored record holds all four counters. */
  predicate AllFull(l: Ledger) {
    forall g, m :: g in l && m in l[g] ==> Full(l[g][m])
  }

  /** `updateElo` keeps every record full. */
  lemma UpdatedFull(l: Ledger, g: GuildId, m: MemberId, stats: seq<(Stat, int)>, update: bool)
    requires AllFull(l)
    ensures AllFull(UpdatedLedger(l, g, m, stats, update))
  {
    var r := RecordOf(l, g, m);
    assert Full(r);
    ApplyStatsKeys(r, stats, update);
  }

  /** Over a full record `RecordOf` is the record the rating display reads. */
  lemma RatingOfRecord(l: Ledger, g: GuildId, m: MemberId)
    requires AllFull(l)
    ensures RatingOf(l, g, m) == RecordOf(l, g, m)[Elo]
  {
  }
}
