# openMM matchmaking core in Dafny

openMM is a Discord bot for in-house matches. Players wait in a queue voice channel. A
host starts a match: the bot takes the host and the players who have waited longest,
splits them into the two most evenly rated sides (red and blue), and records, per player,
the rating won or lost for either result. A moderator then ends the match for one side,
swaps a wrongly reported result, cancels the match, or replaces a player. The bot also
tracks when members joined the queue and issues timed penalties that keep members out.

This project models the part of the bot that decides things, with the Discord calls cut
away:

- the rating ledger `guildStats` and `updateElo` (module `Ledger`);
- the team balancer `getTeams` (`Balance`);
- the delta table `calculatePreGameElo` (`PreGame`);
- the short id generator `generateShortId` (`ShortId`);
- the queue selection at match start (`Queue`);
- `stripTag` and the rating nickname (`Nickname`);
- `parse_duration` (`Duration`);
- voice presence and penalties (`Presence`);
- the match life cycle as functions of the state (`Lifecycle`);
- the bot itself (`Engine`).

In `Engine`, one `Bot` object holds the four dictionaries the handlers update in place.
These are `guildStats`, `matches`, `voicePresence` and `penaltyData`. Each handler is a
method proved to leave exactly the state its `Lifecycle` or `Presence` function gives.
It also keeps the invariant `Valid`: every stored record holds all four counters, and
every match has two non-empty, disjoint, repeat-free sides whose players all have an
entry in their side's delta table.

Dafny types stand in for the Python ones:

- A ledger record is a map from the four counters to integers.
- A match's winner is a `Side`; `SideCode` maps it to the source's 0 (red) and 1 (blue).
- Times are whole seconds.
- The handlers' I/O outcomes (a move that failed, roles held, the random draws) are
  method parameters.

## Model

| member | source | states |
|---|---|---|
| Nickname.TagEnd | bot.py:52 | the lazy `.*?` of the tag stops at the first `]`, or at a newline, which `.` does not cross |
| Nickname.SpaceEnd | bot.py:52 | `\s*` takes the whole run of whitespace after the tag |
| Nickname.LineEnd | bot.py:52 | the captured `(.*)` ends at the first newline |
| Nickname.StripTag | bot.py:42-55 | text without a leading `[...]` tag comes back unchanged; after a tag, the result holds no newline and starts with no whitespace |
| Nickname.StripTagInverts | bot.py:52-55 | `stripTag("[" + t + "] " + s) == s` when `t` has no `]` or newline and `s` has no newline and no leading whitespace |
| Nickname.NatToString | bot.py:99 | a rating is written as a non-empty string of decimal digits |
| Nickname.NatToStringValue | bot.py:99 | the digits written for `n` read back as `n`, so they are `str(n)` |
| Nickname.IntToString | bot.py:99 | the written rating holds no `]` and no newline, so it can sit inside the tag |
| Nickname.NickName | bot.py:99 | reference definition of the nickname (no contract of its own): `[elo] ` before the stripped display name; `NickNameStable` states its properties |
| Nickname.NickNameStable | bot.py:97-100 | stripping the new nickname gives back the stripped display name, and re-tagging a tagged nickname replaces the old rating instead of stacking tags |
| ShortId.AlphabetChar | helper.py:29 | each of the 62 alphabet positions is a letter or a digit |
| ShortId.Spell | helper.py:31 | a draw spells an alphanumeric id of its own length |
| ShortId.FreshId | helper.py:25-33 | an id is found iff some draw spells an id not in use; the id found is the first such draw, is not in use, has the requested length and is alphanumeric |
| ShortId.GenerateShortId | helper.py:25-33 | the retry loop returns what `FreshId` specifies |
| Balance.Combinations | helper.py:45 | there is at least one `k`-combination when `k` is at most the number of players |
| Balance.CombinationShape | helper.py:45 | every combination has `k` players, all drawn from the input, and has no repeats when the input has none |
| Balance.CombinationsShape | helper.py:45 | the same for all combinations at once |
| Balance.CombinationsComplete | helper.py:45 | every `k`-subset of the players appears among the combinations |
| Balance.InsertSortedFacts | helper.py:52 | insertion into a sorted list keeps it sorted and adds exactly one element |
| Balance.SortIdsFacts | helper.py:52 | `sorted` yields a sorted permutation |
| Balance.RestFacts | helper.py:52 | `set(players) - set(team1)` holds exactly the players not in `team1`, without repeats |
| Balance.BlueFacts | helper.py:52 | `team2` is sorted, repeat-free, and holds exactly the players outside `team1` |
| Balance.RestSameMembers | helper.py:52 | the complement depends only on the members of `team1` |
| Balance.RosterRated | helper.py:59-60 | both sides of any candidate split have a rating for every player |
| Balance.FirstBest | helper.py:63-64 | the index kept by the strict `<` scan has the smallest difference, strictly smaller than every earlier one |
| Balance.FirstBestKeeps | helper.py:63 | a later candidate tied with an earlier one does not replace the kept one |
| Balance.CombinationsWithin | helper.py:45 | every combination of the players is drawn from the players |
| Balance.BestIndex | helper.py:51-71 | the kept candidate is one of the combinations |
| Balance.BestTeam | helper.py:51-71 | the kept red team has `n // 2` distinct players from the input |
| Balance.SameKeySameDiff | helper.py:53-56 | two candidates with the same `matchupKey` have the same difference, so skipping the repeated key loses nothing |
| Balance.ScanStep | helper.py:51-71 | one loop iteration: a seen key is skipped, and an unseen key is recorded and replaces the best only when strictly better |
| Balance.SeenMember | helper.py:54-56 | every key in `seen` came from a candidate already visited |
| Balance.ScanFindsFirstBest | helper.py:51-71 | the `seen` scan keeps exactly the first candidate with the minimum difference |
| Balance.KeysDetermineDiffs | helper.py:53-61 | candidates with equal keys have equal differences |
| Balance.Balance | helper.py:36-73 | reference definition of `getTeams` without the `seen` set (no contract of its own): the matchup of the first combination with the smallest difference; `BalanceShape`, `BalanceOptimal` and `BalanceFirstBest` state its properties |
| Balance.GetTeams | helper.py:36-73 | the loop returns the matchup `Balance` specifies |
| Balance.SumOverRemove | helper.py:61 | the rating sum of a side is one member's rating plus the sum of the rest |
| Balance.SumOverSameMembers | helper.py:61 | the rating sum depends only on the side's members, not their order |
| Balance.BlueCount | helper.py:43-52 | blue gets every player red does not, so blue has the extra player when `n` is odd |
| Balance.MatchupShape | helper.py:52-70 | any candidate: the sides are disjoint and cover the players, blue is sorted, the rating maps are restrictions, and the difference is the absolute difference of the rating sums |
| Balance.BalanceShape | helper.py:41-52 | red has `n // 2` players and blue `n - n // 2`; they are disjoint, repeat-free and cover the input |
| Balance.BalanceIsBestIndex | helper.py:51-71 | the returned matchup is the candidate at the kept index |
| Balance.BalanceOptimal | helper.py:51-71 | no `n // 2`-subset of the players has a strictly smaller difference |
| Balance.BalanceFirstBest | helper.py:45-63 | every combination earlier in `itertools.combinations` order has a strictly larger difference |
| PreGame.RoundNearest | helper.py:93-94 | `round` gives the nearest integer, the even one on a tie |
| PreGame.RoundUnique | helper.py:93-94 | and it is the only integer that does |
| PreGame.RoundShift | helper.py:93-94 | shifting by an even integer commutes with rounding |
| PreGame.RoundNeg | helper.py:93-94 | half-to-even rounding is symmetric about zero |
| PreGame.PreGameOf | helper.py:75-108 | reference definition of `calculatePreGameElo` (no contract of its own): each side's table against the other side's average rating; `PreGameShape` and `PreGameSigns` state its properties |
| PreGame.SideTableSnoc | helper.py:89-95 | each loop iteration adds one player's `won`/`loss` entry |
| PreGame.Adjustments | helper.py:89-103 | the per-side loop fills the table `SideTable` specifies |
| PreGame.CalculatePreGameElo | helper.py:75-108 | the two loops return the table `PreGameOf` specifies |
| PreGame.PreGameShape | helper.py:89-108 | the table has an entry for exactly the players of each side |
| PreGame.DeltaSigns | helper.py:91-102 | with an expected score strictly between 0 and 1, `0 <= won <= k` and `-k <= loss <= 0` |
| PreGame.WonMinusLoss | helper.py:93-94 | for an even `k`, `won - loss == k` |
| PreGame.SideTableSigns | helper.py:89-103 | every entry of a side's table has those signs and bounds |
| PreGame.PreGameSigns | helper.py:89-108 | every entry of both tables has `won >= 0 >= loss` |
| PreGame.BalanceScored | helper.py:41-52 | a balanced split of at least two players has two non-empty sides, so the averages are defined |
| Ledger.UpdatedLedger | bot.py:79-95 | reference definition of `updateElo`'s ledger change (no contract of its own): the member's record, or the defaults, with the stats applied; `UpdatedLookup` and `UpdatedFull` state its properties |
| Ledger.ApplyStatsSnoc | bot.py:89-95 | the loop over `i + 1` items is the loop over `i` items and one more iteration |
| Ledger.UpdatedLookup | bot.py:79-95 | afterwards the member's record exists and is the old one (or the defaults) with the stats applied; every other record, and which members other guilds have, is unchanged |
| Ledger.FreshRecord | bot.py:85-87 | a missing record starts from the defaults |
| Ledger.ApplyStatsGiven | bot.py:89-95 | with `update=True` a key already present gets old plus value; otherwise the key is set |
| Ledger.ApplyStatsOther | bot.py:89-95 | keys not in `stats` keep their presence and value |
| Ledger.ApplyStatsKeys | bot.py:89-95 | no key is ever removed, so full records stay full |
| Ledger.MatchStats | bot.py:630-634 | the three keys passed by `endMatch` are distinct |
| Ledger.MatchStatsAdd | bot.py:626-637 | on a full record, elo, played and wins each grow by the value given, and hosted is kept |
| Ledger.UpdatedFull | bot.py:79-95 | `updateElo` keeps every stored record full |
| Ledger.RatingOfRecord | bot.py:408 | on full records the `.get("elo", 100)` lookup reads the stored or default record |
| Queue.InsertByJoin | bot.py:402 | insertion adds exactly one element |
| Queue.SortByJoin | bot.py:402 | sorting by join time is a permutation |
| Queue.SortedCons | bot.py:402 | an element no later than all others keeps the list sorted by join time |
| Queue.InsertSorted | bot.py:402 | insertion keeps the list sorted by join time |
| Queue.InsertStable | bot.py:402 | insertion keeps the relative order of members with equal join keys |
| Queue.SortFacts | bot.py:402 | the sort orders by join time, members with no time last, and is stable |
| Queue.Others | bot.py:402-404 | the sorted queue without the host holds the queue's members minus the host |
| Queue.OthersDistinct | bot.py:403-404 | the host followed by the others has no repeats when the queue has none |
| Queue.Selection | bot.py:401-406 | the selection has `2 * matchType` players, and no repeats when the queue has none |
| Queue.OthersSorted | bot.py:402-403 | the players after the host are in join order |
| Queue.SelectionMembers | bot.py:403-406 | the host is at index 0, and every selected player is from the queue |
| Queue.SelectionOrder | bot.py:402-406 | the players after the host are in ascending join order |
| Queue.HeadThenSorted | bot.py:404-406 | a prefix of the host followed by a sorted list is sorted after the head |
| Queue.HeadThenEarliest | bot.py:404-406 | a player left out of the prefix joined no earlier than any non-host player in it |
| Queue.RemoveFirstSorted | bot.py:403 | removing the host keeps the list sorted |
| Queue.SelectionEarliest | bot.py:402-406 | every selected non-host player joined no later than any queue member left out |
| Queue.BotFilterAsWritten | bot.py:373-375 | the bot filter as written (no contract of its own): `None`, the abandoned start, as soon as the queue holds a bot, else the queue unchanged; `BotInQueueAborts` and `HumansWithoutBots` state its properties |
| Queue.BotInQueueAborts | bot.py:373-375 | as written, a queue holding one bot makes the start fail |
| Queue.Humans | bot.py:373-375 | the corrected filter keeps exactly the queue members that are not bots, without repeats |
| Queue.DropBots | bot.py:373-375 | the corrected loop returns `Humans` |
| Queue.HumansWithoutBots | bot.py:373-375 | without bots the filter as written and the corrected one agree |
| Queue.ParseMatchType | bot.py:1057-1069 | an accepted match type is 1, 3, 4 or 5 players a side |
| Queue.ParseMatchTypeExamples | bot.py:1057-1059 | "2v2" is refused, and "5V5" is accepted as 5 |
| Duration.LowerChar | bot.py:799 | lower-casing leaves digits digits and non-digits non-digits |
| Duration.Scaled | bot.py:801-806 | a unit worth nothing (such as `s`) adds nothing |
| Duration.AmountIsRun | bot.py:798-800 | the amount before a unit letter is `int` of the maximal run of ASCII digits before it, as the greedy `\d+` captures such a run |
| Duration.ParseDuration | bot.py:792-807 | the loop returns `DurationSeconds`, the sum over every run of ASCII digits directly followed by d, h or m of amount times 86400, 3600 or 60, case-insensitively; the result is at least 0 |
| Duration.DurationSeconds | bot.py:792-807 | reference definition of `parse_duration` (no contract of its own): position by position, a unit letter right after a digit adds the run's amount times its unit; `ParseDuration`, `DurationConcat`, `SingleToken` and `NoUnitNoSeconds` state its properties |
| Duration.NoUnitNoSeconds | bot.py:798-807 | a text with no d, h or m is worth 0 seconds (seconds-only texts included), so `/penalty` refuses it |
| Duration.LowerConcat | bot.py:799 | lower-casing distributes over joining with a blank |
| Duration.DurationConcat | bot.py:799 | tokens separated by a blank are counted independently |
| Duration.BlankContributesNothing | bot.py:798 | a blank completes no match |
| Duration.PrefixTotals | bot.py:799 | the matches in a prefix are counted the same inside a longer text |
| Duration.PrefixContribution | bot.py:799 | a position inside a prefix contributes the same inside a longer text |
| Duration.AmountPrefix | bot.py:798-800 | a digit run inside a prefix has the same amount inside a longer text |
| Duration.SuffixTotals | bot.py:799 | past a non-digit, the rest of the text counts as it would alone |
| Duration.ShiftedContribution | bot.py:799 | a position after a non-digit contributes the same in the suffix |
| Duration.AmountShift | bot.py:798-800 | a digit run after a non-digit has the same amount in the suffix |
| Duration.SingleToken | bot.py:798-807 | one `<digits><unit>` token is worth its amount times the unit |
| Duration.ExampleDuration | bot.py:1514 | "1d 2h 30m" is 95400 seconds |
| Duration.OneDigit | bot.py:798-807 | a one-digit token is worth its digit times the unit |
| Presence.VoiceUpdate | bot.py:1246-1286 | reference definition of the presence update (no contract of its own): a join of the queue channel records `now` unless a blacklisted member is disconnected, a leave removes the entry, anything else keeps the table; `JoinRecords`, `LeaveRemoves` and `VoiceOthersUnchanged` state its properties |
| Presence.JoinRecords | bot.py:1267-1282 | joining the queue channel records the join time, unless the member holds the blacklist role and is disconnected, which leaves the table unchanged |
| Presence.LeaveRemoves | bot.py:1283-1286 | leaving the queue channel removes the member's entry |
| Presence.VoiceOthersUnchanged | bot.py:1276-1298 | no other member's entry in any guild changes, and a change that neither enters nor leaves the queue channel changes nothing |
| Presence.HasActivePenalty | bot.py:1254-1257 | a penalty is active iff some `(start, duration)` has `now - start < duration` |
| Presence.ActiveStaysActive | bot.py:1254-1257 | appending penalties never ends an active one |
| Presence.PenaltyVerdict | bot.py:1474-1519 | the penalty is applied iff the caller may moderate, the role is set and exists, the member does not hold it, the duration is positive and `add_roles` succeeds; a caller without permission is always refused for that reason; a failing `add_roles` after all checks passed is its own outcome |
| Presence.AfterPenalty | bot.py:1519-1522 | reference definition of the record update (no contract of its own): `(now, seconds)` is appended to the target's list only when the verdict is `Applied`; `PenaltyAppendOnly`, `PenaltyRefusesHolder` and `PenaltyActiveNow` state its properties |
| Presence.PenaltyAppendOnly | bot.py:1519-1522 | every member's list afterwards starts with their old list; only the target's list may grow, and only by `(now, seconds)`, which happens when the penalty is applied |
| Presence.PenaltyRefusesHolder | bot.py:1502-1510 | a member who already holds the blacklist role is not penalized again |
| Presence.PenaltyActiveNow | bot.py:1512-1522 | a penalty just applied is active at the moment it was issued |
| Lifecycle.CreditSide | bot.py:626-652 | reference definition of one side's crediting loop (no contract of its own): players in order, stopping at the first one without a delta entry; `CreditSideStopped` and `CreditSideEffect` state its properties |
| Lifecycle.Settle | bot.py:626-652 | reference definition of both loops (no contract of its own): red first, and blue only when red ran through; `SettleEffect` and `SettleFull` state its properties |
| Lifecycle.CreditSideStopped | bot.py:626-652 | after a player without a delta entry raises `KeyError`, no later player is credited |
| Lifecycle.CreditSideEffect | bot.py:626-652 | when every player has an entry, each player is credited once and nothing else changes |
| Lifecycle.SettleEffect | bot.py:626-652 | on a well-formed match, red players get red's award and blue players blue's; every other record is unchanged |
| Lifecycle.CreditSideFull | bot.py:626-637 | crediting a side keeps every record full |
| Lifecycle.SettleFull | bot.py:626-652 | crediting both sides keeps every record full |
| Lifecycle.CreditCounters | bot.py:630-634 | a credit adds the gain to elo, the played and wins increments to those counters, and keeps hosted |
| Lifecycle.CancelSpec | bot.py:553-564 | reference definition of `cancelMatch` (no contract of its own): refused for an unknown or finished match, otherwise the entry is popped; `CancelFacts` states its properties |
| Lifecycle.EndSpec | bot.py:603-652 | reference definition of `endMatch` (no contract of its own): refused unless pending, otherwise the result is set and both sides credited; `EndFacts` and `EndCredits` state its properties |
| Lifecycle.SwapSpec | bot.py:701-768 | reference definition of `swapWinners` (no contract of its own): refused unless resolved, otherwise the result flips and both sides get the doubled new outcome; `SwapFacts` and `SwapCredits` state its properties |
| Lifecycle.CancelFacts | bot.py:553-564 | an unknown or finished match is refused with nothing changed; otherwise only that id leaves `matches` and no record changes |
| Lifecycle.EndFacts | bot.py:603-617 | a match that is not pending is refused with nothing changed, so a second end never credits twice; otherwise only `who won` is set and the match stays |
| Lifecycle.EndCredits | bot.py:617-652 | each winner gains their `won` entry, a game and a win; each loser their `loss` entry and a game; hosted and everyone else are unchanged |
| Lifecycle.SwapFacts | bot.py:701-728 | an unknown or unfinished match is refused; otherwise the winner flips, and two swaps restore the registry |
| Lifecycle.SwapCredits | bot.py:733-768 | each player gains twice the new outcome's entry and gains (new winners) or loses (new losers) one win; played and hosted are unchanged |
| Lifecycle.EndSwapFull | bot.py:603-768 | ending and swapping keep every record full |
| Lifecycle.WinnerAfter | bot.py:727 | after `n` swaps the winner is flipped iff `n` is odd |
| Lifecycle.SwapsShape | bot.py:603-728 | after an end and `n` swaps the records stay full, and only the winner of the match differs |
| Lifecycle.SwapsAccounting | bot.py:603-768 | after an end and any number of swaps each player has played one more game, and one more win iff their side is the current winner |
| Lifecycle.SwapAfterEndElo | bot.py:741-753 | a red winner swapped to loser ends at `won + 2 * loss`, which equals the plain loss only when `won + loss == 0` |
| Lifecycle.Entry | bot.py:511-547 | reference definition of the stored entry (no contract of its own): the rosters walk the selection and put each player on the side the split chose; `EntryFacts` states its properties |
| Lifecycle.EntryFacts | bot.py:511-547 | the entry stored at start is well formed and pending; its sides split the selection into halves and match the delta tables |
| Lifecycle.NewMatch | bot.py:407-547 | reference definition of the entry `startMatch` builds (no contract of its own): the ratings, `getTeams`, `calculatePreGameElo` with `K = 30`, and `Entry`; `NewMatchFacts` states its properties |
| Lifecycle.NewMatchFacts | bot.py:407-547 | the same for the entry built from the selection's ratings, balanced split and delta table |
| Lifecycle.Commit | bot.py:419-547 | reference definition of the registry change at start (no contract of its own): the host's `hosted` credit and the insert under the new id; `CommitFacts` states its properties |
| Lifecycle.CommitFacts | bot.py:418-547 | registering keeps the invariant, adds one to the host's hosted count, and leaves every other record unchanged |
| Lifecycle.CommitKeepsInvariant | bot.py:407-547 | a started match keeps all records full and all matches well formed |
| Lifecycle.StartSpec | bot.py:371-547 | reference definition of `startMatch` (no contract of its own): the refusals for too few humans and an absent host, then the fresh id, `NewMatch` and `Commit`; `StartRefusals` and `StartInserts` state its properties |
| Lifecycle.StartRefusals | bot.py:371-412 | too few humans or a host not in the queue refuse the start with nothing changed; a start happens iff neither applies and a fresh id is drawn |
| Lifecycle.StartInserts | bot.py:398-547 | a started match gets a fresh alphanumeric 6-character id and the entry built from the selection, with the host credited one hosted game |
| Lifecycle.ReplaceAsWritten | bot.py:1104-1168 | `replace` as written (no contract of its own): only an unknown id is refused; the side's list changes before the moves and stays after a failed one; a red replacement is stored as both rosters; the tables are recomputed by `getTeams`; the four lemmas below state what goes wrong |
| Lifecycle.RebalancedAsWritten | bot.py:1158-1168 | the recalculation as written (no contract of its own): `getTeams` over the ratings of `redTeam + blueTeam`, and `calculatePreGameElo` of the split it returns, while the rosters stay |
| Lifecycle.ReplaceIgnoresResult | bot.py:1109-1138 | as written, the roster of a match that already has a result still changes |
| Lifecycle.ReplaceRedOverwritesBlue | bot.py:1153-1157 | as written, replacing a red player stores the new red list as the blue team too |
| Lifecycle.ReplaceFailedMoveUncovered | bot.py:1136-1151 | as written, a failed move leaves the replacement on the roster with no delta entry, so the match is no longer well formed |
| Lifecycle.ReplaceRepartitionUncovered | bot.py:1158-1168 | as written, after replacing blue 4 by 5 in red `[1, 2]` (rated 100) against blue `[3, 4]` (3 and 5 rated 200), player 2 stays on the red roster without a red delta entry, so crediting red stops with `KeyError` |
| Lifecycle.RebalanceRepartitions | bot.py:1158-1168 | in that example the recalculation keys the red table by `getTeams`' red side `(1, 3)` while the rosters stay `[1, 2]` and `[3, 5]` |
| Lifecycle.SecondPairBest | helper.py:51-71 | when the first combination is uneven and the second level, `getTeams` keeps the second |
| Lifecycle.Lineup | bot.py:1164-1166 | the corrected recalculation scores the actual rosters, so both sides are kept |
| Lifecycle.SwappedFacts | bot.py:1137-1138 | `remove` then `append` yields a repeat-free side with `sub` in place of `out`, still apart from the other side |
| Lifecycle.RescoredFacts | bot.py:1153-1168 | storing the rescored entry keeps every match well formed and changes no other match and no record |
| Lifecycle.StoreFacts | bot.py:1153-1157 | storing a well-formed entry under an existing id changes only that entry |
| Lifecycle.ReplaceSpec | bot.py:1104-1168 | reference definition of the corrected replace (no contract of its own): refused unless the match is pending, the move succeeded, `sub` is not in the match and `out` is; then `out` is swapped for `sub` on their side and the entry rescored by `Lineup`; `ReplaceFacts` and `ReplaceRoster` state its properties |
| Lifecycle.ReplaceFacts | bot.py:1104-1168 | the corrected replace keeps every match well formed, changes no record and no other match, and refuses a finished match |
| Lifecycle.ReplaceRoster | bot.py:1124-1157 | an accepted replace swaps `out` for `sub` on their own side only and keeps the result, host and guild |
| Lifecycle.CommandsKeepWellFormed | bot.py:553-728 | cancel, end and swap keep every match well formed |
| Engine.Bot.constructor | bot.py:17-20 | the bot starts with empty dictionaries, which satisfies the invariant |
| Engine.Bot.UpdateElo | bot.py:79-99 | the ledger becomes `UpdatedLedger` of the old one; nothing else changes; with `updateNick` the new nickname is `[elo] ` before the stripped display name |
| Engine.Bot.CreditTeam | bot.py:626-652 | one side's loop leaves the ledger, and the `KeyError` flag, as `CreditSide` gives |
| Engine.Bot.CancelMatch | bot.py:553-564 | accepted iff the match is pending; the state becomes `CancelSpec` of the old state |
| Engine.Bot.EndMatch | bot.py:603-652 | accepted iff the match is pending; the state becomes `EndSpec` of the old state, and the invariant holds |
| Engine.Bot.SwapWinners | bot.py:701-768 | accepted iff the match has a result; the state becomes `SwapSpec` of the old state |
| Engine.Bot.Rosters | bot.py:511-520 | red and blue keep the selection's order, each holding exactly the players the split put on that side |
| Engine.Bot.SelectPlayers | bot.py:401-406 | the sort, the host move and the cut return `Selection` |
| Engine.Bot.NewEntry | bot.py:407-547 | the entry built at start is `NewMatch` of the ledger and selection |
| Engine.Bot.Register | bot.py:418-547 | the host's hosted count and the registry change as `Commit` gives, and the invariant holds |
| Engine.Bot.StartMatch | bot.py:371-547 | the refusals, the selection, the id, the hosted credit and the insert leave the state and outcome `StartSpec` gives |
| Engine.Bot.ReplacePlayer | bot.py:1104-1168 | the corrected replace: accepted iff the match is pending, the move succeeded, `sub` is not in the match and `out` is; the state becomes `ReplaceSpec` of the old state |
| Engine.Bot.Rescore | bot.py:1153-1168 | the updated entry is stored with the delta table of its own rosters, and the invariant holds |
| Engine.Bot.OnVoiceStateUpdate | bot.py:1241-1298 | the presence table becomes `VoiceUpdate` of the old one; the blacklist role is removed iff the member holds it with no active penalty |
| Engine.Bot.Penalty | bot.py:1474-1522 | the outcome is `PenaltyVerdict`, and the penalty record becomes `AfterPenalty` of the old one, so nothing is recorded when `add_roles` fails |

## Left out

- Discord I/O is left out: messages, embeds, channel creation and deletion, permission overwrites, moves, role and nickname edits, permission probing, `/setup`, the views and modals. What the model needs from these (a move that failed, the queue channel's members, which bots are among them, who holds the blacklist role, whether giving that role succeeded) is passed in as a parameter.
- Reading and writing the JSON settings and stats files is I/O and is not modelled.
- The expected-score formula `1 / (1 + 10 ** (...))` is floating point. It is a function parameter from (opponent average, rating) to a real strictly between 0 and 1. Python's half-to-even `round` is modelled exactly on reals.
- `secrets.choice` is randomness. The draws are a parameter: a sequence of candidate ids. `generateShortId` retries forever, so when no draw is fresh `StartSpec` refuses with `IdsExhausted` and changes nothing, where the bot would hang.
- `time.time()` and `datetime.utcnow()` are clocks. The current time is a parameter in whole seconds.
- The delayed role removal `remove_role_later` is an asyncio timer, and interleaving across `await` points is concurrency; neither is modelled.
- `log`, the difflib channel-name check and the random confirm words of the modals are library calls or display.
- The `/elo` display reads `"won"` instead of `"wins"`. It only displays, so it is not modelled.
- In `replace`, the choice checks of the selection menus and the guild member lookups are UI. The removal of the replacement from the queue channel's member list acts on a Discord object. `Engine.Bot.ReplacePlayer` starts after them.
- Engine.Bot.UpdateElo: the nickname edit itself is I/O. The method returns the nickname it would set, and `CreditTeam` discards it.
- Engine.Bot.OnVoiceStateUpdate: the "switch out of" and "switch into" branches (bot.py:1288-1298) can never run once the first two did not, so they add nothing to the model.
- Presence.PenaltyVerdict: `/penalty` refuses when the member holds the blacklist role, as the code does. It does not look at the penalty record, which differs from the wording of the bot's documentation.
- Lifecycle.SwapCredits: the doubled delta on swap is modelled as written, drift included. `SwapAfterEndElo` states exactly how far it can land from a plain loss.
- Duration.ParseDuration: only the ASCII digits 0-9 count as digits. Python's `\d` in a `str` pattern and `int()` also accept the other Unicode decimal digits, so a duration such as a fullwidth "３d" is 259200 seconds in the bot and 0 in the model. The Unicode digit table is not modelled. `str.lower` is modelled on A-Z only: no other character lower-cases to a digit or to d, h, m or s.
- Duration.AmountIsRun: the run it describes is a run of ASCII digits, for the same reason.
- Duration.DurationSeconds: the same restriction to ASCII digits, and with it `Presence.PenaltyVerdict` refuses such a duration as invalid.
- Integers are unbounded, as Python's are.

## Findings

| source | as written | input that shows it | evidently intended | confidence | as-written member | corrected member |
|---|---|---|---|---|---|---|
| bot.py:373-375 | `queueMembers.pop(member)` passes a member to `list.pop`, which takes an index | a queue channel holding one bot: the `TypeError` abandons the start | drop the bots and keep the humans in order | not executed | Queue.BotInQueueAborts | Queue.DropBots |
| bot.py:1109 | the guard reads the key `"is won"`, which is never set | a match already ended: `replace` still changes its roster | refuse a match that already has a result (`"who won"`) | not executed | Lifecycle.ReplaceIgnoresResult | Lifecycle.ReplaceFacts |
| bot.py:1153-1157 | after `teamList.remove(out)` the test `out in match["redTeam"]` reads the same, already changed, list | replacing a red player: the red list is stored as `blueTeam` too | store the list on the side the player came from | not executed | Lifecycle.ReplaceRedOverwritesBlue | Lifecycle.ReplaceRoster |
| bot.py:1158-1168 | `getTeams` runs again over both rosters: it may put players on a side other than their roster's, while the rosters stay | red `[1, 2]` rated 100 against blue `[3, 4]`, with 3 and 5 rated 200; replacing 4 by 5 keys the red table by `(1, 3)`, and ending the match raises `KeyError` at player 2 | score the rosters as they stand | not executed | Lifecycle.ReplaceRepartitionUncovered | Lifecycle.ReplaceFacts |
| bot.py:1136-1151 | the roster changes before the moves; a failed move returns with no new deltas | a failed move: the replacement has no delta entry, and ending the match raises `KeyError` midway | change nothing unless the move succeeded, and score the actual rosters | not executed | Lifecycle.ReplaceFailedMoveUncovered | Lifecycle.ReplaceFacts |
