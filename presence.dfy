/** Queue presence and penalties (bot.py:1241-1298, 1474-1527): when each member joined a
    guild's queue voice channel, and the list of `(start, seconds)` penalties issued to
    each member. Times are whole seconds. */
module Presence {
  import opened Common
  import Duration

  /** `voicePresence`: guild -> member -> time the member joined the queue channel. */
  type VoicePresence = map<GuildId, map<MemberId, int>>

  /** The channel a member was in before and after a voice-state change, by id. */
  datatype VoiceEvent = VoiceEvent(before: Option<nat>, after: Option<nat>)

  /** The member arrives in channel `q` from anywhere else. */
  predicate Joins(ev: VoiceEvent, q: nat) {
    ev.after == Some(q) && ev.before != Some(q)
  }

  /** The member was in channel `q` and no longer is. */
  predicate Leaves(ev: VoiceEvent, q: nat) {
    ev.before == Some(q) && ev.after != Some(q)
  }

  function GuildPresence(p: VoicePresence, g: GuildId): map<MemberId, int> {
    if g in p then p[g] else map[]
  }

  /** The recorded join time of a member, if any. */
  function JoinTime(p: VoicePresence, g: GuildId, m: MemberId): Option<int> {
    if g in p && m in p[g] then Some(p[g][m]) else None
  }

  /** The presence table after `on_voice_state_update`. `queueChannel` is the guild's
      configured queue channel (`None` when the guild is not set up); `blacklisted` says
      the member holds the configured blacklist role and `kickOk` that disconnecting them
      succeeded, which together stop the join from being recorded. The two "switch"
      branches of the handler can never be reached after the first two, so they add
      nothing here. */
  function VoiceUpdate(p: VoicePresence, g: GuildId, m: MemberId, queueChannel: Option<nat>,
                       ev: VoiceEvent, blacklisted: bool, kickOk: bool, now: int): VoicePresence
  {
    if queueChannel.None? then p
    else if Joins(ev, queueChannel.value) then
      if blacklisted && kickOk then p else p[g := GuildPresence(p, g)[m := now]]
    else if Leaves(ev, queueChannel.value) then
      if g in p && m in p[g] then p[g := p[g] - {m}] else p
    else p
  }

  /** A member joining the queue channel who is not disconnected is recorded at `now`; a
      blacklisted member who is disconnected leaves the table as it was. */
  lemma JoinRecords(p: VoicePresence, g: GuildId, m: MemberId, q: nat, ev: VoiceEvent,
                    blacklisted: bool, kickOk: bool, now: int)
    requires Joins(ev, q)
    ensures !(blacklisted && kickOk) ==>
      JoinTime(VoiceUpdate(p, g, m, Some(q), ev, blacklisted, kickOk, now), g, m) == Some(now)
    ensures blacklisted && kickOk ==> VoiceUpdate(p, g, m, Some(q), ev, blacklisted, kickOk, now) == p
  {
  }

  /** A member leaving the queue channel has no recorded join time afterwards. */
  lemma LeaveRemoves(p: VoicePresence, g: GuildId, m: MemberId, q: nat, ev: VoiceEvent,
                     blacklisted: bool, kickOk: bool, now: int)
    requires Leaves(ev, q)
    ensures JoinTime(VoiceUpdate(p, g, m, Some(q), ev, blacklisted, kickOk, now), g, m) == None
  {
  }

  /** Every other member's entry, in every guild, is left alone; and a change that neither
      enters nor leaves the queue channel changes nothing. */
  lemma VoiceOthersUnchanged(p: VoicePresence, g: GuildId, m: MemberId, queueChannel: Option<nat>,
                             ev: VoiceEvent, blacklisted: bool, kickOk: bool, now: int, g2: GuildId, m2: MemberId)
    ensures (g2, m2) != (g, m) ==>
      JoinTime(VoiceUpdate(p, g, m, queueChannel, ev, blacklisted, kickOk, now), g2, m2) == JoinTime(p, g2, m2)
    ensures queueChannel.Some? && !Joins(ev, queueChannel.value) && !Leaves(ev, queueChannel.value) ==>
      VoiceUpdate(p, g, m, queueChannel, ev, blacklisted, kickOk, now) == p
  {
  }

  /** `penaltyData`: guild -> member -> penalties `(start, seconds)`, oldest first. */
  type Penalties = map<GuildId, map<MemberId, seq<(int, int)>>>

  function PenaltiesOf(pd: Penalties, g: GuildId, m: MemberId): seq<(int, int)> {
    if g in pd && m in pd[g] then pd[g][m] else []
  }

  /** `any(now - start < duration for start, duration in ...)`. */
  function HasActivePenalty(ps: seq<(int, int)>, now: int): (active: bool)
    ensures active <==> exists i :: 0 <= i < |ps| && now - ps[i].0 < ps[i].1
  {
    if ps == [] then false
    else if now - ps[0].0 < ps[0].1 then true
    else
      var rest := HasActivePenalty(ps[1..], now);
      assert forall i :: 1 <= i < |ps| ==> ps[1..][i - 1] == ps[i];
      rest
  }

  /** Issuing more penalties never ends an active one. */
  lemma ActiveStaysActive(ps: seq<(int, int)>, more: seq<(int, int)>, now: int)
    requires HasActivePenalty(ps, now)
    ensures HasActivePenalty(ps + more, now)
  {
    var i :| 0 <= i < |ps| && now - ps[i].0 < ps[i].1;
    assert (ps + more)[i] == ps[i];
  }

  /** Why `/penalty` may refuse, its success, and a failing `add_roles`, whose exception
      ends the handler before anything is recorded. */
  datatype PenaltyOutcome = Applied | NoPermission | RoleNotSet | RoleNotFound | AlreadyPenalized | InvalidDuration
                          | RoleAddFailed

  /** What the command knows about the guild and the caller before it acts: whether the
      caller may moderate, whether a blacklist role is configured and still exists, and
      whether the target member holds it; and whether Discord accepts the `add_roles` call
      (it refuses, for instance, a role placed above the bot's own). */
  datatype PenaltyContext = PenaltyContext(canModerate: bool, roleSet: bool, roleExists: bool, holdsRole: bool,
                                           addOk: bool)

  /** The checks of `/penalty`, in their order. */
  function PenaltyVerdict(c: PenaltyContext, duration: string): (o: PenaltyOutcome)
    ensures o == Applied <==>
      c.canModerate && c.roleSet && c.roleExists && !c.holdsRole && Duration.DurationSeconds(duration) > 0 && c.addOk
    ensures o == NoPermission <==> !c.canModerate
    ensures o == RoleAddFailed <==>
      c.canModerate && c.roleSet && c.roleExists && !c.holdsRole && Duration.DurationSeconds(duration) > 0 && !c.addOk
    ensures c.holdsRole && o != Applied ==> o in {NoPermission, RoleNotSet, RoleNotFound, AlreadyPenalized}
  {
    if !c.canModerate then NoPermission
    else if !c.roleSet then RoleNotSet
    else if !c.roleExists then RoleNotFound
    else if c.holdsRole then AlreadyPenalized
    else if Duration.DurationSeconds(duration) <= 0 then InvalidDuration
    else if !c.addOk then RoleAddFailed
    else Applied
  }

  /** The penalty record after `/penalty member duration` at time `now`: the new entry is
      appended only once the role was given. */
  function AfterPenalty(pd: Penalties, g: GuildId, m: MemberId, c: PenaltyContext, duration: string, now: int): Penalties {
    if PenaltyVerdict(c, duration) == Applied then
      var table := if g in pd then pd[g] else map[];
      pd[g := table[m := PenaltiesOf(pd, g, m) + [(now, Duration.DurationSeconds(duration))]]]
    else pd
  }

  /** The record is append-only: every member's list afterwards starts with their list
      before, only the target's list can grow, and by exactly the new penalty. */
  lemma PenaltyAppendOnly(pd: Penalties, g: GuildId, m: MemberId, c: PenaltyContext, duration: string, now: int,
                          g2: GuildId, m2: MemberId)
    ensures var after := PenaltiesOf(AfterPenalty(pd, g, m, c, duration, now), g2, m2);
      && |PenaltiesOf(pd, g2, m2)| <= |after|
      && after[..|PenaltiesOf(pd, g2, m2)|] == PenaltiesOf(pd, g2, m2)
      && ((g2, m2) != (g, m) ==> after == PenaltiesOf(pd, g2, m2))
      && ((g2, m2) == (g, m) && PenaltyVerdict(c, duration) == Applied ==>
            after == PenaltiesOf(pd, g, m) + [(now, Duration.DurationSeconds(duration))])
  {
    var after := PenaltiesOf(AfterPenalty(pd, g, m, c, duration, now), g2, m2);
    if (g2, m2) == (g, m) && PenaltyVerdict(c, duration) == Applied {
      assert after[..|PenaltiesOf(pd, g2, m2)|] == PenaltiesOf(pd, g2, m2);
    }
  }

  /** A member who already holds the blacklist role is not penalized again. */
  lemma PenaltyRefusesHolder(pd: Penalties, g: GuildId, m: MemberId, c: PenaltyContext, duration: string, now: int)
    requires c.holdsRole
    ensures AfterPenalty(pd, g, m, c, duration, now) == pd
  {
  }

  /** A penalty that was applied is active at the moment it was issued. */
  lemma PenaltyActiveNow(pd: Penalties, g: GuildId, m: MemberId, c: PenaltyContext, duration: string, now: int)
    requires PenaltyVerdict(c, duration) == Applied
    ensures HasActivePenalty(PenaltiesOf(AfterPenalty(pd, g, m, c, duration, now), g, m), now)
  {
    var ps := PenaltiesOf(AfterPenalty(pd, g, m, c, duration, now), g, m);
    assert ps[|ps| - 1] == (now, Duration.DurationSeconds(duration));
  }
}
