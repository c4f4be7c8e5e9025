/** Who plays when a host starts a match (bot.py:371-406, 1057-1069): the queue channel's
    members without bots, ordered by the time they joined the queue (members with no
    recorded time last, the sort being stable), the host moved to the front, and the
    first `2 * matchType` of them taken. */
module Queue {
  import opened Common
  import Duration

  /** When a member joined the queue channel: `voiceData.get(m.id, float('inf'))`, with
      `None` for infinity. */
  function JoinKey(presence: map<MemberId, int>, m: MemberId): Option<int> {
    if m in presence then Some(presence[m]) else None
  }

  /** The order of `float` keys with infinity on top. */
  predicate KeyLe(a: Option<int>, b: Option<int>) {
    b.None? || (a.Some? && a.value <= b.value)
  }

  /** Insertion of `x` before the first element whose key is not smaller. */
  function InsertByJoin(presence: map<MemberId, int>, x: MemberId, s: seq<MemberId>): (r: seq<MemberId>)
    ensures multiset(r) == multiset(s) + multiset{x}
  {
    if s == [] || KeyLe(JoinKey(presence, x), JoinKey(presence, s[0])) then [x] + s
    else
      assert s == [s[0]] + s[1..];
      [s[0]] + InsertByJoin(presence, x, s[1..])
  }

  /** `list.sort(key=...)`: a stable sort by join time; a permutation of its input. */
  function SortByJoin(presence: map<MemberId, int>, s: seq<MemberId>): (r: seq<MemberId>)
    ensures multiset(r) == multiset(s)
  {
    if s == [] then [] else
      assert s == [s[0]] + s[1..];
      InsertByJoin(presence, s[0], SortByJoin(presence, s[1..]))
  }

  predicate SortedByJoin(presence: map<MemberId, int>, s: seq<MemberId>) {
    forall i, j :: 0 <= i < j < |s| ==> KeyLe(JoinKey(presence, s[i]), JoinKey(presence, s[j]))
  }

  /** The members of `s` whose key is `k`, in order. */
  function WithKey(presence: map<MemberId, int>, s: seq<MemberId>, k: Option<int>): seq<MemberId> {
    if s == [] then []
    else if JoinKey(presence, s[0]) == k then [s[0]] + WithKey(presence, s[1..], k)
    else WithKey(presence, s[1..], k)
  }

  lemma SortedCons(presence: map<MemberId, int>, a: MemberId, t: seq<MemberId>)
    requires SortedByJoin(presence, t)
    requires forall j :: 0 <= j < |t| ==> KeyLe(JoinKey(presence, a), JoinKey(presence, t[j]))
    ensures SortedByJoin(presence, [a] + t)
  {
    var r := [a] + t;
    forall i, j | 0 <= i < j < |r| ensures KeyLe(JoinKey(presence, r[i]), JoinKey(presence, r[j])) {
      assert r[j] == t[j - 1];
      if i > 0 { assert r[i] == t[i - 1]; }
    }
  }

  /** Insertion into a sorted sequence keeps it sorted. */
  lemma {:induction false} InsertSorted(presence: map<MemberId, int>, x: MemberId, s: seq<MemberId>)
    requires SortedByJoin(presence, s)
    ensures SortedByJoin(presence, InsertByJoin(presence, x, s))
  {
    if s == [] || KeyLe(JoinKey(presence, x), JoinKey(presence, s[0])) {
      forall j | 0 <= j < |s| ensures KeyLe(JoinKey(presence, x), JoinKey(presence, s[j])) {
        if j > 0 { assert KeyLe(JoinKey(presence, s[0]), JoinKey(presence, s[j])); }
      }
      SortedCons(presence, x, s);
    } else {
      var t := InsertByJoin(presence, x, s[1..]);
      InsertSorted(presence, x, s[1..]);
      assert s == [s[0]] + s[1..];
      forall j | 0 <= j < |t| ensures KeyLe(JoinKey(presence, s[0]), JoinKey(presence, t[j])) {
        assert t[j] in multiset(t);
        if t[j] != x {
          assert t[j] in multiset(s[1..]);
          var j' :| 0 <= j' < |s[1..]| && s[1..][j'] == t[j];
          assert s[j' + 1] == t[j];
        }
      }
      SortedCons(presence, s[0], t);
    }
  }

  /** Insertion puts `x` first among the members sharing its key and moves no one else. */
  lemma {:induction false} InsertStable(presence: map<MemberId, int>, x: MemberId, s: seq<MemberId>, k: Option<int>)
    ensures WithKey(presence, InsertByJoin(presence, x, s), k) ==
      (if JoinKey(presence, x) == k then [x] + WithKey(presence, s, k) else WithKey(presence, s, k))
  {
    var r := InsertByJoin(presence, x, s);
    if s == [] || KeyLe(JoinKey(presence, x), JoinKey(presence, s[0])) {
      assert r == [x] + s && r[1..] == s;
    } else {
      InsertStable(presence, x, s[1..], k);
      assert r[1..] == InsertByJoin(presence, x, s[1..]);
    }
  }

  /** The sort is a permutation, sorted by join time, and stable: the members sharing a
      join time keep their order. */
  lemma {:induction false} SortFacts(presence: map<MemberId, int>, s: seq<MemberId>)
    ensures SortedByJoin(presence, SortByJoin(presence, s))
    ensures forall k :: WithKey(presence, SortByJoin(presence, s), k) == WithKey(presence, s, k)
  {
    if s != [] {
      var t := SortByJoin(presence, s[1..]);
      SortFacts(presence, s[1..]);
      InsertSorted(presence, s[0], t);
      forall k ensures WithKey(presence, SortByJoin(presence, s), k) == WithKey(presence, s, k) {
        InsertStable(presence, s[0], t, k);
      }
    }
  }

  /** The queue in join order with the host taken out. */
  function Others(presence: map<MemberId, int>, queue: seq<MemberId>, host: MemberId): (r: seq<MemberId>)
    requires host in queue
    ensures multiset(r) == multiset(queue) - multiset{host}
  {
    assert host in multiset(SortByJoin(presence, queue));
    RemoveFirst(SortByJoin(presence, queue), host)
  }

  /** Over a queue listing each member once, the host is not among the others, who are
      listed once each. */
  lemma OthersDistinct(presence: map<MemberId, int>, queue: seq<MemberId>, host: MemberId)
    requires host in queue && Distinct(queue)
    ensures Distinct([host] + Others(presence, queue, host))
  {
    var sorted := SortByJoin(presence, queue);
    DistinctPermutation(queue, sorted);
    assert host in multiset(sorted);
    RemoveFirstDistinct(sorted, host);
    DistinctCons(host, Others(presence, queue, host));
  }

  /** `queueMembers[:matchType*2]` after the host was moved to the front. */
  function Selection(presence: map<MemberId, int>, queue: seq<MemberId>, host: MemberId, matchType: nat): (sel: seq<MemberId>)
    requires host in queue && 2 * matchType <= |queue|
    ensures |sel| == 2 * matchType
    ensures Distinct(queue) ==> Distinct(sel)
  {
    var all := [host] + Others(presence, queue, host);
    if Distinct(queue) then
      OthersDistinct(presence, queue, host);
      DistinctSubseq(all, 0, 2 * matchType);
      assert all[0..2 * matchType] == all[..2 * matchType];
      all[..2 * matchType]
    else all[..2 * matchType]
  }

  lemma OthersSorted(presence: map<MemberId, int>, queue: seq<MemberId>, host: MemberId)
    requires host in queue
    ensures SortedByJoin(presence, Others(presence, queue, host))
  {
    SortFacts(presence, queue);
    assert host in multiset(SortByJoin(presence, queue));
    RemoveFirstSorted(presence, SortByJoin(presence, queue), host);
  }

  /** The host leads, and every player selected is in the queue. */
  lemma SelectionMembers(presence: map<MemberId, int>, queue: seq<MemberId>, host: MemberId, matchType: nat)
    requires host in queue && 1 <= matchType && 2 * matchType <= |queue|
    ensures var sel := Selection(presence, queue, host, matchType);
      sel[0] == host && forall x :: x in sel ==> x in queue
  {
    var rest := Others(presence, queue, host);
    var sel := Selection(presence, queue, host, matchType);
    forall x | x in sel ensures x in queue {
      if x != host {
        assert x in rest;
        assert x in multiset(rest);
      }
    }
  }

  /** The players after the host are in ascending join time (members with no recorded
      time therefore last). */
  lemma SelectionOrder(presence: map<MemberId, int>, queue: seq<MemberId>, host: MemberId, matchType: nat)
    requires host in queue && 1 <= matchType && 2 * matchType <= |queue|
    ensures SortedByJoin(presence, Selection(presence, queue, host, matchType)[1..])
  {
    OthersSorted(presence, queue, host);
    HeadThenSorted(presence, host, Others(presence, queue, host), 2 * matchType);
  }

  lemma HeadThenSorted(presence: map<MemberId, int>, host: MemberId, rest: seq<MemberId>, len: nat)
    requires SortedByJoin(presence, rest) && 1 <= len <= |rest| + 1
    ensures SortedByJoin(presence, ([host] + rest)[..len][1..])
  {
    assert ([host] + rest)[..len][1..] == rest[..len - 1];
  }

  lemma HeadThenEarliest(presence: map<MemberId, int>, host: MemberId, rest: seq<MemberId>, len: nat, x: MemberId)
    requires SortedByJoin(presence, rest) && 1 <= len <= |rest| + 1
    requires x in rest && x !in ([host] + rest)[..len]
    ensures forall i :: 1 <= i < len ==> KeyLe(JoinKey(presence, ([host] + rest)[..len][i]), JoinKey(presence, x))
  {
    var sel := ([host] + rest)[..len];
    var p :| 0 <= p < |rest| && rest[p] == x;
    assert forall q :: 0 <= q < len - 1 ==> sel[q + 1] == rest[q];
    assert p >= len - 1;
    forall i | 1 <= i < len ensures KeyLe(JoinKey(presence, sel[i]), JoinKey(presence, x)) {
      assert sel[i] == rest[i - 1];
    }
  }

  lemma {:induction false} RemoveFirstSorted(presence: map<MemberId, int>, s: seq<MemberId>, x: MemberId)
    requires x in s && SortedByJoin(presence, s)
    ensures SortedByJoin(presence, RemoveFirst(s, x))
  {
    if s[0] != x {
      RemoveFirstSorted(presence, s[1..], x);
      var r := RemoveFirst(s[1..], x);
      assert RemoveFirst(s, x) == [s[0]] + r;
      forall j | 0 <= j < |r| ensures KeyLe(JoinKey(presence, s[0]), JoinKey(presence, r[j])) {
        assert r[j] in s[1..];
      }
      SortedCons(presence, s[0], r);
    }
  }

  /** The selected members besides the host are the earliest joiners: nobody left out
      joined before any of them. */
  lemma SelectionEarliest(presence: map<MemberId, int>, queue: seq<MemberId>, host: MemberId, matchType: nat, x: MemberId)
    requires host in queue && 2 * matchType <= |queue|
    requires x in queue && x !in Selection(presence, queue, host, matchType)
    ensures forall i :: 1 <= i < 2 * matchType ==>
      KeyLe(JoinKey(presence, Selection(presence, queue, host, matchType)[i]), JoinKey(presence, x))
  {
    if matchType > 0 {
      var rest := Others(presence, queue, host);
      assert x != host by { assert Selection(presence, queue, host, matchType)[0] == host; }
      assert x in multiset(rest) by { assert x in multiset(queue); }
      OthersSorted(presence, queue, host);
      HeadThenEarliest(presence, host, rest, 2 * matchType, x);
    }
  }

  /** The bot filter `for member in queueMembers: if member.bot: queueMembers.pop(member)`
      as written: `list.pop` takes an index, so the first bot raises `TypeError` and the
      start is abandoned (`None`). Without bots the list is left as it is. */
  function BotFilterAsWritten(queue: seq<MemberId>, bots: set<MemberId>): Option<seq<MemberId>> {
    if exists i :: 0 <= i < |queue| && queue[i] in bots then None else Some(queue)
  }

  /** A queue holding a single bot can never start a match. */
  lemma BotInQueueAborts()
    ensures BotFilterAsWritten([1, 2], {2}) == None
  {
    assert [1, 2][1] in {2};
  }

  /** The evidently intended filter: the human members, in order. */
  function Humans(queue: seq<MemberId>, bots: set<MemberId>): (r: seq<MemberId>)
    ensures forall x :: x in r <==> x in queue && x !in bots
    ensures Distinct(queue) ==> Distinct(r)
  {
    FilterIn(queue, Elems(queue) - bots)
  }

  /** The bot-removal loop, corrected to skip bots instead of popping them. */
  method DropBots(queue: seq<MemberId>, bots: set<MemberId>) returns (queueMembers: seq<MemberId>)
    ensures queueMembers == Humans(queue, bots)
  {
    queueMembers := [];
    for i := 0 to |queue|
      invariant queueMembers == FilterIn(queue[..i], Elems(queue) - bots)
    {
      FilterInSnoc(queue[..i], queue[i], Elems(queue) - bots);
      assert queue[..i + 1] == queue[..i] + [queue[i]];
      if queue[i] !in bots {
        queueMembers := queueMembers + [queue[i]];
      }
    }
    assert queue[..|queue|] == queue;
  }

  /** Without bots the two agree. */
  lemma HumansWithoutBots(queue: seq<MemberId>, bots: set<MemberId>)
    requires forall i :: 0 <= i < |queue| ==> queue[i] !in bots
    ensures BotFilterAsWritten(queue, bots) == Some(Humans(queue, bots))
  {
    FilterAll(queue, Elems(queue) - bots);
  }

  lemma {:induction false} FilterAll(s: seq<MemberId>, keep: set<MemberId>)
    requires forall i :: 0 <= i < |s| ==> s[i] in keep
    ensures FilterIn(s, keep) == s
  {
    if s != [] {
      FilterAll(s[1..], keep);
    }
  }

  /** `StartMatchModal.on_submit`: "1v1", "3v3", "4v4" or "5v5" in any case; the size is
      the first digit. */
  function ParseMatchType(text: string): (k: Option<nat>)
    ensures k.Some? ==> k.value in {1, 3, 4, 5}
  {
    var t := Duration.Lower(text);
    if t == "1v1" then Some(1)
    else if t == "3v3" then Some(3)
    else if t == "4v4" then Some(4)
    else if t == "5v5" then Some(5)
    else None
  }

  /** Two-a-side is refused, and upper case is accepted. */
  lemma ParseMatchTypeExamples()
    ensures ParseMatchType("2v2") == None
    ensures ParseMatchType("5V5") == Some(5)
  {
    assert Duration.Lower("5V5") == "5v5";
    assert Duration.Lower("2v2") == "2v2";
  }
}
