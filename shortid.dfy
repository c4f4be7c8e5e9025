/** `generateShortId` (helper.py:25-33): draw `length` characters of `[a-zA-Z0-9]` until
    the id is not a key of the live registry. Each draw of `secrets.choice` is an input
    here: the indices into the alphabet it picked, one sequence per attempt. */
module ShortId {
  import opened Common

  /** `string.ascii_letters + string.digits` has 62 characters. */
  const AlphabetSize: nat := 62

  /** The `k`-th character of `string.ascii_letters + string.digits`: a-z, then A-Z,
      then 0-9. */
  function AlphabetChar(k: nat): (c: char)
    requires k < AlphabetSize
    ensures IsAlnum(c)
  {
    if k < 26 then ('a' as int + k) as char
    else if k < 52 then ('A' as int + k - 26) as char
    else ('0' as int + k - 52) as char
  }

  /** The default of the `length` parameter. */
  const DefaultLength: nat := 6

  predicate IsAlnum(c: char) {
    'a' <= c <= 'z' || 'A' <= c <= 'Z' || '0' <= c <= '9'
  }

  /** What `secrets.choice(alphabet)` can return: indices into the alphabet. */
  predicate ValidPicks(picks: seq<nat>) {
    forall j :: 0 <= j < |picks| ==> picks[j] < AlphabetSize
  }

  /** One attempt: `length` picks. */
  predicate ValidDraw(picks: seq<nat>, length: nat) {
    |picks| == length && ValidPicks(picks)
  }

  /** `''.join(...)` of one attempt. */
  function Spell(picks: seq<nat>): (id: string)
    requires ValidPicks(picks)
    ensures |id| == |picks| && forall j :: 0 <= j < |id| ==> IsAlnum(id[j])
  {
    if picks == [] then [] else [AlphabetChar(picks[0])] + Spell(picks[1..])
  }

  /** The id the retry loop returns: the first attempt not already in use; `None` when
      every supplied attempt collided, i.e. the loop would still be drawing. */
  function FreshId(current: set<string>, draws: seq<seq<nat>>, length: nat): (r: Option<string>)
    requires forall i :: 0 <= i < |draws| ==> ValidDraw(draws[i], length)
    ensures r.Some? ==>
      r.value !in current && |r.value| == length && forall j :: 0 <= j < |r.value| ==> IsAlnum(r.value[j])
    ensures r.Some? <==> exists i :: 0 <= i < |draws| && ValidDraw(draws[i], length) && Spell(draws[i]) !in current
    ensures r.Some? ==>
      exists i :: 0 <= i < |draws| && ValidDraw(draws[i], length) && Spell(draws[i]) == r.value &&
        forall j :: 0 <= j < i && ValidDraw(draws[j], length) ==> Spell(draws[j]) in current
  {
    if draws == [] then None
    else
      assert ValidDraw(draws[0], length);
      if Spell(draws[0]) !in current then Some(Spell(draws[0]))
    else
      var r := FreshId(current, draws[1..], length);
      assert forall i :: 1 <= i < |draws| ==> draws[1..][i - 1] == draws[i];
      r
  }

  method GenerateShortId(currentUuids: set<string>, length: nat, draws: seq<seq<nat>>)
    returns (newId: Option<string>)
    requires forall i :: 0 <= i < |draws| ==> ValidDraw(draws[i], length)
    ensures newId == FreshId(currentUuids, draws, length)
  {
    var i := 0;
    while i < |draws|
      invariant 0 <= i <= |draws|
      invariant FreshId(currentUuids, draws, length) == FreshId(currentUuids, draws[i..], length)
    {
      assert ValidDraw(draws[i], length);
      var candidate := Spell(draws[i]);
      assert draws[i..][0] == draws[i] && draws[i..][1..] == draws[i + 1..];
      if candidate !in currentUuids {
        return Some(candidate);
      }
      i := i + 1;
    }
    return None;
  }
}
