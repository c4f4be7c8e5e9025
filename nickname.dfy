/** The rating tag the bot writes in front of a member's display name, and `stripTag`,
    the regular expression `^\[.*?\]\s*(.*)` that removes it again (bot.py:42-55, 99). */
module Nickname {
  import Duration

  /** Characters matched by `\s` in a Python `str` pattern (exactly those for which
      `str.isspace()` holds). */
  predicate IsSpace(c: char) {
    c == ' ' || ('\t' <= c <= '\r') || ('\U{1C}' <= c <= '\U{1F}') || c == '\U{85}'
    || c == '\U{A0}' || c == '\U{1680}' || ('\U{2000}' <= c <= '\U{200A}')
    || c == '\U{2028}' || c == '\U{2029}' || c == '\U{202F}' || c == '\U{205F}'
    || c == '\U{3000}'
  }

  /** `.` does not match a line feed; `.*?` therefore stops at the first `]` and fails at
      the first `\n`. The first index at or after `j` holding either. */
  function TagEnd(t: string, j: nat): (k: nat)
    requires j <= |t|
    ensures j <= k <= |t|
    ensures forall i :: j <= i < k ==> t[i] != ']' && t[i] != '\n'
    ensures k < |t| ==> t[k] == ']' || t[k] == '\n'
    decreases |t| - j
  {
    if j == |t| || t[j] == ']' || t[j] == '\n' then j else TagEnd(t, j + 1)
  }

  /** End of the greedy `\s*` started at `j`. */
  function SpaceEnd(t: string, j: nat): (k: nat)
    requires j <= |t|
    ensures j <= k <= |t|
    ensures forall i :: j <= i < k ==> IsSpace(t[i])
    ensures k < |t| ==> !IsSpace(t[k])
    decreases |t| - j
  {
    if j == |t| || !IsSpace(t[j]) then j else SpaceEnd(t, j + 1)
  }

  /** End of the greedy `(.*)` started at `j`: the next line feed, or the end. */
  function LineEnd(t: string, j: nat): (k: nat)
    requires j <= |t|
    ensures j <= k <= |t|
    ensures forall i :: j <= i < k ==> t[i] != '\n'
    ensures k < |t| ==> t[k] == '\n'
    decreases |t| - j
  {
    if j == |t| || t[j] == '\n' then j else LineEnd(t, j + 1)
  }

  /** Whether `re.match(r'^\[.*?\]\s*(.*)', t)` succeeds. */
  predicate HasTag(t: string) {
    |t| > 0 && t[0] == '[' && TagEnd(t, 1) < |t| && t[TagEnd(t, 1)] == ']'
  }

  function StripTag(t: string): (r: string)
    ensures !HasTag(t) ==> r == t
    ensures HasTag(t) ==> '\n' !in r && (r == [] || !IsSpace(r[0]))
  {
    if HasTag(t) then
      var k := SpaceEnd(t, TagEnd(t, 1) + 1);
      t[k..LineEnd(t, k)]
    else t
  }

  function DigitChar(d: nat): (c: char)
    requires d < 10
    ensures '0' <= c <= '9'
  {
    ['0', '1', '2', '3', '4', '5', '6', '7', '8', '9'][d]
  }

  function NatToString(n: nat): (s: string)
    ensures |s| > 0 && forall i :: 0 <= i < |s| ==> '0' <= s[i] <= '9'
  {
    if n < 10 then [DigitChar(n)] else NatToString(n / 10) + [DigitChar(n % 10)]
  }

  /** The digits written are `str(n)`: read back as a decimal number they give `n`. */
  lemma {:induction false} NatToStringValue(n: nat)
    ensures Duration.DigitsValue(NatToString(n)) == n
  {
    var s := NatToString(n);
    DigitCharValue(n % 10);
    if n >= 10 {
      NatToStringValue(n / 10);
      assert s[..|s| - 1] == NatToString(n / 10);
    }
  }

  lemma DigitCharValue(d: nat)
    requires d < 10
    ensures Duration.DigitValue(DigitChar(d)) == d
  {
    var ds := ['0', '1', '2', '3', '4', '5', '6', '7', '8', '9'];
    assert forall i :: 0 <= i < 10 ==> ds[i] as int == '0' as int + i;
  }

  /** Python's `str(i)` for an integer. */
  function IntToString(i: int): (s: string)
    ensures ']' !in s && '\n' !in s
  {
    var s := if i < 0 then "-" + NatToString(-i) else NatToString(i);
    assert forall c :: c in s ==> c == '-' || '0' <= c <= '9';
    s
  }

  /** The nickname `updateElo` writes: `f"[{elo}] {stripTag(member.display_name)}"`. */
  function NickName(elo: int, displayName: string): string {
    "[" + IntToString(elo) + "] " + StripTag(displayName)
  }

  /** `stripTag` inverts the tag format: prefixing `[tag] ` to a line that does not start
      with white space is undone exactly. */
  lemma StripTagInverts(tag: string, s: string)
    requires ']' !in tag && '\n' !in tag
    requires '\n' !in s && (s == [] || !IsSpace(s[0]))
    ensures StripTag("[" + tag + "] " + s) == s
  {
    var t := "[" + tag + "] " + s;
    var j := |tag| + 1;
    assert t[j] == ']';
    assert forall i :: 1 <= i < j ==> t[i] == tag[i - 1];
    TagEndAt(t, 1, j);
    assert t[j + 1] == ' ';
    assert SpaceEnd(t, j + 1) == SpaceEnd(t, j + 2);
    SpaceEndAt(t, j + 2, j + 2);
    LineEndAt(t, j + 2, |t|);
    assert t[j + 2..] == s;
  }

  lemma {:induction false} TagEndAt(t: string, j: nat, k: nat)
    requires j <= k < |t| && (t[k] == ']' || t[k] == '\n')
    requires forall i :: j <= i < k ==> t[i] != ']' && t[i] != '\n'
    ensures TagEnd(t, j) == k
    decreases k - j
  {
    if j < k { TagEndAt(t, j + 1, k); }
  }

  lemma {:induction false} SpaceEndAt(t: string, j: nat, k: nat)
    requires j <= k <= |t| && (k < |t| ==> !IsSpace(t[k]))
    requires forall i :: j <= i < k ==> IsSpace(t[i])
    ensures SpaceEnd(t, j) == k
    decreases k - j
  {
    if j < k { SpaceEndAt(t, j + 1, k); }
  }

  lemma {:induction false} LineEndAt(t: string, j: nat, k: nat)
    requires j <= k <= |t| && (k < |t| ==> t[k] == '\n')
    requires forall i :: j <= i < k ==> t[i] != '\n'
    ensures LineEnd(t, j) == k
    decreases k - j
  {
    if j < k { LineEndAt(t, j + 1, k); }
  }

  /** Re-tagging is stable: the name under the tag survives every nickname update, so
      repeated updates never stack tags. The condition holds whenever the display name
      already carries a tag. */
  lemma NickNameStable(elo: int, newElo: int, displayName: string)
    requires HasTag(displayName) || ('\n' !in displayName && (displayName == [] || !IsSpace(displayName[0])))
    ensures StripTag(NickName(elo, displayName)) == StripTag(displayName)
    ensures NickName(newElo, NickName(elo, displayName)) == NickName(newElo, displayName)
  {
    StripTagInverts(IntToString(elo), StripTag(displayName));
  }
}
