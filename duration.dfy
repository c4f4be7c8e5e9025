/** `parse_duration` (bot.py:792-807): the sum of `amount * unit` over every
    `re.findall(r"(\d+)([dhms])", text.lower())` match, with d, h, m worth 86400, 3600 and
    60 seconds and s worth nothing. */
module Duration {

  predicate IsDigit(c: char) { '0' <= c <= '9' }

  /** `str.lower` on the characters that can take part in a match. */
  function LowerChar(c: char): (l: char)
    ensures IsDigit(l) <==> IsDigit(c)
  {
    if 'A' <= c <= 'Z' then (c as int + 32) as char else c
  }

  function Lower(s: string): (l: string)
    ensures |l| == |s|
  {
    seq(|s|, i requires 0 <= i < |s| => LowerChar(s[i]))
  }

  /** Seconds per unit letter; `s` is matched by the pattern but adds nothing. */
  function UnitSeconds(c: char): nat {
    if c == 'd' then 86400 else if c == 'h' then 3600 else if c == 'm' then 60 else 0
  }

  /** `amount` units of `c`, with the multiplications of the source's three branches. */
  function Scaled(amount: nat, c: char): (r: nat)
    ensures UnitSeconds(c) == 0 ==> r == 0
  {
    if c == 'd' then amount * 86400
    else if c == 'h' then amount * 3600
    else if c == 'm' then amount * 60
    else 0
  }

  /** The value of an ASCII digit (other characters never reach it). */
  function DigitValue(c: char): nat {
    if IsDigit(c) then c as int - '0' as int else 0
  }

  /** `int(amount)` for a run of ASCII digits. */
  function DigitsValue(ds: string): nat {
    if ds == [] then 0 else DigitsValue(ds[..|ds| - 1]) * 10 + DigitValue(ds[|ds| - 1])
  }

  /** Start of the maximal digit run that ends just before position `i`. */
  function RunStart(t: string, i: nat): (j: nat)
    requires i <= |t|
    ensures j <= i
  {
    if i > 0 && IsDigit(t[i - 1]) then RunStart(t, i - 1) else i
  }

  /** The amount of the digit run that ends just before position `i`, read left to
      right as the loop of `parse_duration` reads it. */
  function AmountBefore(t: string, i: nat): nat
    requires i <= |t|
  {
    if i > 0 && IsDigit(t[i - 1]) then AmountBefore(t, i - 1) * 10 + DigitValue(t[i - 1]) else 0
  }

  /** That amount is `int(...)` of the maximal digit run before `i`, as `re.findall`
      with the greedy `\d+` captures it. */
  lemma {:induction false} AmountIsRun(t: string, i: nat)
    requires i <= |t|
    ensures AmountBefore(t, i) == DigitsValue(t[RunStart(t, i)..i])
  {
    if i > 0 && IsDigit(t[i - 1]) {
      AmountIsRun(t, i - 1);
      var run := t[RunStart(t, i)..i];
      assert run[..|run| - 1] == t[RunStart(t, i - 1)..i - 1];
    }
  }

  /** What position `i` of the lower-cased text adds: a unit letter directly after a digit
      completes a match whose amount is the whole digit run before it. */
  function Contribution(t: string, i: nat): nat
    requires i < |t|
  {
    if i > 0 && IsDigit(t[i - 1]) then Scaled(AmountBefore(t, i), t[i])
    else 0
  }

  function TotalUpTo(t: string, k: nat): nat
    requires k <= |t|
  {
    if k == 0 then 0 else TotalUpTo(t, k - 1) + Contribution(t, k - 1)
  }

  /** The reference value of `parse_duration(s)`. */
  function DurationSeconds(s: string): nat {
    TotalUpTo(Lower(s), |s|)
  }

  method ParseDuration(durationStr: string) returns (totalSeconds: int)
    ensures totalSeconds == DurationSeconds(durationStr)
    ensures totalSeconds >= 0
  {
    var text := Lower(durationStr);
    totalSeconds := 0;
    var amount := 0;  // value of the digit run that ends at i
    var i := 0;
    while i < |text|
      invariant 0 <= i <= |text|
      invariant amount == AmountBefore(text, i)
      invariant totalSeconds == TotalUpTo(text, i)
    {
      var c := text[i];
      assert TotalUpTo(text, i + 1) == totalSeconds + Contribution(text, i);
      if IsDigit(c) {
        amount := amount * 10 + DigitValue(c);
      } else {
        if i > 0 && IsDigit(text[i - 1]) {
          assert Contribution(text, i) == Scaled(amount, c);
          if c == 'd' {
            totalSeconds := totalSeconds + amount * 86400;
          } else if c == 'h' {
            totalSeconds := totalSeconds + amount * 3600;
          } else if c == 'm' {
            totalSeconds := totalSeconds + amount * 60;
          }
        }
        amount := 0;
      }
      i := i + 1;
    }
  }

  /** A text none of whose letters is d, h or m (in either case) is worth nothing, so
      `/penalty` refuses it; seconds-only durations such as "90s" are among them. */
  lemma NoUnitNoSeconds(s: string)
    requires forall i :: 0 <= i < |s| ==> UnitSeconds(LowerChar(s[i])) == 0
    ensures DurationSeconds(s) == 0
  {
    var t := Lower(s);
    var k := 0;
    while k < |t|
      invariant 0 <= k <= |t| && TotalUpTo(t, k) == 0
    {
      assert UnitSeconds(t[k]) == 0;
      k := k + 1;
    }
  }

  lemma LowerConcat(a: string, b: string)
    ensures Lower(a + " " + b) == Lower(a) + " " + Lower(b)
  {
  }

  /** Tokens separated by a blank are counted independently. */
  lemma DurationConcat(a: string, b: string)
    ensures DurationSeconds(a + " " + b) == DurationSeconds(a) + DurationSeconds(b)
  {
    var ta, tb := Lower(a), Lower(b);
    var t := ta + " " + tb;
    LowerConcat(a, b);
    var n := |ta|;
    assert t[..n] == ta;
    PrefixTotals(t, ta);
    BlankContributesNothing(t, n);
    assert TotalUpTo(t, n + 1) == TotalUpTo(ta, n);
    assert t[n + 1..] == tb;
    SuffixTotals(t, tb, n + 1);
  }

  /** A blank never completes a match. */
  lemma BlankContributesNothing(t: string, i: nat)
    requires i < |t| && t[i] == ' '
    ensures !IsDigit(t[i]) && TotalUpTo(t, i + 1) == TotalUpTo(t, i)
  {
  }

  /** Positions below `|p|` see only the first `|p|` characters. */
  lemma {:induction false} PrefixTotals(t: string, p: string)
    requires |p| <= |t| && p == t[..|p|]
    ensures TotalUpTo(t, |p|) == TotalUpTo(p, |p|)
  {
    var k := 0;
    while k < |p|
      invariant 0 <= k <= |p| && TotalUpTo(t, k) == TotalUpTo(p, k)
    {
      PrefixContribution(t, p, k);
      k := k + 1;
    }
  }

  lemma PrefixContribution(t: string, p: string, k: nat)
    requires k < |p| <= |t| && p == t[..|p|]
    ensures Contribution(t, k) == Contribution(p, k)
  {
    AmountPrefix(t, p, k);
  }

  lemma {:induction false} AmountPrefix(t: string, p: string, k: nat)
    requires k <= |p| <= |t| && p == t[..|p|]
    ensures AmountBefore(t, k) == AmountBefore(p, k)
  {
    if k > 0 && IsDigit(t[k - 1]) { AmountPrefix(t, p, k - 1); }
  }

  /** Past a non-digit at `off - 1`, the text contributes as its suffix does alone. */
  lemma {:induction false} SuffixTotals(t: string, u: string, off: nat)
    requires 0 < off <= |t| && u == t[off..] && !IsDigit(t[off - 1])
    ensures TotalUpTo(t, |t|) == TotalUpTo(t, off) + TotalUpTo(u, |u|)
  {
    var k := 0;
    while k < |u|
      invariant 0 <= k <= |u| && TotalUpTo(t, off + k) == TotalUpTo(t, off) + TotalUpTo(u, k)
    {
      ShiftedContribution(t, u, off, k);
      k := k + 1;
    }
  }

  lemma ShiftedContribution(t: string, u: string, off: nat, k: nat)
    requires 0 < off && off + k < |t| && u == t[off..] && !IsDigit(t[off - 1])
    ensures Contribution(t, off + k) == Contribution(u, k)
  {
    AmountShift(t, u, off, k);
  }

  lemma {:induction false} AmountShift(t: string, u: string, off: nat, k: nat)
    requires 0 < off && off + k <= |t| && u == t[off..] && !IsDigit(t[off - 1])
    ensures AmountBefore(t, off + k) == AmountBefore(u, k)
  {
    if k > 0 && IsDigit(t[off + k - 1]) { AmountShift(t, u, off, k - 1); }
  }

  /** A single `<digits><unit>` token. */
  lemma SingleToken(s: string, ds: string, u: char)
    requires |ds| > 0 && (forall i :: 0 <= i < |ds| ==> IsDigit(ds[i])) && 'a' <= u <= 'z'
    requires s == ds + [u]
    ensures DurationSeconds(s) == Scaled(DigitsValue(ds), u)
  {
    var t := Lower(s);
    assert t == s;
    var k := 0;
    while k < |ds|
      invariant 0 <= k <= |ds| && TotalUpTo(t, k) == 0 && RunStart(t, k) == 0
    {
      k := k + 1;
    }
    AmountIsRun(t, |ds|);
    assert t[0..|ds|] == ds;
  }

  /** The example of the `/penalty` error message. */
  lemma ExampleDuration()
    ensures DurationSeconds("1d 2h 30m") == 95400
  {
    assert "2h 30m" == "2h" + " " + "30m";
    assert "1d 2h 30m" == "1d" + " " + "2h 30m";
    DurationConcat("1d", "2h 30m");
    DurationConcat("2h", "30m");
    OneDigit('1', 'd');
    OneDigit('2', 'h');
    assert "30m" == "30" + ['m'];
    SingleToken("30m", "30", 'm');
    assert DigitsValue("30") == 30 by {
      assert "30"[..1] == "3";
      assert "3"[..0] == "";
    }
  }

  lemma OneDigit(d: char, u: char)
    requires IsDigit(d) && 'a' <= u <= 'z'
    ensures DurationSeconds([d, u]) == Scaled(DigitValue(d), u)
  {
    assert [d, u] == [d] + [u];
    SingleToken([d, u], [d], u);
    assert [d][..0] == [];
  }
}
