/**
 The duration parser of pkg/util/parse_duration.go: seven optional groups of a numeral and a
 unit, in fixed order, matched by a backtracking regular expression, then summed in wrapping
 64-bit nanoseconds.
 */
module Duration {
  import opened Common
  import opened Digits

  const MILLISECOND := 1000000
  const MAX_INT64 := 0x7FFF_FFFF_FFFF_FFFF

  function Unit(i: nat): (u: string)
    requires i < 7
    ensures |u| > 0 && !IsDigit(u[0])
  {
    match i
    case 0 => "y"
    case 1 => "w"
    case 2 => "d"
    case 3 => "h"
    case 4 => "m"
    case 5 => "s"
    case _ => "ms"
  }

  /** Milliseconds of each unit. */
  function Mult(i: nat): (m: int)
    requires i < 7
    ensures m >= 1
  {
    match i
    case 0 => 1000 * 60 * 60 * 24 * 365
    case 1 => 1000 * 60 * 60 * 24 * 7
    case 2 => 1000 * 60 * 60 * 24
    case 3 => 1000 * 60 * 60
    case 4 => 1000 * 60
    case 5 => 1000
    case _ => 1
  }

  predicate IsNumeral(s: string) {
    s != [] && AllDigits(s)
  }

  // ----- the grammar -----

  /** The numerals of the groups from unit `i` on; absent groups are `None`. */
  type Groups = seq<Option<string>>

  ghost predicate WellFormed(d: Groups, i: nat) {
    && i <= 7 && |d| == 7 - i
    && forall j :: 0 <= j < |d| && d[j].Some? ==> IsNumeral(d[j].value)
  }

  function PrintGroup(g: Option<string>, i: nat): string
    requires i < 7
  {
    match g case None => [] case Some(num) => num + Unit(i)
  }

  function Print(d: Groups, i: nat): string
    requires i <= 7 && |d| == 7 - i
    decreases |d|
  {
    if i == 7 then [] else PrintGroup(d[0], i) + Print(d[1..], i + 1)
  }

  /** `d` reads `s` as a duration. */
  ghost predicate Decomposes(s: string, d: Groups) {
    WellFormed(d, 0) && Print(d, 0) == s
  }

  // ----- the matcher -----

  /** Length of the longest prefix of digits. */
  function DigitRun(s: string): (k: nat)
    ensures k <= |s| && (forall i :: 0 <= i < k ==> IsDigit(s[i])) && (k < |s| ==> !IsDigit(s[k]))
  {
    if s != [] && IsDigit(s[0]) then 1 + DigitRun(s[1..]) else 0
  }

  /** The text behind group `i`, if the text starts with one. */
  function Behind(s: string, i: nat): Option<string>
    requires i < 7
  {
    var k := DigitRun(s);
    if k > 0 && Unit(i) <= s[k..] then Some(s[k + |Unit(i)|..]) else None
  }

  /** Leftmost-first matching of the groups from unit `i` on: try the group, and if the rest then
      fails, backtrack and go without it. */
  function Match(s: string, i: nat): (r: Option<Groups>)
    requires i <= 7
    ensures r.Some? ==> |r.value| == 7 - i
    decreases 7 - i
  {
    if i == 7 then (if s == [] then Some([]) else None)
    else if Behind(s, i).Some? && Match(Behind(s, i).value, i + 1).Some? then
      Some([Some(s[..DigitRun(s)])] + Match(Behind(s, i).value, i + 1).value)
    else
      match Match(s, i + 1)
      case Some(rest) => Some([None] + rest)
      case None => None
  }

  lemma {:induction false} BehindGroup(s: string, i: nat)
    requires i < 7 && Behind(s, i).Some?
    ensures IsNumeral(s[..DigitRun(s)]) && s == s[..DigitRun(s)] + Unit(i) + Behind(s, i).value
  {
    var k := DigitRun(s);
    assert s == s[..k] + s[k..];
    assert s[k..] == Unit(i) + s[k..][|Unit(i)|..];
    assert s[k..][|Unit(i)|..] == s[k + |Unit(i)|..];
  }

  lemma PrintCons(g: Option<string>, rest: Groups, i: nat)
    requires i < 7 && WellFormed(rest, i + 1) && (g.Some? ==> IsNumeral(g.value))
    ensures WellFormed([g] + rest, i)
    ensures Print([g] + rest, i) == PrintGroup(g, i) + Print(rest, i + 1)
  {
    assert ([g] + rest)[1..] == rest;
  }

  lemma {:induction false} MatchSound(s: string, i: nat, d: Groups)
    requires i <= 7 && Match(s, i) == Some(d)
    ensures WellFormed(d, i) && Print(d, i) == s
    decreases 7 - i
  {
    if i < 7 {
      if Behind(s, i).Some? && Match(Behind(s, i).value, i + 1).Some? {
        var num, rest := s[..DigitRun(s)], Match(Behind(s, i).value, i + 1).value;
        assert d == [Some(num)] + rest;
        MatchSound(Behind(s, i).value, i + 1, rest);
        BehindGroup(s, i);
        PrintCons(Some(num), rest, i);
      } else {
        var rest := Match(s, i + 1).value;
        assert d == [None] + rest;
        MatchSound(s, i + 1, rest);
        PrintCons(None, rest, i);
      }
    }
  }

  lemma PrintSplit(d: Groups, i: nat)
    requires WellFormed(d, i) && i < 7
    ensures d == [d[0]] + d[1..] && WellFormed(d[1..], i + 1) && (d[0].Some? ==> IsNumeral(d[0].value))
    ensures Print(d, i) == PrintGroup(d[0], i) + Print(d[1..], i + 1)
  {
  }

  /** What is printed is empty or starts with its first present group. */
  lemma {:induction false} FirstGroup(d: Groups, i: nat) returns (j: nat, num: string, rest: string)
    requires WellFormed(d, i) && Print(d, i) != []
    ensures i <= j < 7 && IsNumeral(num) && Print(d, i) == num + Unit(j) + rest
    decreases |d|
  {
    PrintSplit(d, i);
    if d[0].Some? {
      j, num, rest := i, d[0].value, Print(d[1..], i + 1);
    } else {
      j, num, rest := FirstGroup(d[1..], i + 1);
    }
  }

  lemma PrintStartsWithDigit(d: Groups, i: nat)
    requires WellFormed(d, i) && Print(d, i) != []
    ensures IsDigit(Print(d, i)[0])
  {
    var j, num, rest := FirstGroup(d, i);
    assert Print(d, i)[0] == num[0];
  }

  lemma RunOfNumeral(num: string, i: nat, rest: string)
    requires IsNumeral(num) && i < 7
    ensures var s := num + Unit(i) + rest;
      DigitRun(s) == |num| && s[..|num|] == num && s[|num|..] == Unit(i) + rest
  {
    var s := num + Unit(i) + rest;
    assert s[|num|] == Unit(i)[0];
    assert forall k :: 0 <= k < |num| ==> s[k] == num[k];
    assert s[|num|..] == Unit(i) + rest;
  }

  lemma BehindNumeral(num: string, i: nat, rest: string)
    requires IsNumeral(num) && i < 7
    ensures Behind(num + Unit(i) + rest, i) == Some(rest)
  {
    RunOfNumeral(num, i, rest);
    var s := num + Unit(i) + rest;
    assert Unit(i) <= s[|num|..];
    assert s[|num| + |Unit(i)|..] == rest;
  }

  /** Two units can start the same text only if they are equal, or `m` before an `s`. */
  lemma UnitClash(i: nat, j: nat, t: string, rest: string)
    requires i < j < 7 && Unit(i) + t == Unit(j) + rest
    ensures t != [] && t[0] == 's'
  {
    assert (Unit(i) + t)[0] == Unit(i)[0] && (Unit(j) + rest)[0] == Unit(j)[0];
    assert i == 4 && j == 6;
    assert (Unit(j) + rest)[1] == 's' && (Unit(i) + t)[1] == t[0];
  }

  /** A text printed without group `i` cannot be matched with it: the m/ms overlap included. */
  lemma NoSpuriousGroup(d: Groups, i: nat)
    requires i < 7 && WellFormed(d, i + 1)
    ensures var b := Behind(Print(d, i + 1), i); b.Some? ==> Match(b.value, i + 1).None?
  {
    var s := Print(d, i + 1);
    if Behind(s, i).Some? {
      var t := Behind(s, i).value;
      BehindGroup(s, i);
      var j, num, rest := FirstGroup(d, i + 1);
      RunOfNumeral(num, j, rest);
      RunOfNumeral(s[..DigitRun(s)], i, t);
      UnitClash(i, j, t, rest);
      if Match(t, i + 1).Some? {
        MatchSound(t, i + 1, Match(t, i + 1).value);
        PrintStartsWithDigit(Match(t, i + 1).value, i + 1);
        assert false;
      }
    }
  }

  lemma MatchTakes(num: string, i: nat, rest: string, d: Groups)
    requires i < 7 && IsNumeral(num) && |d| == 6 - i && Match(rest, i + 1) == Some(d)
    ensures Match(num + Unit(i) + rest, i) == Some([Some(num)] + d)
  {
    BehindNumeral(num, i, rest);
    RunOfNumeral(num, i, rest);
  }

  lemma MatchSkips(s: string, i: nat, d: Groups)
    requires i < 7 && |d| == 6 - i && Match(s, i + 1) == Some(d)
    requires Behind(s, i).Some? ==> Match(Behind(s, i).value, i + 1).None?
    ensures Match(s, i) == Some([None] + d)
  {
  }

  /** One group more: what `d` matches behind group `i`, `[g] + d` matches with it. */
  lemma MatchCons(g: Option<string>, d: Groups, i: nat, s: string)
    requires i < 7 && WellFormed(d, i + 1) && (g.Some? ==> IsNumeral(g.value))
    requires Match(Print(d, i + 1), i + 1) == Some(d) && s == PrintGroup(g, i) + Print(d, i + 1)
    ensures Match(s, i) == Some([g] + d)
  {
    match g
    case Some(num) =>
      MatchTakes(num, i, Print(d, i + 1), d);
    case None =>
      NoSpuriousGroup(d, i);
      assert s == Print(d, i + 1);
      MatchSkips(s, i, d);
  }

  lemma {:induction false} MatchComplete(d: Groups, i: nat, s: string)
    requires WellFormed(d, i) && s == Print(d, i)
    ensures Match(s, i) == Some(d)
    decreases |d|
  {
    if i == 7 {
      MatchNothing(s, d);
    } else {
      var rest := d[1..];
      PrintSplit(d, i);
      MatchComplete(rest, i + 1, Print(rest, i + 1));
      MatchCons(d[0], rest, i, s);
    }
  }

  lemma MatchNothing(s: string, d: Groups)
    requires s == [] && d == []
    ensures Match(s, 7) == Some(d)
  {
  }

  /** The matcher decides the grammar: it finds a decomposition exactly of the texts that have
      one, and it is the only one. */
  lemma MatchExactly(s: string)
    ensures forall d :: Decomposes(s, d) <==> Match(s, 0) == Some(d)
  {
    forall d ensures Decomposes(s, d) <==> Match(s, 0) == Some(d) {
      if Decomposes(s, d) {
        MatchComplete(d, 0, s);
      }
      if Match(s, 0) == Some(d) {
        MatchSound(s, 0, d);
      }
    }
  }

  /** No text has two readings. */
  lemma UniqueDecomposition(s: string, d: Groups, e: Groups)
    requires Decomposes(s, d) && Decomposes(s, e)
    ensures d == e
  {
    MatchExactly(s);
  }

  // ----- the arithmetic -----

  /** Two's-complement reduction to 64 bits. */
  function Wrap64(x: int): (w: int)
    ensures -MAX_INT64 - 1 <= w <= MAX_INT64
  {
    (x + 0x8000_0000_0000_0000) % 0x1_0000_0000_0000_0000 - 0x8000_0000_0000_0000
  }

  /** `strconv.Atoi` with its range error ignored: it saturates. */
  function Atoi(s: string): int
    requires IsNumeral(s)
  {
    if Value(s) <= MAX_INT64 then Value(s) else MAX_INT64
  }

  /** Nanoseconds of one group, unbounded. */
  function GroupNs(g: Option<string>, mult: int, saturate: bool): int
    requires g.Some? ==> IsNumeral(g.value)
  {
    match g
    case None => 0
    case Some(num) => (if saturate then Atoi(num) else Value(num)) * MILLISECOND * mult
  }

  ghost function SumNs(d: Groups, i: nat, saturate: bool): int
    requires WellFormed(d, i)
    decreases |d|
  {
    if i == 7 then 0 else GroupNs(d[0], Mult(i), saturate) + SumNs(d[1..], i + 1, saturate)
  }

  /** The duration a decomposition denotes. */
  ghost function TrueNs(d: Groups): int
    requires WellFormed(d, 0)
  {
    SumNs(d, 0, false)
  }

  lemma WrapAgain(x: int, k: int)
    ensures Wrap64(x + k * 0x1_0000_0000_0000_0000) == Wrap64(x)
  {
  }

  lemma WrapAdd(a: int, b: int)
    ensures Wrap64(a + Wrap64(b)) == Wrap64(a + b)
    ensures Wrap64(Wrap64(a) + b) == Wrap64(a + b)
  {
    var M := 0x1_0000_0000_0000_0000;
    var k, l := (Wrap64(b) - b) / M, (Wrap64(a) - a) / M;
    assert Wrap64(b) == b + k * M && Wrap64(a) == a + l * M;
    WrapAgain(a + b, k);
    WrapAgain(a + b, l);
  }

  lemma WrapMul(a: int, m: int)
    ensures Wrap64(Wrap64(a) * m) == Wrap64(a * m)
  {
    var M := 0x1_0000_0000_0000_0000;
    var k := (Wrap64(a) - a) / M;
    assert Wrap64(a) == a + k * M;
    assert (a + k * M) * m == a * m + (k * m) * M;
    WrapAgain(a * m, k * m);
  }

  /** The closure that adds one group to the accumulator; each of its three operations wraps. */
  method AddGroup(g: Option<string>, mult: int, dur: int) returns (dur': int)
    requires (g.Some? ==> IsNumeral(g.value)) && Wrap64(dur) == dur
    ensures dur' == Wrap64(dur + GroupNs(g, mult, true))
  {
    if g.None? {
      return dur;
    }
    var n := Atoi(g.value);
    var d := Wrap64(n * MILLISECOND);
    dur' := Wrap64(dur + Wrap64(d * mult));
    WrapMul(n * MILLISECOND, mult);
    WrapAdd(dur, d * mult);
    WrapAdd(dur, n * MILLISECOND * mult);
  }

  /** The seven calls of the closure, in order. */
  method SumGroups(d: Groups) returns (dur: int)
    requires WellFormed(d, 0)
    ensures dur == Wrap64(SumNs(d, 0, true))
  {
    dur := 0;
    for i := 0 to 7
      invariant dur == Wrap64(SumNs(d, 0, true) - SumNs(d[i..], i, true))
    {
      ghost var before := SumNs(d, 0, true) - SumNs(d[i..], i, true);
      assert d[i..][1..] == d[i + 1..];
      WrapAdd(before, GroupNs(d[i], Mult(i), true));
      WrapAdd(before, 0);
      dur := AddGroup(d[i], Mult(i), dur);
    }
  }

  /** What the parser returns, as a function of the text. */
  ghost function Parsed(s: string): Result<int> {
    if s == "0" then Ok(0)
    else if s == "" then Err("empty duration string")
    else
      match Match(s, 0)
      case None => Err("not a valid duration string")
      case Some(d) =>
        MatchSound(s, 0, d);
        Ok(Wrap64(SumNs(d, 0, true)))
  }

  /** Accepted are "0" and every non-empty text of the grammar; the result is the sum of its only
      reading, reduced to 64 bits. */
  method ParseDuration(s: string) returns (r: Result<int>)
    ensures r == Parsed(s)
    ensures s == "0" ==> r == Ok(0)
    ensures s != "0" ==> (r.Ok? <==> s != "" && exists d :: Decomposes(s, d))
    ensures forall d :: Decomposes(s, d) && s != "" && s != "0" ==> r == Ok(Wrap64(SumNs(d, 0, true)))
  {
    if s == "0" {
      return Ok(0);
    }
    if s == "" {
      return Err("empty duration string");
    }
    MatchExactly(s);
    match Match(s, 0) {
      case None =>
        return Err("not a valid duration string");
      case Some(d) =>
        assert Decomposes(s, d);
        var dur := SumGroups(d);
        return Ok(dur);
    }
  }

  lemma {:induction false} SaturationBound(d: Groups, i: nat)
    requires WellFormed(d, i)
    ensures 0 <= SumNs(d, i, true) <= SumNs(d, i, false)
    ensures SumNs(d, i, false) <= MAX_INT64 ==> SumNs(d, i, true) == SumNs(d, i, false)
    decreases |d|
  {
    if i < 7 {
      SaturationBound(d[1..], i + 1);
      assert d[0].Some? ==> IsNumeral(d[0].value);
      GroupSaturation(d[0], Mult(i));
    }
  }

  lemma GroupSaturation(g: Option<string>, mult: int)
    requires (g.Some? ==> IsNumeral(g.value)) && mult >= 1
    ensures 0 <= GroupNs(g, mult, true) <= GroupNs(g, mult, false)
    ensures GroupNs(g, mult, false) <= MAX_INT64 ==> GroupNs(g, mult, true) == GroupNs(g, mult, false)
  {
    if g.Some? {
      var v, a := Value(g.value), Atoi(g.value);
      MulBounds(v, a, MILLISECOND * mult);
      assert v * MILLISECOND * mult == v * (MILLISECOND * mult) && a * MILLISECOND * mult == a * (MILLISECOND * mult);
    }
  }

  lemma MulBounds(v: int, a: int, w: int)
    requires 0 <= a <= v && w >= 1
    ensures 0 <= a * w <= v * w && v <= v * w
  {
    assert (v - a) * w >= 0;
    assert v * (w - 1) >= 0;
  }

  /** The parsed value is the denoted duration exactly when that fits 64 signed bits, whatever the
      size of the numerals. */
  lemma ExactIffFits(d: Groups)
    requires WellFormed(d, 0)
    ensures Wrap64(SumNs(d, 0, true)) == TrueNs(d) <==> TrueNs(d) <= MAX_INT64
  {
    SaturationBound(d, 0);
  }

  // ----- the units -----

  /** An optional group as text. */
  function Part(num: Option<string>, unit: string): string {
    match num case None => "" case Some(n) => n + unit
  }

  predicate Valid(num: Option<string>) {
    num.Some? ==> IsNumeral(num.value)
  }

  /** The number of an optional group, absent ones counting 0. */
  function Amount(num: Option<string>): nat
    requires Valid(num)
  {
    match num case None => 0 case Some(n) => Value(n)
  }

  /** The same as the parser reads it: numerals beyond 64 bits stick at the largest number. */
  function Capped(num: Option<string>): nat
    requires Valid(num)
  {
    if Amount(num) > 9223372036854775807 then 9223372036854775807 else Amount(num)
  }

  /** The seven groups as text, each number with its letter. */
  function Text(g: Groups): string
    requires |g| == 7
  {
    Part(g[0], "y") + (Part(g[1], "w") + (Part(g[2], "d") + (Part(g[3], "h")
      + (Part(g[4], "m") + (Part(g[5], "s") + Part(g[6], "ms"))))))
  }

  lemma {:induction false} TextIsPrint(g: Groups)
    requires WellFormed(g, 0)
    ensures Text(g) == Print(g, 0)
  {
    var t1, t2, t3, t4, t5, t6 := g[1..], g[2..], g[3..], g[4..], g[5..], g[6..];
    assert t1[1..] == t2 && t2[1..] == t3 && t3[1..] == t4 && t4[1..] == t5 && t5[1..] == t6 && t6[1..] == [];
    assert Print(t6, 6) == Part(g[6], "ms");
    assert Print(t5, 5) == Part(g[5], "s") + Print(t6, 6);
    assert Print(t4, 4) == Part(g[4], "m") + Print(t5, 5);
    assert Print(t3, 3) == Part(g[3], "h") + Print(t4, 4);
    assert Print(t2, 2) == Part(g[2], "d") + Print(t3, 3);
    assert Print(t1, 1) == Part(g[1], "w") + Print(t2, 2);
  }

  lemma {:induction false} SevenTerms(g: Groups, sat: bool)
    requires WellFormed(g, 0)
    ensures forall i :: 0 <= i < 7 && g[i].Some? ==> IsNumeral(g[i].value)
    ensures SumNs(g, 0, sat)
      == GroupNs(g[0], Mult(0), sat) + GroupNs(g[1], Mult(1), sat) + GroupNs(g[2], Mult(2), sat)
       + GroupNs(g[3], Mult(3), sat) + GroupNs(g[4], Mult(4), sat) + GroupNs(g[5], Mult(5), sat)
       + GroupNs(g[6], Mult(6), sat)
  {
    var t1, t2, t3, t4, t5, t6 := g[1..], g[2..], g[3..], g[4..], g[5..], g[6..];
    assert t1[1..] == t2 && t2[1..] == t3 && t3[1..] == t4 && t4[1..] == t5 && t5[1..] == t6 && t6[1..] == [];
    assert SumNs(t6, 6, sat) == GroupNs(g[6], Mult(6), sat) + SumNs([], 7, sat);
    assert SumNs(t5, 5, sat) == GroupNs(g[5], Mult(5), sat) + SumNs(t6, 6, sat);
    assert SumNs(t4, 4, sat) == GroupNs(g[4], Mult(4), sat) + SumNs(t5, 5, sat);
    assert SumNs(t3, 3, sat) == GroupNs(g[3], Mult(3), sat) + SumNs(t4, 4, sat);
    assert SumNs(t2, 2, sat) == GroupNs(g[2], Mult(2), sat) + SumNs(t3, 3, sat);
    assert SumNs(t1, 1, sat) == GroupNs(g[1], Mult(1), sat) + SumNs(t2, 2, sat);
  }

  lemma {:induction false} AmountNs(num: Option<string>, i: nat)
    requires Valid(num) && i < 7
    ensures GroupNs(num, Mult(i), false) == Amount(num) * MILLISECOND * Mult(i)
    ensures GroupNs(num, Mult(i), true) == Capped(num) * MILLISECOND * Mult(i)
  {
  }

  /** Nanoseconds of each unit. */
  lemma UnitNs(n: nat)
    ensures n * MILLISECOND * Mult(0) == 31536000000000000 * n && n * MILLISECOND * Mult(1) == 604800000000000 * n
    ensures n * MILLISECOND * Mult(2) == 86400000000000 * n && n * MILLISECOND * Mult(3) == 3600000000000 * n
    ensures n * MILLISECOND * Mult(4) == 60000000000 * n && n * MILLISECOND * Mult(5) == 1000000000 * n
    ensures n * MILLISECOND * Mult(6) == 1000000 * n
  {
  }

  lemma {:induction false} GroupLiterally(num: Option<string>, i: nat)
    requires Valid(num) && i < 7
    ensures var ns := [31536000000000000, 604800000000000, 86400000000000, 3600000000000, 60000000000, 1000000000,
                       1000000][i];
      GroupNs(num, Mult(i), false) == ns * Amount(num) && GroupNs(num, Mult(i), true) == ns * Capped(num)
  {
    AmountNs(num, i);
    UnitNs(Amount(num));
    UnitNs(Capped(num));
  }

  lemma {:induction false} SevenAmounts(g: Groups)
    requires WellFormed(g, 0) && |g| == 7 && forall i :: 0 <= i < 7 ==> Valid(g[i])
    ensures TrueNs(g)
      == 31536000000000000 * Amount(g[0]) + 604800000000000 * Amount(g[1]) + 86400000000000 * Amount(g[2])
       + 3600000000000 * Amount(g[3]) + 60000000000 * Amount(g[4]) + 1000000000 * Amount(g[5]) + 1000000 * Amount(g[6])
    ensures SumNs(g, 0, true)
      == 31536000000000000 * Capped(g[0]) + 604800000000000 * Capped(g[1]) + 86400000000000 * Capped(g[2])
       + 3600000000000 * Capped(g[3]) + 60000000000 * Capped(g[4]) + 1000000000 * Capped(g[5]) + 1000000 * Capped(g[6])
  {
    SevenTerms(g, true);
    SevenTerms(g, false);
    forall i: nat | i < 7
      ensures var ns := [31536000000000000, 604800000000000, 86400000000000, 3600000000000, 60000000000, 1000000000,
                         1000000][i];
        GroupNs(g[i], Mult(i), false) == ns * Amount(g[i]) && GroupNs(g[i], Mult(i), true) == ns * Capped(g[i])
    {
      GroupLiterally(g[i], i);
    }
  }

  /** What the reading `g` amounts to in 64 bits. */
  ghost function ReadingNs(g: Groups): int
    requires WellFormed(g, 0)
  {
    Wrap64(SumNs(g, 0, true))
  }

  /** Letter by letter: the text that prints numbers of years, weeks, days, hours, minutes, seconds and
      milliseconds with their letters, those absent left out, is accepted with the value of that reading. */
  lemma {:induction false} TextParsed(g: Groups)
    requires WellFormed(g, 0) && exists i :: 0 <= i < 7 && g[i].Some?
    ensures Parsed(Text(g)) == Ok(ReadingNs(g))
  {
    TextIsPrint(g);
    ParsedReading(Text(g), g);
  }

  /** In nanoseconds, that value is the sum of the numbers times 31 536 000, 604 800, 86 400, 3 600, 60, 1
      and 1/1 000 seconds: exactly, if and only if the sum is at most 2^63 - 1, and always, each number
      sticking at 2^63 - 1, modulo 2^64. */
  lemma {:induction false} ReadingLiterally(g: Groups)
    requires WellFormed(g, 0) && forall i :: 0 <= i < 7 ==> Valid(g[i])
    ensures var total :=
        31536000000000000 * Amount(g[0]) + 604800000000000 * Amount(g[1]) + 86400000000000 * Amount(g[2])
        + 3600000000000 * Amount(g[3]) + 60000000000 * Amount(g[4]) + 1000000000 * Amount(g[5])
        + 1000000 * Amount(g[6]);
      ReadingNs(g) == total <==> total <= 0x7FFF_FFFF_FFFF_FFFF
    ensures -0x8000_0000_0000_0000 <= ReadingNs(g) <= 0x7FFF_FFFF_FFFF_FFFF
    ensures var capped :=
        31536000000000000 * Capped(g[0]) + 604800000000000 * Capped(g[1]) + 86400000000000 * Capped(g[2])
        + 3600000000000 * Capped(g[3]) + 60000000000 * Capped(g[4]) + 1000000000 * Capped(g[5])
        + 1000000 * Capped(g[6]);
      (capped - ReadingNs(g)) % 0x1_0000_0000_0000_0000 == 0
  {
    SevenAmounts(g);
    ExactIffFits(g);
    WrapCongruent(SumNs(g, 0, true));
  }

  lemma WrapCongruent(x: int)
    ensures (x - Wrap64(x)) % 0x1_0000_0000_0000_0000 == 0
  {
  }

  lemma {:induction false} ParsedReading(text: string, g: Groups)
    requires Decomposes(text, g) && exists i :: 0 <= i < |g| && g[i].Some?
    ensures Parsed(text) == Ok(Wrap64(SumNs(g, 0, true)))
  {
    MatchExactly(text);
    var i :| 0 <= i < |g| && g[i].Some?;
    SomethingPrinted(g, 0, i);
    var j, num, rest := FirstGroup(g, 0);
    assert |text| == |num| + |Unit(j)| + |rest| >= 2;
  }

  lemma {:induction false} SomethingPrinted(g: Groups, i: nat, j: nat)
    requires WellFormed(g, i) && j < |g| && g[j].Some?
    ensures Print(g, i) != []
    decreases |g|
  {
    PrintSplit(g, i);
    if j > 0 {
      SomethingPrinted(g[1..], i + 1, j - 1);
    }
  }
}
