/** Numbers in running text: the Go scanner of the archive parser and the pipeline of the edit form. */
module Digits {
  import opened Ints
  import opened Options
  import opened Decimal
  import opened Tickets

  // ----- maximal runs of digits -----

  /** Length of the longest prefix without digits. */
  function GapPrefix(s: string): (n: nat)
    ensures n <= |s|
  {
    if s == [] || IsDigit(s[0]) then 0 else 1 + GapPrefix(s[1..])
  }

  /** The maximal digit runs of a text, in order. */
  function Runs(s: string): seq<string>
    decreases |s|
  {
    if s == [] then []
    else if IsDigit(s[0]) then [s[..DigitPrefix(s)]] + Runs(s[DigitPrefix(s)..])
    else Runs(s[1..])
  }

  lemma {:induction false} RunsAreDigits(s: string)
    ensures forall r :: r in Runs(s) ==> r != [] && AllDigits(r)
    decreases |s|
  {
    if s != [] {
      RunsAreDigits(if IsDigit(s[0]) then s[DigitPrefix(s)..] else s[1..]);
    }
  }

  /** A stretch of digits that no digit touches on either side. */
  predicate MaximalRun(s: string, lo: int, hi: int) {
    && 0 <= lo < hi <= |s| && (forall k :: lo <= k < hi ==> IsDigit(s[k]))
    && (lo > 0 ==> !IsDigit(s[lo - 1])) && (hi < |s| ==> !IsDigit(s[hi]))
  }

  /** A run of the text behind a cut is a run of the whole, when the cut is at a run's edge or past a gap. */
  lemma RunBehind(s: string, n: nat, lo: int, hi: int)
    requires 0 < n <= |s| && (forall k :: 0 <= k < n ==> IsDigit(s[k]) == IsDigit(s[0]))
    requires MaximalRun(s[n..], lo, hi)
    requires lo == 0 ==> !IsDigit(s[0])
    ensures MaximalRun(s, lo + n, hi + n) && s[lo + n..hi + n] == s[n..][lo..hi]
  {
    var t := s[n..];
    forall k | lo + n <= k < hi + n ensures IsDigit(s[k]) {
      assert t[k - n] == s[k];
    }
    assert hi < |t| ==> t[hi] == s[hi + n];
    assert lo > 0 ==> t[lo - 1] == s[lo + n - 1];
  }

  /** A run of the whole that starts behind the cut is a run of the rest. */
  lemma RunAhead(s: string, n: nat, lo: int, hi: int)
    requires 0 < n <= lo && MaximalRun(s, lo, hi)
    ensures MaximalRun(s[n..], lo - n, hi - n)
  {
    var t := s[n..];
    forall k | lo - n <= k < hi - n ensures IsDigit(t[k]) {
      assert t[k] == s[k + n];
    }
    assert hi < |s| ==> t[hi - n] == s[hi];
    assert lo > n ==> t[lo - n - 1] == s[lo - 1];
  }

  /** The first cut of a text: its leading digits, or one character of a gap. */
  function FirstCut(s: string): (n: nat)
    requires s != []
    ensures 0 < n <= |s|
  {
    if IsDigit(s[0]) then DigitPrefix(s) else 1
  }

  lemma FirstCutIsEven(s: string)
    requires s != []
    ensures forall k :: 0 <= k < FirstCut(s) ==> IsDigit(s[k]) == IsDigit(s[0])
    ensures IsDigit(s[0]) ==> MaximalRun(s, 0, FirstCut(s))
  {
    var n := FirstCut(s);
    if IsDigit(s[0]) {
      forall k | 0 <= k < n ensures IsDigit(s[k]) {
        assert s[..n][k] == s[k];
      }
    }
  }

  /** No run but the leading one starts before the first cut. */
  lemma RunBeforeCut(s: string, lo: int, hi: int)
    requires MaximalRun(s, lo, hi) && lo < FirstCut(s)
    ensures lo == 0 && hi == FirstCut(s) && IsDigit(s[0])
  {
    assert IsDigit(s[lo]) && (hi < |s| ==> !IsDigit(s[hi]));
    FirstCutIsEven(s);
  }

  /** What it means to list the maximal runs of a text: each of them, once, from left to right. */
  ghost predicate Lists(s: string, at: seq<(int, int)>) {
    && (forall i :: 0 <= i < |at| ==> MaximalRun(s, at[i].0, at[i].1))
    && LeftToRight(at)
    && (forall lo, hi :: MaximalRun(s, lo, hi) ==> (lo, hi) in at)
  }

  predicate LeftToRight(at: seq<(int, int)>) {
    forall i, j :: 0 <= i < j < |at| ==> at[i].1 < at[j].0
  }

  function Shift(at: seq<(int, int)>, n: int): (r: seq<(int, int)>)
    ensures |r| == |at| && forall i :: 0 <= i < |r| ==> r[i] == (at[i].0 + n, at[i].1 + n)
  {
    seq(|at|, i requires 0 <= i < |at| => (at[i].0 + n, at[i].1 + n))
  }

  lemma ShiftedRun(s: string, lo: int, hi: int)
    requires s != [] && MaximalRun(s[FirstCut(s)..], lo, hi)
    ensures MaximalRun(s, lo + FirstCut(s), hi + FirstCut(s))
    ensures s[lo + FirstCut(s)..hi + FirstCut(s)] == s[FirstCut(s)..][lo..hi]
    ensures IsDigit(s[0]) ==> 0 < lo
  {
    var n := FirstCut(s);
    FirstCutIsEven(s);
    assert IsDigit(s[n..][lo]) && s[n..][lo] == s[lo + n];
    RunBehind(s, n, lo, hi);
  }

  /** The runs of a text from the runs behind its first cut. */
  function WithFirst(s: string, behind: seq<(int, int)>): seq<(int, int)>
    requires s != []
  {
    (if IsDigit(s[0]) then [(0, FirstCut(s))] else []) + Shift(behind, FirstCut(s))
  }

  lemma ShiftedRuns(s: string, behind: seq<(int, int)>)
    requires s != [] && Lists(s[FirstCut(s)..], behind)
    ensures forall i :: 0 <= i < |behind| ==>
              var r := Shift(behind, FirstCut(s))[i];
              && MaximalRun(s, r.0, r.1)
              && s[r.0..r.1] == s[FirstCut(s)..][behind[i].0..behind[i].1]
              && (IsDigit(s[0]) ==> FirstCut(s) < r.0)
  {
    forall i | 0 <= i < |behind|
      ensures var r := Shift(behind, FirstCut(s))[i];
              && MaximalRun(s, r.0, r.1)
              && s[r.0..r.1] == s[FirstCut(s)..][behind[i].0..behind[i].1]
              && (IsDigit(s[0]) ==> FirstCut(s) < r.0)
    {
      ShiftedRun(s, behind[i].0, behind[i].1);
    }
  }

  lemma ShiftKeeps(at: seq<(int, int)>, n: int, lo: int, hi: int)
    requires (lo - n, hi - n) in at
    ensures (lo, hi) in Shift(at, n)
  {
    var i :| 0 <= i < |at| && at[i] == (lo - n, hi - n);
    assert Shift(at, n)[i] == (lo, hi);
  }

  lemma RunIsListed(s: string, behind: seq<(int, int)>, lo: int, hi: int)
    requires s != [] && Lists(s[FirstCut(s)..], behind)
    requires MaximalRun(s, lo, hi)
    ensures (lo, hi) in WithFirst(s, behind)
  {
    var n := FirstCut(s);
    if lo >= n {
      RunAhead(s, n, lo, hi);
      ShiftKeeps(behind, n, lo, hi);
    } else {
      RunBeforeCut(s, lo, hi);
    }
  }

  lemma OrderOneMore(s: string, behind: seq<(int, int)>)
    requires s != [] && LeftToRight(behind)
    requires forall i :: 0 <= i < |behind| ==> IsDigit(s[0]) ==> 0 < behind[i].0
    ensures LeftToRight(WithFirst(s, behind))
  {
  }

  lemma AllAreRuns(s: string, behind: seq<(int, int)>)
    requires s != [] && Lists(s[FirstCut(s)..], behind)
    ensures var at := WithFirst(s, behind); forall i :: 0 <= i < |at| ==> MaximalRun(s, at[i].0, at[i].1)
  {
    ShiftedRuns(s, behind);
    FirstCutIsEven(s);
  }

  lemma ListsOneMore(s: string, behind: seq<(int, int)>)
    requires s != [] && Lists(s[FirstCut(s)..], behind)
    ensures Lists(s, WithFirst(s, behind))
  {
    var at := WithFirst(s, behind);
    AllAreRuns(s, behind);
    forall lo, hi | MaximalRun(s, lo, hi) ensures (lo, hi) in at {
      RunIsListed(s, behind, lo, hi);
    }
    OrderOneMore(s, behind);
  }

  predicate Within(s: string, at: seq<(int, int)>) {
    forall i :: 0 <= i < |at| ==> 0 <= at[i].0 <= at[i].1 <= |s|
  }

  function TextsAt(s: string, at: seq<(int, int)>): (r: seq<string>)
    requires Within(s, at)
    ensures |r| == |at|
  {
    seq(|at|, i requires 0 <= i < |at| => s[at[i].0..at[i].1])
  }

  lemma TextsOneMore(s: string, behind: seq<(int, int)>)
    requires s != [] && Within(s[FirstCut(s)..], behind)
    ensures Within(s, WithFirst(s, behind))
    ensures TextsAt(s, WithFirst(s, behind))
            == (if IsDigit(s[0]) then [s[..FirstCut(s)]] else []) + TextsAt(s[FirstCut(s)..], behind)
  {
    var n := FirstCut(s);
    forall i | 0 <= i < |behind|
      ensures s[behind[i].0 + n..behind[i].1 + n] == s[n..][behind[i].0..behind[i].1]
    {
    }
  }

  /** `Runs` holds the texts of exactly the maximal runs, each once, from left to right. */
  lemma {:induction false} RunsAreMaximal(s: string) returns (at: seq<(int, int)>)
    ensures Lists(s, at)
    ensures Within(s, at) && Runs(s) == TextsAt(s, at)
    decreases |s|
  {
    if s == [] {
      at := [];
    } else {
      var behind := RunsAreMaximal(s[FirstCut(s)..]);
      at := WithFirst(s, behind);
      ListsOneMore(s, behind);
      TextsOneMore(s, behind);
    }
  }

  // ----- the Go scanner -----

  function SaturateAll(runs: seq<string>): (r: seq<int>)
    requires forall x :: x in runs ==> AllDigits(x)
    ensures |r| == |runs| && forall i :: 0 <= i < |r| ==> r[i] == Saturating(runs[i])
  {
    seq(|runs|, i requires 0 <= i < |runs| => assert runs[i] in runs; Saturating(runs[i]))
  }

  /** What `extractNumbers` returns: the saturated values of the maximal digit runs. */
  function Numbers(s: string): (r: seq<int>)
    ensures |r| == |Runs(s)|
  {
    RunsAreDigits(s);
    SaturateAll(Runs(s))
  }

  /** The numbers of a text, one by one: the value of each run, or the largest int when it is beyond 64 bits. */
  lemma NumbersAre(s: string, k: nat)
    requires k < |Runs(s)|
    ensures AllDigits(Runs(s)[k]) && |Numbers(s)| == |Runs(s)|
    ensures Numbers(s)[k] ==
            if Value(Runs(s)[k]) <= 0x7fff_ffff_ffff_ffff then Value(Runs(s)[k]) else 0x7fff_ffff_ffff_ffff
  {
    RunsAreDigits(s);
    assert Runs(s)[k] in Runs(s);
  }

  lemma NumbersOfGap(s: string)
    requires s != [] && !IsDigit(s[0])
    ensures Numbers(s) == Numbers(s[1..])
  {
  }

  lemma NumbersOfRun(d: string, rest: string)
    requires d != [] && AllDigits(d) && (rest == [] || !IsDigit(rest[0]))
    ensures Numbers(d + rest) == [Saturating(d)] + Numbers(rest)
  {
    var s := d + rest;
    DigitPrefixOf(d, rest);
    assert s[..|d|] == d && s[|d|..] == rest;
    assert Runs(s) == [d] + Runs(rest);
  }

  /** The numbers still to be found when the scan stands at `i` with a run open at `start`. */
  ghost function Pending(s: string, start: int, i: nat): seq<int>
    requires -1 <= start <= i <= |s|
  {
    Numbers(if start < 0 then s[i..] else s[start..])
  }

  lemma PendingAcrossGap(s: string, start: int, i: nat)
    requires -1 <= start < i < |s| && !IsDigit(s[i])
    requires start >= 0 ==> AllDigits(s[start..i])
    ensures Pending(s, start, i)
            == (if start < 0 then [] else [Saturating(s[start..i])]) + Pending(s, -1, i + 1)
  {
    NumbersOfGap(s[i..]);
    assert s[i..][1..] == s[i + 1..];
    if start >= 0 {
      assert s[start..] == s[start..i] + s[i..];
      NumbersOfRun(s[start..i], s[i..]);
    }
  }

  lemma OneMoreDigit(s: string, start: nat, i: nat)
    requires start <= i < |s| && IsDigit(s[i]) && AllDigits(s[start..i])
    ensures AllDigits(s[start..i + 1])
  {
    assert s[start..i + 1] == s[start..i] + [s[i]];
  }

  lemma PendingAtEnd(s: string, start: int)
    requires -1 <= start < |s| || (start == -1 && s == [])
    requires start >= 0 ==> AllDigits(s[start..])
    ensures Pending(s, start, |s|) == if start < 0 then [] else [Saturating(s[start..])]
  {
    assert Numbers([]) == [];
    if start >= 0 {
      assert s[start..] == s[start..] + [];
      NumbersOfRun(s[start..], []);
    }
  }

  /** `extractNumbers`: one pass with the start of the current digit run, -1 outside of one. */
  method ExtractNumbers(s: string) returns (out: seq<int>)
    ensures out == Numbers(s)
  {
    out := [];
    var start := -1;
    assert s[0..] == s;
    for i := 0 to |s|
      invariant -1 <= start < i
      invariant start >= 0 ==> AllDigits(s[start..i])
      invariant out + Pending(s, start, i) == Numbers(s)
    {
      if IsDigit(s[i]) {
        if start < 0 {
          start := i;
        }
        OneMoreDigit(s, start, i);
      } else {
        PendingAcrossGap(s, start, i);
        if start >= 0 {
          Append(out, Saturating(s[start..i]), Pending(s, -1, i + 1));
          out := out + [Saturating(s[start..i])];
          start := -1;
        }
      }
    }
    assert start >= 0 ==> s[start..|s|] == s[start..];
    PendingAtEnd(s, start);
    if start >= 0 {
      out := out + [Saturating(s[start..])];
    }
  }

  // ----- the edit form's parser -----

  /** What stands behind the first gap. */
  function Behind(s: string): (r: string)
    ensures DigitPrefix(s) < |s| ==> |r| < |s|
  {
    var n := DigitPrefix(s);
    var t := s[n..];
    assert n < |s| ==> t[0] == s[n] && GapPrefix(t) > 0;
    t[GapPrefix(t)..]
  }

  /** `split(/[^0-9]+/)`: the pieces between stretches without digits, empty ones at the ends included. */
  function SplitAtGaps(s: string): seq<string>
    decreases |s|
  {
    if DigitPrefix(s) == |s| then [s] else [s[..DigitPrefix(s)]] + SplitAtGaps(Behind(s))
  }

  function NonEmpty(pieces: seq<string>): seq<string> {
    if pieces == [] then []
    else (if pieces[0] != "" then [pieces[0]] else []) + NonEmpty(pieces[1..])
  }

  lemma {:induction false} RunsPastGap(s: string)
    ensures Runs(s) == Runs(s[GapPrefix(s)..])
    ensures GapPrefix(s) == |s| || IsDigit(s[GapPrefix(s)])
  {
    if s != [] && !IsDigit(s[0]) {
      RunsPastGap(s[1..]);
      assert s[1..][GapPrefix(s[1..])..] == s[1 + GapPrefix(s[1..])..];
    } else {
      assert s[0..] == s;
    }
  }

  /** What stands in front of the first gap: a run, or nothing. */
  function Front(s: string): seq<string> {
    if DigitPrefix(s) > 0 then [s[..DigitPrefix(s)]] else []
  }

  lemma SplitStep(s: string)
    requires DigitPrefix(s) < |s|
    ensures NonEmpty(SplitAtGaps(s)) == Front(s) + NonEmpty(SplitAtGaps(Behind(s)))
  {
    var pieces := SplitAtGaps(s);
    assert pieces[0] == s[..DigitPrefix(s)] && pieces[1..] == SplitAtGaps(Behind(s));
  }

  lemma RunsStep(s: string)
    requires DigitPrefix(s) < |s|
    ensures Runs(s) == Front(s) + Runs(Behind(s))
  {
    RunsPastGap(s[DigitPrefix(s)..]);
    if DigitPrefix(s) == 0 {
      assert s[0..] == s;
    }
  }

  lemma OneRun(s: string)
    requires DigitPrefix(s) == |s|
    ensures NonEmpty(SplitAtGaps(s)) == Runs(s)
  {
    assert s[..|s|] == s && s[|s|..] == [];
    assert NonEmpty([s]) == if s == "" then [] else [s];
  }

  /** Splitting at the gaps and dropping the empty pieces leaves the maximal digit runs. */
  lemma {:induction false} SplitGivesRuns(s: string)
    ensures NonEmpty(SplitAtGaps(s)) == Runs(s)
    decreases |s|
  {
    if DigitPrefix(s) == |s| {
      OneRun(s);
    } else {
      SplitStep(s);
      RunsStep(s);
      SplitGivesRuns(Behind(s));
    }
  }

  /** `Number` of a digit string, taken as exact: the tests made on it do not see the rounding. */
  function ValueAll(runs: seq<string>): (r: seq<int>)
    requires forall x :: x in runs ==> AllDigits(x)
    ensures |r| == |runs| && forall i :: 0 <= i < |r| ==> r[i] == Value(runs[i])
  {
    seq(|runs|, i requires 0 <= i < |runs| => assert runs[i] in runs; Value(runs[i]))
  }

  datatype Parsed = Accepted(numbers: seq<int>, bonus: int) | Refused(reason: Refusal)

  datatype Refusal = WrongLength(found: nat) | Bad(fault: Fault)

  /** What `parseCombination` answers, for the numbers in a text. */
  ghost function Combine(nums: seq<int>): Parsed {
    if |nums| != 8 then Refused(WrongLength(|nums|))
    else match PageFault(nums[..7], nums[7])
         case Some(fault) => Refused(Bad(fault))
         case None => Accepted(Sorted(nums[..7]), nums[7])
  }

  lemma CombineMeans(nums: seq<int>)
    requires |nums| == 8
    ensures if Playable(nums[..7], nums[7]) then Combine(nums) == Accepted(Sorted(nums[..7]), nums[7])
            else exists fault :: PageFault(nums[..7], nums[7]) == Some(fault) && Combine(nums) == Refused(Bad(fault))
  {
    ValidatorsAgree(nums[..7], nums[7]);
  }

  method ParseCombination(input: string) returns (r: Parsed)
    ensures forall x :: x in Runs(input) ==> AllDigits(x)
    ensures r == Combine(ValueAll(Runs(input)))
    ensures var values := ValueAll(Runs(input));
            if |values| != 8 then r == Refused(WrongLength(|Runs(input)|))
            else if Playable(values[..7], values[7]) then r == Accepted(Sorted(values[..7]), values[7])
            else exists fault :: PageFault(values[..7], values[7]) == Some(fault) && r == Refused(Bad(fault))
  {
    RunsAreDigits(input);
    if |Runs(input)| == 8 {
      CombineMeans(ValueAll(Runs(input)));
    }
    SplitGivesRuns(input);
    var parts := NonEmpty(SplitAtGaps(input));
    r := CombineNumbers(ValueAll(parts));
  }

  /** The parser from its numbers on. */
  method CombineNumbers(nums: seq<int>) returns (r: Parsed)
    ensures r == Combine(nums)
  {
    if |nums| != 8 {
      return Refused(WrongLength(|nums|));
    }
    var main := nums[..7];
    var seen: set<int> := {};
    for i := 0 to 7
      invariant seen == set x | x in main[..i]
      invariant FirstBad(main, 0) == FirstBad(main, i)
    {
      var n := main[i];
      if n < 1 || n > 35 {
        return Refused(Bad(OutOfRange(n)));
      }
      if n in seen {
        return Refused(Bad(Repeated(n)));
      }
      seen := seen + {n};
      assert main[..i + 1] == main[..i] + [n];
    }
    var bonus := nums[7];
    if bonus < 1 || bonus > 54 {
      return Refused(Bad(BonusOutOfRange(bonus)));
    }
    var sorted := new int[7](i requires 0 <= i < 7 => main[i]);
    assert sorted[..7] == main;
    SortPrefix(sorted, 7);
    return Accepted(sorted[..7], bonus);
  }

  // ----- the twins agree -----

  /** A saturated number and the exact one fall into the same ranges, and are equal where any test accepts. */
  lemma SaturationInvisible(runs: seq<string>)
    requires forall x :: x in runs ==> AllDigits(x)
    ensures forall i :: 0 <= i < |runs| ==>
              && (1 <= SaturateAll(runs)[i] <= 54 <==> 1 <= ValueAll(runs)[i] <= 54)
              && (1 <= ValueAll(runs)[i] <= 54 ==> SaturateAll(runs)[i] == ValueAll(runs)[i])
  {
  }

  /**
   * For every text the edit form accepts exactly when the archive parser would accept the same text
   * as a row's only cell of eight numbers, and with the same sorted seven and bonus.
   */
  lemma TwinsAgree(s: string, numbers: seq<int>, bonus: int)
    ensures forall x :: x in Runs(s) ==> AllDigits(x)
    ensures Combine(ValueAll(Runs(s))) == Accepted(numbers, bonus) <==> Combine(Numbers(s)) == Accepted(numbers, bonus)
  {
    RunsAreDigits(s);
    var a, b := ValueAll(Runs(s)), Numbers(s);
    SaturationInvisible(Runs(s));
    if |Runs(s)| == 8 {
      PageFaultIff(a[..7], a[7]);
      PageFaultIff(b[..7], b[7]);
      if PageFault(a[..7], a[7]).None? { SameNumbers(a, b); }
      if PageFault(b[..7], b[7]).None? { SameNumbers(b, a); }
    }
  }

  lemma SameNumbers(a: seq<int>, b: seq<int>)
    requires |a| == |b| == 8
    requires forall i :: 0 <= i < 8 ==> (1 <= a[i] <= 54 ==> a[i] == b[i])
    requires InRange(a[..7], 1, 35) && 1 <= a[7] <= 54
    ensures a == b
  {
    forall i | 0 <= i < 7 ensures a[i] == b[i] {
      assert a[..7][i] in a[..7];
    }
  }

  // ----- the edit form is filled with what it can read -----

  /** `fmt`: at least two digits. */
  function Padded(n: nat): string {
    var s := NatText(n);
    if |s| < 2 then "0" + s else s
  }

  /** `[...numbers, bonus].map(fmt).join(', ')`. */
  function FormText(nums: seq<nat>): string {
    if nums == [] then ""
    else if |nums| == 1 then Padded(nums[0])
    else Padded(nums[0]) + (", " + FormText(nums[1..]))
  }

  lemma PaddedIsNumber(n: nat)
    requires n <= MAX_INT64
    ensures AllDigits(Padded(n)) && Padded(n) != [] && Saturating(Padded(n)) == n
  {
    ValueOfNatText(n);
    ValueOfPadded(NatText(n));
  }

  lemma NumbersOfItem(d: string, rest: string)
    requires d != [] && AllDigits(d)
    ensures Numbers(d + (", " + rest)) == [Saturating(d)] + Numbers(rest)
  {
    NumbersOfRun(d, ", " + rest);
    NumbersOfGap(", " + rest);
    assert (", " + rest)[1..] == " " + rest;
    NumbersOfGap(" " + rest);
    assert (" " + rest)[1..] == rest;
  }

  /** The form's rendering of any numbers is read back as exactly those numbers. */
  lemma {:induction false} FormRoundTrip(nums: seq<nat>)
    requires forall i :: 0 <= i < |nums| ==> nums[i] <= MAX_INT64
    ensures Numbers(FormText(nums)) == nums
  {
    if nums == [] {
      assert Numbers("") == [];
    } else {
      PaddedIsNumber(nums[0]);
      var p := Padded(nums[0]);
      if |nums| == 1 {
        assert p + [] == p;
        NumbersOfRun(p, []);
        assert Numbers([]) == [];
      } else {
        FormRoundTrip(nums[1..]);
        var rest := FormText(nums[1..]);
        NumbersOfItem(p, rest);
      }
    }
  }

  lemma FormHead(nums: seq<nat>)
    requires nums != [] && nums[0] < 100
    ensures var s := FormText(nums);
            && |s| >= 2 && s[0] == "0123456789"[nums[0] / 10] && s[1] == "0123456789"[nums[0] % 10]
            && (|nums| == 1 ==> |s| == 2)
            && (|nums| > 1 ==> |s| >= 4 && s[2..4] == ", " && s[4..] == FormText(nums[1..]))
  {
    TwoDigits(nums[0]);
  }

  /** Number `k` of a list stands in the text with two digits, then a comma and a blank unless it is the last. */
  predicate ShapedAt(s: string, nums: seq<nat>, k: nat)
    requires k < |nums| && nums[k] < 100
  {
    && |s| == 4 * |nums| - 2
    && s[4 * k] == "0123456789"[nums[k] / 10] && s[4 * k + 1] == "0123456789"[nums[k] % 10]
    && (k + 1 < |nums| ==> s[4 * k + 2] == ',' && s[4 * k + 3] == ' ')
  }

  /** The rendering of numbers below a hundred, spelled out. */
  lemma {:induction false} FormShape(nums: seq<nat>, k: nat)
    requires k < |nums| && forall i :: 0 <= i < |nums| ==> nums[i] < 100
    ensures ShapedAt(FormText(nums), nums, k)
  {
    FormHead(nums);
    if |nums| > 1 {
      FormShape(nums[1..], if k == 0 then 0 else k - 1);
      ShapedBehind(FormText(nums), nums, FormText(nums[1..]), k);
    }
  }

  lemma ShapedBehind(s: string, nums: seq<nat>, rest: string, k: nat)
    requires |nums| > 1 && k < |nums| && nums[0] < 100 && nums[1] < 100 && nums[k] < 100
    requires |s| >= 4 && s[2..4] == ", " && s[4..] == rest
    requires s[0] == "0123456789"[nums[0] / 10] && s[1] == "0123456789"[nums[0] % 10]
    requires ShapedAt(rest, nums[1..], if k == 0 then 0 else k - 1)
    ensures ShapedAt(s, nums, k)
  {
    if k == 0 {
      assert s[2] == s[2..4][0] && s[3] == s[2..4][1];
    } else {
      var i := 4 * (k - 1);
      assert rest[i] == s[i + 4] && rest[i + 1] == s[i + 5];
      assert k + 1 < |nums| ==> rest[i + 2] == s[i + 6] && rest[i + 3] == s[i + 7];
    }
  }

  lemma TwoDigits(n: nat)
    requires n < 100
    ensures |Padded(n)| == 2 && Padded(n)[0] == "0123456789"[n / 10] && Padded(n)[1] == "0123456789"[n % 10]
  {
    UsualDigit(n / 10);
    UsualDigit(n % 10);
    if n >= 10 {
      assert NatText(n) == NatText(n / 10) + [DigitChar(n % 10)];
      assert NatText(n / 10) == [DigitChar(n / 10)];
    }
  }

  /** So editing a stored draw starts from a text that parses back to that draw. */
  lemma EditFormRoundTrip(numbers: seq<nat>, bonus: nat)
    requires Issuable(Ticket(numbers, bonus))
    ensures forall x :: x in Runs(FormText(numbers + [bonus])) ==> AllDigits(x)
    ensures Combine(ValueAll(Runs(FormText(numbers + [bonus])))) == Accepted(numbers, bonus)
  {
    var all := numbers + [bonus];
    forall i | 0 <= i < |all| ensures all[i] <= MAX_INT64 {
      assert i < 7 ==> all[i] in numbers;
    }
    FormRoundTrip(all);
    assert all[..7] == numbers;
    PageFaultIff(numbers, bonus);
    SortedOfAscending(numbers);
    TwinsAgree(FormText(all), numbers, bonus);
  }
}
