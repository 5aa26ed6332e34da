/**
 * What a prompt says: its whole text in the words of the prompt, the statistics that are read back from behind
 * their headings, and the number of combinations it asks for.
 */
module PromptReading {
  import opened Options
  import opened Decimal
  import opened Texts
  import opened Tickets
  import opened Digits
  import opened Extract
  import opened Render
  import opened Prompt

  // ----- the frequency list -----

  /** `strings.Join`. */
  function Join(parts: seq<string>, sep: string): string {
    if parts == [] then ""
    else if |parts| == 1 then parts[0]
    else parts[0] + (sep + Join(parts[1..], sep))
  }

  function Entry(number: nat, count: int): string { IntText(number) + (":" + IntText(count)) }

  /** The entries from number `i + 1` on. */
  function Entries(freq: seq<int>, i: nat): (r: seq<string>)
    requires i <= |freq|
    ensures |r| == |freq| - i && forall k :: 0 <= k < |r| ==> r[k] == Entry(i + k + 1, freq[i + k])
  {
    seq(|freq| - i, k requires 0 <= k < |freq| - i => Entry(i + k + 1, freq[i + k]))
  }

  lemma EntriesStep(freq: seq<int>, i: nat)
    requires i < |freq|
    ensures Entries(freq, i) != [] && Entries(freq, i)[0] == Entry(i + 1, freq[i])
    ensures Entries(freq, i)[1..] == Entries(freq, i + 1)
  {
  }

  lemma ListStep(freq: seq<int>, i: nat)
    requires i < |freq|
    ensures FrequenciesFrom(freq, i) ==
            (if i == 0 then "" else ", ") + (Entry(i + 1, freq[i]) + FrequenciesFrom(freq, i + 1))
  {
    var sep := if i == 0 then "" else ", ";
    Assoc(sep, IntText(i + 1) + ":", IntText(freq[i]) + FrequenciesFrom(freq, i + 1));
    Assoc(IntText(i + 1), ":", IntText(freq[i]) + FrequenciesFrom(freq, i + 1));
    Assoc(":", IntText(freq[i]), FrequenciesFrom(freq, i + 1));
    Assoc(IntText(i + 1), ":" + IntText(freq[i]), FrequenciesFrom(freq, i + 1));
  }

  /** A list is the entries `number:count`, joined by commas, and a line end. */
  lemma {:induction false} ListIsJoined(freq: seq<int>, i: nat)
    requires i <= |freq|
    ensures FrequenciesFrom(freq, i) ==
            (if i == 0 || i == |freq| then "" else ", ") + (Join(Entries(freq, i), ", ") + "\n")
    decreases |freq| - i
  {
    if i < |freq| {
      EntriesStep(freq, i);
      ListStep(freq, i);
      ListIsJoined(freq, i + 1);
      var e, rest := Entry(i + 1, freq[i]), Entries(freq, i + 1);
      if i + 1 == |freq| {
        assert FrequenciesFrom(freq, i + 1) == "\n";
      } else {
        Assoc(e, ", ", Join(rest, ", ") + "\n");
        Assoc(e, ", " + Join(rest, ", "), "\n");
        Assoc(", ", Join(rest, ", "), "\n");
      }
    } else {
      assert Entries(freq, i) == [];
    }
  }

  // ----- read as numbers -----

  lemma NumbersOfNumeral(n: nat, c: char, rest: string)
    requires n <= MAX_INT64 && !IsDigit(c)
    ensures Numbers(IntText(n) + ([c] + rest)) == [n] + Numbers(rest)
  {
    ValueOfNatText(n);
    NumbersOfRun(NatText(n), [c] + rest);
    NumbersOfGap([c] + rest);
    assert ([c] + rest)[1..] == rest;
  }

  /** Each number from `i + 1` on, and its count. */
  function Pairs(freq: seq<int>, i: nat): seq<int>
    requires i <= |freq|
    decreases |freq| - i
  {
    if i == |freq| then [] else [i + 1, freq[i]] + Pairs(freq, i + 1)
  }

  lemma {:induction false} PairsAt(freq: seq<int>, i: nat, k: nat)
    requires i <= |freq|
    ensures |Pairs(freq, i)| == 2 * (|freq| - i)
    ensures i + k < |freq| ==> Pairs(freq, i)[2 * k] == i + k + 1 && Pairs(freq, i)[2 * k + 1] == freq[i + k]
    decreases |freq| - i
  {
    if i < |freq| {
      PairsAt(freq, i + 1, if k == 0 then 0 else k - 1);
    }
  }

  lemma {:induction false} NumbersOfList(freq: seq<int>, i: nat)
    requires i <= |freq| <= MAX_INT64 && forall j :: 0 <= j < |freq| ==> 0 <= freq[j] <= MAX_INT64
    ensures Numbers(FrequenciesFrom(freq, i)) == Pairs(freq, i)
    decreases |freq| - i
  {
    if i == |freq| {
      NumbersOfGap("\n");
      assert "\n"[1..] == "";
      assert Numbers("") == [];
    } else {
      NumbersOfList(freq, i + 1);
      NumbersOfEntry(freq, i);
    }
  }

  lemma EntrySpelled(freq: seq<int>, i: nat, t: string)
    requires i < |freq| && t == FrequenciesFrom(freq, i + 1)
    ensures FrequenciesFrom(freq, i) ==
            (if i > 0 then ", " else "") + (IntText(i + 1) + ([':'] + (IntText(freq[i]) + t)))
    ensures t != "" && !IsDigit(t[0])
  {
    ListStep(freq, i);
    Assoc(IntText(i + 1), ":" + IntText(freq[i]), t);
    Assoc(":", IntText(freq[i]), t);
    assert t[0] == if i + 1 == |freq| then '\n' else ',';
  }

  lemma NumbersOfEntry(freq: seq<int>, i: nat)
    requires i < |freq| <= MAX_INT64 && 0 <= freq[i] <= MAX_INT64
    ensures Numbers(FrequenciesFrom(freq, i)) == [i + 1, freq[i]] + Numbers(FrequenciesFrom(freq, i + 1))
  {
    var t := FrequenciesFrom(freq, i + 1);
    EntrySpelled(freq, i, t);
    NumbersOfHead(i + 1, IntText(freq[i]) + t, i > 0);
    NumbersOfLast(freq[i], t);
    PairUp(i + 1, freq[i], Numbers(t));
  }

  lemma NumbersOfLast(n: nat, t: string)
    requires n <= MAX_INT64 && t != "" && !IsDigit(t[0])
    ensures Numbers(IntText(n) + t) == [n] + Numbers(t)
  {
    ValueOfNatText(n);
    NumbersOfRun(NatText(n), t);
  }

  lemma PairUp(m: int, n: int, rest: seq<int>)
    ensures [m] + ([n] + rest) == [m, n] + rest
  {
  }

  lemma NumbersOfHead(m: nat, u: string, later: bool)
    requires m <= MAX_INT64
    ensures Numbers((if later then ", " else "") + (IntText(m) + ([':'] + u))) == [m] + Numbers(u)
  {
    NumbersBehindComma(IntText(m) + ([':'] + u), later);
    NumbersOfNumeral(m, ':', u);
  }

  lemma NumbersBehindComma(u: string, later: bool)
    ensures Numbers((if later then ", " else "") + u) == Numbers(u)
  {
    if later {
      NumbersOfGap(", " + u);
      assert (", " + u)[1..] == " " + u;
      NumbersOfGap(" " + u);
      assert (" " + u)[1..] == u;
    } else {
      assert "" + u == u;
    }
  }

  /** Numbers from one on, each followed by the times it was drawn. */
  ghost predicate TellsCounts(nums: seq<int>, freq: seq<int>) {
    && |nums| == 2 * |freq|
    && forall k :: 0 <= k < |freq| ==> nums[2 * k] == k + 1 && nums[2 * k + 1] == freq[k]
  }

  lemma PairsTell(freq: seq<int>, nums: seq<int>)
    requires nums == Pairs(freq, 0)
    ensures TellsCounts(nums, freq)
  {
    PairsAt(freq, 0, 0);
    forall k | 0 <= k < |freq| ensures nums[2 * k] == k + 1 && nums[2 * k + 1] == freq[k] {
      PairsAt(freq, 0, k);
    }
  }

  /** Read as numbers, a list gives each number from one on, and behind each the times it was drawn. */
  lemma ListSays(freq: seq<int>)
    requires |freq| <= MAX_INT64 && forall j :: 0 <= j < |freq| ==> 0 <= freq[j] <= MAX_INT64
    ensures TellsCounts(Numbers(FrequenciesFrom(freq, 0)), freq)
  {
    NumbersOfList(freq, 0);
    PairsTell(freq, Numbers(FrequenciesFrom(freq, 0)));
  }

  // ----- the whole prompt -----

  /** The excluded tickets, one JSON object a line. */
  function Lines(ts: seq<Ticket>): string {
    if ts == [] then "" else "- " + TicketText(ts[0]) + "\n" + Lines(ts[1..])
  }

  lemma {:induction false} LinesAre(ts: seq<Ticket>)
    ensures Lines(ts) == ExcludeLines(ts)
  {
    if ts != [] {
      LinesAre(ts[1..]);
    }
  }

  lemma ListIsLine(freq: seq<int>)
    ensures FrequenciesFrom(freq, 0) == Join(Entries(freq, 0), ", ") + "\n"
  {
    ListIsJoined(freq, 0);
    assert "" + (Join(Entries(freq, 0), ", ") + "\n") == Join(Entries(freq, 0), ", ") + "\n";
  }

  /** The prompt, word for word. */
  lemma PromptSpelled(count: int, main: seq<int>, bonus: seq<int>, totalDraws: int, exclude: seq<Ticket>)
    ensures PromptText(count, main, bonus, totalDraws, exclude) ==
            "Past draws analyzed: "
            + (IntText(totalDraws)
            + (".\nMain " + "number frequency (number:times drawn):\n"
            + ((Join(Entries(main, 0), ", ") + "\n")
            + ("Bonus " + "number frequency (number:times drawn):\n"
            + ((Join(Entries(bonus, 0), ", ") + "\n")
            + ("Use these frequencies as a soft guide when choosing numbers, and keep your combinations varied.\n"
            + ((if exclude == [] then "" else
                  "Already " + "proposed combinations (do not repeat them):\n" + Lines(exclude))
            + ("Each combination: "
               + "7 distinct main numbers from 1 to 35 in ascending order, plus 1 bonus number from 1 to 54"
               + ".\nPropose " + (IntText(count) + " distinct combinations for the next draw.\n")))))))))
  {
    LinesAre(exclude);
    ListIsLine(main);
    ListIsLine(bonus);
  }

  /** The line behind the first occurrence of a heading, with its end. */
  function LineBehind(text: string, heading: string): Option<string>
    requires heading != ""
  {
    match IndexOf(text, heading)
    case None => None
    case Some(i) =>
      var t := text[i + |heading|..];
      match IndexOf(t, "\n") case None => None case Some(j) => Some(t[..j + 1])
  }

  lemma FoundBehind(x: string, heading: string, line: string, rest: string)
    requires heading != "" && Without(x, heading[0]) && Without(line, '\n')
    ensures LineBehind(x + (heading + ((line + "\n") + rest)), heading) == Some(line + "\n")
  {
    var t := (line + "\n") + rest;
    HeadingAt(x, heading, t);
    HeadingAt(line, "\n", rest);
    assert t == line + ("\n" + rest);
    assert t[..|line| + 1] == line + "\n";
  }

  lemma HeadingAt(x: string, heading: string, t: string)
    requires heading != "" && Without(x, heading[0])
    ensures var s := x + (heading + t); IndexOf(s, heading) == Some(|x|) && s[|x| + |heading|..] == t
  {
    WithoutIsFree(x, heading);
    IndexPastFree(x, heading + t, heading);
    assert heading <= heading + t;
  }

  lemma {:induction false} JoinedWithout(parts: seq<string>, sep: string, c: char)
    requires Without(sep, c) && forall k :: 0 <= k < |parts| ==> Without(parts[k], c)
    ensures Without(Join(parts, sep), c)
  {
    if |parts| > 1 {
      JoinedWithout(parts[1..], sep, c);
    }
  }

  lemma EntriesWithout(freq: seq<int>, c: char)
    requires c == '\n' || c == 'B'
    ensures Without(Join(Entries(freq, 0), ", "), c)
  {
    forall k | 0 <= k < |freq| ensures Without(Entries(freq, 0)[k], c) {
      assert Without(IntText(k + 1), c) && Without(IntText(freq[k]), c);
    }
    JoinedWithout(Entries(freq, 0), ", ", c);
  }

  /** What surrounds a line in a text: it is found behind the heading, whose first letter is not in `x`. */
  lemma LineFound(text: string, x: string, heading: string, freq: seq<int>, rest: string)
    requires heading != "" && Without(x, heading[0])
    requires text == x + (heading + (FrequenciesFrom(freq, 0) + rest))
    ensures LineBehind(text, heading) == Some(FrequenciesFrom(freq, 0))
  {
    ListIsLine(freq);
    EntriesWithout(freq, '\n');
    FoundBehind(x, heading, Join(Entries(freq, 0), ", "), rest);
  }

  lemma MainAt(total: string, n: string, counts: string, list: string, rest: string)
    ensures total + (n + ((".\nMain " + counts) + (list + rest)))
            == (total + n + ".\n") + (("Main " + counts) + (list + rest))
  {
    assert ".\nMain " == ".\n" + "Main ";
  }

  lemma NoCapitals(n: int, freq: seq<int>)
    ensures Without(TOTAL + IntText(n) + ".\n", 'M')
    ensures Without(TOTAL + IntText(n) + MAIN + FrequenciesFrom(freq, 0), 'B')
  {
    assert Without(IntText(n), 'M') && Without(IntText(n), 'B');
    assert Without(TOTAL, 'M') && Without(TOTAL, 'B') && Without(".\nMain ", 'B') && Without(COUNTS, 'B');
    ListIsLine(freq);
    EntriesWithout(freq, 'B');
  }

  lemma MainLine(text: string, n: int, main: seq<int>, rest: string)
    requires text == TOTAL + (IntText(n) + (MAIN + (FrequenciesFrom(main, 0) + rest)))
    ensures LineBehind(text, "Main " + COUNTS) == Some(FrequenciesFrom(main, 0))
  {
    MainAt(TOTAL, IntText(n), COUNTS, FrequenciesFrom(main, 0), rest);
    NoCapitals(n, main);
    LineFound(text, TOTAL + IntText(n) + ".\n", "Main " + COUNTS, main, rest);
  }

  lemma BonusLine(text: string, n: int, main: seq<int>, bonus: seq<int>, rest: string)
    requires text ==
             TOTAL + (IntText(n) + (MAIN + (FrequenciesFrom(main, 0) + (BONUS + (FrequenciesFrom(bonus, 0) + rest)))))
    ensures LineBehind(text, BONUS) == Some(FrequenciesFrom(bonus, 0))
  {
    var x := TOTAL + IntText(n) + MAIN + FrequenciesFrom(main, 0);
    Nested(TOTAL, IntText(n), MAIN, FrequenciesFrom(main, 0), BONUS, FrequenciesFrom(bonus, 0) + rest);
    Assoc(x, BONUS, FrequenciesFrom(bonus, 0) + rest);
    NoCapitals(n, main);
    LineFound(text, x, BONUS, bonus, rest);
  }

  lemma AskingAt(a: string, b: string, c: string, d: string, rules: string, number: string) returns (before: string)
    ensures a + (b + (c + (d + (("Each combination: " + rules + ".\nPropose ") + number))))
            == before + ("Propose " + number)
  {
    before := a + b + c + d + ("Each combination: " + rules + ".\n");
    assert "Each combination: " + rules + ".\nPropose " == ("Each combination: " + rules + ".\n") + "Propose ";
  }

  /**
   * What is read off a prompt. The line behind the heading for the main numbers tells their counts, the one
   * behind the heading for the bonus those of the bonus, and the text ends by asking for `count` combinations.
   */
  lemma PromptReads(count: int, main: seq<int>, bonus: seq<int>, totalDraws: int, exclude: seq<Ticket>)
    returns (before: string)
    requires |main| <= MAX_INT64 && forall k :: 0 <= k < |main| ==> 0 <= main[k] <= MAX_INT64
    requires |bonus| <= MAX_INT64 && forall k :: 0 <= k < |bonus| ==> 0 <= bonus[k] <= MAX_INT64
    ensures var text := PromptText(count, main, bonus, totalDraws, exclude);
            var first := LineBehind(text, "Main " + "number frequency (number:times drawn):\n");
            var second := LineBehind(text, "Bonus " + "number frequency (number:times drawn):\n");
            && first.Some? && TellsCounts(Numbers(first.value), main)
            && second.Some? && TellsCounts(Numbers(second.value), bonus)
            && text == before + ("Propose " + (IntText(count) + " distinct combinations for the next draw.\n"))
  {
    var text := PromptText(count, main, bonus, totalDraws, exclude);
    var rest := GUIDE + (Exclusions(exclude) + Closing(count));
    var list := FrequenciesFrom(bonus, 0);
    MainLine(text, totalDraws, main, BONUS + (list + rest));
    BonusLine(text, totalDraws, main, bonus, rest);
    ListSays(main);
    ListSays(bonus);
    Nested(TOTAL, IntText(totalDraws), MAIN, FrequenciesFrom(main, 0), BONUS, list + rest);
    before := AskingAt(TOTAL + IntText(totalDraws) + MAIN + FrequenciesFrom(main, 0) + BONUS, list, GUIDE,
                       Exclusions(exclude), RULES, IntText(count) + END);
  }
}
