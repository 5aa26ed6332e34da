/** The prompt that asks the model for combinations. */
module Prompt {
  import opened Decimal
  import opened Texts
  import opened Tickets
  import opened Json
  import opened TicketKeys
  import opened Render

  const RULES :=
    "7 distinct main numbers from 1 to 35 in ascending order, plus 1 bonus number from 1 to 54"

  /** `frequencyList`: "1:5, 2:0, ..." from number `i + 1` on. */
  function FrequenciesFrom(freq: seq<int>, i: nat): string
    requires i <= |freq|
    decreases |freq| - i
  {
    if i == |freq| then "\n"
    else EntryStart(i) + (IntText(freq[i]) + FrequenciesFrom(freq, i + 1))
  }

  function EntryStart(i: nat): string { (if i == 0 then "" else ", ") + (IntText(i + 1) + ":") }

  function ExcludeLine(t: Ticket): string { "- " + TicketText(t) + "\n" }

  function ExcludeLines(ts: seq<Ticket>): string {
    if ts == [] then "" else ExcludeLine(ts[0]) + ExcludeLines(ts[1..])
  }

  const TOTAL := "Past draws analyzed: "
  const COUNTS := "number frequency (number:times drawn):\n"
  const MAIN := ".\nMain " + COUNTS
  const BONUS := "Bonus " + COUNTS
  const GUIDE := "Use these frequencies as a soft guide when choosing numbers, and keep your combinations varied.\n"
  // In two parts: the verifier does not find the first character, on which the proofs below turn, in a single
  // literal of this length.
  const ALREADY := "Already " + "proposed combinations (do not repeat them):\n"
  const ASK := "Each combination: " + RULES + ".\nPropose "
  const END := " distinct combinations for the next draw.\n"

  function Exclusions(exclude: seq<Ticket>): string {
    if exclude == [] then "" else ALREADY + ExcludeLines(exclude)
  }

  function Closing(count: int): string { ASK + (IntText(count) + END) }

  function PromptText(count: int, main: seq<int>, bonus: seq<int>, totalDraws: int, exclude: seq<Ticket>): string {
    TOTAL + (IntText(totalDraws)
    + (MAIN + (FrequenciesFrom(main, 0)
    + (BONUS + (FrequenciesFrom(bonus, 0)
    + (GUIDE + (Exclusions(exclude) + Closing(count))))))))
  }

  lemma Write(text: string, part: string, rest: string)
    ensures text + (part + rest) == text + part + rest
  {
  }

  lemma Nested(a: string, b: string, c: string, d: string, e: string, rest: string)
    ensures a + (b + (c + (d + (e + rest)))) == a + b + c + d + e + rest
  {
    Write(a, b, c + (d + (e + rest)));
    Write(a + b, c, d + (e + rest));
    Write(a + b + c, d, e + rest);
    Write(a + b + c + d, e, rest);
  }

  method FrequencyList(freq: seq<int>) returns (text: string)
    ensures text == FrequenciesFrom(freq, 0)
  {
    text := "";
    for i := 0 to |freq|
      invariant text + FrequenciesFrom(freq, i) == FrequenciesFrom(freq, 0)
    {
      Write(text, EntryStart(i), IntText(freq[i]) + FrequenciesFrom(freq, i + 1));
      Write(text + EntryStart(i), IntText(freq[i]), FrequenciesFrom(freq, i + 1));
      text := text + EntryStart(i) + IntText(freq[i]);
    }
    text := text + "\n";
  }

  method ExcludeList(exclude: seq<Ticket>) returns (text: string)
    ensures text == ExcludeLines(exclude)
  {
    text := "";
    for i := 0 to |exclude|
      invariant text + ExcludeLines(exclude[i..]) == ExcludeLines(exclude)
    {
      Assoc(text, ExcludeLine(exclude[i]), ExcludeLines(exclude[i + 1..]));
      assert exclude[i..][1..] == exclude[i + 1..];
      text := text + ExcludeLine(exclude[i]);
    }
  }

  method ComposePrompt(count: int, main: seq<int>, bonus: seq<int>, totalDraws: int, exclude: seq<Ticket>)
    returns (text: string)
    ensures text == PromptText(count, main, bonus, totalDraws, exclude)
  {
    var mainList := FrequencyList(main);
    text := TOTAL + IntText(totalDraws) + MAIN + mainList + BONUS;
    ghost var head := text;
    var bonusList := FrequencyList(bonus);
    text := text + bonusList + GUIDE;
    ghost var excluded := "";
    if |exclude| > 0 {
      var lines := ExcludeList(exclude);
      text := text + (ALREADY + lines);
      excluded := ALREADY + lines;
    } else {
      assert text + "" == text;
    }
    assert text == head + bonusList + GUIDE + excluded;
    text := text + ASK + IntText(count) + END;
    Nested(head, bonusList, GUIDE, excluded, ASK, IntText(count) + END);
    Write(head + bonusList + GUIDE + excluded + ASK, IntText(count), END);
    Nested(TOTAL, IntText(totalDraws), MAIN, mainList, BONUS, bonusList + (GUIDE + (excluded + Closing(count))));
  }

  /** The exclude lines determine the tickets listed: each line holds its ticket's own JSON object. */
  lemma {:induction false} ExcludeLinesInjective(a: seq<Ticket>, b: seq<Ticket>, x: string, y: string)
    requires forall i :: 0 <= i < |a| ==> Issuable(a[i])
    requires forall i :: 0 <= i < |b| ==> Issuable(b[i])
    requires StartsWith(x, 'E') && StartsWith(y, 'E')
    requires ExcludeLines(a) + x == ExcludeLines(b) + y
    ensures a == b && x == y
    decreases |a|
  {
    LinesHead(a, x);
    LinesHead(b, y);
    if a == [] {
      assert ExcludeLines(a) + x == x && ExcludeLines(b) + y == y;
    } else {
      SameFirstLine(a, b, x, y);
      ExcludeLinesInjective(a[1..], b[1..], x, y);
      assert a == [a[0]] + a[1..] && b == [b[0]] + b[1..];
    }
  }

  lemma SameFirstLine(a: seq<Ticket>, b: seq<Ticket>, x: string, y: string)
    requires a != [] && b != [] && Issuable(a[0]) && Issuable(b[0])
    requires ExcludeLines(a) + x == ExcludeLines(b) + y
    ensures a[0] == b[0] && ExcludeLines(a[1..]) + x == ExcludeLines(b[1..]) + y
  {
    FirstLine(a, x);
    FirstLine(b, y);
    IssuableDecodes(a[0]);
    IssuableDecodes(b[0]);
    assert [a[0]][0] == [b[0]][0];
    SameTail("\n", ExcludeLines(a[1..]) + x, ExcludeLines(b[1..]) + y);
  }

  lemma SameTail(h: string, u: string, v: string)
    requires h + u == h + v
    ensures u == v
  {
    assert (h + u)[|h|..] == u && (h + v)[|h|..] == v;
  }

  lemma LinesHead(a: seq<Ticket>, x: string)
    requires StartsWith(x, 'E')
    ensures (ExcludeLines(a) + x)[0] == if a == [] then 'E' else '-'
  {
    if a == [] { assert ExcludeLines(a) + x == x; }
  }

  lemma FirstLine(a: seq<Ticket>, x: string)
    requires a != []
    ensures var s := ExcludeLines(a) + x;
            |s| > 2 && ReadValue(s[2..], 0) == Got(TicketJson(a[0]), "\n" + (ExcludeLines(a[1..]) + x))
  {
    var u := ExcludeLines(a[1..]) + x;
    LineText(TicketText(a[0]), ExcludeLines(a[1..]), x);
    ReadTicket(a[0], "\n" + u);
  }

  lemma LineText(t: string, rest: string, x: string)
    ensures var s := "- " + t + "\n" + rest + x; |s| > 2 && s[2..] == t + ("\n" + (rest + x))
  {
    assert "- " + t + "\n" + rest + x == "- " + (t + ("\n" + (rest + x)));
  }

  // ----- the prompt can be read back -----

  /** A number and what follows it, told apart. */
  lemma SameNumber(a: int, b: int, u: string, v: string)
    requires u != [] && !NumberChar(u[0]) && v != [] && !NumberChar(v[0])
    requires IntText(a) + u == IntText(b) + v
    ensures a == b && u == v
  {
    SameToken(IntText(a), IntText(b), u, v);
    IntTextInjective(a, b);
  }

  lemma FrequencyParts(freq: seq<int>, i: nat, x: string)
    requires i < |freq|
    ensures FrequenciesFrom(freq, i) + x == EntryStart(i) + (IntText(freq[i]) + (FrequenciesFrom(freq, i + 1) + x))
  {
    Write(EntryStart(i), IntText(freq[i]) + FrequenciesFrom(freq, i + 1), x);
    Write(IntText(freq[i]), FrequenciesFrom(freq, i + 1), x);
  }

  /** What a frequency list starts with, from number `i + 1` on. */
  lemma FrequencyFirst(freq: seq<int>, i: nat, x: string)
    requires i <= |freq|
    ensures var s := FrequenciesFrom(freq, i) + x;
            s != [] && (s[0] == '\n' <==> i == |freq|) && (i > 0 ==> !NumberChar(s[0]))
  {
    if i < |freq| {
      assert NumberChar(IntText(i + 1)[0]);
      assert EntryStart(i)[0] == if i == 0 then IntText(1)[0] else ',';
    }
  }

  lemma SameFrom(a: seq<int>, b: seq<int>, i: nat)
    requires i < |a| && i < |b| && a[i] == b[i] && a[i + 1..] == b[i + 1..]
    ensures a[i..] == b[i..]
  {
    assert a[i..] == [a[i]] + a[i + 1..] && b[i..] == [b[i]] + b[i + 1..];
  }

  lemma SameEnd(a: seq<int>, b: seq<int>, i: nat, x: string, y: string)
    requires i <= |a| && i <= |b|
    requires FrequenciesFrom(a, i) + x == FrequenciesFrom(b, i) + y
    ensures i == |a| <==> i == |b|
  {
    FrequencyFirst(a, i, x);
    FrequencyFirst(b, i, y);
  }

  /** The frequency lists determine the counts. */
  lemma {:induction false} FrequenciesInjective(a: seq<int>, b: seq<int>, i: nat, x: string, y: string)
    requires i <= |a| && i <= |b|
    requires FrequenciesFrom(a, i) + x == FrequenciesFrom(b, i) + y
    ensures a[i..] == b[i..] && x == y
    decreases |a| - i
  {
    SameEnd(a, b, i, x, y);
    if i == |a| {
      SameTail("\n", x, y);
    } else {
      SameEntry(a, b, i, x, y);
      FrequenciesInjective(a, b, i + 1, x, y);
      SameFrom(a, b, i);
    }
  }

  lemma SameEntry(a: seq<int>, b: seq<int>, i: nat, x: string, y: string)
    requires i < |a| && i < |b|
    requires FrequenciesFrom(a, i) + x == FrequenciesFrom(b, i) + y
    ensures a[i] == b[i] && FrequenciesFrom(a, i + 1) + x == FrequenciesFrom(b, i + 1) + y
  {
    var u, v := FrequenciesFrom(a, i + 1) + x, FrequenciesFrom(b, i + 1) + y;
    FrequencyParts(a, i, x);
    FrequencyParts(b, i, y);
    SameTail(EntryStart(i), IntText(a[i]) + u, IntText(b[i]) + v);
    FrequencyFirst(a, i + 1, x);
    FrequencyFirst(b, i + 1, y);
    SameNumber(a[i], b[i], u, v);
  }

  lemma ExclusionsInjective(e: seq<Ticket>, f: seq<Ticket>, x: string, y: string)
    requires forall i :: 0 <= i < |e| ==> Issuable(e[i])
    requires forall i :: 0 <= i < |f| ==> Issuable(f[i])
    requires StartsWith(x, 'E') && StartsWith(y, 'E')
    requires Exclusions(e) + x == Exclusions(f) + y
    ensures e == f && x == y
  {
    ExclusionsHead(e, x);
    ExclusionsHead(f, y);
    if e != [] {
      Assoc(ALREADY, ExcludeLines(e), x);
      Assoc(ALREADY, ExcludeLines(f), y);
      SameTail(ALREADY, ExcludeLines(e) + x, ExcludeLines(f) + y);
      ExcludeLinesInjective(e, f, x, y);
    } else {
      assert "" + x == x && "" + y == y;
    }
  }

  lemma ExclusionsHead(e: seq<Ticket>, x: string)
    requires StartsWith(x, 'E')
    ensures (Exclusions(e) + x)[0] == if e == [] then 'E' else 'A'
  {
    assert ALREADY[0] == 'A';
  }

  lemma ClosingInjective(c: int, d: int)
    requires Closing(c) == Closing(d)
    ensures c == d
  {
    SameTail(ASK, IntText(c) + END, IntText(d) + END);
    assert END[0] == ' ';
    SameNumber(c, d, END, END);
  }

  lemma TotalInjective(m: int, n: int, u: string, v: string)
    requires TOTAL + (IntText(m) + (MAIN + u)) == TOTAL + (IntText(n) + (MAIN + v))
    ensures m == n && u == v
  {
    SameTail(TOTAL, IntText(m) + (MAIN + u), IntText(n) + (MAIN + v));
    assert MAIN[0] == '.';
    SameNumber(m, n, MAIN + u, MAIN + v);
    SameTail(MAIN, u, v);
  }

  /**
   * Nothing is lost in a prompt: two prompts are the same text only if they ask for the same number of
   * tickets, over the same statistics, and exclude the same tickets in the same order.
   */
  lemma PromptInjective(c: int, main: seq<int>, bonus: seq<int>, total: int, e: seq<Ticket>,
                        d: int, main': seq<int>, bonus': seq<int>, total': int, f: seq<Ticket>)
    requires forall i :: 0 <= i < |e| ==> Issuable(e[i])
    requires forall i :: 0 <= i < |f| ==> Issuable(f[i])
    ensures PromptText(c, main, bonus, total, e) == PromptText(d, main', bonus', total', f)
            ==> c == d && main == main' && bonus == bonus' && total == total' && e == f
  {
    if PromptText(c, main, bonus, total, e) == PromptText(d, main', bonus', total', f) {
      var x, y := Exclusions(e) + Closing(c), Exclusions(f) + Closing(d);
      var b, b' := FrequenciesFrom(bonus, 0) + (GUIDE + x), FrequenciesFrom(bonus', 0) + (GUIDE + y);
      TotalInjective(total, total', FrequenciesFrom(main, 0) + (BONUS + b), FrequenciesFrom(main', 0) + (BONUS + b'));
      FrequenciesInjective(main, main', 0, BONUS + b, BONUS + b');
      SameTail(BONUS, b, b');
      FrequenciesInjective(bonus, bonus', 0, GUIDE + x, GUIDE + y);
      SameTail(GUIDE, x, y);
      ClosingHead(c);
      ClosingHead(d);
      ExclusionsInjective(e, f, Closing(c), Closing(d));
      ClosingInjective(c, d);
      assert main[0..] == main && main'[0..] == main' && bonus[0..] == bonus && bonus'[0..] == bonus';
    }
  }

  lemma ClosingHead(c: int)
    ensures StartsWith(Closing(c), 'E')
  {
    assert ASK[0] == 'E';
  }
}
