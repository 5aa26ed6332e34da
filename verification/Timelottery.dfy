/** The archive page parser: which table rows are draws, which are issues, which are neither. */
module Timelottery {
  import opened Ints
  import opened Options
  import opened Decimal
  import opened Texts
  import opened Tickets
  import opened Digits
  import opened Pages

  datatype Draw = Draw(no: int, numbers: seq<int>, bonus: int)

  datatype Reason = Ambiguous(cells: nat) | Invalid(fault: Fault)

  datatype Issue = Issue(no: int, reason: Reason)

  datatype Verdict = Ignored | IsDraw(draw: Draw) | IsIssue(issue: Issue)

  /** The outcome of a parse; the reader or the HTML parser failing is `Unreadable`. */
  datatype Page = Unreadable | NothingFound | Found(draws: seq<Draw>, issues: seq<Issue>)

  // ----- strings.TrimSpace -----

  predicate IsSpace(c: char) {
    || '\t' <= c <= '\r' || c == ' ' || c == '\U{85}' || c == '\U{A0}' || c == '\U{1680}'
    || '\U{2000}' <= c <= '\U{200A}' || c == '\U{2028}' || c == '\U{2029}' || c == '\U{202F}'
    || c == '\U{205F}' || c == '\U{3000}'
  }

  predicate Blank(s: string) { forall i :: 0 <= i < |s| ==> IsSpace(s[i]) }

  function TrimLeft(s: string): string {
    if s == [] || !IsSpace(s[0]) then s else TrimLeft(s[1..])
  }

  function TrimRight(s: string): string {
    if s == [] || !IsSpace(s[|s| - 1]) then s else TrimRight(s[..|s| - 1])
  }

  function TrimSpace(s: string): string {
    TrimRight(TrimLeft(s))
  }

  lemma {:induction false} TrimLeftBlank(a: string, s: string)
    requires Blank(a)
    ensures TrimLeft(a + s) == TrimLeft(s)
  {
    if a == [] {
      assert a + s == s;
    } else {
      assert (a + s)[1..] == a[1..] + s;
      TrimLeftBlank(a[1..], s);
    }
  }

  lemma {:induction false} TrimRightBlank(s: string, b: string)
    requires Blank(b)
    ensures TrimRight(s + b) == TrimRight(s)
  {
    if b == [] {
      assert s + b == s;
    } else {
      var c := b[..|b| - 1];
      assert (s + b)[..|s + b| - 1] == s + c;
      TrimRightBlank(s, c);
    }
  }

  lemma {:induction false} TrimLeftKeepsEnd(s: string, b: string)
    requires Blank(b)
    ensures TrimRight(TrimLeft(s + b)) == TrimRight(TrimLeft(s))
  {
    if s == [] {
      TrimLeftBlank(b, []);
      assert s + b == b == b + [];
    } else if IsSpace(s[0]) {
      assert (s + b)[1..] == s[1..] + b;
      TrimLeftKeepsEnd(s[1..], b);
    } else {
      TrimRightBlank(s, b);
    }
  }

  /** White space around a text does not show after trimming. */
  lemma TrimAround(a: string, s: string, b: string)
    requires Blank(a) && Blank(b)
    ensures TrimSpace(a + s + b) == TrimSpace(s)
  {
    Assoc(a, s, b);
    TrimLeftBlank(a, s + b);
    TrimLeftKeepsEnd(s, b);
  }

  // ----- the rows -----

  /** The draw number in a row's first cell: an integer from 1 on. */
  function RowNo(first: string): Option<int> {
    match ParseInt(TrimSpace(first))
    case Some(no) => if no >= 1 then Some(no) else None
    case None => None
  }

  /** What `f` finds in the cells, in order. */
  ghost function Collected(f: string -> seq<seq<int>>, cells: seq<string>): seq<seq<int>> {
    if cells == [] then [] else Collected(f, cells[..|cells| - 1]) + f(cells[|cells| - 1])
  }

  ghost function EightIn(cell: string): (r: seq<seq<int>>)
    ensures forall e :: e in r ==> |e| == 8
  {
    if |Numbers(cell)| == 8 then [Numbers(cell)] else []
  }

  ghost function EightsIn(): string -> seq<seq<int>> { cell => EightIn(cell) }

  /** The number lists of the cells that hold exactly eight numbers. */
  ghost function Eights(cells: seq<string>): (r: seq<seq<int>>)
    ensures forall e :: e in r ==> |e| == 8
  {
    CollectedAre(EightsIn(), cells, 8);
    Collected(EightsIn(), cells)
  }

  lemma {:induction false} CollectedAre(f: string -> seq<seq<int>>, cells: seq<string>, n: nat)
    requires forall c, e :: e in f(c) ==> |e| == n
    ensures forall e :: e in Collected(f, cells) ==> |e| == n
  {
    if cells != [] {
      CollectedAre(f, cells[..|cells| - 1], n);
    }
  }

  lemma OneMoreEight(cells: seq<string>, i: nat)
    requires i < |cells|
    ensures Eights(cells[..i + 1]) == Eights(cells[..i]) + EightIn(cells[i])
  {
    assert cells[..i + 1][..i] == cells[..i];
  }

  /** What becomes of a numbered row, given the eight-number cells behind its first. */
  ghost function Judged(no: int, eights: seq<seq<int>>): Verdict
    requires forall e :: e in eights ==> |e| == 8
  {
    if |eights| == 0 then Ignored
    else if |eights| > 1 then IsIssue(Issue(no, Ambiguous(|eights|)))
    else
      var main := eights[0][..7];
      match PageFault(main, eights[0][7])
      case Some(fault) => IsIssue(Issue(no, Invalid(fault)))
      case None => IsDraw(Draw(no, Sorted(main), eights[0][7]))
  }

  ghost function VerdictOf(cells: seq<string>): Verdict {
    if |cells| < 2 || RowNo(cells[0]).None? then Ignored
    else Judged(RowNo(cells[0]).value, Eights(cells[1..]))
  }

  ghost function Judging(): seq<string> -> Verdict { cells => VerdictOf(cells) }

  ghost function DrawsBy(verdict: seq<string> -> Verdict, rows: seq<seq<string>>): seq<Draw> {
    if rows == [] then []
    else
      var v := verdict(rows[|rows| - 1]);
      DrawsBy(verdict, rows[..|rows| - 1]) + if v.IsDraw? then [v.draw] else []
  }

  ghost function IssuesBy(verdict: seq<string> -> Verdict, rows: seq<seq<string>>): seq<Issue> {
    if rows == [] then []
    else
      var v := verdict(rows[|rows| - 1]);
      IssuesBy(verdict, rows[..|rows| - 1]) + if v.IsIssue? then [v.issue] else []
  }

  lemma OneMoreRow(verdict: seq<string> -> Verdict, rows: seq<seq<string>>, i: nat)
    requires i < |rows|
    ensures var v := verdict(rows[i]);
            && DrawsBy(verdict, rows[..i + 1]) == DrawsBy(verdict, rows[..i]) + (if v.IsDraw? then [v.draw] else [])
            && IssuesBy(verdict, rows[..i + 1]) == IssuesBy(verdict, rows[..i]) + if v.IsIssue? then [v.issue] else []
  {
    assert rows[..i + 1][..i] == rows[..i];
  }

  ghost function DrawsOf(rows: seq<seq<string>>): seq<Draw> { DrawsBy(Judging(), rows) }

  ghost function IssuesOf(rows: seq<seq<string>>): seq<Issue> { IssuesBy(Judging(), rows) }

  ghost function PageOf(rows: seq<seq<string>>): Page {
    if DrawsOf(rows) == [] && IssuesOf(rows) == [] then NothingFound
    else Found(DrawsOf(rows), IssuesOf(rows))
  }

  // ----- the code -----

  /** `numbersCell`: the first cell of eight numbers, as a fresh slice, and how many there are. */
  method NumbersCell(cells: seq<string>) returns (nums: array?<int>, count: nat)
    ensures count == |Eights(cells)|
    ensures count > 0 ==> nums != null && fresh(nums) && nums[..] == Eights(cells)[0] && nums.Length == 8
  {
    nums, count := null, 0;
    for i := 0 to |cells|
      invariant count == |Eights(cells[..i])|
      invariant count > 0 ==> nums != null && fresh(nums) && nums[..] == Eights(cells[..i])[0] && nums.Length == 8
    {
      OneMoreEight(cells, i);
      var ns := ExtractNumbers(cells[i]);
      if |ns| == 8 {
        if count == 0 {
          nums := new int[8](k requires 0 <= k < 8 => ns[k]);
          assert nums[..] == ns;
        }
        count := count + 1;
      }
    }
    assert cells[..|cells|] == cells;
  }

  /**
   * The end of a round: one cell's eight numbers. The seven are a slice of their array: they are sorted in
   * place, and the bonus is read from the same array afterwards.
   */
  method JudgeNumbers(no: int, nums: array<int>) returns (v: Verdict)
    requires nums.Length == 8
    modifies nums
    ensures v == Judged(no, [old(nums[..])])
  {
    ghost var eight := nums[..];
    assert nums[..7] == eight[..7];
    var fault := Validate(nums[..7], nums[7]);
    if fault.Some? {
      return IsIssue(Issue(no, Invalid(fault.value)));
    }
    SortPrefix(nums, 7);
    assert nums[7] == nums[7..][0] == eight[7..][0];
    return IsDraw(Draw(no, nums[..7], nums[7]));
  }

  /** One round of `Parse`'s loop. */
  method ParseRow(cells: seq<string>) returns (v: Verdict)
    ensures v == VerdictOf(cells) == Judging()(cells)
  {
    if |cells| < 2 {
      return Ignored;
    }
    var parsed := ParseInt(TrimSpace(cells[0]));
    if parsed.None? || parsed.value < 1 {
      return Ignored;
    }
    var no := parsed.value;
    var nums, count := NumbersCell(cells[1..]);
    if count == 0 {
      return Ignored;
    }
    if count > 1 {
      return IsIssue(Issue(no, Ambiguous(count)));
    }
    assert Eights(cells[1..]) == [nums[..]];
    v := JudgeNumbers(no, nums);
  }

  /** `Parse`, from the node tree on. */
  method Parse(doc: Option<Node>) returns (page: Page)
    ensures page == match doc case None => Unreadable case Some(n) => PageOf(RowsOf(n))
  {
    if doc.None? {
      return Unreadable;
    }
    var rows := TableRows(doc.value);
    var draws: seq<Draw>, issues: seq<Issue> := [], [];
    ghost var verdict := Judging();
    for i := 0 to |rows|
      invariant draws == DrawsBy(verdict, rows[..i]) && issues == IssuesBy(verdict, rows[..i])
    {
      OneMoreRow(verdict, rows, i);
      var v := ParseRow(rows[i]);
      match v
      case Ignored =>
      case IsDraw(d) => draws := draws + [d];
      case IsIssue(issue) => issues := issues + [issue];
    }
    assert rows[..|rows|] == rows;
    if |draws| == 0 && |issues| == 0 {
      return NothingFound;
    }
    return Found(draws, issues);
  }

  // ----- a row's verdict does not depend on its layout -----

  /** The verdict is a function of the first cell's number and of the eight-number cells as a multiset. */
  lemma VerdictByContent(a: seq<string>, b: seq<string>)
    requires |a| >= 1 && |b| >= 1
    requires RowNo(a[0]) == RowNo(b[0])
    requires multiset(Eights(a[1..])) == multiset(Eights(b[1..]))
    ensures VerdictOf(a) == VerdictOf(b)
  {
    JudgedByContent(Eights(a[1..]), Eights(b[1..]));
    assert |a| == 1 ==> a[1..] == [];
    assert |b| == 1 ==> b[1..] == [];
  }

  lemma JudgedByContent(x: seq<seq<int>>, y: seq<seq<int>>)
    requires multiset(x) == multiset(y)
    ensures |x| == |y| && (|x| == 1 ==> x == y)
  {
    assert |x| == |multiset(x)| == |multiset(y)| == |y|;
    if |x| == 1 {
      assert x[0] in multiset(y);
    }
  }

  lemma {:induction false} CollectedConcat(f: string -> seq<seq<int>>, a: seq<string>, b: seq<string>)
    ensures Collected(f, a + b) == Collected(f, a) + Collected(f, b)
  {
    if b == [] {
      assert a + b == a;
    } else {
      var c := b[..|b| - 1];
      assert (a + b)[..|a + b| - 1] == a + c;
      CollectedConcat(f, a, c);
    }
  }

  lemma CollectedOfOne(f: string -> seq<seq<int>>, cell: string)
    ensures Collected(f, [cell]) == f(cell)
  {
    assert [cell][..0] == [];
  }

  lemma CountsWithout(front: seq<string>, x: string, rest: seq<string>)
    ensures multiset(front + rest) == multiset(front + ([x] + rest)) - multiset{x}
  {
    assert multiset(front + ([x] + rest)) == multiset(front) + multiset{x} + multiset(rest);
  }

  /** The last element of one arrangement, taken out of another: the rests arrange the same elements. */
  lemma TakeOut(a: seq<string>, x: string, b: seq<string>) returns (front: seq<string>, rest: seq<string>)
    requires multiset(a + [x]) == multiset(b)
    ensures b == front + ([x] + rest) && multiset(a) == multiset(front + rest)
  {
    assert x in multiset(a + [x]);
    var j :| 0 <= j < |b| && b[j] == x;
    front, rest := b[..j], b[j + 1..];
    assert b == front + ([x] + rest);
    CountsWithout(front, x, rest);
    CountsWithout(a, x, []);
    assert a + [] == a && [x] + [] == [x];
  }

  lemma CollectedInserted(f: string -> seq<seq<int>>, front: seq<string>, x: string, rest: seq<string>)
    ensures multiset(Collected(f, front + ([x] + rest))) == multiset(Collected(f, front + rest)) + multiset(f(x))
  {
    CollectedConcat(f, front, rest);
    CollectedConcat(f, front, [x] + rest);
    CollectedConcat(f, [x], rest);
    CollectedOfOne(f, x);
  }

  lemma {:induction false} CollectedPermuted(f: string -> seq<seq<int>>, a: seq<string>, b: seq<string>)
    requires multiset(a) == multiset(b)
    ensures multiset(Collected(f, a)) == multiset(Collected(f, b))
  {
    if a == [] {
      assert |b| == |multiset(b)| == 0;
    } else {
      var init, x := a[..|a| - 1], a[|a| - 1];
      assert a == init + [x];
      var front, rest := TakeOut(init, x, b);
      CollectedPermuted(f, init, front + rest);
      CollectedInserted(f, front, x, rest);
    }
  }

  lemma VerdictBehind(first: string, x: seq<string>, y: seq<string>)
    requires multiset(Eights(x)) == multiset(Eights(y))
    ensures VerdictOf([first] + x) == VerdictOf([first] + y)
  {
    assert ([first] + x)[1..] == x && ([first] + y)[1..] == y;
    VerdictByContent([first] + x, [first] + y);
  }

  /** Permuting the cells behind the first changes no verdict. */
  lemma PermutedCells(first: string, a: seq<string>, b: seq<string>)
    requires multiset(a) == multiset(b)
    ensures VerdictOf([first] + a) == VerdictOf([first] + b)
  {
    CollectedPermuted(EightsIn(), a, b);
    VerdictBehind(first, a, b);
  }

  /** Nor does adding, or removing, a cell that does not hold exactly eight numbers. */
  lemma IrrelevantCell(first: string, a: seq<string>, cell: string, b: seq<string>)
    requires |Numbers(cell)| != 8
    ensures VerdictOf([first] + (a + ([cell] + b))) == VerdictOf([first] + (a + b))
  {
    assert EightsIn()(cell) == [];
    CollectedInserted(EightsIn(), a, cell, b);
    VerdictBehind(first, a + ([cell] + b), a + b);
  }

  /** Nor does white space around the draw number. */
  lemma SpacedNumber(a: string, first: string, b: string, cells: seq<string>)
    requires Blank(a) && Blank(b)
    ensures VerdictOf([a + first + b] + cells) == VerdictOf([first] + cells)
  {
    TrimAround(a, first, b);
    VerdictByContent([a + first + b] + cells, [first] + cells);
  }

  /** And on the whole page, the markup inside the cells is irrelevant, in any number of cells. */
  lemma MarkupIsIrrelevant(a: Node, b: Node)
    requires SameTables(a, b)
    ensures PageOf(RowsOf(a)) == PageOf(RowsOf(b))
  {
    SameTablesSameRows(a, b);
  }

  /** An exchange of nodes alike, at any place of any document, changes nothing that is parsed from it. */
  lemma ExchangeIsIrrelevant(p: Place, xs: seq<Node>, ys: seq<Node>)
    requires Alike(xs, ys, InRow(p, false))
    ensures PageOf(RowsOf(Document(Fill(p, xs)))) == PageOf(RowsOf(Document(Fill(p, ys))))
  {
    ExchangeOnPage(p, xs, ys);
  }

  /** In particular, wrapping any part of a cell's content, at any depth below the cell or above the rows. */
  lemma WrappingIsIrrelevant(p: Place, inner: seq<Node>, tag: string)
    requires tag != "tr"
    requires InRow(p, false) ==> tag != "td" && tag != "th" && CellsOf(inner) == []
    ensures PageOf(RowsOf(Document(Fill(p, inner)))) == PageOf(RowsOf(Document(Fill(p, [Element(tag, inner)]))))
  {
    Wrapping(p, inner, tag);
  }

  /** And splitting any text. */
  lemma SplittingIsIrrelevant(p: Place, s: string, t: string)
    ensures PageOf(RowsOf(Document(Fill(p, [Text(s + t)]))))
            == PageOf(RowsOf(Document(Fill(p, [Text(s), Text(t)]))))
  {
    Splitting(p, s, t);
  }

  // ----- what a page yields -----

  ghost function IgnoredBy(verdict: seq<string> -> Verdict, rows: seq<seq<string>>): nat {
    if rows == [] then 0
    else IgnoredBy(verdict, rows[..|rows| - 1]) + if verdict(rows[|rows| - 1]).Ignored? then 1 else 0
  }

  ghost function IgnoredIn(rows: seq<seq<string>>): nat { IgnoredBy(Judging(), rows) }

  lemma {:induction false} OneBucketBy(verdict: seq<string> -> Verdict, rows: seq<seq<string>>)
    ensures |DrawsBy(verdict, rows)| + |IssuesBy(verdict, rows)| + IgnoredBy(verdict, rows) == |rows|
    ensures forall k :: 0 <= k <= |rows| ==>
              DrawsBy(verdict, rows[..k]) <= DrawsBy(verdict, rows)
              && IssuesBy(verdict, rows[..k]) <= IssuesBy(verdict, rows)
  {
    if rows != [] {
      var front := rows[..|rows| - 1];
      OneBucketBy(verdict, front);
      forall k | 0 <= k <= |rows|
        ensures DrawsBy(verdict, rows[..k]) <= DrawsBy(verdict, rows)
                && IssuesBy(verdict, rows[..k]) <= IssuesBy(verdict, rows)
      {
        if k == |rows| {
          assert rows[..k] == rows;
        } else {
          assert rows[..k] == front[..k];
        }
      }
    }
  }

  /** Every row lands in exactly one bucket, and the buckets keep the order of the rows. */
  lemma OneBucketEach(rows: seq<seq<string>>)
    ensures |DrawsOf(rows)| + |IssuesOf(rows)| + IgnoredIn(rows) == |rows|
    ensures forall k :: 0 <= k <= |rows| ==>
              DrawsOf(rows[..k]) <= DrawsOf(rows) && IssuesOf(rows[..k]) <= IssuesOf(rows)
  {
    OneBucketBy(Judging(), rows);
  }

  /** A row is a draw exactly when its number is one, one cell holds eight numbers and they are playable. */
  lemma DrawIff(cells: seq<string>)
    ensures VerdictOf(cells).IsDraw? <==>
            && |cells| >= 2 && RowNo(cells[0]).Some? && |Eights(cells[1..])| == 1
            && Playable(Eights(cells[1..])[0][..7], Eights(cells[1..])[0][7])
  {
    if |cells| >= 2 && |Eights(cells[1..])| == 1 {
      var e := Eights(cells[1..])[0];
      ValidatorsAgree(e[..7], e[7]);
    }
  }

  /** It is an issue when it is numbered and the eight numbers are ambiguous or break the rules; else ignored. */
  lemma IssueIff(cells: seq<string>)
    ensures var numbered := |cells| >= 2 && RowNo(cells[0]).Some?;
            var eights := Eights(if cells == [] then [] else cells[1..]);
            && (VerdictOf(cells).IsIssue? <==>
                  numbered && (|eights| > 1 || (|eights| == 1 && !Playable(eights[0][..7], eights[0][7]))))
            && (VerdictOf(cells).Ignored? <==> !numbered || |eights| == 0)
  {
    if |cells| >= 2 && |Eights(cells[1..])| == 1 {
      var e := Eights(cells[1..])[0];
      ValidatorsAgree(e[..7], e[7]);
    }
  }

  lemma SameSeven(e: seq<int>)
    requires |e| == 8
    ensures multiset(Sorted(e[..7]) + [e[7]]) == multiset(e)
  {
    assert e == e[..7] + [e[7]];
  }

  /** And then the draw has the cell's numbers, the seven sorted, and the table will accept it. */
  lemma DrawIsAcceptable(cells: seq<string>)
    requires VerdictOf(cells).IsDraw?
    ensures var d := VerdictOf(cells).draw;
            && Issuable(Ticket(d.numbers, d.bonus)) && SchemaAccepts(d.no, d.numbers, d.bonus)
            && multiset(d.numbers + [d.bonus]) == multiset(Eights(cells[1..])[0])
  {
    var e := Eights(cells[1..])[0];
    ValidatorsAgree(e[..7], e[7]);
    SortedIsPlayable(e[..7], e[7]);
    ValidatedMeetsSchema(RowNo(cells[0]).value, e[..7], e[7]);
    SameSeven(e);
  }

  /** Every draw on a page is one the table accepts. */
  lemma {:induction false} DrawsAreAcceptable(rows: seq<seq<string>>)
    ensures forall d :: d in DrawsOf(rows) ==>
              Issuable(Ticket(d.numbers, d.bonus)) && SchemaAccepts(d.no, d.numbers, d.bonus)
  {
    if rows != [] {
      DrawsAreAcceptable(rows[..|rows| - 1]);
      if VerdictOf(rows[|rows| - 1]).IsDraw? {
        DrawIsAcceptable(rows[|rows| - 1]);
      }
    }
  }

  /** The edit form accepts a text exactly when the same text makes a numbered row a draw, with the same numbers. */
  lemma FormAndArchiveAgree(first: string, text: string, numbers: seq<int>, bonus: int)
    requires RowNo(first).Some?
    ensures forall x :: x in Runs(text) ==> AllDigits(x)
    ensures Combine(ValueAll(Runs(text))) == Accepted(numbers, bonus)
            <==> VerdictOf([first, text]) == IsDraw(Draw(RowNo(first).value, numbers, bonus))
  {
    TwinsAgree(text, numbers, bonus);
    assert [first, text][1..] == [text];
    CollectedOfOne(EightsIn(), text);
  }
}
