/**
 * What the archive page says, from the outside: which texts number a row, what becomes of a row cell by
 * cell, and a page of draws read back whole.
 */
module Archive {
  import opened Ints
  import opened Options
  import opened Decimal
  import opened Tickets
  import opened Digits
  import opened Pages
  import opened Timelottery

  // ----- the number of a row -----

  /** White space by Unicode: the code points with that property. */
  ghost predicate White(s: string) {
    forall c :: c in s ==>
      || c as int in {0x09, 0x0A, 0x0B, 0x0C, 0x0D, 0x20, 0x85, 0xA0, 0x1680, 0x2028, 0x2029, 0x202F, 0x205F, 0x3000}
      || 0x2000 <= c as int <= 0x200A
  }

  lemma WhiteIsBlank(s: string)
    ensures White(s) <==> Blank(s)
  {
    if White(s) {
      forall i | 0 <= i < |s| ensures IsSpace(s[i]) {
        assert s[i] in s;
      }
    }
  }

  /** The cell text is `t` with white space around it, and `t` spells the number `no`. */
  ghost predicate NumberedBy(first: string, a: string, t: string, c: string, sign: string, zeros: string, no: int) {
    White(a) && White(c) && first == a + t + c && Spells(t, sign, zeros, no)
  }

  /** The text numbers a row: an integer from 1 on that fits 64 bits, white space around it ignored. */
  ghost predicate Numbered(first: string, no: int) {
    1 <= no <= 0x7fff_ffff_ffff_ffff && exists a, t, c, sign, zeros :: NumberedBy(first, a, t, c, sign, zeros, no)
  }

  lemma TrimNothing(t: string)
    requires t != "" && !IsSpace(t[0]) && !IsSpace(t[|t| - 1])
    ensures TrimSpace(t) == t
  {
  }

  lemma {:induction false} TrimLeftParts(s: string) returns (a: string)
    ensures Blank(a) && s == a + TrimLeft(s)
  {
    if s == "" || !IsSpace(s[0]) {
      a := "";
    } else {
      a := TrimLeftParts(s[1..]);
      a := [s[0]] + a;
      assert s == [s[0]] + s[1..];
    }
  }

  lemma {:induction false} TrimRightParts(s: string) returns (c: string)
    ensures Blank(c) && s == TrimRight(s) + c
  {
    if s == "" || !IsSpace(s[|s| - 1]) {
      c := "";
    } else {
      var front := s[..|s| - 1];
      c := TrimRightParts(front);
      c := c + [s[|s| - 1]];
      assert s == front + [s[|s| - 1]];
    }
  }

  lemma SpelledEnds(t: string, sign: string, zeros: string, no: int)
    requires Spells(t, sign, zeros, no)
    ensures t != "" && !IsSpace(t[0]) && !IsSpace(t[|t| - 1])
  {
    var numeral := NatText(if no < 0 then -no else no);
    ZerosInFront(zeros, numeral);
    assert t[|t| - 1] == numeral[|numeral| - 1];
    assert sign == "" ==> t[0] == (zeros + numeral)[0];
    assert sign != "" ==> t[0] == sign[0];
  }

  lemma TrimmedParts(s: string) returns (a: string, c: string)
    ensures White(a) && White(c) && s == a + TrimSpace(s) + c
  {
    a := TrimLeftParts(s);
    c := TrimRightParts(TrimLeft(s));
    WhiteIsBlank(a);
    WhiteIsBlank(c);
    assert s == a + TrimSpace(s) + c;
  }

  lemma RowNoNumbers(first: string, no: int)
    requires RowNo(first) == Some(no)
    ensures Numbered(first, no)
  {
    ParseIntIff(TrimSpace(first), no);
    var sign, zeros :| Spells(TrimSpace(first), sign, zeros, no);
    var a, c := TrimmedParts(first);
    assert NumberedBy(first, a, TrimSpace(first), c, sign, zeros, no);
  }

  lemma NumberedHasRowNo(first: string, a: string, t: string, c: string, sign: string, zeros: string, no: int)
    requires 1 <= no <= 0x7fff_ffff_ffff_ffff && NumberedBy(first, a, t, c, sign, zeros, no)
    ensures RowNo(first) == Some(no)
  {
    WhiteIsBlank(a);
    WhiteIsBlank(c);
    TrimAround(a, t, c);
    SpelledEnds(t, sign, zeros, no);
    TrimNothing(t);
    SpelledParses(t, sign, zeros, no);
  }

  /** A row is numbered exactly by such texts. */
  lemma RowNoIff(first: string, no: int)
    ensures RowNo(first) == Some(no) <==> Numbered(first, no)
  {
    if RowNo(first) == Some(no) {
      RowNoNumbers(first, no);
    }
    if Numbered(first, no) {
      var a, t, c, sign, zeros :| NumberedBy(first, a, t, c, sign, zeros, no);
      NumberedHasRowNo(first, a, t, c, sign, zeros, no);
    }
  }

  // ----- a row by its cells -----

  ghost predicate Hit(f: string -> seq<seq<int>>, cells: seq<string>, off: nat, i: int) {
    off <= i < off + |cells| && f(cells[i - off]) != []
  }

  /** Where `f` finds something in the cells, the first of which is number `off`. */
  ghost function FoundAt(f: string -> seq<seq<int>>, cells: seq<string>, off: nat): set<int> {
    set i | off <= i < off + |cells| && Hit(f, cells, off, i)
  }

  lemma FoundAtOneMore(f: string -> seq<seq<int>>, cells: seq<string>, c: string, off: nat)
    ensures FoundAt(f, cells + [c], off) == FoundAt(f, cells, off) + if f(c) == [] then {} else {off + |cells|}
    ensures off + |cells| !in FoundAt(f, cells, off)
  {
    var more := cells + [c];
    forall i | off <= i < off + |cells| ensures Hit(f, more, off, i) <==> Hit(f, cells, off, i) {
    }
  }

  lemma CollectedOneMore(f: string -> seq<seq<int>>, cells: seq<string>, c: string)
    ensures Collected(f, cells + [c]) == Collected(f, cells) + f(c)
  {
    assert (cells + [c])[..|cells|] == cells;
  }

  lemma {:induction false} CollectedSize(f: string -> seq<seq<int>>, cells: seq<string>, off: nat)
    requires forall c :: |f(c)| <= 1
    ensures |Collected(f, cells)| == |FoundAt(f, cells, off)|
  {
    if cells == [] {
      assert FoundAt(f, cells, off) == {};
    } else {
      var front, c := cells[..|cells| - 1], cells[|cells| - 1];
      assert cells == front + [c];
      FoundAtOneMore(f, front, c, off);
      CollectedOneMore(f, front, c);
      CollectedSize(f, front, off);
      assert |f(c)| <= 1;
    }
  }

  lemma {:induction false} CollectedNothing(f: string -> seq<seq<int>>, cells: seq<string>, off: nat)
    requires FoundAt(f, cells, off) == {}
    ensures Collected(f, cells) == []
  {
    if cells != [] {
      var front, c := cells[..|cells| - 1], cells[|cells| - 1];
      FoundAtOneMore(f, front, c, off);
      CollectedOneMore(f, front, c);
      assert cells == front + [c];
      CollectedNothing(f, front, off);
    }
  }

  /** What is found in one cell only is what that cell holds. */
  lemma {:induction false} CollectedOnce(f: string -> seq<seq<int>>, cells: seq<string>, off: nat, i: int)
    requires FoundAt(f, cells, off) == {i}
    ensures off <= i < off + |cells| && Collected(f, cells) == f(cells[i - off])
  {
    assert i in FoundAt(f, cells, off);
    var front, c := cells[..|cells| - 1], cells[|cells| - 1];
    FoundAtOneMore(f, front, c, off);
    CollectedOneMore(f, front, c);
    assert cells == front + [c];
    if f(c) == [] {
      CollectedOnce(f, front, off, i);
      assert front[i - off] == cells[i - off];
    } else {
      assert off + |front| in FoundAt(f, cells, off);
      assert FoundAt(f, front, off) == {};
      CollectedNothing(f, front, off);
    }
  }

  /** The positions of the cells behind the first that hold exactly eight numbers. */
  ghost function EightAt(cells: seq<string>): set<int> {
    set i | 1 <= i < |cells| && |Numbers(cells[i])| == 8
  }

  lemma EightAtIsFound(cells: seq<string>)
    requires cells != []
    ensures EightAt(cells) == FoundAt(EightsIn(), cells[1..], 1)
  {
    var f, rest := EightsIn(), cells[1..];
    forall i | 1 <= i < |cells| ensures Hit(f, rest, 1, i) <==> |Numbers(cells[i])| == 8 {
      assert rest[i - 1] == cells[i] && f(cells[i]) == EightIn(cells[i]);
    }
  }

  lemma EightsBehind(cells: seq<string>)
    requires cells != []
    ensures |Eights(cells[1..])| == |EightAt(cells)|
  {
    EightAtIsFound(cells);
    CollectedSize(EightsIn(), cells[1..], 1);
  }

  lemma FoundOnceBehind(f: string -> seq<seq<int>>, cells: seq<string>, i: int)
    requires cells != [] && FoundAt(f, cells[1..], 1) == {i}
    ensures 1 <= i < |cells| && Collected(f, cells[1..]) == f(cells[i])
  {
    CollectedOnce(f, cells[1..], 1, i);
    assert cells[1..][i - 1] == cells[i];
  }

  lemma OnlyEightBehind(cells: seq<string>, i: int)
    requires cells != [] && EightAt(cells) == {i}
    ensures 1 <= i < |cells| && |Numbers(cells[i])| == 8 && Eights(cells[1..]) == [Numbers(cells[i])]
  {
    assert i in EightAt(cells);
    EightAtIsFound(cells);
    FoundOnceBehind(EightsIn(), cells, i);
  }

  /** What a row's only eight numbers make of it: a draw, or an issue that says what is wrong with them. */
  ghost predicate JudgedBy(v: Verdict, no: int, main: seq<int>, bonus: int) {
    if Playable(main, bonus) then v == IsDraw(Draw(no, Sorted(main), bonus))
    else PageFault(main, bonus).Some? && v == IsIssue(Issue(no, Invalid(PageFault(main, bonus).value)))
  }

  lemma OneEightJudged(no: int, e: seq<int>)
    requires |e| == 8
    ensures JudgedBy(Judged(no, [e]), no, e[..7], e[7])
  {
    ValidatorsAgree(e[..7], e[7]);
  }

  /**
   * What becomes of a numbered row: it is ignored when no other cell holds exactly eight numbers, reported as
   * ambiguous when several do, and judged by the eight numbers when one does.
   */
  lemma RowLaw(cells: seq<string>, no: int)
    requires cells != [] && Numbered(cells[0], no)
    ensures |EightAt(cells)| == 0 ==> VerdictOf(cells) == Ignored
    ensures |EightAt(cells)| > 1 ==> VerdictOf(cells) == IsIssue(Issue(no, Ambiguous(|EightAt(cells)|)))
    ensures forall i :: EightAt(cells) == {i} ==>
              1 <= i < |cells| && |Numbers(cells[i])| == 8
              && JudgedBy(VerdictOf(cells), no, Numbers(cells[i])[..7], Numbers(cells[i])[7])
  {
    RowNoIff(cells[0], no);
    EightsBehind(cells);
    assert |cells| == 1 ==> cells[1..] == [];
    forall i | EightAt(cells) == {i}
      ensures 1 <= i < |cells| && |Numbers(cells[i])| == 8
              && JudgedBy(VerdictOf(cells), no, Numbers(cells[i])[..7], Numbers(cells[i])[7])
    {
      OnlyEightBehind(cells, i);
      OneEightJudged(no, Numbers(cells[i]));
    }
  }

  /** A row that no text numbers is ignored, and so is one without cells. */
  lemma UnnumberedRow(cells: seq<string>)
    requires cells == [] || forall no :: !Numbered(cells[0], no)
    ensures VerdictOf(cells) == Ignored
  {
    if cells != [] && RowNo(cells[0]).Some? {
      RowNoIff(cells[0], RowNo(cells[0]).value);
    }
  }

  /** A printed number, with any white space around it, numbers a row. */
  lemma PrintedNumber(a: string, no: int, c: string)
    requires White(a) && White(c) && 1 <= no <= 0x7fff_ffff_ffff_ffff
    ensures Numbered(a + IntText(no) + c, no)
  {
    assert "" + ("" + NatText(no)) == IntText(no);
    assert NumberedBy(a + IntText(no) + c, a, IntText(no), c, "", "", no);
  }

  lemma OnlySecond(first: string, text: string, nums: seq<int>)
    requires Numbers(text) == nums && |nums| == 8
    ensures EightAt([first, text]) == {1}
  {
    assert 1 in EightAt([first, text]);
  }

  lemma FormNumbers(numbers: seq<nat>, bonus: nat)
    requires |numbers| == 7 && bonus <= MAX_INT64 && forall n :: n in numbers ==> n <= MAX_INT64
    ensures var nums := Numbers(FormText(numbers + [bonus]));
            |nums| == 8 && nums[..7] == numbers && nums[7] == bonus
  {
    var all := numbers + [bonus];
    forall i | 0 <= i < |all| ensures all[i] <= MAX_INT64 {
      assert i < 7 ==> all[i] in numbers;
    }
    FormRoundTrip(all);
    assert all[..7] == numbers;
  }

  /**
   * A row of a printed number and eight printed numbers is the draw of just that number, seven and bonus if
   * these are playable, and otherwise an issue under that number.
   */
  lemma PrintedRow(a: string, no: int, c: string, numbers: seq<nat>, bonus: nat)
    requires White(a) && White(c) && 1 <= no <= 0x7fff_ffff_ffff_ffff
    requires |numbers| == 7 && bonus <= MAX_INT64 && forall n :: n in numbers ==> n <= MAX_INT64
    ensures JudgedBy(VerdictOf([a + IntText(no) + c, FormText(numbers + [bonus])]), no, numbers, bonus)
  {
    var first, text := a + IntText(no) + c, FormText(numbers + [bonus]);
    PrintedNumber(a, no, c);
    FormNumbers(numbers, bonus);
    OnlySecond(first, text, Numbers(text));
    RowLaw([first, text], no);
  }

  // ----- a whole page -----

  /** A cell of the table, with its tag. */
  datatype Cell = Cell(tag: string, text: string)

  predicate CellTags(row: seq<Cell>) { forall i :: 0 <= i < |row| ==> row[i].tag == "td" || row[i].tag == "th" }

  function TextsIn(row: seq<Cell>): (r: seq<string>)
    ensures |r| == |row| && forall i :: 0 <= i < |r| ==> r[i] == row[i].text
  {
    seq(|row|, i requires 0 <= i < |row| => row[i].text)
  }

  function CellNodes(row: seq<Cell>): seq<Node> {
    if row == [] then [] else [Node(ElementNode, row[0].tag, [Node(TextNode, row[0].text, [])])] + CellNodes(row[1..])
  }

  function RowNodes(rows: seq<seq<Cell>>): seq<Node> {
    if rows == [] then [] else [Node(ElementNode, "tr", CellNodes(rows[0]))] + RowNodes(rows[1..])
  }

  /** A page as the archive serves it: a table of rows of cells in the body of a document. */
  function PageNode(rows: seq<seq<Cell>>): Node {
    var table := Node(ElementNode, "table", [Node(ElementNode, "tbody", RowNodes(rows))]);
    Node(OtherNode, "", [Node(ElementNode, "html", [Node(ElementNode, "body", [table])])])
  }

  lemma CellRead(tag: string, text: string)
    requires tag == "td" || tag == "th"
    ensures var cell := Node(ElementNode, tag, [Node(TextNode, text, [])]);
            IsCell(cell) && TextOf(cell) == text && RowsOf(cell) == []
  {
    var cell := Node(ElementNode, tag, [Text(text)]);
    OneText(text);
    assert TextOf(cell) == "" + TextsOf([Text(text)]);
    assert RowsOf(cell) == [] + RowsIn([Text(text)]);
  }

  lemma {:induction false} CellsRead(row: seq<Cell>)
    requires CellTags(row)
    ensures CellsOf(CellNodes(row)) == TextsIn(row) && RowsIn(CellNodes(row)) == []
  {
    if row != [] {
      var cell := Node(ElementNode, row[0].tag, [Node(TextNode, row[0].text, [])]);
      CellRead(row[0].tag, row[0].text);
      CellsRead(row[1..]);
      OneCell(cell);
      OneNode(cell);
      CellsOfConcat([cell], CellNodes(row[1..]));
      RowsInConcat([cell], CellNodes(row[1..]));
      assert TextsIn(row) == [row[0].text] + TextsIn(row[1..]);
    }
  }

  function AllTexts(rows: seq<seq<Cell>>): (r: seq<seq<string>>)
    ensures |r| == |rows| && forall i :: 0 <= i < |r| ==> r[i] == TextsIn(rows[i])
  {
    seq(|rows|, i requires 0 <= i < |rows| => TextsIn(rows[i]))
  }

  lemma RowRead(row: seq<Cell>)
    requires CellTags(row)
    ensures RowsIn([Node(ElementNode, "tr", CellNodes(row))]) == [TextsIn(row)]
  {
    var tr := Node(ElementNode, "tr", CellNodes(row));
    CellsRead(row);
    OneNode(tr);
    assert RowsOf(tr) == [TextsIn(row)] + RowsIn(CellNodes(row));
  }

  lemma {:induction false} RowsRead(rows: seq<seq<Cell>>)
    requires forall i :: 0 <= i < |rows| ==> CellTags(rows[i])
    ensures RowsIn(RowNodes(rows)) == AllTexts(rows)
  {
    if rows != [] {
      var tr := Node(ElementNode, "tr", CellNodes(rows[0]));
      RowRead(rows[0]);
      RowsRead(rows[1..]);
      RowsInConcat([tr], RowNodes(rows[1..]));
      assert AllTexts(rows) == [TextsIn(rows[0])] + AllTexts(rows[1..]);
    }
  }

  lemma Around(tag: string, children: seq<Node>)
    requires tag != "tr"
    ensures RowsIn([Node(ElementNode, tag, children)]) == RowsIn(children)
  {
    OneNode(Node(ElementNode, tag, children));
    assert RowsOf(Node(ElementNode, tag, children)) == [] + RowsIn(children);
  }

  /** From such a page exactly its rows are read, each as the texts of its cells, from top to bottom. */
  lemma PageRows(rows: seq<seq<Cell>>)
    requires forall i :: 0 <= i < |rows| ==> CellTags(rows[i])
    ensures RowsOf(PageNode(rows)) == AllTexts(rows)
  {
    var tbody := Node(ElementNode, "tbody", RowNodes(rows));
    var table := Node(ElementNode, "table", [tbody]);
    var body := Node(ElementNode, "body", [table]);
    RowsRead(rows);
    Around("tbody", RowNodes(rows));
    Around("table", [tbody]);
    Around("body", [table]);
    Around("html", [body]);
    assert RowsOf(PageNode(rows)) == [] + RowsIn([Node(ElementNode, "html", [body])]);
  }

  /** A draw as a row shows it: its number with white space around, then its seven and its bonus. */
  datatype Shown = Shown(before: string, no: int, after: string, numbers: seq<nat>, bonus: nat)

  /** A draw the table accepts, with a number that fits 64 bits, shown as the edit form prints its numbers. */
  ghost predicate Shows(row: seq<Cell>, d: Shown) {
    && 1 <= d.no <= 0x7fff_ffff_ffff_ffff && Issuable(Ticket(d.numbers, d.bonus))
    && CellTags(row) && White(d.before) && White(d.after)
    && TextsIn(row) == [d.before + IntText(d.no) + d.after, FormText(d.numbers + [d.bonus])]
  }

  lemma ShownIsRead(row: seq<Cell>, d: Shown)
    requires Shows(row, d)
    ensures VerdictOf(TextsIn(row)) == IsDraw(Draw(d.no, d.numbers, d.bonus))
  {
    PrintedRow(d.before, d.no, d.after, d.numbers, d.bonus);
    SortedOfAscending(d.numbers);
  }

  ghost function DrawsShown(shown: seq<Shown>): (r: seq<Draw>)
    ensures |r| == |shown|
    ensures forall i :: 0 <= i < |r| ==> r[i] == Draw(shown[i].no, shown[i].numbers, shown[i].bonus)
  {
    seq(|shown|, i requires 0 <= i < |shown| => Draw(shown[i].no, shown[i].numbers, shown[i].bonus))
  }

  /** Rows of no number: headings, advertisements, anything. */
  ghost predicate SaysNothing(row: seq<Cell>) {
    CellTags(row) && (row == [] || forall no :: !Numbered(row[0].text, no))
  }

  lemma {:induction false} DrawsRead(verdict: seq<string> -> Verdict, rows: seq<seq<string>>, draws: seq<Draw>, k: nat)
    requires |rows| == 1 + |draws| && verdict(rows[0]) == Ignored && k <= |draws|
    requires forall i :: 0 <= i < |draws| ==> verdict(rows[i + 1]) == IsDraw(draws[i])
    ensures DrawsBy(verdict, rows[..k + 1]) == draws[..k] && IssuesBy(verdict, rows[..k + 1]) == []
  {
    OneMoreRow(verdict, rows, k);
    if k == 0 {
      assert rows[..0] == [];
    } else {
      DrawsRead(verdict, rows, draws, k - 1);
      assert verdict(rows[(k - 1) + 1]) == IsDraw(draws[k - 1]);
      assert draws[..k] == draws[..k - 1] + [draws[k - 1]];
    }
  }

  /** A heading, and rows that show the draws. */
  ghost predicate PageShows(rows: seq<seq<Cell>>, shown: seq<Shown>) {
    |rows| == 1 + |shown| && SaysNothing(rows[0]) && forall i :: 0 <= i < |shown| ==> Shows(rows[i + 1], shown[i])
  }

  lemma PageTexts(rows: seq<seq<Cell>>, shown: seq<Shown>)
    requires PageShows(rows, shown)
    ensures RowsOf(PageNode(rows)) == AllTexts(rows)
  {
    forall i | 0 <= i < |rows| ensures CellTags(rows[i]) {
      assert i > 0 ==> Shows(rows[(i - 1) + 1], shown[i - 1]);
    }
    PageRows(rows);
  }

  lemma TextsJudged(rows: seq<seq<Cell>>, shown: seq<Shown>)
    requires PageShows(rows, shown)
    ensures Judging()(AllTexts(rows)[0]) == Ignored
    ensures forall i :: 0 <= i < |shown| ==> Judging()(AllTexts(rows)[i + 1]) == IsDraw(DrawsShown(shown)[i])
  {
    UnnumberedRow(TextsIn(rows[0]));
    forall i | 0 <= i < |shown| ensures Judging()(AllTexts(rows)[i + 1]) == IsDraw(DrawsShown(shown)[i]) {
      ShownIsRead(rows[i + 1], shown[i]);
    }
  }

  /** The archive round trip: a page of a heading and rows that show draws is parsed as just these, in order. */
  lemma PageRoundTrip(rows: seq<seq<Cell>>, shown: seq<Shown>)
    requires PageShows(rows, shown)
    ensures PageOf(RowsOf(PageNode(rows))) == if shown == [] then NothingFound else Found(DrawsShown(shown), [])
  {
    PageTexts(rows, shown);
    TextsJudged(rows, shown);
    DrawsRead(Judging(), AllTexts(rows), DrawsShown(shown), |shown|);
    assert AllTexts(rows)[..|rows|] == AllTexts(rows);
    PageOfDraws(AllTexts(rows), DrawsShown(shown));
  }

  lemma PageOfDraws(rows: seq<seq<string>>, draws: seq<Draw>)
    requires DrawsBy(Judging(), rows) == draws && IssuesBy(Judging(), rows) == []
    ensures PageOf(rows) == if draws == [] then NothingFound else Found(draws, [])
  {
  }

  // ----- any page -----

  /** `out` lists what the rows yield that yield anything, from the top; `at` are their positions. */
  ghost predicate Lists<T>(n: nat, has: nat -> bool, gives: (nat, T) -> bool, at: seq<nat>, out: seq<T>) {
    && |at| == |out|
    && (forall i, j :: 0 <= i < j < |at| ==> at[i] < at[j])
    && (forall i: nat :: i in at <==> i < n && has(i))
    && (forall j :: 0 <= j < |at| ==> gives(at[j], out[j]))
  }

  lemma ListsOn<T>(n: nat, has: nat -> bool, gives: (nat, T) -> bool, at: seq<nat>, out: seq<T>)
    requires Lists(n, has, gives, at, out) && !has(n)
    ensures Lists(n + 1, has, gives, at, out)
  {
  }

  lemma ListsOneMore<T>(n: nat, has: nat -> bool, gives: (nat, T) -> bool, at: seq<nat>, out: seq<T>, x: T)
    requires Lists(n, has, gives, at, out) && has(n) && gives(n, x)
    ensures Lists(n + 1, has, gives, at + [n], out + [x])
  {
    var next := at + [n];
    forall i: nat ensures i in next <==> i < n + 1 && has(i) {
      assert i in next <==> i in at || i == n;
    }
    forall i, j | 0 <= i < j < |next| ensures next[i] < next[j] {
      assert at[i] in at;
    }
  }

  ghost function DrawAt(verdict: seq<string> -> Verdict, rows: seq<seq<string>>): (nat, Draw) -> bool {
    (i: nat, d: Draw) => i < |rows| && verdict(rows[i]) == IsDraw(d)
  }

  ghost function IssueAt(verdict: seq<string> -> Verdict, rows: seq<seq<string>>): (nat, Issue) -> bool {
    (i: nat, issue: Issue) => i < |rows| && verdict(rows[i]) == IsIssue(issue)
  }

  ghost function HasDraw(verdict: seq<string> -> Verdict, rows: seq<seq<string>>): nat -> bool {
    (i: nat) => i < |rows| && verdict(rows[i]).IsDraw?
  }

  ghost function HasIssue(verdict: seq<string> -> Verdict, rows: seq<seq<string>>): nat -> bool {
    (i: nat) => i < |rows| && verdict(rows[i]).IsIssue?
  }

  lemma {:induction false} DrawsListed(verdict: seq<string> -> Verdict, rows: seq<seq<string>>, k: nat)
    returns (at: seq<nat>)
    requires k <= |rows|
    ensures Lists(k, HasDraw(verdict, rows), DrawAt(verdict, rows), at, DrawsBy(verdict, rows[..k]))
  {
    if k == 0 {
      at := [];
    } else {
      var has, gives := HasDraw(verdict, rows), DrawAt(verdict, rows);
      at := DrawsListed(verdict, rows, k - 1);
      OneMoreRow(verdict, rows, k - 1);
      var out, v := DrawsBy(verdict, rows[..k - 1]), verdict(rows[k - 1]);
      if v.IsDraw? {
        ListsOneMore(k - 1, has, gives, at, out, v.draw);
        at := at + [k - 1];
      } else {
        ListsOn(k - 1, has, gives, at, out);
        assert out + [] == out;
      }
    }
  }

  lemma {:induction false} IssuesListed(verdict: seq<string> -> Verdict, rows: seq<seq<string>>, k: nat)
    returns (at: seq<nat>)
    requires k <= |rows|
    ensures Lists(k, HasIssue(verdict, rows), IssueAt(verdict, rows), at, IssuesBy(verdict, rows[..k]))
  {
    if k == 0 {
      at := [];
    } else {
      var has, gives := HasIssue(verdict, rows), IssueAt(verdict, rows);
      at := IssuesListed(verdict, rows, k - 1);
      OneMoreRow(verdict, rows, k - 1);
      var out, v := IssuesBy(verdict, rows[..k - 1]), verdict(rows[k - 1]);
      if v.IsIssue? {
        ListsOneMore(k - 1, has, gives, at, out, v.issue);
        at := at + [k - 1];
      } else {
        ListsOn(k - 1, has, gives, at, out);
        assert out + [] == out;
      }
    }
  }

  /**
   * What any page yields: its draws and its issues, each in the order of their rows; the structural error if and
   * only if there are none of either.
   */
  lemma PageLists(rows: seq<seq<string>>) returns (drawsAt: seq<nat>, issuesAt: seq<nat>)
    ensures PageOf(rows) == if drawsAt == [] && issuesAt == [] then NothingFound
                            else Found(DrawsOf(rows), IssuesOf(rows))
    ensures Lists(|rows|, HasDraw(Judging(), rows), DrawAt(Judging(), rows), drawsAt, DrawsOf(rows))
    ensures Lists(|rows|, HasIssue(Judging(), rows), IssueAt(Judging(), rows), issuesAt, IssuesOf(rows))
  {
    drawsAt := DrawsListed(Judging(), rows, |rows|);
    issuesAt := IssuesListed(Judging(), rows, |rows|);
    assert rows[..|rows|] == rows;
  }
}
