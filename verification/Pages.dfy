/** The archive page as a node tree: flattened to the cell texts of its table rows. */
module Pages {

  datatype Kind = ElementNode | TextNode | OtherNode

  /** A node of the parsed document; `data` is the tag of an element and the text of a text node. */
  datatype Node = Node(kind: Kind, data: string, children: seq<Node>)

  function Element(tag: string, children: seq<Node>): Node {
    Node(ElementNode, tag, children)
  }

  function Text(data: string): Node {
    Node(TextNode, data, [])
  }

  predicate IsRow(n: Node) { n.kind == ElementNode && n.data == "tr" }

  predicate IsCell(n: Node) { n.kind == ElementNode && (n.data == "td" || n.data == "th") }

  // ----- what the visits collect -----

  function OwnText(n: Node): string {
    if n.kind == TextNode then n.data else ""
  }

  /** The text nodes below and at `n`, in document order. */
  function TextOf(n: Node): string
    decreases n
  {
    OwnText(n) + TextsOf(n.children)
  }

  function TextsOf(ns: seq<Node>): string
    decreases ns
  {
    if ns == [] then "" else TextOf(ns[0]) + TextsOf(ns[1..])
  }

  /** The texts of a row's cells: its children only, not deeper ones. */
  function CellsOf(ns: seq<Node>): seq<string> {
    if ns == [] then []
    else (if IsCell(ns[0]) then [TextOf(ns[0])] else []) + CellsOf(ns[1..])
  }

  function OwnRow(n: Node): seq<seq<string>> {
    if IsRow(n) then [CellsOf(n.children)] else []
  }

  /** All rows at and below `n`, an outer row before the rows nested in it. */
  function RowsOf(n: Node): seq<seq<string>>
    decreases n
  {
    OwnRow(n) + RowsIn(n.children)
  }

  function RowsIn(ns: seq<Node>): seq<seq<string>>
    decreases ns
  {
    if ns == [] then [] else RowsOf(ns[0]) + RowsIn(ns[1..])
  }

  lemma {:induction false} TextsOfConcat(a: seq<Node>, b: seq<Node>)
    ensures TextsOf(a + b) == TextsOf(a) + TextsOf(b)
  {
    if a == [] {
      assert a + b == b;
    } else {
      assert (a + b)[0] == a[0] && (a + b)[1..] == a[1..] + b;
      TextsOfConcat(a[1..], b);
    }
  }

  lemma {:induction false} RowsInConcat(a: seq<Node>, b: seq<Node>)
    ensures RowsIn(a + b) == RowsIn(a) + RowsIn(b)
  {
    if a == [] {
      assert a + b == b;
    } else {
      assert (a + b)[0] == a[0] && (a + b)[1..] == a[1..] + b;
      RowsInConcat(a[1..], b);
    }
  }

  lemma {:induction false} CellsOfConcat(a: seq<Node>, b: seq<Node>)
    ensures CellsOf(a + b) == CellsOf(a) + CellsOf(b)
  {
    if a == [] {
      assert a + b == b;
    } else {
      assert (a + b)[0] == a[0] && (a + b)[1..] == a[1..] + b;
      CellsOfConcat(a[1..], b);
    }
  }

  /** Where rows, cells and texts come from, node by node: an outer row stands before those inside it. */
  lemma NodeByNode(kind: Kind, data: string, children: seq<Node>, rest: seq<Node>)
    ensures var n := Node(kind, data, children);
            && RowsIn([n] + rest) ==
               (if kind == ElementNode && data == "tr" then [CellsOf(children)] else [])
               + RowsIn(children) + RowsIn(rest)
            && CellsOf([n] + rest) ==
               (if kind == ElementNode && (data == "td" || data == "th") then [TextsOf([n])] else []) + CellsOf(rest)
            && TextsOf([n] + rest) == (if kind == TextNode then data else "") + TextsOf(children) + TextsOf(rest)
  {
    var n := Node(kind, data, children);
    OneNode(n);
    OneCell(n);
    RowsInConcat([n], rest);
    CellsOfConcat([n], rest);
    TextsOfConcat([n], rest);
  }

  lemma OneNode(n: Node)
    ensures TextsOf([n]) == TextOf(n) && RowsIn([n]) == RowsOf(n)
  {
    assert TextsOf([n]) == TextOf(n) + TextsOf([]);
    assert RowsIn([n]) == RowsOf(n) + RowsIn([]);
  }

  lemma OneCell(n: Node)
    ensures CellsOf([n]) == if IsCell(n) then [TextOf(n)] else []
  {
    assert CellsOf([n]) == (if IsCell(n) then [TextOf(n)] else []) + CellsOf([]);
  }

  lemma Regroup<T>(a: seq<T>, b: seq<T>, c: seq<T>, d: seq<T>)
    ensures a + (b + c) + d == a + (b + (c + d))
  {
  }

  lemma OneMoreText(was: string, n: Node, i: nat)
    requires i < |n.children|
    ensures was + (OwnText(n) + TextsOf(n.children[..i])) + TextOf(n.children[i])
            == was + (OwnText(n) + TextsOf(n.children[..i + 1]))
  {
    var ns := n.children;
    assert ns[..i + 1] == ns[..i] + [ns[i]];
    TextsOfConcat(ns[..i], [ns[i]]);
    OneNode(ns[i]);
    Regroup(was, OwnText(n), TextsOf(ns[..i]), TextOf(ns[i]));
  }

  lemma OneMoreRows(was: seq<seq<string>>, n: Node, i: nat)
    requires i < |n.children|
    ensures was + (OwnRow(n) + RowsIn(n.children[..i])) + RowsOf(n.children[i])
            == was + (OwnRow(n) + RowsIn(n.children[..i + 1]))
  {
    var ns := n.children;
    assert ns[..i + 1] == ns[..i] + [ns[i]];
    RowsInConcat(ns[..i], [ns[i]]);
    OneNode(ns[i]);
    Regroup(was, OwnRow(n), RowsIn(ns[..i]), RowsOf(ns[i]));
  }

  lemma OneMoreCell(ns: seq<Node>, i: nat)
    requires i < |ns|
    ensures CellsOf(ns[..i + 1]) == CellsOf(ns[..i]) + if IsCell(ns[i]) then [TextOf(ns[i])] else []
  {
    assert ns[..i + 1] == ns[..i] + [ns[i]];
    CellsOfConcat(ns[..i], [ns[i]]);
    OneCell(ns[i]);
  }

  // ----- the visits -----

  /** The builder that `nodeText` lets its visit write to. */
  class TextBuilder {
    var text: string

    constructor ()
      ensures text == ""
    {
      text := "";
    }

    method Visit(n: Node)
      modifies this
      ensures text == old(text) + TextOf(n)
      decreases n
    {
      ghost var was := text;
      if n.kind == TextNode {
        text := text + n.data;
      }
      for i := 0 to |n.children|
        invariant text == was + (OwnText(n) + TextsOf(n.children[..i]))
      {
        OneMoreText(was, n, i);
        Visit(n.children[i]);
      }
      assert n.children[..|n.children|] == n.children;
    }
  }

  /** `nodeText`. */
  method NodeText(n: Node) returns (text: string)
    ensures text == TextOf(n)
  {
    var b := new TextBuilder();
    b.Visit(n);
    return b.text;
  }

  /** `rowCells`. */
  method RowCells(tr: Node) returns (out: seq<string>)
    ensures out == CellsOf(tr.children)
  {
    out := [];
    for i := 0 to |tr.children|
      invariant out == CellsOf(tr.children[..i])
    {
      OneMoreCell(tr.children, i);
      var c := tr.children[i];
      if c.kind == ElementNode && (c.data == "td" || c.data == "th") {
        var text := NodeText(c);
        out := out + [text];
      }
    }
    assert tr.children[..|tr.children|] == tr.children;
  }

  /** The list that `tableRows` lets its visit append to. */
  class RowList {
    var rows: seq<seq<string>>

    constructor ()
      ensures rows == []
    {
      rows := [];
    }

    method Visit(n: Node)
      modifies this
      ensures rows == old(rows) + RowsOf(n)
      decreases n
    {
      ghost var was := rows;
      if n.kind == ElementNode && n.data == "tr" {
        var cells := RowCells(n);
        rows := rows + [cells];
      }
      for i := 0 to |n.children|
        invariant rows == was + (OwnRow(n) + RowsIn(n.children[..i]))
      {
        OneMoreRows(was, n, i);
        Visit(n.children[i]);
      }
      assert n.children[..|n.children|] == n.children;
    }
  }

  /** `tableRows`. */
  method TableRows(n: Node) returns (rows: seq<seq<string>>)
    ensures rows == RowsOf(n)
  {
    var l := new RowList();
    l.Visit(n);
    return l.rows;
  }

  // ----- independence from markup inside the cells -----

  /**
   * Two trees that differ only inside cells, and there only in the markup: a cell may be rebuilt in any
   * way that keeps its flat text and the rows of tables nested in it.
   */
  ghost predicate SameTables(a: Node, b: Node)
    decreases a
  {
    && a.kind == b.kind && a.data == b.data
    && ((IsCell(a) && TextsOf(a.children) == TextsOf(b.children) && RowsIn(a.children) == RowsIn(b.children))
        || AllSameTables(a.children, b.children))
  }

  ghost predicate AllSameTables(a: seq<Node>, b: seq<Node>)
    decreases a
  {
    |a| == |b| && (a == [] || (SameTables(a[0], b[0]) && AllSameTables(a[1..], b[1..])))
  }

  /** Such trees have the same table rows. */
  lemma {:induction false} SameTablesSameRows(a: Node, b: Node)
    requires SameTables(a, b)
    ensures TextOf(a) == TextOf(b) && RowsOf(a) == RowsOf(b)
    decreases a
  {
    if AllSameTables(a.children, b.children) {
      AllSameRows(a.children, b.children);
    }
  }

  lemma {:induction false} AllSameRows(a: seq<Node>, b: seq<Node>)
    requires AllSameTables(a, b)
    ensures TextsOf(a) == TextsOf(b) && RowsIn(a) == RowsIn(b) && CellsOf(a) == CellsOf(b)
    decreases a
  {
    if a != [] {
      SameTablesSameRows(a[0], b[0]);
      AllSameRows(a[1..], b[1..]);
    }
  }

  // ----- a place in a page, and an exchange there -----

  /** Where some nodes stand: among siblings, below any number of nodes that have siblings of their own. */
  datatype Place =
    | Here(before: seq<Node>, after: seq<Node>)
    | Under(before: seq<Node>, kind: Kind, data: string, inner: Place, after: seq<Node>)

  function Fill(p: Place, xs: seq<Node>): seq<Node> {
    match p
    case Here(before, after) => before + xs + after
    case Under(before, kind, data, inner, after) => before + [Node(kind, data, Fill(inner, xs))] + after
  }

  /** The nodes filled in are children of a row; `top` says it of the outermost level. */
  predicate InRow(p: Place, top: bool) {
    match p
    case Here(_, _) => top
    case Under(_, kind, data, inner, _) => InRow(inner, kind == ElementNode && data == "tr")
  }

  /** Some node above the place is a cell. */
  predicate InCell(p: Place) {
    match p
    case Here(_, _) => false
    case Under(_, kind, data, inner, _) => (kind == ElementNode && (data == "td" || data == "th")) || InCell(inner)
  }

  /** What a document is, as the parser returns it. */
  function Document(children: seq<Node>): Node { Node(OtherNode, "", children) }

  /** Equal for all that is read off them: text and rows, and cells where they are children of a row. */
  ghost predicate Alike(xs: seq<Node>, ys: seq<Node>, row: bool) {
    TextsOf(xs) == TextsOf(ys) && RowsIn(xs) == RowsIn(ys) && (row ==> CellsOf(xs) == CellsOf(ys))
  }

  lemma AlikeAmong(before: seq<Node>, xs: seq<Node>, ys: seq<Node>, after: seq<Node>, row: bool)
    requires Alike(xs, ys, row)
    ensures Alike(before + xs + after, before + ys + after, row)
  {
    AlikeBehind(before, xs, ys, row);
    AlikeBefore(before + xs, before + ys, after, row);
  }

  lemma AlikeBehind(before: seq<Node>, xs: seq<Node>, ys: seq<Node>, row: bool)
    requires Alike(xs, ys, row)
    ensures Alike(before + xs, before + ys, row)
  {
    TextsOfConcat(before, xs);
    TextsOfConcat(before, ys);
    RowsInConcat(before, xs);
    RowsInConcat(before, ys);
    CellsOfConcat(before, xs);
    CellsOfConcat(before, ys);
  }

  lemma AlikeBefore(xs: seq<Node>, ys: seq<Node>, after: seq<Node>, row: bool)
    requires Alike(xs, ys, row)
    ensures Alike(xs + after, ys + after, row)
  {
    TextsOfConcat(xs, after);
    TextsOfConcat(ys, after);
    RowsInConcat(xs, after);
    RowsInConcat(ys, after);
    CellsOfConcat(xs, after);
    CellsOfConcat(ys, after);
  }

  lemma AlikeNodes(kind: Kind, data: string, xs: seq<Node>, ys: seq<Node>)
    requires Alike(xs, ys, kind == ElementNode && data == "tr")
    ensures Alike([Node(kind, data, xs)], [Node(kind, data, ys)], true)
  {
    var m, n := Node(kind, data, xs), Node(kind, data, ys);
    OneNode(m);
    OneNode(n);
    OneCell(m);
    OneCell(n);
    assert TextOf(m) == OwnText(m) + TextsOf(xs) && TextOf(n) == OwnText(n) + TextsOf(ys);
    assert RowsOf(m) == OwnRow(m) + RowsIn(xs) && RowsOf(n) == OwnRow(n) + RowsIn(ys);
  }

  /** Nodes alike may be exchanged at any place, at any depth. */
  lemma {:induction false} ExchangeAnywhere(p: Place, xs: seq<Node>, ys: seq<Node>, top: bool)
    requires Alike(xs, ys, InRow(p, top))
    ensures Alike(Fill(p, xs), Fill(p, ys), top)
  {
    match p
    case Here(before, after) =>
      AlikeAmong(before, xs, ys, after, top);
    case Under(before, kind, data, inner, after) =>
      ExchangeAnywhere(inner, xs, ys, kind == ElementNode && data == "tr");
      AlikeNodes(kind, data, Fill(inner, xs), Fill(inner, ys));
      AlikeAmong(before, [Node(kind, data, Fill(inner, xs))], [Node(kind, data, Fill(inner, ys))], after, true);
  }

  /** On a whole document. */
  lemma ExchangeOnPage(p: Place, xs: seq<Node>, ys: seq<Node>)
    requires Alike(xs, ys, InRow(p, false))
    ensures RowsOf(Document(Fill(p, xs))) == RowsOf(Document(Fill(p, ys)))
  {
    ExchangeAnywhere(p, xs, ys, false);
  }

  // ----- the exchange inside a cell is a difference inside a cell -----

  lemma {:induction false} SameAsItself(n: Node)
    ensures SameTables(n, n)
    decreases n
  {
    AllSameAsThemselves(n.children);
  }

  lemma {:induction false} AllSameAsThemselves(ns: seq<Node>)
    ensures AllSameTables(ns, ns)
    decreases ns
  {
    if ns != [] {
      SameAsItself(ns[0]);
      AllSameAsThemselves(ns[1..]);
    }
  }

  lemma {:induction false} AllSameConcat(a: seq<Node>, b: seq<Node>, c: seq<Node>, d: seq<Node>)
    requires AllSameTables(a, b) && AllSameTables(c, d)
    ensures AllSameTables(a + c, b + d)
  {
    if a == [] {
      assert a + c == c && b + d == d;
    } else {
      AllSameConcat(a[1..], b[1..], c, d);
      assert (a + c)[1..] == a[1..] + c && (b + d)[1..] == b[1..] + d;
    }
  }

  lemma OneSameAmong(before: seq<Node>, m: Node, n: Node, after: seq<Node>)
    requires SameTables(m, n)
    ensures AllSameTables(before + [m] + after, before + [n] + after)
  {
    AllSameAsThemselves(before);
    AllSameAsThemselves(after);
    assert AllSameTables([m], [n]);
    AllSameConcat(before, before, [m], [n]);
    AllSameConcat(before + [m], before + [n], after, after);
  }

  /** Pages that differ by such an exchange somewhere inside a cell are related as above. */
  lemma {:induction false} ExchangeInCell(p: Place, xs: seq<Node>, ys: seq<Node>)
    requires InCell(p) && Alike(xs, ys, InRow(p, false))
    ensures AllSameTables(Fill(p, xs), Fill(p, ys))
  {
    var m, n := Node(p.kind, p.data, Fill(p.inner, xs)), Node(p.kind, p.data, Fill(p.inner, ys));
    if IsCell(m) {
      ExchangeAnywhere(p.inner, xs, ys, false);
    } else {
      assert InRow(p.inner, false) == InRow(p.inner, true);
      ExchangeInCell(p.inner, xs, ys);
    }
    OneSameAmong(p.before, m, n, p.after);
  }

  // ----- wrapping and splitting -----

  lemma OneWrapper(tag: string, inner: seq<Node>)
    requires tag != "tr"
    ensures TextsOf(inner) == TextsOf([Element(tag, inner)])
    ensures RowsIn(inner) == RowsIn([Element(tag, inner)])
  {
    var e := Element(tag, inner);
    OneNode(e);
    assert TextOf(e) == "" + TextsOf(inner);
    assert RowsOf(e) == [] + RowsIn(inner);
  }

  /**
   * Wrapping nodes in an element that is no row is such an exchange: at any place but among the cells of
   * a row, and there too for nodes that hold no cell, if the element is none.
   */
  lemma Wrapping(p: Place, inner: seq<Node>, tag: string)
    requires tag != "tr"
    requires InRow(p, false) ==> tag != "td" && tag != "th" && CellsOf(inner) == []
    ensures RowsOf(Document(Fill(p, inner))) == RowsOf(Document(Fill(p, [Element(tag, inner)])))
  {
    OneWrapper(tag, inner);
    OneCell(Element(tag, inner));
    ExchangeOnPage(p, inner, [Element(tag, inner)]);
  }

  /** So is splitting a text node in two, at any place. */
  lemma Splitting(p: Place, s: string, t: string)
    ensures RowsOf(Document(Fill(p, [Text(s + t)]))) == RowsOf(Document(Fill(p, [Text(s), Text(t)])))
  {
    TwoTexts(s, t);
    ExchangeOnPage(p, [Text(s + t)], [Text(s), Text(t)]);
  }

  lemma TwoTexts(s: string, t: string)
    ensures TextsOf([Text(s + t)]) == TextsOf([Text(s), Text(t)])
    ensures RowsIn([Text(s + t)]) == RowsIn([Text(s), Text(t)])
    ensures CellsOf([Text(s + t)]) == CellsOf([Text(s), Text(t)])
  {
    CellsOfConcat([Text(s)], [Text(t)]);
    OneCell(Text(s));
    OneCell(Text(t));
    OneCell(Text(s + t));
    assert [Text(s), Text(t)] == [Text(s)] + [Text(t)];
    TextsOfConcat([Text(s)], [Text(t)]);
    RowsInConcat([Text(s)], [Text(t)]);
    OneText(s);
    OneText(t);
    OneText(s + t);
  }

  lemma OneText(s: string)
    ensures TextsOf([Text(s)]) == s && RowsIn([Text(s)]) == []
  {
    OneNode(Text(s));
    assert TextOf(Text(s)) == s + TextsOf([]);
    assert RowsOf(Text(s)) == [] + RowsIn([]);
  }
}
