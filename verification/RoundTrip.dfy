/**
 * Printed answers read back: a printed list decodes to what its tickets are worth, and a list cut short to
 * what the complete ones are.
 */
module RoundTrip {
  import opened Texts
  import opened Tickets
  import opened Json
  import opened Answers
  import opened Render

  // ----- the list of tickets -----

  /** What the tickets of a list are worth together, in order. */
  ghost function WorthsBy(worth: Ticket -> seq<Ticket>, ts: seq<Ticket>): seq<Ticket> {
    if ts == [] then [] else worth(ts[0]) + WorthsBy(worth, ts[1..])
  }

  ghost function Value(): Ticket -> seq<Ticket> { t => Worth(t) }

  ghost function Worths(ts: seq<Ticket>): seq<Ticket> { WorthsBy(Value(), ts) }

  ghost predicate AllPrintable(ts: seq<Ticket>) { forall i :: 0 <= i < |ts| ==> Printable(ts[i]) }

  lemma {:induction false} IssuablesAreWorthThemselves(ts: seq<Ticket>)
    requires forall i :: 0 <= i < |ts| ==> Issuable(ts[i])
    ensures AllPrintable(ts) && Worths(ts) == ts
  {
    if ts != [] {
      IssuableIsWorthItself(ts[0]);
      IssuablesAreWorthThemselves(ts[1..]);
      assert forall i :: 0 < i < |ts| ==> ts[i] == ts[1..][i - 1];
      assert ts == [ts[0]] + ts[1..];
    }
  }

  lemma PieceIsNext(t: Ticket, first: bool, z: string)
    ensures NextItem(Piece(t, first) + z, first) == Got(TicketJson(t), z)
    ensures Answers.More(Piece(t, first) + z)
  {
    ReadTicket(t, z);
    TicketTextTail(t, z);
    if !first {
      assert Piece(t, first) + z == "," + (TicketText(t) + z);
      assert ("," + (TicketText(t) + z))[1..] == TicketText(t) + z;
    }
  }

  /** How many tickets of the list end within its first `k` characters. */
  function WholeOf(piece: Pieces, ts: seq<Ticket>, first: bool, k: int): (m: nat)
    ensures m <= |ts|
  {
    if ts == [] || k < |piece(ts[0], first)| then 0
    else 1 + WholeOf(piece, ts[1..], false, k - |piece(ts[0], first)|)
  }

  function Whole(ts: seq<Ticket>, first: bool, k: int): (m: nat)
    ensures m <= |ts|
  {
    WholeOf(Printed(), ts, first, k)
  }

  /** An object cut before its closing brace is no readable value. */
  lemma CutObjectFails(cut: string, lost: string, v: Json)
    requires StartsWith(cut, '{') && lost != []
    requires ReadValue(cut + lost, 0) == Got(v, "")
    ensures ReadValue(cut, 0).Fail?
  {
    BraceIsObject(cut);
    ValueExtends(cut, 0, lost);
  }

  lemma BraceIsObject(s: string)
    requires StartsWith(s, '{')
    ensures ReadValue(s, 0).Got? ==> ReadValue(s, 0).value.Object?
  {
    assert SkipSpace(s) == s;
  }

  lemma CutTicketFails(t: Ticket, k: nat)
    requires k < |TicketText(t)|
    ensures ReadValue(TicketText(t)[..k], 0).Fail?
  {
    var u := TicketText(t);
    if k > 0 {
      assert u[..k] + u[k..] == u && u + "" == u;
      ReadTicket(t, "");
      CutObjectFails(u[..k], u[k..], TicketJson(t));
    }
  }

  lemma AfterComma(u: string)
    ensures NextItem("," + u, false) == ReadValue(u, 0)
  {
    assert ("," + u)[1..] == u;
  }

  lemma CutPieceFails(t: Ticket, first: bool, k: nat)
    requires k < |Piece(t, first)|
    ensures Elements(Piece(t, first)[..k], first) == []
  {
    var cut := Piece(t, first)[..k];
    if first {
      CutTicketFails(t, k);
    } else if k > 0 {
      assert cut == "," + TicketText(t)[..k - 1];
      CutTicketFails(t, k - 1);
      AfterComma(TicketText(t)[..k - 1]);
    }
  }

  lemma NextTicket(t: Ticket, first: bool, tail: string)
    requires Printable(t)
    ensures Elements(Piece(t, first) + tail, first) == Worth(t) + Elements(tail, false)
  {
    PieceIsNext(t, first, tail);
    PrintableDecodes(t);
  }

  /** A reading of a list: what is shown of it below holds of any reading that treats pieces so. */
  type Reading = (string, bool) -> seq<Ticket>

  ghost function ReadingElements(): Reading { (s, first) => Elements(s, first) }

  /** What a reading makes of a whole piece, of a cut one, and of the end. */
  ghost predicate ReadsPieces(elems: Reading, piece: Pieces, worth: Ticket -> seq<Ticket>) {
    && (forall t, first, z: string {:trigger elems(piece(t, first) + z, first)} ::
          Printable(t) ==> elems(piece(t, first) + z, first) == worth(t) + elems(z, false))
    && (forall t, first, k: nat {:trigger elems(piece(t, first)[..k], first)} ::
          k < |piece(t, first)| ==> elems(piece(t, first)[..k], first) == [])
    && (forall first, z: string :: elems("]" + z, first) == [])
    && (forall first :: elems("", first) == [])
  }

  lemma ElementsReadsPieces()
    ensures ReadsPieces(ReadingElements(), Printed(), Value())
  {
    var elems, piece := ReadingElements(), Printed();
    forall t, first, z: string | Printable(t)
      ensures elems(piece(t, first) + z, first) == Value()(t) + elems(z, false)
    {
      NextTicket(t, first, z);
    }
    forall t, first, k: nat | k < |piece(t, first)| ensures elems(piece(t, first)[..k], first) == [] {
      CutPieceFails(t, first, k);
    }
    forall first, z: string ensures elems("]" + z, first) == [] {
      assert Elements("]" + z, first) == [];
    }
    forall first ensures elems("", first) == [] {
      assert Elements("", first) == [];
    }
  }

  lemma TakeOneMore(worth: Ticket -> seq<Ticket>, ts: seq<Ticket>, m: nat)
    requires m < |ts|
    ensures WorthsBy(worth, ts[..m + 1]) == worth(ts[0]) + WorthsBy(worth, ts[1..][..m])
  {
    assert ts[..m + 1][1..] == ts[1..][..m];
  }

  /** A list cut after `k` characters yields what the whole tickets are worth. */
  lemma {:induction false} CutList(elems: Reading, piece: Pieces, worth: Ticket -> seq<Ticket>,
                                   ts: seq<Ticket>, first: bool, k: nat)
    requires ReadsPieces(elems, piece, worth) && AllPrintable(ts)
    requires k <= |ListOf(piece, ts, first)|
    ensures elems(ListOf(piece, ts, first)[..k], first) == WorthsBy(worth, ts[..WholeOf(piece, ts, first, k)])
  {
    if ts == [] {
      assert ListOf(piece, ts, first)[..k] == "";
    } else {
      var p, rest := piece(ts[0], first), ListOf(piece, ts[1..], false);
      if k < |p| {
        TakeBefore(p, rest, k);
      } else {
        CutList(elems, piece, worth, ts[1..], false, k - |p|);
        TakeBehind(p, rest, k);
        TakeOneMore(worth, ts, WholeOf(piece, ts[1..], false, k - |p|));
      }
    }
  }

  /** The whole list, and whatever closes it. */
  lemma {:induction false} ReadList(elems: Reading, piece: Pieces, worth: Ticket -> seq<Ticket>,
                                    ts: seq<Ticket>, first: bool, z: string)
    requires ReadsPieces(elems, piece, worth) && AllPrintable(ts)
    ensures elems(ListOf(piece, ts, first) + ("]" + z), first) == WorthsBy(worth, ts)
  {
    var end := "]" + z;
    if ts == [] {
      assert ListOf(piece, ts, first) + end == end;
    } else {
      Assoc(piece(ts[0], first), ListOf(piece, ts[1..], false), end);
      ReadList(elems, piece, worth, ts[1..], false, z);
    }
  }

  // ----- the object around it -----

  lemma HeadOpensList(y: string)
    ensures Decoded(Head() + y) == Elements(y, true)
  {
    var s := Head() + y;
    var r := ":" + ("[" + y);
    assert s == "{" + (Quoted(LIST_NAME) + r);
    var f := Quoted(LIST_NAME) + r;
    assert s[1..] == f;
    assert f[1..] == LIST_NAME + ("\"" + r);
    ReadPlain(LIST_NAME, r);
    NamedList(f, r, y);
  }

  lemma NamedList(f: string, r: string, y: string)
    requires StartsWith(f, '"') && ReadString(f[1..]) == Got(LIST_NAME, r) && r == ":" + ("[" + y)
    ensures Fields(f, true) == Elements(y, true)
  {
    assert SkipSpace(f) == f;
    assert SkipSpace(r) == r && r[1..] == "[" + y;
    assert SkipSpace("[" + y) == "[" + y && ("[" + y)[1..] == y;
  }

  /** Nothing behind the first array is read: not the rest of its object, not a second array in it. */
  lemma FirstArrayOnly(ts: seq<Ticket>, z: string)
    requires AllPrintable(ts)
    ensures Decoded(Head() + (ListText(ts, true) + ("]" + z))) == Worths(ts)
  {
    ElementsReadsPieces();
    ReadList(ReadingElements(), Printed(), Value(), ts, true, z);
    HeadOpensList(ListText(ts, true) + ("]" + z));
  }

  lemma AnswerParts(ts: seq<Ticket>, z: string)
    ensures AnswerText(ts) + z == Head() + (ListText(ts, true) + ("]" + ("}" + z)))
  {
    Assoc(Head() + ListText(ts, true), "]}", z);
    assert "]}" + z == "]" + ("}" + z);
    Assoc(Head(), ListText(ts, true), "]" + ("}" + z));
  }

  /** A whole printed answer decodes to what its tickets are worth, whatever stands behind it. */
  lemma DecodeAnswer(ts: seq<Ticket>, z: string)
    requires AllPrintable(ts)
    ensures Decoded(AnswerText(ts) + z) == Worths(ts)
  {
    AnswerParts(ts, z);
    FirstArrayOnly(ts, "}" + z);
  }

  /** How many tickets of a printed answer have their closing brace within its first `k` characters. */
  function Survivors(ts: seq<Ticket>, k: int): (m: nat)
    ensures m <= |ts|
  {
    Whole(ts, true, k - |Head()|)
  }

  lemma {:induction false} WholeList(piece: Pieces, ts: seq<Ticket>, first: bool, k: int)
    requires k >= |ListOf(piece, ts, first)|
    ensures WholeOf(piece, ts, first, k) == |ts|
  {
    if ts != [] {
      WholeList(piece, ts[1..], false, k - |piece(ts[0], first)|);
    }
  }

  // ----- a text with no second brace -----

  lemma {:induction false} SkipWithout(s: string, c: char)
    requires Without(s, c)
    ensures Without(SkipSpace(s), c)
  {
    if s != [] && IsSpace(s[0]) {
      SkipWithout(s[1..], c);
    }
  }

  lemma {:induction false} StringWithout(s: string, c: char)
    requires Without(s, c) && ReadString(s).Got?
    ensures Without(ReadString(s).rest, c)
    decreases |s|
  {
    if s[0] != '"' {
      if s[0] != '\\' {
        StringWithout(s[1..], c);
      } else if |s| >= 6 && s[1] == 'u' && IsHex(s[2]) && IsHex(s[3]) && IsHex(s[4]) && IsHex(s[5]) {
        StringWithout(s[6..], c);
      } else {
        StringWithout(s[2..], c);
      }
    }
  }

  /** Reading leaves only text that was there. */
  lemma {:induction false} ValueWithout(s: string, depth: nat, c: char)
    requires Without(s, c)
    ensures ReadValue(s, depth).Got? ==> Without(ReadValue(s, depth).rest, c)
    decreases |s|, 1
  {
    SkipWithout(s, c);
    var t := SkipSpace(s);
    if ReadValue(s, depth).Got? {
      if t[0] == '{' {
        SkipWithout(t[1..], c);
        MembersWithout(t[1..], depth + 1, c);
      } else if t[0] == '[' {
        SkipWithout(t[1..], c);
        ItemsWithout(t[1..], depth + 1, c);
      } else if t[0] == '"' {
        StringWithout(t[1..], c);
      }
    }
  }

  lemma {:induction false} ItemsWithout(s: string, depth: nat, c: char)
    requires Without(s, c)
    ensures ReadItems(s, depth).Got? ==> Without(ReadItems(s, depth).rest, c)
    decreases |s|, 2
  {
    ValueWithout(s, depth, c);
    if ReadValue(s, depth).Got? {
      SkipWithout(ReadValue(s, depth).rest, c);
      var t := SkipSpace(ReadValue(s, depth).rest);
      if StartsWith(t, ',') {
        ItemsWithout(t[1..], depth, c);
      }
    }
  }

  lemma NameWithout(s: string, c: char)
    requires Without(s, c) && ReadName(s).Got?
    ensures Without(ReadName(s).rest, c)
  {
    SkipWithout(s, c);
    StringWithout(SkipSpace(s)[1..], c);
    SkipWithout(ReadString(SkipSpace(s)[1..]).rest, c);
  }

  lemma {:induction false} MembersWithout(s: string, depth: nat, c: char)
    requires Without(s, c)
    ensures ReadMembers(s, depth).Got? ==> Without(ReadMembers(s, depth).rest, c)
    decreases |s|, 2
  {
    if ReadMember(s, depth).Got? {
      NameWithout(s, c);
      var r := ReadName(s).rest;
      ValueWithout(r, depth, c);
      SkipWithout(ReadValue(r, depth).rest, c);
      var t := SkipSpace(ReadValue(r, depth).rest);
      if StartsWith(t, ',') {
        MembersWithout(t[1..], depth, c);
      }
    }
  }

  lemma NoObject(s: string, depth: nat)
    requires Without(s, '{')
    ensures ReadValue(s, depth).Got? ==> !ReadValue(s, depth).value.Object?
  {
    SkipWithout(s, '{');
  }

  lemma OnlyObjects(v: Json)
    requires !v.Object?
    ensures TicketIn(v).Some? ==> TicketIn(v).value == []
  {
  }

  /** Without a brace there is no object, so no combination, so no ticket. */
  lemma {:induction false} NoElements(s: string, first: bool)
    requires Without(s, '{')
    ensures Elements(s, first) == []
    decreases |s|
  {
    if Answers.More(s) && NextItem(s, first).Got? {
      SkipWithout(s, '{');
      var u := if first then s else SkipSpace(s)[1..];
      ValueWithout(u, 0, '{');
      NoObject(u, 0);
      OnlyObjects(NextItem(s, first).value);
      NoElements(NextItem(s, first).rest, false);
    }
  }

  lemma {:induction false} NoFields(s: string, first: bool)
    requires Without(s, '{')
    ensures Fields(s, first) == []
    decreases |s|
  {
    if Answers.More(s) && NextName(s, first).Got? {
      SkipWithout(s, '{');
      var t := SkipSpace(s);
      if !first { SkipWithout(t[1..], '{'); }
      StringWithout(if first then t[1..] else SkipSpace(t[1..])[1..], '{');
      var r := NextName(s, first).rest;
      SkipWithout(r, '{');
      if AfterColon(r).Got? {
        var r1 := AfterColon(r).rest;
        SkipWithout(r1, '{');
        ValueWithout(r1, 0, '{');
        if StartsWith(SkipSpace(r1), '[') { NoElements(SkipSpace(r1)[1..], true); }
        if ReadValue(r1, 0).Got? { NoFields(ReadValue(r1, 0).rest, false); }
      }
    }
  }

  /** A text with no brace after its first character yields no ticket. */
  lemma OneBraceIsNoAnswer(s: string)
    requires s != [] && Without(s[1..], '{')
    ensures Decoded(s) == []
  {
    if SkipSpace(s) == s {
      NoFields(s[1..], true);
    } else {
      SkipWithout(s[1..], '{');
    }
  }

  // ----- answers cut short -----

  lemma CutInHead(ts: seq<Ticket>, k: nat)
    requires k < |Head()|
    ensures Decoded(AnswerText(ts)[..k]) == []
  {
    var h := Head();
    AnswerTextWithout(ts);
    Assoc(h, ListText(ts, true), "]}");
    TakeBefore(h, ListText(ts, true) + "]}", k);
    if k > 0 {
      OneBraceIsNoAnswer(h[..k]);
    }
  }

  lemma CutInList(ts: seq<Ticket>, k: nat)
    requires AllPrintable(ts)
    requires |Head()| <= k <= |Head()| + |ListText(ts, true)|
    ensures Decoded(AnswerText(ts)[..k]) == Worths(ts[..Survivors(ts, k)])
  {
    ElementsReadsPieces();
    CutList(ReadingElements(), Printed(), Value(), ts, true, k - |Head()|);
    ListPart(ts, k);
    HeadOpensList(ListText(ts, true)[..k - |Head()|]);
  }

  lemma ListPart(ts: seq<Ticket>, k: nat)
    requires |Head()| <= k <= |Head()| + |ListText(ts, true)|
    ensures AnswerText(ts)[..k] == Head() + ListText(ts, true)[..k - |Head()|]
  {
    var h, l := Head(), ListText(ts, true);
    Assoc(h, l, "]}");
    TakeBehind(h, l + "]}", k);
    TakeBefore(l, "]}", k - |h|);
  }

  lemma EndText(ts: seq<Ticket>, k: nat) returns (z: string)
    requires |Head()| + |ListText(ts, true)| < k <= |AnswerText(ts)|
    ensures AnswerText(ts)[..k] == Head() + (ListText(ts, true) + ("]" + z)) && (z == "" || z == "}")
  {
    var h, l := Head(), ListText(ts, true);
    var n := k - |h| - |l|;
    z := "}"[..n - 1];
    assert "]}"[..n] == "]" + z;
    TakeBehind(h + l, "]}", k);
    Assoc(h, l, "]" + z);
  }

  lemma AllSurvive(ts: seq<Ticket>, k: nat)
    requires |Head()| + |ListText(ts, true)| < k
    ensures ts[..Survivors(ts, k)] == ts
  {
    WholeList(Printed(), ts, true, k - |Head()|);
  }

  lemma CutInEnd(ts: seq<Ticket>, k: nat)
    requires AllPrintable(ts)
    requires |Head()| + |ListText(ts, true)| < k <= |AnswerText(ts)|
    ensures Decoded(AnswerText(ts)[..k]) == Worths(ts)
  {
    var z := EndText(ts, k);
    FirstArrayOnly(ts, z);
  }

  /** An answer cut anywhere decodes to exactly what the tickets whose closing brace survived are worth. */
  lemma CutAnswer(ts: seq<Ticket>, k: nat)
    requires AllPrintable(ts) && k <= |AnswerText(ts)|
    ensures Decoded(AnswerText(ts)[..k]) == Worths(ts[..Survivors(ts, k)])
  {
    if k < |Head()| {
      CutInHead(ts, k);
    } else if k <= |Head()| + |ListText(ts, true)| {
      CutInList(ts, k);
    } else {
      AllSurvive(ts, k);
      CutInEnd(ts, k);
    }
  }
}
