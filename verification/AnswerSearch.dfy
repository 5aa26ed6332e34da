/**
 * The search for the braces of a text: what stands in front of an answer, the braces inside it, and those of
 * an answer cut short.
 */
module AnswerSearch {
  import opened Decimal
  import opened Texts
  import opened Options
  import opened Tickets
  import opened Json
  import opened Answers
  import opened Extract
  import opened Render
  import opened RoundTrip

  // ----- noise and reasoning in front -----

  /** What a model may say before its answer: text without braces or tags, and closed reasoning blocks. */
  datatype Segment = Noise(text: string) | Think(body: string)

  ghost predicate Harmless(seg: Segment) {
    match seg
    case Noise(text) => Free(text, OPEN) && Without(text, '{')
    case Think(body) => !Contains(body, CLOSE)
  }

  function Before(segs: seq<Segment>, z: string): string {
    if segs == [] then z else
      match segs[0]
      case Noise(text) => text + Before(segs[1..], z)
      case Think(body) => OPEN + (body + (CLOSE + Before(segs[1..], z)))
  }

  function NoiseOf(segs: seq<Segment>): string {
    if segs == [] then "" else
      match segs[0]
      case Noise(text) => text + NoiseOf(segs[1..])
      case Think(_) => NoiseOf(segs[1..])
  }

  /** Cleaning removes the reasoning and keeps the noise. */
  lemma {:induction false} CleanBefore(segs: seq<Segment>, z: string)
    requires forall i :: 0 <= i < |segs| ==> Harmless(segs[i])
    ensures Clean(Before(segs, z)) == NoiseOf(segs) + Clean(z)
    ensures Without(NoiseOf(segs), '{')
  {
    if segs != [] {
      CleanBefore(segs[1..], z);
      assert Harmless(segs[0]);
      match segs[0]
      case Noise(text) =>
        CleanPastFree(text, Before(segs[1..], z));
        Assoc(text, NoiseOf(segs[1..]), Clean(z));
      case Think(body) =>
        CleanDropsBlock(body, Before(segs[1..], z));
    }
  }

  lemma {:induction false} NextBraceBehind(x: string, y: string, p: nat)
    requires Without(x, '{') && p <= |x|
    ensures NextBrace(x + y, p) == match NextBrace(y, 0) case None => None case Some(i) => Some(|x| + i)
    decreases |x| - p
  {
    if p < |x| {
      NextBraceBehind(x, y, p + 1);
    } else {
      EndsBehind(x, y);
      NextBraceShift(x + y, y, 0);
    }
  }

  lemma {:induction false} NextBraceShift(s: string, y: string, p: nat)
    requires EndsWith(s, y) && p <= |y|
    ensures NextBrace(s, |s| - |y| + p) ==
            match NextBrace(y, p) case None => None case Some(i) => Some(|s| - |y| + i)
    decreases |y| - p
  {
    if p < |y| && y[p] != '{' {
      NextBraceShift(s, y, p + 1);
    }
  }

  lemma SearchStep(decode: string -> seq<Ticket>, s: string, p: nat, i: nat, n: nat)
    requires p <= |s| && NextBrace(s, p) == Some(i) && n > 0
    ensures SearchBy(decode, s, p, n) ==
            if decode(s[i..]) != [] then decode(s[i..]) else SearchBy(decode, s, i + 1, n - 1)
  {
  }

  lemma SameStep(decode: string -> seq<Ticket>, s: string, p: nat, j: nat, y: string, q: nat, i: nat, n: nat)
    requires p <= |s| && NextBrace(s, p) == Some(j) && q <= |y| && NextBrace(y, q) == Some(i) && n > 0
    requires s[j..] == y[i..] && SearchBy(decode, s, j + 1, n - 1) == SearchBy(decode, y, i + 1, n - 1)
    ensures SearchBy(decode, s, p, n) == SearchBy(decode, y, q, n)
  {
    SearchStep(decode, s, p, j, n);
    SearchStep(decode, y, q, i, n);
  }

  /** Text in front of the first brace plays no part in the search. */
  lemma {:induction false} SearchAlike(decode: string -> seq<Ticket>, s: string, p: nat, y: string, q: nat, n: nat)
    requires EndsWith(s, y) && p <= |s| && q <= |y|
    requires NextBrace(s, p) == match NextBrace(y, q) case None => None case Some(i) => Some(|s| - |y| + i)
    ensures SearchBy(decode, s, p, n) == SearchBy(decode, y, q, n)
    decreases |y| - q
  {
    if n > 0 && NextBrace(y, q).Some? {
      var i, j := NextBrace(y, q).value, NextBrace(s, p).value;
      FromEnd(s, y, i);
      NextBraceShift(s, y, i + 1);
      SearchAlike(decode, s, j + 1, y, i + 1, n - 1);
      SameStep(decode, s, p, j, y, q, i, n);
    }
  }

  lemma SearchShift(decode: string -> seq<Ticket>, s: string, y: string, n: nat)
    requires EndsWith(s, y)
    ensures SearchBy(decode, s, |s| - |y|, n) == SearchBy(decode, y, 0, n)
  {
    NextBraceShift(s, y, 0);
    SearchAlike(decode, s, |s| - |y|, y, 0, n);
  }

  lemma SearchFromNoise(decode: string -> seq<Ticket>, noise: string, y: string, n: nat)
    requires Without(noise, '{')
    ensures SearchBy(decode, noise + y, 0, n) == SearchBy(decode, y, 0, n)
  {
    NextBraceBehind(noise, y, 0);
    EndsBehind(noise, y);
    SearchAlike(decode, noise + y, 0, y, 0, n);
  }

  /** The first candidate behind brace-free noise is the one the text behind it starts with. */
  lemma FirstCandidate(decode: string -> seq<Ticket>, noise: string, y: string, n: nat)
    requires Without(noise, '{') && StartsWith(y, '{') && n > 0
    ensures SearchBy(decode, noise + y, 0, n) ==
            if decode(y) != [] then decode(y) else SearchBy(decode, y, 1, n - 1)
  {
    SearchFromNoise(decode, noise, y, n);
    SearchStep(decode, y, 0, 0, n);
    assert y[0..] == y;
  }

  lemma StartsWithBrace(ts: seq<Ticket>, z: string)
    ensures StartsWith(AnswerText(ts) + z, '{')
  {
    AnswerTextWithout(ts);
  }

  /** What is searched when a text free of tags and starting with a brace stands behind the segments. */
  lemma SearchBehind(segs: seq<Segment>, a: string, z: string)
    requires forall i :: 0 <= i < |segs| ==> Harmless(segs[i])
    requires Free(a, OPEN) && StartsWith(a + Clean(z), '{')
    ensures Extracted(Before(segs, a + z)) ==
            if Decoded(a + Clean(z)) != [] then Decoded(a + Clean(z))
            else SearchBy(Decoding(), a + Clean(z), 1, MAX_CANDIDATES - 1)
  {
    CleanBefore(segs, a + z);
    CleanPastFree(a, z);
    FirstCandidate(Decoding(), NoiseOf(segs), a + Clean(z), MAX_CANDIDATES);
  }

  // ----- the braces inside an answer -----

  /** A ticket's own object is no answer, whatever stands behind it. */
  lemma TicketIsNoAnswer(t: Ticket, z: string)
    ensures Decoded(TicketText(t) + z) == []
  {
    TicketTextTail(t, z);
    var tail := "," + BonusText(t, z);
    assert ("{" + MembersText(t, z))[1..] == MembersText(t, z);
    ReadIntArray(t.numbers, tail, 0);
    FirstName(NUMBERS_NAME, ArrayText(t.numbers, tail));
    NumbersAreSkipped(MembersText(t, z), ArrayText(t.numbers, tail), tail, Array(NumberItems(t.numbers)));
    BonusIsSkipped(t, z);
  }

  lemma FirstName(name: string, r: string)
    requires Plain(name)
    ensures var s := Quoted(name) + (":" + r); Answers.More(s) && NextName(s, true) == Got(name, ":" + r)
    ensures AfterColon(":" + r) == Got((), r)
  {
    var s := Quoted(name) + (":" + r);
    assert s[1..] == name + ("\"" + (":" + r));
    ReadPlain(name, ":" + r);
    assert (":" + r)[1..] == r;
  }

  lemma LaterName(name: string, r: string)
    requires Plain(name)
    ensures var s := "," + (Quoted(name) + (":" + r)); Answers.More(s) && NextName(s, false) == Got(name, ":" + r)
    ensures AfterColon(":" + r) == Got((), r)
  {
    var s := Quoted(name) + (":" + r);
    FirstName(name, r);
    assert ("," + s)[1..] == s && SkipSpace(s) == s;
  }

  lemma NumbersAreSkipped(s: string, r: string, tail: string, v: Json)
    requires Answers.More(s) && NextName(s, true) == Got(NUMBERS_NAME, ":" + r) && AfterColon(":" + r) == Got((), r)
    requires ReadValue(r, 0) == Got(v, tail)
    ensures Fields(s, true) == Fields(tail, false)
  {
    assert |NUMBERS_NAME| != |LIST_NAME|;
  }

  lemma LaterIsSkipped(s: string, r: string, tail: string, v: Json)
    requires Answers.More(s) && NextName(s, false) == Got(BONUS_NAME, ":" + r) && AfterColon(":" + r) == Got((), r)
    requires ReadValue(r, 0) == Got(v, tail)
    ensures Fields(s, false) == Fields(tail, false)
  {
    assert |BONUS_NAME| != |LIST_NAME|;
  }

  lemma NothingAfterBonus(z: string)
    ensures Fields("}" + z, false) == []
  {
  }

  lemma BonusIsSkipped(t: Ticket, z: string)
    ensures Fields("," + BonusText(t, z), false) == []
  {
    var r := IntText(t.bonus) + ("}" + z);
    LaterName(BONUS_NAME, r);
    ReadInt(t.bonus, "}" + z, 0);
    LaterIsSkipped("," + BonusText(t, z), r, "}" + z, Number(IntText(t.bonus)));
    NothingAfterBonus(z);
  }

  /** Nor is it when it is cut short. */
  lemma CutTicketIsNoAnswer(t: Ticket, k: nat)
    requires 0 < k <= |TicketText(t)|
    ensures Decoded(TicketText(t)[..k]) == []
  {
    TicketTextWithout(t);
    assert TicketText(t)[..k][1..] == TicketText(t)[1..][..k - 1];
    OneBraceIsNoAnswer(TicketText(t)[..k]);
  }

  function Less(n: nat, m: nat): nat { if n < m then 0 else n - m }

  /** Behind its first character a text without further braces is passed over. */
  lemma SearchPastFirst(decode: string -> seq<Ticket>, obj: string, rest: string, n: nat)
    requires obj != "" && Without(obj[1..], '{')
    ensures SearchBy(decode, obj + rest, 1, n) == SearchBy(decode, rest, 0, n)
  {
    var s, y := obj + rest, obj[1..] + rest;
    assert |s| - |y| == 1 && EndsWith(s, y);
    SearchShift(decode, s, y, n);
    SearchFromNoise(decode, obj[1..], rest, n);
  }

  /** One candidate is spent on an object that decodes to nothing and holds no brace but its first. */
  lemma SearchPastObject(decode: string -> seq<Ticket>, noise: string, obj: string, rest: string, n: nat)
    requires Without(noise, '{') && StartsWith(obj, '{') && Without(obj[1..], '{')
    requires decode(obj + rest) == []
    ensures SearchBy(decode, noise + (obj + rest), 0, n) == SearchBy(decode, rest, 0, Less(n, 1))
  {
    if n > 0 {
      FirstCandidate(decode, noise, obj + rest, n);
      SearchPastFirst(decode, obj, rest, n - 1);
    }
  }

  lemma PieceParts(t: Ticket, first: bool, rest: string)
    ensures var noise := if first then "" else ",";
            && Piece(t, first) + rest == noise + (TicketText(t) + rest)
            && Without(noise, '{') && StartsWith(TicketText(t), '{') && Without(TicketText(t)[1..], '{')
  {
    TicketTextWithout(t);
  }

  /** A search for braces: what is shown of it below holds of any search that passes pieces so. */
  type Searcher = (string, nat) -> seq<Ticket>

  ghost function Searching(): Searcher { (s: string, n: nat) => SearchBy(Decoding(), s, 0, n) }

  ghost predicate PassesPieces(search: Searcher, piece: Pieces) {
    && (forall t, first, rest: string, n: nat {:trigger search(piece(t, first) + rest, n)} ::
          search(piece(t, first) + rest, n) == search(rest, Less(n, 1)))
    && (forall t, first, k: nat, n: nat {:trigger search(piece(t, first)[..k], n)} ::
          k < |piece(t, first)| ==> search(piece(t, first)[..k], n) == [])
    && (forall n: nat :: search("", n) == [])
  }

  /** Nothing is found in such an object cut short. */
  lemma SearchInCutObject(decode: string -> seq<Ticket>, noise: string, cut: string, n: nat)
    requires Without(noise, '{') && StartsWith(cut, '{') && Without(cut[1..], '{')
    requires decode(cut) == []
    ensures SearchBy(decode, noise + cut, 0, n) == []
  {
    assert cut + "" == cut;
    SearchPastObject(decode, noise, cut, "", n);
  }

  lemma SearchInCutPiece(t: Ticket, first: bool, k: nat, n: nat)
    requires k < |Piece(t, first)|
    ensures SearchBy(Decoding(), Piece(t, first)[..k], 0, n) == []
  {
    var noise := if first then "" else ",";
    PieceParts(t, first, "");
    if k > |noise| {
      var cut := TicketText(t)[..k - |noise|];
      assert cut[1..] == TicketText(t)[1..][..k - |noise| - 1];
      assert Piece(t, first)[..k] == noise + cut;
      CutTicketIsNoAnswer(t, k - |noise|);
      SearchInCutObject(Decoding(), noise, cut, n);
    } else {
      NextBraceIsFirst(Piece(t, first)[..k], 0);
    }
  }

  lemma SearchingPassesPieces()
    ensures PassesPieces(Searching(), Printed())
  {
    var search, piece := Searching(), Printed();
    forall t, first, rest: string, n: nat
      ensures search(piece(t, first) + rest, n) == search(rest, Less(n, 1))
    {
      PieceParts(t, first, rest);
      TicketIsNoAnswer(t, rest);
      SearchPastObject(Decoding(), if first then "" else ",", TicketText(t), rest, n);
    }
    forall t, first, k: nat, n: nat | k < |piece(t, first)| ensures search(piece(t, first)[..k], n) == [] {
      SearchInCutPiece(t, first, k, n);
    }
  }

  lemma {:induction false} SearchPastList(search: Searcher, piece: Pieces, ts: seq<Ticket>, first: bool,
                                          w: string, n: nat)
    requires PassesPieces(search, piece)
    ensures search(ListOf(piece, ts, first) + w, n) == search(w, Less(n, |ts|))
  {
    if ts == [] {
      assert ListOf(piece, ts, first) + w == w;
    } else {
      Assoc(piece(ts[0], first), ListOf(piece, ts[1..], false), w);
      SearchPastList(search, piece, ts[1..], false, w, Less(n, 1));
    }
  }

  lemma {:induction false} SearchInCutList(search: Searcher, piece: Pieces, ts: seq<Ticket>, first: bool,
                                           k: nat, n: nat)
    requires PassesPieces(search, piece) && k <= |ListOf(piece, ts, first)|
    ensures search(ListOf(piece, ts, first)[..k], n) == []
  {
    if ts == [] {
      assert ListOf(piece, ts, first)[..k] == "";
    } else {
      var p, rest := piece(ts[0], first), ListOf(piece, ts[1..], false);
      if k < |p| {
        TakeBefore(p, rest, k);
      } else {
        TakeBehind(p, rest, k);
        SearchInCutList(search, piece, ts[1..], false, k - |p|, Less(n, 1));
      }
    }
  }

  lemma SearchPastPrinted(ts: seq<Ticket>, w: string, n: nat)
    ensures SearchBy(Decoding(), ListText(ts, true) + w, 0, n) == SearchBy(Decoding(), w, 0, Less(n, |ts|))
  {
    SearchingPassesPieces();
    SearchPastList(Searching(), Printed(), ts, true, w, n);
  }

  lemma HeadIsFirst()
    ensures StartsWith(Head(), '{') && Without(Head()[1..], '{')
  {
    AnswerTextWithout([]);
  }

  /** Behind the first brace of an answer the search goes on through its list. */
  lemma SearchPastHead(decode: string -> seq<Ticket>, y: string, n: nat)
    ensures SearchBy(decode, Head() + y, 1, n) == SearchBy(decode, y, 0, n)
  {
    HeadIsFirst();
    SearchPastFirst(decode, Head(), y, n);
  }

  lemma SearchPastEnd(decode: string -> seq<Ticket>, list: string, y: string, n: nat, left: nat)
    requires SearchBy(decode, list + ("]" + ("}" + y)), 0, n) == SearchBy(decode, "]" + ("}" + y), 0, left)
    ensures SearchBy(decode, Head() + (list + ("]" + ("}" + y))), 1, n) == SearchBy(decode, y, 0, left)
  {
    SearchPastHead(decode, list + ("]" + ("}" + y)), n);
    assert "]" + ("}" + y) == "]}" + y;
    SearchFromNoise(decode, "]}", y, left);
  }

  lemma SearchPastAnswer(ts: seq<Ticket>, y: string, n: nat)
    ensures SearchBy(Decoding(), AnswerText(ts) + y, 1, n) == SearchBy(Decoding(), y, 0, Less(n, |ts|))
  {
    AnswerParts(ts, y);
    SearchPastPrinted(ts, "]" + ("}" + y), n);
    SearchPastEnd(Decoding(), ListText(ts, true), y, n, Less(n, |ts|));
  }

  // ----- an answer cut short -----

  /** Behind the first brace of an answer cut short there is nothing to be found. */
  lemma NothingInCutAnswer(ts: seq<Ticket>, k: nat, n: nat)
    requires 0 < k <= |AnswerText(ts)|
    ensures SearchBy(Decoding(), AnswerText(ts)[..k], 1, n) == []
  {
    var h, l := Head(), ListText(ts, true);
    if k < |h| {
      NothingInCutHead(Decoding(), ts, k, n);
    } else if k <= |h| + |l| {
      NothingInCutList(ts, k, n);
    } else {
      NothingInCutEnd(ts, k, n);
    }
  }

  lemma NothingInCutPrinted(ts: seq<Ticket>, j: nat, n: nat)
    requires j <= |ListText(ts, true)|
    ensures SearchBy(Decoding(), ListText(ts, true)[..j], 0, n) == []
  {
    SearchingPassesPieces();
    SearchInCutList(Searching(), Printed(), ts, true, j, n);
  }

  lemma NothingBehindHead(text: string, ts: seq<Ticket>, j: nat, n: nat)
    requires j <= |ListText(ts, true)| && text == Head() + ListText(ts, true)[..j]
    ensures |text| > 0 && SearchBy(Decoding(), text, 1, n) == []
  {
    NothingInCutPrinted(ts, j, n);
    SearchPastHead(Decoding(), ListText(ts, true)[..j], n);
  }

  lemma NothingInCutList(ts: seq<Ticket>, k: nat, n: nat)
    requires |Head()| <= k <= |Head()| + |ListText(ts, true)|
    ensures SearchBy(Decoding(), AnswerText(ts)[..k], 1, n) == []
  {
    ListPart(ts, k);
    NothingBehindHead(AnswerText(ts)[..k], ts, k - |Head()|, n);
  }

  lemma NothingInCutEnd(ts: seq<Ticket>, k: nat, n: nat)
    requires |Head()| + |ListText(ts, true)| < k <= |AnswerText(ts)|
    ensures SearchBy(Decoding(), AnswerText(ts)[..k], 1, n) == []
  {
    var z := EndText(ts, k);
    SearchPastHead(Decoding(), ListText(ts, true) + ("]" + z), n);
    SearchPastPrinted(ts, "]" + z, n);
    NextBraceIsFirst("]" + z, 0);
  }

  lemma NothingInCutHead(decode: string -> seq<Ticket>, ts: seq<Ticket>, k: nat, n: nat)
    requires 0 < k < |Head()|
    ensures SearchBy(decode, AnswerText(ts)[..k], 1, n) == []
  {
    var h := Head();
    AnswerTextWithout(ts);
    Assoc(h, ListText(ts, true), "]}");
    TakeBefore(h, ListText(ts, true) + "]}", k);
    NextBraceIsFirst(h[..k], 1);
    assert forall i :: 1 <= i < k ==> h[..k][i] == h[1..][i - 1];
  }
}
