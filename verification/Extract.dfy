/** Tickets out of a model's answer: reasoning blocks cut away, then the first braces tried in turn. */
module Extract {
  import opened Texts
  import opened Options
  import opened Tickets
  import opened Json
  import opened Answers
  import opened Decoder

  // ----- reasoning blocks -----

  const OPEN := "<think>"
  const CLOSE := "</think>"

  ghost predicate At(s: string, i: nat, pat: string) {
    i <= |s| && pat <= s[i..]
  }

  /** Where `pat` first occurs in `s`. */
  function IndexOf(s: string, pat: string): (r: Option<nat>)
    requires pat != []
    ensures r.Some? ==> r.value + |pat| <= |s|
  {
    if |s| < |pat| then None
    else if pat <= s then Some(0)
    else match IndexOf(s[1..], pat) case None => None case Some(k) => Some(k + 1)
  }

  lemma {:induction false} IndexOfIsFirst(s: string, pat: string)
    requires pat != []
    ensures match IndexOf(s, pat)
            case None => forall i: nat :: !At(s, i, pat)
            case Some(k) => At(s, k, pat) && forall i: nat :: i < k ==> !At(s, i, pat)
  {
    if |s| >= |pat| && !(pat <= s) {
      IndexOfIsFirst(s[1..], pat);
      assert s[0..] == s;
      forall i: nat | 0 < i <= |s| ensures At(s, i, pat) == At(s[1..], i - 1, pat) {
        assert s[i..] == s[1..][i - 1..];
      }
    }
  }

  lemma FirstIsIndex(s: string, pat: string, k: nat)
    requires pat != []
    requires At(s, k, pat) && forall i: nat :: i < k ==> !At(s, i, pat)
    ensures IndexOf(s, pat) == Some(k)
  {
    IndexOfIsFirst(s, pat);
  }

  /** The text before the first `pat`, and the text behind it. */
  function Split(s: string, pat: string): (r: Option<(string, string)>)
    requires pat != []
    ensures r.Some? ==> |r.value.0| + |pat| + |r.value.1| == |s|
  {
    match IndexOf(s, pat)
    case None => None
    case Some(k) => Some((s[..k], s[k + |pat|..]))
  }

  /** Every block from an `open` to the first `close` behind it removed, left to right. */
  function Strip(s: string, open: string, close: string): (r: string)
    requires open != [] && close != []
    ensures |r| <= |s|
    decreases |s|
  {
    match Split(s, open)
    case None => s
    case Some((before, behind)) =>
      match Split(behind, close)
      case None => s
      case Some((_, rest)) => before + Strip(rest, open, close)
  }

  /** Everything from the first `open` on removed. */
  function Cut(s: string, open: string): string
    requires open != []
  {
    match Split(s, open) case None => s case Some((before, _)) => before
  }

  /** `(?s)<think>.*?</think>`, then `(?s)<think>.*`, replaced by nothing. */
  function Clean(s: string): string { Cut(Strip(s, OPEN, CLOSE), OPEN) }

  ghost predicate Contains(s: string, pat: string) {
    exists i: nat :: At(s, i, pat)
  }

  lemma PrefixOfTake(p: string, u: string, n: nat)
    requires n <= |u| && p <= u[..n]
    ensures p <= u
  {
    assert p == u[..n][..|p|] == u[..|p|];
  }

  lemma CutLeavesNone(t: string, open: string)
    requires open != []
    ensures !Contains(Cut(t, open), open)
  {
    IndexOfIsFirst(t, open);
    if IndexOf(t, open).Some? {
      var a := IndexOf(t, open).value;
      forall i: nat ensures !At(t[..a], i, open) {
        if At(t[..a], i, open) {
          assert t[..a][i..] == t[i..][..a - i];
          PrefixOfTake(open, t[i..], a - i);
          assert At(t, i, open);
        }
      }
    }
  }

  /** No opening tag survives cleaning. */
  lemma CleanHasNoTag(s: string)
    ensures !Contains(Clean(s), OPEN)
  {
    CutLeavesNone(Strip(s, OPEN, CLOSE), OPEN);
  }

  /** Text without an opening tag is left alone. */
  lemma CleanIsIdentity(s: string)
    requires !Contains(s, OPEN)
    ensures Clean(s) == s
  {
    IndexOfIsFirst(s, OPEN);
  }

  lemma CleanIsIdempotent(s: string)
    ensures Clean(Clean(s)) == Clean(s)
  {
    CleanHasNoTag(s);
    CleanIsIdentity(Clean(s));
  }

  // ----- cleaning text that starts with something known -----

  /** Some character of `x` from `i` on is not the one `pat` would have there. */
  predicate Strays(x: string, i: nat, pat: string) {
    exists j: nat :: j < |pat| && i + j < |x| && x[i + j] != pat[j]
  }

  /** No copy of `pat` starts in `x`, whatever follows it. */
  ghost predicate Free(x: string, pat: string) { forall i: nat :: i < |x| ==> Strays(x, i, pat) }

  lemma WithoutIsFree(x: string, pat: string)
    requires pat != [] && Without(x, pat[0])
    ensures Free(x, pat)
  {
    forall i: nat | i < |x| ensures Strays(x, i, pat) {
      assert x[i + 0] != pat[0];
    }
  }

  lemma RestIsFree(x: string, pat: string)
    requires x != "" && Free(x, pat)
    ensures Free(x[1..], pat)
  {
    forall i: nat | i < |x[1..]| ensures Strays(x[1..], i, pat) {
      assert Strays(x, i + 1, pat);
      var j: nat :| j < |pat| && i + 1 + j < |x| && x[i + 1 + j] != pat[j];
      assert x[1..][i + j] != pat[j];
    }
  }

  lemma FreeHead(x: string, y: string, pat: string)
    requires x != "" && Free(x, pat)
    ensures !(pat <= x + y)
  {
    assert Strays(x, 0, pat);
    var j: nat :| j < |pat| && 0 + j < |x| && x[0 + j] != pat[j];
    assert (x + y)[j] != pat[j];
  }

  lemma {:induction false} IndexPastFree(x: string, y: string, pat: string)
    requires pat != [] && Free(x, pat)
    ensures IndexOf(x + y, pat) == match IndexOf(y, pat) case None => None case Some(k) => Some(|x| + k)
  {
    if x == [] {
      assert x + y == y;
    } else {
      RestIsFree(x, pat);
      FreeHead(x, y, pat);
      IndexPastFree(x[1..], y, pat);
      assert (x + y)[1..] == x[1..] + y;
    }
  }

  lemma SplitPastFree(x: string, y: string, pat: string)
    requires pat != [] && Free(x, pat)
    ensures Split(x + y, pat) ==
            match Split(y, pat) case None => None case Some((b, r)) => Some((x + b, r))
  {
    IndexPastFree(x, y, pat);
    if IndexOf(y, pat).Some? {
      var k := IndexOf(y, pat).value;
      assert (x + y)[|x| + k + |pat|..] == y[k + |pat|..];
      assert (x + y)[..|x| + k] == x + y[..k];
    }
  }

  lemma StripPastFree(x: string, y: string, open: string, close: string)
    requires open != [] && close != [] && Free(x, open)
    ensures Strip(x + y, open, close) == x + Strip(y, open, close)
  {
    SplitPastFree(x, y, open);
    if Split(y, open).Some? {
      var (before, behind) := Split(y, open).value;
      if Split(behind, close).Some? {
        Assoc(x, before, Strip(Split(behind, close).value.1, open, close));
      }
    }
  }

  lemma CutPastFree(x: string, y: string, open: string)
    requires open != [] && Free(x, open)
    ensures Cut(x + y, open) == x + Cut(y, open)
  {
    SplitPastFree(x, y, open);
  }

  /** Text in front in which no opening tag starts passes through both cuts. */
  lemma CleanPastFree(x: string, y: string)
    requires Free(x, OPEN)
    ensures Clean(x + y) == x + Clean(y)
  {
    StripPastFree(x, y, OPEN, CLOSE);
    CutPastFree(x, Strip(y, OPEN, CLOSE), OPEN);
  }

  /** A text holding its first character nowhere else. */
  ghost predicate Borderless(pat: string) {
    pat != [] && forall m :: 1 <= m < |pat| ==> pat[m] != pat[0]
  }

  /** Such a closing tag cannot start inside a text without one and end in the tag behind it. */
  lemma CloseIndex(body: string, close: string, y: string)
    requires Borderless(close) && !Contains(body, close)
    ensures IndexOf(body + (close + y), close) == Some(|body|)
  {
    var s := body + (close + y);
    assert s[|body|..] == close + y;
    assert close <= close + y;
    assert At(s, |body|, close);
    forall i: nat | i < |body| ensures !At(s, i, close) {
      assert !At(body, i, close);
      assert s[i..] == body[i..] + (close + y);
      assert s[i..][|body| - i] == close[0];
    }
    FirstIsIndex(s, close, |body|);
  }

  lemma SplitAtHead(pat: string, y: string)
    requires pat != []
    ensures Split(pat + y, pat) == Some(("", y))
  {
    assert pat <= pat + y;
    assert (pat + y)[|pat|..] == y && (pat + y)[..0] == "";
  }

  lemma SplitAtClose(body: string, close: string, y: string)
    requires Borderless(close) && !Contains(body, close)
    ensures Split(body + (close + y), close) == Some((body, y))
  {
    CloseIndex(body, close, y);
    var s := body + (close + y);
    assert s[..|body|] == body && s[|body| + |close|..] == y;
  }

  lemma StripStep(s: string, open: string, close: string, before: string, behind: string, body: string, rest: string)
    requires open != [] && close != []
    requires Split(s, open) == Some((before, behind)) && Split(behind, close) == Some((body, rest))
    ensures Strip(s, open, close) == before + Strip(rest, open, close)
  {
  }

  lemma StripsBlock(body: string, y: string, open: string, close: string)
    requires open != [] && Borderless(close) && !Contains(body, close)
    ensures Strip(open + (body + (close + y)), open, close) == Strip(y, open, close)
  {
    SplitAtHead(open, body + (close + y));
    SplitAtClose(body, close, y);
    StripStep(open + (body + (close + y)), open, close, "", body + (close + y), body, y);
    assert "" + Strip(y, open, close) == Strip(y, open, close);
  }

  /** A closed reasoning block in front leaves no trace. */
  lemma CleanDropsBlock(body: string, y: string)
    requires !Contains(body, CLOSE)
    ensures Clean(OPEN + (body + (CLOSE + y))) == Clean(y)
  {
    StripsBlock(body, y, OPEN, CLOSE);
  }

  /** A reasoning block, the first in the text and closed, disappears, and the cleaning goes on behind it. */
  lemma ClosedThought(x: string, body: string, y: string)
    requires Free(x, "<think>") && !Contains(body, "</think>")
    ensures Clean(x + ("<think>" + (body + ("</think>" + y)))) == x + Clean(y)
  {
    CleanPastFree(x, "<think>" + (body + ("</think>" + y)));
    CleanDropsBlock(body, y);
  }

  /** One that is never closed takes everything behind it along. */
  lemma OpenThought(x: string, y: string)
    requires Free(x, "<think>") && !Contains(y, "</think>")
    ensures Clean(x + ("<think>" + y)) == x
  {
    CleanPastFree(x, "<think>" + y);
    CutsRest(y, OPEN, CLOSE);
    assert x + "" == x;
  }

  lemma CutsRest(y: string, open: string, close: string)
    requires open != [] && close != [] && !Contains(y, close)
    ensures Cut(Strip(open + y, open, close), open) == ""
  {
    SplitAtHead(open, y);
    IndexOfIsFirst(y, close);
  }

  // ----- the search over braces -----

  /** The next brace at or after `pos`. */
  function NextBrace(s: string, pos: nat): (r: Option<nat>)
    requires pos <= |s|
    ensures r.Some? ==> pos <= r.value < |s|
    decreases |s| - pos
  {
    if pos == |s| then None
    else if s[pos] == '{' then Some(pos)
    else NextBrace(s, pos + 1)
  }

  /** The decoding at the first of the next `n` braces from `pos` on that yields anything. */
  ghost function SearchBy(decode: string -> seq<Ticket>, s: string, pos: nat, n: nat): seq<Ticket>
    requires pos <= |s|
    decreases |s| - pos
  {
    if n == 0 then [] else
      match NextBrace(s, pos)
      case None => []
      case Some(i) =>
        var found := decode(s[i..]);
        if found != [] then found else SearchBy(decode, s, i + 1, n - 1)
  }

  /** `decodeTickets` as a value. */
  ghost function Decoding(): string -> seq<Ticket> { x => Decoded(x) }

  ghost function Search(s: string, n: nat): seq<Ticket> { SearchBy(Decoding(), s, 0, n) }

  const MAX_CANDIDATES: nat := 10

  ghost function Extracted(content: string): seq<Ticket> { Search(Clean(content), MAX_CANDIDATES) }

  /** How many braces stand from `lo` up to `hi`. */
  function Braces(s: string, lo: nat, hi: nat): nat
    requires lo <= hi <= |s|
  {
    if lo == hi then 0 else Braces(s, lo, hi - 1) + (if s[hi - 1] == '{' then 1 else 0)
  }

  /** Position `i` holds one of the first `n` braces from `pos` on. */
  ghost predicate Candidate(s: string, pos: nat, n: nat, i: nat) {
    pos <= i < |s| && s[i] == '{' && Braces(s, pos, i) < n
  }

  /** Either no candidate decodes to anything, or the result is the earliest non-empty decoding. */
  ghost predicate EarliestBy(decode: string -> seq<Ticket>, s: string, pos: nat, n: nat, r: seq<Ticket>) {
    || (r == [] && forall i: nat :: Candidate(s, pos, n, i) ==> decode(s[i..]) == [])
    || (r != [] && exists i: nat :: Candidate(s, pos, n, i) && decode(s[i..]) == r
                              && forall j: nat :: j < i && Candidate(s, pos, n, j) ==> decode(s[j..]) == [])
  }

  lemma {:induction false} NextBraceIsFirst(s: string, pos: nat)
    requires pos <= |s|
    ensures match NextBrace(s, pos)
            case None => forall j :: pos <= j < |s| ==> s[j] != '{'
            case Some(i) => s[i] == '{' && forall j :: pos <= j < i ==> s[j] != '{'
    decreases |s| - pos
  {
    if pos < |s| && s[pos] != '{' {
      NextBraceIsFirst(s, pos + 1);
    }
  }

  lemma {:induction false} BracesSplit(s: string, lo: nat, mid: nat, hi: nat)
    requires lo <= mid <= hi <= |s|
    ensures Braces(s, lo, hi) == Braces(s, lo, mid) + Braces(s, mid, hi)
  {
    if mid < hi {
      BracesSplit(s, lo, mid, hi - 1);
    }
  }

  lemma {:induction false} NoBraces(s: string, lo: nat, hi: nat)
    requires lo <= hi <= |s| && forall j :: lo <= j < hi ==> s[j] != '{'
    ensures Braces(s, lo, hi) == 0
  {
    if lo < hi {
      NoBraces(s, lo, hi - 1);
    }
  }

  /** Behind the first brace there is one candidate fewer. */
  lemma CandidateStep(s: string, pos: nat, n: nat, first: nat, i: nat)
    requires pos <= first < |s| && n > 0
    requires s[first] == '{' && forall j :: pos <= j < first ==> s[j] != '{'
    ensures Candidate(s, pos, n, i) <==> i == first || Candidate(s, first + 1, n - 1, i)
  {
    NoBraces(s, pos, first);
    if first < i < |s| {
      BracesSplit(s, pos, first, i);
      BracesSplit(s, first, first + 1, i);
    }
  }

  lemma {:induction false} SearchByIsEarliest(decode: string -> seq<Ticket>, s: string, pos: nat, n: nat)
    requires pos <= |s|
    ensures EarliestBy(decode, s, pos, n, SearchBy(decode, s, pos, n))
    decreases |s| - pos
  {
    NextBraceIsFirst(s, pos);
    if n > 0 && NextBrace(s, pos).Some? {
      var first := NextBrace(s, pos).value;
      forall i: nat ensures Candidate(s, pos, n, i) <==> i == first || Candidate(s, first + 1, n - 1, i) {
        CandidateStep(s, pos, n, first, i);
      }
      if decode(s[first..]) == [] {
        SearchByIsEarliest(decode, s, first + 1, n - 1);
      } else {
        assert Candidate(s, pos, n, first);
      }
    }
  }

  /** The search yields the decoding at the earliest of the first `n` braces that decodes to a ticket. */
  lemma SearchIsEarliest(s: string, n: nat)
    ensures EarliestBy(Decoding(), s, 0, n, Search(s, n))
  {
    SearchByIsEarliest(Decoding(), s, 0, n);
  }

  lemma {:induction false} BracesAreCounted(s: string, i: nat)
    requires i <= |s|
    ensures Braces(s, 0, i) == multiset(s[..i])['{']
  {
    if i > 0 {
      BracesAreCounted(s, i - 1);
      assert s[..i] == s[..i - 1] + [s[i - 1]];
    }
  }

  /** A brace of the text with fewer than ten before it. */
  ghost predicate AmongFirstTen(s: string, i: int) {
    0 <= i < |s| && s[i] == '{' && multiset(s[..i])['{'] < 10
  }

  /**
   * What is extracted: the decoding at the earliest of the first ten braces of the cleaned text that yields a
   * ticket, or nothing when none of them does.
   */
  lemma ExtractedLaw(content: string)
    ensures var s, r := Clean(content), Extracted(content);
            || (r == [] && forall i :: AmongFirstTen(s, i) ==> Decoded(s[i..]) == [])
            || (r != [] && exists i :: AmongFirstTen(s, i) && r == Decoded(s[i..])
                                && forall j :: 0 <= j < i && s[j] == '{' ==> Decoded(s[j..]) == [])
  {
    var s, r := Clean(content), Extracted(content);
    SearchIsEarliest(s, MAX_CANDIDATES);
    forall i: nat | i < |s| ensures Candidate(s, 0, MAX_CANDIDATES, i) <==> AmongFirstTen(s, i) {
      BracesAreCounted(s, i);
    }
    if r != [] {
      var i: nat :| Candidate(s, 0, MAX_CANDIDATES, i) && Decoded(s[i..]) == r
                    && forall j: nat :: j < i && Candidate(s, 0, MAX_CANDIDATES, j) ==> Decoded(s[j..]) == [];
      assert AmongFirstTen(s, i);
      forall j: nat | j < i && s[j] == '{' ensures Decoded(s[j..]) == [] {
        BracesSplit(s, 0, j, i);
        assert Candidate(s, 0, MAX_CANDIDATES, j);
      }
    } else {
      forall i | AmongFirstTen(s, i) ensures Decoded(s[i..]) == [] {
        assert Candidate(s, 0, MAX_CANDIDATES, i);
      }
    }
  }

  /** Whatever a model answers, what is extracted are valid tickets in ascending order. */
  lemma ExtractedIssuable(content: string)
    ensures forall t :: t in Extracted(content) ==> Issuable(t)
  {
    var s, n := Clean(content), MAX_CANDIDATES;
    SearchIsEarliest(s, n);
    if Search(s, n) != [] {
      var i: nat :| Candidate(s, 0, n, i) && Decoded(s[i..]) == Search(s, n);
      DecodedIssuable(s[i..]);
    }
  }

  // ----- the code -----

  method FirstDelim(dec: Decoder) returns (d: Option<char>)
    modifies dec
    ensures old(dec.state).TopValue? ==> (d == Some('{') <==> StartsWith(SkipSpace(old(dec.rest)), '{'))
    ensures d == Some('{') && old(dec.state).TopValue? ==>
              dec.rest == SkipSpace(old(dec.rest))[1..] && dec.state == ObjectStart
    ensures old(dec.state).ObjectColon? ==>
              match AfterColon(old(dec.rest))
              case Fail => d == None
              case Got(_, r1) =>
                && (d == Some('[') <==> StartsWith(SkipSpace(r1), '['))
                && (d == Some('[') ==> dec.rest == SkipSpace(r1)[1..] && dec.state == ArrayStart)
  {
    var tok := dec.NextToken();
    if tok.Some? && tok.value.Delim? {
      return Some(tok.value.c);
    }
    return None;
  }

  /** One element of the array: its ticket if it holds a valid one, None if it cannot be decoded. */
  method DecodeTicket(dec: Decoder) returns (ts: Option<seq<Ticket>>)
    requires dec.state.ArrayStart? || dec.state.ArrayComma?
    modifies dec
    ensures var r := NextItem(old(dec.rest), old(dec.state).ArrayStart?);
            && (ts.Some? <==> r.Got? && TicketIn(r.value).Some?)
            && (ts.Some? ==> ts == TicketIn(r.value) && dec.rest == r.rest && dec.state.ArrayComma?)
  {
    var v := dec.DecodeValue();
    if v == None {
      return None;
    }
    var c := DecodeCombination(v.value);
    if c == None {
      return None;
    }
    var t := ValidTicket(c.value.numbers, c.value.bonus);
    return Some(if t.Some? then [t.value] else []);
  }

  lemma ElementsStep(s: string, first: bool, before: seq<Ticket>)
    requires Answers.More(s) && NextItem(s, first).Got? && TicketIn(NextItem(s, first).value).Some?
    ensures before + Elements(s, first) ==
            before + TicketIn(NextItem(s, first).value).value + Elements(NextItem(s, first).rest, false)
  {
    var ts := TicketIn(NextItem(s, first).value).value;
    var behind := Elements(NextItem(s, first).rest, false);
    assert before + (ts + behind) == before + ts + behind;
  }

  /**
   * The inner loop of `decodeTickets`, over the elements of an array just opened. `cut` tells that it
   * returned on an element that could not be decoded, rather than at the end of the array or text.
   */
  method TicketsOfArray(dec: Decoder) returns (tickets: seq<Ticket>, cut: bool)
    requires dec.state.ArrayStart?
    modifies dec
    ensures tickets == Elements(old(dec.rest), true)
    ensures !cut ==> !Answers.More(dec.rest)
  {
    tickets, cut := [], false;
    ghost var all := Elements(dec.rest, true);
    var more := true;
    while more
      invariant dec.state.ArrayStart? || dec.state.ArrayComma?
      invariant all == tickets + Elements(dec.rest, dec.state.ArrayStart?)
      invariant !more ==> !Answers.More(dec.rest)
      decreases |dec.rest|, more
    {
      SkipTwice(dec.rest);
      ElementsSkip(dec.rest, dec.state.ArrayStart?);
      more := dec.HasMore();
      if more {
        ghost var from, first := dec.rest, dec.state.ArrayStart?;
        var ts := DecodeTicket(dec);
        if ts == None {
          return tickets, true;
        }
        ElementsStep(from, first, tickets);
        tickets := tickets + ts.value;
      }
    }
  }

  method DecodeTickets(s: string) returns (tickets: seq<Ticket>)
    ensures tickets == Decoded(s)
  {
    var dec := new Decoder(s);
    tickets := [];
    var d := FirstDelim(dec);
    if d != Some('{') {
      return [];
    }
    ghost var arrayRead := false;
    var more := true;
    while more
      invariant !arrayRead ==> tickets == [] && (dec.state.ObjectStart? || dec.state.ObjectComma?)
                               && Decoded(s) == Fields(dec.rest, dec.state.ObjectStart?)
      invariant arrayRead ==> tickets == Decoded(s) && !Answers.More(dec.rest)
      invariant !more ==> tickets == Decoded(s)
      decreases !arrayRead, |dec.rest|, more
    {
      SkipTwice(dec.rest);
      FieldsSkip(dec.rest, dec.state.ObjectStart?);
      more := dec.HasMore();
      if more {
        var name := dec.NextToken();
        if name == None {
          break;
        }
        if name.value != Text("combinations") {
          var skip := dec.DecodeValue();
          if skip == None {
            break;
          }
          continue;
        }
        d := FirstDelim(dec);
        if d != Some('[') {
          break;
        }
        var cut;
        tickets, cut := TicketsOfArray(dec);
        if cut {
          return tickets;
        }
        arrayRead := true;
      }
    }
  }

  lemma SkipIdempotent(s: string)
    ensures SkipSpace(SkipSpace(s)) == SkipSpace(s)
  {
  }

  lemma SkipTwice(s: string)
    ensures Answers.More(SkipSpace(s)) == Answers.More(s)
  {
    SkipIdempotent(s);
  }

  lemma FieldsSkip(s: string, first: bool)
    ensures Fields(SkipSpace(s), first) == Fields(s, first)
  {
    SkipIdempotent(s);
  }

  lemma ReadValueSkip(s: string, depth: nat)
    ensures ReadValue(SkipSpace(s), depth) == ReadValue(s, depth)
  {
    SkipIdempotent(s);
  }

  lemma ElementsSkip(s: string, first: bool)
    ensures Elements(SkipSpace(s), first) == Elements(s, first)
  {
    SkipIdempotent(s);
    ReadValueSkip(s, 0);
  }

  ghost predicate GivesDecodings(decode: string -> seq<Ticket>) {
    forall x {:trigger Decoded(x)} :: decode(x) == Decoded(x)
  }

  method DecodeCandidate(s: string, ghost decode: string -> seq<Ticket>) returns (tickets: seq<Ticket>)
    requires GivesDecodings(decode)
    ensures tickets == decode(s)
  {
    tickets := DecodeTickets(s);
    assert decode(s) == Decoded(s);
  }

  /** The search loop of `ExtractTickets`: the position only moves forward, one candidate brace at a time. */
  method SearchCandidates(cleaned: string, ghost decode: string -> seq<Ticket>) returns (tickets: seq<Ticket>)
    requires GivesDecodings(decode)
    ensures tickets == SearchBy(decode, cleaned, 0, MAX_CANDIDATES)
  {
    var attempt, pos := 0, 0;
    while attempt < MAX_CANDIDATES
      invariant 0 <= attempt <= MAX_CANDIDATES && pos <= |cleaned|
      invariant SearchBy(decode, cleaned, 0, MAX_CANDIDATES) == SearchBy(decode, cleaned, pos, MAX_CANDIDATES - attempt)
    {
      var i := NextBrace(cleaned, pos);
      if i == None {
        return [];
      }
      pos := i.value;
      tickets := DecodeCandidate(cleaned[pos..], decode);
      if |tickets| > 0 {
        return tickets;
      }
      pos := pos + 1;
      attempt := attempt + 1;
    }
    return [];
  }

  method ExtractTickets(content: string) returns (tickets: seq<Ticket>)
    ensures tickets == Extracted(content)
  {
    tickets := SearchCandidates(Clean(content), Decoding());
  }
}
