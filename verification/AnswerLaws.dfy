/**
 * The extraction laws: a printed answer is found and read back exactly, through noise in front and anything
 * behind, and an answer cut short yields exactly the tickets that were complete.
 */
module AnswerLaws {
  import opened Texts
  import opened Tickets
  import opened Json
  import opened Answers
  import opened Extract
  import opened Render
  import opened RoundTrip
  import opened AnswerSearch
  import opened Documents
  import opened Combinations
  import Grammar

  /**
   * The law of extraction, for any printed list: behind harmless text and reasoning, and in front of
   * anything, what is extracted is what the list is worth; if it is worth nothing the search goes on
   * behind it, one candidate spent on the answer and one on each of its tickets.
   */
  lemma AnswerLaw(segs: seq<Segment>, ts: seq<Ticket>, z: string)
    requires forall i :: 0 <= i < |segs| ==> Harmless(segs[i])
    requires AllPrintable(ts)
    ensures Extracted(Before(segs, AnswerText(ts) + z)) ==
            if Worths(ts) != [] then Worths(ts) else Search(Clean(z), Less(MAX_CANDIDATES - 1, |ts|))
  {
    AnswerTextWithout(ts);
    StartsWithBrace(ts, Clean(z));
    DecodeAnswer(ts, Clean(z));
    WithoutIsFree(AnswerText(ts), OPEN);
    SearchBehind(segs, AnswerText(ts), z);
    SearchPastAnswer(ts, Clean(z), MAX_CANDIDATES - 1);
  }

  /** So any non-empty list of valid tickets is extracted exactly. */
  lemma AnswerRoundTrip(segs: seq<Segment>, ts: seq<Ticket>, z: string)
    requires forall i :: 0 <= i < |segs| ==> Harmless(segs[i])
    requires forall i :: 0 <= i < |ts| ==> Issuable(ts[i])
    requires ts != []
    ensures Extracted(Before(segs, AnswerText(ts) + z)) == ts
  {
    IssuablesAreWorthThemselves(ts);
    AnswerLaw(segs, ts, z);
  }

  /** An empty answer is not final: the search goes on behind it, with one candidate fewer. */
  lemma EmptyAnswerGoesOn(segs: seq<Segment>, ts: seq<Ticket>, z: string)
    requires forall i :: 0 <= i < |segs| ==> Harmless(segs[i])
    requires ts == []
    ensures Extracted(Before(segs, AnswerText(ts) + z)) == Search(Clean(z), MAX_CANDIDATES - 1)
  {
    AnswerLaw(segs, ts, z);
  }

  /**
   * A list worth nothing, the empty one included, is extracted as nothing if and only if none of the braces
   * left to the search behind it decodes to a ticket.
   */
  lemma WorthlessAnswerIff(segs: seq<Segment>, ts: seq<Ticket>, z: string)
    requires forall i :: 0 <= i < |segs| ==> Harmless(segs[i])
    requires AllPrintable(ts) && Worths(ts) == []
    ensures Extracted(Before(segs, AnswerText(ts) + z)) == [] <==>
            forall i: nat :: Candidate(Clean(z), 0, Less(MAX_CANDIDATES - 1, |ts|), i) ==> Decoded(Clean(z)[i..]) == []
  {
    AnswerLaw(segs, ts, z);
    var s, n := Clean(z), Less(MAX_CANDIDATES - 1, |ts|);
    SearchIsEarliest(s, n);
    NothingFoundIff(Decoding(), s, n, Search(s, n));
    assert forall i: nat :: i <= |s| ==> Decoding()(s[i..]) == Decoded(s[i..]);
  }

  lemma NothingFoundIff(decode: string -> seq<Ticket>, s: string, n: nat, r: seq<Ticket>)
    requires EarliestBy(decode, s, 0, n, r)
    ensures r == [] <==> forall i: nat :: Candidate(s, 0, n, i) ==> decode(s[i..]) == []
  {
  }

  lemma CleanAnswer(ts: seq<Ticket>)
    ensures Clean(AnswerText(ts)) == AnswerText(ts)
  {
    AnswerTextWithout(ts);
    WithoutIsFree(AnswerText(ts), OPEN);
    CleanPastFree(AnswerText(ts), "");
    assert AnswerText(ts) + "" == AnswerText(ts);
  }

  lemma SearchAnswer(ts: seq<Ticket>, n: nat)
    requires AllPrintable(ts) && Worths(ts) != [] && n > 0
    ensures Search(AnswerText(ts), n) == Worths(ts)
  {
    var a := AnswerText(ts);
    assert a + "" == a && "" + a == a;
    StartsWithBrace(ts, "");
    DecodeAnswer(ts, "");
    FirstCandidate(Decoding(), "", a, n);
  }

  /** So the round trip fails for the empty list when a later answer follows. */
  lemma EmptyAnswerOverruled(t: Ticket)
    requires Issuable(t)
    ensures Extracted(AnswerText([]) + AnswerText([t])) == [t]
  {
    EmptyAnswerGoesOn([], [], AnswerText([t]));
    CleanAnswer([t]);
    IssuablesAreWorthThemselves([t]);
    SearchAnswer([t], MAX_CANDIDATES - 1);
  }

  lemma CutStartsWithBrace(ts: seq<Ticket>, k: nat)
    requires 0 < k <= |AnswerText(ts)|
    ensures StartsWith(AnswerText(ts)[..k], '{') && Without(AnswerText(ts)[..k], '<')
  {
    AnswerTextWithout(ts);
    StartsWithBrace(ts, "");
    assert AnswerText(ts) + "" == AnswerText(ts);
  }

  lemma NoAnswer(segs: seq<Segment>)
    requires forall i :: 0 <= i < |segs| ==> Harmless(segs[i])
    ensures Extracted(Before(segs, "")) == []
  {
    CleanBefore(segs, "");
    SearchFromNoise(Decoding(), NoiseOf(segs), "", MAX_CANDIDATES);
  }

  lemma SearchBehindLast(segs: seq<Segment>, a: string)
    requires forall i :: 0 <= i < |segs| ==> Harmless(segs[i])
    requires Without(a, '<') && StartsWith(a, '{')
    ensures Extracted(Before(segs, a)) ==
            if Decoded(a) != [] then Decoded(a) else SearchBy(Decoding(), a, 1, MAX_CANDIDATES - 1)
  {
    assert a + "" == a;
    WithoutIsFree(a, OPEN);
    SearchBehind(segs, a, "");
  }

  lemma CutSomewhere(segs: seq<Segment>, ts: seq<Ticket>, k: nat)
    requires forall i :: 0 <= i < |segs| ==> Harmless(segs[i])
    requires 0 < k <= |AnswerText(ts)|
    ensures Extracted(Before(segs, AnswerText(ts)[..k])) == Decoded(AnswerText(ts)[..k])
  {
    CutStartsWithBrace(ts, k);
    SearchBehindLast(segs, AnswerText(ts)[..k]);
    NothingInCutAnswer(ts, k, MAX_CANDIDATES - 1);
  }

  /**
   * The law of extraction for an answer cut short at any character: exactly what the tickets whose closing
   * brace survived are worth.
   */
  lemma CutLaw(segs: seq<Segment>, ts: seq<Ticket>, k: nat)
    requires forall i :: 0 <= i < |segs| ==> Harmless(segs[i])
    requires AllPrintable(ts) && k <= |AnswerText(ts)|
    ensures Extracted(Before(segs, AnswerText(ts)[..k])) == Worths(ts[..Survivors(ts, k)])
  {
    CutAnswer(ts, k);
    if k == 0 {
      NoAnswer(segs);
    } else {
      CutSomewhere(segs, ts, k);
    }
  }

  lemma BraceIsFirst(a: string, z: string)
    requires StartsWith(a, '{') && ReadValue(a, 0).Got?
    ensures StartsWith(a + z, '{') && ReadValue(a, 0).value.Object?
  {
    BraceIsObject(a);
  }

  /**
   * The law of extraction for any JSON document, however it is laid out and whatever else it holds: behind
   * harmless text and reasoning, and in front of anything, its first list of combinations is extracted; if
   * that yields no ticket the search goes on behind the document's first brace.
   */
  lemma DocumentLaw(segs: seq<Segment>, doc: string, z: string)
    requires forall i :: 0 <= i < |segs| ==> Harmless(segs[i])
    requires StartsWith(doc, '{') && ReadValue(doc, 0).Got? && Free(doc, OPEN)
    ensures ReadValue(doc, 0).value.Object?
    ensures var tickets := DocumentTickets(ReadValue(doc, 0).value.members);
            Extracted(Before(segs, doc + z)) ==
            if tickets != [] then tickets else SearchBy(Decoding(), doc + Clean(z), 1, MAX_CANDIDATES - 1)
  {
    BraceIsFirst(doc, Clean(z));
    ValueExtends(doc, 0, Clean(z));
    DocumentDecodes(doc + Clean(z), 0);
    SearchBehind(segs, doc, z);
  }

  /**
   * An ordinary answer, from outside: a JSON object whose first `combinations` is a list of objects that hold
   * the tickets, however it is laid out and whatever else is in it, is extracted as those that can be played.
   */
  lemma OrdinaryAnswer(segs: seq<Segment>, doc: string, z: string, i: nat, ts: seq<Ticket>)
    requires forall k :: 0 <= k < |segs| ==> Harmless(segs[k])
    requires StartsWith(doc, '{') && ReadValue(doc, 0).Got? && Free(doc, OPEN)
    requires ReadValue(doc, 0).value.Object? && FirstNamed(ReadValue(doc, 0).value.members, "combinations", i)
    requires var list := ReadValue(doc, 0).value.members[i].value;
             list.Array? && |list.items| == |ts| && forall k :: 0 <= k < |ts| ==> Holds(list.items[k], ts[k])
    requires Playables(ts) != []
    ensures Extracted(Before(segs, doc + z)) == Playables(ts)
  {
    var members := ReadValue(doc, 0).value.members;
    OnlyFirstNamed(members, i);
    HeldTickets(members[i].value.items, ts);
    DocumentLaw(segs, doc, z);
  }

  /** The same for an answer written out: any JSON object by the grammar, with any layout and any other members. */
  lemma WrittenAnswer(segs: seq<Segment>, t: Grammar.Tree, z: string, i: nat, ts: seq<Ticket>)
    requires forall k :: 0 <= k < |segs| ==> Harmless(segs[k])
    requires t.Record? && Grammar.Valid(t) && Grammar.Depth(t) <= 10000 && Free(Grammar.Text(t, ""), "<think>")
    requires var members := Grammar.FieldsMean(t.fields);
             && FirstNamed(members, "combinations", i) && members[i].value.Array? && |members[i].value.items| == |ts|
             && forall k :: 0 <= k < |ts| ==> Holds(members[i].value.items[k], ts[k])
    requires Playables(ts) != []
    ensures Extracted(Before(segs, Grammar.Text(t, "") + z)) == Playables(ts)
  {
    var doc := Grammar.Text(t, "");
    Grammar.ReadsTree(t, "", 0);
    assert doc[0] == '{';
    OrdinaryAnswer(segs, doc, z, i, ts);
  }

  lemma WorthOfPrefix(ts: seq<Ticket>, m: nat)
    requires forall i :: 0 <= i < |ts| ==> Issuable(ts[i])
    requires m <= |ts|
    ensures AllPrintable(ts) && Worths(ts[..m]) == ts[..m]
  {
    IssuablesAreWorthThemselves(ts);
    IssuablesAreWorthThemselves(ts[..m]);
  }

  /** For valid tickets, exactly the tickets that survived. */
  lemma CutRoundTrip(segs: seq<Segment>, ts: seq<Ticket>, k: nat)
    requires forall i :: 0 <= i < |segs| ==> Harmless(segs[i])
    requires forall i :: 0 <= i < |ts| ==> Issuable(ts[i])
    requires k <= |AnswerText(ts)|
    ensures Extracted(Before(segs, AnswerText(ts)[..k])) == ts[..Survivors(ts, k)]
  {
    WorthOfPrefix(ts, Survivors(ts, k));
    CutLaw(segs, ts, k);
  }
}
