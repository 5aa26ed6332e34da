/** The request and refill loop, against an arbitrary model server and an arbitrary time budget. */
module Propose {
  import opened Ints
  import opened Options
  import opened Tickets
  import opened TicketKeys
  import opened Extract
  import opened Render
  import opened Prompt
  import AnswerLaws
  import AnswerSearch

  datatype Reply = Text(content: string) | Failed

  /** What a session has recorded. */
  datatype Log = Log(prompts: seq<string>, texts: seq<string>, looks: seq<bool>)

  /**
   * The server and the context: what the k-th request is answered, and whether the j-th look at the
   * context finds it ended, are arbitrary. Prompts sent, texts received and looks are recorded.
   */
  class Session {
    const replies: nat -> Reply
    const ended: nat -> bool
    var prompts: seq<string>
    var texts: seq<string>
    var looks: seq<bool>

    ghost function Record(): Log
      reads this
    {
      Log(prompts, texts, looks)
    }

    constructor (replies: nat -> Reply, ended: nat -> bool)
      ensures this.replies == replies && this.ended == ended
      ensures prompts == [] && texts == [] && looks == []
    {
      this.replies, this.ended := replies, ended;
      prompts, texts, looks := [], [], [];
    }

    method ContextEnded() returns (b: bool)
      modifies this`looks
      ensures looks == old(looks) + [b] && b == ended(|old(looks)|)
    {
      b := ended(|looks|);
      looks := looks + [b];
    }

    method Complete(prompt: string) returns (r: Reply)
      modifies this`prompts, this`texts
      ensures prompts == old(prompts) + [prompt] && r == replies(|old(prompts)|)
      ensures texts == old(texts) + (if r.Text? then [r.content] else [])
    {
      r := replies(|prompts|);
      prompts := prompts + [prompt];
      if r.Text? {
        texts := texts + [r.content];
      }
    }
  }

  // ----- what has been found -----

  /** The first occurrence of every ticket, in order. */
  ghost function Dedupe(ts: seq<Ticket>): (r: seq<Ticket>)
    ensures |r| <= |ts|
  {
    if ts == [] then [] else
      var found, t := Dedupe(ts[..|ts| - 1]), ts[|ts| - 1];
      if t in found then found else found + [t]
  }

  /** Everything the texts hold, when `extract` says what one holds. */
  ghost function Gather(extract: string -> seq<Ticket>, texts: seq<string>): seq<Ticket> {
    if texts == [] then [] else Gather(extract, texts[..|texts| - 1]) + extract(texts[|texts| - 1])
  }

  ghost function FoundBy(extract: string -> seq<Ticket>, texts: seq<string>): seq<Ticket> {
    Dedupe(Gather(extract, texts))
  }

  /** `ExtractTickets` as a value. */
  ghost function Extraction(): string -> seq<Ticket> { x => Extracted(x) }

  /** The order-preserving dedupe of all tickets extracted from the texts received. */
  ghost function Found(texts: seq<string>): seq<Ticket> { FoundBy(Extraction(), texts) }

  lemma {:induction false} DedupeMembers(ts: seq<Ticket>)
    ensures Distinct(Dedupe(ts))
    ensures forall t :: t in Dedupe(ts) <==> t in ts
  {
    if ts != [] {
      var n := |ts| - 1;
      DedupeMembers(ts[..n]);
      assert ts == ts[..n] + [ts[n]];
    }
  }

  /** `at` lists where in `ts` the elements of `found` occur for the first time, from left to right. */
  ghost predicate FirstsAt(ts: seq<Ticket>, found: seq<Ticket>, at: seq<nat>) {
    && |at| == |found|
    && (forall i, j :: 0 <= i < j < |at| ==> at[i] < at[j])
    && (forall i :: 0 <= i < |at| ==> at[i] < |ts| && ts[at[i]] == found[i] && ts[at[i]] !in ts[..at[i]])
  }

  lemma KeepFirsts(ts: seq<Ticket>, t: Ticket, found: seq<Ticket>, at: seq<nat>)
    requires FirstsAt(ts, found, at)
    ensures FirstsAt(ts + [t], found, at)
  {
    forall i | 0 <= i < |at| ensures (ts + [t])[..at[i]] == ts[..at[i]] {
    }
  }

  lemma AddFirst(ts: seq<Ticket>, t: Ticket, found: seq<Ticket>, at: seq<nat>)
    requires FirstsAt(ts, found, at) && t !in ts
    ensures FirstsAt(ts + [t], found + [t], at + [|ts|])
  {
    KeepFirsts(ts, t, found, at);
    assert (ts + [t])[..|ts|] == ts;
  }

  /** Deduplicating keeps the order of first occurrences. */
  lemma {:induction false} DedupeOrder(ts: seq<Ticket>) returns (at: seq<nat>)
    ensures FirstsAt(ts, Dedupe(ts), at)
  {
    if ts == [] {
      at := [];
    } else {
      var n := |ts| - 1;
      assert ts == ts[..n] + [ts[n]];
      at := DedupeOrder(ts[..n]);
      DedupeMembers(ts[..n]);
      if ts[n] in Dedupe(ts[..n]) {
        KeepFirsts(ts[..n], ts[n], Dedupe(ts[..n]), at);
      } else {
        AddFirst(ts[..n], ts[n], Dedupe(ts[..n]), at);
        at := at + [n];
      }
    }
  }

  /** The positions of what is new in a list: neither found before nor earlier in the list. */
  ghost predicate NewAt(found: seq<Ticket>, more: seq<Ticket>, at: seq<nat>) {
    && (forall i, j :: 0 <= i < j < |at| ==> at[i] < at[j])
    && (forall i: nat :: i in at <==> i < |more| && more[i] !in found && more[i] !in more[..i])
  }

  ghost function Picked(more: seq<Ticket>, at: seq<nat>): (r: seq<Ticket>)
    requires forall i :: 0 <= i < |at| ==> at[i] < |more|
    ensures |r| == |at| && forall k :: 0 <= k < |r| ==> r[k] == more[at[k]]
  {
    seq(|at|, k requires 0 <= k < |at| => more[at[k]])
  }

  lemma NewAtOneMore(found: seq<Ticket>, more: seq<Ticket>, t: Ticket, at: seq<nat>)
    requires NewAt(found, more, at)
    ensures NewAt(found, more + [t], if t in found || t in more then at else at + [|more|])
  {
    var longer, next := more + [t], if t in found || t in more then at else at + [|more|];
    forall i: nat ensures i in next <==> i < |longer| && longer[i] !in found && longer[i] !in longer[..i] {
      assert i <= |more| ==> longer[..i] == more[..i];
      assert more[..|more|] == more;
      assert i in next <==> i in at || (i == |more| && !(t in found || t in more));
    }
    forall i, j | 0 <= i < j < |next| ensures next[i] < next[j] {
      assert at[i] in at;
    }
  }

  lemma PickedOneMore(more: seq<Ticket>, t: Ticket, at: seq<nat>)
    requires forall i :: 0 <= i < |at| ==> at[i] < |more|
    ensures Picked(more + [t], at) == Picked(more, at)
    ensures Picked(more + [t], at + [|more|]) == Picked(more, at) + [t]
  {
  }

  lemma NewAreThere(found: seq<Ticket>, more: seq<Ticket>, at: seq<nat>)
    requires NewAt(found, more, at)
    ensures forall i :: 0 <= i < |at| ==> at[i] < |more|
  {
    forall i | 0 <= i < |at| ensures at[i] < |more| {
      assert at[i] in at;
    }
  }

  lemma {:induction false} DedupeAppends(all: seq<Ticket>, more: seq<Ticket>) returns (at: seq<nat>)
    ensures NewAt(Dedupe(all), more, at) && forall i :: 0 <= i < |at| ==> at[i] < |more|
    ensures Dedupe(all + more) == Dedupe(all) + Picked(more, at)
  {
    if more == [] {
      at := [];
      assert all + more == all && Dedupe(all) + Picked(more, at) == Dedupe(all);
    } else {
      var n := |more| - 1;
      at := DedupeAppends(all, more[..n]);
      assert more == more[..n] + [more[n]];
      at := DedupeAppendsOne(all, more[..n], more[n], at);
    }
  }

  lemma DedupeLast(s: seq<Ticket>, t: Ticket)
    ensures Dedupe(s + [t]) == if t in s then Dedupe(s) else Dedupe(s) + [t]
  {
    assert (s + [t])[..|s|] == s;
    DedupeMembers(s);
  }

  lemma DedupeAppendsOne(all: seq<Ticket>, more: seq<Ticket>, t: Ticket, at: seq<nat>) returns (next: seq<nat>)
    requires NewAt(Dedupe(all), more, at) && forall i :: 0 <= i < |at| ==> at[i] < |more|
    requires Dedupe(all + more) == Dedupe(all) + Picked(more, at)
    ensures NewAt(Dedupe(all), more + [t], next) && forall i :: 0 <= i < |next| ==> next[i] < |more + [t]|
    ensures Dedupe(all + (more + [t])) == Dedupe(all) + Picked(more + [t], next)
  {
    next := if t in Dedupe(all) || t in more then at else at + [|more|];
    NewAtOneMore(Dedupe(all), more, t, at);
    NewAreThere(Dedupe(all), more + [t], next);
    PickedOneMore(more, t, at);
    DedupeGrowsBy(all, more, t, Dedupe(all), Picked(more, at));
  }

  lemma DedupeGrowsBy(all: seq<Ticket>, more: seq<Ticket>, t: Ticket, found: seq<Ticket>, picked: seq<Ticket>)
    requires found == Dedupe(all) && Dedupe(all + more) == found + picked
    ensures Dedupe(all + (more + [t])) == found + if t in found || t in more then picked else picked + [t]
  {
    DedupeMembers(all);
    DedupeLast(all + more, t);
    Appended(all, more, t);
    Appended(found, picked, t);
  }

  lemma Appended(a: seq<Ticket>, b: seq<Ticket>, t: Ticket)
    ensures a + (b + [t]) == (a + b) + [t] && (t in a + b <==> t in a || t in b)
  {
  }

  /** One more text adds to what was found just its new tickets, behind the others and in their order. */
  lemma FoundAppends(texts: seq<string>, x: string) returns (at: seq<nat>)
    ensures NewAt(Found(texts), Extracted(x), at) && forall i :: 0 <= i < |at| ==> at[i] < |Extracted(x)|
    ensures Found([]) == [] && Found(texts + [x]) == Found(texts) + Picked(Extracted(x), at)
  {
    GatherOneMore(Extraction(), texts, [x]);
    at := DedupeAppends(Gather(Extraction(), texts), Extracted(x));
  }

  lemma {:induction false} GatherAll(extract: string -> seq<Ticket>, texts: seq<string>)
    requires forall x, t :: t in extract(x) ==> Issuable(t)
    ensures forall t :: t in Gather(extract, texts) ==> Issuable(t)
  {
    if texts != [] {
      GatherAll(extract, texts[..|texts| - 1]);
    }
  }

  /** Everything found is a valid ticket, and none is there twice. */
  lemma FoundIsProper(texts: seq<string>)
    ensures Distinct(Found(texts)) && forall t :: t in Found(texts) ==> Issuable(t)
  {
    forall x, t | t in Extraction()(x) ensures Issuable(t) {
      ExtractedIssuable(x);
    }
    GatherAll(Extraction(), texts);
    DedupeMembers(Gather(Extraction(), texts));
  }

  lemma {:induction false} DedupeOfDistinct(ts: seq<Ticket>)
    requires Distinct(ts)
    ensures Dedupe(ts) == ts
  {
    if ts != [] {
      var n := |ts| - 1;
      DedupeOfDistinct(ts[..n]);
      assert ts == ts[..n] + [ts[n]];
    }
  }

  lemma FoundInOne(extract: string -> seq<Ticket>, text: string)
    requires Distinct(extract(text))
    ensures FoundBy(extract, [text]) == extract(text)
  {
    GatherOneMore(extract, [], [text]);
    assert [] + [text] == [text];
    assert [] + extract(text) == extract(text);
    DedupeOfDistinct(extract(text));
  }

  /** An answer in the prescribed format is taken whole, however few tickets were asked for. */
  lemma OversizedAnswerIsKept(ts: seq<Ticket>)
    requires ts != [] && Distinct(ts) && forall i :: 0 <= i < |ts| ==> Issuable(ts[i])
    ensures Found([AnswerText(ts)]) == ts
  {
    AnswerLaws.AnswerRoundTrip([], ts, "");
    var text := AnswerText(ts);
    assert text + "" == text;
    assert AnswerSearch.Before([], text) == text;
    assert Extraction()(text) == ts;
    FoundInOne(Extraction(), AnswerText(ts));
  }

  // ----- the loop -----

  datatype Outcome = Proposed(tickets: seq<Ticket>) | BudgetSpent | RequestFailed

  const MAX_REFILLS: nat := 2

  /** What a list of texts holds. */
  type Finder = seq<string> -> seq<Ticket>

  ghost function Finding(): Finder { texts => Found(texts) }

  /** What the prompt says for a remainder and a list of exclusions. */
  type Wording = (nat, seq<Ticket>) -> string

  ghost function PromptWording(main: seq<int>, bonus: seq<int>, totalDraws: int): Wording {
    (rest, exclude) => PromptText(rest, main, bonus, totalDraws, exclude)
  }

  /** Request number `k` asked for the positive remainder and excluded everything found before it. */
  ghost predicate AsksForRest(find: Finder, wording: Wording, sent: seq<string>, got: seq<string>, k: nat, count: nat)
    requires k < |sent| && k <= |got|
  {
    var found := find(got[..k]);
    |found| < count && sent[k] == wording(count - |found|, found)
  }

  ghost predicate AllAskForRest(find: Finder, wording: Wording, sent: seq<string>, got: seq<string>, count: nat) {
    |got| <= |sent| <= |got| + 1
    && forall k :: 0 <= k < |sent| ==> AsksForRest(find, wording, sent, got, k, count)
  }

  /** The last look at the context found it ended. */
  ghost predicate LastLook(looks: seq<bool>, ended: bool) { looks != [] && looks[|looks| - 1] == ended }

  /** How a run may end: with everything found, or with an error when nothing was, or a request failed in time. */
  ghost predicate EndsWell(outcome: Outcome, found: seq<Ticket>, count: nat, sent: nat, got: nat, looks: seq<bool>) {
    match outcome
    case Proposed(tickets) =>
      && tickets == found && sent <= got + 1
      && (|tickets| < count ==> got == 3 || (tickets != [] && LastLook(looks, true)))
    case BudgetSpent => found == [] && sent == got <= 2 && LastLook(looks, true)
    case RequestFailed => sent == got + 1 && (found == [] || LastLook(looks, false))
  }

  /** The texts are what the server answered, from reply number `base` on; a request without a text failed. */
  ghost predicate Answered(replies: nat -> Reply, base: nat, sent: nat, got: seq<string>) {
    && |got| <= sent <= |got| + 1
    && (forall k :: 0 <= k < |got| ==> replies(base + k) == Text(got[k]))
    && (sent == |got| + 1 ==> replies(base + |got|).Failed?)
  }

  /** The looks from number `base` on are what the context showed. */
  ghost predicate Looked(ended: nat -> bool, base: nat, looks: seq<bool>) {
    forall j :: base <= j < |looks| ==> looks[j] == ended(j)
  }

  /** Since `start` the session has sent `sent` and received `got`, as server and context would have it. */
  ghost predicate Logged(log: Log, start: Log, replies: nat -> Reply, ended: nat -> bool,
                         sent: seq<string>, got: seq<string>)
  {
    && log.prompts == start.prompts + sent && log.texts == start.texts + got
    && Answered(replies, |start.prompts|, |sent|, got)
    && |start.looks| <= |log.looks| && Looked(ended, |start.looks|, log.looks)
  }

  lemma LoggedRequest(log: Log, start: Log, replies: nat -> Reply, ended: nat -> bool,
                      sent: seq<string>, got: seq<string>, prompt: string, more: seq<string>)
    requires Logged(log, start, replies, ended, sent, got) && |sent| == |got| && |more| <= 1
    requires more == [] ==> replies(|log.prompts|).Failed?
    requires more != [] ==> replies(|log.prompts|) == Text(more[0])
    ensures Logged(Log(log.prompts + [prompt], log.texts + more, log.looks), start, replies, ended,
                   sent + [prompt], got + more)
  {
    assert start.prompts + sent + [prompt] == start.prompts + (sent + [prompt]);
    assert start.texts + got + more == start.texts + (got + more);
  }

  ghost predicate GivesExtractions(extract: string -> seq<Ticket>) {
    forall x {:trigger Extracted(x)} :: extract(x) == Extracted(x)
  }

  ghost predicate FindsBy(find: Finder, extract: string -> seq<Ticket>) {
    forall texts {:trigger FoundBy(extract, texts)} :: find(texts) == FoundBy(extract, texts)
  }

  ghost predicate GivesPrompts(wording: Wording, main: seq<int>, bonus: seq<int>, totalDraws: int) {
    forall rest: nat, exclude {:trigger PromptText(rest, main, bonus, totalDraws, exclude)} ::
      wording(rest, exclude) == PromptText(rest, main, bonus, totalDraws, exclude)
  }

  lemma DedupeOneMore(all: seq<Ticket>, extracted: seq<Ticket>, i: nat)
    requires i < |extracted|
    ensures var found, t := Dedupe(all + extracted[..i]), extracted[i];
            Dedupe(all + extracted[..i + 1]) == if t in found then found else found + [t]
  {
    var s := all + extracted[..i + 1];
    assert s[..|s| - 1] == all + extracted[..i];
  }

  lemma KeysOneMore(tickets: seq<Ticket>, t: Ticket)
    ensures Keys(tickets + [t]) == Keys(tickets) + {Key(t)}
  {
    assert forall u :: u in tickets + [t] <==> u in tickets || u == t;
  }

  /** Adds extracted tickets to what was found, skipping keys already seen. */
  method Absorb(extracted: seq<Ticket>, found: seq<Ticket>, seenBefore: set<string>, ghost all: seq<Ticket>)
    returns (tickets: seq<Ticket>, seen: set<string>)
    requires found == Dedupe(all) && seenBefore == Keys(found)
    ensures tickets == Dedupe(all + extracted) && seen == Keys(tickets)
  {
    tickets, seen := found, seenBefore;
    assert all + extracted[..0] == all;
    for i := 0 to |extracted|
      invariant tickets == Dedupe(all + extracted[..i]) && seen == Keys(tickets)
    {
      var t := extracted[i];
      var key := Key(t);
      KeysAreTickets(tickets, t);
      DedupeOneMore(all, extracted, i);
      if key !in seen {
        KeysOneMore(tickets, t);
        seen := seen + {key};
        tickets := tickets + [t];
      }
    }
    assert extracted[..|extracted|] == extracted;
  }

  lemma GatherOneMore(extract: string -> seq<Ticket>, got: seq<string>, more: seq<string>)
    requires |more| == 1
    ensures Gather(extract, got + more) == Gather(extract, got) + extract(more[0])
  {
    assert (got + more)[..|got|] == got;
  }

  lemma FoundOneMore(extract: string -> seq<Ticket>, got: seq<string>, more: seq<string>)
    requires |more| == 1
    ensures FoundBy(extract, got + more) == Dedupe(Gather(extract, got) + extract(more[0]))
  {
    GatherOneMore(extract, got, more);
  }

  /** One more request keeps what the earlier ones asked for. */
  lemma AsksStill(find: Finder, wording: Wording, sent: seq<string>, got: seq<string>, more: seq<string>, count: nat)
    requires |sent| == |got| && |more| <= 1 && |find(got)| < count
    requires AllAskForRest(find, wording, sent, got, count)
    ensures AllAskForRest(find, wording, sent + [wording(count - |find(got)|, find(got))], got + more, count)
  {
    var sent' := sent + [wording(count - |find(got)|, find(got))];
    forall k | 0 <= k < |sent'| ensures AsksForRest(find, wording, sent', got + more, k, count) {
      assert (got + more)[..k] == got[..k];
      if k < |sent| {
        assert AsksForRest(find, wording, sent, got, k, count);
      } else {
        assert got[..k] == got;
      }
    }
  }

  /** One request: the prompt composed and sent, and the tickets of the answer if there is one. */
  method Ask(session: Session, rest: nat, main: seq<int>, bonus: seq<int>, totalDraws: int, exclude: seq<Ticket>,
             ghost extract: string -> seq<Ticket>, ghost wording: Wording)
    returns (answer: Option<seq<Ticket>>, ghost more: seq<string>)
    requires GivesExtractions(extract) && GivesPrompts(wording, main, bonus, totalDraws)
    modifies session`prompts, session`texts
    ensures session.prompts == old(session.prompts) + [wording(rest, exclude)]
    ensures session.texts == old(session.texts) + more
    ensures match answer
            case None => more == [] && session.replies(|old(session.prompts)|).Failed?
            case Some(ts) =>
              |more| == 1 && ts == extract(more[0]) && session.replies(|old(session.prompts)|) == Text(more[0])
  {
    var prompt := ComposePrompt(rest, main, bonus, totalDraws, exclude);
    var reply := session.Complete(prompt);
    if reply.Failed? {
      return None, [];
    }
    var ts := ExtractTickets(reply.content);
    assert ts == Extracted(reply.content);
    return Some(ts), [reply.content];
  }

  /** One round of the loop behind its look at the context: a request, and its answer added to what was found. */
  method AskMore(session: Session, rest: nat, main: seq<int>, bonus: seq<int>, totalDraws: int, exclude: seq<Ticket>,
                 found: seq<Ticket>, seenBefore: set<string>,
                 ghost got: seq<string>, ghost find: Finder, ghost extract: string -> seq<Ticket>,
                 ghost wording: Wording)
    returns (answered: bool, tickets: seq<Ticket>, seen: set<string>, ghost more: seq<string>)
    requires FindsBy(find, extract) && GivesExtractions(extract) && GivesPrompts(wording, main, bonus, totalDraws)
    requires found == find(got) && seenBefore == Keys(found)
    modifies session`prompts, session`texts
    ensures session.prompts == old(session.prompts) + [wording(rest, exclude)]
    ensures session.texts == old(session.texts) + more
    ensures if answered then |more| == 1 && session.replies(|old(session.prompts)|) == Text(more[0])
            else more == [] && session.replies(|old(session.prompts)|).Failed?
    ensures tickets == find(got + more) && seen == Keys(tickets)
  {
    assert got + [] == got;
    var answer;
    answer, more := Ask(session, rest, main, bonus, totalDraws, exclude, extract, wording);
    answered, tickets, seen := answer.Some?, found, seenBefore;
    if answered {
      assert found == FoundBy(extract, got);
      FoundOneMore(extract, got, more);
      tickets, seen := Absorb(answer.value, found, seenBefore, Gather(extract, got));
    }
  }

  /** Between rounds: what the session has recorded, and that every request asked for the rest. */
  ghost predicate Standing(log: Log, session: Session, start: Log, find: Finder, wording: Wording, count: nat,
                           sent: seq<string>, got: seq<string>)
  {
    Logged(log, start, session.replies, session.ended, sent, got) && AllAskForRest(find, wording, sent, got, count)
  }

  lemma StandsAfterRequest(log: Log, session: Session, start: Log, find: Finder, wording: Wording, count: nat,
                           sent: seq<string>, got: seq<string>, more: seq<string>)
    requires Standing(log, session, start, find, wording, count, sent, got)
    requires |sent| == |got| && |more| <= 1 && |find(got)| < count
    requires if more == [] then session.replies(|log.prompts|).Failed?
             else session.replies(|log.prompts|) == Text(more[0])
    ensures var prompt := wording(count - |find(got)|, find(got));
            Standing(Log(log.prompts + [prompt], log.texts + more, log.looks), session, start, find, wording, count,
                     sent + [prompt], got + more)
  {
    AsksStill(find, wording, sent, got, more, count);
    LoggedRequest(log, start, session.replies, session.ended, sent, got,
                  wording(count - |find(got)|, find(got)), more);
  }

  /** One round of the loop: it ends with an outcome, or with more found. */
  method Round(session: Session, attempt: nat, count: nat, main: seq<int>, bonus: seq<int>, totalDraws: int,
               found: seq<Ticket>, seenBefore: set<string>, ghost start: Log, ghost find: Finder,
               ghost extract: string -> seq<Ticket>, ghost wording: Wording,
               ghost sentBefore: seq<string>, ghost gotBefore: seq<string>)
    returns (outcome: Option<Outcome>, tickets: seq<Ticket>, seen: set<string>,
             ghost sent: seq<string>, ghost got: seq<string>)
    requires FindsBy(find, extract) && GivesExtractions(extract) && GivesPrompts(wording, main, bonus, totalDraws)
    requires Standing(session.Record(), session, start, find, wording, count, sentBefore, gotBefore)
    requires attempt == |sentBefore| == |gotBefore| <= MAX_REFILLS && (attempt == 0 ==> found == [])
    requires found == find(gotBefore) && |found| < count && seenBefore == Keys(found)
    modifies session
    ensures Standing(session.Record(), session, start, find, wording, count, sent, got)
    ensures |sent| <= |sentBefore| + 1
    ensures match outcome
            case None => |sent| == |got| == |sentBefore| + 1 && tickets == find(got) && seen == Keys(tickets)
            case Some(o) => EndsWell(o, find(got), count, |sent|, |got|, session.looks)
  {
    tickets, seen, sent, got := found, seenBefore, sentBefore, gotBefore;
    var over := session.ContextEnded();
    if over {
      outcome := Some(if |tickets| == 0 then BudgetSpent else Proposed(tickets));
      return;
    }
    var exclude: seq<Ticket> := [];
    if attempt > 0 {
      exclude := tickets;
    }
    ghost var log := session.Record();
    var answered;
    ghost var more;
    answered, tickets, seen, more :=
      AskMore(session, count - |found|, main, bonus, totalDraws, exclude, found, seen, got, find, extract, wording);
    StandsAfterRequest(log, session, start, find, wording, count, sent, got, more);
    sent, got := sent + [wording(count - |found|, found)], got + more;
    if !answered {
      over := session.ContextEnded();
      assert got == gotBefore;
      outcome := Some(if over && |tickets| > 0 then Proposed(tickets) else RequestFailed);
      return;
    }
    outcome := None;
  }

  /** The loop, for whatever answers hold and prompts say. */
  method AskUntilEnough(session: Session, count: nat, main: seq<int>, bonus: seq<int>, totalDraws: int,
                        ghost find: Finder, ghost extract: string -> seq<Ticket>, ghost wording: Wording)
    returns (outcome: Outcome, ghost sent: seq<string>, ghost got: seq<string>)
    requires FindsBy(find, extract) && GivesExtractions(extract) && GivesPrompts(wording, main, bonus, totalDraws)
    requires find([]) == []
    modifies session
    ensures Standing(session.Record(), session, old(session.Record()), find, wording, count, sent, got)
    ensures |sent| <= 3
    ensures EndsWell(outcome, find(got), count, |sent|, |got|, session.looks)
  {
    sent, got := [], [];
    var seen: set<string> := {};
    var tickets: seq<Ticket> := [];
    var attempt := 0;
    while |tickets| < count && attempt <= MAX_REFILLS
      invariant attempt == |sent| == |got| <= MAX_REFILLS + 1
      invariant Standing(session.Record(), session, old(session.Record()), find, wording, count, sent, got)
      invariant tickets == find(got) && seen == Keys(tickets)
      decreases MAX_REFILLS + 1 - attempt
    {
      var ended;
      ended, tickets, seen, sent, got := Round(session, attempt, count, main, bonus, totalDraws, tickets, seen,
                                               old(session.Record()), find, extract, wording, sent, got);
      if ended.Some? {
        outcome := ended.value;
        return;
      }
      attempt := attempt + 1;
    }
    outcome := Proposed(tickets);
  }

  /** `Propose`: at most three requests, each for a positive remainder, and how it may end. */
  method Propose(session: Session, count: nat, main: seq<int>, bonus: seq<int>, totalDraws: int)
    returns (outcome: Outcome, ghost sent: seq<string>, ghost got: seq<string>)
    modifies session
    ensures session.prompts == old(session.prompts) + sent && session.texts == old(session.texts) + got
    ensures Answered(session.replies, |old(session.prompts)|, |sent|, got)
    ensures |old(session.looks)| <= |session.looks| && Looked(session.ended, |old(session.looks)|, session.looks)
    ensures |sent| <= 3
    ensures AllAskForRest(Finding(), PromptWording(main, bonus, totalDraws), sent, got, count)
    ensures |got| <= |sent| <= |got| + 1
    ensures forall k :: 0 <= k < |sent| ==>
              var found := Found(got[..k]);
              |found| < count && sent[k] == PromptText(count - |found|, main, bonus, totalDraws, found)
    ensures EndsWell(outcome, Found(got), count, |sent|, |got|, session.looks)
    ensures match outcome
            case Proposed(tickets) => tickets == Found(got) && (|tickets| >= count || |got| == 3 || tickets != [])
            case BudgetSpent => Found(got) == [] && |sent| == |got| <= 2
            case RequestFailed => |sent| == |got| + 1
    ensures |Found(got)| > count <==> LastOvershoots(got, count)
  {
    ghost var find, wording := Finding(), PromptWording(main, bonus, totalDraws);
    outcome, sent, got := AskUntilEnough(session, count, main, bonus, totalDraws, find, Extraction(), wording);
    OvershootIff(wording, sent, got, count);
    EachAsksForRest(main, bonus, totalDraws, sent, got, count);
  }

  lemma EachAsksForRest(main: seq<int>, bonus: seq<int>, totalDraws: int,
                        sent: seq<string>, got: seq<string>, count: nat)
    requires AllAskForRest(Finding(), PromptWording(main, bonus, totalDraws), sent, got, count)
    ensures forall k :: 0 <= k < |sent| ==>
              var found := Found(got[..k]);
              |found| < count && sent[k] == PromptText(count - |found|, main, bonus, totalDraws, found)
  {
    forall k | 0 <= k < |sent|
      ensures var found := Found(got[..k]);
              |found| < count && sent[k] == PromptText(count - |found|, main, bonus, totalDraws, found)
    {
      assert AsksForRest(Finding(), PromptWording(main, bonus, totalDraws), sent, got, k, count);
    }
  }

  // ----- more tickets than were asked for -----

  /** The tickets of a list that are not among those found. */
  ghost function NewIn(found: seq<Ticket>, ts: seq<Ticket>): set<Ticket> {
    set t | t in ts && t !in found
  }

  /** The last answer holds more new tickets than the remainder it was asked for. */
  ghost predicate LastOvershoots(got: seq<string>, count: nat) {
    got != []
    && var found := Found(got[..|got| - 1]);
       |NewIn(found, Extracted(got[|got| - 1]))| > count - |found|
  }

  lemma {:induction false} DistinctSize(ts: seq<Ticket>, all: set<Ticket>)
    requires Distinct(ts) && forall t :: t in all <==> t in ts
    ensures |all| == |ts|
    decreases |ts|
  {
    if ts == [] {
      assert all == {};
    } else {
      var n := |ts| - 1;
      assert ts == ts[..n] + [ts[n]];
      assert ts[n] !in ts[..n];
      DistinctSize(ts[..n], all - {ts[n]});
    }
  }

  /** Deduplicating a longer list adds exactly its new tickets. */
  lemma DedupeGrows(all: seq<Ticket>, more: seq<Ticket>)
    ensures |Dedupe(all + more)| == |Dedupe(all)| + |NewIn(Dedupe(all), more)|
  {
    DedupeMembers(all);
    DedupeMembers(all + more);
    var before := set t | t in all;
    var added := NewIn(Dedupe(all), more);
    DistinctSize(Dedupe(all), before);
    DistinctSize(Dedupe(all + more), before + added);
    assert before !! added;
  }

  lemma FoundGrows(extract: string -> seq<Ticket>, got: seq<string>)
    requires got != []
    ensures var n := |got| - 1;
            var found := FoundBy(extract, got[..n]);
            |FoundBy(extract, got)| == |found| + |NewIn(found, extract(got[n]))|
  {
    var n := |got| - 1;
    assert got == got[..n] + [got[n]];
    FoundOneMore(extract, got[..n], [got[n]]);
    DedupeGrows(Gather(extract, got[..n]), extract(got[n]));
  }

  /** Only the last answer can hold too many, and exactly then too many are found. */
  lemma OvershootIff(wording: Wording, sent: seq<string>, got: seq<string>, count: nat)
    requires AllAskForRest(Finding(), wording, sent, got, count)
    ensures |Found(got)| > count <==> LastOvershoots(got, count)
    ensures forall k :: 0 <= k < |got| ==> |Found(got[..k])| < count
  {
    forall k | 0 <= k < |got| ensures |Found(got[..k])| < count {
      assert AsksForRest(Finding(), wording, sent, got, k, count);
    }
    if got != [] {
      FoundGrows(Extraction(), got);
    }
  }

  /**
   * A run that returns too many: a server that answers every request with the same list, in the prescribed
   * format, is asked for fewer tickets than the list holds, and all of them are proposed.
   */
  method ProposeTooMany(ts: seq<Ticket>, count: nat, main: seq<int>, bonus: seq<int>, totalDraws: int)
    returns (outcome: Outcome)
    requires 0 < count < |ts| && Distinct(ts) && forall i :: 0 <= i < |ts| ==> Issuable(ts[i])
    ensures outcome == Proposed(ts) && |outcome.tickets| > count
  {
    var session := new Session(_ => Text(AnswerText(ts)), _ => false);
    ghost var sent, got;
    outcome, sent, got := Propose(session, count, main, bonus, totalDraws);
    FullAnswerEnds(ts, count, PromptWording(main, bonus, totalDraws), sent, got);
  }

  /** Such answers end the run after the first. */
  lemma FullAnswerEnds(ts: seq<Ticket>, count: nat, wording: Wording, sent: seq<string>, got: seq<string>)
    requires 0 < count <= |ts| && Distinct(ts) && forall i :: 0 <= i < |ts| ==> Issuable(ts[i])
    requires AllAskForRest(Finding(), wording, sent, got, count)
    requires forall k :: 0 <= k < |got| ==> got[k] == AnswerText(ts)
    ensures |got| <= 1 && Found(got) == if got == [] then [] else ts
  {
    OversizedAnswerIsKept(ts);
    OvershootIff(wording, sent, got, count);
    if got != [] {
      assert got[..1] == [AnswerText(ts)];
    }
  }
}
