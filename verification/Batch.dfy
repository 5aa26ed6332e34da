/** What a batch is, over an arbitrary stream of attempted tickets. */
module Batch {
  import opened Tickets
  import opened TicketKeys

  const DUP_ATTEMPTS: nat := 20

  /** The first attempt made for position `i`, given the attempts accepted before. */
  ghost function AttemptStart(ends: seq<nat>, i: nat): nat
    requires i <= |ends|
  {
    if i == 0 then 0 else ends[i - 1] + 1
  }

  /** The attempts from `lo` up to `hi` all gave tickets that are in `tickets`. */
  ghost predicate AllSeen(f: nat -> Ticket, lo: nat, hi: nat, tickets: seq<Ticket>) {
    forall a :: lo <= a < hi ==> f(a) in tickets
  }

  lemma OneMoreSeen(f: nat -> Ticket, lo: nat, hi: nat, tickets: seq<Ticket>)
    requires AllSeen(f, lo, hi, tickets) && f(hi) in tickets
    ensures AllSeen(f, lo, hi + 1, tickets)
  {
  }

  /** How position `i` was filled: by attempt `ends[i]`, the first fresh one or else the twentieth. */
  ghost predicate FilledAt(f: nat -> Ticket, tickets: seq<Ticket>, ends: seq<nat>, i: nat)
    requires i < |tickets| == |ends|
  {
    var start := AttemptStart(ends, i);
    && start <= ends[i] < start + DUP_ATTEMPTS
    && tickets[i] == f(ends[i])
    && AllSeen(f, start, ends[i], tickets[..i])
    && (tickets[i] in tickets[..i] ==> ends[i] == start + DUP_ATTEMPTS - 1)
  }

  /** `tickets` is the batch that the attempts `f` yield; `ends` are the attempts accepted. */
  ghost predicate BatchRun(f: nat -> Ticket, tickets: seq<Ticket>, ends: seq<nat>) {
    |tickets| == |ends| && forall i :: 0 <= i < |ends| ==> FilledAt(f, tickets, ends, i)
  }

  lemma ExtendBatch(f: nat -> Ticket, tickets: seq<Ticket>, ends: seq<nat>, t: Ticket, e: nat)
    requires BatchRun(f, tickets, ends)
    requires AttemptStart(ends, |ends|) <= e < AttemptStart(ends, |ends|) + DUP_ATTEMPTS
    requires t == f(e)
    requires AllSeen(f, AttemptStart(ends, |ends|), e, tickets)
    requires t in tickets ==> e == AttemptStart(ends, |ends|) + DUP_ATTEMPTS - 1
    ensures BatchRun(f, tickets + [t], ends + [e])
    ensures AttemptStart(ends + [e], |ends| + 1) == e + 1
    ensures Keys(tickets + [t]) == Keys(tickets) + {Key(t)}
  {
    forall i | 0 <= i < |ends| + 1 ensures FilledAt(f, tickets + [t], ends + [e], i) {
      assert (tickets + [t])[..i] == tickets[..i];
      assert AttemptStart(ends + [e], i) == AttemptStart(ends, i);
      if i == |ends| {
        assert tickets[..i] == tickets;
      } else {
        assert FilledAt(f, tickets, ends, i);
      }
    }
    assert Keys(tickets + [t]) == Keys(tickets) + {Key(t)} by {
      assert forall u :: u in tickets + [t] <==> u in tickets || u == t;
    }
  }

  /** A batch is a function of the stream: the relation fixes both the tickets and the attempts. */
  lemma {:induction false} BatchDetermined(f: nat -> Ticket, ts: seq<Ticket>, es: seq<nat>,
                                           us: seq<Ticket>, fs: seq<nat>, n: nat)
    requires BatchRun(f, ts, es) && BatchRun(f, us, fs)
    requires n <= |ts| && n <= |us|
    ensures ts[..n] == us[..n] && es[..n] == fs[..n]
  {
    if n > 0 {
      var i := n - 1;
      BatchDetermined(f, ts, es, us, fs, i);
      assert AttemptStart(es, i) == AttemptStart(fs, i) by {
        if i > 0 { assert es[i - 1] == es[..i][i - 1] && fs[i - 1] == fs[..i][i - 1]; }
      }
      assert FilledAt(f, ts, es, i) && FilledAt(f, us, fs, i);
      assert es[i] == fs[i];
      assert ts[..n] == ts[..i] + [ts[i]] && us[..n] == us[..i] + [us[i]];
      assert es[..n] == es[..i] + [es[i]] && fs[..n] == fs[..i] + [fs[i]];
    }
  }

  lemma {:induction false} AttemptBounds(f: nat -> Ticket, ts: seq<Ticket>, es: seq<nat>, n: nat)
    requires BatchRun(f, ts, es) && n <= |ts|
    ensures n <= AttemptStart(es, n) <= DUP_ATTEMPTS * n
  {
    if n > 0 {
      AttemptBounds(f, ts, es, n - 1);
      assert FilledAt(f, ts, es, n - 1);
    }
  }

  lemma RepeatAfterAll(f: nat -> Ticket, ts: seq<Ticket>, es: seq<nat>, i: nat)
    requires BatchRun(f, ts, es) && i < |ts| && ts[i] in ts[..i]
    ensures es[i] == AttemptStart(es, i) + DUP_ATTEMPTS - 1
    ensures AllSeen(f, AttemptStart(es, i), es[i] + 1, ts[..i])
  {
    assert FilledAt(f, ts, es, i);
    OneMoreSeen(f, AttemptStart(es, i), es[i], ts[..i]);
  }

  /** At most twenty attempts a position; a repeat stands for twenty attempts that all gave seen tickets. */
  lemma BatchBounds(f: nat -> Ticket, ts: seq<Ticket>, es: seq<nat>, n: nat)
    requires BatchRun(f, ts, es)
    requires n <= |ts|
    ensures n <= AttemptStart(es, n) <= DUP_ATTEMPTS * n
    ensures forall i :: 0 <= i < n && ts[i] in ts[..i] ==>
              && es[i] == AttemptStart(es, i) + DUP_ATTEMPTS - 1
              && AllSeen(f, AttemptStart(es, i), es[i] + 1, ts[..i])
  {
    AttemptBounds(f, ts, es, n);
    forall i | 0 <= i < n && ts[i] in ts[..i]
      ensures es[i] == AttemptStart(es, i) + DUP_ATTEMPTS - 1
      ensures AllSeen(f, AttemptStart(es, i), es[i] + 1, ts[..i])
    {
      RepeatAfterAll(f, ts, es, i);
    }
  }

  /**
   * How each ticket of a batch came about: from the first attempt not made for an earlier one, up to twenty
   * attempts; all but the last gave tickets already there, and so did the last only if it was the twentieth.
   */
  lemma TwentyAttempts(f: nat -> Ticket, ts: seq<Ticket>, es: seq<nat>, i: nat)
    requires BatchRun(f, ts, es) && i < |ts|
    ensures var start := if i == 0 then 0 else es[i - 1] + 1;
            && start <= es[i] < start + 20 && ts[i] == f(es[i])
            && (forall a :: start <= a < es[i] ==> f(a) in ts[..i])
            && (ts[i] in ts[..i] ==> es[i] == start + 19)
  {
    assert FilledAt(f, ts, es, i);
  }
}
