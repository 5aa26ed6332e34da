/** Archive synchronisation: insert what is new, leave what is there, alone or racing with other runs. */
module Sync {
  import opened Ints
  import opened Options
  import opened Tickets
  import opened Sampling
  import opened Store
  import T = Timelottery

  datatype SyncIssue = OnPage(no: int, reason: T.Reason) | NotSaved(no: int)

  datatype SyncResult = SyncResult(added: nat, skipped: nat, total: nat, issues: seq<SyncIssue>)

  // ----- one run -----

  /** A parsed draw as a record to store. */
  function ToStore(d: T.Draw): Draw {
    Draw(d.no, d.numbers, d.bonus)
  }

  function AllToStore(ds: seq<T.Draw>): (r: seq<Draw>)
    ensures |r| == |ds|
  {
    seq(|ds|, i requires 0 <= i < |ds| => ToStore(ds[i]))
  }

  /** The table after inserting `ds` in order, insert `i` failing for another reason when `faults[i]`. */
  ghost function AfterInserts(rows: Rows, ds: seq<Draw>, faults: seq<bool>): Rows
    requires |faults| == |ds|
  {
    if ds == [] then rows
    else
      var n := |ds| - 1;
      AfterCreate(AfterInserts(rows, ds[..n], faults[..n]), ds[n], faults[n])
  }

  ghost function Outcomes(rows: Rows, ds: seq<Draw>, faults: seq<bool>): (os: seq<Outcome>)
    requires |faults| == |ds|
    ensures |os| == |ds|
  {
    if ds == [] then []
    else
      var n := |ds| - 1;
      Outcomes(rows, ds[..n], faults[..n])
      + [CreateOutcome(AfterInserts(rows, ds[..n], faults[..n]), ds[n], faults[n])]
  }

  function CountOf(os: seq<Outcome>, o: Outcome): nat {
    if os == [] then 0 else CountOf(os[..|os| - 1], o) + if os[|os| - 1] == o then 1 else 0
  }

  /** The draws whose insert neither succeeded nor met a duplicate. */
  function NotSavedOf(ds: seq<Draw>, os: seq<Outcome>): seq<SyncIssue>
    requires |os| == |ds|
  {
    if ds == [] then []
    else
      var n := |ds| - 1;
      NotSavedOf(ds[..n], os[..n]) + if os[n] == Done || os[n] == Duplicate then [] else [NotSaved(ds[n].no)]
  }

  function OnPageOf(issues: seq<T.Issue>): (r: seq<SyncIssue>)
    ensures |r| == |issues|
  {
    seq(|issues|, i requires 0 <= i < |issues| => OnPage(issues[i].no, issues[i].reason))
  }

  /** What a run over a parsed page reports. */
  ghost function Report(rows: Rows, draws: seq<T.Draw>, issues: seq<T.Issue>, faults: seq<bool>): SyncResult
    requires |faults| == |draws|
  {
    var ds := AllToStore(draws);
    var os := Outcomes(rows, ds, faults);
    SyncResult(CountOf(os, Done), CountOf(os, Duplicate), |draws| + |issues|, OnPageOf(issues) + NotSavedOf(ds, os))
  }

  lemma OneMoreInsert(rows: Rows, ds: seq<Draw>, faults: seq<bool>, i: nat)
    requires |faults| == |ds| && i < |ds|
    ensures var before := AfterInserts(rows, ds[..i], faults[..i]);
            && AfterInserts(rows, ds[..i + 1], faults[..i + 1]) == AfterCreate(before, ds[i], faults[i])
            && Outcomes(rows, ds[..i + 1], faults[..i + 1])
               == Outcomes(rows, ds[..i], faults[..i]) + [CreateOutcome(before, ds[i], faults[i])]
  {
    assert ds[..i + 1][..i] == ds[..i] && faults[..i + 1][..i] == faults[..i];
  }

  lemma OneMoreOutcome(ds: seq<Draw>, os: seq<Outcome>, d: Draw, o: Outcome, k: Outcome)
    requires |os| == |ds|
    ensures CountOf(os + [o], k) == CountOf(os, k) + if o == k then 1 else 0
    ensures NotSavedOf(ds + [d], os + [o])
            == NotSavedOf(ds, os) + if o == Done || o == Duplicate then [] else [NotSaved(d.no)]
  {
    assert (os + [o])[..|os|] == os && (ds + [d])[..|ds|] == ds;
  }

  /** The state of a run before insert `i`. */
  ghost predicate InRun(rows: Rows, ds: seq<Draw>, faults: seq<bool>, i: nat,
                        now: Rows, added: nat, skipped: nat, unsaved: seq<SyncIssue>)
    requires |faults| == |ds| && i <= |ds|
  {
    var os := Outcomes(rows, ds[..i], faults[..i]);
    && now == AfterInserts(rows, ds[..i], faults[..i])
    && added == CountOf(os, Done) && skipped == CountOf(os, Duplicate) && unsaved == NotSavedOf(ds[..i], os)
  }

  lemma RunMoves(rows: Rows, ds: seq<Draw>, faults: seq<bool>, i: nat,
                 now: Rows, added: nat, skipped: nat, unsaved: seq<SyncIssue>, o: Outcome)
    requires |faults| == |ds| && i < |ds| && InRun(rows, ds, faults, i, now, added, skipped, unsaved)
    requires o == CreateOutcome(now, ds[i], faults[i])
    ensures InRun(rows, ds, faults, i + 1, AfterCreate(now, ds[i], faults[i]),
                  added + (if o == Done then 1 else 0), skipped + (if o == Duplicate then 1 else 0),
                  unsaved + if o == Done || o == Duplicate then [] else [NotSaved(ds[i].no)])
  {
    var os := Outcomes(rows, ds[..i], faults[..i]);
    OneMoreInsert(rows, ds, faults, i);
    assert ds[..i + 1] == ds[..i] + [ds[i]];
    OneMoreOutcome(ds[..i], os, ds[i], o, Done);
    OneMoreOutcome(ds[..i], os, ds[i], o, Duplicate);
  }

  lemma RunEnds(rows: Rows, draws: seq<T.Draw>, issues: seq<T.Issue>, faults: seq<bool>,
                now: Rows, added: nat, skipped: nat, unsaved: seq<SyncIssue>)
    requires |faults| == |draws|
    requires InRun(rows, AllToStore(draws), faults, |draws|, now, added, skipped, unsaved)
    ensures now == AfterInserts(rows, AllToStore(draws), faults)
    ensures SyncResult(added, skipped, |draws| + |issues|, OnPageOf(issues) + unsaved)
            == Report(rows, draws, issues, faults)
  {
    var ds := AllToStore(draws);
    assert ds[..|ds|] == ds && faults[..|ds|] == faults;
  }

  // ----- what a run does, in terms of the page itself -----

  /** The insert of the page's draw `i` meets neither a failure nor a broken CHECK. */
  ghost predicate GoesIn(draws: seq<T.Draw>, faults: seq<bool>, i: int) {
    && 0 <= i < |draws| && i < |faults| && !faults[i]
    && |draws[i].numbers| == 7 && SchemaAccepts(draws[i].no, Sorted(draws[i].numbers), draws[i].bonus)
  }

  /** One of the first `m` draws that go in has the number. */
  ghost predicate Brought(draws: seq<T.Draw>, faults: seq<bool>, m: nat, k: int) {
    exists i :: 0 <= i < m && GoesIn(draws, faults, i) && draws[i].no == k
  }

  /**
   * The table once the first `m` draws are through: the old rows as they were, and beside them exactly the
   * draws that went in, under their own numbers, each as the first mention of its number has it.
   */
  ghost predicate PageStored(rows: Rows, draws: seq<T.Draw>, faults: seq<bool>, m: nat, now: Rows)
    requires m <= |draws|
  {
    && (forall k :: k in now <==> k in rows || Brought(draws, faults, m, k))
    && (forall k :: k in rows ==> k in now && now[k] == rows[k])
    && (forall i :: 0 <= i < m && GoesIn(draws, faults, i) && draws[i].no !in rows
          && !Brought(draws, faults, i, draws[i].no)
          ==> draws[i].no in now && now[draws[i].no] == Row(Sorted(draws[i].numbers), draws[i].bonus))
  }

  /** `unsaved` names the draws that did not go in, in order; `at` are their positions. */
  ghost predicate NamesFailures(draws: seq<T.Draw>, faults: seq<bool>, m: nat, unsaved: seq<SyncIssue>, at: seq<nat>)
    requires m <= |draws|
  {
    && |at| == |unsaved|
    && (forall i, j :: 0 <= i < j < |at| ==> at[i] < at[j])
    && (forall i: nat :: i in at <==> i < m && !GoesIn(draws, faults, i))
    && (forall i :: 0 <= i < |at| ==> at[i] < m && unsaved[i] == NotSaved(draws[at[i]].no))
  }

  lemma BroughtOneMore(draws: seq<T.Draw>, faults: seq<bool>, m: nat, k: int)
    requires m < |draws|
    ensures Brought(draws, faults, m + 1, k) <==>
            Brought(draws, faults, m, k) || (GoesIn(draws, faults, m) && draws[m].no == k)
  {
  }

  lemma KeysOneMore(rows: Rows, draws: seq<T.Draw>, faults: seq<bool>, m: nat, now: Rows, d: Draw, k: int)
    requires m < |draws| == |faults| && PageStored(rows, draws, faults, m, now)
    requires d.no == draws[m].no && d.numbers == draws[m].numbers && d.bonus == draws[m].bonus
    ensures k in AfterCreate(now, d, faults[m]) <==> k in rows || Brought(draws, faults, m + 1, k)
  {
    BroughtOneMore(draws, faults, m, k);
    assert CreateOutcome(now, d, faults[m]).Done? <==> GoesIn(draws, faults, m) && d.no !in now;
  }

  /** A draw that went in stays as it is; the one that goes in now is the first of its number. */
  lemma FirstOneMore(rows: Rows, draws: seq<T.Draw>, faults: seq<bool>, m: nat, now: Rows, d: Draw, i: nat)
    requires i <= m < |draws| == |faults| && PageStored(rows, draws, faults, m, now)
    requires d.no == draws[m].no && d.numbers == draws[m].numbers && d.bonus == draws[m].bonus
    requires GoesIn(draws, faults, i) && draws[i].no !in rows && !Brought(draws, faults, i, draws[i].no)
    ensures var next := AfterCreate(now, d, faults[m]);
            draws[i].no in next && next[draws[i].no] == Row(Sorted(draws[i].numbers), draws[i].bonus)
  {
    if i < m {
      assert draws[i].no in now;
    }
  }

  /** One more insert. */
  lemma StoredOneMore(rows: Rows, draws: seq<T.Draw>, faults: seq<bool>, m: nat, now: Rows, d: Draw)
    requires m < |draws| == |faults| && PageStored(rows, draws, faults, m, now)
    requires d.no == draws[m].no && d.numbers == draws[m].numbers && d.bonus == draws[m].bonus
    ensures PageStored(rows, draws, faults, m + 1, AfterCreate(now, d, faults[m]))
  {
    var next := AfterCreate(now, d, faults[m]);
    forall k ensures k in next <==> k in rows || Brought(draws, faults, m + 1, k) {
      KeysOneMore(rows, draws, faults, m, now, d, k);
    }
    forall i | 0 <= i < m + 1 && GoesIn(draws, faults, i) && draws[i].no !in rows
               && !Brought(draws, faults, i, draws[i].no)
      ensures draws[i].no in next && next[draws[i].no] == Row(Sorted(draws[i].numbers), draws[i].bonus)
    {
      FirstOneMore(rows, draws, faults, m, now, d, i);
    }
  }

  lemma NamedOneMore(draws: seq<T.Draw>, faults: seq<bool>, m: nat, unsaved: seq<SyncIssue>, at: seq<nat>)
    requires m < |draws| && NamesFailures(draws, faults, m, unsaved, at)
    ensures GoesIn(draws, faults, m) ==> NamesFailures(draws, faults, m + 1, unsaved, at)
    ensures !GoesIn(draws, faults, m) ==>
              NamesFailures(draws, faults, m + 1, unsaved + [NotSaved(draws[m].no)], at + [m])
  {
    if !GoesIn(draws, faults, m) {
      var more := at + [m];
      forall i: nat ensures i in more <==> i < m + 1 && !GoesIn(draws, faults, i) {
        assert i in more <==> i in at || i == m;
      }
    }
  }

  /** The outcome of one insert, by its draw. */
  lemma OutcomeOf(draws: seq<T.Draw>, faults: seq<bool>, m: nat, now: Rows, d: Draw)
    requires m < |draws| == |faults|
    requires d.no == draws[m].no && d.numbers == draws[m].numbers && d.bonus == draws[m].bonus
    ensures var o := CreateOutcome(now, d, faults[m]);
            && (o == Done || o == Duplicate <==> GoesIn(draws, faults, m))
            && |AfterCreate(now, d, faults[m])| == |now| + if o == Done then 1 else 0
  {
  }

  /** Table, additions and failures once the first `m` draws are through. */
  ghost predicate Through(rows: Rows, draws: seq<T.Draw>, faults: seq<bool>, m: nat,
                          now: Rows, added: nat, unsaved: seq<SyncIssue>, at: seq<nat>)
    requires m <= |draws|
  {
    && PageStored(rows, draws, faults, m, now) && |now| == |rows| + added
    && NamesFailures(draws, faults, m, unsaved, at)
  }

  lemma ThroughOneMore(rows: Rows, draws: seq<T.Draw>, faults: seq<bool>, m: nat,
                       now: Rows, added: nat, unsaved: seq<SyncIssue>, at: seq<nat>, d: Draw, o: Outcome)
    requires m < |draws| == |faults| && Through(rows, draws, faults, m, now, added, unsaved, at)
    requires d.no == draws[m].no && d.numbers == draws[m].numbers && d.bonus == draws[m].bonus
    requires o == CreateOutcome(now, d, faults[m])
    ensures var went := o == Done || o == Duplicate;
            Through(rows, draws, faults, m + 1, AfterCreate(now, d, faults[m]),
                    added + (if o == Done then 1 else 0), unsaved + (if went then [] else [NotSaved(d.no)]),
                    if went then at else at + [m])
  {
    StoredOneMore(rows, draws, faults, m, now, d);
    NamedOneMore(draws, faults, m, unsaved, at);
    OutcomeOf(draws, faults, m, now, d);
    assert unsaved + [] == unsaved;
  }

  lemma NothingThrough(rows: Rows, draws: seq<T.Draw>, faults: seq<bool>)
    ensures Through(rows, draws, faults, 0, rows, 0, [], [])
  {
  }

  /** The records are the draws of the page, field by field. */
  ghost predicate Mirrors(ds: seq<Draw>, draws: seq<T.Draw>) {
    |ds| == |draws|
    && forall i :: 0 <= i < |ds| ==>
         ds[i].no == draws[i].no && ds[i].numbers == draws[i].numbers && ds[i].bonus == draws[i].bonus
  }

  /** The first `m` inserts of a run, whichever fail. */
  lemma {:induction false} InsertsStore(rows: Rows, draws: seq<T.Draw>, ds: seq<Draw>, faults: seq<bool>, m: nat)
    requires Mirrors(ds, draws) && |faults| == |draws| && m <= |draws|
    ensures PageStored(rows, draws, faults, m, AfterInserts(rows, ds[..m], faults[..m]))
  {
    if m == 0 {
      NothingThrough(rows, draws, faults);
      assert ds[..0] == [];
    } else {
      InsertsStore(rows, draws, ds, faults, m - 1);
      OneMoreInsert(rows, ds, faults, m - 1);
      StoredOneMore(rows, draws, faults, m - 1, AfterInserts(rows, ds[..m - 1], faults[..m - 1]), ds[m - 1]);
    }
  }

  /** What a run reports: the page's own issues, then the draws that did not go in, and how many rows came. */
  ghost predicate Reports(res: SyncResult, page: T.Page, rows: Rows, now: Rows, faults: seq<bool>, at: seq<nat>)
    requires page.Found?
  {
    var n := |page.issues|;
    && |res.issues| >= n
    && (forall k :: 0 <= k < n ==> res.issues[k] == OnPage(page.issues[k].no, page.issues[k].reason))
    && NamesFailures(page.draws, faults, |page.draws|, res.issues[n..], at)
    && res.added == |now| - |rows| && res.added + res.skipped + |at| == |page.draws|
    && res.total == |page.draws| + n
  }

  lemma RunReports(rows: Rows, page: T.Page, faults: seq<bool>, now: Rows, added: nat, skipped: nat,
                   unsaved: seq<SyncIssue>, at: seq<nat>, res: SyncResult)
    requires page.Found? && |faults| == |page.draws|
    requires Through(rows, page.draws, faults, |page.draws|, now, added, unsaved, at)
    requires added + skipped + |at| == |page.draws|
    requires res == SyncResult(added, skipped, |page.draws| + |page.issues|, OnPageOf(page.issues) + unsaved)
    ensures Reports(res, page, rows, now, faults, at)
  {
    assert res.issues[|page.issues|..] == unsaved;
  }

  /** What is known before insert `i`, as a sum of outcomes and by the page. */
  ghost predicate Standing(rows: Rows, draws: seq<T.Draw>, faults: seq<bool>, i: nat,
                           now: Rows, added: nat, skipped: nat, unsaved: seq<SyncIssue>, at: seq<nat>)
    requires |faults| == |draws| && i <= |draws|
  {
    && InRun(rows, AllToStore(draws), faults, i, now, added, skipped, unsaved)
    && Through(rows, draws, faults, i, now, added, unsaved, at) && added + skipped + |at| == i
  }

  lemma StandingMoves(rows: Rows, draws: seq<T.Draw>, faults: seq<bool>, i: nat,
                      now: Rows, added: nat, skipped: nat, unsaved: seq<SyncIssue>, at: seq<nat>)
    returns (now': Rows, added': nat, skipped': nat, unsaved': seq<SyncIssue>, at': seq<nat>)
    requires |faults| == |draws| && i < |draws|
    requires Standing(rows, draws, faults, i, now, added, skipped, unsaved, at)
    ensures Standing(rows, draws, faults, i + 1, now', added', skipped', unsaved', at')
  {
    var ds := AllToStore(draws);
    var o := CreateOutcome(now, ds[i], faults[i]);
    var went := o == Done || o == Duplicate;
    assert ds[i] == Draw(draws[i].no, draws[i].numbers, draws[i].bonus);
    RunMoves(rows, ds, faults, i, now, added, skipped, unsaved, o);
    ThroughOneMore(rows, draws, faults, i, now, added, unsaved, at, ds[i], o);
    now' := AfterCreate(now, ds[i], faults[i]);
    added', skipped' := added + (if o == Done then 1 else 0), skipped + (if o == Duplicate then 1 else 0);
    unsaved', at' := unsaved + (if went then [] else [NotSaved(ds[i].no)]), if went then at else at + [i];
  }

  lemma {:induction false} RunStands(rows: Rows, draws: seq<T.Draw>, faults: seq<bool>, i: nat)
    returns (now: Rows, added: nat, skipped: nat, unsaved: seq<SyncIssue>, at: seq<nat>)
    requires |faults| == |draws| && i <= |draws|
    ensures Standing(rows, draws, faults, i, now, added, skipped, unsaved, at)
  {
    if i == 0 {
      now, added, skipped, unsaved, at := rows, 0, 0, [], [];
      NothingThrough(rows, draws, faults);
    } else {
      now, added, skipped, unsaved, at := RunStands(rows, draws, faults, i - 1);
      now, added, skipped, unsaved, at :=
        StandingMoves(rows, draws, faults, i - 1, now, added, skipped, unsaved, at);
    }
  }

  /** What a whole run did and reports, in terms of the page. */
  lemma RunMeans(rows: Rows, page: T.Page, faults: seq<bool>, now: Rows, added: nat, skipped: nat,
                 unsaved: seq<SyncIssue>, res: SyncResult) returns (at: seq<nat>)
    requires page.Found? && |faults| == |page.draws|
    requires InRun(rows, AllToStore(page.draws), faults, |page.draws|, now, added, skipped, unsaved)
    requires res == SyncResult(added, skipped, |page.draws| + |page.issues|, OnPageOf(page.issues) + unsaved)
    ensures PageStored(rows, page.draws, faults, |page.draws|, now)
    ensures Reports(res, page, rows, now, faults, at)
  {
    var now', added', skipped', unsaved', at' := RunStands(rows, page.draws, faults, |page.draws|);
    at := at';
    assert now' == now && added' == added && skipped' == skipped && unsaved' == unsaved;
    RunReports(rows, page, faults, now, added, skipped, unsaved, at, res);
  }

  /** The loop over the draws: each is inserted, and counted or reported. */
  method InsertAll(st: Store, draws: seq<T.Draw>, faults: seq<bool>, before: seq<SyncIssue>)
    returns (added: nat, skipped: nat, issues: seq<SyncIssue>, ghost unsaved: seq<SyncIssue>)
    requires st.Valid() && |faults| == |draws|
    modifies st
    ensures st.Valid() && issues == before + unsaved
    ensures InRun(old(st.rows), AllToStore(draws), faults, |draws|, st.rows, added, skipped, unsaved)
  {
    added, skipped, issues, unsaved := 0, 0, before, [];
    ghost var rows, ds := st.rows, AllToStore(draws);
    for i := 0 to |draws|
      invariant st.Valid() && issues == before + unsaved
      invariant InRun(rows, ds, faults, i, st.rows, added, skipped, unsaved)
    {
      var d := draws[i];
      ghost var now := st.rows;
      var o := st.Create(Draw(d.no, d.numbers, d.bonus), faults[i]);
      RunMoves(rows, ds, faults, i, now, added, skipped, unsaved, o);
      if o == Done {
        added := added + 1;
      } else if o == Duplicate {
        skipped := skipped + 1;
      } else {
        issues := issues + [NotSaved(d.no)];
        unsaved := unsaved + [NotSaved(d.no)];
      }
      assert unsaved + [] == unsaved;
    }
  }

  method PageIssues(issues: seq<T.Issue>) returns (out: seq<SyncIssue>)
    ensures out == OnPageOf(issues)
  {
    out := [];
    for i := 0 to |issues|
      invariant out == OnPageOf(issues)[..i]
    {
      out := out + [OnPage(issues[i].no, issues[i].reason)];
    }
  }

  /** `runSync`, from the parsed page on; the page may also be an error of the fetch. */
  method RunSync(st: Store, page: T.Page, faults: seq<bool>) returns (res: Option<SyncResult>, ghost at: seq<nat>)
    requires st.Valid()
    requires page.Found? ==> |faults| == |page.draws|
    modifies st
    ensures st.Valid()
    ensures !page.Found? ==> res.None? && st.rows == old(st.rows)
    ensures page.Found? ==> res == Some(Report(old(st.rows), page.draws, page.issues, faults))
    ensures page.Found? ==> st.rows == AfterInserts(old(st.rows), AllToStore(page.draws), faults)
    ensures page.Found? ==> PageStored(old(st.rows), page.draws, faults, |page.draws|, st.rows)
    ensures page.Found? ==> Reports(res.value, page, old(st.rows), st.rows, faults, at)
  {
    if !page.Found? {
      return None, [];
    }
    var draws := page.draws;
    var total := |draws| + |page.issues|;
    var issues := PageIssues(page.issues);
    ghost var rows := st.rows;
    var added, skipped;
    ghost var unsaved;
    added, skipped, issues, unsaved := InsertAll(st, draws, faults, issues);
    var result := SyncResult(added, skipped, total, issues);
    RunEnds(rows, draws, page.issues, faults, st.rows, added, skipped, unsaved);
    at := RunMeans(rows, page, faults, st.rows, added, skipped, unsaved, result);
    return Some(result), at;
  }

  /** Whatever the inserts answer, every row of the page is counted exactly once. */
  lemma Accounting(rows: Rows, draws: seq<T.Draw>, issues: seq<T.Issue>, faults: seq<bool>)
    requires |faults| == |draws|
    ensures var r := Report(rows, draws, issues, faults); r.added + r.skipped + |r.issues| == r.total
  {
    BucketsAddUp(AllToStore(draws), Outcomes(rows, AllToStore(draws), faults));
  }

  lemma {:induction false} BucketsAddUp(ds: seq<Draw>, os: seq<Outcome>)
    requires |os| == |ds|
    ensures CountOf(os, Done) + CountOf(os, Duplicate) + |NotSavedOf(ds, os)| == |ds|
  {
    if ds != [] {
      BucketsAddUp(ds[..|ds| - 1], os[..|ds| - 1]);
    }
  }

  /** No run removes or changes a row that is there, whatever is on the page and whichever inserts fail. */
  lemma {:induction false} InsertsOnlyAdd(rows: Rows, ds: seq<Draw>, faults: seq<bool>)
    requires |faults| == |ds|
    ensures var now := AfterInserts(rows, ds, faults); forall k :: k in rows ==> k in now && now[k] == rows[k]
  {
    if ds != [] {
      InsertsOnlyAdd(rows, ds[..|ds| - 1], faults[..|ds| - 1]);
    }
  }

  // ----- runs without failures -----

  /** A record the table accepts. */
  ghost predicate Acceptable(d: Draw) {
    |d.numbers| == 7 && SchemaAccepts(d.no, Sorted(d.numbers), d.bonus)
  }

  ghost predicate AllAcceptable(ds: seq<Draw>) {
    forall i :: 0 <= i < |ds| ==> Acceptable(ds[i])
  }

  /** What the parser yields is acceptable, and is stored as it is. */
  lemma ParsedIsAcceptable(rows: seq<seq<string>>)
    ensures AllAcceptable(AllToStore(T.DrawsOf(rows)))
    ensures forall d :: d in T.DrawsOf(rows) ==> Sorted(d.numbers) == d.numbers
  {
    T.DrawsAreAcceptable(rows);
    var draws := T.DrawsOf(rows);
    forall d | d in draws ensures Sorted(d.numbers) == d.numbers && Acceptable(ToStore(d)) {
      SortedOfAscending(d.numbers);
    }
    forall i | 0 <= i < |draws| ensures Acceptable(AllToStore(draws)[i]) {
      assert draws[i] in draws;
    }
  }

  /** A record as it is stored. */
  datatype Entry = Entry(no: int, row: Row)

  function EntryOf(d: Draw): Entry {
    Entry(d.no, Row(Sorted(d.numbers), d.bonus))
  }

  function EntriesOf(ds: seq<Draw>): (es: seq<Entry>)
    ensures |es| == |ds|
    ensures forall i :: 0 <= i < |es| ==> es[i] == EntryOf(ds[i])
  {
    seq(|ds|, i requires 0 <= i < |ds| => EntryOf(ds[i]))
  }

  /** Insert if absent: all that `Create` does with an acceptable record. */
  ghost function Put(rows: Rows, e: Entry): Rows {
    if e.no in rows then rows else rows[e.no := e.row]
  }

  lemma CreateIsPut(rows: Rows, d: Draw)
    requires Acceptable(d)
    ensures CreateOutcome(rows, d, false) == if d.no in rows then Duplicate else Done
    ensures AfterCreate(rows, d, false) == Put(rows, EntryOf(d))
  {
  }

  /** The table after the first `m` inserts of a run without failures. */
  ghost function Synced(rows: Rows, es: seq<Entry>, m: nat): Rows
    requires m <= |es|
  {
    if m == 0 then rows else Put(Synced(rows, es, m - 1), es[m - 1])
  }

  lemma RunStep(rows: Rows, ds: seq<Draw>, faults: seq<bool>, i: nat)
    requires |faults| == |ds| && i < |ds| && Acceptable(ds[i]) && !faults[i]
    ensures AfterInserts(rows, ds[..i + 1], faults[..i + 1])
            == Put(AfterInserts(rows, ds[..i], faults[..i]), EntryOf(ds[i]))
  {
    OneMoreInsert(rows, ds, faults, i);
    CreateIsPut(AfterInserts(rows, ds[..i], faults[..i]), ds[i]);
  }

  /** A table that changes entry by entry as inserts would change it. */
  lemma {:induction false} PutOneByOne(rows: Rows, es: seq<Entry>, after: nat -> Rows, m: nat)
    requires m <= |es| && after(0) == rows
    requires forall i: nat :: i < |es| ==> after(i + 1) == Put(after(i), es[i])
    ensures after(m) == Synced(rows, es, m)
  {
    if m > 0 {
      PutOneByOne(rows, es, after, m - 1);
      assert after((m - 1) + 1) == Put(after(m - 1), es[m - 1]);
    }
  }

  lemma WholeRunIsSynced(rows: Rows, ds: seq<Draw>)
    requires AllAcceptable(ds)
    ensures AfterInserts(rows, ds, Falses(|ds|)) == Synced(rows, EntriesOf(ds), |ds|)
  {
    var faults, es := Falses(|ds|), EntriesOf(ds);
    var after := (m: nat) => if m <= |ds| then AfterInserts(rows, ds[..m], faults[..m]) else rows;
    forall i: nat | i < |es| ensures after(i + 1) == Put(after(i), es[i]) {
      assert Acceptable(ds[i]);
      RunStep(rows, ds, faults, i);
    }
    PutOneByOne(rows, es, after, |ds|);
    assert ds[..|ds|] == ds && faults[..|ds|] == faults;
  }

  /** The number occurs among the first `m` entries. */
  ghost predicate Mentions(es: seq<Entry>, m: nat, k: int)
    requires m <= |es|
  {
    exists i :: 0 <= i < m && es[i].no == k
  }

  /** The numbers in the table are the old ones and those mentioned. */
  lemma {:induction false} SyncedKeys(rows: Rows, es: seq<Entry>, m: nat, k: int)
    requires m <= |es|
    ensures k in Synced(rows, es, m) <==> k in rows || Mentions(es, m, k)
  {
    if m > 0 {
      SyncedKeys(rows, es, m - 1, k);
      assert Mentions(es, m, k) <==> Mentions(es, m - 1, k) || es[m - 1].no == k;
    }
  }

  /** A run keeps the old rows. */
  lemma {:induction false} SyncedKeeps(rows: Rows, es: seq<Entry>, m: nat, k: int)
    requires m <= |es| && k in rows
    ensures k in Synced(rows, es, m) && Synced(rows, es, m)[k] == rows[k]
  {
    if m > 0 {
      SyncedKeeps(rows, es, m - 1, k);
    }
  }

  /** An insert of a number already mentioned changes nothing. */
  lemma PutAgain(rows: Rows, es: seq<Entry>, m: nat, i: nat)
    requires i < m <= |es|
    ensures es[i].no in Synced(rows, es, m)
    ensures Put(Synced(rows, es, m), es[i]) == Synced(rows, es, m)
  {
    SyncedKeys(rows, es, m, es[i].no);
  }

  /** The first entry of the list with its number. */
  ghost predicate IsFirst(es: seq<Entry>, i: int) {
    0 <= i < |es| && forall j :: 0 <= j < i ==> es[j].no != es[i].no
  }

  /** Of a number new to the table, the row of its first mention stays. */
  lemma {:induction false} FirstMentionStays(rows: Rows, es: seq<Entry>, m: nat, i: nat)
    requires i < m <= |es| && IsFirst(es, i) && es[i].no !in rows
    ensures es[i].no in Synced(rows, es, m) && Synced(rows, es, m)[es[i].no] == es[i].row
  {
    if i == m - 1 {
      SyncedKeys(rows, es, m - 1, es[i].no);
    } else {
      FirstMentionStays(rows, es, m - 1, i);
    }
  }

  ghost function NewNumbers(rows: Rows, es: seq<Entry>): set<int> {
    (set i | 0 <= i < |es| :: es[i].no) - rows.Keys
  }

  lemma NewIff(rows: Rows, es: seq<Entry>, k: int)
    ensures k in NewNumbers(rows, es) <==> k !in rows && Mentions(es, |es|, k)
  {
  }

  lemma SyncedKeySet(rows: Rows, es: seq<Entry>)
    ensures Synced(rows, es, |es|).Keys == rows.Keys + NewNumbers(rows, es)
  {
    var now := Synced(rows, es, |es|);
    forall k ensures k in now.Keys <==> k in rows.Keys || k in NewNumbers(rows, es) {
      SyncedKeys(rows, es, |es|, k);
      NewIff(rows, es, k);
    }
  }

  lemma SyncedSize(rows: Rows, es: seq<Entry>)
    ensures Synced(rows, es, |es|).Keys == rows.Keys + NewNumbers(rows, es)
    ensures |Synced(rows, es, |es|)| == |rows| + |NewNumbers(rows, es)|
  {
    SyncedKeySet(rows, es);
    KeysSize(rows, Synced(rows, es, |es|), NewNumbers(rows, es));
  }

  lemma KeysSize(rows: Rows, now: Rows, more: set<int>)
    requires rows.Keys !! more && now.Keys == rows.Keys + more
    ensures |now| == |rows| + |more|
  {
    assert |now.Keys| == |rows.Keys| + |more|;
  }

  /** What a run does to the table: it keeps every old row, and of each new number the first mention. */
  ghost predicate AddsFirstMentions(rows: Rows, es: seq<Entry>, now: Rows) {
    && now.Keys == rows.Keys + NewNumbers(rows, es)
    && (forall k :: k in rows ==> k in now && now[k] == rows[k])
    && (forall i :: IsFirst(es, i) && es[i].no !in rows ==> es[i].no in now && now[es[i].no] == es[i].row)
  }

  lemma SyncLaw(rows: Rows, ds: seq<Draw>)
    requires AllAcceptable(ds)
    ensures AddsFirstMentions(rows, EntriesOf(ds), AfterInserts(rows, ds, Falses(|ds|)))
  {
    WholeRunIsSynced(rows, ds);
    SyncedLaw(rows, EntriesOf(ds));
  }

  lemma SyncedLaw(rows: Rows, es: seq<Entry>)
    ensures AddsFirstMentions(rows, es, Synced(rows, es, |es|))
  {
    SyncedSize(rows, es);
    forall k | k in rows ensures k in Synced(rows, es, |es|) && Synced(rows, es, |es|)[k] == rows[k] {
      SyncedKeeps(rows, es, |es|, k);
    }
    forall i | IsFirst(es, i) && es[i].no !in rows
      ensures es[i].no in Synced(rows, es, |es|) && Synced(rows, es, |es|)[es[i].no] == es[i].row
    {
      FirstMentionStays(rows, es, |es|, i);
    }
  }

  /** A run over known numbers finds only duplicates. */
  lemma {:induction false} KnownPage(rows: Rows, ds: seq<Draw>)
    requires AllAcceptable(ds)
    requires forall i :: 0 <= i < |ds| ==> ds[i].no in rows
    ensures AfterInserts(rows, ds, Falses(|ds|)) == rows
    ensures CountOf(Outcomes(rows, ds, Falses(|ds|)), Done) == 0
    ensures CountOf(Outcomes(rows, ds, Falses(|ds|)), Duplicate) == |ds|
  {
    if ds != [] {
      var n := |ds| - 1;
      assert Falses(|ds|)[..n] == Falses(n);
      KnownPage(rows, ds[..n]);
      CreateIsPut(rows, ds[n]);
      var os := Outcomes(rows, ds[..n], Falses(n));
      OneMoreOutcome(ds[..n], os, ds[n], Duplicate, Done);
      OneMoreOutcome(ds[..n], os, ds[n], Duplicate, Duplicate);
    }
  }

  /** Repeating a run adds nothing, changes no row and reports every draw as skipped. */
  lemma SyncIsIdempotent(rows: Rows, draws: seq<T.Draw>, issues: seq<T.Issue>)
    requires AllAcceptable(AllToStore(draws))
    ensures var ds := AllToStore(draws);
            var once := AfterInserts(rows, ds, Falses(|ds|));
            var r := Report(once, draws, issues, Falses(|draws|));
            && AfterInserts(once, ds, Falses(|ds|)) == once
            && r.added == 0 && r.skipped == |draws|
  {
    var ds := AllToStore(draws);
    WholeRunIsSynced(rows, ds);
    forall i | 0 <= i < |ds| ensures ds[i].no in Synced(rows, EntriesOf(ds), |ds|) {
      PutAgain(rows, EntriesOf(ds), |ds|, i);
    }
    KnownPage(AfterInserts(rows, ds, Falses(|ds|)), ds);
  }

  // ----- racing runs -----

  /** Several runs over the same page, each at its position, with its own counters. */
  datatype Race = Race(rows: Rows, pos: seq<nat>, added: seq<nat>, skipped: seq<nat>, failed: seq<nat>)

  /** One step of a race: the runner that inserts, and whether its insert fails for another reason. */
  datatype Turn = Turn(runner: nat, fault: bool)

  ghost predicate Runners(s: Race, n: nat) {
    |s.pos| == |s.added| == |s.skipped| == |s.failed| == n
  }

  function Zeros(n: nat): (r: seq<nat>)
    ensures |r| == n && forall i :: 0 <= i < n ==> r[i] == 0
  {
    seq(n, _ => 0)
  }

  function OneMore(s: seq<nat>, w: nat): (r: seq<nat>)
    requires w < |s|
    ensures |r| == |s|
  {
    s[w := s[w] + 1]
  }

  /** Runner `w` performs its next insert; a finished runner does nothing. */
  ghost function Step(s: Race, ds: seq<Draw>, w: nat, fault: bool): (t: Race)
    requires Runners(s, |s.pos|) && w < |s.pos|
    ensures Runners(t, |s.pos|)
  {
    if s.pos[w] >= |ds| then s
    else
      var d := ds[s.pos[w]];
      var o := CreateOutcome(s.rows, d, fault);
      Race(AfterCreate(s.rows, d, fault),
           OneMore(s.pos, w),
           if o.Done? then OneMore(s.added, w) else s.added,
           if o.Duplicate? then OneMore(s.skipped, w) else s.skipped,
           if o.Done? || o.Duplicate? then s.failed else OneMore(s.failed, w))
  }

  ghost predicate Names(schedule: seq<Turn>, n: nat) {
    forall i :: 0 <= i < |schedule| ==> schedule[i].runner < n
  }

  ghost predicate NoFault(schedule: seq<Turn>) {
    forall i :: 0 <= i < |schedule| ==> !schedule[i].fault
  }

  /** Any interleaving of `n` runs, with any failures. */
  ghost function RunRace(rows: Rows, n: nat, ds: seq<Draw>, schedule: seq<Turn>): (s: Race)
    requires Names(schedule, n)
    ensures Runners(s, n)
  {
    if schedule == [] then Race(rows, Zeros(n), Zeros(n), Zeros(n), Zeros(n))
    else
      var last := |schedule| - 1;
      Step(RunRace(rows, n, ds, schedule[..last]), ds, schedule[last].runner, schedule[last].fault)
  }

  /** A step on a record the table accepts: an insert if absent, or a failure. */
  ghost function EntryStep(s: Race, e: Entry, w: nat, fault: bool): (t: Race)
    requires Runners(s, |s.pos|) && w < |s.pos|
  {
    if fault then Race(s.rows, OneMore(s.pos, w), s.added, s.skipped, OneMore(s.failed, w))
    else if e.no in s.rows then Race(s.rows, OneMore(s.pos, w), s.added, OneMore(s.skipped, w), s.failed)
    else Race(s.rows[e.no := e.row], OneMore(s.pos, w), OneMore(s.added, w), s.skipped, s.failed)
  }

  lemma StepIsEntry(s: Race, ds: seq<Draw>, w: nat, fault: bool)
    requires AllAcceptable(ds) && Runners(s, |s.pos|) && w < |s.pos| && s.pos[w] < |ds|
    ensures Step(s, ds, w, fault) == EntryStep(s, EntriesOf(ds)[s.pos[w]], w, fault)
  {
    assert Acceptable(ds[s.pos[w]]);
    CreateIsPut(s.rows, ds[s.pos[w]]);
  }

  /** Each runner has counted every one of its inserts. */
  ghost predicate Accounted(s: Race) {
    Runners(s, |s.pos|) && forall w :: 0 <= w < |s.pos| ==> s.added[w] + s.skipped[w] + s.failed[w] == s.pos[w]
  }

  /** The table `now` holds the old rows unchanged, and otherwise only rows of the page. */
  ghost predicate GrownBy(rows: Rows, es: seq<Entry>, now: Rows) {
    && (forall k :: k in rows ==> k in now && now[k] == rows[k])
    && (forall k :: k in now && k !in rows ==> Entry(k, now[k]) in es)
  }

  /** What every step of a race keeps, failing or not. */
  ghost predicate RaceInv(s: Race, rows: Rows, es: seq<Entry>) {
    Accounted(s) && GrownBy(rows, es, s.rows) && |s.rows| == |rows| + SumOf(s.added)
  }

  lemma EntryStepKeepsInv(s: Race, rows: Rows, es: seq<Entry>, w: nat, fault: bool)
    requires RaceInv(s, rows, es) && w < |s.pos| && s.pos[w] < |es|
    ensures RaceInv(EntryStep(s, es[s.pos[w]], w, fault), rows, es)
  {
    SumWithOneMore(s.added, w);
    var e := es[s.pos[w]];
    assert e in es && e == Entry(e.no, e.row);
  }

  lemma {:induction false} RaceKeepsInv(rows: Rows, n: nat, ds: seq<Draw>, schedule: seq<Turn>)
    requires AllAcceptable(ds) && Names(schedule, n)
    ensures RaceInv(RunRace(rows, n, ds, schedule), rows, EntriesOf(ds))
  {
    if schedule == [] {
      SumOfZeros(Zeros(n));
    } else {
      var last := |schedule| - 1;
      var turn := schedule[last];
      RaceKeepsInv(rows, n, ds, schedule[..last]);
      var s := RunRace(rows, n, ds, schedule[..last]);
      if s.pos[turn.runner] < |ds| {
        StepIsEntry(s, ds, turn.runner, turn.fault);
        EntryStepKeepsInv(s, rows, EntriesOf(ds), turn.runner, turn.fault);
      }
    }
  }

  lemma GrownKeys(rows: Rows, es: seq<Entry>, now: Rows)
    requires GrownBy(rows, es, now)
    ensures now.Keys <= rows.Keys + NewNumbers(rows, es)
    ensures rows.Keys + NewNumbers(rows, es) == now.Keys + NewNumbers(now, es)
  {
    forall k | k in now ensures k in rows.Keys + NewNumbers(rows, es) {
      if k !in rows {
        var i :| 0 <= i < |es| && es[i] == Entry(k, now[k]);
        assert es[i].no == k;
      }
    }
    forall k ensures k in rows.Keys + NewNumbers(rows, es) <==> k in now.Keys + NewNumbers(now, es) {
      assert k in rows ==> k in now;
    }
  }

  /**
   * Whatever the interleaving of any number of runs and whichever inserts fail: at any moment the old rows
   * are unchanged, only rows of the page have come, the reported additions account for all of them, and one
   * more run without failures completes the numbers of the page.
   */
  lemma RaceWithFaults(rows: Rows, n: nat, ds: seq<Draw>, schedule: seq<Turn>)
    requires AllAcceptable(ds) && Names(schedule, n)
    ensures var s, es := RunRace(rows, n, ds, schedule), EntriesOf(ds);
            && GrownBy(rows, es, s.rows) && SumOf(s.added) == |s.rows| - |rows| && Accounted(s)
            && var done := AfterInserts(s.rows, ds, Falses(|ds|));
               && done.Keys == rows.Keys + NewNumbers(rows, es)
               && (forall k :: k in s.rows ==> k in done && done[k] == s.rows[k])
  {
    var s, es := RunRace(rows, n, ds, schedule), EntriesOf(ds);
    RaceKeepsInv(rows, n, ds, schedule);
    GrownKeys(rows, es, s.rows);
    SyncLaw(s.rows, ds);
  }

  // ----- racing runs without failures -----

  /** `front` is the position of the runner that is furthest. */
  ghost predicate IsFront(pos: seq<nat>, front: nat) {
    && (forall w :: 0 <= w < |pos| ==> pos[w] <= front)
    && (front == 0 || front in pos)
  }

  lemma FrontMoves(pos: seq<nat>, front: nat, w: nat)
    requires IsFront(pos, front) && w < |pos|
    ensures IsFront(OneMore(pos, w), if pos[w] == front then front + 1 else front)
  {
    var moved := OneMore(pos, w);
    if pos[w] == front {
      assert moved[w] == front + 1;
    } else if front > 0 {
      var v :| 0 <= v < |pos| && pos[v] == front;
      assert moved[v] == front;
    }
  }

  /** An insert at the front moves the table on, one behind it leaves the table alone. */
  lemma PutMoves(rows: Rows, es: seq<Entry>, front: nat, i: nat)
    requires i <= front <= |es| && i < |es|
    ensures Put(Synced(rows, es, front), es[i]) == Synced(rows, es, if i == front then front + 1 else front)
  {
    if i < front {
      PutAgain(rows, es, front, i);
    }
  }

  /** Without failures the table is that of a single run up to the front. */
  ghost predicate InStep(s: Race, rows: Rows, es: seq<Entry>, front: nat) {
    && Runners(s, |s.pos|) && s.failed == Zeros(|s.pos|)
    && IsFront(s.pos, front) && front <= |es| && s.rows == Synced(rows, es, front)
  }

  lemma EntryStepInStep(s: Race, rows: Rows, es: seq<Entry>, front: nat, w: nat)
    requires InStep(s, rows, es, front) && w < |s.pos| && s.pos[w] < |es|
    ensures InStep(EntryStep(s, es[s.pos[w]], w, false), rows, es, if s.pos[w] == front then front + 1 else front)
  {
    FrontMoves(s.pos, front, w);
    PutMoves(rows, es, front, s.pos[w]);
  }

  lemma {:induction false} RaceInStep(rows: Rows, n: nat, ds: seq<Draw>, schedule: seq<Turn>) returns (front: nat)
    requires AllAcceptable(ds) && Names(schedule, n) && NoFault(schedule)
    ensures InStep(RunRace(rows, n, ds, schedule), rows, EntriesOf(ds), front)
  {
    if schedule == [] {
      front := 0;
    } else {
      var last := |schedule| - 1;
      var w := schedule[last].runner;
      front := RaceInStep(rows, n, ds, schedule[..last]);
      var s := RunRace(rows, n, ds, schedule[..last]);
      if s.pos[w] < |ds| {
        StepIsEntry(s, ds, w, false);
        EntryStepInStep(s, rows, EntriesOf(ds), front, w);
        front := if s.pos[w] == front then front + 1 else front;
      }
    }
  }

  /**
   * However the inserts of any number of runs over one page interleave, if none fails, then once all have
   * finished the table is that of a single run, and the runs together report each new number added exactly
   * once.
   */
  lemma RaceIsOneSync(rows: Rows, n: nat, ds: seq<Draw>, schedule: seq<Turn>)
    requires AllAcceptable(ds) && n > 0 && Names(schedule, n) && NoFault(schedule)
    requires forall w :: 0 <= w < n ==> RunRace(rows, n, ds, schedule).pos[w] == |ds|
    ensures var s := RunRace(rows, n, ds, schedule);
            && s.rows == AfterInserts(rows, ds, Falses(|ds|))
            && SumOf(s.added) == |NewNumbers(rows, EntriesOf(ds))|
            && forall w :: 0 <= w < n ==> s.added[w] + s.skipped[w] == |ds|
  {
    var front := RaceInStep(rows, n, ds, schedule);
    RaceKeepsInv(rows, n, ds, schedule);
    assert RunRace(rows, n, ds, schedule).pos[0] == |ds|;
    assert front == |ds|;
    WholeRunIsSynced(rows, ds);
    SyncedSize(rows, EntriesOf(ds));
  }

  /** Starting over after a part of a run leads where the run would have led. */
  lemma {:induction false} Resumed(rows: Rows, es: seq<Entry>, front: nat, m: nat)
    requires front <= |es| && m <= |es|
    ensures Synced(Synced(rows, es, front), es, m) == Synced(rows, es, if m < front then front else m)
  {
    if m > 0 {
      Resumed(rows, es, front, m - 1);
      if m <= front {
        PutAgain(rows, es, front, m - 1);
      }
    }
  }

  /** A race without failures may be broken off at any moment: one more run leads where one alone would have. */
  lemma RaceInFlight(rows: Rows, n: nat, ds: seq<Draw>, schedule: seq<Turn>)
    requires AllAcceptable(ds) && Names(schedule, n) && NoFault(schedule)
    ensures var now := RunRace(rows, n, ds, schedule).rows;
            && (forall k :: k in rows ==> k in now && now[k] == rows[k])
            && now.Keys <= rows.Keys + NewNumbers(rows, EntriesOf(ds))
            && AfterInserts(now, ds, Falses(|ds|)) == AfterInserts(rows, ds, Falses(|ds|))
  {
    RaceKeepsInv(rows, n, ds, schedule);
    GrownKeys(rows, EntriesOf(ds), RunRace(rows, n, ds, schedule).rows);
    var front := RaceInStep(rows, n, ds, schedule);
    Resumed(rows, EntriesOf(ds), front, |ds|);
    WholeRunIsSynced(rows, ds);
    WholeRunIsSynced(RunRace(rows, n, ds, schedule).rows, ds);
  }

  // ----- races, in terms of the page itself -----

  /** Every draw of the page is one the table accepts. */
  ghost predicate PageAcceptable(draws: seq<T.Draw>) {
    forall i :: 0 <= i < |draws| ==>
      |draws[i].numbers| == 7 && SchemaAccepts(draws[i].no, Sorted(draws[i].numbers), draws[i].bonus)
  }

  lemma MirroredAcceptable(ds: seq<Draw>, draws: seq<T.Draw>)
    requires Mirrors(ds, draws) && PageAcceptable(draws)
    ensures AllAcceptable(ds)
  {
    forall i | 0 <= i < |ds| ensures Acceptable(ds[i]) {
      assert |draws[i].numbers| == 7;
    }
  }

  lemma AllInsertsStore(rows: Rows, draws: seq<T.Draw>, ds: seq<Draw>, faults: seq<bool>)
    requires Mirrors(ds, draws) && |faults| == |draws|
    ensures PageStored(rows, draws, faults, |draws|, AfterInserts(rows, ds, faults))
  {
    InsertsStore(rows, draws, ds, faults, |ds|);
    assert ds[..|ds|] == ds && faults[..|ds|] == faults;
  }

  /**
   * The table after a finished race without failures: the old rows, and every number of the page with the
   * seven and the bonus of its first mention there.
   */
  lemma RaceStoresPage(rows: Rows, n: nat, draws: seq<T.Draw>, ds: seq<Draw>, schedule: seq<Turn>)
    requires Mirrors(ds, draws) && PageAcceptable(draws) && n > 0 && Names(schedule, n) && NoFault(schedule)
    requires forall w :: 0 <= w < n ==> RunRace(rows, n, ds, schedule).pos[w] == |ds|
    ensures PageStored(rows, draws, Falses(|draws|), |draws|, RunRace(rows, n, ds, schedule).rows)
  {
    MirroredAcceptable(ds, draws);
    RaceIsOneSync(rows, n, ds, schedule);
    AllInsertsStore(rows, draws, ds, Falses(|ds|));
  }

  /** At any moment of any race, failing or not: the old rows, and beside them only draws of the page. */
  lemma RaceKeepsToPage(rows: Rows, n: nat, draws: seq<T.Draw>, ds: seq<Draw>, schedule: seq<Turn>)
    requires Mirrors(ds, draws) && PageAcceptable(draws) && Names(schedule, n)
    ensures var now := RunRace(rows, n, ds, schedule).rows;
            && (forall k :: k in rows ==> k in now && now[k] == rows[k])
            && forall k :: k in now && k !in rows ==>
                 exists i :: 0 <= i < |draws| && draws[i].no == k
                   && now[k] == Row(Sorted(draws[i].numbers), draws[i].bonus)
  {
    MirroredAcceptable(ds, draws);
    RaceKeepsInv(rows, n, ds, schedule);
    var now := RunRace(rows, n, ds, schedule).rows;
    forall k | k in now && k !in rows
      ensures exists i :: 0 <= i < |draws| && draws[i].no == k
                && now[k] == Row(Sorted(draws[i].numbers), draws[i].bonus)
    {
      var i :| 0 <= i < |ds| && EntriesOf(ds)[i] == Entry(k, now[k]);
      assert draws[i].no == k;
    }
  }
}
