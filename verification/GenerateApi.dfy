/** The generate handler: from the archive to a batch of tickets. */
module GenerateApi {
  import opened Tickets
  import opened Generate
  import opened Batch
  import opened Store
  import opened Frequency

  const MAX_TICKET_COUNT := 100

  const OK := 200
  const BAD_REQUEST := 400
  const INTERNAL_ERROR := 500

  /** The counters of the table: how many rows hold each number, and how many have it as the bonus. */
  ghost predicate CountersOf(rows: Rows, main: seq<nat>, bonus: seq<nat>) {
    && |main| == 35 && |bonus| == 54
    && (forall n :: 1 <= n <= 35 ==> main[n - 1] == |RowsHolding(rows, n)|)
    && (forall n :: 1 <= n <= 54 ==> bonus[n - 1] == |RowsWithBonus(rows, n)|)
  }

  lemma ListedCounters(rows: Rows, l: seq<Draw>, main: seq<nat>, bonus: seq<nat>)
    requires Legal(rows) && IsListing(l, rows)
    requires main == CountTable(AllNumbers(ToFreqs(l)), 35) && bonus == CountTable(AllBonuses(ToFreqs(l)), 54)
    ensures CountersOf(rows, main, bonus)
  {
    forall n | 1 <= n <= 35 ensures main[n - 1] == |RowsHolding(rows, n)| {
      CountersAreRows(rows, l, n);
    }
    forall n | 1 <= n <= 54 ensures bonus[n - 1] == |RowsWithBonus(rows, n)| {
      CountersAreRows(rows, l, n);
    }
  }

  /** `archiveFrequencies`: the weights of both generators. */
  method ArchiveFrequencies(st: Store) returns (main: array<nat>, bonus: array<nat>, total: nat)
    requires st.Valid()
    ensures fresh(main) && fresh(bonus) && main.Length == 35 && bonus.Length == 54
    ensures total == |st.rows|
    ensures forall l :: IsListing(l, st.rows) ==>
              && main[..] == CountTable(AllNumbers(ToFreqs(l)), 35)
              && bonus[..] == CountTable(AllBonuses(ToFreqs(l)), 54)
    ensures CountersOf(st.rows, main[..], bonus[..])
  {
    var draws := st.List();
    ListingLength(draws, st.rows);
    var freq := new DrawFreq[|draws|](_ => DrawFreq([], 0));
    for i := 0 to |draws|
      invariant forall k :: 0 <= k < i ==> freq[k] == DrawFreq(draws[k].numbers, draws[k].bonus)
    {
      freq[i] := DrawFreq(draws[i].numbers, draws[i].bonus);
    }
    assert freq[..] == ToFreqs(draws);
    main, bonus := Frequencies(freq[..]);
    total := |draws|;
    ListedCounters(st.rows, draws, main[..], bonus[..]);
    forall l | IsListing(l, st.rows) ensures l == draws {
      ListingUnique(l, draws, st.rows);
    }
  }

  /**
   * `generate`: on an archive of any content, the empty one included, the generator's preconditions hold,
   * and what is handed out are `count` valid tickets, the batch that the archive's counters and the random
   * source determine.
   */
  method GenerateTickets(st: Store, count: int, rng: Rng, readFails: bool)
    returns (status: int, tickets: seq<Ticket>, ghost main: seq<nat>, ghost bonus: seq<nat>, ghost ends: seq<nat>)
    requires st.Valid() && Fair(rng.answers)
    modifies rng
    ensures status == if !(1 <= count <= 100) then 400 else if readFails then 500 else 200
    ensures status != 200 ==> tickets == [] && rng.calls == old(rng.calls)
    ensures status == 200 ==> |tickets| == count && forall i :: 0 <= i < count ==> Issuable(tickets[i])
    ensures status == 200 ==>
              && CountersOf(st.rows, main, bonus)
              && BatchRun(Attempts(main, bonus, rng.answers, |old(rng.calls)|), tickets, ends)
    ensures status == 200 ==> 8 * count <= |rng.calls| - |old(rng.calls)| <= 160 * count
  {
    tickets, main, bonus, ends := [], [], [], [];
    if count < 1 || count > MAX_TICKET_COUNT {
      status := BAD_REQUEST;
      return;
    }
    if readFails {
      status := INTERNAL_ERROR;
      return;
    }
    var mainFreq, bonusFreq, _ := ArchiveFrequencies(st);
    main, bonus := mainFreq[..], bonusFreq[..];
    ghost var made;
    tickets, ends, made := GenerateBatch(mainFreq[..], bonusFreq[..], count, rng);
    BatchTicketsProper(main, bonus, rng.answers, |old(rng.calls)|, tickets, ends);
    status := OK;
  }
}
