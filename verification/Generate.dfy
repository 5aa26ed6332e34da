/** Frequency-weighted tickets: the picker, one ticket, a batch, and the key that spots duplicates. */
module Generate {
  import opened Ints
  import opened Options
  import opened Tickets
  import opened Sampling
  import opened TicketKeys
  import opened Batch

  // ----- the source of randomness -----

  /**
   * Any random source: what call number k answers for the argument n is arbitrary, so long as it
   * is below n. The arguments of all calls so far are recorded.
   */
  type Answers = imap<(nat, int), int>

  ghost predicate Fair(answers: Answers) {
    forall k: nat, n: int :: n > 0 ==> (k, n) in answers && 0 <= answers[(k, n)] < n
  }

  class Rng {
    const answers: Answers
    var calls: seq<int>

    constructor (answers: Answers)
      ensures this.answers == answers && calls == []
    {
      this.answers := answers;
      calls := [];
    }

    method Intn(n: int) returns (r: int)
      requires Fair(answers)
      requires n > 0
      modifies this
      ensures calls == old(calls) + [n]
      ensures r == answers[(|old(calls)|, n)] && 0 <= r < n
    {
      r := answers[(|calls|, n)];
      calls := calls + [n];
    }
  }

  // ----- frequencies -----

  datatype DrawFreq = DrawFreq(numbers: seq<int>, bonus: int)

  function Occurrences(s: seq<int>, x: int): nat {
    if s == [] then 0 else Occurrences(s[..|s| - 1], x) + (if s[|s| - 1] == x then 1 else 0)
  }

  function AllNumbers(draws: seq<DrawFreq>): seq<int> {
    if draws == [] then []
    else AllNumbers(draws[..|draws| - 1]) + draws[|draws| - 1].numbers
  }

  function AllBonuses(draws: seq<DrawFreq>): (s: seq<int>)
    ensures |s| == |draws|
  {
    seq(|draws|, i requires 0 <= i < |draws| => draws[i].bonus)
  }

  /** How often each of 1..n occurs in `s`, at index number-1. */
  function CountTable(s: seq<int>, n: nat): (t: seq<nat>)
    ensures |t| == n
    ensures forall i :: 0 <= i < n ==> t[i] == Occurrences(s, i + 1)
  {
    seq(n, i requires 0 <= i < n => Occurrences(s, i + 1))
  }

  /** One increment of a counter table is one more element counted; out of range counts nothing. */
  lemma CountOneMore(s: seq<int>, x: int, n: nat)
    ensures CountTable(s + [x], n) ==
            if 1 <= x <= n then CountTable(s, n)[x - 1 := CountTable(s, n)[x - 1] + 1] else CountTable(s, n)
  {
    assert (s + [x])[..|s|] == s;
  }

  /** The inner loop of `Frequencies`: one draw's numbers, those out of range ignored. */
  method CountNumbers(main: array<nat>, ghost before: seq<int>, numbers: seq<int>)
    requires main[..] == CountTable(before, main.Length)
    modifies main
    ensures main[..] == CountTable(before + numbers, main.Length)
  {
    assert before + numbers[..0] == before;
    for j := 0 to |numbers|
      invariant main[..] == CountTable(before + numbers[..j], main.Length)
    {
      var n := numbers[j];
      assert before + numbers[..j + 1] == before + numbers[..j] + [n];
      CountOneMore(before + numbers[..j], n, main.Length);
      if n >= 1 && n <= main.Length {
        main[n - 1] := main[n - 1] + 1;
      }
    }
    assert numbers[..|numbers|] == numbers;
  }

  /** The bonus of one draw, ignored when out of range. */
  method CountBonus(bonus: array<nat>, ghost before: seq<int>, b: int)
    requires bonus[..] == CountTable(before, bonus.Length)
    modifies bonus
    ensures bonus[..] == CountTable(before + [b], bonus.Length)
  {
    CountOneMore(before, b, bonus.Length);
    if b >= 1 && b <= bonus.Length {
      bonus[b - 1] := bonus[b - 1] + 1;
    }
  }

  lemma OneMoreDraw(draws: seq<DrawFreq>, i: nat)
    requires i < |draws|
    ensures AllNumbers(draws[..i + 1]) == AllNumbers(draws[..i]) + draws[i].numbers
    ensures AllBonuses(draws[..i + 1]) == AllBonuses(draws[..i]) + [draws[i].bonus]
  {
    assert draws[..i + 1][..i] == draws[..i];
  }

  method Frequencies(draws: seq<DrawFreq>) returns (main: array<nat>, bonus: array<nat>)
    ensures fresh(main) && fresh(bonus) && main.Length == 35 && bonus.Length == 54
    ensures main[..] == CountTable(AllNumbers(draws), 35)
    ensures bonus[..] == CountTable(AllBonuses(draws), 54)
  {
    main := new nat[35](_ => 0);
    bonus := new nat[54](_ => 0);
    assert draws[..0] == [];
    for i := 0 to |draws|
      invariant main[..] == CountTable(AllNumbers(draws[..i]), 35)
      invariant bonus[..] == CountTable(AllBonuses(draws[..i]), 54)
    {
      var d := draws[i];
      OneMoreDraw(draws, i);
      CountNumbers(main, AllNumbers(draws[..i]), d.numbers);
      CountBonus(bonus, AllBonuses(draws[..i]), d.bonus);
    }
    assert draws[..|draws|] == draws;
  }

  // ----- one pick -----

  /** The mask as the picker sees it: a missing mask excludes nothing. */
  ghost function MaskOf(taken: array?<bool>, n: nat): seq<bool>
    reads taken
  {
    if taken == null then Falses(n) else taken[..]
  }

  method WeightedPick(weights: seq<nat>, taken: array?<bool>, rng: Rng) returns (number: nat)
    requires taken != null ==> taken.Length == |weights|
    requires Free(MaskOf(taken, |weights|), |weights|) > 0
    requires Fair(rng.answers)
    modifies rng
    ensures var mask := MaskOf(taken, |weights|);
            && Total(weights, mask) > 0
            && rng.calls == old(rng.calls) + [Total(weights, mask)]
            && var r := rng.answers[(|old(rng.calls)|, Total(weights, mask))];
            && 0 <= r < Total(weights, mask)
            && number == PickIndex(weights, mask, r) + 1
  {
    ghost var mask := MaskOf(taken, |weights|);
    TotalAtLeastFree(weights, mask, |weights|);
    var total := 0;
    for i := 0 to |weights|
      invariant total == Cum(weights, mask, i)
    {
      if taken != null && taken[i] {
        continue;
      }
      total := total + (weights[i] + 1);
    }
    var r := rng.Intn(total);
    var cum := 0;
    for i := 0 to |weights|
      invariant cum == Cum(weights, mask, i) <= r
      invariant rng.calls == old(rng.calls) + [total]
    {
      if taken != null && taken[i] {
        continue;
      }
      cum := cum + (weights[i] + 1);
      if r < cum {
        PickUnique(weights, mask, r, i);
        return i + 1;
      }
    }
    assert false;
  }

  // ----- one ticket -----

  /** What a source answers; it has no answer for an argument that is not positive. */
  ghost function Answer(answers: Answers, k: nat, n: int): int {
    if (k, n) in answers then answers[(k, n)] else -1
  }

  /** Where `j` picks lead when the random source stands at call `k`. */
  ghost function Live(w: seq<nat>, answers: Answers, k: nat, j: nat): (r: Option<Progress>)
    ensures r.Some? ==> |r.value.taken| == |w|
  {
    if j == 0 then Some(Start(|w|)) else
      match Live(w, answers, k, j - 1)
      case None => None
      case Some(st) => NextPick(w, st, Answer(answers, k + j - 1, Total(w, st.taken)))
  }

  /** The outcomes of the first `j` picks. */
  ghost function Drawn(w: seq<nat>, answers: Answers, k: nat, j: nat): (rs: seq<int>)
    ensures |rs| == j
  {
    if j == 0 then [] else
      var total := match Live(w, answers, k, j - 1) case None => 0 case Some(st) => Total(w, st.taken);
      Drawn(w, answers, k, j - 1) + [Answer(answers, k + j - 1, total)]
  }

  /** Drawing live is running on the outcomes drawn, so the sampling law speaks of it. */
  lemma {:induction false} LiveIsRun(w: seq<nat>, answers: Answers, k: nat, j: nat)
    ensures Live(w, answers, k, j).Some? ==> Live(w, answers, k, j) == Run(w, Drawn(w, answers, k, j))
  {
    if j > 0 {
      LiveIsRun(w, answers, k, j - 1);
      assert Drawn(w, answers, k, j)[..j - 1] == Drawn(w, answers, k, j - 1);
    }
  }

  /** One more pick: there is room, the call is positive, and its outcome extends the run. */
  lemma DrawStep(w: seq<nat>, answers: Answers, k: nat, j: nat, st: Progress)
    requires Fair(answers) && j < |w|
    requires Live(w, answers, k, j) == Some(st)
    ensures |st.taken| == |w| && Free(st.taken, |w|) > 0 && Total(w, st.taken) > 0
    ensures var total := Total(w, st.taken);
            var i := PickIndex(w, st.taken, Answer(answers, k + j, total));
            Live(w, answers, k, j + 1) == Some(Progress(st.picked + [i], st.taken[i := true], st.asked + [total]))
  {
    LiveIsRun(w, answers, k, j);
    RunIsDistinct(w, Drawn(w, answers, k, j));
    RunMask(w, Drawn(w, answers, k, j));
    FreeAfterPicks(|w|, st.picked);
    TotalAtLeastFree(w, st.taken, |w|);
  }

  /** A fair source makes every pick of a ticket legal, and every call of it positive. */
  lemma {:induction false} LiveIsLegal(w: seq<nat>, answers: Answers, k: nat, j: nat)
    requires Fair(answers) && j <= |w|
    ensures var r := Live(w, answers, k, j);
            r.Some? && |r.value.picked| == |r.value.asked| == j && forall i :: 0 <= i < j ==> r.value.asked[i] > 0
  {
    if j > 0 {
      LiveIsLegal(w, answers, k, j - 1);
      DrawStep(w, answers, k, j - 1, Live(w, answers, k, j - 1).value);
    }
  }

  ghost function Numbered(p: seq<nat>): (s: seq<int>)
    ensures |s| == |p| && forall i :: 0 <= i < |p| ==> s[i] == p[i] + 1
  {
    seq(|p|, i requires 0 <= i < |p| => p[i] + 1)
  }

  /** The outcome of the bonus, drawn with call `k`. */
  ghost function BonusDrawn(bw: seq<nat>, answers: Answers, k: nat): (r: int)
    requires |bw| >= 1 && Fair(answers)
    ensures 0 <= r < Total(bw, Falses(|bw|))
  {
    FreeOfNoneTaken(|bw|, |bw|);
    TotalAtLeastFree(bw, Falses(|bw|), |bw|);
    Answer(answers, k, Total(bw, Falses(|bw|)))
  }

  /** The ticket that picks `p` and the bonus index `b` make. */
  ghost function TicketOfPicks(p: seq<nat>, b: nat): Ticket {
    Ticket(Sorted(Numbered(p)), b + 1)
  }

  /** The ticket drawn from call `k` on: seven picks, then the bonus. */
  ghost function TicketAt(w: seq<nat>, bw: seq<nat>, answers: Answers, k: nat): Ticket
    requires |w| >= 7 && |bw| >= 1 && Fair(answers)
  {
    LiveIsLegal(w, answers, k, 7);
    TicketOfPicks(Live(w, answers, k, 7).value.picked,
                  PickIndex(bw, Falses(|bw|), BonusDrawn(bw, answers, k + 7)))
  }

  ghost predicate ProperFor(t: Ticket, n: nat, m: nat) {
    && |t.numbers| == 7 && StrictlyAscending(t.numbers) && InRange(t.numbers, 1, n)
    && 1 <= t.bonus <= m
  }

  lemma PicksMakeProper(p: seq<nat>, b: nat, n: nat, m: nat)
    requires |p| == 7 && Distinct(p) && b < m
    requires forall i :: 0 <= i < |p| ==> p[i] < n
    ensures ProperFor(TicketOfPicks(p, b), n, m)
  {
    var t := TicketOfPicks(p, b);
    StrictIffDistinct(Numbered(p));
    SortedMembers(Numbered(p));
    forall x | x in t.numbers ensures 1 <= x <= n {
      assert x in Numbered(p);
    }
  }

  /** Every ticket drawn has seven strictly ascending numbers of the table and a bonus of its own. */
  lemma TicketAtIsProper(w: seq<nat>, bw: seq<nat>, answers: Answers, k: nat)
    requires |w| >= 7 && |bw| >= 1 && Fair(answers)
    ensures ProperFor(TicketAt(w, bw, answers, k), |w|, |bw|)
  {
    LiveIsLegal(w, answers, k, 7);
    LiveIsRun(w, answers, k, 7);
    RunIsDistinct(w, Drawn(w, answers, k, 7));
    PicksMakeProper(Live(w, answers, k, 7).value.picked,
                    PickIndex(bw, Falses(|bw|), BonusDrawn(bw, answers, k + 7)), |w|, |bw|);
  }

  lemma ProperIsIssuable(t: Ticket)
    requires ProperFor(t, 35, 54)
    ensures Issuable(t)
  {
  }

  /** The arguments of the eight calls that draw one ticket. */
  ghost function CallsOfTicket(w: seq<nat>, bw: seq<nat>, answers: Answers, k: nat): (b: seq<int>)
    requires |w| >= 7 && |bw| >= 1 && Fair(answers)
    ensures |b| == 8
  {
    LiveIsLegal(w, answers, k, 7);
    Live(w, answers, k, 7).value.asked + [Total(bw, Falses(|bw|))]
  }

  lemma TicketAtIs(w: seq<nat>, bw: seq<nat>, answers: Answers, k: nat, st: Progress, b: nat)
    requires |w| >= 7 && |bw| >= 1 && Fair(answers)
    requires Live(w, answers, k, 7) == Some(st)
    requires b == PickIndex(bw, Falses(|bw|), BonusDrawn(bw, answers, k + 7))
    ensures TicketAt(w, bw, answers, k) == TicketOfPicks(st.picked, b)
    ensures CallsOfTicket(w, bw, answers, k) == st.asked + [Total(bw, Falses(|bw|))]
  {
  }

  lemma CallsArePositive(w: seq<nat>, bw: seq<nat>, answers: Answers, k: nat)
    requires |w| >= 7 && |bw| >= 1 && Fair(answers)
    ensures forall j :: 0 <= j < 8 ==> CallsOfTicket(w, bw, answers, k)[j] > 0
  {
    LiveIsLegal(w, answers, k, 7);
    var r := BonusDrawn(bw, answers, k + 7);
  }

  /** The picks so far and the numbers they stand for. */
  ghost predicate Picking(w: seq<nat>, answers: Answers, k: nat, nums: seq<int>, st: Progress) {
    && |nums| == |st.picked| == |st.asked|
    && Live(w, answers, k, |nums|) == Some(st)
    && forall i :: 0 <= i < |nums| ==> nums[i] == st.picked[i] + 1
  }

  lemma PickOne(w: seq<nat>, answers: Answers, k: nat, nums: seq<int>, st: Progress, n: nat)
    requires Fair(answers) && |nums| < |w| && Picking(w, answers, k, nums, st)
    requires |st.taken| == |w|
    requires 0 <= Answer(answers, k + |nums|, Total(w, st.taken)) < Total(w, st.taken)
    requires n == PickIndex(w, st.taken, Answer(answers, k + |nums|, Total(w, st.taken))) + 1
    ensures n - 1 < |w|
    ensures Picking(w, answers, k, nums + [n],
                    Progress(st.picked + [n - 1], st.taken[n - 1 := true], st.asked + [Total(w, st.taken)]))
  {
    DrawStep(w, answers, k, |nums|, st);
  }

  /** The picking loop: seven numbers without repetition, in the order they were drawn. */
  method PickSeven(weights: seq<nat>, rng: Rng) returns (nums: seq<int>, ghost st: Progress)
    requires |weights| >= 7
    requires Fair(rng.answers)
    modifies rng
    ensures Live(weights, rng.answers, |old(rng.calls)|, 7) == Some(st)
    ensures |nums| == |st.picked| == 7 && nums == Numbered(st.picked)
    ensures rng.calls == old(rng.calls) + st.asked && |st.asked| == 7
  {
    ghost var k := |rng.calls|;
    var taken := new bool[|weights|](_ => false);
    nums, st := [], Start(|weights|);
    while |nums| < 7
      invariant |nums| <= 7 && Picking(weights, rng.answers, k, nums, st)
      invariant taken[..] == st.taken && rng.calls == old(rng.calls) + st.asked
    {
      DrawStep(weights, rng.answers, k, |nums|, st);
      var n := WeightedPick(weights, taken, rng);
      PickOne(weights, rng.answers, k, nums, st, n);
      st := Progress(st.picked + [n - 1], st.taken[n - 1 := true], st.asked + [Total(weights, st.taken)]);
      taken[n - 1] := true;
      nums := nums + [n];
    }
  }

  /** `sort.Ints` on the slice of picks. */
  method SortSeven(picked: seq<int>) returns (sorted: seq<int>)
    requires |picked| == 7
    ensures sorted == Sorted(picked)
  {
    var nums := new int[7](i requires 0 <= i < 7 => picked[i]);
    assert nums[..7] == picked;
    SortPrefix(nums, 7);
    return nums[..7];
  }

  method GenerateTicket(mainFreq: seq<nat>, bonusFreq: seq<nat>, rng: Rng) returns (t: Ticket)
    requires |mainFreq| >= 7 && |bonusFreq| >= 1
    requires Fair(rng.answers)
    modifies rng
    ensures t == TicketAt(mainFreq, bonusFreq, rng.answers, |old(rng.calls)|)
    ensures rng.calls == old(rng.calls) + CallsOfTicket(mainFreq, bonusFreq, rng.answers, |old(rng.calls)|)
  {
    ghost var k := |rng.calls|;
    var picked;
    ghost var st;
    picked, st := PickSeven(mainFreq, rng);
    var nums := SortSeven(picked);
    FreeOfNoneTaken(|bonusFreq|, |bonusFreq|);
    var b := WeightedPick(bonusFreq, null, rng);
    t := Ticket(nums, b);
    TicketAtIs(mainFreq, bonusFreq, rng.answers, k, st, b - 1);
  }

  // ----- tickets and the tuples the sampling law counts -----

  /** A source that plays back the outcomes `rs`, each when it is asked for a number above it. */
  ghost function Playing(rs: seq<int>): Answers {
    imap k: nat, n: int | n > 0 :: (k, n) := if k < |rs| && 0 <= rs[k] < n then rs[k] else 0
  }

  lemma PlayingIsFair(rs: seq<int>)
    ensures Fair(Playing(rs))
  {
  }

  /** The source answers `rs` from call 0 on, wherever these are possible answers. */
  ghost predicate Plays(answers: Answers, rs: seq<int>) {
    forall k, n :: 0 <= k < |rs| && 0 <= rs[k] < n ==> Answer(answers, k, n) == rs[k]
  }

  lemma {:induction false} PlayedBack(w: seq<nat>, answers: Answers, rs: seq<int>)
    requires Plays(answers, rs) && Run(w, rs).Some?
    ensures Live(w, answers, 0, |rs|) == Run(w, rs)
    ensures Drawn(w, answers, 0, |rs|) == rs
  {
    if rs != [] {
      var n := |rs| - 1;
      PlayedBack(w, answers, rs[..n]);
      assert Answer(answers, n, Total(w, Run(w, rs[..n]).value.taken)) == rs[n];
    }
  }

  /** The tuple of outcomes behind the ticket drawn from call `k` on. */
  ghost function TupleAt(w: seq<nat>, bw: seq<nat>, answers: Answers, k: nat): (s: seq<int>)
    requires |w| >= 7 && |bw| >= 1 && Fair(answers)
    ensures |s| == 8
  {
    Drawn(w, answers, k, 7) + [BonusDrawn(bw, answers, k + 7)]
  }

  /** Every ticket drawn comes from its tuple of outcomes, one of those the sampling law counts. */
  lemma TicketHasTuple(w: seq<nat>, bw: seq<nat>, answers: Answers, k: nat)
    requires |w| >= 7 && |bw| >= 1 && Fair(answers)
    ensures var r := TicketRun(w, bw, TupleAt(w, bw, answers, k));
            r.Some? && TicketAt(w, bw, answers, k) == TicketOfPicks(r.value.0, r.value.1)
  {
    LiveIsLegal(w, answers, k, 7);
    LiveIsRun(w, answers, k, 7);
    var s := TupleAt(w, bw, answers, k);
    assert s[..7] == Drawn(w, answers, k, 7);
  }

  /** And every legal tuple is drawn by some fair source: the law counts nothing that cannot happen. */
  lemma TupleIsDrawn(w: seq<nat>, bw: seq<nat>, s: seq<int>)
    requires |w| >= 7 && |bw| >= 1 && |s| == 8 && TicketRun(w, bw, s).Some?
    ensures Fair(Playing(s)) && TupleAt(w, bw, Playing(s), 0) == s
  {
    PlayingIsFair(s);
    PlayedBack(w, Playing(s), s[..7]);
    assert s == s[..7] + [s[7]];
  }

  /**
   * What the ticket says of its tuple: its numbers are those of the picked indices, each index one below its
   * number, in ascending order, and its bonus is that of the bonus index.
   */
  lemma TicketSaysPicks(w: seq<nat>, bw: seq<nat>, answers: Answers, k: nat)
    requires |w| >= 7 && |bw| >= 1 && Fair(answers)
    ensures var t, r := TicketAt(w, bw, answers, k), TicketRun(w, bw, TupleAt(w, bw, answers, k));
            && r.Some? && t.bonus == r.value.1 + 1 && StrictlyAscending(t.numbers) && |t.numbers| == |r.value.0| == 7
            && multiset(t.numbers) == multiset(seq(7, i requires 0 <= i < 7 => r.value.0[i] + 1))
  {
    TicketHasTuple(w, bw, answers, k);
    TicketAtIsProper(w, bw, answers, k);
    var p := TicketRun(w, bw, TupleAt(w, bw, answers, k)).value.0;
    assert |TicketAt(w, bw, answers, k).numbers| == 7;
    assert Numbered(p) == seq(|p|, i requires 0 <= i < |p| => p[i] + 1);
  }

  /** The same source, but for one answer. */
  ghost function Instead(answers: Answers, k: nat, n: int, r: int): Answers { answers[(k, n) := r] }

  /** With `r` as the outcome of the eighth call the ticket has the bonus `n`. */
  ghost predicate GivesBonus(w: seq<nat>, bw: seq<nat>, answers: Answers, k: nat, r: int, n: int)
    requires |w| >= 7 && |bw| >= 1 && Fair(answers)
  {
    var total := SumOf(bw) + |bw|;
    && 0 <= r < total && Fair(Instead(answers, k + 7, total, r))
    && TicketAt(w, bw, Instead(answers, k + 7, total, r), k).bonus == n
  }

  /** The outcome picks the index below `n`. */
  ghost predicate PicksBonus(bw: seq<nat>, r: int, n: int) {
    0 <= r < Total(bw, Falses(|bw|)) && PickIndex(bw, Falses(|bw|), r) == n - 1
  }

  lemma BonusByOutcome(w: seq<nat>, bw: seq<nat>, answers: Answers, k: nat, r: int, n: int)
    requires |w| >= 7 && |bw| >= 1 && Fair(answers) && 1 <= n <= |bw|
    ensures GivesBonus(w, bw, answers, k, r, n) <==> PicksBonus(bw, r, n)
  {
    var total := SumOf(bw) + |bw|;
    CumOfNoneTaken(bw, |bw|);
    assert bw[..|bw|] == bw;
    assert Total(bw, Falses(|bw|)) == total;
    if 0 <= r < total {
      var other := Instead(answers, k + 7, total, r);
      assert Fair(other);
      assert BonusDrawn(bw, other, k + 7) == r;
    }
  }

  lemma PickingOutcomes(bw: seq<nat>, n: int) returns (s: set<int>)
    requires 1 <= n <= |bw|
    ensures |s| == bw[n - 1] + 1 && forall r :: r in s <==> PicksBonus(bw, r, n)
  {
    s := Preimages(bw, Falses(|bw|), n - 1);
    PreimageCount(bw, Falses(|bw|), n - 1);
  }

  /**
   * The law of the bonus, whatever the archive and the seven calls before: of the outcomes of the eighth call
   * exactly count+1 give a ticket with the bonus `n`.
   */
  lemma BonusLaw(w: seq<nat>, bw: seq<nat>, answers: Answers, k: nat, n: int) returns (s: set<int>)
    requires |w| >= 7 && |bw| >= 1 && Fair(answers) && 1 <= n <= |bw|
    ensures forall r :: r in s <==> GivesBonus(w, bw, answers, k, r, n)
    ensures |s| == bw[n - 1] + 1
  {
    s := PickingOutcomes(bw, n);
    forall r ensures r in s <==> GivesBonus(w, bw, answers, k, r, n) {
      BonusByOutcome(w, bw, answers, k, r, n);
    }
  }

  // ----- a batch -----

  ghost function Attempt(w: seq<nat>, bw: seq<nat>, answers: Answers, k: nat, a: nat): Ticket
    requires |w| >= 7 && |bw| >= 1 && Fair(answers)
  {
    TicketAt(w, bw, answers, k + 8 * a)
  }

  /** The ticket each attempt of a batch gives, eight calls apart. */
  ghost function Attempts(w: seq<nat>, bw: seq<nat>, answers: Answers, k: nat): nat -> Ticket
    requires |w| >= 7 && |bw| >= 1 && Fair(answers)
  {
    (a: nat) => Attempt(w, bw, answers, k, a)
  }

  ghost predicate GivesAttempts(f: nat -> Ticket, w: seq<nat>, bw: seq<nat>, answers: Answers, k: nat)
    requires |w| >= 7 && |bw| >= 1 && Fair(answers)
  {
    forall a: nat {:trigger Attempt(w, bw, answers, k, a)} :: f(a) == Attempt(w, bw, answers, k, a)
  }

  ghost predicate AllPositive(s: seq<int>) {
    forall j :: 0 <= j < |s| ==> s[j] > 0
  }

  /** The next attempt of a batch that started at call `k`: the ticket, and its eight positive calls. */
  method NextAttempt(mainFreq: seq<nat>, bonusFreq: seq<nat>, rng: Rng,
                     ghost f: nat -> Ticket, ghost k: nat, ghost a: nat)
    returns (t: Ticket, ghost made: seq<int>)
    requires |mainFreq| >= 7 && |bonusFreq| >= 1
    requires Fair(rng.answers) && GivesAttempts(f, mainFreq, bonusFreq, rng.answers, k)
    requires |rng.calls| == k + 8 * a
    modifies rng
    ensures t == f(a)
    ensures rng.calls == old(rng.calls) + made && |made| == 8 && AllPositive(made)
  {
    CallsArePositive(mainFreq, bonusFreq, rng.answers, |rng.calls|);
    made := CallsOfTicket(mainFreq, bonusFreq, rng.answers, |rng.calls|);
    t := GenerateTicket(mainFreq, bonusFreq, rng);
    assert t == Attempt(mainFreq, bonusFreq, rng.answers, k, a);
  }

  lemma AppendCalls(before: seq<int>, made: seq<int>, more: seq<int>)
    requires AllPositive(made) && AllPositive(more)
    ensures before + made + more == before + (made + more)
    ensures AllPositive(made + more)
  {
  }

  /** The inner loop of a batch: attempts until one gives an unseen ticket, or the twentieth is made. */
  method NextTicket(mainFreq: seq<nat>, bonusFreq: seq<nat>, rng: Rng, seen: set<string>,
                    ghost f: nat -> Ticket, ghost k: nat, ghost start: nat, ghost tickets: seq<Ticket>)
    returns (t: Ticket, ghost end: nat, ghost made: seq<int>)
    requires |mainFreq| >= 7 && |bonusFreq| >= 1
    requires Fair(rng.answers) && GivesAttempts(f, mainFreq, bonusFreq, rng.answers, k)
    requires |rng.calls| == k + 8 * start && seen == Keys(tickets)
    modifies rng
    ensures start <= end < start + DUP_ATTEMPTS && t == f(end)
    ensures AllSeen(f, start, end, tickets)
    ensures t in tickets ==> end == start + DUP_ATTEMPTS - 1
    ensures rng.calls == old(rng.calls) + made && AllPositive(made) && |made| == 8 * (end + 1 - start)
  {
    var attempt := 0;
    end, made := start, [];
    while true
      invariant 0 <= attempt < DUP_ATTEMPTS && end == start + attempt
      invariant rng.calls == old(rng.calls) + made && AllPositive(made) && |made| == 8 * attempt
      invariant AllSeen(f, start, end, tickets)
      decreases DUP_ATTEMPTS - attempt
    {
      ghost var more;
      t, more := NextAttempt(mainFreq, bonusFreq, rng, f, k, end);
      AppendCalls(old(rng.calls), made, more);
      made := made + more;
      var key := Key(t);
      KeysAreTickets(tickets, t);
      if key !in seen || attempt >= DUP_ATTEMPTS - 1 {
        return;
      }
      OneMoreSeen(f, start, end, tickets);
      attempt, end := attempt + 1, end + 1;
    }
  }

  /** The batch loop, for whatever tickets `f` the attempts give. */
  method FillBatch(mainFreq: seq<nat>, bonusFreq: seq<nat>, count: nat, rng: Rng, ghost f: nat -> Ticket)
    returns (tickets: seq<Ticket>, ghost ends: seq<nat>, ghost made: seq<int>)
    requires |mainFreq| >= 7 && |bonusFreq| >= 1
    requires Fair(rng.answers) && GivesAttempts(f, mainFreq, bonusFreq, rng.answers, |rng.calls|)
    modifies rng
    ensures |tickets| == count && BatchRun(f, tickets, ends)
    ensures rng.calls == old(rng.calls) + made && AllPositive(made)
    ensures |made| == 8 * AttemptStart(ends, count)
  {
    ghost var k := |rng.calls|;
    var seen: set<string> := {};
    tickets, ends, made := [], [], [];
    while |tickets| < count
      invariant |tickets| <= count
      invariant seen == Keys(tickets)
      invariant BatchRun(f, tickets, ends)
      invariant rng.calls == old(rng.calls) + made && AllPositive(made)
      invariant |made| == 8 * AttemptStart(ends, |ends|)
    {
      var t;
      ghost var end, more;
      t, end, more := NextTicket(mainFreq, bonusFreq, rng, seen, f, k, AttemptStart(ends, |ends|), tickets);
      AppendCalls(old(rng.calls), made, more);
      ExtendBatch(f, tickets, ends, t, end);
      seen := seen + {Key(t)};
      tickets, ends, made := tickets + [t], ends + [end], made + more;
    }
  }

  method GenerateBatch(mainFreq: seq<nat>, bonusFreq: seq<nat>, count: nat, rng: Rng)
    returns (tickets: seq<Ticket>, ghost ends: seq<nat>, ghost made: seq<int>)
    requires |mainFreq| >= 7 && |bonusFreq| >= 1
    requires Fair(rng.answers)
    modifies rng
    ensures |tickets| == count
    ensures BatchRun(Attempts(mainFreq, bonusFreq, rng.answers, |old(rng.calls)|), tickets, ends)
    ensures rng.calls == old(rng.calls) + made && AllPositive(made)
    ensures |made| == 8 * AttemptStart(ends, count) && 8 * count <= |made| <= 160 * count
  {
    ghost var f := Attempts(mainFreq, bonusFreq, rng.answers, |rng.calls|);
    tickets, ends, made := FillBatch(mainFreq, bonusFreq, count, rng, f);
    BatchBounds(f, tickets, ends, count);
  }

  /** Every ticket of a batch is proper, whatever the random source. */
  lemma BatchTicketsProper(w: seq<nat>, bw: seq<nat>, answers: Answers, k: nat, ts: seq<Ticket>, es: seq<nat>)
    requires |w| == 35 && |bw| == 54 && Fair(answers)
    requires BatchRun(Attempts(w, bw, answers, k), ts, es)
    ensures forall i :: 0 <= i < |ts| ==> Issuable(ts[i])
  {
    forall i | 0 <= i < |ts| ensures Issuable(ts[i]) {
      assert FilledAt(Attempts(w, bw, answers, k), ts, es, i);
      TicketAtIsProper(w, bw, answers, k + 8 * es[i]);
      ProperIsIssuable(ts[i]);
    }
  }
}
