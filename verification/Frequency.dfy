/** The frequency index of the archive, and its agreement with the plain scan the sampler's weights come from. */
module Frequency {
  import opened Ints
  import opened Tickets
  import opened Sampling
  import opened Generate
  import opened Store

  datatype Freq = Freq(n: int, count: nat)

  // ----- GROUP BY n ORDER BY count DESC, n ASC -----

  predicate Before(f: Freq, g: Freq) {
    f.count > g.count || (f.count == g.count && f.n < g.n)
  }

  /** The groups of a multiset of values in the order of the query. */
  ghost predicate Ranks(out: seq<Freq>, values: multiset<int>) {
    && (forall i, j :: 0 <= i < j < |out| ==> Before(out[i], out[j]))
    && (forall f :: f in out ==> f.count > 0 && values[f.n] == f.count)
    && (forall x :: x in values ==> Freq(x, values[x]) in out)
  }

  function SumCounts(out: seq<Freq>): nat {
    if out == [] then 0 else out[0].count + SumCounts(out[1..])
  }

  lemma TopOfRanks(out: seq<Freq>, values: multiset<int>)
    requires Ranks(out, values) && out != []
    ensures Ranks(out[1..], values[out[0].n := 0])
  {
    var rest := values[out[0].n := 0];
    forall f | f in out[1..] ensures f.count > 0 && rest[f.n] == f.count {
      var j :| 0 <= j < |out[1..]| && out[1..][j] == f;
      assert f == out[j + 1] && Before(out[0], f) && out[0] in out;
    }
    forall x | x in rest ensures Freq(x, rest[x]) in out[1..] {
      assert x in values && Freq(x, values[x]) in out;
      assert out == [out[0]] + out[1..];
    }
  }

  lemma HeadComesFirst(a: seq<Freq>, b: seq<Freq>, values: multiset<int>)
    requires Ranks(a, values) && Ranks(b, values) && b != []
    ensures a != [] && (a[0] == b[0] || Before(a[0], b[0]))
  {
    assert b[0] in b;
    assert Freq(b[0].n, values[b[0].n]) in a;
  }

  /** The order leaves no choice. */
  lemma {:induction false} RanksUnique(a: seq<Freq>, b: seq<Freq>, values: multiset<int>)
    requires Ranks(a, values) && Ranks(b, values)
    ensures a == b
    decreases |a|
  {
    if b != [] {
      HeadComesFirst(a, b, values);
    }
    if a != [] {
      HeadComesFirst(b, a, values);
      TopOfRanks(a, values);
      TopOfRanks(b, values);
      RanksUnique(a[1..], b[1..], values[a[0].n := 0]);
      assert a == [a[0]] + a[1..] && b == [b[0]] + b[1..];
    }
  }

  /** The counts add up to the number of values. */
  lemma {:induction false} RanksSum(out: seq<Freq>, values: multiset<int>)
    requires Ranks(out, values)
    ensures SumCounts(out) == |values|
    decreases |out|
  {
    if out == [] {
      assert forall x :: x !in values;
      assert values == multiset{};
    } else {
      assert out[0] in out;
      TopOfRanks(out, values);
      RanksSum(out[1..], values[out[0].n := 0]);
    }
  }

  predicate IsBest(n: int, counts: map<int, nat>) {
    n in counts && forall m :: m in counts && m != n ==> Before(Freq(n, counts[n]), Freq(m, counts[m]))
  }

  lemma {:induction false} HasBest(counts: map<int, nat>)
    requires counts.Keys != {}
    ensures exists n :: IsBest(n, counts)
    decreases |counts|
  {
    assert (forall x :: x !in counts.Keys) ==> counts.Keys == {};
    var x :| x in counts.Keys;
    var rest := counts - {x};
    assert rest.Keys == counts.Keys - {x};
    if rest.Keys == {} {
      assert forall k :: k in counts.Keys && k != x ==> k in rest.Keys;
      assert IsBest(x, counts);
    } else {
      HasBest(rest);
      var m :| IsBest(m, rest);
      var best := if Before(Freq(x, counts[x]), Freq(m, counts[m])) then x else m;
      forall k | k in counts && k != best ensures Before(Freq(best, counts[best]), Freq(k, counts[k])) {
        assert k == x || k in rest;
      }
      assert IsBest(best, counts);
    }
  }

  method Group(values: seq<int>) returns (counts: map<int, nat>)
    ensures forall x :: x in counts <==> x in multiset(values)
    ensures forall x :: x in counts ==> counts[x] == multiset(values)[x]
  {
    counts := map[];
    for i := 0 to |values|
      invariant forall x :: x in counts <==> x in multiset(values[..i])
      invariant forall x :: x in counts ==> counts[x] == multiset(values[..i])[x]
    {
      var x := values[i];
      assert values[..i + 1] == values[..i] + [x];
      counts := counts[x := if x in counts then counts[x] + 1 else 1];
    }
    assert values[..|values|] == values;
  }

  /** Part of the groups is ranked in `out`, the others, all of which come later, are still in `rest`. */
  ghost predicate PartlyRanked(out: seq<Freq>, rest: map<int, nat>, counts: map<int, nat>) {
    && (forall x :: x in rest ==> x in counts && rest[x] == counts[x])
    && (forall f :: f in out ==> f.n in counts && f.n !in rest && f.count == counts[f.n])
    && (forall x :: x in counts && x !in rest ==> Freq(x, counts[x]) in out)
    && (forall i, j :: 0 <= i < j < |out| ==> Before(out[i], out[j]))
    && (forall f, x :: f in out && x in rest ==> Before(f, Freq(x, rest[x])))
  }

  lemma RankNext(out: seq<Freq>, rest: map<int, nat>, counts: map<int, nat>, n: int)
    requires PartlyRanked(out, rest, counts) && IsBest(n, rest)
    ensures PartlyRanked(out + [Freq(n, rest[n])], rest - {n}, counts)
  {
    var f := Freq(n, rest[n]);
    var more := out + [f];
    forall i, j | 0 <= i < j < |more| ensures Before(more[i], more[j]) {
      assert out[i] in out;
    }
    forall g, x | g in more && x in rest - {n} ensures Before(g, Freq(x, rest[x])) {
      assert g in out || g == f;
    }
    forall x | x in counts && x !in rest - {n} ensures Freq(x, counts[x]) in more {
      assert x == n || Freq(x, counts[x]) in out;
    }
  }

  /** The query: one row per value with its count, in order. */
  method Query(values: seq<int>) returns (out: seq<Freq>)
    ensures Ranks(out, multiset(values))
    ensures forall n, c: nat :: Freq(n, c) in out <==> c > 0 && c == multiset(values)[n]
    ensures forall i, j :: 0 <= i < j < |out| ==>
              out[i].count > out[j].count || (out[i].count == out[j].count && out[i].n < out[j].n)
  {
    var counts := Group(values);
    var rest := counts;
    out := [];
    while rest.Keys != {}
      invariant PartlyRanked(out, rest, counts)
      decreases |rest.Keys|
    {
      HasBest(rest);
      var n :| n in rest.Keys && IsBest(n, rest);
      RankNext(out, rest, counts, n);
      out := out + [Freq(n, rest[n])];
      rest := rest - {n};
    }
  }

  // ----- the two queries -----

  ghost predicate Sevens(l: seq<Draw>) {
    forall i :: 0 <= i < |l| ==> |l[i].numbers| == 7
  }

  /** One column of the listed rows. */
  function Column(l: seq<Draw>, j: nat): (c: seq<int>)
    requires forall i :: 0 <= i < |l| ==> j < |l[i].numbers|
    ensures |c| == |l|
  {
    seq(|l|, i requires 0 <= i < |l| => l[i].numbers[j])
  }

  /** `SELECT n1 ... UNION ALL ... SELECT n7`. */
  function UnionAll(l: seq<Draw>): seq<int>
    requires forall i :: 0 <= i < |l| ==> |l[i].numbers| == 7
  {
    Columns(l, 7)
  }

  /** The first `k` columns, one below the other. */
  function Columns(l: seq<Draw>, k: nat): seq<int>
    requires forall i :: 0 <= i < |l| ==> k <= |l[i].numbers|
  {
    if k == 0 then [] else Columns(l, k - 1) + Column(l, k - 1)
  }

  lemma ListedAreSevens(l: seq<Draw>, rows: Rows)
    requires Legal(rows) && IsListing(l, rows)
    ensures Sevens(l)
    ensures forall d :: d in l ==> InRange(d.numbers, 1, 35) && 1 <= d.bonus <= 54
  {
    forall i | 0 <= i < |l| ensures |l[i].numbers| == 7 {
      assert l[i] in l;
    }
    forall d | d in l ensures InRange(d.numbers, 1, 35) && 1 <= d.bonus <= 54 {
      SchemaIsIssuable(d.no, rows[d.no].n, rows[d.no].bonus);
    }
  }

  method MainFrequency(st: Store) returns (out: seq<Freq>)
    requires st.Valid()
    ensures forall l :: IsListing(l, st.rows) ==> Sevens(l) && Ranks(out, multiset(UnionAll(l)))
  {
    var table := st.List();
    ListedAreSevens(table, st.rows);
    out := Query(UnionAll(table));
    forall l | IsListing(l, st.rows) ensures l == table {
      ListingUnique(l, table, st.rows);
    }
  }

  method BonusFrequency(st: Store) returns (out: seq<Freq>)
    requires st.Valid()
    ensures forall l :: IsListing(l, st.rows) ==> Ranks(out, multiset(AllBonuses(ToFreqs(l))))
  {
    var table := st.List();
    out := Query(AllBonuses(ToFreqs(table)));
    forall l | IsListing(l, st.rows) ensures l == table {
      ListingUnique(l, table, st.rows);
    }
  }

  // ----- the plain scan -----

  function ToFreqs(l: seq<Draw>): (r: seq<DrawFreq>)
    ensures |r| == |l|
    ensures forall i :: 0 <= i < |l| ==> r[i] == DrawFreq(l[i].numbers, l[i].bonus)
  {
    seq(|l|, i requires 0 <= i < |l| => DrawFreq(l[i].numbers, l[i].bonus))
  }

  // ----- they agree -----

  lemma {:induction false} OccurrencesAreCounts(s: seq<int>, x: int)
    ensures Occurrences(s, x) == multiset(s)[x]
  {
    if s != [] {
      OccurrencesAreCounts(s[..|s| - 1], x);
      assert s == s[..|s| - 1] + [s[|s| - 1]];
    }
  }

  /** A counter table over the whole range loses nothing. */
  lemma {:induction false} TableSum(s: seq<int>, n: nat)
    requires InRange(s, 1, n)
    ensures SumOf(CountTable(s, n)) == |s|
  {
    if s == [] {
      SumOfZeros(CountTable(s, n));
    } else {
      var front, x := s[..|s| - 1], s[|s| - 1];
      assert s == front + [x] && x in s;
      assert forall y :: y in front ==> y in s;
      TableSum(front, n);
      CountOneMore(front, x, n);
      SumWithOneMore(CountTable(front, n), x - 1);
    }
  }

  /** Ranked groups of values within 1..n are the non-zero entries of their counter table. */
  lemma RankedIsTable(ranked: seq<Freq>, s: seq<int>, n: nat)
    requires Ranks(ranked, multiset(s)) && InRange(s, 1, n)
    ensures forall k, c: nat :: Freq(k, c) in ranked <==> 1 <= k <= n && c > 0 && c == CountTable(s, n)[k - 1]
    ensures SumCounts(ranked) == SumOf(CountTable(s, n)) == |s|
  {
    TableSum(s, n);
    RanksSum(ranked, multiset(s));
    forall k, c: nat
      ensures Freq(k, c) in ranked <==> 1 <= k <= n && c > 0 && c == CountTable(s, n)[k - 1]
    {
      OccurrencesAreCounts(s, k);
      if Freq(k, c) in ranked {
        assert k in multiset(s);
        assert k in s;
      }
      if c > 0 && c == multiset(s)[k] {
        assert k in multiset(s);
      }
    }
  }

  lemma CountsApart(a: seq<int>, b: seq<int>, p: seq<int>, c: seq<int>, y: int)
    requires multiset(a) == multiset(b) + multiset(p)
    ensures multiset(a + (c + [y])) == multiset(b + c) + multiset(p + [y])
  {
    assert multiset(a + (c + [y])) == multiset(a) + multiset(c) + multiset{y};
    assert multiset(b + c) == multiset(b) + multiset(c);
    assert multiset(p + [y]) == multiset(p) + multiset{y};
  }

  lemma {:induction false} ColumnsOneMore(l: seq<Draw>, d: Draw, more: seq<Draw>, k: nat)
    requires Sevens(l) && Sevens(more) && more == l + [d] && |d.numbers| == 7 && k <= 7
    ensures multiset(Columns(more, k)) == multiset(Columns(l, k)) + multiset(d.numbers[..k])
  {
    if k > 0 {
      ColumnsOneMore(l, d, more, k - 1);
      ColumnOneMore(l, d, more, k - 1);
      var y := d.numbers[k - 1];
      assert d.numbers[..k] == d.numbers[..k - 1] + [y];
      CountsApart(Columns(more, k - 1), Columns(l, k - 1), d.numbers[..k - 1], Column(l, k - 1), y);
      assert Columns(more, k) == Columns(more, k - 1) + (Column(l, k - 1) + [y]);
      assert Columns(l, k) == Columns(l, k - 1) + Column(l, k - 1);
    }
  }

  lemma ColumnOneMore(l: seq<Draw>, d: Draw, more: seq<Draw>, j: nat)
    requires Sevens(l) && Sevens(more) && more == l + [d] && |d.numbers| == 7 && j < 7
    ensures Column(more, j) == Column(l, j) + [d.numbers[j]]
  {
  }

  lemma NumbersOneMore(l: seq<Draw>, d: Draw)
    ensures AllNumbers(ToFreqs(l + [d])) == AllNumbers(ToFreqs(l)) + d.numbers
  {
    assert ToFreqs(l + [d])[..|l|] == ToFreqs(l);
  }

  /** Column by column or row by row, the table holds the same numbers. */
  lemma {:induction false} ColumnsAreRows(l: seq<Draw>)
    requires Sevens(l)
    ensures multiset(UnionAll(l)) == multiset(AllNumbers(ToFreqs(l)))
    ensures |AllNumbers(ToFreqs(l))| == 7 * |l|
  {
    if l == [] {
      NoColumns(7);
    } else {
      var front, d := l[..|l| - 1], l[|l| - 1];
      ColumnsAreRows(front);
      assert l == front + [d];
      ColumnsOneMore(front, d, l, 7);
      NumbersOneMore(front, d);
      assert d.numbers[..7] == d.numbers;
    }
  }

  lemma {:induction false} NoColumns(k: nat)
    ensures Columns([], k) == []
  {
    if k > 0 {
      NoColumns(k - 1);
    }
  }

  lemma {:induction false} AllNumbersInRange(l: seq<Draw>)
    requires forall d :: d in l ==> InRange(d.numbers, 1, 35)
    ensures InRange(AllNumbers(ToFreqs(l)), 1, 35)
  {
    if l != [] {
      var front := l[..|l| - 1];
      AllNumbersInRange(front);
      NumbersOneMore(front, l[|l| - 1]);
      assert l == front + [l[|l| - 1]];
    }
  }

  /**
   * Whatever operations led to the table, the main index lists exactly the non-zero entries of the scan's
   * counters; both sum to seven per row, so the sampler's first total is that plus one for each number.
   */
  lemma MainIndexAgrees(ops: seq<(Op, bool)>, rows: Rows, l: seq<Draw>, ranked: seq<Freq>, main: seq<nat>)
    requires rows == AfterOps(map[], ops)
    requires IsListing(l, rows)
    requires Sevens(l) && Ranks(ranked, multiset(UnionAll(l)))
    requires main == CountTable(AllNumbers(ToFreqs(l)), 35)
    ensures forall n, c: nat :: Freq(n, c) in ranked <==> 1 <= n <= 35 && c > 0 && c == main[n - 1]
    ensures SumCounts(ranked) == SumOf(main) == 7 * |rows|
    ensures Total(main, Falses(35)) == 7 * |rows| + 35
  {
    RunsStayLegal(map[], ops);
    ListedAreSevens(l, rows);
    ColumnsAreRows(l);
    AllNumbersInRange(l);
    RankedIsTable(ranked, AllNumbers(ToFreqs(l)), 35);
    ListingLength(l, rows);
    CumOfNoneTaken(main, 35);
    assert main[..35] == main;
  }

  lemma BonusIndexAgrees(ops: seq<(Op, bool)>, rows: Rows, l: seq<Draw>, ranked: seq<Freq>, bonus: seq<nat>)
    requires rows == AfterOps(map[], ops)
    requires IsListing(l, rows)
    requires Ranks(ranked, multiset(AllBonuses(ToFreqs(l))))
    requires bonus == CountTable(AllBonuses(ToFreqs(l)), 54)
    ensures forall n, c: nat :: Freq(n, c) in ranked <==> 1 <= n <= 54 && c > 0 && c == bonus[n - 1]
    ensures SumCounts(ranked) == SumOf(bonus) == |rows|
    ensures Total(bonus, Falses(54)) == |rows| + 54
  {
    RunsStayLegal(map[], ops);
    ListedAreSevens(l, rows);
    forall x | x in AllBonuses(ToFreqs(l)) ensures 1 <= x <= 54 {
      var i :| 0 <= i < |l| && AllBonuses(ToFreqs(l))[i] == x;
      assert l[i] in l;
    }
    RankedIsTable(ranked, AllBonuses(ToFreqs(l)), 54);
    ListingLength(l, rows);
    CumOfNoneTaken(bonus, 54);
    assert bonus[..54] == bonus;
  }

  // ----- the counters, by rows of the table -----

  ghost function RowsHolding(rows: Rows, n: int): set<int> { set k | k in rows && n in rows[k].n }

  ghost function RowsWithBonus(rows: Rows, n: int): set<int> { set k | k in rows && rows[k].bonus == n }

  /** The draw numbers of those of the first `m` draws that have the property. */
  ghost function Having(l: seq<Draw>, has: Draw -> bool, m: nat): set<int>
    requires m <= |l|
  {
    set i | 0 <= i < m && has(l[i]) :: l[i].no
  }

  lemma HavingOneMore(l: seq<Draw>, has: Draw -> bool, m: nat)
    requires m < |l| && forall i, j :: 0 <= i < j < |l| ==> l[i].no > l[j].no
    ensures |Having(l, has, m + 1)| == |Having(l, has, m)| + if has(l[m]) then 1 else 0
  {
    assert l[m].no !in Having(l, has, m);
    if has(l[m]) {
      assert Having(l, has, m + 1) == Having(l, has, m) + {l[m].no};
    } else {
      assert Having(l, has, m + 1) == Having(l, has, m);
    }
  }

  lemma OccurrencesInRow(before: seq<int>, numbers: seq<int>, n: int)
    requires Distinct(numbers)
    ensures Occurrences(before + numbers, n) == Occurrences(before, n) + if n in numbers then 1 else 0
  {
    OccurrencesAreCounts(before + numbers, n);
    OccurrencesAreCounts(before, n);
    DistinctIffCounts(numbers);
    assert n in numbers <==> n in multiset(numbers);
  }

  lemma {:induction false} NumberCounted(l: seq<Draw>, n: int, has: Draw -> bool, m: nat)
    requires m <= |l| && forall i, j :: 0 <= i < j < |l| ==> l[i].no > l[j].no
    requires forall i :: 0 <= i < |l| ==> Distinct(l[i].numbers) && has(l[i]) == (n in l[i].numbers)
    ensures Occurrences(AllNumbers(ToFreqs(l[..m])), n) == |Having(l, has, m)|
  {
    if m == 0 {
      assert Having(l, has, 0) == {};
    } else {
      NumberCounted(l, n, has, m - 1);
      HavingOneMore(l, has, m - 1);
      assert l[..m] == l[..m - 1] + [l[m - 1]];
      NumbersOneMore(l[..m - 1], l[m - 1]);
      OccurrencesInRow(AllNumbers(ToFreqs(l[..m - 1])), l[m - 1].numbers, n);
    }
  }

  lemma {:induction false} BonusCounted(l: seq<Draw>, n: int, has: Draw -> bool, m: nat)
    requires m <= |l| && forall i, j :: 0 <= i < j < |l| ==> l[i].no > l[j].no
    requires forall i :: 0 <= i < |l| ==> has(l[i]) == (l[i].bonus == n)
    ensures Occurrences(AllBonuses(ToFreqs(l[..m])), n) == |Having(l, has, m)|
  {
    if m == 0 {
      assert Having(l, has, 0) == {};
    } else {
      BonusCounted(l, n, has, m - 1);
      HavingOneMore(l, has, m - 1);
      assert AllBonuses(ToFreqs(l[..m])) == AllBonuses(ToFreqs(l[..m - 1])) + [l[m - 1].bonus];
      OccurrencesInRow(AllBonuses(ToFreqs(l[..m - 1])), [l[m - 1].bonus], n);
    }
  }

  /** A listing shows every row once. */
  lemma HavingRows(l: seq<Draw>, rows: Rows, has: Draw -> bool, keys: set<int>)
    requires IsListing(l, rows)
    requires forall k :: k in keys <==> k in rows && has(Draw(k, rows[k].n, rows[k].bonus))
    ensures Having(l, has, |l|) == keys
  {
    forall k | k in keys ensures k in Having(l, has, |l|) {
      assert Draw(k, rows[k].n, rows[k].bonus) in l;
    }
    forall k | k in Having(l, has, |l|) ensures k in keys {
      var i :| 0 <= i < |l| && has(l[i]) && l[i].no == k;
      assert l[i] in l;
    }
  }

  /** The weights of both generators: how many rows of the table hold the number, or have it as the bonus. */
  lemma CountersAreRows(rows: Rows, l: seq<Draw>, n: int)
    requires Legal(rows) && IsListing(l, rows)
    ensures 1 <= n <= 35 ==> CountTable(AllNumbers(ToFreqs(l)), 35)[n - 1] == |RowsHolding(rows, n)|
    ensures 1 <= n <= 54 ==> CountTable(AllBonuses(ToFreqs(l)), 54)[n - 1] == |RowsWithBonus(rows, n)|
  {
    var holds, bonus := (d: Draw) => n in d.numbers, (d: Draw) => d.bonus == n;
    forall i | 0 <= i < |l| ensures Distinct(l[i].numbers) {
      assert l[i] in l;
      SchemaIsIssuable(l[i].no, rows[l[i].no].n, rows[l[i].no].bonus);
    }
    NumberCounted(l, n, holds, |l|);
    BonusCounted(l, n, bonus, |l|);
    HavingRows(l, rows, holds, RowsHolding(rows, n));
    HavingRows(l, rows, bonus, RowsWithBonus(rows, n));
    assert l[..|l|] == l;
  }
}
