/** The arithmetic behind weighted picking without replacement, and the exact sampling law. */
module Sampling {
  import opened Ints
  import opened Options

  // ----- one pick -----

  /** Weight of index `i`: its count plus one, or nothing once it is taken. */
  function Weight(w: seq<nat>, taken: seq<bool>, i: nat): nat
    requires i < |w| == |taken|
  {
    if taken[i] then 0 else w[i] + 1
  }

  /** Sum of the weights of the first `i` indices. */
  function Cum(w: seq<nat>, taken: seq<bool>, i: nat): nat
    requires i <= |w| == |taken|
  {
    if i == 0 then 0 else Cum(w, taken, i - 1) + Weight(w, taken, i - 1)
  }

  function Total(w: seq<nat>, taken: seq<bool>): nat
    requires |w| == |taken|
  {
    Cum(w, taken, |w|)
  }

  /** `n` times false: no index taken. */
  function Falses(n: nat): (t: seq<bool>)
    ensures |t| == n && forall i :: 0 <= i < n ==> !t[i]
  {
    seq(n, _ => false)
  }

  /** How many of the first `i` indices are still free. */
  function Free(taken: seq<bool>, i: nat): (n: nat)
    requires i <= |taken|
    ensures n <= i
  {
    if i == 0 then 0 else Free(taken, i - 1) + (if taken[i - 1] then 0 else 1)
  }

  /** Smallest index at or after `i` whose cumulative weight exceeds `r`. */
  function PickFrom(w: seq<nat>, taken: seq<bool>, r: int, i: nat): (p: nat)
    requires i <= |w| == |taken|
    requires Cum(w, taken, i) <= r < Total(w, taken)
    ensures p < |w|
    decreases |w| - i
  {
    if r < Cum(w, taken, i + 1) then i else PickFrom(w, taken, r, i + 1)
  }

  function PickIndex(w: seq<nat>, taken: seq<bool>, r: int): (p: nat)
    requires |w| == |taken|
    requires 0 <= r < Total(w, taken)
    ensures p < |w|
  {
    PickFrom(w, taken, r, 0)
  }

  lemma {:induction false} PickFromSound(w: seq<nat>, taken: seq<bool>, r: int, i: nat)
    requires i <= |w| == |taken|
    requires Cum(w, taken, i) <= r < Total(w, taken)
    ensures var p := PickFrom(w, taken, r, i);
            i <= p && Cum(w, taken, p) <= r < Cum(w, taken, p + 1) && !taken[p]
    decreases |w| - i
  {
    if r >= Cum(w, taken, i + 1) {
      PickFromSound(w, taken, r, i + 1);
    }
  }

  /** The index picked is free, and the outcome lies in its own share of the total. */
  lemma PickSound(w: seq<nat>, taken: seq<bool>, r: int)
    requires |w| == |taken|
    requires 0 <= r < Total(w, taken)
    ensures var p := PickIndex(w, taken, r);
            Cum(w, taken, p) <= r < Cum(w, taken, p + 1) && !taken[p]
  {
    PickFromSound(w, taken, r, 0);
  }

  lemma {:induction false} CumMonotone(w: seq<nat>, taken: seq<bool>, i: nat, j: nat)
    requires i <= j <= |w| == |taken|
    ensures Cum(w, taken, i) <= Cum(w, taken, j)
  {
    if i < j {
      CumMonotone(w, taken, i, j - 1);
    }
  }

  lemma PickUnique(w: seq<nat>, taken: seq<bool>, r: int, i: nat)
    requires i < |w| == |taken|
    requires Cum(w, taken, i) <= r < Cum(w, taken, i + 1)
    ensures 0 <= r < Total(w, taken) && PickIndex(w, taken, r) == i
  {
    CumMonotone(w, taken, i + 1, |w|);
    PickSound(w, taken, r);
    var p := PickIndex(w, taken, r);
    if p < i {
      CumMonotone(w, taken, p + 1, i);
    } else if i < p {
      CumMonotone(w, taken, i + 1, p);
    }
  }

  /** The random outcomes on which index `i` is picked. */
  ghost function Preimages(w: seq<nat>, taken: seq<bool>, i: nat): set<int>
    requires i < |w| == |taken|
  {
    set r | 0 <= r < Total(w, taken) && PickIndex(w, taken, r) == i
  }

  ghost function Interval(lo: int, hi: int): (s: set<int>)
    requires lo <= hi
    ensures forall r :: r in s <==> lo <= r < hi
    ensures |s| == hi - lo
    decreases hi - lo
  {
    if lo == hi then {} else Interval(lo, hi - 1) + {hi - 1}
  }

  /** A free index has exactly count+1 outcomes, a taken one none. */
  lemma PreimageCount(w: seq<nat>, taken: seq<bool>, i: nat)
    requires i < |w| == |taken|
    ensures |Preimages(w, taken, i)| == if taken[i] then 0 else w[i] + 1
  {
    var lo, hi := Cum(w, taken, i), Cum(w, taken, i + 1);
    CumMonotone(w, taken, i + 1, |w|);
    forall r ensures r in Preimages(w, taken, i) <==> r in Interval(lo, hi) {
      if lo <= r < hi { PickUnique(w, taken, r, i); }
      if r in Preimages(w, taken, i) { PickSound(w, taken, r); }
    }
    assert Preimages(w, taken, i) == Interval(lo, hi);
  }

  lemma {:induction false} TotalAtLeastFree(w: seq<nat>, taken: seq<bool>, i: nat)
    requires i <= |w| == |taken|
    ensures Cum(w, taken, i) >= Free(taken, i)
  {
    if i > 0 {
      TotalAtLeastFree(w, taken, i - 1);
    }
  }

  lemma {:induction false} FreeAfterTaking(taken: seq<bool>, p: nat, i: nat)
    requires p < |taken| && !taken[p] && i <= |taken|
    ensures Free(taken[p := true], i) == Free(taken, i) - (if p < i then 1 else 0)
  {
    if i > 0 {
      FreeAfterTaking(taken, p, i - 1);
    }
  }

  lemma {:induction false} FreeOfNoneTaken(n: nat, i: nat)
    requires i <= n
    ensures Free(Falses(n), i) == i
  {
    if i > 0 {
      FreeOfNoneTaken(n, i - 1);
    }
  }

  /** Without a mask the total is the sum of the counts plus one per index. */
  lemma {:induction false} CumOfNoneTaken(w: seq<nat>, i: nat)
    requires i <= |w|
    ensures Cum(w, Falses(|w|), i) == SumOf(w[..i]) + i
  {
    if i > 0 {
      CumOfNoneTaken(w, i - 1);
      assert w[..i][..i - 1] == w[..i - 1];
    }
  }

  function SumOf(s: seq<nat>): nat {
    if s == [] then 0 else SumOf(s[..|s| - 1]) + s[|s| - 1]
  }

  lemma {:induction false} SumWithOneMore(t: seq<nat>, k: nat)
    requires k < |t|
    ensures SumOf(t[k := t[k] + 1]) == SumOf(t) + 1
  {
    var u := t[k := t[k] + 1];
    if k == |t| - 1 {
      assert u[..|t| - 1] == t[..|t| - 1];
    } else {
      SumWithOneMore(t[..|t| - 1], k);
      assert u[..|t| - 1] == t[..|t| - 1][k := t[k] + 1];
    }
  }

  lemma {:induction false} SumOfZeros(t: seq<nat>)
    requires forall i :: 0 <= i < |t| ==> t[i] == 0
    ensures SumOf(t) == 0
  {
    if t != [] {
      SumOfZeros(t[..|t| - 1]);
    }
  }

  // ----- a run of picks -----

  /** The mask once the indices `p` are taken. */
  ghost function Mark(n: nat, p: seq<nat>): (t: seq<bool>)
    ensures |t| == n
  {
    if p == [] then Falses(n) else
      var t := Mark(n, p[..|p| - 1]);
      if p[|p| - 1] < n then t[p[|p| - 1] := true] else t
  }

  lemma {:induction false} MarkedIffPicked(n: nat, p: seq<nat>, i: nat)
    requires i < n
    ensures Mark(n, p)[i] <==> i in p
  {
    if p != [] {
      MarkedIffPicked(n, p[..|p| - 1], i);
      assert p == p[..|p| - 1] + [p[|p| - 1]];
    }
  }

  /** The picks made so far, in order, the mask they leave, and the totals they were drawn below. */
  datatype Progress = Progress(picked: seq<nat>, taken: seq<bool>, asked: seq<int>)

  ghost function Start(n: nat): (st: Progress)
    ensures |st.taken| == n
  {
    Progress([], Falses(n), [])
  }

  /** One more pick, on the outcome `r`. */
  ghost function NextPick(w: seq<nat>, st: Progress, r: int): (next: Option<Progress>)
    requires |st.taken| == |w|
    ensures next.Some? ==> |next.value.taken| == |w|
  {
    if 0 <= r < Total(w, st.taken) then
      var i := PickIndex(w, st.taken, r);
      Some(Progress(st.picked + [i], st.taken[i := true], st.asked + [Total(w, st.taken)]))
    else None
  }

  /** Where the outcomes `rs` lead; None when an outcome is not below its step's total. */
  ghost function Run(w: seq<nat>, rs: seq<int>): (r: Option<Progress>)
    ensures r.Some? ==> |r.value.taken| == |w|
  {
    if rs == [] then Some(Start(|w|)) else
      match Run(w, rs[..|rs| - 1])
      case None => None
      case Some(st) => NextPick(w, st, rs[|rs| - 1])
  }

  /** The outcomes `rs` are legal and pick `p`, in order. */
  ghost predicate RunsTo(w: seq<nat>, rs: seq<int>, p: seq<nat>) {
    Run(w, rs).Some? && Run(w, rs).value.picked == p
  }

  lemma {:induction false} RunMask(w: seq<nat>, rs: seq<int>)
    requires Run(w, rs).Some?
    ensures Run(w, rs).value.taken == Mark(|w|, Run(w, rs).value.picked)
  {
    if rs != [] {
      RunMask(w, rs[..|rs| - 1]);
      var p := Run(w, rs).value.picked;
      assert p[..|p| - 1] == Run(w, rs[..|rs| - 1]).value.picked;
    }
  }

  /** Every tuple of `heads` extended by every outcome of `lasts`. */
  ghost function Extend(heads: set<seq<int>>, lasts: set<int>): set<seq<int>> {
    set t, r | t in heads && r in lasts :: t + [r]
  }

  lemma ExtendMember(heads: set<seq<int>>, lasts: set<int>, s: seq<int>)
    ensures s in Extend(heads, lasts) <==> s != [] && s[..|s| - 1] in heads && s[|s| - 1] in lasts
  {
    if s != [] && s[..|s| - 1] in heads && s[|s| - 1] in lasts {
      var t, r := s[..|s| - 1], s[|s| - 1];
      assert t in heads && r in lasts && t + [r] == s;
    }
    if s in Extend(heads, lasts) {
      var t, r :| t in heads && r in lasts && s == t + [r];
      assert s[..|s| - 1] == t;
    }
  }

  ghost function AnyOf<T>(s: set<T>): (x: T)
    requires s != {}
    ensures x in s
  {
    var x :| x in s; x
  }

  lemma {:induction false} ExtendOneSize(heads: set<seq<int>>, r: int)
    ensures |Extend(heads, {r})| == |heads|
  {
    if heads != {} {
      var t := AnyOf(heads);
      ExtendOneSize(heads - {t}, r);
      forall s ensures s in Extend(heads, {r}) <==> s in Extend(heads - {t}, {r}) + {t + [r]} {
        ExtendMember(heads, {r}, s);
        ExtendMember(heads - {t}, {r}, s);
      }
      ExtendMember(heads - {t}, {r}, t + [r]);
      assert Extend(heads, {r}) == Extend(heads - {t}, {r}) + {t + [r]};
    } else {
      assert Extend(heads, {r}) == {};
    }
  }

  lemma ExtendSplit(heads: set<seq<int>>, lasts: set<int>, r: int)
    requires r in lasts
    ensures Extend(heads, lasts) == Extend(heads, lasts - {r}) + Extend(heads, {r})
    ensures Extend(heads, lasts - {r}) !! Extend(heads, {r})
  {
    forall s ensures s in Extend(heads, lasts) <==> s in Extend(heads, lasts - {r}) + Extend(heads, {r}) {
      ExtendMember(heads, lasts, s);
      ExtendMember(heads, lasts - {r}, s);
      ExtendMember(heads, {r}, s);
    }
    forall s | s in Extend(heads, lasts - {r}) ensures s !in Extend(heads, {r}) {
      ExtendMember(heads, lasts - {r}, s);
      ExtendMember(heads, {r}, s);
    }
  }

  lemma {:induction false} ExtendSize(heads: set<seq<int>>, lasts: set<int>)
    ensures |Extend(heads, lasts)| == |heads| * |lasts|
  {
    if lasts != {} {
      var r := AnyOf(lasts);
      ExtendSize(heads, lasts - {r});
      ExtendOneSize(heads, r);
      ExtendSplit(heads, lasts, r);
      var m, n := |heads|, |lasts - {r}|;
      assert |Extend(heads, lasts)| == m * n + m;
      assert |lasts| == n + 1;
      MulSucc(m, n);
    } else {
      assert Extend(heads, lasts) == {};
    }
  }

  lemma MulSucc(a: nat, b: nat)
    ensures a * (b + 1) == a * b + a
  {
  }

  /** The tuples of outcomes on which the picks are `p`, in that order. */
  ghost function Outcomes(w: seq<nat>, p: seq<nat>): set<seq<int>>
    requires forall k :: 0 <= k < |p| ==> p[k] < |w|
  {
    if p == [] then {[]} else
      var before := p[..|p| - 1];
      Extend(Outcomes(w, before), Preimages(w, Mark(|w|, before), p[|p| - 1]))
  }

  /** `Outcomes` is what its name says: exactly the tuples whose run is legal and picks `p`. */
  lemma {:induction false} OutcomesAreTheRuns(w: seq<nat>, p: seq<nat>, rs: seq<int>)
    requires forall k :: 0 <= k < |p| ==> p[k] < |w|
    ensures rs in Outcomes(w, p) <==> RunsTo(w, rs, p)
    decreases |p|
  {
    if p == [] {
      if rs != [] && Run(w, rs).Some? {
        assert |Run(w, rs).value.picked| > 0;
      }
    } else {
      var before, x := p[..|p| - 1], p[|p| - 1];
      assert p == before + [x];
      ExtendMember(Outcomes(w, before), Preimages(w, Mark(|w|, before), x), rs);
      if rs != [] {
        OutcomesAreTheRuns(w, before, rs[..|rs| - 1]);
        if RunsTo(w, rs, p) {
          assert before == Run(w, rs[..|rs| - 1]).value.picked;
        }
        if RunsTo(w, rs[..|rs| - 1], before) {
          RunMask(w, rs[..|rs| - 1]);
        }
      }
    }
  }

  /** Product of count+1 over the picks. */
  function WeightProduct(w: seq<nat>, p: seq<nat>): nat
    requires forall k :: 0 <= k < |p| ==> p[k] < |w|
  {
    if p == [] then 1 else WeightProduct(w, p[..|p| - 1]) * (w[p[|p| - 1]] + 1)
  }

  /** The number of tuples that pick `p` in order is the product of count+1; none if `p` repeats itself. */
  lemma {:induction false} OutcomeCount(w: seq<nat>, p: seq<nat>)
    requires forall k :: 0 <= k < |p| ==> p[k] < |w|
    ensures |Outcomes(w, p)| == if Distinct(p) then WeightProduct(w, p) else 0
    decreases |p|
  {
    if p != [] {
      var before, x := p[..|p| - 1], p[|p| - 1];
      OutcomeCount(w, before);
      PreimageCount(w, Mark(|w|, before), x);
      ExtendSize(Outcomes(w, before), Preimages(w, Mark(|w|, before), x));
      MarkedIffPicked(|w|, before, x);
      DistinctStep(p);
    }
  }

  lemma DistinctStep(p: seq<nat>)
    requires p != []
    ensures Distinct(p) <==> Distinct(p[..|p| - 1]) && p[|p| - 1] !in p[..|p| - 1]
  {
    var before, x := p[..|p| - 1], p[|p| - 1];
    if x in before {
      var i :| 0 <= i < |before| && before[i] == x;
      assert p[i] == p[|p| - 1];
    }
    if Distinct(before) && x !in before {
      forall i, j | 0 <= i < j < |p| ensures p[i] != p[j] {
        assert p[i] == before[i];
        if j < |before| { assert p[j] == before[j]; }
      }
    }
    if Distinct(p) {
      forall i, j | 0 <= i < j < |before| ensures before[i] != before[j] {
        assert before[i] == p[i] && before[j] == p[j];
      }
    }
  }

  /** A legal run picks distinct indices. */
  lemma {:induction false} RunIsDistinct(w: seq<nat>, rs: seq<int>)
    requires Run(w, rs).Some?
    ensures var p := Run(w, rs).value.picked; |p| == |rs| && Distinct(p) && forall k :: 0 <= k < |p| ==> p[k] < |w|
  {
    if rs != [] {
      RunIsDistinct(w, rs[..|rs| - 1]);
      RunMask(w, rs[..|rs| - 1]);
      var p := Run(w, rs).value.picked;
      var before := Run(w, rs[..|rs| - 1]).value.picked;
      assert p[..|p| - 1] == before;
      PickSound(w, Mark(|w|, before), rs[|rs| - 1]);
      MarkedIffPicked(|w|, before, p[|p| - 1]);
      DistinctStep(p);
    }
  }

  /** As many indices are free as were not picked. */
  lemma {:induction false} FreeAfterPicks(n: nat, p: seq<nat>)
    requires Distinct(p) && forall k :: 0 <= k < |p| ==> p[k] < n
    ensures Free(Mark(n, p), n) == n - |p|
  {
    if p == [] {
      FreeOfNoneTaken(n, n);
    } else {
      var before, x := p[..|p| - 1], p[|p| - 1];
      DistinctStep(p);
      FreeAfterPicks(n, before);
      MarkedIffPicked(n, before, x);
      FreeAfterTaking(Mark(n, before), x, n);
    }
  }

  // ----- the eight draws of a ticket -----

  /** Outcomes of the eight draws on which the seven are picked as `p`, in order, and the bonus as `b`. */
  ghost function TicketOutcomes(w: seq<nat>, bw: seq<nat>, p: seq<nat>, b: nat): set<seq<int>>
    requires forall k :: 0 <= k < |p| ==> p[k] < |w|
    requires b < |bw|
  {
    Extend(Outcomes(w, p), Preimages(bw, Falses(|bw|), b))
  }

  /** The picks and the bonus index that a whole tuple of outcomes leads to, the last one drawing the bonus. */
  ghost function TicketRun(w: seq<nat>, bw: seq<nat>, s: seq<int>): Option<(seq<nat>, nat)>
    requires s != []
  {
    var r := s[|s| - 1];
    match Run(w, s[..|s| - 1])
    case None => None
    case Some(st) =>
      if 0 <= r < Total(bw, Falses(|bw|)) then Some((st.picked, PickIndex(bw, Falses(|bw|), r))) else None
  }

  /**
   * The sampling law. For any counts, any ordered picks and any bonus, the tuples of outcomes
   * that produce them number exactly the product of count+1 over all of them.
   */
  lemma SamplingLaw(w: seq<nat>, bw: seq<nat>, p: seq<nat>, b: nat)
    requires forall k :: 0 <= k < |p| ==> p[k] < |w|
    requires b < |bw|
    ensures |TicketOutcomes(w, bw, p, b)| == if Distinct(p) then WeightProduct(w, p) * (bw[b] + 1) else 0
    ensures forall s :: s in TicketOutcomes(w, bw, p, b) <==> s != [] && TicketRun(w, bw, s) == Some((p, b))
  {
    OutcomeCount(w, p);
    PreimageCount(bw, Falses(|bw|), b);
    ExtendSize(Outcomes(w, p), Preimages(bw, Falses(|bw|), b));
    forall s ensures s in TicketOutcomes(w, bw, p, b) <==> s != [] && TicketRun(w, bw, s) == Some((p, b)) {
      ExtendMember(Outcomes(w, p), Preimages(bw, Falses(|bw|), b), s);
      if s != [] {
        OutcomesAreTheRuns(w, p, s[..|s| - 1]);
      }
    }
  }
}
