/** Integer sequences: ascending order, distinctness and the sort the program borrows from Go. */
module Ints {

  ghost predicate Ascending(s: seq<int>) {
    forall i, j :: 0 <= i < j < |s| ==> s[i] <= s[j]
  }

  ghost predicate StrictlyAscending(s: seq<int>) {
    forall i, j :: 0 <= i < j < |s| ==> s[i] < s[j]
  }

  predicate Distinct<T(==)>(s: seq<T>) {
    forall i, j :: 0 <= i < j < |s| ==> s[i] != s[j]
  }

  predicate InRange(s: seq<int>, lo: int, hi: int) {
    forall x :: x in s ==> lo <= x <= hi
  }

  function Insert(x: int, s: seq<int>): (r: seq<int>)
    ensures |r| == |s| + 1
  {
    if s == [] then [x]
    else if x <= s[0] then [x] + s
    else [s[0]] + Insert(x, s[1..])
  }

  lemma {:induction false} InsertMultiset(x: int, s: seq<int>)
    ensures multiset(Insert(x, s)) == multiset(s) + multiset{x}
  {
    if s != [] {
      assert s == [s[0]] + s[1..];
      InsertMultiset(x, s[1..]);
    }
  }

  lemma {:induction false} InsertAscending(x: int, s: seq<int>)
    requires Ascending(s)
    ensures Ascending(Insert(x, s))
    ensures Insert(x, s)[0] == x || (s != [] && Insert(x, s)[0] == s[0])
  {
    if s != [] && x > s[0] {
      InsertAscending(x, s[1..]);
      var t := Insert(x, s[1..]);
      assert s[0] <= t[0];
      forall i, j | 0 <= i < j < |t| + 1 ensures ([s[0]] + t)[i] <= ([s[0]] + t)[j] {
        if i == 0 { assert t[0] <= t[j - 1]; }
      }
    }
  }

  /** The one ascending arrangement of `s` (see `SortedUnique`). */
  function Sorted(s: seq<int>): (r: seq<int>)
    ensures Ascending(r)
    ensures multiset(r) == multiset(s)
    ensures |r| == |s|
  {
    if s == [] then []
    else
      assert s == [s[0]] + s[1..];
      InsertMultiset(s[0], Sorted(s[1..]));
      InsertAscending(s[0], Sorted(s[1..]));
      Insert(s[0], Sorted(s[1..]))
  }

  lemma HeadAtMost(a: seq<int>, b: seq<int>)
    requires a != [] && b != [] && Ascending(a)
    requires multiset(a) == multiset(b)
    ensures a[0] <= b[0]
  {
    assert b[0] in multiset(b);
    assert b[0] in a;
  }

  lemma TailCounts(a: seq<int>)
    requires a != []
    ensures multiset(a[1..]) == multiset(a) - multiset{a[0]}
  {
    assert a == [a[0]] + a[1..];
  }

  lemma {:induction false} SortedUnique(a: seq<int>, b: seq<int>)
    requires Ascending(a) && Ascending(b)
    requires multiset(a) == multiset(b)
    ensures a == b
    decreases |a|
  {
    assert |a| == |multiset(a)| == |multiset(b)| == |b|;
    if a != [] {
      HeadAtMost(a, b);
      HeadAtMost(b, a);
      TailCounts(a);
      TailCounts(b);
      SortedUnique(a[1..], b[1..]);
      assert a == [a[0]] + a[1..] && b == [b[0]] + b[1..];
    }
  }

  lemma SortedOfAscending(s: seq<int>)
    requires Ascending(s)
    ensures Sorted(s) == s
  {
    SortedUnique(Sorted(s), s);
  }

  lemma SortedPermutation(a: seq<int>, b: seq<int>)
    requires multiset(a) == multiset(b)
    ensures Sorted(a) == Sorted(b)
  {
    SortedUnique(Sorted(a), Sorted(b));
  }

  lemma SortedMembers(s: seq<int>)
    ensures forall x :: x in Sorted(s) <==> x in s
  {
    forall x ensures x in Sorted(s) <==> x in s {
      assert x in Sorted(s) <==> x in multiset(Sorted(s));
      assert x in s <==> x in multiset(s);
    }
  }

  lemma {:induction false} DistinctIffCounts(s: seq<int>)
    ensures Distinct(s) <==> forall x :: multiset(s)[x] <= 1
  {
    if s != [] {
      assert s == [s[0]] + s[1..];
      DistinctIffCounts(s[1..]);
      if Distinct(s) {
        forall x ensures multiset(s)[x] <= 1 {
          if x == s[0] {
            assert x !in s[1..];
            assert x !in multiset(s[1..]);
          }
        }
      }
      if forall x :: multiset(s)[x] <= 1 {
        forall x ensures multiset(s[1..])[x] <= 1 {
          assert multiset(s)[x] <= 1;
        }
        assert multiset(s)[s[0]] <= 1;
        assert s[0] !in multiset(s[1..]);
        assert s[0] !in s[1..];
        forall i, j | 0 <= i < j < |s| ensures s[i] != s[j] {
          if i == 0 { assert s[j] == s[1..][j - 1]; assert s[1..][j - 1] in s[1..]; }
          else { assert s[i] == s[1..][i - 1] && s[j] == s[1..][j - 1]; }
        }
      }
    }
  }

  /** Sorting keeps distinctness, and sorted distinct numbers increase strictly. */
  lemma StrictIffDistinct(s: seq<int>)
    ensures StrictlyAscending(Sorted(s)) <==> Distinct(s)
  {
    DistinctIffCounts(s);
    DistinctIffCounts(Sorted(s));
    var r := Sorted(s);
    if Distinct(r) {
      forall i, j | 0 <= i < j < |r| ensures r[i] < r[j] {
        assert r[i] <= r[j] && r[i] != r[j];
      }
    }
  }

  /** `s` with the element at `i` moved left to position `j`. */
  ghost function Moved(s: seq<int>, j: nat, i: nat): seq<int>
    requires j <= i < |s|
  {
    s[..j] + [s[i]] + s[j..i] + s[i + 1..]
  }

  lemma MovedKeepsPrefixMultiset(s: seq<int>, j: nat, i: nat)
    requires j <= i < |s|
    ensures multiset(Moved(s, j, i)[..i + 1]) == multiset(s[..i + 1])
  {
    assert Moved(s, j, i)[..i + 1] == s[..j] + [s[i]] + s[j..i];
    assert s[..i + 1] == s[..j] + s[j..i] + [s[i]];
  }

  lemma MovedAscending(s: seq<int>, j: nat, i: nat)
    requires j <= i < |s|
    requires Ascending(s[..i])
    requires j < i ==> s[i] < s[j]
    requires 0 < j ==> s[j - 1] <= s[i]
    ensures Ascending(Moved(s, j, i)[..i + 1])
  {
    var p := s[..i];
    var r := Moved(s, j, i)[..i + 1];
    assert r == p[..j] + [s[i]] + p[j..];
    forall k, l | 0 <= k < l < |r| ensures r[k] <= r[l] {
      if k < j && l == j { assert p[k] <= p[j - 1]; }
      if k == j { assert p[j] <= p[l - 1]; }
    }
  }

  /** One insertion step: moves `a[i]` left past every larger cell, to position `j`. */
  method SinkInto(a: array<int>, i: nat) returns (ghost j: nat)
    requires i < a.Length
    modifies a
    ensures j <= i && a[..] == Moved(old(a[..]), j, i)
    ensures j < i ==> old(a[i]) < old(a[j])
    ensures 0 < j ==> old(a[j - 1]) <= old(a[i])
  {
    ghost var was := a[..];
    var k := i;
    while 0 < k && a[k] < a[k - 1]
      invariant 0 <= k <= i
      invariant forall l :: 0 <= l < k || i < l < a.Length ==> a[l] == was[l]
      invariant a[k] == was[i]
      invariant forall l :: k < l <= i ==> a[l] == was[l - 1]
      invariant k < i ==> was[i] < was[k]
    {
      a[k], a[k - 1] := a[k - 1], a[k];
      k := k - 1;
    }
    j := k;
  }

  lemma MovedSortsMore(s: seq<int>, j: nat, i: nat)
    requires j <= i < |s|
    requires Ascending(s[..i])
    requires j < i ==> s[i] < s[j]
    requires 0 < j ==> s[j - 1] <= s[i]
    ensures var r := Moved(s, j, i);
            Ascending(r[..i + 1]) && multiset(r[..i + 1]) == multiset(s[..i + 1]) && r[i + 1..] == s[i + 1..]
  {
    MovedAscending(s, j, i);
    MovedKeepsPrefixMultiset(s, j, i);
  }

  lemma PrefixOneMore(s: seq<int>, t: seq<int>, i: nat)
    requires i < |s| == |t|
    requires multiset(s[..i]) == multiset(t[..i]) && s[i..] == t[i..]
    ensures multiset(s[..i + 1]) == multiset(t[..i + 1]) && s[i + 1..] == t[i + 1..]
  {
    assert s[i] == s[i..][0] && t[i] == t[i..][0];
    assert s[..i + 1] == s[..i] + [s[i]] && t[..i + 1] == t[..i] + [t[i]];
    assert s[i + 1..] == s[i..][1..] && t[i + 1..] == t[i..][1..];
  }

  lemma Append(done: seq<int>, x: int, rest: seq<int>)
    ensures done + ([x] + rest) == done + [x] + rest
  {
  }

  /** `sort.Ints(a[:hi])`: sorts the first `hi` cells and leaves the rest of the backing array alone. */
  method SortPrefix(a: array<int>, hi: nat)
    requires hi <= a.Length
    modifies a
    ensures a[..hi] == Sorted(old(a[..hi]))
    ensures a[hi..] == old(a[hi..])
  {
    ghost var was := a[..];
    for i := 0 to hi
      invariant Ascending(a[..][..i])
      invariant multiset(a[..][..i]) == multiset(was[..i])
      invariant a[..][i..] == was[i..]
    {
      ghost var now := a[..];
      ghost var j := SinkInto(a, i);
      MovedSortsMore(now, j, i);
      PrefixOneMore(now, was, i);
    }
    SortedUnique(a[..hi], Sorted(was[..hi]));
  }
}
