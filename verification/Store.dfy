/** The draws table and the operations on it: insert-only creation, replacement, deletion, listing. */
module Store {
  import opened Ints
  import opened Tickets

  /** The columns n1..n7 and bonus of one row; the primary key is the map key. */
  datatype Row = Row(n: seq<int>, bonus: int)

  type Rows = map<int, Row>

  datatype Draw = Draw(no: int, numbers: seq<int>, bonus: int)

  datatype Outcome = Done | Duplicate | NotFound | WrongLength | Failed

  /** Every row meets the table's CHECK constraints. */
  ghost predicate Legal(rows: Rows) {
    forall k :: k in rows ==> SchemaAccepts(k, rows[k].n, rows[k].bonus)
  }

  // ----- what the statements do -----

  /**
   * The outcome of `Create`. The CHECKs are tested before the primary key, so a malformed row is refused as
   * such even when its number is taken; `fault` says that the statement fails for another reason.
   */
  ghost function CreateOutcome(rows: Rows, d: Draw, fault: bool): Outcome {
    if |d.numbers| != 7 then WrongLength
    else if fault || !SchemaAccepts(d.no, Sorted(d.numbers), d.bonus) then Failed
    else if d.no in rows then Duplicate
    else Done
  }

  ghost function AfterCreate(rows: Rows, d: Draw, fault: bool): Rows {
    if CreateOutcome(rows, d, fault).Done? then rows[d.no := Row(Sorted(d.numbers), d.bonus)] else rows
  }

  /** The outcome of `Update`: without a row to change no CHECK is tested. */
  ghost function UpdateOutcome(rows: Rows, no: int, numbers: seq<int>, bonus: int, fault: bool): Outcome {
    if |numbers| != 7 then WrongLength
    else if fault then Failed
    else if no !in rows then NotFound
    else if !SchemaAccepts(no, Sorted(numbers), bonus) then Failed
    else Done
  }

  ghost function AfterUpdate(rows: Rows, no: int, numbers: seq<int>, bonus: int, fault: bool): Rows {
    if UpdateOutcome(rows, no, numbers, bonus, fault).Done? then rows[no := Row(Sorted(numbers), bonus)] else rows
  }

  ghost function DeleteOutcome(rows: Rows, no: int, fault: bool): Outcome {
    if fault then Failed else if no !in rows then NotFound else Done
  }

  ghost function AfterDelete(rows: Rows, no: int, fault: bool): Rows {
    if fault then rows else rows - {no}
  }

  /** The CHECKs, by the rules of the game. */
  lemma AcceptedIff(no: int, numbers: seq<int>, bonus: int)
    ensures SchemaAccepts(no, Sorted(numbers), bonus) <==> no >= 1 && Playable(numbers, bonus)
  {
    ValidatedMeetsSchema(no, numbers, bonus);
    ValidatorsAgree(numbers, bonus);
  }

  // ----- ORDER BY draw_no DESC -----

  predicate IsTop(k: int, keys: set<int>) {
    k in keys && forall j :: j in keys ==> j <= k
  }

  lemma {:induction false} HasTop(keys: set<int>)
    requires keys != {}
    ensures exists k :: IsTop(k, keys)
    decreases |keys|
  {
    assert (forall x :: x !in keys) ==> keys == {};
    var x :| x in keys;
    var rest := keys - {x};
    if rest == {} {
      assert keys == {x};
      assert IsTop(x, keys);
    } else {
      HasTop(rest);
      var m :| IsTop(m, rest);
      var top := if x > m then x else m;
      forall j | j in keys ensures j <= top {
        assert j == x || j in rest;
      }
      assert IsTop(top, keys);
    }
  }

  /** A list of all rows, the highest number first. */
  ghost predicate IsListing(out: seq<Draw>, rows: Rows) {
    && (forall i, j :: 0 <= i < j < |out| ==> out[i].no > out[j].no)
    && (forall d :: d in out ==> d.no in rows && rows[d.no] == Row(d.numbers, d.bonus))
    && (forall k :: k in rows ==> Draw(k, rows[k].n, rows[k].bonus) in out)
  }

  lemma TopIsGreatest(a: seq<Draw>, rows: Rows, k: int)
    requires IsListing(a, rows) && a != [] && k in rows
    ensures a[0].no in rows && k <= a[0].no
  {
    assert a[0] in a;
    assert Draw(k, rows[k].n, rows[k].bonus) in a;
  }

  lemma BelowTop(a: seq<Draw>, rows: Rows)
    requires IsListing(a, rows) && a != []
    ensures a[0].no in rows && IsListing(a[1..], rows - {a[0].no})
  {
    var rest := rows - {a[0].no};
    assert a[0] in a;
    forall d | d in a[1..] ensures d.no in rest && rest[d.no] == Row(d.numbers, d.bonus) {
      assert d in a;
    }
    forall k | k in rest ensures Draw(k, rest[k].n, rest[k].bonus) in a[1..] {
      InRest(a, Draw(k, rows[k].n, rows[k].bonus));
    }
  }

  lemma InRest(a: seq<Draw>, d: Draw)
    requires d in a && d != a[0]
    ensures d in a[1..]
  {
    assert a == [a[0]] + a[1..];
  }

  lemma {:induction false} ListingLength(a: seq<Draw>, rows: Rows)
    requires IsListing(a, rows)
    ensures |a| == |rows|
    decreases |a|
  {
    if a == [] {
      assert forall k :: k in rows ==> Draw(k, rows[k].n, rows[k].bonus) in a;
      assert forall k :: k !in rows.Keys;
    } else {
      BelowTop(a, rows);
      ListingLength(a[1..], rows - {a[0].no});
      assert (rows - {a[0].no}).Keys == rows.Keys - {a[0].no};
    }
  }

  lemma ListingMeans(a: seq<Draw>, rows: Rows)
    requires IsListing(a, rows)
    ensures |a| == |rows|
    ensures forall d :: d in a <==> d.no in rows && rows[d.no] == Row(d.numbers, d.bonus)
  {
    ListingLength(a, rows);
    forall d: Draw | d.no in rows && rows[d.no] == Row(d.numbers, d.bonus) ensures d in a {
      assert Draw(d.no, rows[d.no].n, rows[d.no].bonus) in a;
    }
  }

  lemma SameTop(a: seq<Draw>, b: seq<Draw>, rows: Rows)
    requires IsListing(a, rows) && IsListing(b, rows) && a != [] && b != []
    ensures a[0] == b[0]
  {
    assert a[0] in a && b[0] in b;
    TopIsGreatest(a, rows, b[0].no);
    TopIsGreatest(b, rows, a[0].no);
  }

  lemma Reassembled(a: seq<Draw>, b: seq<Draw>)
    requires a != [] && b != [] && a[0] == b[0] && a[1..] == b[1..]
    ensures a == b
  {
    assert a == [a[0]] + a[1..] && b == [b[0]] + b[1..];
  }

  /** There is only one. */
  lemma {:induction false} ListingUnique(a: seq<Draw>, b: seq<Draw>, rows: Rows)
    requires IsListing(a, rows) && IsListing(b, rows)
    ensures a == b
    decreases |a|
  {
    ListingLength(a, rows);
    ListingLength(b, rows);
    if a != [] {
      SameTop(a, b, rows);
      BelowTop(a, rows);
      BelowTop(b, rows);
      ListingUnique(a[1..], b[1..], rows - {a[0].no});
      Reassembled(a, b);
    }
  }

  // ----- the store -----

  class Store {
    var rows: Rows

    ghost predicate Valid()
      reads this
    {
      Legal(rows)
    }

    constructor ()
      ensures Valid() && rows == map[]
    {
      rows := map[];
    }

    /** The INSERT statement. */
    method Insert(no: int, n: seq<int>, bonus: int, fault: bool) returns (o: Outcome)
      requires Valid() && |n| == 7
      modifies this
      ensures Valid()
      ensures o == if fault || !SchemaAccepts(no, n, bonus) then Failed else if no in old(rows) then Duplicate else Done
      ensures rows == if o.Done? then old(rows)[no := Row(n, bonus)] else old(rows)
    {
      if fault || !SchemaAccepts(no, n, bonus) {
        return Failed;
      }
      if no in rows {
        return Duplicate;
      }
      rows := rows[no := Row(n, bonus)];
      return Done;
    }

    method Create(d: Draw, fault: bool) returns (o: Outcome)
      requires Valid()
      modifies this
      ensures Valid()
      ensures o == CreateOutcome(old(rows), d, fault) && rows == AfterCreate(old(rows), d, fault)
      ensures o == if |d.numbers| != 7 then WrongLength
                   else if fault || !(d.no >= 1 && Playable(d.numbers, d.bonus)) then Failed
                   else if d.no in old(rows) then Duplicate
                   else Done
      ensures rows == if o == Done then old(rows)[d.no := Row(Sorted(d.numbers), d.bonus)] else old(rows)
    {
      AcceptedIff(d.no, d.numbers, d.bonus);
      var ok, nums := Normalize(d.numbers);
      if !ok {
        return WrongLength;
      }
      o := Insert(d.no, nums, d.bonus, fault);
    }

    method Update(no: int, numbers: seq<int>, bonus: int, fault: bool) returns (o: Outcome)
      requires Valid()
      modifies this
      ensures Valid()
      ensures o == UpdateOutcome(old(rows), no, numbers, bonus, fault)
      ensures rows == AfterUpdate(old(rows), no, numbers, bonus, fault)
      ensures o == if |numbers| != 7 then WrongLength
                   else if fault then Failed
                   else if no !in old(rows) then NotFound
                   else if !Playable(numbers, bonus) then Failed
                   else Done
      ensures rows == if o == Done then old(rows)[no := Row(Sorted(numbers), bonus)] else old(rows)
    {
      if no in rows {
        AcceptedIff(no, numbers, bonus);
      }
      var ok, nums := Normalize(numbers);
      if !ok {
        return WrongLength;
      }
      if fault {
        return Failed;
      }
      if no !in rows {
        return NotFound;
      }
      if !SchemaAccepts(no, nums, bonus) {
        return Failed;
      }
      rows := rows[no := Row(nums, bonus)];
      return Done;
    }

    method Delete(no: int, fault: bool) returns (o: Outcome)
      requires Valid()
      modifies this
      ensures Valid()
      ensures o == DeleteOutcome(old(rows), no, fault) && rows == AfterDelete(old(rows), no, fault)
      ensures o == if fault then Failed else if no !in old(rows) then NotFound else Done
      ensures rows == if o == Done then old(rows) - {no} else old(rows)
    {
      if fault {
        return Failed;
      }
      var affected := if no in rows then 1 else 0;
      rows := rows - {no};
      return if affected == 0 then NotFound else Done;
    }

    method List() returns (out: seq<Draw>)
      ensures IsListing(out, rows)
      ensures |out| == |rows| && forall i, j :: 0 <= i < j < |out| ==> out[i].no > out[j].no
      ensures forall d :: d in out <==> d.no in rows && rows[d.no] == Row(d.numbers, d.bonus)
    {
      out := [];
      var rest := rows.Keys;
      while rest != {}
        invariant rest <= rows.Keys
        invariant forall d :: d in out ==> d.no in rows && d.no !in rest && rows[d.no] == Row(d.numbers, d.bonus)
        invariant forall k :: k in rows && k !in rest ==> Draw(k, rows[k].n, rows[k].bonus) in out
        invariant forall i, j :: 0 <= i < j < |out| ==> out[i].no > out[j].no
        invariant forall i, k :: 0 <= i < |out| && k in rest ==> k < out[i].no
        decreases |rest|
      {
        HasTop(rest);
        var k :| IsTop(k, rest);
        out := out + [Draw(k, rows[k].n, rows[k].bonus)];
        rest := rest - {k};
      }
      ListingMeans(out, rows);
    }
  }

  /** `normalize`: a sorted copy of exactly seven numbers. */
  method Normalize(nums: seq<int>) returns (ok: bool, out: seq<int>)
    ensures ok == (|nums| == 7)
    ensures ok ==> out == Sorted(nums)
  {
    if |nums| != 7 {
      return false, [];
    }
    var copy := new int[7](i requires 0 <= i < 7 => nums[i]);
    assert copy[..7] == nums;
    SortPrefix(copy, 7);
    return true, copy[..7];
  }

  // ----- whole runs -----

  datatype Op =
    | OpCreate(d: Draw)
    | OpUpdate(no: int, numbers: seq<int>, bonus: int)
    | OpDelete(no: int)

  ghost function AfterOp(rows: Rows, op: Op, fault: bool): Rows {
    match op
    case OpCreate(d) => AfterCreate(rows, d, fault)
    case OpUpdate(no, numbers, bonus) => AfterUpdate(rows, no, numbers, bonus, fault)
    case OpDelete(no) => AfterDelete(rows, no, fault)
  }

  /** The table after a sequence of operations, each with its fault or none. */
  ghost function AfterOps(rows: Rows, ops: seq<(Op, bool)>): Rows {
    if ops == [] then rows
    else AfterOp(AfterOps(rows, ops[..|ops| - 1]), ops[|ops| - 1].0, ops[|ops| - 1].1)
  }

  /** No operation, whatever its input and whether it succeeds or fails, breaks the constraints. */
  lemma {:induction false} RunsStayLegal(rows: Rows, ops: seq<(Op, bool)>)
    requires Legal(rows)
    ensures Legal(AfterOps(rows, ops))
  {
    if ops != [] {
      RunsStayLegal(rows, ops[..|ops| - 1]);
    }
  }

  /** The draw number an operation is about. */
  function NumberOf(op: Op): int {
    match op
    case OpCreate(d) => d.no
    case OpUpdate(no, _, _) => no
    case OpDelete(no) => no
  }

  ghost predicate NoneAbout(ops: seq<(Op, bool)>, k: int) {
    forall i :: 0 <= i < |ops| ==> NumberOf(ops[i].0) != k
  }

  lemma OpCommutes(rows: Rows, op: Op, fault: bool, k: int, row: Row)
    requires NumberOf(op) != k
    ensures AfterOp(rows[k := row], op, fault) == AfterOp(rows, op, fault)[k := row]
    ensures k in AfterOp(rows, op, fault) <==> k in rows
  {
  }

  /** A row takes no part in operations on other numbers: it neither changes nor is changed by them. */
  lemma {:induction false} RowsAreIndependent(rows: Rows, ops: seq<(Op, bool)>, k: int, row: Row)
    requires NoneAbout(ops, k)
    ensures AfterOps(rows[k := row], ops) == AfterOps(rows, ops)[k := row]
    ensures k in AfterOps(rows, ops) <==> k in rows
  {
    if ops != [] {
      var n := |ops| - 1;
      RowsAreIndependent(rows, ops[..n], k, row);
      OpCommutes(AfterOps(rows, ops[..n]), ops[n].0, ops[n].1, k, row);
    }
  }

  /**
   * Deleting undoes creating, whatever was done to other numbers in between: the table is as if the row
   * had never been there.
   */
  lemma DeleteUndoesCreate(rows: Rows, d: Draw, ops: seq<(Op, bool)>)
    requires CreateOutcome(rows, d, false).Done? && NoneAbout(ops, d.no)
    ensures AfterDelete(AfterOps(AfterCreate(rows, d, false), ops), d.no, false) == AfterOps(rows, ops)
  {
    var row := Row(Sorted(d.numbers), d.bonus);
    RowsAreIndependent(rows, ops, d.no, row);
    SetThenRemove(AfterOps(rows, ops), d.no, row);
  }

  lemma SetThenRemove(rows: Rows, k: int, row: Row)
    requires k !in rows
    ensures rows[k := row] - {k} == rows
  {
  }

  lemma SortsBack(n: seq<int>, back: seq<int>)
    requires Ascending(n) && |n| == 7 && multiset(back) == multiset(n)
    ensures |back| == 7 && Sorted(back) == n
  {
    SortedPermutation(back, n);
    SortedOfAscending(n);
    assert |back| == |multiset(back)|;
    assert |n| == |multiset(n)|;
  }

  /** Updating with the row's own numbers, in any order, restores a row that an update replaced. */
  lemma UpdateUndoesUpdate(rows: Rows, no: int, numbers: seq<int>, bonus: int, back: seq<int>)
    requires Legal(rows) && no in rows
    requires multiset(back) == multiset(rows[no].n)
    ensures AfterUpdate(AfterUpdate(rows, no, numbers, bonus, false), no, back, rows[no].bonus, false) == rows
  {
    var after := AfterUpdate(rows, no, numbers, bonus, false);
    SchemaIsIssuable(no, rows[no].n, rows[no].bonus);
    SortsBack(rows[no].n, back);
    assert UpdateOutcome(after, no, back, rows[no].bonus, false).Done?;
    assert after[no := rows[no]] == rows;
  }
}
