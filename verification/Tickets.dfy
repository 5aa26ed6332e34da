/** Tickets, the three validators of the program and the CHECK constraints of its table. */
module Tickets {
  import opened Ints
  import opened Options

  datatype Ticket = Ticket(numbers: seq<int>, bonus: int)

  /** The rules of the game, for numbers in any order. */
  ghost predicate Playable(numbers: seq<int>, bonus: int) {
    |numbers| == 7 && InRange(numbers, 1, 35) && Distinct(numbers) && 1 <= bonus <= 54
  }

  /** A ticket as the program hands it out: playable, seven ascending. */
  ghost predicate Issuable(t: Ticket) {
    Playable(t.numbers, t.bonus) && StrictlyAscending(t.numbers)
  }

  datatype Fault =
    | WrongCount
    | OutOfRange(n: int)
    | Repeated(n: int)
    | BonusOutOfRange(b: int)

  /** The first number from position `i` on that is out of range or repeats an earlier one. */
  ghost function FirstBad(numbers: seq<int>, i: nat): Option<Fault>
    requires i <= |numbers|
    decreases |numbers| - i
  {
    if i == |numbers| then None
    else if !(1 <= numbers[i] <= 35) then Some(OutOfRange(numbers[i]))
    else if numbers[i] in numbers[..i] then Some(Repeated(numbers[i]))
    else FirstBad(numbers, i + 1)
  }

  /** What the archive parser's validator answers: the first bad number, else the bonus. */
  ghost function PageFault(numbers: seq<int>, bonus: int): Option<Fault> {
    if FirstBad(numbers, 0).Some? then FirstBad(numbers, 0)
    else if 1 <= bonus <= 54 then None
    else Some(BonusOutOfRange(bonus))
  }

  /** What the edit form's validator answers: the length comes first. */
  ghost function DrawFault(numbers: seq<int>, bonus: int): Option<Fault> {
    if |numbers| != 7 then Some(WrongCount) else PageFault(numbers, bonus)
  }

  /** What the validator of model answers returns: the ticket with its seven sorted. */
  ghost function TicketOf(numbers: seq<int>, bonus: int): Option<Ticket> {
    if DrawFault(numbers, bonus).Some? then None
    else Some(Ticket(Sorted(numbers), bonus))
  }

  /** The table's CHECK constraints, column by column. */
  predicate SchemaAccepts(drawNo: int, n: seq<int>, bonus: int) {
    && drawNo >= 1
    && |n| == 7
    && 1 <= n[0] <= 35 && 1 <= n[1] <= 35 && 1 <= n[2] <= 35 && 1 <= n[3] <= 35
    && 1 <= n[4] <= 35 && 1 <= n[5] <= 35 && 1 <= n[6] <= 35
    && 1 <= bonus <= 54
    && n[0] < n[1] < n[2] < n[3] < n[4] < n[5] < n[6]
  }

  /** The first fault is None exactly when the rest is in range and repeats nothing before it. */
  lemma {:induction false} FirstBadIff(numbers: seq<int>, i: nat)
    requires i <= |numbers|
    ensures FirstBad(numbers, i).None? <==>
            forall j :: i <= j < |numbers| ==> 1 <= numbers[j] <= 35 && numbers[j] !in numbers[..j]
    decreases |numbers| - i
  {
    if i < |numbers| {
      FirstBadIff(numbers, i + 1);
    }
  }

  lemma PageFaultIff(numbers: seq<int>, bonus: int)
    ensures PageFault(numbers, bonus).None? <==>
            InRange(numbers, 1, 35) && Distinct(numbers) && 1 <= bonus <= 54
  {
    FirstBadIff(numbers, 0);
    if FirstBad(numbers, 0).None? {
      forall i, j | 0 <= i < j < |numbers| ensures numbers[i] != numbers[j] {
        assert numbers[i] in numbers[..j] by { assert numbers[..j][i] == numbers[i]; }
        assert numbers[j] !in numbers[..j];
      }
    } else {
      var j :| 0 <= j < |numbers| && !(1 <= numbers[j] <= 35 && numbers[j] !in numbers[..j]);
      assert numbers[j] in numbers;
    }
  }

  /** Number `j` breaks the rules, and none before it does. */
  ghost predicate FirstFault(numbers: seq<int>, j: int) {
    && 0 <= j < |numbers| && Faulty(numbers, j)
    && forall i :: 0 <= i < j ==> !Faulty(numbers, i)
  }

  ghost predicate Faulty(numbers: seq<int>, j: nat)
    requires j < |numbers|
  {
    !(1 <= numbers[j] <= 35) || exists i :: 0 <= i < j && numbers[i] == numbers[j]
  }

  lemma {:induction false} FirstBadFrom(numbers: seq<int>, i: nat)
    requires i <= |numbers|
    ensures match FirstBad(numbers, i)
            case None => forall j :: i <= j < |numbers| ==> !Faulty(numbers, j)
            case Some(fault) => exists j :: i <= j < |numbers| && Faulty(numbers, j)
                                  && (forall k :: i <= k < j ==> !Faulty(numbers, k))
                                  && fault == if 1 <= numbers[j] <= 35 then Repeated(numbers[j])
                                              else OutOfRange(numbers[j])
    decreases |numbers| - i
  {
    if i < |numbers| {
      FirstBadFrom(numbers, i + 1);
      assert numbers[i] in numbers[..i] <==> exists k :: 0 <= k < i && numbers[k] == numbers[i];
    }
  }

  /** Which fault is reported: that of the first faulty number, a range before a repetition, the bonus last. */
  lemma ReportedFault(numbers: seq<int>, bonus: int)
    ensures match PageFault(numbers, bonus)
            case Some(OutOfRange(n)) => exists j :: FirstFault(numbers, j) && numbers[j] == n && !(1 <= n <= 35)
            case Some(Repeated(n)) => exists j :: FirstFault(numbers, j) && numbers[j] == n && 1 <= n <= 35
            case Some(BonusOutOfRange(b)) =>
              b == bonus && !(1 <= b <= 54) && forall j :: 0 <= j < |numbers| ==> !Faulty(numbers, j)
            case Some(WrongCount) => false
            case None => 1 <= bonus <= 54 && forall j :: 0 <= j < |numbers| ==> !Faulty(numbers, j)
  {
    FirstBadFrom(numbers, 0);
  }

  /** All three validators accept one and the same set of sevens and bonuses. */
  lemma ValidatorsAgree(numbers: seq<int>, bonus: int)
    ensures DrawFault(numbers, bonus).None? <==> Playable(numbers, bonus)
    ensures TicketOf(numbers, bonus).Some? <==> Playable(numbers, bonus)
    ensures |numbers| == 7 ==> (PageFault(numbers, bonus).None? <==> Playable(numbers, bonus))
    ensures TicketOf(numbers, bonus).Some? ==> Issuable(TicketOf(numbers, bonus).value)
  {
    PageFaultIff(numbers, bonus);
    if Playable(numbers, bonus) {
      SortedIsPlayable(numbers, bonus);
    }
  }

  lemma SortedIsPlayable(numbers: seq<int>, bonus: int)
    requires Playable(numbers, bonus)
    ensures Issuable(Ticket(Sorted(numbers), bonus))
  {
    StrictIffDistinct(numbers);
    SortedMembers(numbers);
  }

  /** The validators accept exactly what the table accepts once the seven is sorted. */
  lemma ValidatedMeetsSchema(drawNo: int, numbers: seq<int>, bonus: int)
    ensures drawNo >= 1 && DrawFault(numbers, bonus).None?
            <==> SchemaAccepts(drawNo, Sorted(numbers), bonus)
  {
    ValidatorsAgree(numbers, bonus);
    SortedMembers(numbers);
    StrictIffDistinct(numbers);
    var s := Sorted(numbers);
    if |s| == 7 {
      if SchemaAccepts(drawNo, s, bonus) {
        ColumnsAscend(s);
        forall x | x in numbers ensures 1 <= x <= 35 {
          assert x in s;
        }
      }
      if drawNo >= 1 && Playable(numbers, bonus) {
        forall i | 0 <= i < 7 ensures 1 <= s[i] <= 35 {
          assert s[i] in numbers;
        }
      }
    }
  }

  /** A row meets the CHECKs exactly when its number is one and its columns are a ticket as handed out. */
  lemma SchemaIsIssuable(drawNo: int, n: seq<int>, bonus: int)
    ensures SchemaAccepts(drawNo, n, bonus) <==> drawNo >= 1 && Issuable(Ticket(n, bonus))
  {
    if StrictlyAscending(n) {
      SortedOfAscending(n);
      ValidatedMeetsSchema(drawNo, n, bonus);
      ValidatorsAgree(n, bonus);
    }
    if |n| == 7 && n[0] < n[1] < n[2] < n[3] < n[4] < n[5] < n[6] {
      ColumnsAscend(n);
    }
  }

  lemma ColumnsAscend(s: seq<int>)
    requires |s| == 7
    requires s[0] < s[1] < s[2] < s[3] < s[4] < s[5] < s[6]
    ensures StrictlyAscending(s)
  {
    forall i, j | 0 <= i < j < 7 ensures s[i] < s[j] {
      assert i in {0, 1, 2, 3, 4, 5} && j in {1, 2, 3, 4, 5, 6};
    }
  }

  /** The archive parser's `validate`. */
  method Validate(main: seq<int>, bonus: int) returns (fault: Option<Fault>)
    ensures fault == PageFault(main, bonus)
  {
    var seen: set<int> := {};
    for i := 0 to |main|
      invariant seen == set x | x in main[..i]
      invariant FirstBad(main, 0) == FirstBad(main, i)
    {
      var n := main[i];
      if n < 1 || n > 35 {
        return Some(OutOfRange(n));
      }
      if n in seen {
        return Some(Repeated(n));
      }
      seen := seen + {n};
      assert main[..i + 1] == main[..i] + [n];
    }
    if bonus < 1 || bonus > 54 {
      return Some(BonusOutOfRange(bonus));
    }
    return None;
  }

  /** The edit form's `validateDraw`. */
  method ValidateDraw(numbers: seq<int>, bonus: int) returns (fault: Option<Fault>)
    ensures fault == DrawFault(numbers, bonus)
  {
    if |numbers| != 7 {
      return Some(WrongCount);
    }
    var seen: set<int> := {};
    for i := 0 to |numbers|
      invariant seen == set x | x in numbers[..i]
      invariant FirstBad(numbers, 0) == FirstBad(numbers, i)
    {
      var n := numbers[i];
      if n < 1 || n > 35 {
        return Some(OutOfRange(n));
      }
      if n in seen {
        return Some(Repeated(n));
      }
      seen := seen + {n};
      assert numbers[..i + 1] == numbers[..i] + [n];
    }
    if bonus < 1 || bonus > 54 {
      return Some(BonusOutOfRange(bonus));
    }
    return None;
  }

  /** The model-answer validator `validTicket`: it sorts a copy, never its argument. */
  method ValidTicket(numbers: seq<int>, bonus: int) returns (t: Option<Ticket>)
    ensures t == TicketOf(numbers, bonus)
  {
    if |numbers| != 7 || bonus < 1 || bonus > 54 {
      return None;
    }
    var seen: set<int> := {};
    for i := 0 to |numbers|
      invariant seen == set x | x in numbers[..i]
      invariant FirstBad(numbers, 0) == FirstBad(numbers, i)
    {
      var n := numbers[i];
      if n < 1 || n > 35 {
        return None;
      }
      if n in seen {
        return None;
      }
      seen := seen + {n};
      assert numbers[..i + 1] == numbers[..i] + [n];
    }
    var sorted := new int[|numbers|](i requires 0 <= i < |numbers| => numbers[i]);
    assert sorted[..|numbers|] == numbers;
    SortPrefix(sorted, |numbers|);
    return Some(Ticket(sorted[..|numbers|], bonus));
  }
}
