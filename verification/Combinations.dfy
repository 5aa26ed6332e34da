/**
 * What a combination in an answer denotes, member by member: which members count, in whatever order and among
 * whatever others, and what their values must be.
 */
module Combinations {
  import opened Ints
  import opened Options
  import opened Decimal
  import opened Tickets
  import opened Json
  import opened Answers
  import opened Documents

  // ----- names -----

  /** The name is `numbers` in any case; the long s, U+017F, is an s in this. */
  predicate NumbersName(s: string) {
    && |s| == 7
    && s[0] in "nN" && s[1] in "uU" && s[2] in "mM" && s[3] in "bB" && s[4] in "eE" && s[5] in "rR"
    && s[6] in "sS\U{017F}"
  }

  predicate BonusName(s: string) {
    |s| == 5 && s[0] in "bB" && s[1] in "oO" && s[2] in "nN" && s[3] in "uU" && s[4] in "sS\U{017F}"
  }

  /** Which characters fold to a letter that is neither K nor S: the letter in both cases. */
  lemma FoldsTo(c: char)
    ensures FoldChar(c) == 'N' <==> c in "nN"
    ensures FoldChar(c) == 'U' <==> c in "uU"
    ensures FoldChar(c) == 'M' <==> c in "mM"
    ensures FoldChar(c) == 'B' <==> c in "bB"
    ensures FoldChar(c) == 'E' <==> c in "eE"
    ensures FoldChar(c) == 'R' <==> c in "rR"
    ensures FoldChar(c) == 'O' <==> c in "oO"
    ensures FoldChar(c) == 'S' <==> c in "sS\U{017F}"
  {
  }

  lemma NumbersNameIff(s: string)
    ensures Fold(s) == "NUMBERS" <==> NumbersName(s)
  {
    var f := Fold(s);
    if |s| == 7 {
      FoldsTo(s[0]);
      FoldsTo(s[1]);
      FoldsTo(s[2]);
      FoldsTo(s[3]);
      FoldsTo(s[4]);
      FoldsTo(s[5]);
      FoldsTo(s[6]);
      assert f == [f[0], f[1], f[2], f[3], f[4], f[5], f[6]];
    }
  }

  lemma BonusNameIff(s: string)
    ensures Fold(s) == "BONUS" <==> BonusName(s)
  {
    var f := Fold(s);
    if |s| == 5 {
      FoldsTo(s[0]);
      FoldsTo(s[1]);
      FoldsTo(s[2]);
      FoldsTo(s[3]);
      FoldsTo(s[4]);
      assert f == [f[0], f[1], f[2], f[3], f[4]];
    }
  }

  // ----- values -----

  /** The value is an integer that fits 64 bits. */
  ghost predicate IsInt(v: Json, n: int) { v.Number? && ParseInt(v.text) == Some(n) }

  /** An integer field takes an integer, or null, which leaves it as it was. */
  ghost predicate FitsInt(v: Json) { v.Null? || exists n :: IsInt(v, n) }

  /** A list of integers: null is the empty one, and null in a list is zero. */
  ghost predicate IsInts(v: Json, ns: seq<int>) {
    || (v.Null? && ns == [])
    || (v.Array? && |v.items| == |ns|
        && forall k :: 0 <= k < |ns| ==> IsInt(v.items[k], ns[k]) || (v.items[k].Null? && ns[k] == 0))
  }

  ghost predicate FitsInts(v: Json) { v.Null? || (v.Array? && forall k :: 0 <= k < |v.items| ==> FitsInt(v.items[k])) }

  lemma DecodeIntIff(v: Json, kept: int)
    ensures DecodeInt(v, kept).Some? <==> FitsInt(v)
    ensures DecodeInt(v, kept).Some? ==>
              if v.Null? then DecodeInt(v, kept).value == kept else IsInt(v, DecodeInt(v, kept).value)
  {
    if v.Number? && ParseInt(v.text).Some? {
      assert IsInt(v, ParseInt(v.text).value);
    }
  }

  lemma {:induction false} DecodeIntsIff(items: seq<Json>)
    ensures DecodeInts(items).Some? <==> forall k :: 0 <= k < |items| ==> FitsInt(items[k])
    ensures DecodeInts(items).Some? ==> IsInts(Array(items), DecodeInts(items).value)
  {
    if items != [] {
      DecodeIntIff(items[0], 0);
      DecodeIntsIff(items[1..]);
      assert items == [items[0]] + items[1..];
    }
  }

  lemma DecodeNumbersIff(v: Json)
    ensures DecodeNumbers(v).Some? <==> FitsInts(v)
    ensures DecodeNumbers(v).Some? ==> IsInts(v, DecodeNumbers(v).value)
  {
    if v.Array? {
      DecodeIntsIff(v.items);
    }
  }

  // ----- members -----

  /** The member is a field of a combination and its value does not fit that field. */
  ghost predicate Mismatched(m: Member) {
    (NumbersName(m.name) && !FitsInts(m.value)) || (BonusName(m.name) && !FitsInt(m.value))
  }

  /** Member `i` is the last one called `numbers`. */
  ghost predicate LastNumbers(ms: seq<Member>, i: int) {
    0 <= i < |ms| && NumbersName(ms[i].name) && forall j :: i < j < |ms| ==> !NumbersName(ms[j].name)
  }

  /** Member `i` is the last one called `bonus` that is not null. */
  ghost predicate LastBonus(ms: seq<Member>, i: int) {
    && 0 <= i < |ms| && BonusName(ms[i].name) && !ms[i].value.Null?
    && forall j :: i < j < |ms| ==> !(BonusName(ms[j].name) && !ms[j].value.Null?)
  }

  /** What the members make of a combination that was `c`: of each field the last word, and what is not said stays. */
  ghost predicate Says(ms: seq<Member>, c: Combination, r: Combination) {
    && (forall i :: LastNumbers(ms, i) ==> IsInts(ms[i].value, r.numbers))
    && ((forall i :: 0 <= i < |ms| ==> !NumbersName(ms[i].name)) ==> r.numbers == c.numbers)
    && (forall i :: LastBonus(ms, i) ==> IsInt(ms[i].value, r.bonus))
    && ((forall i :: 0 <= i < |ms| ==> !(BonusName(ms[i].name) && !ms[i].value.Null?)) ==> r.bonus == c.bonus)
  }

  /** What one member makes of `c`. */
  ghost predicate Changes(m: Member, c: Combination, d: Combination) {
    && (if NumbersName(m.name) then IsInts(m.value, d.numbers) else d.numbers == c.numbers)
    && (if BonusName(m.name) && !m.value.Null? then IsInt(m.value, d.bonus) else d.bonus == c.bonus)
  }

  /** The decoder takes the members one by one. */
  lemma OneMember(ms: seq<Member>, c: Combination) returns (d: Combination)
    requires ms != []
    ensures Mismatched(ms[0]) ==> DecodeFields(ms, c) == None
    ensures !Mismatched(ms[0]) ==> Changes(ms[0], c, d) && DecodeFields(ms, c) == DecodeFields(ms[1..], d)
  {
    var m := ms[0];
    NumbersNameIff(m.name);
    BonusNameIff(m.name);
    DecodeNumbersIff(m.value);
    DecodeIntIff(m.value, c.bonus);
    assert |"NUMBERS"| != |"BONUS"|;
    d := if NumbersName(m.name) && DecodeNumbers(m.value).Some? then c.(numbers := DecodeNumbers(m.value).value)
         else if BonusName(m.name) && DecodeInt(m.value, c.bonus).Some?
         then c.(bonus := DecodeInt(m.value, c.bonus).value)
         else c;
  }

  lemma NumbersSaid(ms: seq<Member>, c: Combination, d: Combination, r: Combination)
    requires ms != [] && Changes(ms[0], c, d) && Says(ms[1..], d, r)
    ensures forall i :: LastNumbers(ms, i) ==> IsInts(ms[i].value, r.numbers)
    ensures (forall i :: 0 <= i < |ms| ==> !NumbersName(ms[i].name)) ==> r.numbers == c.numbers
  {
    var rest := ms[1..];
    forall i | LastNumbers(ms, i) ensures IsInts(ms[i].value, r.numbers) {
      if i > 0 {
        assert LastNumbers(rest, i - 1);
      } else {
        assert forall j :: 0 <= j < |rest| ==> rest[j] == ms[j + 1];
      }
    }
  }

  lemma BonusSaid(ms: seq<Member>, c: Combination, d: Combination, r: Combination)
    requires ms != [] && Changes(ms[0], c, d) && Says(ms[1..], d, r)
    ensures forall i :: LastBonus(ms, i) ==> IsInt(ms[i].value, r.bonus)
    ensures (forall i :: 0 <= i < |ms| ==> !(BonusName(ms[i].name) && !ms[i].value.Null?)) ==> r.bonus == c.bonus
  {
    var rest := ms[1..];
    forall i | LastBonus(ms, i) ensures IsInt(ms[i].value, r.bonus) {
      if i > 0 {
        assert LastBonus(rest, i - 1);
      } else {
        assert forall j :: 0 <= j < |rest| ==> rest[j] == ms[j + 1];
      }
    }
  }

  lemma MismatchBehind(ms: seq<Member>)
    requires ms != [] && !Mismatched(ms[0])
    ensures (exists i :: 0 <= i < |ms| && Mismatched(ms[i])) <==>
            exists i :: 0 <= i < |ms[1..]| && Mismatched(ms[1..][i])
  {
    assert forall i :: 0 < i < |ms| ==> ms[i] == ms[1..][i - 1];
    assert forall i :: 0 <= i < |ms[1..]| ==> ms[1..][i] == ms[i + 1];
  }

  lemma {:induction false} FieldsSay(ms: seq<Member>, c: Combination)
    ensures DecodeFields(ms, c).None? <==> exists i :: 0 <= i < |ms| && Mismatched(ms[i])
    ensures DecodeFields(ms, c).Some? ==> Says(ms, c, DecodeFields(ms, c).value)
  {
    if ms != [] {
      var d := OneMember(ms, c);
      if !Mismatched(ms[0]) {
        FieldsSay(ms[1..], d);
        MismatchBehind(ms);
        if DecodeFields(ms, c).Some? {
          NumbersSaid(ms, c, d, DecodeFields(ms, c).value);
          BonusSaid(ms, c, d, DecodeFields(ms, c).value);
        }
      }
    }
  }

  /**
   * What an object denotes: nothing if a member called `numbers` or `bonus` has a value that does not fit, and
   * otherwise the values of the last of each, a null bonus not counting. All other members are ignored.
   */
  lemma CombinationLaw(ms: seq<Member>)
    ensures DecodeCombination(Object(ms)).None? <==> exists i :: 0 <= i < |ms| && Mismatched(ms[i])
    ensures DecodeCombination(Object(ms)).Some? ==>
              Says(ms, Combination([], 0), DecodeCombination(Object(ms)).value)
  {
    ObjectDecodes(ms);
    FieldsSay(ms, Combination([], 0));
  }

  lemma ObjectDecodes(ms: seq<Member>)
    ensures DecodeCombination(Object(ms)) == DecodeFields(ms, Combination([], 0))
  {
  }

  /** Other values: null is an empty combination, anything else none at all. */
  lemma OtherValues(v: Json)
    requires !v.Object?
    ensures TicketIn(v) == if v.Null? then Some([]) else None
  {
    ValidatorsAgree([], 0);
  }

  // ----- tickets -----

  /** An object that says these numbers and this bonus, in either order, among any other members. */
  ghost predicate Holds(v: Json, t: Ticket) {
    && v.Object? && (forall k :: 0 <= k < |v.members| ==> !Mismatched(v.members[k]))
    && (exists i :: LastNumbers(v.members, i) && IsInts(v.members[i].value, t.numbers))
    && (exists j :: LastBonus(v.members, j) && IsInt(v.members[j].value, t.bonus))
  }

  lemma IntsUnique(v: Json, a: seq<int>, b: seq<int>)
    requires IsInts(v, a) && IsInts(v, b)
    ensures a == b
  {
  }

  /** The tickets of a list that follow the rules, each with its seven sorted. */
  ghost function Playables(ts: seq<Ticket>): seq<Ticket> {
    if ts == [] then []
    else (if Playable(ts[0].numbers, ts[0].bonus) then [Ticket(Sorted(ts[0].numbers), ts[0].bonus)] else [])
         + Playables(ts[1..])
  }

  /** Such an object is decoded to its ticket if that follows the rules, and otherwise to no ticket. */
  lemma HeldTicket(v: Json, t: Ticket)
    requires Holds(v, t)
    ensures TicketIn(v) == Some(if Playable(t.numbers, t.bonus) then [Ticket(Sorted(t.numbers), t.bonus)] else [])
  {
    CombinationLaw(v.members);
    var c := DecodeCombination(v).value;
    var i :| LastNumbers(v.members, i) && IsInts(v.members[i].value, t.numbers);
    var j :| LastBonus(v.members, j) && IsInt(v.members[j].value, t.bonus);
    IntsUnique(v.members[i].value, c.numbers, t.numbers);
    assert IsInt(v.members[j].value, c.bonus);
    ValidatorsAgree(t.numbers, t.bonus);
  }

  /** An object that lacks its numbers or its bonus holds no ticket, but spoils none either. */
  lemma LackingTicket(ms: seq<Member>)
    requires forall k :: 0 <= k < |ms| ==> !Mismatched(ms[k])
    requires || (forall k :: 0 <= k < |ms| ==> !NumbersName(ms[k].name))
             || (forall k :: 0 <= k < |ms| ==> !(BonusName(ms[k].name) && !ms[k].value.Null?))
    ensures TicketIn(Object(ms)) == Some([])
  {
    CombinationLaw(ms);
    var c := DecodeCombination(Object(ms)).value;
    ValidatorsAgree(c.numbers, c.bonus);
  }

  /** And one with a value that does not fit ends the list. */
  lemma MismatchedTicket(ms: seq<Member>, k: nat)
    requires k < |ms| && Mismatched(ms[k])
    ensures TicketIn(Object(ms)) == None
  {
    CombinationLaw(ms);
  }

  lemma {:induction false} HeldTickets(items: seq<Json>, ts: seq<Ticket>)
    requires |items| == |ts| && forall k :: 0 <= k < |items| ==> Holds(items[k], ts[k])
    ensures ItemTickets(items) == Playables(ts)
  {
    if items != [] {
      HeldTicket(items[0], ts[0]);
      forall k | 0 <= k < |items[1..]| ensures Holds(items[1..][k], ts[1..][k]) {
        assert Holds(items[k + 1], ts[k + 1]);
      }
      HeldTickets(items[1..], ts[1..]);
    }
  }
}
