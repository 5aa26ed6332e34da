/** Tickets as JSON text, the way the prompt prints them and the model is told to answer. */
module Render {
  import opened Ints
  import opened Decimal
  import opened Texts
  import opened Options
  import opened Tickets
  import opened TicketKeys
  import opened Json
  import opened Answers

  /** `joinInts`: the numbers separated by commas. */
  function JoinInts(nums: seq<int>): string {
    if nums == [] then ""
    else if |nums| == 1 then IntText(nums[0])
    else IntText(nums[0]) + ("," + JoinInts(nums[1..]))
  }

  const NUMBERS_NAME := "numbers"
  const BONUS_NAME := "bonus"
  const LIST_NAME := "combinations"

  function Quoted(name: string): string { "\"" + name + "\"" }

  /** The end of a ticket's object from its bonus on, then `z`. */
  function BonusText(t: Ticket, z: string): string {
    Quoted(BONUS_NAME) + (":" + (IntText(t.bonus) + ("}" + z)))
  }

  /** A bracketed list of numbers, then `z`. */
  function ArrayText(nums: seq<int>, z: string): string { "[" + (JoinInts(nums) + ("]" + z)) }

  /** A ticket's object behind its opening brace, then `z`. */
  function MembersText(t: Ticket, z: string): string {
    Quoted(NUMBERS_NAME) + (":" + ArrayText(t.numbers, "," + BonusText(t, z)))
  }

  /** `{"numbers":[...],"bonus":n}`. */
  function TicketText(t: Ticket): string { "{" + MembersText(t, "") }

  function Piece(t: Ticket, first: bool): string {
    if first then TicketText(t) else "," + TicketText(t)
  }

  /** How a list writes its elements, the first one or a later one. */
  type Pieces = (Ticket, bool) -> string

  function ListOf(piece: Pieces, ts: seq<Ticket>, first: bool): string {
    if ts == [] then "" else piece(ts[0], first) + ListOf(piece, ts[1..], false)
  }

  function Printed(): Pieces { (t, first) => Piece(t, first) }

  function ListText(ts: seq<Ticket>, first: bool): string { ListOf(Printed(), ts, first) }

  function Head(): string { "{" + Quoted(LIST_NAME) + ":[" }

  /** The answer format of the system prompt. */
  function AnswerText(ts: seq<Ticket>): string { Head() + ListText(ts, true) + "]}" }

  // ----- reading the pieces back -----

  predicate PlainChar(c: char) { c >= ' ' && c != '"' && c != '\\' }

  predicate Plain(s: string) { forall i :: 0 <= i < |s| ==> PlainChar(s[i]) }

  lemma {:induction false} ReadPlain(name: string, z: string)
    requires Plain(name)
    ensures ReadString(name + ("\"" + z)) == Got(name, z)
  {
    if name == [] {
      assert name + ("\"" + z) == "\"" + z;
    } else {
      var tail := name[1..] + ("\"" + z);
      ReadPlain(name[1..], z);
      assert ReadString([name[0]] + tail) == Prepend(name[0], ReadString(tail)) by {
        assert ([name[0]] + tail)[1..] == tail;
      }
      assert (name + ("\"" + z))[1..] == name[1..] + ("\"" + z);
      assert [name[0]] + name[1..] == name;
    }
  }

  lemma ReadQuotedName(name: string, z: string)
    requires Plain(name)
    ensures ReadName(Quoted(name) + (":" + z)) == Got(name, z)
  {
    var s := Quoted(name) + (":" + z);
    assert s[1..] == name + ("\"" + (":" + z));
    ReadPlain(name, ":" + z);
  }

  /** What may follow a number without being taken for a part of it. */
  predicate EndsNumber(z: string) {
    z == "" || !(IsDigit(z[0]) || z[0] == '.' || z[0] == 'e' || z[0] == 'E')
  }

  /** Digits as `Itoa` prints them: no leading zero. */
  predicate Canonical(d: string) { d != [] && AllDigits(d) && (d[0] == '0' ==> d == "0") }

  lemma UnsignedOf(d: string, z: string)
    requires Canonical(d) && EndsNumber(z)
    ensures UnsignedLength(d + z) == |d|
  {
    DigitPrefixOf(d, z);
    assert (d + z)[0] == d[0];
    assert (d + z)[|d|..] == z;
  }

  lemma IntTextShape(n: int)
    ensures exists d :: Canonical(d) && (IntText(n) == d || IntText(n) == "-" + d)
  {
    var m := if n < 0 then -n else n;
    NatTextHead(m);
    assert Canonical(NatText(m));
  }

  lemma NumberOf(d: string, z: string, neg: bool)
    requires Canonical(d) && EndsNumber(z)
    ensures var s := if neg then "-" + d else d; NumberLength(s + z) == |s|
  {
    UnsignedOf(d, z);
    if neg {
      Assoc("-", d, z);
      assert ("-" + (d + z))[1..] == d + z;
    } else {
      assert (d + z)[0] == d[0];
    }
  }

  lemma ScalarOfDigits(d: string, z: string)
    requires d != [] && NumberChar(d[0])
    requires NumberLength(d + z) == |d|
    ensures ReadScalar(d + z) == Got(Number(d), z)
  {
    var s := d + z;
    assert s[0] == d[0];
    assert s[..|d|] == d && s[|d|..] == z;
  }

  lemma ReadValueScalar(s: string, depth: nat)
    requires s != [] && !IsSpace(s[0]) && s[0] != '{' && s[0] != '['
    ensures ReadValue(s, depth) == ReadScalar(s)
  {
  }

  lemma ReadNumber(d: string, z: string, depth: nat)
    requires d != [] && NumberChar(d[0])
    requires NumberLength(d + z) == |d|
    ensures ReadValue(d + z, depth) == Got(Number(d), z)
  {
    ScalarOfDigits(d, z);
    assert (d + z)[0] == d[0];
    ReadValueScalar(d + z, depth);
  }

  /** A printed integer is read back as its own text. */
  lemma ReadInt(n: int, z: string, depth: nat)
    requires EndsNumber(z)
    ensures ReadValue(IntText(n) + z, depth) == Got(Number(IntText(n)), z)
  {
    IntTextShape(n);
    var d :| Canonical(d) && (IntText(n) == d || IntText(n) == "-" + d);
    NumberOf(d, z, IntText(n) != d);
    ReadNumber(IntText(n), z, depth);
  }

  function NumberItems(nums: seq<int>): (items: seq<Json>)
    ensures |items| == |nums|
  {
    if nums == [] then [] else [Number(IntText(nums[0]))] + NumberItems(nums[1..])
  }

  lemma LastItem(s: string, v: Json, z: string, depth: nat)
    requires ReadValue(s, depth) == Got(v, "]" + z)
    ensures ReadItems(s, depth) == Got([v], z)
  {
    assert ("]" + z)[1..] == z;
  }

  lemma OneMoreItem(s: string, v: Json, tail: string, depth: nat)
    requires ReadValue(s, depth) == Got(v, "," + tail)
    ensures ReadItems(s, depth) ==
            match ReadItems(tail, depth) case Fail => Fail case Got(vs, r) => Got([v] + vs, r)
  {
    assert ("," + tail)[1..] == tail;
  }

  lemma JoinStep(nums: seq<int>, z: string)
    requires nums != []
    ensures JoinInts(nums) + ("]" + z) ==
            IntText(nums[0]) + (if |nums| == 1 then "]" + z else "," + (JoinInts(nums[1..]) + ("]" + z)))
  {
    if |nums| > 1 {
      Assoc(IntText(nums[0]), "," + JoinInts(nums[1..]), "]" + z);
      Assoc(",", JoinInts(nums[1..]), "]" + z);
    }
  }

  lemma {:induction false} ReadInts(nums: seq<int>, z: string, depth: nat)
    requires nums != []
    ensures ReadItems(JoinInts(nums) + ("]" + z), depth) == Got(NumberItems(nums), z)
  {
    JoinStep(nums, z);
    var tail := if |nums| == 1 then "]" + z else "," + (JoinInts(nums[1..]) + ("]" + z));
    var s := IntText(nums[0]) + tail;
    var v := Number(IntText(nums[0]));
    ReadInt(nums[0], tail, depth);
    if |nums| == 1 {
      LastItem(s, v, z, depth);
      assert nums[1..] == [];
      assert NumberItems(nums) == [v];
    } else {
      OneMoreItem(s, v, JoinInts(nums[1..]) + ("]" + z), depth);
      ReadInts(nums[1..], z, depth);
    }
  }

  lemma ReadIntArray(nums: seq<int>, z: string, depth: nat)
    requires depth < MAX_DEPTH
    ensures ReadValue(ArrayText(nums, z), depth) == Got(Array(NumberItems(nums)), z)
  {
    var s := JoinInts(nums) + ("]" + z);
    assert ("[" + s)[1..] == s;
    if nums == [] {
      assert s == "]" + z && s[1..] == z;
    } else {
      ReadInts(nums, z, depth + 1);
      JoinHead(nums);
      assert s[0] == JoinInts(nums)[0];
    }
  }

  lemma JoinHead(nums: seq<int>)
    requires nums != []
    ensures JoinInts(nums) != [] && NumberChar(JoinInts(nums)[0])
  {
    assert JoinInts(nums)[0] == IntText(nums[0])[0];
  }

  ghost function TicketJson(t: Ticket): Json {
    Object([Member(NUMBERS_NAME, Array(NumberItems(t.numbers))), Member(BONUS_NAME, Number(IntText(t.bonus)))])
  }

  lemma BonusTextTail(t: Ticket, z: string)
    ensures BonusText(t, "") + z == BonusText(t, z)
  {
    assert "}" + "" + z == "}" + z;
  }

  lemma TicketTextTail(t: Ticket, z: string)
    ensures TicketText(t) + z == "{" + MembersText(t, z)
  {
    BonusTextTail(t, z);
    MembersTail(Quoted(NUMBERS_NAME), JoinInts(t.numbers), BonusText(t, ""), z);
  }

  lemma MembersTail(a: string, n: string, b: string, z: string)
    ensures "{" + (a + (":" + ("[" + (n + ("]" + ("," + b)))))) + z ==
            "{" + (a + (":" + ("[" + (n + ("]" + ("," + (b + z)))))))
  {
    assert n + ("]" + ("," + b)) + z == n + ("]" + ("," + (b + z)));
  }

  lemma LastMember(s: string, name: string, r: string, v: Json, z: string, depth: nat)
    requires ReadName(s) == Got(name, r) && ReadValue(r, depth) == Got(v, "}" + z)
    ensures ReadMembers(s, depth) == Got([Member(name, v)], z)
  {
    assert ("}" + z)[1..] == z;
  }

  lemma TwoMembers(s: string, n1: string, r1: string, v1: Json, tail: string, m2: Member, z: string, depth: nat)
    requires ReadName(s) == Got(n1, r1) && ReadValue(r1, depth) == Got(v1, "," + tail)
    requires ReadMembers(tail, depth) == Got([m2], z)
    ensures ReadMembers(s, depth) == Got([Member(n1, v1), m2], z)
  {
    assert ("," + tail)[1..] == tail;
    assert [Member(n1, v1)] + [m2] == [Member(n1, v1), m2];
  }

  lemma ReadBonus(t: Ticket, z: string, depth: nat)
    ensures ReadMembers(BonusText(t, z), depth) == Got([Member(BONUS_NAME, Number(IntText(t.bonus)))], z)
  {
    var r := IntText(t.bonus) + ("}" + z);
    ReadQuotedName(BONUS_NAME, r);
    ReadInt(t.bonus, "}" + z, depth);
    LastMember(BonusText(t, z), BONUS_NAME, r, Number(IntText(t.bonus)), z, depth);
  }

  lemma TicketMembers(t: Ticket)
    ensures TicketJson(t).members ==
            [Member(NUMBERS_NAME, Array(NumberItems(t.numbers))), Member(BONUS_NAME, Number(IntText(t.bonus)))]
  {
  }

  lemma ReadTicketMembers(t: Ticket, z: string, depth: nat)
    requires depth < MAX_DEPTH
    ensures ReadMembers(MembersText(t, z), depth) == Got(TicketJson(t).members, z)
  {
    var tail := BonusText(t, z);
    var r := ArrayText(t.numbers, "," + tail);
    ReadQuotedName(NUMBERS_NAME, r);
    ReadIntArray(t.numbers, "," + tail, depth);
    ReadBonus(t, z, depth);
    TicketMembers(t);
    TwoMembers(MembersText(t, z), NUMBERS_NAME, r, Array(NumberItems(t.numbers)), tail,
               Member(BONUS_NAME, Number(IntText(t.bonus))), z, depth);
  }

  /** A printed ticket is read back as its own object, whatever follows. */
  lemma ReadTicket(t: Ticket, z: string)
    ensures ReadValue(TicketText(t) + z, 0) == Got(TicketJson(t), z)
  {
    TicketTextTail(t, z);
    ReadTicketMembers(t, z, 1);
    assert ("{" + MembersText(t, z))[1..] == MembersText(t, z);
    assert MembersText(t, z)[0] == '"';
  }

  // ----- and decoded -----

  lemma ParseIntText(n: int)
    requires MIN_INT64 <= n <= MAX_INT64
    ensures ParseInt(IntText(n)) == Some(n)
  {
    var s := IntText(n);
    if n < 0 {
      assert s[1..] == NatText(-n);
      ValueOfNatText(-n);
    } else {
      assert IsDigit(s[0]);
      ValueOfNatText(n);
    }
  }

  lemma DecodeIntsStep(text: string, n: int, items: seq<Json>, ns: seq<int>)
    requires ParseInt(text) == Some(n) && DecodeInts(items) == Some(ns)
    ensures DecodeInts([Number(text)] + items) == Some([n] + ns)
  {
    assert ([Number(text)] + items)[1..] == items;
  }

  lemma {:induction false} DecodeNumberItems(nums: seq<int>)
    requires InRange(nums, MIN_INT64, MAX_INT64)
    ensures DecodeInts(NumberItems(nums)) == Some(nums)
  {
    if nums != [] {
      assert nums[0] in nums && forall x :: x in nums[1..] ==> x in nums;
      ParseIntText(nums[0]);
      DecodeNumberItems(nums[1..]);
      DecodeIntsStep(IntText(nums[0]), nums[0], NumberItems(nums[1..]), nums[1..]);
      assert nums == [nums[0]] + nums[1..];
    }
  }

  lemma FoldedNames()
    ensures Fold(NUMBERS_NAME) == "NUMBERS" && Fold(BONUS_NAME) == "BONUS"
  {
    var n, b := Fold(NUMBERS_NAME), Fold(BONUS_NAME);
    assert n == [n[0], n[1], n[2], n[3], n[4], n[5], n[6]];
    assert b == [b[0], b[1], b[2], b[3], b[4]];
  }

  lemma DecodeTicketJson(t: Ticket)
    requires InRange(t.numbers, MIN_INT64, MAX_INT64) && MIN_INT64 <= t.bonus <= MAX_INT64
    ensures DecodeCombination(TicketJson(t)) == Some(Combination(t.numbers, t.bonus))
  {
    FoldedNames();
    DecodeNumberItems(t.numbers);
    ParseIntText(t.bonus);
    var ms := TicketJson(t).members;
    var c := Combination(t.numbers, 0);
    assert DecodeFields(ms[1..], c) == Some(Combination(t.numbers, t.bonus)) by {
      assert ms[1..][0] == ms[1];
      assert |Fold(BONUS_NAME)| != |"NUMBERS"|;
      assert DecodeFields(ms[1..][1..], c.(bonus := t.bonus)) == Some(Combination(t.numbers, t.bonus));
    }
  }

  /** Numbers as the decoder can hold them. */
  ghost predicate Printable(t: Ticket) {
    InRange(t.numbers, MIN_INT64, MAX_INT64) && MIN_INT64 <= t.bonus <= MAX_INT64
  }

  /** What a printed ticket is worth: itself with its seven sorted if it is playable, nothing otherwise. */
  ghost function Worth(t: Ticket): seq<Ticket> {
    match TicketOf(t.numbers, t.bonus) case None => [] case Some(u) => [u]
  }

  lemma PrintableDecodes(t: Ticket)
    requires Printable(t)
    ensures TicketIn(TicketJson(t)) == Some(Worth(t))
  {
    DecodeTicketJson(t);
  }

  lemma IssuableIsWorthItself(t: Ticket)
    requires Issuable(t)
    ensures Printable(t) && Worth(t) == [t]
  {
    forall x | x in t.numbers ensures MIN_INT64 <= x <= MAX_INT64 {
      assert 1 <= x <= 35;
    }
    ValidatorsAgree(t.numbers, t.bonus);
    SortedOfAscending(t.numbers);
  }

  lemma IssuableDecodes(t: Ticket)
    requires Issuable(t)
    ensures TicketIn(TicketJson(t)) == Some([t])
  {
    IssuableIsWorthItself(t);
    PrintableDecodes(t);
  }

  // ----- characters that do not occur -----

  lemma {:induction false} JoinWithout(nums: seq<int>, c: char)
    requires !NumberChar(c) && c != ','
    ensures Without(JoinInts(nums), c)
  {
    if |nums| > 1 {
      JoinWithout(nums[1..], c);
    }
  }

  lemma TicketTextWithout(t: Ticket)
    ensures Without(TicketText(t), '<')
    ensures TicketText(t)[0] == '{' && Without(TicketText(t)[1..], '{')
  {
    JoinWithout(t.numbers, '<');
    JoinWithout(t.numbers, '{');
    MembersWithout(t, '<');
    MembersWithout(t, '{');
    assert TicketText(t)[1..] == MembersText(t, "");
  }

  lemma MembersWithout(t: Ticket, c: char)
    requires c == '<' || c == '{'
    ensures Without(MembersText(t, ""), c)
  {
    JoinWithout(t.numbers, c);
    assert Without(Quoted(NUMBERS_NAME), c) && Without(Quoted(BONUS_NAME), c);
    assert Without(IntText(t.bonus), c);
    assert Without(BonusText(t, ""), c);
  }

  lemma {:induction false} ListTextWithout(ts: seq<Ticket>, first: bool)
    ensures Without(ListText(ts, first), '<')
  {
    if ts != [] {
      TicketTextWithout(ts[0]);
      ListTextWithout(ts[1..], false);
    }
  }

  lemma AnswerTextWithout(ts: seq<Ticket>)
    ensures Without(AnswerText(ts), '<')
    ensures Head()[0] == '{' && Without(Head()[1..], '{')
  {
    ListTextWithout(ts, true);
    assert Head()[1..] == Quoted(LIST_NAME) + ":[";
    assert Without(Quoted(LIST_NAME), '<') && Without(Quoted(LIST_NAME), '{');
    assert Without(Head(), '<');
  }
}
