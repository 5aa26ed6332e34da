/**
 * Reading an answer as a stream agrees with reading it whole: for any JSON document the tickets are those of
 * its first list of combinations, and more text only adds tickets behind those already complete.
 */
module Documents {
  import opened Options
  import opened Tickets
  import opened Json
  import opened Answers

  // ----- what a document holds -----

  /** The tickets of the items up to the first one that is no combination. */
  ghost function ItemTickets(items: seq<Json>): seq<Ticket> {
    if items == [] then [] else
      match TicketIn(items[0])
      case None => []
      case Some(ts) => ts + ItemTickets(items[1..])
  }

  ghost function ListTickets(v: Json): seq<Ticket> {
    match v
    case Array(items) => ItemTickets(items)
    case _ => []
  }

  /** Member `i` is the first one of the name. */
  predicate FirstNamed(ms: seq<Member>, name: string, i: nat) {
    i < |ms| && ms[i].name == name && forall j :: 0 <= j < i ==> ms[j].name != name
  }

  /** The tickets of the first member called `combinations`. */
  ghost function DocumentTickets(ms: seq<Member>): seq<Ticket> {
    if ms == [] then []
    else if ms[0].name == "combinations" then ListTickets(ms[0].value)
    else DocumentTickets(ms[1..])
  }

  /** Members in front of it and behind it, of whatever names and values, play no part. */
  lemma {:induction false} OnlyFirstNamed(ms: seq<Member>, i: nat)
    requires FirstNamed(ms, "combinations", i)
    ensures DocumentTickets(ms) == ListTickets(ms[i].value)
  {
    if i > 0 {
      assert FirstNamed(ms[1..], "combinations", i - 1);
      OnlyFirstNamed(ms[1..], i - 1);
    }
  }

  lemma {:induction false} NoneNamed(ms: seq<Member>)
    requires forall j :: 0 <= j < |ms| ==> ms[j].name != "combinations"
    ensures DocumentTickets(ms) == []
  {
    if ms != [] {
      NoneNamed(ms[1..]);
    }
  }

  /** Items behind one that is no combination are lost, those in front of it are not. */
  lemma {:induction false} ItemsUpToBad(items: seq<Json>, k: nat)
    requires k < |items| && TicketIn(items[k]) == None
    ensures ItemTickets(items) == ItemTickets(items[..k])
  {
    if k > 0 {
      assert items[..k][0] == items[0] && items[..k][1..] == items[1..][..k - 1];
      ItemsUpToBad(items[1..], k - 1);
    }
  }

  // ----- what is read inside many containers is read inside fewer -----

  ghost predicate Shallower<T>(r: Read<T>, q: Read<T>) { r.Got? ==> q == r }

  lemma {:induction false} ValueShallower(s: string, d: nat, e: nat)
    requires e <= d
    ensures Shallower(ReadValue(s, d), ReadValue(s, e))
    decreases |s|, 1
  {
    if ReadValue(s, d).Got? {
      var t := SkipSpace(s);
      if StartsWith(t, '{') {
        ObjectShallower(t[1..], d + 1, e + 1);
      } else if StartsWith(t, '[') {
        ArrayShallower(t[1..], d + 1, e + 1);
      }
    }
  }

  lemma {:induction false} ObjectShallower(s: string, d: nat, e: nat)
    requires e <= d
    ensures Shallower(ReadObject(s, d), ReadObject(s, e))
    decreases |s|, 3
  {
    MembersShallower(s, d, e);
  }

  lemma {:induction false} ArrayShallower(s: string, d: nat, e: nat)
    requires e <= d
    ensures Shallower(ReadArray(s, d), ReadArray(s, e))
    decreases |s|, 3
  {
    ItemsShallower(s, d, e);
  }

  lemma {:induction false} ItemsShallower(s: string, d: nat, e: nat)
    requires e <= d
    ensures Shallower(ReadItems(s, d), ReadItems(s, e))
    decreases |s|, 2
  {
    ValueShallower(s, d, e);
    if ReadItems(s, d).Got? {
      var t := SkipSpace(ReadValue(s, d).rest);
      if !StartsWith(t, ']') {
        ItemsShallower(t[1..], d, e);
      }
    }
  }

  lemma {:induction false} MembersShallower(s: string, d: nat, e: nat)
    requires e <= d
    ensures Shallower(ReadMembers(s, d), ReadMembers(s, e))
    decreases |s|, 2
  {
    if ReadMembers(s, d).Got? {
      assert ReadMember(s, d).Got?;
      ValueShallower(ReadName(s).rest, d, e);
      var t := SkipSpace(ReadMember(s, d).rest);
      if !StartsWith(t, '}') {
        MembersShallower(t[1..], d, e);
      }
    }
  }

  // ----- the stream agrees with the document -----

  /** Where item or member `s` begins, for a reader standing at `u`. */
  predicate Begins(u: string, first: bool, s: string) {
    if first then u == s else StartsWith(SkipSpace(u), ',') && s == SkipSpace(u)[1..]
  }

  lemma ValueIsMore(s: string, depth: nat)
    requires ReadValue(s, depth).Got?
    ensures Answers.More(s)
  {
  }

  lemma {:induction false} ItemsAgree(u: string, first: bool, s: string, depth: nat)
    requires Begins(u, first, s) && ReadItems(s, depth).Got?
    ensures Elements(u, first) == ItemTickets(ReadItems(s, depth).value)
    decreases |s|
  {
    var Got(v, r) := ReadValue(s, depth);
    var items := ReadItems(s, depth).value;
    ValueShallower(s, depth, 0);
    ValueIsMore(s, depth);
    assert NextItem(u, first) == Got(v, r) && items[0] == v;
    if StartsWith(SkipSpace(r), ']') {
      assert items[1..] == [];
    } else {
      var rest := SkipSpace(r)[1..];
      assert items[1..] == ReadItems(rest, depth).value;
      ItemsAgree(r, false, rest, depth);
    }
  }

  /** An array read whole holds exactly the tickets that are decoded from it one by one. */
  lemma ArrayAgrees(s: string, depth: nat)
    requires ReadArray(s, depth).Got?
    ensures Elements(s, true) == ListTickets(ReadArray(s, depth).value)
  {
    if !StartsWith(SkipSpace(s), ']') {
      ItemsAgree(s, true, s, depth);
    }
  }

  lemma NameIsNext(u: string, first: bool, s: string)
    requires Begins(u, first, s) && ReadName(s).Got?
    ensures Answers.More(u)
    ensures var name := NextName(u, first);
            && name.Got? && name.value == ReadName(s).value
            && AfterColon(name.rest) == Got((), ReadName(s).rest)
  {
  }

  lemma BracketIsArray(s: string, depth: nat)
    requires ReadValue(s, depth).Got?
    ensures if StartsWith(SkipSpace(s), '[') then ReadValue(s, depth) == ReadArray(SkipSpace(s)[1..], depth + 1)
            else !ReadValue(s, depth).value.Array?
  {
  }

  lemma ListAgrees(s: string, depth: nat)
    requires ReadValue(s, depth).Got?
    ensures ListTickets(ReadValue(s, depth).value) ==
            if StartsWith(SkipSpace(s), '[') then Elements(SkipSpace(s)[1..], true) else []
  {
    BracketIsArray(s, depth);
    if StartsWith(SkipSpace(s), '[') {
      ArrayAgrees(SkipSpace(s)[1..], depth + 1);
    }
  }

  lemma {:induction false} MembersAgree(u: string, first: bool, s: string, depth: nat)
    requires Begins(u, first, s) && ReadMembers(s, depth).Got?
    ensures Fields(u, first) == DocumentTickets(ReadMembers(s, depth).value)
    decreases |s|
  {
    var ms := ReadMembers(s, depth).value;
    var Got(m, r) := ReadMember(s, depth);
    NameIsNext(u, first, s);
    assert ms[0] == m;
    if m.name == "combinations" {
      ListAgrees(ReadName(s).rest, depth);
    } else {
      ValueShallower(ReadName(s).rest, depth, 0);
      assert Fields(u, first) == Fields(r, false);
      if StartsWith(SkipSpace(r), '}') {
        assert ms[1..] == [];
      } else {
        var rest := SkipSpace(r)[1..];
        assert ms[1..] == ReadMembers(rest, depth).value;
        MembersAgree(r, false, rest, depth);
      }
    }
  }

  /** The fields of an object, read one by one, give what the object read whole holds. */
  lemma ObjectAgrees(s: string, depth: nat)
    requires ReadObject(s, depth).Got?
    ensures Fields(s, true) == DocumentTickets(ReadObject(s, depth).value.members)
  {
    if !StartsWith(SkipSpace(s), '}') {
      MembersAgree(s, true, s, depth);
    }
  }

  lemma ObjectHasBrace(s: string, depth: nat)
    requires ReadValue(s, depth).Got? && ReadValue(s, depth).value.Object?
    ensures StartsWith(SkipSpace(s), '{') && ReadValue(s, depth) == ReadObject(SkipSpace(s)[1..], depth + 1)
  {
  }

  /** Any document that is an object decodes to the tickets it holds, whatever stands behind it. */
  lemma DocumentDecodes(s: string, depth: nat)
    requires ReadValue(s, depth).Got? && ReadValue(s, depth).value.Object?
    ensures Decoded(s) == DocumentTickets(ReadValue(s, depth).value.members)
  {
    ObjectHasBrace(s, depth);
    ObjectAgrees(SkipSpace(s)[1..], depth + 1);
  }

  /** So white space, other members and their order play no part: the first list of combinations decides. */
  lemma LayoutIsIrrelevant(s: string, u: string, i: nat, j: nat)
    requires ReadValue(s, 0).Got? && ReadValue(s, 0).value.Object?
    requires ReadValue(u, 0).Got? && ReadValue(u, 0).value.Object?
    requires FirstNamed(ReadValue(s, 0).value.members, "combinations", i)
    requires FirstNamed(ReadValue(u, 0).value.members, "combinations", j)
    requires ReadValue(s, 0).value.members[i].value == ReadValue(u, 0).value.members[j].value
    ensures Decoded(s) == Decoded(u)
  {
    DocumentDecodes(s, 0);
    DocumentDecodes(u, 0);
    OnlyFirstNamed(ReadValue(s, 0).value.members, i);
    OnlyFirstNamed(ReadValue(u, 0).value.members, j);
  }

  // ----- texts that are no documents -----

  /** A list goes on from an item to what stands behind it, and ends at an item that is no combination. */
  lemma ListGoesOn(u: string, first: bool, s: string)
    requires Begins(u, first, s) && ReadValue(s, 0).Got?
    ensures Elements(u, first) == match TicketIn(ReadValue(s, 0).value)
                                  case None => []
                                  case Some(ts) => ts + Elements(ReadValue(s, 0).rest, false)
  {
    ValueIsMore(s, 0);
  }

  /** It ends where no value begins: at a bracket, a missing comma, a comma too many, or anything unreadable. */
  lemma ListStops(u: string, first: bool)
    requires forall s :: Begins(u, first, s) ==> ReadValue(s, 0).Fail?
    ensures Elements(u, first) == []
  {
    assert Begins(u, first, if first || SkipSpace(u) == "" then u else SkipSpace(u)[1..])
           <==> first || StartsWith(SkipSpace(u), ',');
  }

  /** An object goes on from a member it does not look for, and ends at the first one it does. */
  lemma ObjectGoesOn(u: string, first: bool, s: string)
    requires Begins(u, first, s) && ReadName(s).Got?
    ensures var r := ReadName(s).rest;
            Fields(u, first) ==
            if ReadName(s).value == "combinations" then
              if StartsWith(SkipSpace(r), '[') then Elements(SkipSpace(r)[1..], true) else []
            else match ReadValue(r, 0) case Fail => [] case Got(_, behind) => Fields(behind, false)
  {
    NameIsNext(u, first, s);
  }

  /** It ends where no name with its colon begins. */
  lemma ObjectStops(u: string, first: bool)
    requires forall s :: Begins(u, first, s) ==> ReadName(s).Fail?
    ensures Fields(u, first) == []
  {
    assert Begins(u, first, if first || SkipSpace(u) == "" then u else SkipSpace(u)[1..])
           <==> first || StartsWith(SkipSpace(u), ',');
  }

  /** And a text that does not start with a brace, white space aside, holds nothing. */
  lemma NothingWithoutBrace(s: string)
    requires !StartsWith(SkipSpace(s), '{')
    ensures Decoded(s) == []
  {
  }

  // ----- more text only adds tickets -----

  lemma MoreExtends(s: string, x: string)
    requires Answers.More(s)
    ensures Answers.More(s + x)
  {
    SkipSpaceExtends(s, x);
  }

  lemma ItemExtends(s: string, first: bool, x: string)
    requires NextItem(s, first).Got? && !NextItem(s, first).value.Number?
    ensures NextItem(s + x, first) == Got(NextItem(s, first).value, NextItem(s, first).rest + x)
  {
    if first {
      ValueExtends(s, 0, x);
    } else {
      ClosingExtends(s, ',', x);
      ValueExtends(SkipSpace(s)[1..], 0, x);
    }
  }

  lemma {:induction false} ElementsGrow(s: string, first: bool, x: string)
    ensures Elements(s, first) <= Elements(s + x, first)
    decreases |s|
  {
    if Answers.More(s) && NextItem(s, first).Got? && TicketIn(NextItem(s, first).value).Some? {
      MoreExtends(s, x);
      ItemExtends(s, first, x);
      ElementsGrow(NextItem(s, first).rest, false, x);
    }
  }

  lemma NextNameExtends(s: string, first: bool, x: string)
    requires NextName(s, first).Got?
    ensures NextName(s + x, first) == Got(NextName(s, first).value, NextName(s, first).rest + x)
  {
    var t := SkipSpace(s);
    ClosingExtends(s, ',', x);
    ClosingExtends(s, '"', x);
    if first {
      StringExtends(t[1..], x);
    } else {
      ClosingExtends(t[1..], '"', x);
      StringExtends(SkipSpace(t[1..])[1..], x);
    }
  }

  lemma ColonExtends(s: string, x: string)
    requires AfterColon(s).Got?
    ensures AfterColon(s + x) == Got((), AfterColon(s).rest + x)
  {
    ClosingExtends(s, ':', x);
  }

  lemma {:induction false} FieldsGrow(s: string, first: bool, x: string)
    ensures Fields(s, first) <= Fields(s + x, first)
    decreases |s|
  {
    if Answers.More(s) && NextName(s, first).Got? && AfterColon(NextName(s, first).rest).Got? {
      var r := AfterColon(NextName(s, first).rest).rest;
      MoreExtends(s, x);
      NextNameExtends(s, first, x);
      ColonExtends(NextName(s, first).rest, x);
      if NextName(s, first).value == "combinations" {
        if StartsWith(SkipSpace(r), '[') {
          ClosingExtends(r, '[', x);
          ElementsGrow(SkipSpace(r)[1..], true, x);
        }
      } else if ReadValue(r, 0).Got? && ReadValue(r, 0).rest != [] {
        ValueExtends(r, 0, x);
        FieldsGrow(ReadValue(r, 0).rest, false, x);
      }
    }
  }

  /** Whatever the text, a longer one decodes to the same tickets and perhaps more behind them. */
  lemma DecodedGrows(s: string, x: string)
    ensures Decoded(s) <= Decoded(s + x)
  {
    if StartsWith(SkipSpace(s), '{') {
      ClosingExtends(s, '{', x);
      FieldsGrow(SkipSpace(s)[1..], true, x);
    }
  }
}
