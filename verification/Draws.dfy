/** The admin handlers: validate, sort the payload in place, store. */
module Draws {
  import opened Ints
  import opened Decimal
  import opened Tickets
  import opened Store

  const BAD_REQUEST := 400
  const NO_SUCH_DRAW := 404
  const CONFLICT := 409
  const INTERNAL_ERROR := 500
  const OK := 200
  const CREATED := 201
  const NO_CONTENT := 204

  /** Sorting before storing is harmless: the store sorts its own copy anyway. */
  lemma SortedTwice(numbers: seq<int>)
    ensures Sorted(Sorted(numbers)) == Sorted(numbers)
  {
    SortedOfAscending(Sorted(numbers));
  }

  /**
   * The answer in terms of the rules of the game alone: no request that passes the validator is refused by the
   * table, so the server is at fault only when the statement fails.
   */
  method CreateDraw(st: Store, no: int, numbers: array<int>, bonus: int, fault: bool) returns (status: int)
    requires st.Valid()
    modifies st, numbers
    ensures st.Valid()
    ensures status == if no < 1 || !Playable(old(numbers[..]), bonus) then 400
                      else if fault then 500
                      else if no in old(st.rows) then 409
                      else 201
    ensures st.rows == if status == 201
                       then old(st.rows)[no := Row(Sorted(old(numbers[..])), bonus)]
                       else old(st.rows)
    ensures numbers[..] == if status == 400 then old(numbers[..]) else Sorted(old(numbers[..]))
  {
    if no < 1 {
      return BAD_REQUEST;
    }
    ghost var was := numbers[..];
    var msg := ValidateDraw(numbers[..], bonus);
    ValidatorsAgree(was, bonus);
    if msg.Some? {
      return BAD_REQUEST;
    }
    assert numbers[..7] == was;
    SortPrefix(numbers, numbers.Length);
    assert numbers[..] == numbers[..7];
    SortedTwice(was);
    ValidatedMeetsSchema(no, was, bonus);
    var o := st.Create(Draw(no, numbers[..], bonus), fault);
    if o == Duplicate {
      return CONFLICT;
    }
    if o != Done {
      return INTERNAL_ERROR;
    }
    return CREATED;
  }

  method UpdateDraw(st: Store, path: string, numbers: array<int>, bonus: int, fault: bool) returns (status: int)
    requires st.Valid()
    modifies st, numbers
    ensures st.Valid()
    ensures status == match ParseInt(path)
                      case None => 400
                      case Some(no) => if no < 1 || !Playable(old(numbers[..]), bonus) then 400
                                       else if fault then 500
                                       else if no !in old(st.rows) then 404
                                       else 200
    ensures st.rows == if status == 200
                       then old(st.rows)[ParseInt(path).value := Row(Sorted(old(numbers[..])), bonus)]
                       else old(st.rows)
    ensures numbers[..] == if status == 400 then old(numbers[..]) else Sorted(old(numbers[..]))
  {
    var no := ParseInt(path);
    if no.None? || no.value < 1 {
      return BAD_REQUEST;
    }
    ghost var was := numbers[..];
    var msg := ValidateDraw(numbers[..], bonus);
    ValidatorsAgree(was, bonus);
    if msg.Some? {
      return BAD_REQUEST;
    }
    assert numbers[..7] == was;
    SortPrefix(numbers, numbers.Length);
    assert numbers[..] == numbers[..7];
    SortedTwice(was);
    ValidatedMeetsSchema(no.value, was, bonus);
    var o := st.Update(no.value, numbers[..], bonus, fault);
    if o != Done {
      return if o == NotFound then NO_SUCH_DRAW else INTERNAL_ERROR;
    }
    return OK;
  }

  method DeleteDraw(st: Store, path: string, fault: bool) returns (status: int)
    requires st.Valid()
    modifies st
    ensures st.Valid()
    ensures status == match ParseInt(path)
                      case None => 400
                      case Some(no) => if no < 1 then 400
                                       else if fault then 500
                                       else if no !in old(st.rows) then 404
                                       else 204
    ensures st.rows == if status == 204 then old(st.rows) - {ParseInt(path).value} else old(st.rows)
  {
    var no := ParseInt(path);
    if no.None? || no.value < 1 {
      return BAD_REQUEST;
    }
    var o := st.Delete(no.value, fault);
    if o != Done {
      return if o == NotFound then NO_SUCH_DRAW else INTERNAL_ERROR;
    }
    return NO_CONTENT;
  }
}
