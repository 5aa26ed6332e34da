/**
 * Model answers: what the streaming decoder makes of a JSON text, written as functions of the text
 * still unread.
 */
module Answers {
  import opened Decimal
  import opened Options
  import opened Tickets
  import opened Json

  // ----- one combination -----

  datatype Combination = Combination(numbers: seq<int>, bonus: int)

  /** `encoding/json` matches field names regardless of case; U+017F and U+212A fold to S and K. */
  function FoldChar(c: char): char {
    if 'a' <= c <= 'z' then (c as int - 32) as char
    else if c == '\U{017F}' then 'S'
    else if c == '\U{212A}' then 'K'
    else c
  }

  function Fold(s: string): (r: string)
    ensures |r| == |s|
  {
    seq(|s|, i requires 0 <= i < |s| => FoldChar(s[i]))
  }

  /** An integer field that held `kept`: null leaves it alone, anything but an integer is a mismatch. */
  function DecodeInt(v: Json, kept: int): Option<int> {
    match v
    case Null => Some(kept)
    case Number(text) => ParseInt(text)
    case _ => None
  }

  function DecodeInts(items: seq<Json>): Option<seq<int>> {
    if items == [] then Some([])
    else match (DecodeInt(items[0], 0), DecodeInts(items[1..]))
         case (Some(n), Some(ns)) => Some([n] + ns)
         case _ => None
  }

  function DecodeNumbers(v: Json): Option<seq<int>> {
    match v
    case Null => Some([])
    case Array(items) => DecodeInts(items)
    case _ => None
  }

  /** The fields of a combination, later members over earlier ones, unknown ones ignored. */
  function DecodeFields(ms: seq<Member>, c: Combination): Option<Combination> {
    if ms == [] then Some(c)
    else if Fold(ms[0].name) == "NUMBERS" then
      match DecodeNumbers(ms[0].value)
      case None => None
      case Some(ns) => DecodeFields(ms[1..], c.(numbers := ns))
    else if Fold(ms[0].name) == "BONUS" then
      match DecodeInt(ms[0].value, c.bonus)
      case None => None
      case Some(b) => DecodeFields(ms[1..], c.(bonus := b))
    else DecodeFields(ms[1..], c)
  }

  /** None is a type mismatch. */
  function DecodeCombination(v: Json): Option<Combination> {
    match v
    case Null => Some(Combination([], 0))
    case Object(ms) => DecodeFields(ms, Combination([], 0))
    case _ => None
  }

  ghost function TicketIn(v: Json): Option<seq<Ticket>> {
    match DecodeCombination(v)
    case None => None
    case Some(c) => Some(match TicketOf(c.numbers, c.bonus) case None => [] case Some(t) => [t])
  }

  // ----- the combinations array and the object around it -----

  predicate More(s: string) {
    var t := SkipSpace(s);
    t != [] && t[0] != ']' && t[0] != '}'
  }

  /** The next element of an array whose first element has (not) been read. */
  function NextItem(s: string, first: bool): (r: Read<Json>)
    ensures r.Got? ==> |r.rest| < |s|
  {
    if first then ReadValue(s, 0)
    else if StartsWith(SkipSpace(s), ',') then ReadValue(SkipSpace(s)[1..], 0)
    else Fail
  }

  /** The valid tickets of the array from `s` on, up to its end, the first bad element or the end of text. */
  ghost function Elements(s: string, first: bool): seq<Ticket>
    decreases |s|
  {
    if !More(s) then [] else
      match NextItem(s, first)
      case Fail => []
      case Got(v, r) =>
        match TicketIn(v)
        case None => []
        case Some(ts) => ts + Elements(r, false)
  }

  /** The next member name of an object whose first member has (not) been read, without its colon. */
  function NextName(s: string, first: bool): (r: Read<string>)
    ensures r.Got? ==> |r.rest| < |s|
  {
    var t := SkipSpace(s);
    if first then
      if StartsWith(t, '"') then ReadString(t[1..]) else Fail
    else if StartsWith(t, ',') && StartsWith(SkipSpace(t[1..]), '"') then ReadString(SkipSpace(t[1..])[1..])
    else Fail
  }

  /** The text behind the colon, if there is one. */
  function AfterColon(s: string): (r: Read<()>)
    ensures r.Got? ==> |r.rest| < |s|
  {
    if StartsWith(SkipSpace(s), ':') then Got((), SkipSpace(s)[1..]) else Fail
  }

  /** The tickets of the first `combinations` member of the object from `s` on. */
  ghost function Fields(s: string, first: bool): seq<Ticket>
    decreases |s|
  {
    if !More(s) then [] else
      match NextName(s, first)
      case Fail => []
      case Got(name, r) =>
        match AfterColon(r)
        case Fail => []
        case Got(_, r1) =>
          if name == "combinations" then
            if StartsWith(SkipSpace(r1), '[') then Elements(SkipSpace(r1)[1..], true) else []
          else
            match ReadValue(r1, 0)
            case Fail => []
            case Got(_, r2) => Fields(r2, false)
  }

  /** What `decodeTickets` makes of a text. */
  ghost function Decoded(s: string): seq<Ticket> {
    if StartsWith(SkipSpace(s), '{') then Fields(SkipSpace(s)[1..], true) else []
  }

  // ----- only valid tickets -----

  lemma {:induction false} ElementsIssuable(s: string, first: bool)
    ensures forall t :: t in Elements(s, first) ==> Issuable(t)
    decreases |s|
  {
    if More(s) && NextItem(s, first).Got? && TicketIn(NextItem(s, first).value).Some? {
      ElementsIssuable(NextItem(s, first).rest, false);
      var c := DecodeCombination(NextItem(s, first).value).value;
      ValidatorsAgree(c.numbers, c.bonus);
    }
  }

  lemma {:induction false} FieldsIssuable(s: string, first: bool)
    ensures forall t :: t in Fields(s, first) ==> Issuable(t)
    decreases |s|
  {
    if More(s) && NextName(s, first).Got? && AfterColon(NextName(s, first).rest).Got? {
      var r := AfterColon(NextName(s, first).rest).rest;
      if NextName(s, first).value == "combinations" {
        if StartsWith(SkipSpace(r), '[') { ElementsIssuable(SkipSpace(r)[1..], true); }
      } else if ReadValue(r, 0).Got? {
        FieldsIssuable(ReadValue(r, 0).rest, false);
      }
    }
  }

  /** Whatever the text, everything decoded from it is a valid ticket in ascending order. */
  lemma DecodedIssuable(s: string)
    ensures forall t :: t in Decoded(s) ==> Issuable(t)
  {
    if StartsWith(SkipSpace(s), '{') {
      FieldsIssuable(SkipSpace(s)[1..], true);
    }
  }
}
