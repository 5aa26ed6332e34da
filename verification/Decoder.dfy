/** `encoding/json`'s streaming decoder over a text, and the extraction of tickets that drives it. */
module Decoder {
  import opened Options
  import opened Json
  import opened Answers

  /** Where the token stream stands inside the innermost open container. */
  datatype State =
    | TopValue
    | ArrayStart | ArrayValue | ArrayComma
    | ObjectStart | ObjectKey | ObjectColon | ObjectValue | ObjectComma

  datatype Token = Delim(c: char) | Text(s: string) | Other

  /** The unread text, the state, and the states of the containers around. Errors are returned as None. */
  class Decoder {
    var rest: string
    var state: State
    var stack: seq<State>

    constructor (s: string)
      ensures rest == s && state == TopValue && stack == []
    {
      rest, state, stack := s, TopValue, [];
    }

    predicate ValueAllowed()
      reads this
    {
      state == TopValue || state == ArrayStart || state == ArrayValue || state == ObjectValue
    }

    function AfterValue(): State
      reads this
    {
      match state
      case ArrayStart => ArrayComma
      case ArrayValue => ArrayComma
      case ObjectValue => ObjectComma
      case s => s
    }

    /** Skips blanks; None at the end of the text. */
    method Peek() returns (c: Option<char>)
      modifies this`rest
      ensures rest == SkipSpace(old(rest))
      ensures c == if rest == [] then None else Some(rest[0])
    {
      while rest != [] && IsSpace(rest[0])
        invariant SkipSpace(rest) == SkipSpace(old(rest))
        decreases |rest|
      {
        rest := rest[1..];
      }
      c := if rest == [] then None else Some(rest[0]);
    }

    method HasMore() returns (more: bool)
      modifies this`rest
      ensures more == Answers.More(old(rest)) && rest == SkipSpace(old(rest))
    {
      var c := Peek();
      more := c.Some? && c.value != ']' && c.value != '}';
    }

    /** `Decode`: consumes the separator the state calls for, then one whole value. */
    method DecodeValue() returns (v: Option<Json>)
      modifies this
      ensures stack == old(stack)
      ensures old(state).ArrayStart? || old(state).ArrayComma? ==>
                var r := NextItem(old(rest), old(state).ArrayStart?);
                && (r.Fail? ==> v.None?)
                && (r.Got? ==> v == Some(r.value) && rest == r.rest && state == ArrayComma)
      ensures old(state).ObjectColon? ==>
                match AfterColon(old(rest))
                case Fail => v.None?
                case Got(_, r1) =>
                  var r := ReadValue(r1, 0);
                  && (r.Fail? ==> v.None?)
                  && (r.Got? ==> v == Some(r.value) && rest == r.rest && state == ObjectComma)
      ensures old(state).TopValue? || old(state).ArrayValue? || old(state).ObjectValue? ==>
                match ReadValue(old(rest), 0)
                case Fail => v.None?
                case Got(x, r) => v == Some(x) && rest == r && state == old(AfterValue())
      ensures old(state).ObjectStart? || old(state).ObjectKey? || old(state).ObjectComma? ==> v.None?
    {
      if state == ArrayComma || state == ObjectColon {
        var c := Peek();
        if c == None || c.value != (if state == ArrayComma then ',' else ':') {
          return None;
        }
        rest := rest[1..];
        state := if state == ArrayComma then ArrayValue else ObjectValue;
      }
      if !ValueAllowed() {
        return None;
      }
      match ReadValue(rest, 0)
      case Fail =>
        return None;
      case Got(x, r) =>
        rest := r;
        state := AfterValue();
        return Some(x);
    }

    /** `Token`: one delimiter, or one value; commas and colons are passed over where the state allows. */
    method NextToken() returns (tok: Option<Token>)
      modifies this
      ensures old(state).TopValue? && StartsWith(SkipSpace(old(rest)), '{') ==>
                tok == Some(Delim('{')) && rest == SkipSpace(old(rest))[1..] && state == ObjectStart
      ensures old(state).TopValue? && !StartsWith(SkipSpace(old(rest)), '{') ==> tok != Some(Delim('{'))
      ensures (old(state).ObjectStart? || old(state).ObjectComma?) && Answers.More(old(rest)) ==>
                var r := NextName(old(rest), old(state).ObjectStart?);
                && (r.Fail? ==> tok.None?)
                && (r.Got? ==> tok == Some(Text(r.value)) && rest == r.rest && state == ObjectColon)
      ensures old(state).ObjectColon? ==>
                match AfterColon(old(rest))
                case Fail => tok.None?
                case Got(_, r1) =>
                  if StartsWith(SkipSpace(r1), '[') then
                    tok == Some(Delim('[')) && rest == SkipSpace(r1)[1..] && state == ArrayStart
                  else tok != Some(Delim('['))
    {
      ghost var rest0, state0 := rest, state;
      while true
        invariant state0.TopValue? ==> state == state0 && rest == rest0
        invariant state0.ObjectStart? ==> state == state0 && rest == rest0
        invariant state0.ObjectComma? && Answers.More(rest0) ==>
                    || (state == state0 && rest == rest0)
                    || (state == ObjectKey && StartsWith(SkipSpace(rest0), ',') && rest == SkipSpace(rest0)[1..])
        invariant state0.ObjectColon? ==>
                    || (state == state0 && rest == rest0)
                    || (state == ObjectValue && StartsWith(SkipSpace(rest0), ':') && rest == SkipSpace(rest0)[1..])
        decreases |rest|
      {
        var c := Peek();
        if c == None {
          return None;
        }
        match c.value
        case '[' =>
          if !ValueAllowed() {
            return None;
          }
          rest, stack, state := rest[1..], stack + [state], ArrayStart;
          return Some(Delim('['));
        case '{' =>
          if !ValueAllowed() {
            return None;
          }
          rest, stack, state := rest[1..], stack + [state], ObjectStart;
          return Some(Delim('{'));
        case ']' =>
          if (state != ArrayStart && state != ArrayComma) || stack == [] {
            return None;
          }
          rest, state, stack := rest[1..], stack[|stack| - 1], stack[..|stack| - 1];
          state := AfterValue();
          return Some(Delim(']'));
        case '}' =>
          if (state != ObjectStart && state != ObjectComma) || stack == [] {
            return None;
          }
          rest, state, stack := rest[1..], stack[|stack| - 1], stack[..|stack| - 1];
          state := AfterValue();
          return Some(Delim('}'));
        case ':' =>
          if state != ObjectColon {
            return None;
          }
          rest, state := rest[1..], ObjectValue;
        case ',' =>
          if state == ArrayComma {
            rest, state := rest[1..], ArrayValue;
          } else if state == ObjectComma {
            rest, state := rest[1..], ObjectKey;
          } else {
            return None;
          }
        case _ =>
          if c.value == '"' && (state == ObjectStart || state == ObjectKey) {
            match ReadString(rest[1..])
            case Fail =>
              return None;
            case Got(name, r) =>
              rest, state := r, ObjectColon;
              return Some(Text(name));
          }
          if !ValueAllowed() {
            return None;
          }
          match ReadValue(rest, 0)
          case Fail =>
            return None;
          case Got(x, r) =>
            rest := r;
            state := AfterValue();
            return Some(if x.String? then Text(x.s) else Other);
      }
    }
  }
}
