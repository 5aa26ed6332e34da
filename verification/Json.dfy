/** JSON values as Go's decoder reads them off the front of a text (RFC 8259, sections 2 to 7). */
module Json {
  import opened Decimal

  datatype Json =
    | Null
    | Bool(b: bool)
    | Number(text: string)
    | String(s: string)
    | Array(items: seq<Json>)
    | Object(members: seq<Member>)

  datatype Member = Member(name: string, value: Json)

  /** What is read, and the text behind it. */
  datatype Read<+T> = Fail | Got(value: T, rest: string)

  /** Containers nested deeper than this are a syntax error. */
  const MAX_DEPTH: nat := 10000

  predicate IsSpace(c: char) { c == ' ' || c == '\t' || c == '\r' || c == '\n' }

  function SkipSpace(s: string): (r: string)
    ensures |r| <= |s|
  {
    if s != [] && IsSpace(s[0]) then SkipSpace(s[1..]) else s
  }

  predicate StartsWith(s: string, c: char) { s != [] && s[0] == c }

  // ----- numbers -----

  /** Length of the integer part: one zero, or digits that do not start with zero; 0 if there is none. */
  function IntLength(s: string): (n: nat)
    ensures n <= |s|
  {
    if StartsWith(s, '0') then 1 else DigitPrefix(s)
  }

  /** Length of an optional fraction; -1 if a point has no digit behind it. */
  function FractionLength(s: string): (n: int)
    ensures -1 <= n <= |s|
  {
    if !StartsWith(s, '.') then 0
    else if DigitPrefix(s[1..]) == 0 then -1
    else 1 + DigitPrefix(s[1..])
  }

  /** Length of an optional exponent; -1 if it has no digit. */
  function ExponentLength(s: string): (n: int)
    ensures -1 <= n <= |s|
  {
    if !(StartsWith(s, 'e') || StartsWith(s, 'E')) then 0
    else
      var sign := if StartsWith(s[1..], '+') || StartsWith(s[1..], '-') then 2 else 1;
      if DigitPrefix(s[sign..]) == 0 then -1 else sign + DigitPrefix(s[sign..])
  }

  /** Length of fraction and exponent together; -1 if either is malformed. */
  function TailLength(s: string): (n: int)
    ensures -1 <= n <= |s|
  {
    var f := FractionLength(s);
    if f < 0 then -1 else
      var e := ExponentLength(s[f..]);
      if e < 0 then -1 else f + e
  }

  /** Length of a number without its sign; 0 if there is none. */
  function UnsignedLength(s: string): (n: nat)
    ensures n <= |s|
  {
    var i := IntLength(s);
    if i == 0 then 0 else
      var e := TailLength(s[i..]);
      if e < 0 then 0 else i + e
  }

  /** Length of the number at the front of `s`; 0 if there is none. */
  function NumberLength(s: string): (n: nat)
    ensures n <= |s|
  {
    if !StartsWith(s, '-') then UnsignedLength(s)
    else if UnsignedLength(s[1..]) == 0 then 0
    else 1 + UnsignedLength(s[1..])
  }

  // ----- strings -----

  predicate IsHex(c: char) { IsDigit(c) || 'a' <= c <= 'f' || 'A' <= c <= 'F' }

  function HexValue(c: char): (n: nat)
    requires IsHex(c)
    ensures n < 16
  {
    if IsDigit(c) then DigitValue(c)
    else if 'a' <= c <= 'f' then c as int - 'a' as int + 10
    else c as int - 'A' as int + 10
  }

  /** The character of four hex digits; a surrogate stands for no character and decodes to U+FFFD. */
  function HexChar(h: string): char
    requires |h| == 4 && forall i :: 0 <= i < 4 ==> IsHex(h[i])
  {
    var n := ((HexValue(h[0]) * 16 + HexValue(h[1])) * 16 + HexValue(h[2])) * 16 + HexValue(h[3]);
    if 0xD800 <= n <= 0xDFFF then '\U{FFFD}' else n as char
  }

  /** A simple escape, or None. */
  function Escaped(c: char): Read<char> {
    match c
    case '"' => Got('"', "")
    case '\\' => Got('\\', "")
    case '/' => Got('/', "")
    case 'b' => Got(8 as char, "")
    case 'f' => Got(12 as char, "")
    case 'n' => Got('\n', "")
    case 'r' => Got('\r', "")
    case 't' => Got('\t', "")
    case _ => Fail
  }

  function Prepend(c: char, r: Read<string>): Read<string> {
    match r
    case Fail => Fail
    case Got(s, rest) => Got([c] + s, rest)
  }

  /** The rest of a string whose opening quote has been read, escapes decoded. */
  function ReadString(s: string): (r: Read<string>)
    ensures r.Got? ==> |r.rest| < |s|
  {
    if s == [] || s[0] < ' ' then Fail
    else if s[0] == '"' then Got("", s[1..])
    else if s[0] != '\\' then Prepend(s[0], ReadString(s[1..]))
    else if |s| >= 6 && s[1] == 'u' && IsHex(s[2]) && IsHex(s[3]) && IsHex(s[4]) && IsHex(s[5]) then
      Prepend(HexChar(s[2..6]), ReadString(s[6..]))
    else if |s| >= 2 && Escaped(s[1]).Got? then Prepend(Escaped(s[1]).value, ReadString(s[2..]))
    else Fail
  }

  // ----- values -----

  function ReadWord(s: string, word: string, v: Json): (r: Read<Json>)
    ensures r.Got? ==> |r.rest| == |s| - |word|
  {
    if word <= s then Got(v, s[|word|..]) else Fail
  }

  function ReadLiteral(t: string): (r: Read<Json>)
    ensures r.Got? ==> |r.rest| < |t|
    ensures r.Got? ==> !r.value.Number?
  {
    if StartsWith(t, 't') then ReadWord(t, "true", Bool(true))
    else if StartsWith(t, 'f') then ReadWord(t, "false", Bool(false))
    else if StartsWith(t, 'n') then ReadWord(t, "null", Null)
    else Fail
  }

  /** A string, a number or a word. */
  function ReadScalar(t: string): (r: Read<Json>)
    ensures r.Got? ==> |r.rest| < |t|
  {
    if t == [] then Fail
    else if t[0] == '"' then
      match ReadString(t[1..]) case Fail => Fail case Got(x, r) => Got(String(x), r)
    else if t[0] == '-' || IsDigit(t[0]) then
      if NumberLength(t) > 0 then Got(Number(t[..NumberLength(t)]), t[NumberLength(t)..]) else Fail
    else ReadLiteral(t)
  }

  /** One value at the front of `s`, blanks before it skipped, inside `depth` open containers. */
  function ReadValue(s: string, depth: nat): (r: Read<Json>)
    ensures r.Got? ==> |r.rest| < |s|
    decreases |s|, 1
  {
    var t := SkipSpace(s);
    if StartsWith(t, '{') then
      if depth >= MAX_DEPTH then Fail else ReadObject(t[1..], depth + 1)
    else if StartsWith(t, '[') then
      if depth >= MAX_DEPTH then Fail else ReadArray(t[1..], depth + 1)
    else ReadScalar(t)
  }

  /** An object whose opening brace has been read. */
  function ReadObject(s: string, depth: nat): (r: Read<Json>)
    ensures r.Got? ==> |r.rest| < |s|
    decreases |s|, 3
  {
    if StartsWith(SkipSpace(s), '}') then Got(Object([]), SkipSpace(s)[1..])
    else match ReadMembers(s, depth) case Fail => Fail case Got(ms, r) => Got(Object(ms), r)
  }

  /** An array whose opening bracket has been read. */
  function ReadArray(s: string, depth: nat): (r: Read<Json>)
    ensures r.Got? ==> |r.rest| < |s|
    decreases |s|, 3
  {
    if StartsWith(SkipSpace(s), ']') then Got(Array([]), SkipSpace(s)[1..])
    else match ReadItems(s, depth) case Fail => Fail case Got(vs, r) => Got(Array(vs), r)
  }

  /** The items of a non-empty array up to its closing bracket. */
  function ReadItems(s: string, depth: nat): (r: Read<seq<Json>>)
    ensures r.Got? ==> |r.rest| < |s|
    decreases |s|, 2
  {
    match ReadValue(s, depth)
    case Fail => Fail
    case Got(v, r) =>
      var t := SkipSpace(r);
      if StartsWith(t, ']') then Got([v], t[1..])
      else if !StartsWith(t, ',') then Fail
      else match ReadItems(t[1..], depth) case Fail => Fail case Got(vs, r') => Got([v] + vs, r')
  }

  /** A quoted name and the colon behind it. */
  function ReadName(s: string): (r: Read<string>)
    ensures r.Got? ==> |r.rest| < |s|
  {
    var t := SkipSpace(s);
    if !StartsWith(t, '"') then Fail else
      match ReadString(t[1..])
      case Fail => Fail
      case Got(name, r) =>
        var u := SkipSpace(r);
        if StartsWith(u, ':') then Got(name, u[1..]) else Fail
  }

  function ReadMember(s: string, depth: nat): (r: Read<Member>)
    ensures r.Got? ==> |r.rest| < |s|
    decreases |s|, 1
  {
    match ReadName(s)
    case Fail => Fail
    case Got(name, r) =>
      match ReadValue(r, depth) case Fail => Fail case Got(v, r1) => Got(Member(name, v), r1)
  }

  /** The members of a non-empty object up to its closing brace. */
  function ReadMembers(s: string, depth: nat): (r: Read<seq<Member>>)
    ensures r.Got? ==> |r.rest| < |s|
    decreases |s|, 2
  {
    match ReadMember(s, depth)
    case Fail => Fail
    case Got(m, r) =>
      var t := SkipSpace(r);
      if StartsWith(t, '}') then Got([m], t[1..])
      else if !StartsWith(t, ',') then Fail
      else match ReadMembers(t[1..], depth) case Fail => Fail case Got(ms, r') => Got([m] + ms, r')
  }

  // ----- reading depends only on the text read -----

  lemma {:induction false} SkipSpaceExtends(s: string, x: string)
    ensures SkipSpace(s) != [] ==> SkipSpace(s + x) == SkipSpace(s) + x
    ensures SkipSpace(s) == [] ==> SkipSpace(s + x) == SkipSpace(x)
  {
    if s == [] {
      assert s + x == x;
    } else if IsSpace(s[0]) {
      SkipSpaceExtends(s[1..], x);
      assert (s + x)[1..] == s[1..] + x;
    }
  }

  lemma {:induction false} DigitPrefixExtends(s: string, x: string)
    requires DigitPrefix(s) < |s|
    ensures DigitPrefix(s + x) == DigitPrefix(s)
  {
    if IsDigit(s[0]) {
      DigitPrefixExtends(s[1..], x);
      assert (s + x)[1..] == s[1..] + x;
    }
  }

  lemma FractionExtends(s: string, x: string)
    requires 0 <= FractionLength(s) < |s|
    ensures FractionLength(s + x) == FractionLength(s)
  {
    if StartsWith(s, '.') {
      DigitPrefixExtends(s[1..], x);
      assert (s + x)[1..] == s[1..] + x;
    }
  }

  lemma ExponentExtends(s: string, x: string)
    requires 0 <= ExponentLength(s) < |s|
    ensures ExponentLength(s + x) == ExponentLength(s)
  {
    if StartsWith(s, 'e') || StartsWith(s, 'E') {
      assert (s + x)[1..] == s[1..] + x;
      var sign := if StartsWith(s[1..], '+') || StartsWith(s[1..], '-') then 2 else 1;
      DigitPrefixExtends(s[sign..], x);
      assert (s + x)[sign..] == s[sign..] + x;
    }
  }

  lemma TailExtends(s: string, x: string)
    requires 0 <= TailLength(s) < |s|
    ensures TailLength(s + x) == TailLength(s)
  {
    var f := FractionLength(s);
    FractionExtends(s, x);
    assert (s + x)[f..] == s[f..] + x;
    ExponentExtends(s[f..], x);
  }

  lemma UnsignedExtends(s: string, x: string)
    requires 0 < UnsignedLength(s) < |s|
    ensures UnsignedLength(s + x) == UnsignedLength(s)
  {
    if !StartsWith(s, '0') {
      DigitPrefixExtends(s, x);
    }
    var i := IntLength(s);
    assert (s + x)[i..] == s[i..] + x;
    TailExtends(s[i..], x);
  }

  /** A number that ends before the text does is the same number in any longer text. */
  lemma NumberExtends(s: string, x: string)
    requires 0 < NumberLength(s) < |s|
    ensures NumberLength(s + x) == NumberLength(s)
  {
    if StartsWith(s, '-') {
      assert (s + x)[1..] == s[1..] + x;
      UnsignedExtends(s[1..], x);
    } else {
      UnsignedExtends(s, x);
    }
  }

  lemma {:induction false} StringExtends(s: string, x: string)
    requires ReadString(s).Got?
    ensures ReadString(s + x) == Got(ReadString(s).value, ReadString(s).rest + x)
    decreases |s|
  {
    if s[0] == '"' {
      assert (s + x)[1..] == s[1..] + x;
    } else if s[0] != '\\' {
      assert (s + x)[1..] == s[1..] + x;
      StringExtends(s[1..], x);
    } else if |s| >= 6 && s[1] == 'u' && IsHex(s[2]) && IsHex(s[3]) && IsHex(s[4]) && IsHex(s[5]) {
      assert (s + x)[6..] == s[6..] + x && (s + x)[2..6] == s[2..6];
      StringExtends(s[6..], x);
    } else {
      assert (s + x)[2..] == s[2..] + x;
      StringExtends(s[2..], x);
    }
  }

  lemma NameExtends(s: string, x: string)
    requires ReadName(s).Got?
    ensures ReadName(s + x) == Got(ReadName(s).value, ReadName(s).rest + x)
  {
    SkipSpaceExtends(s, x);
    var t := SkipSpace(s);
    assert (t + x)[1..] == t[1..] + x;
    StringExtends(t[1..], x);
    var r := ReadString(t[1..]).rest;
    SkipSpaceExtends(r, x);
    assert (SkipSpace(r) + x)[1..] == SkipSpace(r)[1..] + x;
  }

  /** Readings that stop inside the text stay what they are. */
  ghost predicate Extends<T>(r: Read<T>, q: Read<T>, x: string) {
    r.Got? ==> q == Got(r.value, r.rest + x)
  }

  lemma WordExtends(t: string, word: string, v: Json, x: string)
    ensures Extends(ReadWord(t, word, v), ReadWord(t + x, word, v), x)
  {
    if word <= t {
      assert (t + x)[..|word|] == t[..|word|] && (t + x)[|word|..] == t[|word|..] + x;
    }
  }

  lemma SplitConcat(t: string, x: string, n: nat)
    requires n <= |t|
    ensures (t + x)[..n] == t[..n] && (t + x)[n..] == t[n..] + x
  {
  }

  lemma LiteralExtends(t: string, x: string)
    ensures Extends(ReadLiteral(t), ReadLiteral(t + x), x)
  {
    WordExtends(t, "true", Bool(true), x);
    WordExtends(t, "false", Bool(false), x);
    WordExtends(t, "null", Null, x);
    assert t != [] ==> (t + x)[0] == t[0];
  }

  lemma ScalarExtends(t: string, x: string)
    requires t != []
    requires ReadScalar(t).Got? && ReadScalar(t).value.Number? ==> ReadScalar(t).rest != []
    ensures Extends(ReadScalar(t), ReadScalar(t + x), x)
  {
    if ReadScalar(t).Got? {
      assert (t + x)[0] == t[0];
      if t[0] == '"' {
        assert (t + x)[1..] == t[1..] + x;
        StringExtends(t[1..], x);
      } else if t[0] == '-' || IsDigit(t[0]) {
        NumberExtends(t, x);
        SplitConcat(t, x, NumberLength(t));
      } else {
        LiteralExtends(t, x);
      }
    }
  }

  /**
   * A value whose end does not depend on what follows (anything but a number at the very end of the
   * text) is read the same off any longer text.
   */
  lemma {:induction false} ValueExtends(s: string, depth: nat, x: string)
    requires ReadValue(s, depth).Got? && ReadValue(s, depth).value.Number? ==> ReadValue(s, depth).rest != []
    ensures Extends(ReadValue(s, depth), ReadValue(s + x, depth), x)
    decreases |s|, 1
  {
    if ReadValue(s, depth).Got? {
      SkipSpaceExtends(s, x);
      var t := SkipSpace(s);
      assert t != [];
      assert (t + x)[0] == t[0] && (t + x)[1..] == t[1..] + x;
      if t[0] == '{' {
        ObjectExtends(t[1..], depth + 1, x);
      } else if t[0] == '[' {
        ArrayExtends(t[1..], depth + 1, x);
      } else {
        ScalarExtends(t, x);
      }
    }
  }

  lemma ClosingExtends(s: string, c: char, x: string)
    requires SkipSpace(s) != []
    ensures StartsWith(SkipSpace(s), c) <==> StartsWith(SkipSpace(s + x), c)
    ensures SkipSpace(s + x) != [] && SkipSpace(s + x)[1..] == SkipSpace(s)[1..] + x
  {
    SkipSpaceExtends(s, x);
  }

  lemma {:induction false} ObjectExtends(s: string, depth: nat, x: string)
    ensures Extends(ReadObject(s, depth), ReadObject(s + x, depth), x)
    decreases |s|, 3
  {
    if ReadObject(s, depth).Got? {
      MembersExtend(s, depth, x);
      ClosingExtends(s, '}', x);
    }
  }

  lemma {:induction false} ArrayExtends(s: string, depth: nat, x: string)
    ensures Extends(ReadArray(s, depth), ReadArray(s + x, depth), x)
    decreases |s|, 3
  {
    if ReadArray(s, depth).Got? {
      ItemsExtend(s, depth, x);
      ClosingExtends(s, ']', x);
    }
  }

  lemma {:induction false} ItemsExtend(s: string, depth: nat, x: string)
    ensures Extends(ReadItems(s, depth), ReadItems(s + x, depth), x)
    ensures ReadItems(s, depth).Got? ==> SkipSpace(s) != []
    decreases |s|, 2
  {
    if ReadItems(s, depth).Got? {
      var r := ReadValue(s, depth).rest;
      ValueExtends(s, depth, x);
      ClosingExtends(r, ']', x);
      ClosingExtends(r, ',', x);
      if !StartsWith(SkipSpace(r), ']') {
        ItemsExtend(SkipSpace(r)[1..], depth, x);
      }
    }
  }

  lemma {:induction false} MemberExtends(s: string, depth: nat, x: string)
    requires ReadMember(s, depth).Got? && ReadMember(s, depth).value.value.Number? ==> ReadMember(s, depth).rest != []
    ensures Extends(ReadMember(s, depth), ReadMember(s + x, depth), x)
    ensures ReadMember(s, depth).Got? ==> SkipSpace(s) != []
    decreases |s|, 1
  {
    if ReadMember(s, depth).Got? {
      NameExtends(s, x);
      ValueExtends(ReadName(s).rest, depth, x);
    }
  }

  lemma {:induction false} MembersExtend(s: string, depth: nat, x: string)
    ensures Extends(ReadMembers(s, depth), ReadMembers(s + x, depth), x)
    ensures ReadMembers(s, depth).Got? ==> SkipSpace(s) != []
    decreases |s|, 2
  {
    if ReadMembers(s, depth).Got? {
      var r := ReadMember(s, depth).rest;
      MemberExtends(s, depth, x);
      ClosingExtends(r, '}', x);
      ClosingExtends(r, ',', x);
      if !StartsWith(SkipSpace(r), '}') {
        MembersExtend(SkipSpace(r)[1..], depth, x);
      }
    }
  }
}
