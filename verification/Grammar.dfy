/**
 * The JSON texts of RFC 8259 (sections 2 to 7), written from their parts, and the reader measured against them:
 * it reads every one of them as what it means, and nothing else.
 */
module Grammar {
  import opened Decimal
  import opened Json

  // ----- the parts of a text -----

  /** A character of a string: itself, behind a backslash, or by the four hex digits of its code. */
  datatype Letter = Plain(c: char) | Short(c: char) | Coded(h: string)

  /** A value with its layout; `blank` stands alone between the brackets of an empty container. */
  datatype Tree =
    | NullWord | TrueWord | FalseWord
    | Numeral(sign: string, whole: string, fraction: string, exponent: string)
    | Quoted(letters: seq<Letter>)
    | List(items: seq<Item>, blank: string)
    | Record(fields: seq<Field>, blank: string)

  /** An element and the white space around it. */
  datatype Item = Item(before: string, value: Tree, after: string)

  /** A member: its name with white space around, and its value with white space around. */
  datatype Field = Field(before: string, name: seq<Letter>, colon: string, gap: string, value: Tree, after: string)

  predicate White(s: string) { forall i :: 0 <= i < |s| ==> s[i] in " \t\n\r" }

  predicate Figures(s: string) { s != "" && forall i :: 0 <= i < |s| ==> '0' <= s[i] <= '9' }

  predicate HexFigure(c: char) { '0' <= c <= '9' || 'a' <= c <= 'f' || 'A' <= c <= 'F' }

  predicate ValidLetter(l: Letter) {
    match l
    case Plain(c) => c as int >= 0x20 && c != '"' && c != '\\'
    case Short(c) => c in "\"\\/bfnrt"
    case Coded(h) => |h| == 4 && forall i :: 0 <= i < 4 ==> HexFigure(h[i])
  }

  predicate ValidLetters(ls: seq<Letter>) { forall i :: 0 <= i < |ls| ==> ValidLetter(ls[i]) }

  /** `[-]int[frac][exp]`. */
  predicate ValidNumeral(sign: string, whole: string, fraction: string, exponent: string) {
    && (sign == "" || sign == "-")
    && Figures(whole) && (whole[0] == '0' ==> whole == "0")
    && (fraction == "" || (fraction[0] == '.' && Figures(fraction[1..])))
    && (exponent == "" || (exponent[0] in "eE"
        && (Figures(exponent[1..]) || (|exponent| > 1 && exponent[1] in "+-" && Figures(exponent[2..])))))
  }

  predicate Valid(t: Tree)
    decreases t
  {
    match t
    case NullWord => true
    case TrueWord => true
    case FalseWord => true
    case Numeral(sign, whole, fraction, exponent) => ValidNumeral(sign, whole, fraction, exponent)
    case Quoted(letters) => ValidLetters(letters)
    case List(items, blank) => White(blank) && ValidItems(items)
    case Record(fields, blank) => White(blank) && ValidFields(fields)
  }

  predicate ValidItems(items: seq<Item>)
    decreases items
  {
    items == []
    || (White(items[0].before) && Valid(items[0].value) && White(items[0].after) && ValidItems(items[1..]))
  }

  predicate ValidFields(fields: seq<Field>)
    decreases fields
  {
    fields == []
    || (White(fields[0].before) && ValidLetters(fields[0].name) && White(fields[0].colon) && White(fields[0].gap)
        && Valid(fields[0].value) && White(fields[0].after) && ValidFields(fields[1..]))
  }

  // ----- how deep it goes -----

  function Max(a: nat, b: nat): nat { if a < b then b else a }

  /** How many containers are open at once. */
  function Depth(t: Tree): nat
    decreases t
  {
    match t
    case List(items, _) => 1 + ItemsDepth(items)
    case Record(fields, _) => 1 + FieldsDepth(fields)
    case _ => 0
  }

  function ItemsDepth(items: seq<Item>): nat
    decreases items
  {
    if items == [] then 0 else Max(Depth(items[0].value), ItemsDepth(items[1..]))
  }

  function FieldsDepth(fields: seq<Field>): nat
    decreases fields
  {
    if fields == [] then 0 else Max(Depth(fields[0].value), FieldsDepth(fields[1..]))
  }

  // ----- the text, then `z` -----

  function LetterText(l: Letter, z: string): string {
    match l
    case Plain(c) => [c] + z
    case Short(c) => ['\\', c] + z
    case Coded(h) => ['\\', 'u'] + (h + z)
  }

  function LettersText(ls: seq<Letter>, z: string): string {
    if ls == [] then "\"" + z else LetterText(ls[0], LettersText(ls[1..], z))
  }

  function Text(t: Tree, z: string): string
    decreases t
  {
    match t
    case NullWord => "null" + z
    case TrueWord => "true" + z
    case FalseWord => "false" + z
    case Numeral(sign, whole, fraction, exponent) => sign + (whole + (fraction + (exponent + z)))
    case Quoted(letters) => "\"" + LettersText(letters, z)
    case List(items, blank) => "[" + if items == [] then blank + ("]" + z) else ItemsText(items, z)
    case Record(fields, blank) => "{" + if fields == [] then blank + ("}" + z) else FieldsText(fields, z)
  }

  function ItemText(i: Item, z: string): string
    decreases i
  {
    i.before + Text(i.value, i.after + z)
  }

  function ItemsText(items: seq<Item>, z: string): string
    requires items != []
    decreases items
  {
    ItemText(items[0], if |items| == 1 then "]" + z else "," + ItemsText(items[1..], z))
  }

  function FieldText(f: Field, z: string): string
    decreases f
  {
    f.before + ("\"" + LettersText(f.name, f.colon + (":" + (f.gap + Text(f.value, f.after + z)))))
  }

  function FieldsText(fields: seq<Field>, z: string): string
    requires fields != []
    decreases fields
  {
    FieldText(fields[0], if |fields| == 1 then "}" + z else "," + FieldsText(fields[1..], z))
  }

  // ----- what it means -----

  function HexDigit(c: char): (n: nat)
    requires HexFigure(c)
    ensures n < 16
  {
    if c <= '9' then c as int - 0x30 else if c <= 'F' then c as int - 0x41 + 10 else c as int - 0x61 + 10
  }

  /** A code that is half of a surrogate pair stands for U+FFFD. */
  function CharOfCode(n: nat): char
    requires n < 0x10000
  {
    if 0xD800 <= n < 0xE000 then '\U{FFFD}' else n as char
  }

  /** What a letter stands for. */
  function LetterMeans(l: Letter): char
    requires ValidLetter(l)
  {
    match l
    case Plain(c) => c
    case Short(c) =>
      if c == 'b' then 0x08 as char
      else if c == 'f' then 0x0C as char
      else if c == 'n' then 0x0A as char
      else if c == 'r' then 0x0D as char
      else if c == 't' then 0x09 as char
      else c
    case Coded(h) =>
      CharOfCode(4096 * HexDigit(h[0]) + 256 * HexDigit(h[1]) + 16 * HexDigit(h[2]) + HexDigit(h[3]))
  }

  function LettersMean(ls: seq<Letter>): (s: string)
    requires ValidLetters(ls)
    ensures |s| == |ls| && forall i :: 0 <= i < |s| ==> s[i] == LetterMeans(ls[i])
  {
    seq(|ls|, i requires 0 <= i < |ls| => LetterMeans(ls[i]))
  }

  function Means(t: Tree): Json
    requires Valid(t)
    decreases t
  {
    match t
    case NullWord => Null
    case TrueWord => Bool(true)
    case FalseWord => Bool(false)
    case Numeral(sign, whole, fraction, exponent) => Number(sign + (whole + (fraction + exponent)))
    case Quoted(letters) => String(LettersMean(letters))
    case List(items, _) => Array(ItemsMean(items))
    case Record(fields, _) => Object(FieldsMean(fields))
  }

  function ItemsMean(items: seq<Item>): seq<Json>
    requires ValidItems(items)
    decreases items
  {
    if items == [] then [] else [Means(items[0].value)] + ItemsMean(items[1..])
  }

  function FieldsMean(fields: seq<Field>): seq<Member>
    requires ValidFields(fields)
    decreases fields
  {
    if fields == [] then []
    else [Member(LettersMean(fields[0].name), Means(fields[0].value))] + FieldsMean(fields[1..])
  }

  // ----- every such text is read -----

  lemma {:induction false} SkipWhite(b: string, s: string)
    requires White(b)
    ensures SkipSpace(b + s) == SkipSpace(s)
  {
    if b == "" {
      assert b + s == s;
    } else {
      assert (b + s)[0] == b[0] && (b + s)[1..] == b[1..] + s;
      SkipWhite(b[1..], s);
    }
  }

  lemma HexAgrees(c: char)
    ensures HexFigure(c) <==> IsHex(c)
    ensures IsHex(c) ==> HexDigit(c) == HexValue(c)
  {
  }

  lemma ShortAgrees(c: char)
    ensures c in "\"\\/bfnrt" <==> Escaped(c).Got?
    ensures Escaped(c).Got? ==> Escaped(c).value == LetterMeans(Short(c)) && c != 'u'
  {
    if Escaped(c).Got? {
      var all := "\"\\/bfnrt";
      assert c == all[0] || c == all[1] || c == all[2] || c == all[3]
             || c == all[4] || c == all[5] || c == all[6] || c == all[7];
    }
  }

  lemma ReadShort(c: char, rest: string)
    requires c in "\"\\/bfnrt"
    ensures ReadString(['\\', c] + rest) == Prepend(LetterMeans(Short(c)), ReadString(rest))
  {
    ShortAgrees(c);
    var s := ['\\', c] + rest;
    assert s[0] == '\\' && s[1] == c && s[2..] == rest;
  }

  lemma ReadCoded(h: string, rest: string)
    requires ValidLetter(Coded(h))
    ensures ReadString(['\\', 'u'] + (h + rest)) == Prepend(LetterMeans(Coded(h)), ReadString(rest))
  {
    var s := ['\\', 'u'] + (h + rest);
    assert s[0] == '\\' && s[1] == 'u' && s[2] == h[0] && s[3] == h[1] && s[4] == h[2] && s[5] == h[3];
    assert s[2..6] == h && s[6..] == rest;
    HexCode(h);
  }

  lemma HexCode(h: string)
    requires ValidLetter(Coded(h))
    ensures (forall i :: 0 <= i < 4 ==> IsHex(h[i])) && HexChar(h) == LetterMeans(Coded(h))
  {
    HexAgrees(h[0]);
    HexAgrees(h[1]);
    HexAgrees(h[2]);
    HexAgrees(h[3]);
    var a, b, c, d := HexValue(h[0]), HexValue(h[1]), HexValue(h[2]), HexValue(h[3]);
    Horner(a, b, c, d);
    assert HexChar(h) == CharOfCode(((a * 16 + b) * 16 + c) * 16 + d);
    assert LetterMeans(Coded(h)) == CharOfCode(4096 * a + 256 * b + 16 * c + d);
  }

  lemma Horner(a: nat, b: nat, c: nat, d: nat)
    requires a < 16 && b < 16 && c < 16 && d < 16
    ensures var n := ((a * 16 + b) * 16 + c) * 16 + d;
            && n < 0x10000 && n == 4096 * a + 256 * b + 16 * c + d
            && CharOfCode(n) == if 0xD800 <= n <= 0xDFFF then '\U{FFFD}' else n as char
  {
  }

  lemma ReadLetter(l: Letter, rest: string)
    requires ValidLetter(l)
    ensures ReadString(LetterText(l, rest)) == Prepend(LetterMeans(l), ReadString(rest))
  {
    match l
    case Plain(c) => assert ([c] + rest)[1..] == rest;
    case Short(c) => ReadShort(c, rest);
    case Coded(h) => ReadCoded(h, rest);
  }

  lemma LettersMeanStep(ls: seq<Letter>)
    requires ls != [] && ValidLetters(ls)
    ensures LettersMean(ls) == [LetterMeans(ls[0])] + LettersMean(ls[1..])
  {
  }

  lemma {:induction false} ReadLetters(ls: seq<Letter>, z: string)
    requires ValidLetters(ls)
    ensures ReadString(LettersText(ls, z)) == Got(LettersMean(ls), z)
  {
    if ls == [] {
      assert ("\"" + z)[1..] == z;
      assert LettersMean(ls) == "";
    } else {
      ReadLetters(ls[1..], z);
      ReadLetter(ls[0], LettersText(ls[1..], z));
      LettersMeanStep(ls);
    }
  }

  lemma FiguresAreDigits(s: string)
    ensures Figures(s) <==> s != "" && AllDigits(s)
  {
  }

  /** What may follow a numeral without being read as a part of it. */
  predicate EndsNumeral(z: string) { z == "" || !('0' <= z[0] <= '9' || z[0] in ".eE") }

  lemma ReadExponent(exponent: string, z: string)
    requires exponent == "" || (exponent[0] in "eE"
             && (Figures(exponent[1..]) || (|exponent| > 1 && exponent[1] in "+-" && Figures(exponent[2..]))))
    requires EndsNumeral(z)
    ensures ExponentLength(exponent + z) == |exponent|
  {
    var s := exponent + z;
    if exponent == "" {
      assert s == z;
    } else {
      var sign := if exponent[1] in "+-" then 2 else 1;
      assert s[sign..] == exponent[sign..] + z && s[1..] == exponent[1..] + z;
      FiguresAreDigits(exponent[sign..]);
      DigitPrefixOf(exponent[sign..], z);
    }
  }

  lemma ReadFraction(fraction: string, z: string)
    requires fraction == "" || (fraction[0] == '.' && Figures(fraction[1..]))
    requires z == "" || !('0' <= z[0] <= '9' || z[0] == '.')
    ensures FractionLength(fraction + z) == |fraction|
  {
    var s := fraction + z;
    if fraction == "" {
      assert s == z;
    } else {
      assert s[1..] == fraction[1..] + z;
      FiguresAreDigits(fraction[1..]);
      DigitPrefixOf(fraction[1..], z);
    }
  }

  lemma ReadTail(fraction: string, exponent: string, z: string)
    requires ValidNumeral("", "0", fraction, exponent) && EndsNumeral(z)
    ensures TailLength(fraction + (exponent + z)) == |fraction| + |exponent|
  {
    ReadExponent(exponent, z);
    assert exponent != "" ==> (exponent + z)[0] == exponent[0];
    ReadFraction(fraction, exponent + z);
    assert (fraction + (exponent + z))[|fraction|..] == exponent + z;
  }

  lemma ReadUnsigned(whole: string, fraction: string, exponent: string, z: string)
    requires ValidNumeral("", whole, fraction, exponent) && EndsNumeral(z)
    ensures UnsignedLength(whole + (fraction + (exponent + z))) == |whole| + |fraction| + |exponent|
  {
    var u := fraction + (exponent + z);
    ReadTail(fraction, exponent, z);
    FiguresAreDigits(whole);
    assert fraction != "" ==> u[0] == fraction[0];
    assert fraction == "" ==> u == exponent + z && (exponent != "" ==> u[0] == exponent[0]);
    DigitPrefixOf(whole, u);
    assert (whole + u)[0] == whole[0] && (whole + u)[|whole|..] == u;
  }

  lemma SignedLength(sign: string, u: string)
    requires (sign == "" || sign == "-") && u != "" && u[0] != '-' && UnsignedLength(u) > 0
    ensures var s := sign + u;
            NumberLength(s) == |sign| + UnsignedLength(u) && s[0] == if sign == "" then u[0] else '-'
  {
    if sign == "" {
      assert "" + u == u;
    } else {
      assert ("-" + u)[1..] == u;
    }
  }

  lemma ReadNumeral(sign: string, whole: string, fraction: string, exponent: string, z: string)
    requires ValidNumeral(sign, whole, fraction, exponent) && EndsNumeral(z)
    ensures var s := sign + (whole + (fraction + (exponent + z)));
            && NumberLength(s) == |sign| + |whole| + |fraction| + |exponent|
            && s[0] == if sign == "" then whole[0] else '-'
  {
    var u := whole + (fraction + (exponent + z));
    ReadUnsigned(whole, fraction, exponent, z);
    assert u[0] == whole[0] && '0' <= whole[0] <= '9';
    SignedLength(sign, u);
  }

  lemma TakeNumeral(sign: string, whole: string, fraction: string, exponent: string, z: string)
    ensures sign + (whole + (fraction + (exponent + z))) == (sign + (whole + (fraction + exponent))) + z
  {
  }

  lemma SameSkipped(s: string, u: string, depth: nat)
    requires SkipSpace(s) == SkipSpace(u)
    ensures ReadValue(s, depth) == ReadValue(u, depth)
  {
  }

  lemma ReadSolid(s: string, depth: nat)
    requires s != "" && !IsSpace(s[0]) && s[0] != '{' && s[0] != '['
    ensures ReadValue(s, depth) == ReadScalar(s)
  {
  }

  lemma ReadsWord(word: string, v: Json, z: string, depth: nat)
    requires || (word == "null" && v == Null) || (word == "true" && v == Bool(true))
             || (word == "false" && v == Bool(false))
    ensures ReadValue(word + z, depth) == Got(v, z)
  {
    var s := word + z;
    assert word[0] == s[0] && s[|word|..] == z && word <= s;
    ReadSolid(s, depth);
  }

  lemma ScalarNumeral(s: string, text: string, z: string)
    requires s == text + z && text != "" && NumberLength(s) == |text|
    requires s[0] == '-' || '0' <= s[0] <= '9'
    ensures ReadScalar(s) == Got(Number(text), z)
  {
    assert s[..|text|] == text && s[|text|..] == z;
  }

  lemma ReadsNumeral(t: Tree, z: string, depth: nat)
    requires t.Numeral? && Valid(t) && EndsNumeral(z)
    ensures ReadValue(Text(t, z), depth) == Got(Means(t), z)
  {
    var text := t.sign + (t.whole + (t.fraction + t.exponent));
    ReadNumeral(t.sign, t.whole, t.fraction, t.exponent, z);
    TakeNumeral(t.sign, t.whole, t.fraction, t.exponent, z);
    ScalarNumeral(Text(t, z), text, z);
    ReadSolid(Text(t, z), depth);
  }

  lemma ReadsQuoted(t: Tree, z: string, depth: nat)
    requires t.Quoted? && Valid(t)
    ensures ReadValue(Text(t, z), depth) == Got(Means(t), z)
  {
    var s := Text(t, z);
    assert s[1..] == LettersText(t.letters, z);
    ReadLetters(t.letters, z);
    ReadSolid(s, depth);
  }

  lemma NoCloser(s: string, depth: nat)
    requires ReadValue(s, depth).Got?
    ensures !StartsWith(SkipSpace(s), ']') && !StartsWith(SkipSpace(s), '}')
  {
  }

  lemma SkipBlank(b: string, c: char, z: string)
    requires White(b) && c in "[]{},:\""
    ensures SkipSpace(b + ([c] + z)) == [c] + z && ([c] + z)[1..] == z
    ensures EndsNumeral(b + ([c] + z))
  {
    SkipWhite(b, [c] + z);
    assert b != "" ==> (b + ([c] + z))[0] == b[0];
    assert b == "" ==> b + ([c] + z) == [c] + z;
  }

  lemma ReadsContainer(c: char, s: string, depth: nat)
    requires c == '[' || c == '{'
    requires depth < 10000
    ensures ReadValue([c] + s, depth) == if c == '{' then ReadObject(s, depth + 1) else ReadArray(s, depth + 1)
  {
    assert ([c] + s)[1..] == s;
  }

  /** Every well-formed text is read as what it means, and the reading stops right behind it. */
  lemma {:induction false} ReadsTree(t: Tree, z: string, depth: nat)
    requires Valid(t) && depth + Depth(t) <= 10000 && (t.Numeral? ==> EndsNumeral(z))
    ensures ReadValue(Text(t, z), depth) == Got(Means(t), z)
    decreases t, 0
  {
    match t
    case NullWord => ReadsWord("null", Null, z, depth);
    case TrueWord => ReadsWord("true", Bool(true), z, depth);
    case FalseWord => ReadsWord("false", Bool(false), z, depth);
    case Numeral(_, _, _, _) => ReadsNumeral(t, z, depth);
    case Quoted(_) => ReadsQuoted(t, z, depth);
    case List(items, blank) =>
      if items == [] {
        ReadsContainer('[', blank + ("]" + z), depth);
        SkipBlank(blank, ']', z);
      } else {
        ReadsContainer('[', ItemsText(items, z), depth);
        ReadsItems(items, z, depth + 1);
        NoCloser(ItemsText(items, z), depth + 1);
      }
    case Record(fields, blank) =>
      if fields == [] {
        ReadsContainer('{', blank + ("}" + z), depth);
        SkipBlank(blank, '}', z);
      } else {
        ReadsContainer('{', FieldsText(fields, z), depth);
        ReadsFields(fields, z, depth + 1);
        NameComesFirst(fields, z);
      }
  }

  lemma NameComesFirst(fields: seq<Field>, z: string)
    requires fields != [] && ValidFields(fields)
    ensures !StartsWith(SkipSpace(FieldsText(fields, z)), '}')
  {
    var f := fields[0];
    var tail := if |fields| == 1 then "}" + z else "," + FieldsText(fields[1..], z);
    SkipBlank(f.before, '"', LettersText(f.name, f.colon + (":" + (f.gap + Text(f.value, f.after + tail)))));
  }

  lemma ReadOneItem(i: Item, tail: string, c: char, more: string, depth: nat)
    requires White(i.before) && White(i.after) && Valid(i.value) && c in ",]" && tail == [c] + more
    requires ReadValue(Text(i.value, i.after + tail), depth) == Got(Means(i.value), i.after + tail)
    ensures ReadItems(ItemText(i, tail), depth) ==
            if c == ']' then Got([Means(i.value)], more)
            else match ReadItems(more, depth) case Fail => Fail case Got(vs, r) => Got([Means(i.value)] + vs, r)
  {
    SkipWhite(i.before, Text(i.value, i.after + tail));
    SameSkipped(ItemText(i, tail), Text(i.value, i.after + tail), depth);
    SkipBlank(i.after, c, more);
  }

  lemma {:induction false} ReadsItems(items: seq<Item>, z: string, depth: nat)
    requires items != [] && ValidItems(items) && depth + ItemsDepth(items) <= 10000
    ensures ReadItems(ItemsText(items, z), depth) == Got(ItemsMean(items), z)
    decreases items, 0
  {
    var i := items[0];
    if |items| == 1 {
      SkipBlank(i.after, ']', z);
      ReadsTree(i.value, i.after + ("]" + z), depth);
      ReadOneItem(i, "]" + z, ']', z, depth);
      assert items[1..] == [];
      assert ItemsMean(items) == [Means(i.value)];
    } else {
      var more := ItemsText(items[1..], z);
      SkipBlank(i.after, ',', more);
      ReadsTree(i.value, i.after + ("," + more), depth);
      ReadOneItem(i, "," + more, ',', more, depth);
      ReadsItems(items[1..], z, depth);
    }
  }

  lemma ReadFieldName(f: Field, rest: string)
    requires White(f.before) && ValidLetters(f.name) && White(f.colon)
    ensures ReadName(f.before + ("\"" + LettersText(f.name, f.colon + (":" + rest)))) == Got(LettersMean(f.name), rest)
  {
    var u := LettersText(f.name, f.colon + (":" + rest));
    SkipBlank(f.before, '"', u);
    ReadLetters(f.name, f.colon + (":" + rest));
    SkipBlank(f.colon, ':', rest);
  }

  lemma ReadOneField(f: Field, tail: string, c: char, more: string, depth: nat)
    requires ValidFields([f]) && c in ",}" && tail == [c] + more
    requires ReadValue(Text(f.value, f.after + tail), depth) == Got(Means(f.value), f.after + tail)
    ensures var m := Member(LettersMean(f.name), Means(f.value));
            ReadMembers(FieldText(f, tail), depth) ==
            if c == '}' then Got([m], more)
            else match ReadMembers(more, depth) case Fail => Fail case Got(ms, r) => Got([m] + ms, r)
  {
    var u := Text(f.value, f.after + tail);
    ReadFieldName(f, f.gap + u);
    SkipWhite(f.gap, u);
    SameSkipped(f.gap + u, u, depth);
    SkipBlank(f.after, c, more);
  }

  lemma FieldAlone(fields: seq<Field>)
    requires fields != [] && ValidFields(fields)
    ensures ValidFields([fields[0]])
    ensures FieldsMean(fields) ==
            [Member(LettersMean(fields[0].name), Means(fields[0].value))] + FieldsMean(fields[1..])
    ensures Depth(fields[0].value) <= FieldsDepth(fields) && FieldsDepth(fields[1..]) <= FieldsDepth(fields)
  {
  }

  lemma {:induction false} ReadsFields(fields: seq<Field>, z: string, depth: nat)
    requires fields != [] && ValidFields(fields) && depth + FieldsDepth(fields) <= 10000
    ensures ReadMembers(FieldsText(fields, z), depth) == Got(FieldsMean(fields), z)
    decreases fields, 0
  {
    var f := fields[0];
    FieldAlone(fields);
    if |fields| == 1 {
      SkipBlank(f.after, '}', z);
      ReadsTree(f.value, f.after + ("}" + z), depth);
      ReadOneField(f, "}" + z, '}', z, depth);
      assert fields[1..] == [];
      assert FieldsMean(fields) == [Member(LettersMean(f.name), Means(f.value))];
    } else {
      var more := FieldsText(fields[1..], z);
      SkipBlank(f.after, ',', more);
      ReadsTree(f.value, f.after + ("," + more), depth);
      ReadOneField(f, "," + more, ',', more, depth);
      ReadsFields(fields[1..], z, depth);
    }
  }

  // ----- and nothing else is read -----

  lemma {:induction false} BlankOf(s: string) returns (b: string)
    ensures White(b) && s == b + SkipSpace(s)
  {
    if s == "" || !IsSpace(s[0]) {
      b := "";
    } else {
      var rest := BlankOf(s[1..]);
      b := [s[0]] + rest;
      assert s[0] in " \t\n\r";
      assert s == [s[0]] + (rest + SkipSpace(s));
    }
  }

  lemma FirstLetter(s: string) returns (l: Letter, rest: string)
    requires ReadString(s).Got? && s[0] != '"'
    ensures ValidLetter(l) && s == LetterText(l, rest) && |rest| < |s|
    ensures ReadString(rest).Got? && ReadString(s) == Prepend(LetterMeans(l), ReadString(rest))
  {
    if s[0] != '\\' {
      l, rest := Plain(s[0]), s[1..];
      assert s == [s[0]] + rest;
    } else if |s| >= 6 && s[1] == 'u' && IsHex(s[2]) && IsHex(s[3]) && IsHex(s[4]) && IsHex(s[5]) {
      l, rest := Coded(s[2..6]), s[6..];
      assert s == ['\\', 'u'] + (s[2..6] + rest);
      HexCode(s[2..6]);
    } else {
      ShortAgrees(s[1]);
      l, rest := Short(s[1]), s[2..];
      assert s == ['\\', s[1]] + rest;
    }
  }

  lemma {:induction false} LettersOf(s: string) returns (ls: seq<Letter>)
    requires ReadString(s).Got?
    ensures ValidLetters(ls) && s == LettersText(ls, ReadString(s).rest) && LettersMean(ls) == ReadString(s).value
    decreases |s|
  {
    if s[0] == '"' {
      ls := [];
      assert s == "\"" + s[1..];
    } else {
      var l, rest := FirstLetter(s);
      var more := LettersOf(rest);
      ls := [l] + more;
      assert ls[1..] == more;
      LettersMeanStep(ls);
    }
  }

  lemma ExponentOf(s: string) returns (e: string)
    requires ExponentLength(s) >= 0
    ensures s == e + s[ExponentLength(s)..] && |e| == ExponentLength(s)
    ensures e == "" || (e[0] in "eE"
            && (Figures(e[1..]) || (|e| > 1 && e[1] in "+-" && Figures(e[2..]))))
  {
    var n := ExponentLength(s);
    e := s[..n];
    if n > 0 {
      var sign := if StartsWith(s[1..], '+') || StartsWith(s[1..], '-') then 2 else 1;
      assert e[sign..] == s[sign..][..n - sign];
      FiguresAreDigits(e[sign..]);
    }
  }

  lemma FractionOf(s: string) returns (f: string)
    requires FractionLength(s) >= 0
    ensures s == f + s[FractionLength(s)..] && |f| == FractionLength(s)
    ensures f == "" || (f[0] == '.' && Figures(f[1..]))
  {
    var n := FractionLength(s);
    f := s[..n];
    if n > 0 {
      assert f[1..] == s[1..][..n - 1];
      FiguresAreDigits(f[1..]);
    }
  }

  lemma WholeOf(s: string) returns (w: string)
    requires IntLength(s) > 0
    ensures s == w + s[IntLength(s)..] && |w| == IntLength(s)
    ensures Figures(w) && (w[0] == '0' ==> w == "0")
  {
    w := s[..IntLength(s)];
    FiguresAreDigits(w);
  }

  lemma UnsignedOf(s: string) returns (w: string, f: string, e: string, rest: string)
    requires UnsignedLength(s) > 0
    ensures ValidNumeral("", w, f, e)
    ensures s == w + (f + (e + rest)) && UnsignedLength(s) == |w| + |f| + |e|
  {
    w := WholeOf(s);
    var u := s[IntLength(s)..];
    f := FractionOf(u);
    var v := u[FractionLength(u)..];
    e := ExponentOf(v);
    rest := v[ExponentLength(v)..];
  }

  lemma SplitNumeral(s: string, text: string, rest: string)
    requires s == text + rest
    ensures s[..|text|] == text && s[|text|..] == rest
  {
  }

  lemma SignOf(s: string) returns (sign: string, u: string)
    requires NumberLength(s) > 0
    ensures (sign == "" || sign == "-") && s == sign + u
    ensures UnsignedLength(u) > 0 && NumberLength(s) == |sign| + UnsignedLength(u)
  {
    sign := if StartsWith(s, '-') then "-" else "";
    u := s[|sign|..];
    assert sign == s[..|sign|];
  }

  lemma NumeralParts(s: string) returns (sign: string, w: string, f: string, e: string, rest: string)
    requires NumberLength(s) > 0
    ensures ValidNumeral(sign, w, f, e) && s == sign + (w + (f + (e + rest)))
    ensures NumberLength(s) == |sign| + |w| + |f| + |e|
  {
    var u;
    sign, u := SignOf(s);
    w, f, e, rest := UnsignedOf(u);
  }

  lemma NumeralOf(s: string) returns (t: Tree)
    requires NumberLength(s) > 0
    ensures t.Numeral? && Valid(t) && s == Text(t, s[NumberLength(s)..]) && Means(t) == Number(s[..NumberLength(s)])
  {
    var sign, w, f, e, rest := NumeralParts(s);
    t := Numeral(sign, w, f, e);
    TakeNumeral(sign, w, f, e, rest);
    SplitNumeral(s, sign + (w + (f + e)), rest);
  }

  lemma ScalarOf(s: string) returns (t: Tree)
    requires ReadScalar(s).Got?
    ensures Valid(t) && Depth(t) == 0 && s == Text(t, ReadScalar(s).rest) && Means(t) == ReadScalar(s).value
  {
    if s[0] == '"' {
      var ls := LettersOf(s[1..]);
      t := Quoted(ls);
      assert s == "\"" + s[1..];
    } else if s[0] == '-' || IsDigit(s[0]) {
      t := NumeralOf(s);
    } else {
      t := if s[0] == 'n' then NullWord else if s[0] == 't' then TrueWord else FalseWord;
      WordSplit(s, if s[0] == 'n' then "null" else if s[0] == 't' then "true" else "false");
    }
  }

  lemma WordSplit(s: string, word: string)
    ensures word <= s ==> s == word + s[|word|..]
  {
  }

  /** The containers open around and inside the value are no more than the decoder allows. */
  predicate FitsDepth(depth: nat, d: nat) { d > 0 ==> depth + d <= 10000 }

  /** Whatever is read was a well-formed text, behind white space, and is read as what that text means. */
  lemma {:induction false} TreeOf(s: string, depth: nat) returns (before: string, t: Tree)
    requires ReadValue(s, depth).Got?
    ensures White(before) && Valid(t) && FitsDepth(depth, Depth(t))
    ensures s == before + Text(t, ReadValue(s, depth).rest) && Means(t) == ReadValue(s, depth).value
    decreases |s|, 1
  {
    before := BlankOf(s);
    var u := SkipSpace(s);
    if StartsWith(u, '{') {
      t := RecordOf(u[1..], depth + 1);
      assert u == "{" + u[1..];
    } else if StartsWith(u, '[') {
      t := ListOf(u[1..], depth + 1);
      assert u == "[" + u[1..];
    } else {
      t := ScalarOf(u);
    }
  }

  lemma {:induction false} ListOf(s: string, depth: nat) returns (t: Tree)
    requires ReadArray(s, depth).Got? && depth <= 10000
    ensures t.List? && Valid(t) && depth - 1 + Depth(t) <= 10000
    ensures "[" + s == Text(t, ReadArray(s, depth).rest) && Means(t) == ReadArray(s, depth).value
    decreases |s|, 3
  {
    if StartsWith(SkipSpace(s), ']') {
      var blank := BlankOf(s);
      t := List([], blank);
      assert SkipSpace(s) == "]" + SkipSpace(s)[1..];
    } else {
      var items := ItemsOf(s, depth);
      t := List(items, "");
    }
  }

  lemma {:induction false} RecordOf(s: string, depth: nat) returns (t: Tree)
    requires ReadObject(s, depth).Got? && depth <= 10000
    ensures t.Record? && Valid(t) && depth - 1 + Depth(t) <= 10000
    ensures "{" + s == Text(t, ReadObject(s, depth).rest) && Means(t) == ReadObject(s, depth).value
    decreases |s|, 3
  {
    if StartsWith(SkipSpace(s), '}') {
      var blank := BlankOf(s);
      t := Record([], blank);
      assert SkipSpace(s) == "}" + SkipSpace(s)[1..];
    } else {
      var fields := FieldsOf(s, depth);
      t := Record(fields, "");
    }
  }

  lemma ItemsPut(i: Item, more: seq<Item>, z: string)
    requires White(i.before) && Valid(i.value) && White(i.after) && ValidItems(more)
    ensures ValidItems([i] + more) && ItemsMean([i] + more) == [Means(i.value)] + ItemsMean(more)
    ensures ItemsText([i] + more, z) == ItemText(i, if more == [] then "]" + z else "," + ItemsText(more, z))
    ensures ItemsDepth([i] + more) == Max(Depth(i.value), ItemsDepth(more))
  {
    assert ([i] + more)[1..] == more;
  }

  lemma {:induction false} ItemsOf(s: string, depth: nat) returns (items: seq<Item>)
    requires ReadItems(s, depth).Got? && depth <= 10000
    ensures items != [] && ValidItems(items) && depth + ItemsDepth(items) <= 10000
    ensures s == ItemsText(items, ReadItems(s, depth).rest) && ItemsMean(items) == ReadItems(s, depth).value
    decreases |s|, 2
  {
    var r := ReadValue(s, depth).rest;
    var before, t := TreeOf(s, depth);
    var after := BlankOf(r);
    var u := SkipSpace(r);
    var i := Item(before, t, after);
    assert u == [u[0]] + u[1..];
    var more: seq<Item> := [];
    if !StartsWith(u, ']') {
      more := ItemsOf(u[1..], depth);
    }
    items := [i] + more;
    ItemsPut(i, more, ReadItems(s, depth).rest);
  }

  lemma FieldsPut(f: Field, more: seq<Field>, z: string)
    requires ValidFields([f]) && ValidFields(more)
    ensures ValidFields([f] + more)
    ensures FieldsMean([f] + more) == [Member(LettersMean(f.name), Means(f.value))] + FieldsMean(more)
    ensures FieldsText([f] + more, z) == FieldText(f, if more == [] then "}" + z else "," + FieldsText(more, z))
    ensures FieldsDepth([f] + more) == Max(Depth(f.value), FieldsDepth(more))
  {
    assert ([f] + more)[1..] == more;
  }

  lemma NameOf(s: string) returns (before: string, name: seq<Letter>, colon: string)
    requires ReadName(s).Got?
    ensures White(before) && ValidLetters(name) && White(colon) && LettersMean(name) == ReadName(s).value
    ensures s == before + ("\"" + LettersText(name, colon + (":" + ReadName(s).rest)))
  {
    before := BlankOf(s);
    var u := SkipSpace(s);
    name := LettersOf(u[1..]);
    var r := ReadString(u[1..]).rest;
    colon := BlankOf(r);
    var v := SkipSpace(r);
    assert u == "\"" + u[1..] && v == ":" + v[1..];
  }

  lemma {:induction false} FieldsOf(s: string, depth: nat) returns (fields: seq<Field>)
    requires ReadMembers(s, depth).Got? && depth <= 10000
    ensures fields != [] && ValidFields(fields) && depth + FieldsDepth(fields) <= 10000
    ensures s == FieldsText(fields, ReadMembers(s, depth).rest) && FieldsMean(fields) == ReadMembers(s, depth).value
    decreases |s|, 2
  {
    assert ReadMember(s, depth).Got?;
    var r := ReadMember(s, depth).rest;
    var before, name, colon := NameOf(s);
    var gap, t := TreeOf(ReadName(s).rest, depth);
    var after := BlankOf(r);
    var u := SkipSpace(r);
    var f := Field(before, name, colon, gap, t, after);
    assert u == [u[0]] + u[1..];
    assert ValidFields([f]);
    var more: seq<Field> := [];
    if !StartsWith(u, '}') {
      more := FieldsOf(u[1..], depth);
    }
    fields := [f] + more;
    FieldsPut(f, more, ReadMembers(s, depth).rest);
  }

  /**
   * A JSON text as RFC 8259 has it, a value with white space before and behind, is read as what it means, with
   * nothing but that white space left over.
   */
  lemma ReaderIsGrammar(t: Tree, before: string, after: string)
    requires Valid(t) && Depth(t) <= 10000 && White(before) && White(after)
    ensures var r := ReadValue(before + Text(t, after), 0);
            r.Got? && r.value == Means(t) && SkipSpace(r.rest) == ""
  {
    assert after != "" ==> after[0] in " \t\n\r";
    ReadsTree(t, after, 0);
    SkipWhite(before, Text(t, after));
    SameSkipped(before + Text(t, after), Text(t, after), 0);
    SkipWhite(after, "");
    assert after + "" == after;
  }
}
