/** The text key of a ticket, by which batches and model answers spot duplicates. */
module TicketKeys {
  import opened Decimal
  import opened Tickets

  /** What `%v` prints after the first number of a slice, then `tail`. */
  function Listed(numbers: seq<int>, tail: string): string {
    if numbers == [] then "]" + tail
    else " " + (IntText(numbers[0]) + Listed(numbers[1..], tail))
  }

  /** `fmt.Sprintf("%v", numbers)` without its opening bracket, then `tail`. */
  function Bracketed(numbers: seq<int>, tail: string): string {
    if numbers == [] then "]" + tail else IntText(numbers[0]) + Listed(numbers[1..], tail)
  }

  function Key(t: Ticket): string {
    "[" + Bracketed(t.numbers, "+" + IntText(t.bonus))
  }

  predicate NumberChar(c: char) { IsDigit(c) || c == '-' }

  predicate NumberText(s: string) { s != [] && forall i :: 0 <= i < |s| ==> NumberChar(s[i]) }

  /** Two number texts, each followed by a separator, can only agree if they are the same text. */
  lemma SameToken(a: string, b: string, u: string, v: string)
    requires NumberText(a) && NumberText(b)
    requires u != [] && !NumberChar(u[0]) && v != [] && !NumberChar(v[0])
    requires a + u == b + v
    ensures a == b && u == v
  {
    var s := a + u;
    assert forall i :: 0 <= i < |a| ==> NumberChar(s[i]);
    assert !NumberChar(s[|a|]);
    assert forall i :: 0 <= i < |b| ==> (b + v)[i] == b[i];
    assert s[|b|] == (b + v)[|b|];
    assert |a| == |b|;
    assert a == s[..|a|] && b == (b + v)[..|b|];
    assert u == s[|a|..] && v == (b + v)[|b|..];
  }

  lemma ListedHead(a: seq<int>, x: string)
    ensures Listed(a, x)[0] == if a == [] then ']' else ' '
  {
  }

  lemma {:induction false} ListedInjective(a: seq<int>, b: seq<int>, x: string, y: string)
    requires Listed(a, x) == Listed(b, y)
    ensures a == b && x == y
    decreases |a|
  {
    ListedHead(a, x);
    ListedHead(b, y);
    if a == [] {
      assert x == Listed(a, x)[1..] && y == Listed(b, y)[1..];
    } else {
      var u, v := Listed(a[1..], x), Listed(b[1..], y);
      assert IntText(a[0]) + u == Listed(a, x)[1..];
      assert IntText(b[0]) + v == Listed(b, y)[1..];
      ListedHead(a[1..], x);
      ListedHead(b[1..], y);
      SameToken(IntText(a[0]), IntText(b[0]), u, v);
      IntTextInjective(a[0], b[0]);
      ListedInjective(a[1..], b[1..], x, y);
      assert a == [a[0]] + a[1..] && b == [b[0]] + b[1..];
    }
  }

  lemma BracketedInjective(a: seq<int>, b: seq<int>, x: string, y: string)
    requires Bracketed(a, x) == Bracketed(b, y)
    ensures a == b && x == y
  {
    BracketedIsListed(a, x);
    BracketedIsListed(b, y);
    ListedInjective(a, b, x, y);
  }

  /** The first number differs from the later ones only by the blank before it. */
  lemma BracketedIsListed(a: seq<int>, x: string)
    ensures Listed(a, x) == if a == [] then Bracketed(a, x) else " " + Bracketed(a, x)
    ensures a == [] <==> Bracketed(a, x)[0] == ']'
  {
    if a != [] {
      assert Bracketed(a, x)[0] == IntText(a[0])[0];
    }
  }

  /** Equal keys mean equal tickets, for any numbers and any bonus: deduplicating by key is by value. */
  lemma KeyInjective(a: Ticket, b: Ticket)
    requires Key(a) == Key(b)
    ensures a == b
  {
    var x, y := "+" + IntText(a.bonus), "+" + IntText(b.bonus);
    assert Key(a)[1..] == Bracketed(a.numbers, x);
    assert Key(b)[1..] == Bracketed(b.numbers, y);
    BracketedInjective(a.numbers, b.numbers, x, y);
    assert x[1..] == IntText(a.bonus) && y[1..] == IntText(b.bonus);
    IntTextInjective(a.bonus, b.bonus);
  }

  ghost function Keys(ts: seq<Ticket>): set<string> {
    set t | t in ts :: Key(t)
  }

  /** A key has been seen exactly when its ticket has. */
  lemma KeysAreTickets(ts: seq<Ticket>, t: Ticket)
    ensures Key(t) in Keys(ts) <==> t in ts
  {
    if Key(t) in Keys(ts) {
      var u :| u in ts && Key(u) == Key(t);
      KeyInjective(u, t);
    }
  }
}
