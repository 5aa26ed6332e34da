/** The reader that stops an oversized archive page with an error instead of cutting it short. */
module LimitedReader {

  type Byte = bv8

  function Min(a: nat, b: nat): nat { if a < b then a else b }

  datatype Error = None | Eof | TooBig | Broken

  /** How the source behaves in one call: bytes it is ready to give, EOF with the last of them, or a failure. */
  datatype Move = Move(give: nat, eager: bool, broken: bool)

  /** Any `io.Reader` over a fixed stream; its behaviour in every single call is arbitrary. */
  class Source {
    const data: seq<Byte>
    const moves: nat -> Move
    var pos: nat
    var calls: nat

    ghost predicate Valid()
      reads this
    {
      pos <= |data|
    }

    constructor (data: seq<Byte>, moves: nat -> Move)
      ensures this.data == data && this.moves == moves && pos == 0 && calls == 0 && Valid()
    {
      this.data, this.moves := data, moves;
      pos, calls := 0, 0;
    }

    /** Fills a prefix of `p[..room]` with the next bytes of the stream. */
    method Read(p: array<Byte>, room: nat) returns (n: nat, err: Error)
      requires Valid() && room <= p.Length
      modifies this, p
      ensures Valid() && calls == old(calls) + 1
      ensures n <= room && pos == old(pos) + n
      ensures p[..n] == data[old(pos)..pos] && p[n..] == old(p[n..])
      ensures err != TooBig && (err == Broken <==> moves(old(calls)).broken)
      ensures err == Eof <==>
                pos == |data| && (old(pos) == |data| || moves(old(calls)).eager) && !moves(old(calls)).broken
      ensures n == Min(Min(moves(old(calls)).give, room), |data| - old(pos))
    {
      var move := moves(calls);
      calls := calls + 1;
      n := if move.give < room then move.give else room;
      n := if n < |data| - pos then n else |data| - pos;
      forall i | 0 <= i < n {
        p[i] := data[pos + i];
      }
      assert p[..n] == data[pos..pos + n] && p[n..] == old(p[n..]);
      var ended := pos == |data|;
      pos := pos + n;
      err := if move.broken then Broken
             else if pos == |data| && (ended || move.eager) then Eof
             else None;
    }
  }

  class LimitedReader {
    const r: Source
    var n: int

    constructor (r: Source, n: int)
      ensures this.r == r && this.n == n
    {
      this.r, this.n := r, n;
    }

    method Read(p: array<Byte>) returns (count: nat, err: Error)
      requires r.Valid()
      modifies this, r, p
      ensures r.Valid() && count <= p.Length
      ensures n == old(n) - count && r.pos == old(r.pos) + count
      ensures p[..count] == r.data[old(r.pos)..r.pos] && p[count..] == old(p[count..])
      ensures old(n) <= 0 <==> err == TooBig
      ensures err == TooBig ==> count == 0 && r.calls == old(r.calls)
      ensures err != TooBig ==> r.calls == old(r.calls) + 1 && count <= old(n)
      ensures err == Broken <==> old(n) > 0 && r.moves(old(r.calls)).broken
      ensures err == Eof <==> old(n) > 0 && !r.moves(old(r.calls)).broken && r.pos == |r.data|
                              && (old(r.pos) == |r.data| || r.moves(old(r.calls)).eager)
      ensures old(n) > 0 ==>
                count == Min(Min(r.moves(old(r.calls)).give, Min(p.Length, old(n))), |r.data| - old(r.pos))
    {
      if n <= 0 {
        return 0, TooBig;
      }
      var room := if p.Length > n then n else p.Length;
      count, err := r.Read(p, room);
      n := n - count;
    }
  }

  /** No buffer is empty, and the source gives something whenever it has something. */
  ghost predicate AllGive(moves: nat -> Move, sizes: seq<nat>) {
    (forall k: nat :: moves(k).give > 0) && forall k :: 0 <= k < |sizes| ==> sizes[k] > 0
  }

  /** How much of `cap` bytes has arrived after `i` reads that nothing else stops. */
  function Arrived(moves: nat -> Move, sizes: seq<nat>, cap: nat, i: nat): (n: nat)
    requires i <= |sizes|
    ensures n <= cap
  {
    if i == 0 then 0
    else Min(cap, Arrived(moves, sizes, cap, i - 1) + Min(moves(i - 1).give, sizes[i - 1]))
  }

  /** Read number `k` delivers the last of `cap` bytes. */
  ghost predicate DeliversLast(moves: nat -> Move, sizes: seq<nat>, cap: nat, k: nat) {
    k < |sizes| && Arrived(moves, sizes, cap, k) < cap && Arrived(moves, sizes, cap, k + 1) == cap
  }

  ghost predicate NoneBroken(moves: nat -> Move, n: nat) { forall k :: 0 <= k < n ==> !moves(k).broken }

  lemma {:induction false} ArrivedGrows(moves: nat -> Move, sizes: seq<nat>, cap: nat, i: nat, j: nat)
    requires i <= j <= |sizes|
    ensures Arrived(moves, sizes, cap, i) <= Arrived(moves, sizes, cap, j)
  {
    if i < j {
      ArrivedGrows(moves, sizes, cap, i, j - 1);
    }
  }

  /** The last byte is delivered once. */
  lemma DeliveryUnique(moves: nat -> Move, sizes: seq<nat>, cap: nat, k: nat, i: nat)
    requires DeliversLast(moves, sizes, cap, k) && DeliversLast(moves, sizes, cap, i)
    ensures i == k
  {
    if i < k {
      ArrivedGrows(moves, sizes, cap, i + 1, k);
    } else if k < i {
      ArrivedGrows(moves, sizes, cap, k + 1, i);
    }
  }

  /** Enough reads that all give something deliver everything. */
  lemma {:induction false} DeliveryExists(moves: nat -> Move, sizes: seq<nat>, cap: nat, i: nat) returns (k: nat)
    requires AllGive(moves, sizes) && 0 < cap <= i <= |sizes|
    ensures DeliversLast(moves, sizes, cap, k) && k < i
  {
    ArrivedEnough(moves, sizes, cap, i);
    k := i - 1;
    while Arrived(moves, sizes, cap, k) == cap
      invariant k < i && Arrived(moves, sizes, cap, k + 1) == cap
      decreases k
    {
      k := k - 1;
    }
  }

  lemma {:induction false} ArrivedEnough(moves: nat -> Move, sizes: seq<nat>, cap: nat, i: nat)
    requires AllGive(moves, sizes) && i <= |sizes|
    ensures Arrived(moves, sizes, cap, i) >= Min(cap, i)
  {
    if i > 0 {
      ArrivedEnough(moves, sizes, cap, i - 1);
    }
  }

  /** A read is left when all of `cap` bytes has arrived. */
  predicate ReadsOn(moves: nat -> Move, sizes: seq<nat>, cap: nat) {
    |sizes| > 0 && Arrived(moves, sizes, cap, |sizes| - 1) == cap
  }

  /** The last of `cap` bytes comes together with EOF, if the stream ends there. */
  ghost predicate EagerEnd(moves: nat -> Move, sizes: seq<nat>, cap: nat) {
    exists k: nat :: DeliversLast(moves, sizes, cap, k) && moves(k).eager
  }

  /** How reading a stream of `size` bytes through the limit ends, if no call fails. */
  ghost function Ending(size: nat, moves: nat -> Move, limit: nat, sizes: seq<nat>): Error {
    var all := Min(limit, size);
    if size <= limit && EagerEnd(moves, sizes, all) then Eof
    else if !ReadsOn(moves, sizes, all) then None
    else if size < limit then Eof
    else TooBig
  }

  /** `arrived` bytes after `i` reads without an error; no read but the next can find nothing left. */
  ghost predicate Reading(size: nat, moves: nat -> Move, limit: nat, sizes: seq<nat>, i: nat, arrived: nat) {
    var all := Min(limit, size);
    && i <= |sizes| && arrived == Arrived(moves, sizes, all, i)
    && (i > 0 ==> Arrived(moves, sizes, all, i - 1) < all)
    && (size <= limit ==> forall k: nat :: k < i && DeliversLast(moves, sizes, all, k) ==> !moves(k).eager)
  }

  lemma ReadOn(size: nat, moves: nat -> Move, limit: nat, sizes: seq<nat>, i: nat, arrived: nat, next: nat)
    requires Reading(size, moves, limit, sizes, i, arrived) && i < |sizes| && arrived < Min(limit, size)
    requires next == Min(Min(limit, size), arrived + Min(moves(i).give, sizes[i]))
    requires size == next ==> !moves(i).eager
    ensures Reading(size, moves, limit, sizes, i + 1, next)
  {
    assert Arrived(moves, sizes, Min(limit, size), (i + 1) - 1) == arrived;
  }

  /** The error that stops the reading, or none when the buffers have run out, is the ending. */
  lemma Ended(size: nat, moves: nat -> Move, limit: nat, sizes: seq<nat>, i: nat, arrived: nat, err: Error)
    requires Reading(size, moves, limit, sizes, i, arrived) && err != Broken
    requires err == TooBig ==> i < |sizes| && arrived == limit
    requires err == Eof ==> i < |sizes| && arrived < limit && Arrived(moves, sizes, Min(limit, size), i + 1) == size
    requires err == Eof ==> arrived == size || moves(i).eager
    requires err == None ==> i == |sizes|
    ensures err == Ending(size, moves, limit, sizes)
  {
    var all := Min(limit, size);
    if arrived == all && i < |sizes| {
      ArrivedGrows(moves, sizes, all, i, |sizes| - 1);
    }
    if err == Eof && arrived < size {
      assert DeliversLast(moves, sizes, all, i);
    } else {
      forall k: nat | DeliversLast(moves, sizes, all, k) ensures k < i {
        if i <= k {
          ArrivedGrows(moves, sizes, all, i, k);
        }
      }
    }
  }

  lemma EagerEndIff(moves: nat -> Move, sizes: seq<nat>, cap: nat, k: nat)
    requires DeliversLast(moves, sizes, cap, k)
    ensures EagerEnd(moves, sizes, cap) <==> moves(k).eager
  {
    if EagerEnd(moves, sizes, cap) {
      var i: nat :| DeliversLast(moves, sizes, cap, i) && moves(i).eager;
      DeliveryUnique(moves, sizes, cap, k, i);
    }
  }

  lemma ReadsOnIff(moves: nat -> Move, sizes: seq<nat>, cap: nat, k: nat)
    requires DeliversLast(moves, sizes, cap, k)
    ensures ReadsOn(moves, sizes, cap) <==> k + 1 < |sizes|
  {
    if k + 1 < |sizes| {
      ArrivedGrows(moves, sizes, cap, k + 1, |sizes| - 1);
    }
  }

  /** At the limit: accepted if and only if the last byte comes with EOF, refused if not and read on. */
  lemma EndingAtLimit(moves: nat -> Move, sizes: seq<nat>, limit: nat, k: nat)
    requires DeliversLast(moves, sizes, limit, k)
    ensures Ending(limit, moves, limit, sizes) == Eof <==> moves(k).eager
    ensures Ending(limit, moves, limit, sizes) == TooBig <==> !moves(k).eager && k + 1 < |sizes|
  {
    EagerEndIff(moves, sizes, limit, k);
    ReadsOnIff(moves, sizes, limit, k);
  }

  /** Off the limit, enough reads that all give something reach the end: EOF below it, too big above it. */
  lemma EndingOffLimit(size: nat, moves: nat -> Move, limit: nat, sizes: seq<nat>)
    requires AllGive(moves, sizes) && size != limit && |sizes| > Min(limit, size)
    ensures Ending(size, moves, limit, sizes) == if size < limit then Eof else TooBig
  {
    ArrivedEnough(moves, sizes, Min(limit, size), |sizes| - 1);
  }

  /** One read into a buffer of its own. */
  method ReadChunk(l: LimitedReader, size: nat) returns (chunk: seq<Byte>, err: Error)
    requires l.r.Valid()
    modifies l, l.r
    ensures l.r.Valid() && l.n == old(l.n) - |chunk| && l.r.pos == old(l.r.pos) + |chunk|
    ensures l.r.data[..l.r.pos] == old(l.r.data[..l.r.pos]) + chunk
    ensures old(l.n) <= 0 <==> err == TooBig
    ensures err == TooBig ==> chunk == []
    ensures err != TooBig ==> l.r.calls == old(l.r.calls) + 1 && |chunk| <= old(l.n)
    ensures err == Broken <==> old(l.n) > 0 && l.r.moves(old(l.r.calls)).broken
    ensures err == Eof <==> old(l.n) > 0 && !l.r.moves(old(l.r.calls)).broken && l.r.pos == |l.r.data|
                            && (old(l.r.pos) == |l.r.data| || l.r.moves(old(l.r.calls)).eager)
    ensures old(l.n) > 0 ==>
              |chunk| == Min(Min(l.r.moves(old(l.r.calls)).give, Min(size, old(l.n))), |l.r.data| - old(l.r.pos))
  {
    var p := new Byte[size];
    var count;
    count, err := l.Read(p);
    chunk := p[..count];
  }

  /**
   * A consumer that reads with buffers of the given sizes until an error. However the source and the buffers
   * chop the stream, what arrives is a prefix of it; EOF means all of it arrived, too big that exactly the
   * limit did; and unless a call fails, which of them comes, or that the buffers run out first, is the ending.
   */
  method Consume(data: seq<Byte>, moves: nat -> Move, limit: nat, sizes: seq<nat>)
    returns (got: seq<Byte>, err: Error)
    ensures |got| <= limit && got <= data
    ensures err == Eof ==> got == data
    ensures err == TooBig ==> limit <= |data| && got == data[..limit]
    ensures err == None ==> |got| == Arrived(moves, sizes, Min(limit, |data|), |sizes|)
    ensures NoneBroken(moves, |sizes|) ==> err != Broken
    ensures err != Broken ==> err == Ending(|data|, moves, limit, sizes)
  {
    var src := new Source(data, moves);
    var l := new LimitedReader(src, limit);
    got, err := [], None;
    for i := 0 to |sizes|
      invariant l.r == src && src.data == data && src.moves == moves && src.Valid()
      invariant fresh(src) && fresh(l)
      invariant got == data[..src.pos] && l.n == limit - |got| >= 0
      invariant err == None && src.calls == i
      invariant Reading(|data|, moves, limit, sizes, i, |got|)
    {
      ghost var before := src.pos;
      var chunk;
      chunk, err := ReadChunk(l, sizes[i]);
      got := got + chunk;
      if err != None {
        if err != Broken {
          Ended(|data|, moves, limit, sizes, i, before, err);
        }
        return;
      }
      assert before < Min(limit, |data|);
      ReadOn(|data|, moves, limit, sizes, i, before, |got|);
    }
    Ended(|data|, moves, limit, sizes, |sizes|, |got|, err);
  }

  /**
   * A page read by enough buffers from a source that never fails or idles: below the limit all of it and its
   * own EOF, above the limit exactly the limit and then the too-big error, at the limit all of it either way.
   */
  method ConsumePage(data: seq<Byte>, moves: nat -> Move, limit: nat, sizes: seq<nat>)
    returns (got: seq<Byte>, err: Error)
    requires AllGive(moves, sizes) && NoneBroken(moves, |sizes|) && |sizes| > Min(limit, |data|)
    ensures |data| < limit ==> err == Eof && got == data
    ensures |data| > limit ==> err == TooBig && got == data[..limit]
    ensures |data| == limit ==> (err == Eof || err == TooBig) && got == data
  {
    got, err := Consume(data, moves, limit, sizes);
    if |data| != limit {
      EndingOffLimit(|data|, moves, limit, sizes);
    } else {
      ArrivedEnough(moves, sizes, limit, |sizes| - 1);
    }
  }

  /** A page of exactly the limit that is accepted: the source hands out EOF with the last bytes. */
  method AcceptedAtLimit(data: seq<Byte>) returns (got: seq<Byte>, err: Error)
    requires data != []
    ensures err == Eof && got == data
  {
    var moves := (k: nat) => Move(|data|, true, false);
    var sizes := seq(|data| + 1, _ => |data|);
    ghost var k := DeliveryExists(moves, sizes, |data|, |data|);
    EndingAtLimit(moves, sizes, |data|, k);
    got, err := Consume(data, moves, |data|, sizes);
  }

  /** The same page, read the same way, is refused when the source keeps EOF for a read of its own. */
  method RefusedAtLimit(data: seq<Byte>) returns (got: seq<Byte>, err: Error)
    requires data != []
    ensures err == TooBig && got == data
  {
    var moves := (k: nat) => Move(|data|, false, false);
    var sizes := seq(|data| + 1, _ => |data|);
    ghost var k := DeliveryExists(moves, sizes, |data|, |data|);
    EndingAtLimit(moves, sizes, |data|, k);
    got, err := Consume(data, moves, |data|, sizes);
  }
}
