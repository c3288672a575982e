/** The reader that hands a request body to the HTTP client: `bytesReader`, which never advances,
    under an io.LimitedReader that counts down. */
module BodyReader {
  import opened Strings

  function Min(a: nat, b: nat): nat {
    if a < b then a else b
  }

  class LimitedReader {
    const body: Text
    var remaining: nat

    constructor (body: Text)
      ensures this.body == body && remaining == |body|
    {
      this.body := body;
      remaining := |body|;
    }

    /** LimitedReader.Read over bytesReader.Read: every read copies from the front of the body. */
    method Read(p: array<Byte>) returns (count: nat, eof: bool)
      requires remaining <= |body|
      modifies this, p
      ensures count == Min(p.Length, old(remaining)) && eof == (count == 0)
      ensures remaining == old(remaining) - count
      ensures p[..count] == body[..count] && p[count..] == old(p[count..])
    {
      if remaining == 0 {
        return 0, true;
      }
      count := Min(Min(p.Length, remaining), |body|);
      var i := 0;
      while i < count
        invariant 0 <= i <= count
        invariant forall j | 0 <= j < i :: p[j] == body[j]
        invariant forall j | i <= j < p.Length :: p[j] == old(p[j])
        invariant remaining == old(remaining)
      {
        p[i] := body[i];
        i := i + 1;
      }
      remaining := remaining - count;
      eof := count == 0;
    }
  }

  // ---------------------------------------------------------------- what a consumer receives

  /** The bytes received by a consumer whose successive buffers have these sizes, with `n` bytes
      still allowed. */
  function Delivered(body: Text, n: nat, sizes: seq<nat>): Text
    requires n <= |body|
  {
    if sizes == [] then []
    else
      var k := Min(sizes[0], n);
      if k == 0 then [] else body[..k] + Delivered(body, n - k, sizes[1..])
  }

  /** Buffers of positive size, enough of them to reach the end. */
  predicate Covers(sizes: seq<nat>, n: nat) {
    n == 0 || (sizes != [] && sizes[0] > 0 && Covers(sizes[1..], n - Min(sizes[0], n)))
  }

  /** A consumer reading with these buffer sizes until the end of the body. */
  method Consume(reader: LimitedReader, sizes: seq<nat>) returns (received: Text)
    requires reader.remaining <= |reader.body|
    modifies reader
    ensures received == Delivered(reader.body, old(reader.remaining), sizes)
  {
    received := [];
    var i := 0;
    while i < |sizes|
      invariant 0 <= i <= |sizes| && reader.remaining <= |reader.body|
      invariant received + Delivered(reader.body, reader.remaining, sizes[i..])
             == Delivered(reader.body, old(reader.remaining), sizes)
    {
      var buffer := new Byte[sizes[i]];
      ghost var before := reader.remaining;
      var count, eof := reader.Read(buffer);
      assert sizes[i..][1..] == sizes[i + 1..];
      if eof {
        return;
      }
      assert Delivered(reader.body, before, sizes[i..])
          == reader.body[..count] + Delivered(reader.body, reader.remaining, sizes[i + 1..]);
      received := received + buffer[..count];
      i := i + 1;
    }
  }

  /** Every schedule of positive buffers delivers exactly as many bytes as the body has. */
  lemma {:induction false} DeliversLength(body: Text, n: nat, sizes: seq<nat>)
    requires n <= |body| && Covers(sizes, n)
    ensures |Delivered(body, n, sizes)| == n
    decreases |sizes|
  {
    if n > 0 {
      DeliversLength(body, n - Min(sizes[0], n), sizes[1..]);
    }
  }

  /** Each chunk, which repeats the front of the body, happens to be what belongs there. */
  predicate ChunksMatch(body: Text, n: nat, sizes: seq<nat>)
    requires n <= |body|
    decreases |sizes|
  {
    if n == 0 || sizes == [] || sizes[0] == 0 then n == 0
    else
      var k, at := Min(sizes[0], n), |body| - n;
      body[at..at + k] == body[..k] && ChunksMatch(body, n - k, sizes[1..])
  }

  lemma SameConcat(a: Text, b: Text, c: Text, d: Text)
    requires |a| == |c|
    ensures a + b == c + d <==> a == c && b == d
  {
    if a + b == c + d {
      assert (a + b)[..|a|] == a && (c + d)[..|c|] == c;
      assert (a + b)[|a|..] == b && (c + d)[|c|..] == d;
    }
  }

  /** Exactly when a schedule delivers the body. */
  lemma {:induction false} DeliversBodyIff(body: Text, n: nat, sizes: seq<nat>)
    requires n <= |body| && Covers(sizes, n)
    ensures Delivered(body, n, sizes) == body[|body| - n..] <==> ChunksMatch(body, n, sizes)
    decreases |sizes|
  {
    if n == 0 {
      assert body[|body|..] == [];
    } else {
      var k, at := Min(sizes[0], n), |body| - n;
      DeliversBodyIff(body, n - k, sizes[1..]);
      var rest := Delivered(body, n - k, sizes[1..]);
      assert body[at..] == body[at..at + k] + body[at + k..];
      SameConcat(body[..k], rest, body[at..at + k], body[at + k..]);
    }
  }

  /** A first buffer that holds the whole body is enough. */
  lemma OneBigBufferDelivers(body: Text, sizes: seq<nat>)
    requires sizes != [] && sizes[0] >= |body| && sizes[0] > 0
    ensures Delivered(body, |body|, sizes) == body
  {
    assert body[..|body|] == body;
    if body != [] {
      assert Delivered(body, 0, sizes[1..]) == [];
    }
  }

  predicate AllBytesEqual(body: Text) {
    forall i | 0 <= i < |body| :: body[i] == body[0]
  }

  function Ones(n: nat): (sizes: seq<nat>)
    ensures |sizes| == n
  {
    if n == 0 then [] else [1] + Ones(n - 1)
  }

  lemma {:induction false} OnesCover(n: nat)
    ensures Covers(Ones(n), n)
  {
    if n > 0 {
      OnesCover(n - 1);
      assert Ones(n)[1..] == Ones(n - 1);
    }
  }

  /** Read one byte at a time, the body arrives as copies of its first byte. */
  lemma {:induction false} OnesRepeatFirst(body: Text, n: nat)
    requires n <= |body|
    ensures |Delivered(body, n, Ones(n))| == n
    ensures forall i | 0 <= i < n :: Delivered(body, n, Ones(n))[i] == body[0]
  {
    if n > 0 {
      OnesRepeatFirst(body, n - 1);
      assert Ones(n)[1..] == Ones(n - 1);
      assert body[..1] == [body[0]];
    }
  }

  lemma {:induction false} EqualBytesDeliver(body: Text, n: nat, sizes: seq<nat>)
    requires AllBytesEqual(body) && n <= |body| && Covers(sizes, n)
    ensures ChunksMatch(body, n, sizes)
    decreases |sizes|
  {
    if n > 0 {
      var k, at := Min(sizes[0], n), |body| - n;
      forall i | 0 <= i < k ensures body[at..at + k][i] == body[..k][i] {
        assert body[at + i] == body[0] && body[i] == body[0];
      }
      EqualBytesDeliver(body, n - k, sizes[1..]);
    }
  }

  /** The body arrives whatever the buffer sizes if and only if all its bytes are equal. */
  lemma DeliversForEveryScheduleIff(body: Text)
    ensures (forall sizes: seq<nat> | Covers(sizes, |body|) :: Delivered(body, |body|, sizes) == body) <==>
              AllBytesEqual(body)
  {
    assert body[0..] == body;
    if AllBytesEqual(body) {
      forall sizes: seq<nat> | Covers(sizes, |body|) ensures Delivered(body, |body|, sizes) == body {
        EqualBytesDeliver(body, |body|, sizes);
        DeliversBodyIff(body, |body|, sizes);
      }
    } else {
      OnesCover(|body|);
      OnesRepeatFirst(body, |body|);
      assert Delivered(body, |body|, Ones(|body|)) != body;
    }
  }

  /** A body and a schedule with which the wrong bytes are delivered. */
  lemma WrongBytesExample()
    ensures Covers([1, 1], 2) && Delivered("ab", 2, [1, 1]) == "aa"
  {
    var body: Text := "ab";
    var sizes: seq<nat> := [1, 1];
    assert sizes[1..] == [1] && sizes[1..][1..] == [];
    assert body[..1] == "a";
    assert Covers(sizes[1..][1..], 0) && Covers(sizes[1..], 1);
    assert Delivered(body, 0, sizes[1..][1..]) == "";
    assert Delivered(body, 1, sizes[1..]) == "a";
  }

  // ---------------------------------------------------------------- the evident intent

  /** What a reader that keeps its position would deliver. */
  function DeliveredByCursor(body: Text, n: nat, sizes: seq<nat>): Text
    requires n <= |body|
  {
    if sizes == [] then []
    else
      var k, at := Min(sizes[0], n), |body| - n;
      if k == 0 then [] else body[at..at + k] + DeliveredByCursor(body, n - k, sizes[1..])
  }

  /** With a cursor every schedule delivers the body. */
  lemma {:induction false} CursorDelivers(body: Text, n: nat, sizes: seq<nat>)
    requires n <= |body| && Covers(sizes, n)
    ensures DeliveredByCursor(body, n, sizes) == body[|body| - n..]
    decreases |sizes|
  {
    if n > 0 {
      var k, at := Min(sizes[0], n), |body| - n;
      CursorDelivers(body, n - k, sizes[1..]);
      assert body[at..] == body[at..at + k] + body[at + k..];
    }
  }
}
