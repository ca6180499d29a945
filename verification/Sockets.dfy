/** A stream socket as two byte sequences: what it will still deliver and what has been sent. */
module Sockets {
  import opened Bytes

  class Socket {
    var input: seq<byte>
    var output: seq<byte>
    /** How many receives have given less than they were asked for. */
    ghost var short: nat
    /** How many sends have put out less than they were given. */
    ghost var cut: nat

    constructor (input: seq<byte>)
      ensures this.input == input && output == [] && short == 0 && cut == 0
    {
      this.input := input;
      this.output := [];
      this.short, this.cut := 0, 0;
    }

    /** recv: some beginning of what is there, at most n bytes; nothing when the peer has closed,
        when the call fails, or when a socket that does not block has nothing yet. */
    method Recv(n: nat) returns (b: seq<byte>)
      modifies this`input, this`short
      ensures |b| <= Min(n, |old(input)|) && b == old(input)[..|b|]
      ensures input == old(input)[|b|..]
      ensures short == old(short) + if |b| < n then 1 else 0
    {
      var k: int := *;
      if k < 0 || Min(n, |input|) < k {
        k := Min(n, |input|);
      }
      b := input[..k];
      input := input[|b|..];
      short := short + if |b| < n then 1 else 0;
    }

    /** send: any prefix may go out; -1 is an error with nothing sent. */
    method Send(b: seq<byte>) returns (sent: int)
      modifies this`output, this`cut
      ensures -1 <= sent <= |b|
      ensures cut == old(cut) + if sent < |b| then 1 else 0
      ensures output == old(output) + if sent < 0 then [] else b[..sent]
    {
      sent := *;
      if sent < 0 || |b| < sent {
        sent := -1;
      } else {
        output := output + b[..sent];
      }
      cut := cut + if sent < |b| then 1 else 0;
    }
  }

  /** What is left of an input after its front has been taken. */
  ghost predicate Rest(left: seq<byte>, input: seq<byte>) {
    |left| <= |input| && left == input[|input| - |left|..]
  }

  lemma RestThen(a: seq<byte>, b: seq<byte>, c: seq<byte>)
    requires Rest(a, b) && Rest(b, c)
    ensures Rest(a, c)
  {
  }

  /** The whole wire went out, or on failure some beginning of it. */
  ghost predicate Went(ok: bool, before: seq<byte>, after: seq<byte>, wire: seq<byte>) {
    if ok then after == before + wire else before <= after <= before + wire
  }

  lemma PartSent(before: seq<byte>, piece: seq<byte>, rest: seq<byte>, sent: int)
    requires piece <= rest && sent <= |piece|
    ensures before <= before + (if sent < 0 then [] else piece[..sent]) <= before + rest
  {
  }
}
