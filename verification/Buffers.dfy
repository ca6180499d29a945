/** Writing into a caller's byte buffer at a position. */
module Buffers {
  import opened Bytes

  /** The contents now differ from was by b at pos. */
  ghost predicate Over(was: seq<byte>, now: seq<byte>, pos: nat, b: seq<byte>) {
    && pos + |b| <= |now| == |was|
    && now[pos..pos + |b|] == b
    && forall i :: 0 <= i < pos || pos + |b| <= i < |now| ==> now[i] == was[i]
  }

  /** Bytes placed at pos; everything else keeps its value. */
  twostate predicate Placed(buf: array<byte>, pos: nat, b: seq<byte>)
    reads buf
  {
    Over(old(buf[..]), buf[..], pos, b)
  }

  /** memcpy into the buffer. */
  method PutBytes(buf: array<byte>, pos: nat, b: seq<byte>)
    requires pos + |b| <= buf.Length
    modifies buf
    ensures Placed(buf, pos, b)
  {
    forall i | 0 <= i < |b| {
      buf[pos + i] := b[i];
    }
  }

  /** Pieces placed one behind the other. */
  lemma OverThen(a: seq<byte>, b: seq<byte>, c: seq<byte>, pos: nat, first: seq<byte>, second: seq<byte>)
    requires Over(a, b, pos, first) && Over(b, c, pos + |first|, second)
    ensures Over(a, c, pos, first + second)
  {
    var mid, end := pos + |first|, pos + |first| + |second|;
    assert forall i :: pos <= i < mid ==> c[i] == b[i] == b[pos..mid][i - pos];
    assert c[pos..mid] == first;
    assert c[pos..end] == c[pos..mid] + c[mid..end];
  }
}
