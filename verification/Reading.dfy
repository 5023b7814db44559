/** Reading octets at a position of a stream. */
module Reading {
  import opened Bytes
  import opened Wrappers

  /** `n` octets of a stream from `pos`, if there are that many. */
  function Take(src: bytes, pos: nat, n: nat): (r: Option<bytes>)
    ensures r.Some? ==> pos + n <= |src| && |r.value| == n
  {
    if pos + n <= |src| then Some(src[pos..pos + n]) else None
  }

  /** Something read, and the position after it. */
  datatype Read<+T> = Read(value: T, pos: nat)

  lemma SliceAt(src: bytes, pos: nat, a: bytes, b: bytes)
    requires pos + |a + b| <= |src| && src[pos..pos + |a + b|] == a + b
    ensures src[pos..pos + |a|] == a && src[pos + |a|..pos + |a| + |b|] == b
  {
    assert src[pos..pos + |a|] == src[pos..pos + |a + b|][..|a|];
    assert src[pos + |a|..pos + |a| + |b|] == src[pos..pos + |a + b|][|a|..];
  }

  /** `e` stands at `pos`. */
  ghost predicate Stands(src: bytes, pos: nat, e: bytes) {
    pos + |e| <= |src| && src[pos..pos + |e|] == e
  }

  lemma StandsApart(src: bytes, pos: nat, a: bytes, b: bytes)
    requires Stands(src, pos, a + b)
    ensures Stands(src, pos, a) && Stands(src, pos + |a|, b) && |a + b| == |a| + |b|
  {
    SliceAt(src, pos, a, b);
  }

  lemma InRange(src: bytes, pos: nat, e: bytes)
    requires Stands(src, pos, e)
    ensures pos + |e| <= |src| && src[pos..pos + |e|] == e
  {}
}
