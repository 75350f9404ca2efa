/** Byte strings: the source keeps text, frames and samples alike in buffers of octets. */
module Bytes {
  type byte = b: int | 0 <= b < 256
  type bytes = seq<byte>

  /** The bytes of a text in ASCII. */
  function Ascii(s: string): bytes {
    seq(|s|, i requires 0 <= i < |s| => s[i] as int % 256)
  }

  datatype Option<+T> = None | Some(value: T)

  /** `s` is what `t` holds from position `p` on. */
  ghost predicate At(t: bytes, p: nat, s: bytes) {
    p + |s| <= |t| && t[p..p + |s|] == s
  }

  lemma AtSplit(t: bytes, p: nat, a: bytes, b: bytes)
    requires At(t, p, a + b)
    ensures At(t, p, a) && At(t, p + |a|, b)
  {
    assert t[p..p + |a|] == t[p..p + |a + b|][..|a|] == a;
    assert t[p + |a|..p + |a| + |b|] == t[p..p + |a + b|][|a|..] == b;
  }

  lemma AtIndex(t: bytes, p: nat, s: bytes, i: nat)
    requires At(t, p, s) && i < |s|
    ensures p + |s| <= |t| && t[p + i] == s[i]
  {
    assert t[p..p + |s|][i] == t[p + i];
  }

  lemma Joined<T>(a: seq<T>, b: seq<T>, c: seq<T>)
    ensures a + b + c == a + (b + c)
  {
  }
}
