/** Bytes, texts and machine-word limits shared by every other module. */
module Bytes {
  type byte = x: int | 0 <= x < 256

  /** A `std::string_view` or a span of bytes, by value. */
  type Text = seq<byte>

  const U32_LIMIT: nat := 0x1_0000_0000
  const U64_LIMIT: nat := 0x1_0000_0000_0000_0000

  datatype Option<+T> = None | Some(value: T)

  function Min(a: nat, b: nat): nat {
    if a <= b then a else b
  }

  function Max(a: nat, b: nat): nat {
    if a <= b then b else a
  }

  /** The bytes of an ASCII literal. */
  function Ascii(s: string): Text {
    seq(|s|, i requires 0 <= i < |s| => s[i] as int % 256)
  }

  lemma ConcatAssociative<T>(a: seq<T>, b: seq<T>, c: seq<T>)
    ensures (a + b) + c == a + (b + c)
  {}

  lemma PrefixCancel<T>(a: seq<T>, b: seq<T>, c: seq<T>)
    requires a + b <= a + c
    ensures b <= c
  {
    var n := |a| + |b|;
    assert b == (a + b)[|a|..] && (a + c)[..n] == a + b;
    assert (a + c)[..n][|a|..] == c[..|b|];
  }

  /** A slice of a concatenation that lies in one of its parts is a slice of that part. */
  lemma SlicesOfConcat<T>(a: seq<T>, b: seq<T>, from: nat, to: nat)
    requires from <= to <= |a|
    ensures (a + b)[from..to] == a[from..to]
    ensures (a + b)[|a|..|a| + |b|] == b
  {}
}
