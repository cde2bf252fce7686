/** Octets, machine-width integers and the byte orders used on the wire. */
module Bytes {
  const TWO_8: int := 0x100
  const TWO_16: int := 0x1_0000
  const TWO_32: int := 0x1_0000_0000
  const TWO_64: int := 0x1_0000_0000_0000_0000

  type byte = x: int | 0 <= x < TWO_8
  type uint16 = x: int | 0 <= x < TWO_16
  type uint32 = x: int | 0 <= x < TWO_32
  type uint64 = x: int | 0 <= x < TWO_64

  /** Unsigned 64-bit wrap-around. */
  function Wrap64(n: nat): uint64 {
    n % TWO_64
  }

  lemma Wrap64Add(a: nat, b: nat)
    ensures Wrap64(Wrap64(a) + b) == Wrap64(a + b)
  {
  }

  lemma Wrap64Identity(n: nat)
    ensures Wrap64(n) == n <==> n < TWO_64
  {
  }

  /** The low 16 bits. */
  function Low16(n: nat): uint16 {
    n % TWO_16
  }

  function Sum(xs: seq<nat>): nat {
    if xs == [] then 0 else Sum(xs[..|xs| - 1]) + xs[|xs| - 1]
  }

  /** `resize` on a vector: keeps what is already there and adds blanks. */
  function Resized<T>(s: seq<T>, n: nat, blank: T): (r: seq<T>)
    ensures |r| == n
  {
    seq(n, i requires 0 <= i < n => if i < |s| then s[i] else blank)
  }

  datatype Option<+T> = None | Some(value: T)

  /** Big-endian 16-bit value of two octets (`ntohs` on a little-endian host). */
  function Be16(b0: byte, b1: byte): uint16 {
    b0 * 0x100 + b1
  }

  /** The `i`-th 32-bit word of an array of big-endian words (`be32toh(((uint32_t*)p)[i])`). */
  function Be32At(s: seq<byte>, i: nat): uint32
    requires 4 * i + 4 <= |s|
  {
    var b0: int, b1: int, b2: int := s[4 * i], s[4 * i + 1], s[4 * i + 2];
    b0 * 0x100_0000 + b1 * 0x1_0000 + b2 * 0x100 + s[4 * i + 3]
  }

  /** The `i`-th 64-bit word of an array of big-endian words. */
  function Be64At(s: seq<byte>, i: nat): uint64
    requires 8 * i + 8 <= |s|
  {
    Be32At(s, 2 * i) * TWO_32 + Be32At(s, 2 * i + 1)
  }

  // ----- writing words, most significant octet first

  function Be32Octets(v: uint32): (s: seq<byte>)
    ensures |s| == 4
  {
    [v / 0x100_0000, v / 0x1_0000 % 0x100, v / 0x100 % 0x100, v % 0x100]
  }

  function Be64Octets(v: uint64): (s: seq<byte>)
    ensures |s| == 8
  {
    Be32Octets(v / 0x1_0000_0000) + Be32Octets(v % 0x1_0000_0000)
  }

  function Be32All(vs: seq<uint32>): (s: seq<byte>)
    ensures |s| == 4 * |vs|
  {
    if vs == [] then [] else Be32All(vs[..|vs| - 1]) + Be32Octets(vs[|vs| - 1])
  }

  function Be64All(vs: seq<uint64>): (s: seq<byte>)
    ensures |s| == 8 * |vs|
  {
    if vs == [] then [] else Be64All(vs[..|vs| - 1]) + Be64Octets(vs[|vs| - 1])
  }

  lemma Be32Value(v: uint32)
    ensures Be32At(Be32Octets(v), 0) == v
  {
    var a := v / 0x100;
    Halved(v, 0x100, 0x100);
    Halved(v, 0x100, 0x1_0000);
    Halved(a, 0x100, 0x100);
  }

  /** Dividing twice is dividing by the product, and a remainder is what division leaves. */
  lemma Halved(v: nat, a: nat, b: nat)
    requires a == 0x100 && (b == 0x100 || b == 0x1_0000)
    ensures v / a / b == v / (a * b)
    ensures v == v / a * a + v % a && v / a == v / a / b * b + v / a % b
  {
  }

  lemma SameWord(s: seq<byte>, i: nat, t: seq<byte>, j: nat)
    requires 4 * i + 4 <= |s| && 4 * j + 4 <= |t| && s[4 * i..4 * i + 4] == t[4 * j..4 * j + 4]
    ensures Be32At(s, i) == Be32At(t, j)
  {
    var w, x := s[4 * i..4 * i + 4], t[4 * j..4 * j + 4];
    assert w[0] == s[4 * i] && w[1] == s[4 * i + 1] && w[2] == s[4 * i + 2] && w[3] == s[4 * i + 3];
    assert x[0] == t[4 * j] && x[1] == t[4 * j + 1] && x[2] == t[4 * j + 2] && x[3] == t[4 * j + 3];
  }

  lemma SameWords(s: seq<byte>, i: nat, t: seq<byte>, j: nat)
    requires 8 * i + 8 <= |s| && 8 * j + 8 <= |t| && s[8 * i..8 * i + 8] == t[8 * j..8 * j + 8]
    ensures Be64At(s, i) == Be64At(t, j)
  {
    hide Be32At;
    var w, x := s[8 * i..8 * i + 8], t[8 * j..8 * j + 8];
    assert w[..4] == s[4 * (2 * i)..4 * (2 * i) + 4] && w[4..] == s[4 * (2 * i + 1)..4 * (2 * i + 1) + 4];
    assert x[..4] == t[4 * (2 * j)..4 * (2 * j) + 4] && x[4..] == t[4 * (2 * j + 1)..4 * (2 * j + 1) + 4];
    SameWord(s, 2 * i, t, 2 * j);
    SameWord(s, 2 * i + 1, t, 2 * j + 1);
  }

  /** Every word of an array written most significant octet first reads back. */
  lemma {:induction false} Be32RoundTrip(vs: seq<uint32>, i: nat)
    requires i < |vs|
    ensures Be32At(Be32All(vs), i) == vs[i]
    decreases |vs|
  {
    var init := vs[..|vs| - 1];
    if i < |init| {
      Be32RoundTrip(init, i);
      assert Be32All(vs)[4 * i..4 * i + 4] == Be32All(init)[4 * i..4 * i + 4];
      SameWord(Be32All(vs), i, Be32All(init), i);
    } else {
      hide Be32Octets;
      Be32Value(vs[i]);
      assert Be32All(vs)[4 * i..4 * i + 4] == Be32Octets(vs[i])[0..4];
      SameWord(Be32All(vs), i, Be32Octets(vs[i]), 0);
    }
  }

  lemma Be64Value(v: uint64)
    ensures Be64At(Be64Octets(v), 0) == v
  {
    hide Be32Octets;
    var high, low := v / 0x1_0000_0000, v % 0x1_0000_0000;
    Be32Value(high);
    Be32Value(low);
    var s := Be64Octets(v);
    assert s[0..4] == Be32Octets(high)[0..4] && s[4..8] == Be32Octets(low)[0..4];
    SameWord(s, 0, Be32Octets(high), 0);
    SameWord(s, 1, Be32Octets(low), 0);
  }

  lemma {:induction false} Be64RoundTrip(vs: seq<uint64>, i: nat)
    requires i < |vs|
    ensures Be64At(Be64All(vs), i) == vs[i]
    decreases |vs|
  {
    hide Be64Octets;
    var init := vs[..|vs| - 1];
    if i < |init| {
      Be64RoundTrip(init, i);
      assert Be64All(vs)[8 * i..8 * i + 8] == Be64All(init)[8 * i..8 * i + 8];
      SameWords(Be64All(vs), i, Be64All(init), i);
    } else {
      Be64Value(vs[i]);
      assert Be64All(vs)[8 * i..8 * i + 8] == Be64Octets(vs[i])[0..8];
      SameWords(Be64All(vs), i, Be64Octets(vs[i]), 0);
    }
  }
}
