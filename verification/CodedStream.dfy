/**
 Length-delimited framing: Base 128 Varints as in the Protocol Buffers encoding
 specification, and the read cursor with a nested limit that the recording reader uses.
 */
module CodedStream {
  import opened Bytes

  /** Positions and limits are C++ `int`s; this value stands for "no limit". */
  const NO_LIMIT: int := 0x7FFF_FFFF
  const MAX_VARINT_BYTES: nat := 10

  // ----- writing

  function EncodeVarint(n: nat): (s: seq<byte>)
    ensures |s| > 0
  {
    if n < 128 then [n] else [128 + n % 128] + EncodeVarint(n / 128)
  }

  /** One length-delimited record. */
  function Delimited(payload: seq<byte>): (s: seq<byte>)
    ensures |s| > |payload|
  {
    EncodeVarint(|payload|) + payload
  }

  function DelimitedAll(payloads: seq<seq<byte>>): seq<byte> {
    if payloads == [] then [] else DelimitedAll(payloads[..|payloads| - 1]) + Delimited(payloads[|payloads| - 1])
  }

  // ----- reading

  datatype Cursor = Cursor(pos: nat, limit: int)

  /** Value (all septets, not yet truncated) and number of octets consumed; None when the input
      ends, or ten octets pass, before the last septet. */
  function VarintFrom(s: seq<byte>, room: nat): (r: (Option<nat>, nat))
    ensures r.1 <= |s| && r.1 <= room
    decreases room
  {
    if s == [] || room == 0 then (None, 0)
    else if s[0] < 128 then (Some(s[0]), 1)
    else
      var (rest, used) := VarintFrom(s[1..], room - 1);
      (if rest.None? then None else Some(s[0] - 128 + 128 * rest.value), used + 1)
  }

  /** Where reading must stop: the limit or the end of the data. */
  function End(data: seq<byte>, c: Cursor): int {
    if c.limit < |data| then c.limit else |data|
  }

  function Visible(data: seq<byte>, c: Cursor): seq<byte> {
    if c.pos <= End(data, c) then data[c.pos..End(data, c)] else []
  }

  function ReadVarint32(data: seq<byte>, c: Cursor): (Option<uint32>, Cursor) {
    var (v, used) := VarintFrom(Visible(data, c), MAX_VARINT_BYTES);
    (if v.None? then None else Some(v.value % TWO_32), c.(pos := c.pos + used))
  }

  /** A limit is only ever tightened, and only by a value that fits an `int`. */
  function PushLimit(c: Cursor, length: uint32): Cursor {
    if length <= NO_LIMIT && length <= NO_LIMIT - c.pos && length < c.limit - c.pos
    then c.(limit := c.pos + length)
    else c
  }

  /** A failed length read pushes the limit zero. */
  function ReadLengthAndPushLimit(data: seq<byte>, c: Cursor): Cursor {
    var (v, c') := ReadVarint32(data, c);
    PushLimit(c', if v.None? then 0 else v.value)
  }

  function BytesUntilLimit(c: Cursor): int {
    if c.limit == NO_LIMIT then -1 else c.limit - c.pos
  }

  function Skip(data: seq<byte>, c: Cursor, count: nat): Cursor {
    if c.pos + count <= End(data, c) then c.(pos := c.pos + count)
    else if c.pos <= End(data, c) then c.(pos := End(data, c))
    else c
  }

  // ----- lemmas

  lemma {:induction false} VarintRoundTrip(n: nat, rest: seq<byte>, room: nat)
    requires |EncodeVarint(n)| <= room
    ensures VarintFrom(EncodeVarint(n) + rest, room) == (Some(n), |EncodeVarint(n)|)
    decreases n
  {
    var s := EncodeVarint(n) + rest;
    if n >= 128 {
      assert s[0] == 128 + n % 128;
      assert s[1..] == EncodeVarint(n / 128) + rest;
      VarintRoundTrip(n / 128, rest, room - 1);
    } else {
      assert s[0] == n;
    }
  }

  lemma {:induction false} VarintLength(n: nat, bound: nat, octets: nat)
    requires n < bound == Power128(octets) && octets > 0
    ensures |EncodeVarint(n)| <= octets
    decreases octets
  {
    if n >= 128 {
      VarintLength(n / 128, bound / 128, octets - 1);
    }
  }

  lemma PowerOfTen()
    ensures Power128(10) >= TWO_64
  {
    assert Power128(5) == 128 * 128 * 128 * 128 * 128 by {
      assert Power128(3) == 128 * 128 * 128;
    }
    assert Power128(7) == 128 * 128 * Power128(5);
    assert Power128(9) == 128 * 128 * Power128(7);
  }

  function Power128(k: nat): nat {
    if k == 0 then 1 else 128 * Power128(k - 1)
  }

  lemma {:induction false} DelimitedAllConcat(a: seq<seq<byte>>, b: seq<seq<byte>>)
    ensures DelimitedAll(a + b) == DelimitedAll(a) + DelimitedAll(b)
    decreases |b|
  {
    if b == [] {
      assert a + b == a;
    } else {
      hide Delimited;
      var init, last := b[..|b| - 1], b[|b| - 1];
      assert (a + b)[..|a + b| - 1] == a + init && (a + b)[|a + b| - 1] == last;
      DelimitedAllConcat(a, init);
      Regroup(DelimitedAll(a), DelimitedAll(init), Delimited(last));
    }
  }

  lemma Regroup(a: seq<byte>, b: seq<byte>, c: seq<byte>)
    ensures (a + b) + c == a + (b + c)
  {
  }

  lemma ReadVarintAt(data: seq<byte>, at: nat, n: nat, rest: seq<byte>)
    requires at <= |data| < NO_LIMIT
    requires data[at..] == EncodeVarint(n) + rest
    requires n < TWO_32
    ensures ReadVarint32(data, Cursor(at, NO_LIMIT)) == (Some(n), Cursor(at + |EncodeVarint(n)|, NO_LIMIT))
  {
    hide Power128, EncodeVarint, VarintFrom;
    var c := Cursor(at, NO_LIMIT);
    PowerOfTen();
    VarintLength(n, Power128(10), 10);
    VarintRoundTrip(n, rest, MAX_VARINT_BYTES);
    assert Visible(data, c) == data[at..];
  }

  /** Reading a length at the start of a record puts the limit exactly at the record's end. */
  lemma ReadLengthAt(pre: seq<byte>, payload: seq<byte>, post: seq<byte>, data: seq<byte>)
    requires data == pre + Delimited(payload) + post
    requires |data| < NO_LIMIT
    ensures var at := |pre| + |EncodeVarint(|payload|)|;
            && ReadLengthAndPushLimit(data, Cursor(|pre|, NO_LIMIT)) == Cursor(at, at + |payload|)
            && at + |payload| == |pre + Delimited(payload)|
            && data[at..at + |payload|] == payload
  {
    var head := EncodeVarint(|payload|);
    var at := |pre| + |head|;
    assert Delimited(payload) == head + payload;
    assert data == pre + head + payload + post;
    assert data[|pre|..] == head + (payload + post);
    assert |data| == at + |payload| + |post|;
    ReadVarintAt(data, |pre|, |payload|, payload + post);
    assert PushLimit(Cursor(at, NO_LIMIT), |payload|) == Cursor(at, at + |payload|);
  }

  /** At the end of the data a length read leaves a zero-width limit in place, again and again. */
  lemma ReadLengthAtEnd(data: seq<byte>, c: Cursor)
    requires c.pos == |data| < NO_LIMIT
    requires c.limit == NO_LIMIT || c.limit == c.pos
    ensures ReadLengthAndPushLimit(data, c) == Cursor(|data|, |data|)
  {
    assert Visible(data, c) == [];
  }

  // ----- the form of a varint

  /** The value of septets, the least significant first. */
  function SeptetValue(s: seq<byte>): nat {
    if s == [] then 0 else s[0] % 128 + 128 * SeptetValue(s[1..])
  }

  /** A varint is the number in base 128, the least significant septet first; every octet but the last has its
      top bit set, and no shorter one has the same value. */
  lemma {:induction false} VarintForm(n: nat)
    ensures var s := EncodeVarint(n);
            && SeptetValue(s) == n
            && (forall i :: 0 <= i < |s| - 1 ==> s[i] >= 128)
            && s[|s| - 1] < 128 && (|s| > 1 ==> s[|s| - 1] != 0)
    decreases n
  {
    var s := EncodeVarint(n);
    if n < 128 {
      assert s[1..] == [];
    } else {
      VarintForm(n / 128);
      assert s[1..] == EncodeVarint(n / 128);
    }
  }
}
