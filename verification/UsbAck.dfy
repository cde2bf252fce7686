/**
 The acknowledge frames of the thermal camera's serial port:
 marker, length, command, data, checksum, with resynchronisation on four-octet chunks.
 */
module UsbAck {
  import opened Bytes

  const MARKER: seq<byte> := [0x20, 0x20, 0x20, 0x23]
  const CHUNK: nat := 4
  const USB_ACK_LEN: nat := 4
  const USB_CMD_LEN: nat := 4
  const USB_CKS_LEN: nat := 4

  // ----- checksum

  method Cksum(data: seq<byte>, init: nat) returns (sum: nat)
    ensures sum == init + Sum(data)
  {
    sum := init;
    for i := 0 to |data|
      invariant sum == init + Sum(data[..i])
    {
      assert data[..i + 1][..i] == data[..i];
      sum := sum + data[i];
    }
    assert data[..|data|] == data;
  }

  lemma {:induction false} SumConcat(a: seq<byte>, b: seq<byte>)
    ensures Sum(a + b) == Sum(a) + Sum(b)
    decreases |b|
  {
    if b == [] {
      assert a + b == a;
    } else {
      assert (a + b)[..|a + b| - 1] == a + b[..|b| - 1];
      SumConcat(a, b[..|b| - 1]);
    }
  }

  function Checksum(len: seq<byte>, cmd: seq<byte>, data: seq<byte>): nat {
    Low16(Sum(len) + Sum(cmd) + Sum(data))
  }

  /** The share of command and data in the checksum. */
  function PayloadSum(cmd: seq<byte>, data: seq<byte>): nat {
    Low16(Sum(cmd) + Sum(data))
  }

  // ----- hexadecimal fields

  function HexDigit(b: byte): Option<nat> {
    if 48 <= b <= 57 then Some(b - 48)
    else if 65 <= b <= 70 then Some(b - 55)
    else if 97 <= b <= 102 then Some(b - 87)
    else None
  }

  predicate IsHex4(s: seq<byte>) {
    |s| == 4 && forall i :: 0 <= i < 4 ==> HexDigit(s[i]).Some?
  }

  function HexValue(s: seq<byte>): (v: nat)
    requires IsHex4(s)
    ensures v < TWO_16
  {
    HexDigit(s[0]).value * 4096 + HexDigit(s[1]).value * 256 + HexDigit(s[2]).value * 16 + HexDigit(s[3]).value
  }

  const DIGITS := "0123456789ABCDEF"
  const SMALL_DIGITS := "0123456789abcdef"

  function Digit(d: nat, digits: string): (b: byte)
    requires d < 16 && (digits == DIGITS || digits == SMALL_DIGITS)
    ensures HexDigit(b) == Some(d)
  {
    digits[d] as int
  }

  /** A number below 2^16 as four hexadecimal digits, the most significant first. */
  function Hex4(v: uint16, digits: string): (s: seq<byte>)
    requires digits == DIGITS || digits == SMALL_DIGITS
    ensures |s| == 4
  {
    [Digit(v / 0x1000, digits), Digit(v / 0x100 % 0x10, digits), Digit(v / 0x10 % 0x10, digits),
     Digit(v % 0x10, digits)]
  }

  lemma Nibbles(v: uint16)
    ensures v / 0x1000 < 16
    ensures v / 0x1000 * 4096 + v / 0x100 % 0x10 * 256 + v / 0x10 % 0x10 * 16 + v % 0x10 == v
  {
    var a, b := v / 0x10, v / 0x100;
    assert v == a * 0x10 + v % 0x10;
    assert a == b * 0x10 + a % 0x10 && b == a / 0x10;
    assert b == v / 0x1000 * 0x10 + b % 0x10;
  }

  /** The value of a field is the number whose digits it shows, in either case. */
  lemma HexRoundTrip(v: uint16, digits: string)
    requires digits == DIGITS || digits == SMALL_DIGITS
    ensures IsHex4(Hex4(v, digits)) && HexValue(Hex4(v, digits)) == v
  {
    hide HexDigit, Digit;
    Nibbles(v);
  }

  /** `int(text.decode(), base=16)` on a length field, `int(text, base=16)` on a checksum field, and
      `text.decode()`; None where they raise. What `int` does with signs, blanks and the like is left open,
      and so is decoding beyond ASCII. */
  datatype Python = Python(
    parseLength: seq<byte> -> Option<int>, parseChecksum: seq<byte> -> Option<int>,
    decode: seq<byte> -> Option<string>)

  ghost predicate ParsesHex(py: Python) {
    forall s :: IsHex4(s) ==> py.parseLength(s) == Some(HexValue(s)) && py.parseChecksum(s) == Some(HexValue(s))
  }

  // ----- the reader

  /** `port.read(size)`: fewer octets only where the input ends, none for a size below one. */
  function ReadFrom(input: seq<byte>, pos: nat, size: int): seq<byte>
    requires pos <= |input|
  {
    if size <= 0 then [] else if pos + size <= |input| then input[pos..pos + size] else input[pos..]
  }

  /** Blocked: the input has ended without a marker, and the loop keeps waiting. */
  datatype Ack = Acked(cmd: seq<byte>, data: seq<byte>) | NoAck | Blocked

  function AfterMarker(input: seq<byte>, pos: nat): (r: Option<nat>)
    requires pos <= |input|
    ensures r.Some? ==> pos < r.value <= |input|
    decreases |input| - pos
  {
    var res := ReadFrom(input, pos, CHUNK);
    if res == MARKER then Some(pos + CHUNK)
    else if res == [] then None
    else AfterMarker(input, pos + |res|)
  }

  function GetAck(py: Python, input: seq<byte>, pos: nat): (r: (Ack, nat))
    requires pos <= |input|
    ensures r.1 <= |input|
  {
    var start := AfterMarker(input, pos);
    if start.None? then (Blocked, |input|) else Body(py, input, start.value)
  }

  /** Everything after the marker. */
  function Body(py: Python, input: seq<byte>, pos: nat): (r: (Ack, nat))
    requires pos <= |input|
    ensures r.1 <= |input|
  {
    var len := ReadFrom(input, pos, USB_ACK_LEN);
    var ackLen := py.parseLength(len);
    if ackLen.None? then (NoAck, pos + |len|)
    else
      var cmd := ReadFrom(input, pos + |len|, USB_CMD_LEN);
      var data := ReadFrom(input, pos + |len| + |cmd|, ackLen.value - USB_ACK_LEN - USB_CMD_LEN);
      var cks := ReadFrom(input, pos + |len| + |cmd| + |data|, USB_CKS_LEN);
      var end := pos + |len| + |cmd| + |data| + |cks|;
      if py.parseChecksum(cks) == Some(Checksum(len, cmd, data)) then (Acked(cmd, data), end) else (NoAck, end)
  }

  class Port {
    const input: seq<byte>
    var pos: nat

    ghost predicate Valid()
      reads this
    {
      pos <= |input|
    }

    constructor (input: seq<byte>)
      ensures Valid() && this.input == input && pos == 0
    {
      this.input := input;
      pos := 0;
    }

    method Read(size: int) returns (r: seq<byte>)
      requires Valid()
      modifies this
      ensures Valid() && r == ReadFrom(input, old(pos), size) && pos == old(pos) + |r|
    {
      r := ReadFrom(input, pos, size);
      pos := pos + |r|;
    }
  }

  method UsbGetAck(py: Python, port: Port) returns (ack: Ack)
    requires port.Valid()
    modifies port
    ensures port.Valid() && (ack, port.pos) == GetAck(py, port.input, old(port.pos))
  {
    hide Body;
    var res := [];
    while res != MARKER
      invariant port.Valid()
      invariant if res == MARKER then AfterMarker(port.input, old(port.pos)) == Some(port.pos)
                else AfterMarker(port.input, old(port.pos)) == AfterMarker(port.input, port.pos)
      decreases |port.input| - port.pos, if res == MARKER then 0 else 1
    {
      res := port.Read(CHUNK);
      if res == [] {
        return Blocked;
      }
    }

    ack := UsbReadBody(py, port);
  }

  lemma EmptySum()
    ensures Sum([]) == 0
  {
  }

  lemma NothingRead(input: seq<byte>, pos: nat, size: int)
    requires pos <= |input| && size <= 0
    ensures ReadFrom(input, pos, size) == []
  {
  }

  /** The rest of the call, once the marker has been seen. */
  method UsbReadBody(py: Python, port: Port) returns (ack: Ack)
    requires port.Valid()
    modifies port
    ensures port.Valid() && (ack, port.pos) == Body(py, port.input, old(port.pos))
  {
    hide ReadFrom, Low16, Sum;
    EmptySum();
    var len := port.Read(USB_ACK_LEN);
    var cs := Cksum(len, 0);
    var ackLen := py.parseLength(len);
    if ackLen.None? {
      return NoAck;
    }
    var dataLen := ackLen.value - USB_ACK_LEN - USB_CMD_LEN;
    var cmd := port.Read(USB_CMD_LEN);
    cs := Cksum(cmd, cs);
    assert cs == Sum(len) + Sum(cmd);
    if dataLen <= 0 {
      NothingRead(port.input, port.pos, dataLen);
    }
    var data := port.Read(dataLen);
    if dataLen > 0 {
      cs := Cksum(data, cs);
    }
    cs := Low16(cs);
    var cks := port.Read(USB_CKS_LEN);
    var received := py.parseChecksum(cks);
    if received.None? {
      return NoAck;
    }
    assert cs == Checksum(len, cmd, data);
    if cs != received.value {
      return NoAck;
    }
    ack := Acked(cmd, data);
  }

  // ----- frames

  /** The octets after the marker, followed by whatever comes next. */
  function Fields(len: seq<byte>, cmd: seq<byte>, data: seq<byte>, cks: seq<byte>, rest: seq<byte>): seq<byte> {
    len + (cmd + (data + (cks + rest)))
  }

  /** The number in the last field is the octet sum of everything between marker and checksum. */
  predicate SumsUp(len: seq<byte>, cmd: seq<byte>, data: seq<byte>, cks: seq<byte>)
    requires IsHex4(cks)
  {
    HexValue(cks) == Sum(len + cmd + data) % 0x1_0000
  }

  lemma SumsUpIff(len: seq<byte>, cmd: seq<byte>, data: seq<byte>, cks: seq<byte>)
    requires IsHex4(cks)
    ensures SumsUp(len, cmd, data, cks) <==> HexValue(cks) == Checksum(len, cmd, data)
  {
    hide Sum, HexValue, IsHex4;
    SumConcat(len + cmd, data);
    SumConcat(len, cmd);
  }

  ghost predicate IsFrame(f: seq<byte>, cmd: seq<byte>, data: seq<byte>) {
    exists len, cks :: f == MARKER + Fields(len, cmd, data, cks, []) && FieldsFit(len, cmd, data, cks)
                       && SumsUp(len, cmd, data, cks)
  }

  predicate FieldsFit(len: seq<byte>, cmd: seq<byte>, data: seq<byte>, cks: seq<byte>) {
    IsHex4(len) && IsHex4(cks) && |cmd| == USB_CMD_LEN && HexValue(len) == |data| + USB_ACK_LEN + USB_CMD_LEN
  }

  /** Four-octet chunks, none of them the marker. */
  ghost predicate IsNoise(s: seq<byte>) {
    |s| % CHUNK == 0 && forall i :: 0 <= i < |s| / CHUNK ==> s[CHUNK * i..CHUNK * i + CHUNK] != MARKER
  }

  /** Reading the first piece of what is left. */
  lemma Peel(input: seq<byte>, pos: nat, piece: seq<byte>, rest: seq<byte>)
    requires pos <= |input| && input[pos..] == piece + rest
    ensures pos + |piece| <= |input|
    ensures ReadFrom(input, pos, |piece|) == piece
    ensures input[pos + |piece|..] == rest
  {
    var s := input[pos..];
    assert input[pos..pos + |piece|] == s[..|piece|] == piece;
    assert input[pos + |piece|..] == s[|piece|..] == rest;
  }

  lemma FieldsRead(input: seq<byte>, pos: nat, len: seq<byte>, cmd: seq<byte>, data: seq<byte>, cks: seq<byte>,
                   rest: seq<byte>)
    requires pos <= |input| && input[pos..] == Fields(len, cmd, data, cks, rest)
    ensures pos + |len| + |cmd| + |data| + |cks| <= |input|
    ensures ReadFrom(input, pos, |len|) == len
    ensures ReadFrom(input, pos + |len|, |cmd|) == cmd
    ensures ReadFrom(input, pos + |len| + |cmd|, |data|) == data
    ensures ReadFrom(input, pos + |len| + |cmd| + |data|, |cks|) == cks
  {
    hide ReadFrom;
    Peel(input, pos, len, cmd + (data + (cks + rest)));
    Peel(input, pos + |len|, cmd, data + (cks + rest));
    Peel(input, pos + |len| + |cmd|, data, cks + rest);
    Peel(input, pos + |len| + |cmd| + |data|, cks, rest);
  }

  lemma FieldsParse(py: Python, len: seq<byte>, cmd: seq<byte>, data: seq<byte>, cks: seq<byte>)
    requires ParsesHex(py) && FieldsFit(len, cmd, data, cks)
    ensures |len| == USB_ACK_LEN && |cmd| == USB_CMD_LEN && |cks| == USB_CKS_LEN
    ensures py.parseLength(len) == Some(|data| + USB_ACK_LEN + USB_CMD_LEN)
    ensures py.parseChecksum(cks) == Some(HexValue(cks))
  {
    hide HexValue;
  }

  /** Reading a message of the right shape, whatever its checksum says. */
  lemma ReadMessage(py: Python, input: seq<byte>, pos: nat, len: seq<byte>, cmd: seq<byte>, data: seq<byte>,
                    cks: seq<byte>, rest: seq<byte>)
    requires ParsesHex(py) && pos <= |input| && FieldsFit(len, cmd, data, cks)
    requires input[pos..] == Fields(len, cmd, data, cks, rest)
    ensures Body(py, input, pos) ==
              (if SumsUp(len, cmd, data, cks) then Acked(cmd, data) else NoAck, pos + |len| + |cmd| + |data| + |cks|)
  {
    hide Sum, HexValue, IsHex4, Low16, ReadFrom, Fields, ParsesHex, FieldsFit, SumsUp, Checksum;
    assert IsHex4(cks) by { FieldsAreHex(len, cmd, data, cks); }
    SumsUpIff(len, cmd, data, cks);
    FieldsParse(py, len, cmd, data, cks);
    FieldsRead(input, pos, len, cmd, data, cks, rest);
  }

  lemma FieldsAreHex(len: seq<byte>, cmd: seq<byte>, data: seq<byte>, cks: seq<byte>)
    requires FieldsFit(len, cmd, data, cks)
    ensures IsHex4(len) && IsHex4(cks)
  {
  }

  /** Noise is skipped chunk by chunk up to the marker. */
  lemma {:induction false} SkipNoise(input: seq<byte>, pos: nat, noise: seq<byte>, rest: seq<byte>)
    requires pos <= |input| && IsNoise(noise) && input[pos..] == noise + (MARKER + rest)
    ensures AfterMarker(input, pos) == Some(pos + |noise| + CHUNK)
    ensures input[pos + |noise| + CHUNK..] == rest
    decreases |noise|
  {
    hide ReadFrom;
    if noise == [] {
      assert noise + (MARKER + rest) == MARKER + rest;
      Peel(input, pos, MARKER, rest);
    } else {
      var chunk, others := noise[..CHUNK], noise[CHUNK..];
      assert noise + (MARKER + rest) == chunk + (others + (MARKER + rest));
      Peel(input, pos, chunk, others + (MARKER + rest));
      assert noise[CHUNK * 0..CHUNK * 0 + CHUNK] == chunk;
      NoiseTail(noise);
      SkipNoise(input, pos + CHUNK, others, rest);
    }
  }

  lemma NothingIsNoise()
    ensures IsNoise([])
  {
  }

  lemma NoiseTail(noise: seq<byte>)
    requires IsNoise(noise) && noise != []
    ensures IsNoise(noise[CHUNK..])
  {
    var t := noise[CHUNK..];
    forall i | 0 <= i < |t| / CHUNK
      ensures t[CHUNK * i..CHUNK * i + CHUNK] != MARKER
    {
      assert 0 <= i + 1 < |noise| / CHUNK;
      assert t[CHUNK * i..CHUNK * i + CHUNK] == noise[CHUNK * (i + 1)..CHUNK * (i + 1) + CHUNK];
    }
  }

  // ----- a whole conversation

  datatype Segment = Segment(noise: seq<byte>, frame: seq<byte>, cmd: seq<byte>, data: seq<byte>)

  ghost predicate GoodSegment(s: Segment) {
    IsNoise(s.noise) && IsFrame(s.frame, s.cmd, s.data)
  }

  function Stream(ss: seq<Segment>): seq<byte> {
    if ss == [] then [] else ss[0].noise + ss[0].frame + Stream(ss[1..])
  }

  lemma MoreFields(len: seq<byte>, cmd: seq<byte>, data: seq<byte>, cks: seq<byte>, rest: seq<byte>)
    ensures MARKER + Fields(len, cmd, data, cks, []) + rest == MARKER + Fields(len, cmd, data, cks, rest)
    ensures |Fields(len, cmd, data, cks, [])| == |len| + |cmd| + |data| + |cks|
  {
    assert cks + [] + rest == cks + rest;
    assert data + (cks + []) + rest == data + (cks + rest);
    assert cmd + (data + (cks + [])) + rest == cmd + (data + (cks + rest));
    assert Fields(len, cmd, data, cks, []) + rest == Fields(len, cmd, data, cks, rest);
  }

  /** One call returns the next frame and stops at its end. */
  lemma GetsNextFrame(py: Python, input: seq<byte>, pos: nat, s: Segment, rest: seq<byte>)
    requires ParsesHex(py) && pos <= |input| && GoodSegment(s) && input[pos..] == s.noise + s.frame + rest
    ensures GetAck(py, input, pos) == (Acked(s.cmd, s.data), pos + |s.noise| + |s.frame|)
  {
    hide IsNoise, AfterMarker, Body, Sum, HexValue, SumsUp, Fields, ParsesHex;
    var len, cks :| s.frame == MARKER + Fields(len, s.cmd, s.data, cks, []) && FieldsFit(len, s.cmd, s.data, cks)
                    && SumsUp(len, s.cmd, s.data, cks);
    var body := Fields(len, s.cmd, s.data, cks, rest);
    MoreFields(len, s.cmd, s.data, cks, rest);
    assert s.noise + s.frame + rest == s.noise + (s.frame + rest);
    SkipNoise(input, pos, s.noise, body);
    ReadMessage(py, input, pos + |s.noise| + CHUNK, len, s.cmd, s.data, cks, rest);
  }

  function GetAcks(py: Python, input: seq<byte>, pos: nat, n: nat): seq<(Ack, nat)>
    requires pos <= |input|
    decreases n
  {
    if n == 0 then []
    else
      var r := GetAck(py, input, pos);
      [r] + GetAcks(py, input, r.1, n - 1)
  }

  /** Main result: on frames with aligned noise between them, successive calls return exactly the
      commands and data, in order, each stopping on its frame's end. */
  lemma {:induction false} GetsAllFrames(py: Python, input: seq<byte>, pos: nat, ss: seq<Segment>, k: nat)
    requires ParsesHex(py) && pos <= |input| && input[pos..] == Stream(ss)
    requires (forall i :: 0 <= i < |ss| ==> GoodSegment(ss[i])) && k < |ss|
    ensures var acks := GetAcks(py, input, pos, |ss|);
            |acks| == |ss| && acks[k] == (Acked(ss[k].cmd, ss[k].data), pos + |Stream(ss[..k + 1])|)
    decreases |ss|
  {
    hide GetAck, GoodSegment;
    var s := ss[0];
    GetsNextFrame(py, input, pos, s, Stream(ss[1..]));
    var next := pos + |s.noise| + |s.frame|;
    assert input[next..] == input[pos..][|s.noise| + |s.frame|..];
    assert input[next..] == Stream(ss[1..]);
    if |ss| > 1 {
      GetsAllFrames(py, input, next, ss[1..], if k > 0 then k - 1 else 0);
      assert ss[..k + 1][1..] == ss[1..][..k];
    }
    if k == 0 {
      assert ss[..1][1..] == [];
    }
  }

  /** Fewer than four octets left are no chunk. */
  lemma ShortChunk(input: seq<byte>, pos: nat)
    requires pos <= |input| < pos + CHUNK
    ensures AfterMarker(input, pos) == None
  {
    assert AfterMarker(input, |input|) == None;
  }

  lemma NextChunk(input: seq<byte>, pos: nat)
    requires pos + CHUNK <= |input|
    ensures var chunk := input[pos..pos + CHUNK];
            AfterMarker(input, pos) == if chunk == MARKER then Some(pos + CHUNK) else AfterMarker(input, pos + CHUNK)
  {
  }

  /** Where the marker is found, whole chunks were read and none of them was the marker. */
  lemma {:induction false} MarkerFoundAligned(input: seq<byte>, pos: nat)
    requires pos <= |input| && AfterMarker(input, pos).Some?
    ensures var p := AfterMarker(input, pos).value;
            && p - CHUNK >= pos && input[p - CHUNK..p] == MARKER
            && IsNoise(input[pos..p - CHUNK])
    decreases |input| - pos
  {
    hide AfterMarker, IsNoise;
    if pos + CHUNK > |input| {
      ShortChunk(input, pos);
    } else {
      var chunk, p := input[pos..pos + CHUNK], AfterMarker(input, pos).value;
      NextChunk(input, pos);
      if chunk == MARKER {
        NothingIsNoise();
        assert input[pos..p - CHUNK] == [];
      } else {
        MarkerFoundAligned(input, pos + CHUNK);
        assert input[pos..p - CHUNK] == chunk + input[pos + CHUNK..p - CHUNK];
        MoreNoise(chunk, input[pos + CHUNK..p - CHUNK]);
      }
    }
  }

  lemma MoreNoise(chunk: seq<byte>, noise: seq<byte>)
    requires |chunk| == CHUNK && chunk != MARKER && IsNoise(noise)
    ensures IsNoise(chunk + noise)
  {
    var t := chunk + noise;
    forall i | 0 <= i < |t| / CHUNK
      ensures t[CHUNK * i..CHUNK * i + CHUNK] != MARKER
    {
      if i == 0 {
        assert t[0..CHUNK] == chunk;
      } else {
        assert t[CHUNK * i..CHUNK * i + CHUNK] == noise[CHUNK * (i - 1)..CHUNK * (i - 1) + CHUNK];
      }
    }
  }

  /** Exactly: the reader finds a marker that follows some octets if and only if those are whole chunks,
      none of them the marker. */
  lemma FindsMarkerIffNoise(input: seq<byte>, pos: nat, noise: seq<byte>, rest: seq<byte>)
    requires pos <= |input| && input[pos..] == noise + (MARKER + rest)
    ensures AfterMarker(input, pos) == Some(pos + |noise| + CHUNK) <==> IsNoise(noise)
  {
    hide IsNoise, AfterMarker;
    if IsNoise(noise) {
      SkipNoise(input, pos, noise, rest);
    }
    if AfterMarker(input, pos) == Some(pos + |noise| + CHUNK) {
      MarkerFoundAligned(input, pos);
      assert input[pos..pos + |noise|] == input[pos..][..|noise|] == noise;
    }
  }

  /** A frame's octets, one by one, where it stands in the input. */
  lemma FrameOctets(input: seq<byte>, pos: nat, noise: seq<byte>, len: seq<byte>, more: seq<byte>)
    requires pos <= |input| && input[pos..] == noise + (MARKER + (len + more)) && |len| == USB_ACK_LEN
    ensures var start := pos + |noise|;
            && start + 2 * CHUNK <= |input|
            && input[start..start + CHUNK] == MARKER && input[start + CHUNK..start + 2 * CHUNK] == len
  {
    var start := pos + |noise|;
    var s := input[pos..];
    assert input[start..start + CHUNK] == s[|noise|..|noise| + CHUNK] == MARKER;
    assert input[start + CHUNK..start + 2 * CHUNK] == s[|noise| + CHUNK..|noise| + 2 * CHUNK] == len;
  }

  /** No marker overlaps another one, nor is one found where a length in hexadecimal stands. */
  lemma NoMarkerNearby(input: seq<byte>, start: nat, p: nat, len: seq<byte>)
    requires start + 2 * CHUNK <= |input| && input[start..start + CHUNK] == MARKER
    requires input[start + CHUNK..start + 2 * CHUNK] == len && IsHex4(len)
    requires CHUNK <= p <= |input| && input[p - CHUNK..p] == MARKER
    ensures !(start + CHUNK < p <= start + 2 * CHUNK)
  {
    var found := input[p - CHUNK..p];
    assert found[0] == input[p - 4] && found[1] == input[p - 3] && found[2] == input[p - 2];
    assert input[start..start + CHUNK][3] == input[start + 3];
    assert HexDigit(len[0]).Some? && len[0] == input[start + 4];
  }

  /** The frame that follows is read, whatever comes after it, if and only if what precedes it is whole
      chunks, none of them the marker. */
  lemma ReadsFrameIffNoise(py: Python, input: seq<byte>, pos: nat, noise: seq<byte>, frame: seq<byte>,
                           cmd: seq<byte>, data: seq<byte>, rest: seq<byte>)
    requires ParsesHex(py) && pos <= |input| && IsFrame(frame, cmd, data) && input[pos..] == noise + frame + rest
    ensures GetAck(py, input, pos) == (Acked(cmd, data), pos + |noise| + |frame|) <==> IsNoise(noise)
  {
    hide IsNoise, AfterMarker, Body, Sum, HexValue, SumsUp, Fields, ParsesHex, ReadFrom;
    if IsNoise(noise) {
      GetsNextFrame(py, input, pos, Segment(noise, frame, cmd, data), rest);
    }
    if GetAck(py, input, pos) == (Acked(cmd, data), pos + |noise| + |frame|) {
      var len, cks :| frame == MARKER + Fields(len, cmd, data, cks, []) && FieldsFit(len, cmd, data, cks)
                      && SumsUp(len, cmd, data, cks);
      FieldsAreHex(len, cmd, data, cks);
      MoreFields(len, cmd, data, cks, rest);
      var more := cmd + (data + (cks + rest));
      FieldsStart(len, cmd, data, cks, rest);
      assert noise + frame + rest == noise + (MARKER + (len + more));
      FrameOctets(input, pos, noise, len, more);
      AckedFrom(py, input, pos);
      var p := AfterMarker(input, pos).value;
      MarkerFoundAligned(input, pos);
      NoMarkerNearby(input, pos + |noise|, p, len);
      FindsMarkerIffNoise(input, pos, noise, len + more);
    }
  }

  lemma FieldsStart(len: seq<byte>, cmd: seq<byte>, data: seq<byte>, cks: seq<byte>, rest: seq<byte>)
    ensures Fields(len, cmd, data, cks, rest) == len + (cmd + (data + (cks + rest)))
  {
  }

  /** An acknowledged message with a whole command took 4 octets of length and at most 4 of checksum. */
  lemma AckedFrom(py: Python, input: seq<byte>, pos: nat)
    requires pos <= |input| && GetAck(py, input, pos).0.Acked? && |GetAck(py, input, pos).0.cmd| == USB_CMD_LEN
    ensures AfterMarker(input, pos).Some?
    ensures var (ack, end) := GetAck(py, input, pos);
            var body := AfterMarker(input, pos).value + USB_ACK_LEN + USB_CMD_LEN + |ack.data|;
            body <= end <= body + USB_CKS_LEN
  {
    hide AfterMarker, Checksum;
  }

  /** One stray octet is never whole chunks, so it hides any frame that follows. */
  lemma StrayOctetHidesAnyFrame(py: Python, stray: byte, frame: seq<byte>, cmd: seq<byte>, data: seq<byte>,
                                rest: seq<byte>)
    requires ParsesHex(py) && IsFrame(frame, cmd, data)
    ensures GetAck(py, [stray] + frame + rest, 0) != (Acked(cmd, data), 1 + |frame|)
  {
    hide GetAck, IsFrame;
    var input := [stray] + frame + rest;
    assert input[0..] == input;
    ReadsFrameIffNoise(py, input, 0, [stray], frame, cmd, data, rest);
  }

  // ----- a frame octet by octet

  /** The text of a frame that acknowledges a register write. */
  const WREG_FRAME := "   #0008WREG01FD"

  function Octets(text: string): (s: seq<byte>)
    requires forall i :: 0 <= i < |text| ==> text[i] < 128 as char
    ensures |s| == |text|
  {
    seq(|text|, i requires 0 <= i < |text| => text[i] as int)
  }

  lemma WregFrameAccepted(py: Python, rest: seq<byte>)
    requires ParsesHex(py)
    ensures GetAck(py, Octets(WREG_FRAME) + rest, 0) == (Acked(Octets("WREG"), []), 16)
  {
    hide GetAck, IsFrame, IsNoise, ParsesHex;
    var frame := Octets(WREG_FRAME);
    WregIsFrame();
    assert IsNoise([]) by { NothingIsNoise(); }
    assert [] + frame + rest == frame + rest;
    assert (frame + rest)[0..] == frame + rest;
    ReadsFrameIffNoise(py, frame + rest, 0, [], frame, Octets("WREG"), [], rest);
  }

  lemma WregIsFrame()
    ensures IsFrame(Octets(WREG_FRAME), Octets("WREG"), [])
  {
    var len, cks := Octets("0008"), Octets("01FD");
    WregSums();
    assert Octets(WREG_FRAME) == MARKER + Fields(len, Octets("WREG"), [], cks, []);
    assert FieldsFit(len, Octets("WREG"), [], cks);
    assert SumsUp(len, Octets("WREG"), [], cks);
  }

  lemma WregSums()
    ensures Sum(Octets("0008") + Octets("WREG") + []) == 509
  {
    hide Sum;
    var len, cmd := Octets("0008"), Octets("WREG");
    assert len == [0x30, 0x30, 0x30, 0x38] && cmd == [0x57, 0x52, 0x45, 0x47];
    SumOfFour(0x30, 0x30, 0x30, 0x38);
    SumOfFour(0x57, 0x52, 0x45, 0x47);
    SumConcat(len, cmd);
    assert len + cmd + [] == len + cmd;
  }

  lemma SumOfFour(a: byte, b: byte, c: byte, d: byte)
    ensures Sum([a, b, c, d]) == a + b + c + d
  {
    assert [a, b, c, d][..3] == [a, b, c];
    SumOfThree(a, b, c);
  }

  lemma SumOfThree(a: byte, b: byte, c: byte)
    ensures Sum([a, b, c]) == a + b + c
  {
    assert [a, b, c][..2] == [a, b] && [a, b][..1] == [a] && [a][..0] == [];
    assert Sum([a]) == a;
    assert Sum([a, b]) == a + b;
  }

  // ----- damaged frames

  /** A frame whose command and data were replaced by others of the same length is accepted exactly when
      the octet sums agree modulo 2^16, and is consumed to its end either way. */
  lemma DamagedFrame(py: Python, input: seq<byte>, pos: nat, len: seq<byte>, cks: seq<byte>,
                     cmd: seq<byte>, data: seq<byte>, cmd': seq<byte>, data': seq<byte>, rest: seq<byte>)
    requires ParsesHex(py) && pos <= |input| && FieldsFit(len, cmd, data, cks)
    requires SumsUp(len, cmd, data, cks)
    requires |cmd'| == |cmd| && |data'| == |data|
    requires input[pos..] == MARKER + Fields(len, cmd', data', cks, rest)
    ensures var (ack, end) := GetAck(py, input, pos);
            && end == pos + CHUNK + |len| + |cmd| + |data| + |cks|
            && ack == if PayloadSum(cmd', data') == PayloadSum(cmd, data) then Acked(cmd', data') else NoAck
  {
    hide AfterMarker, Body, Sum, HexValue, Checksum, PayloadSum, IsHex4, Fields, ParsesHex, FieldsFit, IsNoise, SumsUp;
    FieldsAreHex(len, cmd, data, cks);
    SameShape(len, cmd, data, cmd', data', cks);
    FieldsParse(py, len, cmd, data, cks);
    var body := Fields(len, cmd', data', cks, rest);
    assert input[pos..] == [] + (MARKER + body);
    assert IsNoise([]) by { NothingIsNoise(); }
    SkipNoise(input, pos, [], body);
    ReadMessage(py, input, pos + CHUNK, len, cmd', data', cks, rest);
    SameChecksum(len, cmd, data, cmd', data');
    SumsUpIff(len, cmd, data, cks);
    SumsUpIff(len, cmd', data', cks);
  }

  lemma SameChecksum(len: seq<byte>, cmd: seq<byte>, data: seq<byte>, cmd': seq<byte>, data': seq<byte>)
    ensures Checksum(len, cmd, data) == Checksum(len, cmd', data') <==> PayloadSum(cmd', data') == PayloadSum(cmd, data)
  {
    hide Low16, Sum;
    Congruent(Sum(len), Sum(cmd), Sum(data), Sum(cmd'), Sum(data'));
  }

  lemma SameShape(len: seq<byte>, cmd: seq<byte>, data: seq<byte>, cmd': seq<byte>, data': seq<byte>, cks: seq<byte>)
    requires FieldsFit(len, cmd, data, cks) && |cmd'| == |cmd| && |data'| == |data|
    ensures FieldsFit(len, cmd', data', cks)
  {
  }

  lemma Congruent(c: nat, x: nat, y: nat, x': nat, y': nat)
    ensures Low16(c + x + y) == Low16(c + x' + y') <==> Low16(x' + y') == Low16(x + y)
  {
  }

  /** Replacing any single octet of the command or the data makes the frame rejected. */
  lemma SingleOctetRejected(py: Python, input: seq<byte>, pos: nat, len: seq<byte>, cks: seq<byte>,
                            cmd: seq<byte>, data: seq<byte>, cmd': seq<byte>, data': seq<byte>,
                            i: nat, b: byte, rest: seq<byte>)
    requires ParsesHex(py) && pos <= |input| && FieldsFit(len, cmd, data, cks)
    requires SumsUp(len, cmd, data, cks)
    requires i < |cmd| + |data| && b != (cmd + data)[i]
    requires |cmd'| == |cmd| && cmd' + data' == (cmd + data)[i := b]
    requires input[pos..] == MARKER + Fields(len, cmd', data', cks, rest)
    ensures GetAck(py, input, pos).0 == NoAck
  {
    hide GetAck, HexValue, FieldsFit, Sum, PayloadSum, SumsUp, Fields, ParsesHex, IsHex4;
    FieldsAreHex(len, cmd, data, cks);
    SameLengths(cmd, data, cmd', data', i, b);
    OneOctetChangesSum(cmd, data, cmd', data', i, b);
    DamagedFrame(py, input, pos, len, cks, cmd, data, cmd', data', rest);
  }

  lemma SameLengths(cmd: seq<byte>, data: seq<byte>, cmd': seq<byte>, data': seq<byte>, i: nat, b: byte)
    requires i < |cmd| + |data| && |cmd'| == |cmd| && cmd' + data' == (cmd + data)[i := b]
    ensures |data'| == |data|
  {
    assert |cmd' + data'| == |cmd + data|;
  }

  lemma OneOctetChangesSum(cmd: seq<byte>, data: seq<byte>, cmd': seq<byte>, data': seq<byte>, i: nat, b: byte)
    requires i < |cmd| + |data| && b != (cmd + data)[i] && cmd' + data' == (cmd + data)[i := b]
    ensures PayloadSum(cmd', data') != PayloadSum(cmd, data)
  {
    hide Sum, Low16;
    SumConcat(cmd, data);
    SumConcat(cmd', data');
    SumUpdate(cmd + data, i, b);
    SmallDifference(Sum(cmd) + Sum(data), Sum(cmd') + Sum(data'));
  }

  lemma SmallDifference(a: nat, b: nat)
    requires -256 < a - b < 256 && a != b
    ensures Low16(a) != Low16(b)
  {
  }

  lemma {:induction false} SumUpdate(s: seq<byte>, i: nat, b: byte)
    requires i < |s|
    ensures Sum(s[i := b]) == Sum(s) - s[i] + b
    decreases |s|
  {
    var init := s[..|s| - 1];
    if i < |init| {
      assert s[i := b][..|s| - 1] == init[i := b];
      SumUpdate(init, i, b);
    } else {
      assert s[i := b][..|s| - 1] == init;
    }
  }

  // ----- what an acknowledge says

  datatype Parsed =
    | Written | Register(value: int) | Report(text: string) | Pixels(values: seq<uint16>)
    | Unknown | Raised

  /** `usb_parse_ack`. */
  function ParseAck(py: Python, cmd: seq<byte>, data: seq<byte>): Parsed {
    var name := py.decode(cmd);
    if name.None? then Raised
    else if name.value == "WREG" then Written
    else if name.value == "RREG" then
      if py.parseLength(data).None? then Raised else Register(py.parseLength(data).value)
    else if name.value == "SERR" then
      if py.decode(data).None? then Raised else Report(py.decode(data).value)
    else if name.value == "GFRA" then
      if |data| % 2 != 0 then Raised else Pixels(FromBuffer(data))
    else Unknown
  }

  /** `np.frombuffer(data, dtype='u2')` on a little-endian host. */
  function FromBuffer(data: seq<byte>): (ps: seq<uint16>)
    requires |data| % 2 == 0
    ensures |ps| == |data| / 2
  {
    seq(|data| / 2, i requires 0 <= i < |data| / 2 => Be16(data[2 * i + 1], data[2 * i]))
  }

  /** Pixels as the camera sends them, low octet first. */
  function ToBuffer(ps: seq<uint16>): (data: seq<byte>)
    ensures |data| == 2 * |ps|
  {
    if ps == [] then []
    else
      var last := ps[|ps| - 1];
      ToBuffer(ps[..|ps| - 1]) + [last % 0x100, last / 0x100]
  }

  lemma {:induction false} BufferAt(ps: seq<uint16>, i: nat)
    requires i < |ps|
    ensures ToBuffer(ps)[2 * i] == ps[i] % 0x100 && ToBuffer(ps)[2 * i + 1] == ps[i] / 0x100
    decreases |ps|
  {
    if i < |ps| - 1 {
      BufferAt(ps[..|ps| - 1], i);
    }
  }

  lemma PixelsRoundTrip(ps: seq<uint16>)
    ensures FromBuffer(ToBuffer(ps)) == ps
  {
    hide ToBuffer;
    forall i | 0 <= i < |ps|
      ensures FromBuffer(ToBuffer(ps))[i] == ps[i]
    {
      BufferAt(ps, i);
    }
  }

  function Ascii(s: seq<byte>): string
    requires forall i :: 0 <= i < |s| ==> s[i] < 128
  {
    seq(|s|, i requires 0 <= i < |s| => s[i] as char)
  }

  ghost predicate DecodesAscii(py: Python) {
    forall s: seq<byte> :: (forall i :: 0 <= i < |s| ==> s[i] < 128) ==> py.decode(s) == Some(Ascii(s))
  }

  const GFRA: seq<byte> := [0x47, 0x46, 0x52, 0x41]
  const RREG: seq<byte> := [0x52, 0x52, 0x45, 0x47]
  const WREG: seq<byte> := [0x57, 0x52, 0x45, 0x47]
  const SERR: seq<byte> := [0x53, 0x45, 0x52, 0x52]

  lemma ImageParses(py: Python, ps: seq<uint16>)
    requires DecodesAscii(py)
    ensures ParseAck(py, GFRA, ToBuffer(ps)) == Pixels(ps)
  {
    hide FromBuffer, ToBuffer;
    PixelsRoundTrip(ps);
    assert Ascii(GFRA) == "GFRA";
  }

  lemma RegisterParses(py: Python, data: seq<byte>)
    requires ParsesHex(py) && DecodesAscii(py) && IsHex4(data)
    ensures ParseAck(py, RREG, data) == Register(HexValue(data))
  {
    hide HexValue;
    assert Ascii(RREG) == "RREG";
  }

  lemma CommandTexts()
    ensures Ascii(GFRA) == "GFRA" && Ascii(RREG) == "RREG" && Ascii(WREG) == "WREG" && Ascii(SERR) == "SERR"
  {
  }

  lemma Decoded(py: Python, text: seq<byte>)
    requires DecodesAscii(py) && forall i :: 0 <= i < |text| ==> text[i] < 128
    ensures py.decode(text) == Some(Ascii(text))
  {
  }

  /** A register write is acknowledged without data. */
  lemma WriteParses(py: Python, data: seq<byte>)
    requires DecodesAscii(py)
    ensures ParseAck(py, WREG, data) == Written
  {
    hide DecodesAscii, Ascii, FromBuffer;
    Decoded(py, WREG);
    CommandTexts();
  }

  /** An error report is its text. */
  lemma ErrorParses(py: Python, data: seq<byte>)
    requires DecodesAscii(py) && forall i :: 0 <= i < |data| ==> data[i] < 128
    ensures ParseAck(py, SERR, data) == Report(Ascii(data))
  {
    hide DecodesAscii, Ascii, FromBuffer;
    Decoded(py, SERR);
    Decoded(py, data);
    CommandTexts();
    assert "SERR"[0] != "WREG"[0] && "SERR"[0] != "RREG"[0];
  }

  /** An ASCII command other than the four is no answer. */
  lemma UnknownParses(py: Python, cmd: seq<byte>, data: seq<byte>)
    requires DecodesAscii(py) && (forall i :: 0 <= i < |cmd| ==> cmd[i] < 128)
    requires cmd != WREG && cmd != RREG && cmd != SERR && cmd != GFRA
    ensures ParseAck(py, cmd, data) == Unknown
  {
    hide DecodesAscii, Ascii, FromBuffer;
    Decoded(py, cmd);
    CommandTexts();
    AsciiInjective(cmd, WREG);
    AsciiInjective(cmd, RREG);
    AsciiInjective(cmd, SERR);
    AsciiInjective(cmd, GFRA);
  }

  lemma AsciiInjective(a: seq<byte>, b: seq<byte>)
    requires (forall i :: 0 <= i < |a| ==> a[i] < 128) && (forall i :: 0 <= i < |b| ==> b[i] < 128) && a != b
    ensures Ascii(a) != Ascii(b)
  {
    if |a| == |b| {
      var i :| 0 <= i < |a| && a[i] != b[i];
      assert Ascii(a)[i] != Ascii(b)[i];
    }
  }

  /** What a thermal image or a register value is sent as is what the caller gets, whatever precedes it in
      whole chunks and whatever follows. */
  lemma ImageArrives(py: Python, input: seq<byte>, pos: nat, noise: seq<byte>, frame: seq<byte>,
                     ps: seq<uint16>, rest: seq<byte>)
    requires ParsesHex(py) && DecodesAscii(py) && pos <= |input| && IsNoise(noise)
    requires IsFrame(frame, GFRA, ToBuffer(ps)) && input[pos..] == noise + frame + rest
    ensures var (ack, end) := GetAck(py, input, pos);
            && ack.Acked? && end == pos + |noise| + |frame|
            && ParseAck(py, ack.cmd, ack.data) == Pixels(ps)
  {
    hide IsFrame, IsNoise, GetAck, ParseAck, ToBuffer, ParsesHex, DecodesAscii;
    ReadsFrameIffNoise(py, input, pos, noise, frame, GFRA, ToBuffer(ps), rest);
    ImageParses(py, ps);
  }

  lemma RegisterArrives(py: Python, input: seq<byte>, pos: nat, noise: seq<byte>, frame: seq<byte>,
                        data: seq<byte>, rest: seq<byte>)
    requires ParsesHex(py) && DecodesAscii(py) && pos <= |input| && IsNoise(noise) && IsHex4(data)
    requires IsFrame(frame, RREG, data) && input[pos..] == noise + frame + rest
    ensures var (ack, end) := GetAck(py, input, pos);
            && ack.Acked? && end == pos + |noise| + |frame|
            && ParseAck(py, ack.cmd, ack.data) == Register(HexValue(data))
  {
    hide IsFrame, IsNoise, GetAck, ParseAck, HexValue, ParsesHex, DecodesAscii;
    ReadsFrameIffNoise(py, input, pos, noise, frame, RREG, data, rest);
    RegisterParses(py, data);
  }

  // ----- waiting for a good frame

  /** `reset_input_buffer` drops what has arrived so far; how much that is, is up to the port. Nothing is
      parsed while the loop waits. */
  method UsbAcknowledge(py: Python, port: Port, drops: nat -> nat) returns (ack: Ack, parsed: Option<Parsed>)
    requires port.Valid()
    modifies port
    ensures port.Valid() && ack != NoAck
    ensures parsed == if ack.Acked? then Some(ParseAck(py, ack.cmd, ack.data)) else None
    ensures GetAck(py, port.input, old(port.pos)).0 != NoAck ==>
              (ack, port.pos) == GetAck(py, port.input, old(port.pos))
    ensures exists p :: old(port.pos) <= p <= |port.input| && GetAck(py, port.input, p) == (ack, port.pos)
  {
    hide GetAck;
    ghost var from := port.pos;
    ack := UsbGetAck(py, port);
    var tries := 0;
    while ack == NoAck
      invariant port.Valid() && old(port.pos) <= from <= |port.input|
      invariant GetAck(py, port.input, from) == (ack, port.pos)
      invariant ack != NoAck ==> from == old(port.pos) || GetAck(py, port.input, old(port.pos)).0 == NoAck
      invariant ack == NoAck ==> GetAck(py, port.input, old(port.pos)).0 == NoAck
      decreases |port.input| - from, if ack == NoAck then 1 else 0
    {
      GetAckAdvances(py, port.input, from);
      port.pos := if port.pos + drops(tries) <= |port.input| then port.pos + drops(tries) else |port.input|;
      from := port.pos;
      ack := UsbGetAck(py, port);
      tries := tries + 1;
    }
    parsed := if ack.Acked? then Some(ParseAck(py, ack.cmd, ack.data)) else None;
  }

  lemma GetAckAdvances(py: Python, input: seq<byte>, pos: nat)
    requires pos <= |input| && GetAck(py, input, pos).0 == NoAck
    ensures GetAck(py, input, pos).1 > pos
  {
  }
}
