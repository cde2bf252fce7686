/**
 Names in DNS messages: the cursor-based reader with its recursive decompression, against the meaning
 that sections 3.1 and 4.1.4 of RFC 1035 give to a name.
 */
module DnsName {
  import opened Bytes

  type Label = seq<byte>

  // ----- the meaning of a name

  /** The octets from `at` on, within a name that starts at `start`, spell `labels` and end before
      `end`. A pointer refers to an earlier occurrence of a name, so it points before `start`. */
  ghost predicate Denotes(data: seq<byte>, start: nat, at: nat, labels: seq<Label>, end: nat)
    decreases start, |data| - at
  {
    at < |data| &&
    var len := data[at];
    if len == 0 then labels == [] && end == at + 1
    else if len < 64 then
      at + 1 + len <= |data| && labels != [] && labels[0] == data[at + 1..at + 1 + len]
      && Denotes(data, start, at + 1 + len, labels[1..], end)
    else
      len >= 192 && at + 1 < |data| && end == at + 2
      && var target := RfcTarget(len, data[at + 1]);
         target < start && exists e :: Denotes(data, target, target, labels, e)
  }

  /** The 14-bit offset of section 4.1.4 of RFC 1035. */
  function RfcTarget(len: byte, low: byte): nat
    requires len >= 192
  {
    (len - 192) * 256 + low
  }

  // ----- the reader

  /** What the source computes: the two parts are added, not joined. */
  function CodeTarget(len: byte, low: byte): nat {
    len % 64 + low
  }

  datatype NameResult = Labels(labels: seq<Label>) | OutOfRange | StackOverflow

  /** `read_name` with room for `depth` nested calls. */
  function CodeName(data: seq<byte>, at: nat, depth: nat): (NameResult, nat)
    decreases depth, 1, 0
  {
    if depth == 0 then (StackOverflow, at) else CodeLabels(data, at, depth)
  }

  function CodeLabels(data: seq<byte>, at: nat, depth: nat): (NameResult, nat)
    requires depth > 0
    decreases depth, 0, |data| - at
  {
    if at >= |data| then (OutOfRange, at)
    else
      var len := data[at];
      if len == 0 then (Labels([]), at + 1)
      else if len >= 64 then
        if at + 1 >= |data| then (OutOfRange, at + 1)
        else (CodeName(data, CodeTarget(len, data[at + 1]), depth - 1).0, at + 2)
      else if at + 1 + len > |data| then (OutOfRange, at + 1)
      else
        var (rest, end) := CodeLabels(data, at + 1 + len, depth);
        (if rest.Labels? then Labels([data[at + 1..at + 1 + len]] + rest.labels) else rest, end)
  }

  /** The labels read so far go in front of what is still to come. */
  function After(out: seq<Label>, r: (NameResult, nat)): (NameResult, nat) {
    (if r.0.Labels? then Labels(out + r.0.labels) else r.0, r.1)
  }

  lemma AfterNothing(r: (NameResult, nat))
    ensures After([], r) == r
  {
    assert r.0.Labels? ==> [] + r.0.labels == r.0.labels;
  }

  lemma AfterLabel(data: seq<byte>, at: nat, depth: nat, out: seq<Label>)
    requires depth > 0 && at < |data| && 0 < data[at] < 64 && at + 1 + data[at] <= |data|
    ensures var next := at + 1 + data[at];
            After(out, CodeLabels(data, at, depth)) == After(out + [data[at + 1..next]], CodeLabels(data, next, depth))
  {
    var next := at + 1 + data[at];
    var piece, rest := data[at + 1..next], CodeLabels(data, next, depth).0;
    assert rest.Labels? ==> out + ([piece] + rest.labels) == (out + [piece]) + rest.labels;
  }

  class SafeBuffer {
    const data: seq<byte>
    var offset: nat

    constructor (data: seq<byte>)
      ensures this.data == data && offset == 0
    {
      this.data := data;
      offset := 0;
    }

    /** `read(obj, offset)` for an object of `size` octets; None is std::out_of_range. */
    method ReadAt(size: nat, at: nat) returns (r: Option<seq<byte>>)
      ensures r == if |data| < at + size then None else Some(data[at..at + size])
    {
      if |data| < at + size {
        return None;
      }
      r := Some(data[at..at + size]);
    }

    /** `read(obj)`. */
    method Read(size: nat) returns (r: Option<seq<byte>>)
      modifies this
      ensures r == if |data| < old(offset) + size then None else Some(data[old(offset)..old(offset) + size])
      ensures offset == if r.Some? then old(offset) + size else old(offset)
    {
      r := ReadAt(size, offset);
      if r.Some? {
        offset := offset + size;
      }
    }

    method Skip(len: nat) returns (ok: bool)
      modifies this
      ensures ok == (old(offset) + len <= |data|)
      ensures offset == if ok then old(offset) + len else old(offset)
    {
      if |data| < offset + len {
        return false;
      }
      offset := offset + len;
      ok := true;
    }

    method ReadNameAt(from: nat, depth: nat) returns (r: NameResult, at: nat)
      ensures r == CodeName(data, from, depth).0
      ensures r.Labels? ==> at == CodeName(data, from, depth).1
      decreases depth
    {
      at := from;
      if depth == 0 {
        return StackOverflow, at;
      }
      var octet := ReadAt(1, at);
      if octet.None? {
        return OutOfRange, at;
      }
      var len := octet.value[0];
      at := at + 1;

      var out: seq<Label> := [];
      AfterNothing(CodeLabels(data, from, depth));
      while len != 0
        invariant 0 < at <= |data| && len == data[at - 1]
        invariant CodeName(data, from, depth) == After(out, CodeLabels(data, at - 1, depth))
        decreases |data| - at
      {
        if len >= 64 {
          var low := ReadAt(1, at);
          if low.None? {
            return OutOfRange, at;
          }
          at := at + 1;
          var ptr, _ := ReadNameAt(CodeTarget(len, low.value[0]), depth - 1);
          if ptr.Labels? {
            r := Labels(out + ptr.labels);
          } else {
            r := ptr;
          }
          return r, at;
        }
        var piece := ReadAt(len, at);
        if piece.None? {
          return OutOfRange, at;
        }
        AfterLabel(data, at - 1, depth, out);
        out := out + [piece.value];
        at := at + len;
        octet := ReadAt(1, at);
        if octet.None? {
          return OutOfRange, at;
        }
        len := octet.value[0];
        at := at + 1;
      }
      assert out + [] == out;
      r := Labels(out);
    }

    /** `read_name()`. */
    method ReadName(depth: nat) returns (r: NameResult)
      modifies this
      ensures r == CodeName(data, old(offset), depth).0
      ensures r.Labels? ==> offset == CodeName(data, old(offset), depth).1
    {
      r, offset := ReadNameAt(offset, depth);
    }
  }

  // ----- the reader reads what the name means

  /** Every compression pointer reached from `at` is a proper one, points below 256, and points before
      the start of the name that holds it. */
  ghost predicate GoodPointers(data: seq<byte>, start: nat, at: nat)
    decreases start, |data| - at
  {
    at < |data| ==>
      var len := data[at];
      if len == 0 then true
      else if len < 64 then at + 1 + len <= |data| ==> GoodPointers(data, start, at + 1 + len)
      else
        len >= 192 && (at + 1 < |data| ==>
          var target := RfcTarget(len, data[at + 1]);
          target < 256 && target < start && GoodPointers(data, target, target))
  }

  /** Main result: with as many stack frames as the name's offset, `read_name` finishes; it returns the
      labels and the position just past the name exactly when the octets denote them, and throws exactly
      when they denote no name. */
  lemma {:induction false} NameDecoding(data: seq<byte>, start: nat, at: nat, depth: nat)
    requires GoodPointers(data, start, at) && depth > start
    ensures !CodeLabels(data, at, depth).0.StackOverflow?
    ensures forall labels: seq<Label>, end: nat ::
              Denotes(data, start, at, labels, end) <==> CodeLabels(data, at, depth) == (Labels(labels), end)
    decreases start, |data| - at
  {
    if at < |data| {
      var len := data[at];
      if len == 0 {
      } else if len < 64 {
        if at + 1 + len <= |data| {
          var piece, next := data[at + 1..at + 1 + len], at + 1 + len;
          NameDecoding(data, start, next, depth);
          forall labels: seq<Label>, end: nat
            ensures Denotes(data, start, at, labels, end) <==> CodeLabels(data, at, depth) == (Labels(labels), end)
          {
            LabelStep(data, start, at, depth, labels, end);
          }
        }
      } else if at + 1 < |data| {
        var target := RfcTarget(len, data[at + 1]);
        PointerTargets(len, data[at + 1]);
        NameDecoding(data, target, target, depth - 1);
        assert CodeName(data, target, depth - 1) == CodeLabels(data, target, depth - 1);
        forall labels: seq<Label>, end: nat
          ensures Denotes(data, start, at, labels, end) <==> CodeLabels(data, at, depth) == (Labels(labels), end)
        {
          var (sub, e) := CodeLabels(data, target, depth - 1);
          if sub == Labels(labels) {
            assert Denotes(data, target, target, labels, e);
          }
        }
      }
    }
  }

  lemma LabelStep(data: seq<byte>, start: nat, at: nat, depth: nat, labels: seq<Label>, end: nat)
    requires depth > 0 && at < |data| && 0 < data[at] < 64 && at + 1 + data[at] <= |data|
    requires forall ls: seq<Label>, e: nat :: Denotes(data, start, at + 1 + data[at], ls, e) <==>
                             CodeLabels(data, at + 1 + data[at], depth) == (Labels(ls), e)
    ensures Denotes(data, start, at, labels, end) <==> CodeLabels(data, at, depth) == (Labels(labels), end)
  {
    var piece := data[at + 1..at + 1 + data[at]];
    var (rest, e) := CodeLabels(data, at + 1 + data[at], depth);
    if rest.Labels? {
      assert ([piece] + rest.labels)[1..] == rest.labels;
    }
    if labels != [] {
      assert labels == [labels[0]] + labels[1..];
      assert Denotes(data, start, at + 1 + data[at], labels[1..], end) <==>
             CodeLabels(data, at + 1 + data[at], depth) == (Labels(labels[1..]), end);
    }
  }

  /** The source forms the RFC's offset exactly for targets below 256. */
  lemma PointerTargets(len: byte, low: byte)
    requires len >= 192
    ensures CodeTarget(len, low) == RfcTarget(len, low) <==> RfcTarget(len, low) < 256
  {
  }

  // ----- writing names, with any compression

  predicate Writable(labels: seq<Label>) {
    forall i :: 0 <= i < |labels| ==> 0 < |labels[i]| < 64
  }

  /** The labels in order, and then either the root label or a pointer to an earlier name. */
  function Write(labels: seq<Label>, pointer: Option<nat>): seq<byte>
    requires Writable(labels)
    requires pointer.Some? ==> pointer.value < 0x4000
  {
    if labels == [] then
      if pointer.None? then [0] else [192 + pointer.value / 256, pointer.value % 256]
    else [|labels[0]|] + labels[0] + Write(labels[1..], pointer)
  }

  ghost predicate WrittenAt(data: seq<byte>, at: nat, labels: seq<Label>, pointer: Option<nat>) {
    && Writable(labels)
    && (pointer.Some? ==> pointer.value < 0x4000)
    && at + |Write(labels, pointer)| <= |data|
    && data[at..at + |Write(labels, pointer)|] == Write(labels, pointer)
  }

  /** What a pointer at the end of the labels must lead to; no pointer leads to no more labels. */
  ghost predicate LeadsTo(data: seq<byte>, start: nat, pointer: Option<nat>, tail: seq<Label>) {
    if pointer.None? then tail == []
    else
      && pointer.value < start && pointer.value < 256
      && GoodPointers(data, pointer.value, pointer.value)
      && exists e :: Denotes(data, pointer.value, pointer.value, tail, e)
  }

  lemma Slices(data: seq<byte>, at: nat, len: byte, piece: seq<byte>, rest: seq<byte>)
    requires at + 1 + |piece| + |rest| <= |data| && data[at..at + 1 + |piece| + |rest|] == [len] + piece + rest
    ensures data[at] == len && data[at + 1..at + 1 + |piece|] == piece
    ensures data[at + 1 + |piece|..at + 1 + |piece| + |rest|] == rest
  {
    var w := data[at..at + 1 + |piece| + |rest|];
    assert w[0] == len;
    forall k | 0 <= k < |piece|
      ensures data[at + 1..at + 1 + |piece|][k] == piece[k]
    {
      assert w[1 + k] == piece[k];
    }
    forall k | 0 <= k < |rest|
      ensures data[at + 1 + |piece|..at + 1 + |piece| + |rest|][k] == rest[k]
    {
      assert w[1 + |piece| + k] == rest[k];
    }
  }

  lemma EndDenotes(data: seq<byte>, start: nat, at: nat, pointer: Option<nat>, tail: seq<Label>)
    requires WrittenAt(data, at, [], pointer) && LeadsTo(data, start, pointer, tail)
    ensures GoodPointers(data, start, at) && Denotes(data, start, at, tail, at + |Write([], pointer)|)
  {
    var w := data[at..at + |Write([], pointer)|];
    assert data[at] == w[0];
    if pointer.Some? {
      assert data[at + 1] == w[1];
    }
  }

  lemma LabelDenotes(data: seq<byte>, start: nat, at: nat, first: Label, rest: seq<Label>, end: nat)
    requires 0 < |first| < 64 && at + 1 + |first| <= |data|
    requires data[at] == |first| && data[at + 1..at + 1 + |first|] == first
    requires GoodPointers(data, start, at + 1 + |first|) && Denotes(data, start, at + 1 + |first|, rest, end)
    ensures GoodPointers(data, start, at) && Denotes(data, start, at, [first] + rest, end)
  {
    assert ([first] + rest)[1..] == rest;
  }

  lemma {:induction false} WrittenDenotes(data: seq<byte>, start: nat, at: nat, labels: seq<Label>,
                                          pointer: Option<nat>, tail: seq<Label>)
    requires WrittenAt(data, at, labels, pointer) && LeadsTo(data, start, pointer, tail)
    ensures GoodPointers(data, start, at)
    ensures Denotes(data, start, at, labels + tail, at + |Write(labels, pointer)|)
    decreases |labels|
  {
    hide GoodPointers, Denotes, LeadsTo;
    if labels == [] {
      assert [] + tail == tail;
      EndDenotes(data, start, at, pointer, tail);
    } else {
      Slices(data, at, |labels[0]|, labels[0], Write(labels[1..], pointer));
      WrittenDenotes(data, start, at + 1 + |labels[0]|, labels[1..], pointer, tail);
      assert labels + tail == [labels[0]] + (labels[1..] + tail);
      LabelDenotes(data, start, at, labels[0], labels[1..] + tail, at + |Write(labels, pointer)|);
    }
  }

  /** A name written with any compression within the source's reach decodes back to its labels, and the
      cursor ends up just past what was written. */
  lemma NameRoundTrip(data: seq<byte>, at: nat, labels: seq<Label>, pointer: Option<nat>, tail: seq<Label>, depth: nat)
    requires WrittenAt(data, at, labels, pointer) && LeadsTo(data, at, pointer, tail) && depth > at
    ensures CodeName(data, at, depth) == (Labels(labels + tail), at + |Write(labels, pointer)|)
  {
    WrittenDenotes(data, at, at, labels, pointer, tail);
    NameDecoding(data, at, at, depth);
  }

  // ----- exactly when the reader finishes

  /** Where the name at `at` jumps to, if it ends in a pointer that can be read. */
  function Hop(data: seq<byte>, at: nat): (t: Option<nat>)
    ensures t.Some? ==> t.value < HOP_TARGETS
    decreases |data| - at
  {
    if at >= |data| || data[at] == 0 then None
    else if data[at] >= 64 then if at + 1 < |data| then Some(CodeTarget(data[at], data[at + 1])) else None
    else if at + 1 + data[at] > |data| then None
    else Hop(data, at + 1 + data[at])
  }

  /** Targets are at most 63 + 255. */
  const HOP_TARGETS: nat := 319

  function Hops(data: seq<byte>, at: nat, n: nat): Option<nat>
    decreases n
  {
    if n == 0 then Some(at)
    else if Hop(data, at).None? then None
    else Hops(data, Hop(data, at).value, n - 1)
  }

  lemma {:induction false} OverflowAtHop(data: seq<byte>, at: nat, depth: nat)
    requires depth > 0
    ensures CodeLabels(data, at, depth).0.StackOverflow? <==>
              Hop(data, at).Some? && CodeName(data, Hop(data, at).value, depth - 1).0.StackOverflow?
    decreases |data| - at
  {
    if at < |data| && 0 < data[at] < 64 && at + 1 + data[at] <= |data| {
      OverflowAtHop(data, at + 1 + data[at], depth);
    }
  }

  lemma {:induction false} OverflowIffHops(data: seq<byte>, at: nat, depth: nat)
    ensures CodeName(data, at, depth).0.StackOverflow? <==> Hops(data, at, depth).Some?
    decreases depth
  {
    if depth > 0 {
      OverflowAtHop(data, at, depth);
      if Hop(data, at).Some? {
        OverflowIffHops(data, Hop(data, at).value, depth - 1);
      }
    }
  }

  lemma {:induction false} HopsSplit(data: seq<byte>, at: nat, a: nat, b: nat)
    ensures Hops(data, at, a + b) == if Hops(data, at, a).None? then None else Hops(data, Hops(data, at, a).value, b)
    decreases a
  {
    if a > 0 && Hop(data, at).Some? {
      HopsSplit(data, Hop(data, at).value, a - 1, b);
    }
  }

  /** Among more than `n` numbers below `n`, two are equal. */
  lemma {:induction false} Pigeonhole(s: seq<nat>, n: nat) returns (i: nat, j: nat)
    requires |s| > n && forall k :: 0 <= k < |s| ==> s[k] < n
    ensures i < j < |s| && s[i] == s[j]
    decreases n
  {
    var last := |s| - 1;
    if exists k :: 0 <= k < last && s[k] == s[last] {
      i :| 0 <= i < last && s[i] == s[last];
      j := last;
    } else {
      // renumber the rest so that the value of the last element is not used
      var t := seq(last, k requires 0 <= k < last => if s[k] > s[last] then s[k] - 1 else s[k]);
      i, j := Pigeonhole(t, n - 1);
    }
  }

  /** Once a position is reached a second time the hops go on for ever. */
  lemma {:induction false} LoopNeverEnds(data: seq<byte>, at: nat, i: nat, j: nat, n: nat)
    requires i < j && Hops(data, at, i).Some? && Hops(data, at, i) == Hops(data, at, j)
    ensures Hops(data, at, n).Some?
    decreases n
  {
    if n <= j {
      HopsSplit(data, at, n, j - n);
    } else {
      HopsSplit(data, at, j, n - j);
      HopsSplit(data, at, i, n - j);
      LoopNeverEnds(data, at, i, j, i + (n - j));
    }
  }

  /** Hops land below a fixed bound, so a chain of 320 of them comes back to a place, and never ends. */
  lemma LongChainNeverEnds(data: seq<byte>, at: nat, n: nat)
    requires Hops(data, at, 320).Some?
    ensures Hops(data, at, n).Some?
  {
    hide Hop;
    forall k | 1 <= k <= 320
      ensures Hops(data, at, k).Some? && Hops(data, at, k).value < HOP_TARGETS
    {
      HopsSplit(data, at, k, 320 - k);
      HopsSplit(data, at, k - 1, 1);
    }
    var s := seq(320, k requires 0 <= k < 320 => Hops(data, at, k + 1).value);
    var i, j := Pigeonhole(s, HOP_TARGETS);
    LoopNeverEnds(data, at, i + 1, j + 1, n);
  }

  /** On any octets at all: reading a name finishes for some stack size exactly when its chain of pointers
      ends within 320 hops, and then it finishes within 320 nested calls. */
  lemma FinishesWithin320(data: seq<byte>, at: nat)
    ensures (exists depth :: !CodeName(data, at, depth).0.StackOverflow?) <==> Hops(data, at, 320).None?
    ensures (exists depth :: !CodeName(data, at, depth).0.StackOverflow?) <==> !CodeName(data, at, 320).0.StackOverflow?
  {
    hide Hops, CodeName;
    OverflowIffHops(data, at, 320);
    if Hops(data, at, 320).Some? {
      forall depth: nat
        ensures CodeName(data, at, depth).0.StackOverflow?
      {
        LongChainNeverEnds(data, at, depth);
        OverflowIffHops(data, at, depth);
      }
    }
  }

  /** A name may point at itself, in any buffer; then no stack is large enough. */
  lemma SelfPointerOverflows(data: seq<byte>, at: nat, depth: nat)
    requires at + 1 < |data| && data[at] >= 64 && CodeTarget(data[at], data[at + 1]) == at
    ensures CodeName(data, at, depth).0 == StackOverflow
  {
    assert Hops(data, at, 1) == Some(at);
    LoopNeverEnds(data, at, 0, 1, depth);
    OverflowIffHops(data, at, depth);
  }

  // ----- pointers out of the reader's reach

  /** The reader takes a name that ends in this pointer from where the pointer points, on every buffer. */
  ghost predicate FollowsPointer(len: byte, low: byte)
    requires len >= 192
  {
    forall data: seq<byte>, at: nat, depth: nat ::
      at + 1 < |data| && data[at] == len && data[at + 1] == low ==>
        CodeName(data, at, depth + 1).0 == CodeName(data, RfcTarget(len, low), depth).0
  }

  /** A buffer in which such a pointer leads to the label "a", and everything before is zero. */
  function FarLabel(len: byte, low: byte): (data: seq<byte>)
    requires len >= 192
    ensures |data| == RfcTarget(len, low) + 5
  {
    var target := RfcTarget(len, low);
    seq(target + 5, i requires 0 <= i < target + 5 =>
      if i == target then 1 else if i == target + 1 then 97
      else if i == target + 3 then len else if i == target + 4 then low else 0)
  }

  /** For every pointer to 256 or beyond there is a name that decodes wrongly: it denotes one label, and
      the reader returns none. */
  lemma FarPointerDecodesWrongly(len: byte, low: byte, depth: nat)
    requires len >= 192 && RfcTarget(len, low) >= 256 && depth >= 2
    ensures var data, at := FarLabel(len, low), RfcTarget(len, low) + 3;
            && data[at] == len && data[at + 1] == low
            && Denotes(data, at, at, [[97]], at + 2)
            && CodeName(data, at, depth) == (Labels([]), at + 2)
  {
    var data, target := FarLabel(len, low), RfcTarget(len, low);
    assert data[target + 1..target + 2] == [97];
    assert Denotes(data, target, target + 2, [], target + 3);
    assert [[97]][1..] == [];
    assert Denotes(data, target, target, [[97]], target + 3);
    var wrong := CodeTarget(len, low);
    assert wrong < target && data[wrong] == 0;
    assert CodeName(data, wrong, depth - 1) == (Labels([]), wrong + 1);
  }

  lemma FarLabelReadThere(len: byte, low: byte)
    requires len >= 192
    ensures CodeName(FarLabel(len, low), RfcTarget(len, low), 1).0 == Labels([[97]])
  {
    var data, target := FarLabel(len, low), RfcTarget(len, low);
    assert data[target + 1..target + 2] == [97];
    assert CodeLabels(data, target + 2, 1) == (Labels([]), target + 3);
  }

  lemma FollowsNearPointer(data: seq<byte>, at: nat, depth: nat)
    requires at + 1 < |data| && data[at] >= 192 && RfcTarget(data[at], data[at + 1]) < 256
    ensures CodeName(data, at, depth + 1).0 == CodeName(data, RfcTarget(data[at], data[at + 1]), depth).0
  {
    PointerTargets(data[at], data[at + 1]);
  }

  /** The reader follows a pointer exactly when it points below 256. */
  lemma FollowsPointerIff(len: byte, low: byte)
    requires len >= 192
    ensures FollowsPointer(len, low) <==> RfcTarget(len, low) < 256
  {
    hide CodeName, RfcTarget;
    if RfcTarget(len, low) < 256 {
      forall data: seq<byte>, at: nat, depth: nat | at + 1 < |data| && data[at] == len && data[at + 1] == low
        ensures CodeName(data, at, depth + 1).0 == CodeName(data, RfcTarget(len, low), depth).0
      {
        FollowsNearPointer(data, at, depth);
      }
    } else {
      var data, at := FarLabel(len, low), RfcTarget(len, low) + 3;
      FarPointerDecodesWrongly(len, low, 2);
      FarLabelReadThere(len, low);
      assert CodeName(data, at, 1 + 1).0 != CodeName(data, RfcTarget(len, low), 1).0;
    }
  }
}
