/**
 The answer loop of the discovery client: resource records (section 4.1.3 of RFC 1035, RFC 2782 for
 SRV) are walked with one cursor and folded into a single result.
 */
module DnsDiscover {
  import opened Bytes
  import opened DnsName

  const TYPE_A: nat := 0x1
  const TYPE_PTR: nat := 0xc
  const TYPE_AAAA: nat := 0x1c
  const TYPE_SRV: nat := 0x21

  const HEADER_SIZE: nat := 12
  const ANSWER_SIZE: nat := 10

  const DOT: byte := '.' as int

  // ----- joined names

  /** `concat_name`, a left fold. */
  function ConcatFrom(acc: seq<byte>, name: seq<Label>): seq<byte>
    decreases |name|
  {
    if name == [] then acc
    else ConcatFrom(if acc != [] then acc + [DOT] + name[0] else name[0], name[1..])
  }

  method ConcatName(name: seq<Label>) returns (r: seq<byte>)
    ensures r == ConcatFrom([], name)
  {
    r := [];
    for i := 0 to |name|
      invariant ConcatFrom([], name) == ConcatFrom(r, name[i..])
    {
      assert name[i..][1..] == name[i + 1..];
      if r != [] {
        r := r + [DOT] + name[i];
      } else {
        r := name[i];
      }
    }
  }

  predicate PlainLabel(l: Label) {
    l != [] && DOT !in l
  }

  predicate PlainName(name: seq<Label>) {
    forall i :: 0 <= i < |name| ==> PlainLabel(name[i])
  }

  function FirstDot(s: seq<byte>): (n: nat)
    ensures n <= |s|
    ensures forall k :: 0 <= k < n ==> s[k] != DOT
    ensures n < |s| ==> s[n] == DOT
  {
    if s == [] || s[0] == DOT then 0 else FirstDot(s[1..]) + 1
  }

  /** The labels after the first, each with its dot. */
  lemma {:induction false} ConcatPrefix(acc: seq<byte>, name: seq<Label>)
    requires acc != []
    ensures exists rest :: ConcatFrom(acc, name) == acc + rest
                           && (name == [] ==> rest == []) && (name != [] ==> rest != [] && rest[0] == DOT)
    decreases |name|
  {
    if name == [] {
      assert acc == acc + [];
    } else {
      var next := acc + [DOT] + name[0];
      ConcatPrefix(next, name[1..]);
      var rest :| ConcatFrom(next, name[1..]) == next + rest;
      assert next + rest == acc + ([DOT] + name[0] + rest);
    }
  }

  lemma {:induction false} ConcatAccumulates(acc: seq<byte>, name: seq<Label>)
    requires acc != [] && name != [] && PlainName(name)
    ensures ConcatFrom(acc, name) == acc + [DOT] + ConcatFrom([], name)
    decreases |name|
  {
    var next := acc + [DOT] + name[0];
    if |name| > 1 {
      ConcatAccumulates(next, name[1..]);
      ConcatAccumulates(name[0], name[1..]);
      assert next + [DOT] + ConcatFrom([], name[1..]) == acc + [DOT] + (name[0] + [DOT] + ConcatFrom([], name[1..]));
    }
  }

  /** Joined strings identify dot-free label lists: the test the source makes is label-list equality. */
  lemma {:induction false} ConcatInjective(a: seq<Label>, b: seq<Label>)
    requires PlainName(a) && PlainName(b)
    ensures ConcatFrom([], a) == ConcatFrom([], b) <==> a == b
    decreases |a|
  {
    if a == [] || b == [] {
      if a != [] { ConcatPrefix(a[0], a[1..]); assert PlainLabel(a[0]); }
      if b != [] { ConcatPrefix(b[0], b[1..]); assert PlainLabel(b[0]); }
    } else {
      var ja, jb := ConcatFrom([], a), ConcatFrom([], b);
      FirstLabel(a);
      FirstLabel(b);
      if ja == jb {
        assert a[0] == b[0];
        if |a| > 1 && |b| > 1 {
          ConcatAccumulates(a[0], a[1..]);
          ConcatAccumulates(b[0], b[1..]);
          assert ja[|a[0]| + 1..] == ConcatFrom([], a[1..]);
          assert jb[|b[0]| + 1..] == ConcatFrom([], b[1..]);
          ConcatInjective(a[1..], b[1..]);
          assert a == [a[0]] + a[1..] && b == [b[0]] + b[1..];
        }
      }
    }
  }

  /** The first label of a name is what comes before the first dot of the joined string. */
  lemma FirstLabel(name: seq<Label>)
    requires name != [] && PlainName(name)
    ensures var j := ConcatFrom([], name);
            && FirstDot(j) == |name[0]| && j[..|name[0]|] == name[0]
            && (FirstDot(j) == |j| <==> |name| == 1)
  {
    assert PlainLabel(name[0]);
    ConcatPrefix(name[0], name[1..]);
    var rest :| ConcatFrom(name[0], name[1..]) == name[0] + rest
                && (name[1..] == [] ==> rest == []) && (name[1..] != [] ==> rest != [] && rest[0] == DOT);
    assert (name[0] + rest)[..|name[0]|] == name[0];
    var j := name[0] + rest;
    assert forall k :: 0 <= k < |name[0]| ==> j[k] == name[0][k];
  }

  /** Without the restriction the test is too weak: a dot inside a label goes unnoticed. */
  lemma DottedLabelsCollide(x: Label, y: Label)
    requires PlainLabel(x) && PlainLabel(y)
    ensures ConcatFrom([], [x + [DOT] + y]) == ConcatFrom([], [x, y])
  {
    assert [x, y][1..] == [y] && [y][1..] == [];
    assert [x + [DOT] + y][1..] == [];
    assert ConcatFrom([], [x, y]) == ConcatFrom(x, [y]) == ConcatFrom(x + [DOT] + y, []);
  }

  /** The labels with a full stop between them. */
  function Dotted(name: seq<Label>): seq<byte>
    decreases |name|
  {
    if name == [] then [] else if |name| == 1 then name[0] else name[0] + [46] + Dotted(name[1..])
  }

  lemma {:induction false} FoldIsDotted(acc: seq<byte>, name: seq<Label>)
    requires acc != []
    ensures ConcatFrom(acc, name) == if name == [] then acc else acc + [46] + Dotted(name)
    decreases |name|
  {
    if name != [] {
      var next := acc + [DOT] + name[0];
      FoldIsDotted(next, name[1..]);
      if |name| > 1 {
        assert next + [46] + Dotted(name[1..]) == acc + [46] + (name[0] + [46] + Dotted(name[1..]));
      }
    }
  }

  /** For labels as they come off the wire, non-empty, the left fold joins them with full stops. */
  lemma JoinedIsDotted(name: seq<Label>)
    requires forall i :: 0 <= i < |name| ==> name[i] != []
    ensures ConcatFrom([], name) == Dotted(name)
  {
    if name != [] {
      assert name[0] != [];
      FoldIsDotted(name[0], name[1..]);
    }
  }

  // ----- exactly when the joined strings tell

  function Dots(s: seq<byte>): nat {
    if s == [] then 0 else Dots(s[..|s| - 1]) + if s[|s| - 1] == DOT then 1 else 0
  }

  function LabelDots(name: seq<Label>): nat
    decreases |name|
  {
    if name == [] then 0 else Dots(name[0]) + LabelDots(name[1..])
  }

  lemma {:induction false} DotsConcat(a: seq<byte>, b: seq<byte>)
    ensures Dots(a + b) == Dots(a) + Dots(b)
    decreases |b|
  {
    if b == [] {
      assert a + b == a;
    } else {
      assert (a + b)[..|a + b| - 1] == a + b[..|b| - 1];
      DotsConcat(a, b[..|b| - 1]);
    }
  }

  /** A joined string has the dots of its labels and one for each label after the first. */
  lemma {:induction false} DotsJoined(acc: seq<byte>, name: seq<Label>)
    requires acc != []
    ensures Dots(ConcatFrom(acc, name)) == Dots(acc) + LabelDots(name) + |name|
    decreases |name|
  {
    if name != [] {
      DotsConcat(acc + [DOT], name[0]);
      DotsConcat(acc, [DOT]);
      assert [DOT][..0] == [];
      DotsJoined(acc + [DOT] + name[0], name[1..]);
    }
  }

  predicate NonEmptyLabels(name: seq<Label>) {
    forall i :: 0 <= i < |name| ==> name[i] != []
  }

  lemma {:induction false} NoDots(s: seq<byte>)
    ensures Dots(s) == 0 <==> DOT !in s
    decreases |s|
  {
    if s != [] {
      NoDots(s[..|s| - 1]);
      assert s == s[..|s| - 1] + [s[|s| - 1]];
    }
  }

  lemma {:induction false} PlainIffNoDots(name: seq<Label>)
    requires NonEmptyLabels(name)
    ensures PlainName(name) <==> LabelDots(name) == 0
    decreases |name|
  {
    if name != [] {
      NoDots(name[0]);
      PlainIffNoDots(name[1..]);
      assert name == [name[0]] + name[1..];
    }
  }

  /** Exactly: for labels as they come off the wire, non-empty, a joined string equal to that of a
      dot-free name means the same labels if and only if it has as many. */
  lemma SameJoinedString(a: seq<Label>, b: seq<Label>)
    requires NonEmptyLabels(a) && PlainName(b)
    ensures ConcatFrom([], a) == ConcatFrom([], b) && |a| == |b| <==> a == b
  {
    if ConcatFrom([], a) == ConcatFrom([], b) && |a| == |b| && a != [] {
      assert PlainLabel(b[0]);
      DotsJoined(a[0], a[1..]);
      DotsJoined(b[0], b[1..]);
      PlainIffNoDots(a);
      PlainIffNoDots(b);
      ConcatInjective(a, b);
    }
  }

  // ----- records

  datatype RData =
    | Ptr(target: seq<Label>)
    | Srv(port: uint16, target: seq<Label>)
    | A(address: seq<byte>)
    | Aaaa(groups: seq<uint16>)
    | Other

  datatype Record = Record(owner: seq<Label>, rdata: RData)

  function U16(data: seq<byte>, at: nat): uint16
    requires at + 2 <= |data|
  {
    Be16(data[at], data[at + 1])
  }

  function Groups(octets: seq<byte>): seq<uint16>
    requires |octets| == 16
  {
    seq(8, i requires 0 <= i < 8 => Be16(octets[2 * i], octets[2 * i + 1]))
  }

  /** A name within the reader's reach: it denotes the labels and ends before `end`. */
  ghost predicate NameAt(data: seq<byte>, at: nat, labels: seq<Label>, end: nat) {
    GoodPointers(data, at, at) && Denotes(data, at, at, labels, end)
  }

  /** The record data occupies exactly `at..next`: types 12 (PTR), 33 (SRV), 1 (A) and 28 (AAAA), numbers with
      the most significant octet first. */
  ghost predicate RDataAt(data: seq<byte>, kind: nat, at: nat, next: nat, r: RData) {
    at <= next <= |data| &&
    if kind == 12 then r.Ptr? && NameAt(data, at, r.target, next)
    else if kind == 33 then
      && r.Srv? && at + 6 <= next && r.port == data[at + 4] as int * 256 + data[at + 5]
      && NameAt(data, at + 6, r.target, next)
    else if kind == 1 then r.A? && next == at + 4 && r.address == data[at..next]
    else if kind == 28 then
      && r.Aaaa? && next == at + 16 && |r.groups| == 8
      && forall i :: 0 <= i < 8 ==> r.groups[i] == data[at + 2 * i] as int * 256 + data[at + 2 * i + 1]
    else r.Other?
  }

  /** Section 4.1.3 of RFC 1035: owner name, type, class, TTL, length, data. */
  ghost predicate RecordBody(data: seq<byte>, p: nat, r: RData, next: nat) {
    && p + 10 <= |data| && next == p + 10 + (data[p + 8] as int * 256 + data[p + 9])
    && RDataAt(data, data[p] as int * 256 + data[p + 1], p + 10, next, r)
  }

  ghost predicate RecordAt(data: seq<byte>, at: nat, r: Record, next: nat) {
    exists p: nat :: NameAt(data, at, r.owner, p) && RecordBody(data, p, r.rdata, next)
  }

  ghost predicate RecordsAt(data: seq<byte>, at: nat, rs: seq<Record>, end: nat)
    decreases |rs|
  {
    if rs == [] then end == at
    else exists next :: RecordAt(data, at, rs[0], next) && RecordsAt(data, next, rs[1..], end)
  }

  // ----- what the loop computes

  datatype Result = Result(hostname: seq<byte>, service: seq<byte>, ipv4: seq<byte>, ipv6: seq<uint16>, port: uint16)

  datatype State = State(result: Result, isBf: bool)

  datatype Outcome<+T> = Ok(value: T) | Threw | Crashed

  function AsBytes(s: string): seq<byte>
    requires forall i :: 0 <= i < |s| ==> s[i] < 128 as char
  {
    seq(|s|, i requires 0 <= i < |s| => s[i] as int)
  }

  const SEARCH: seq<Label> := [AsBytes("_blickfeld-lidar"), AsBytes("_tcp"), AsBytes("local")]

  function WithSrv(st: State, owner: seq<Label>, port: uint16, target: seq<Label>): State {
    var r := st.result.(port := port, hostname := ConcatFrom([], target));
    if owner == [] then st.(result := r)
    else State(r.(service := owner[0]), ConcatFrom([], owner[1..]) == ConcatFrom([], SEARCH))
  }

  function CodeRecord(data: seq<byte>, at: nat, st: State, depth: nat): Outcome<(State, nat)> {
    var (name, p) := CodeName(data, at, depth);
    if !name.Labels? then (if name.OutOfRange? then Threw else Crashed)
    else if |data| < p + ANSWER_SIZE then Threw
    else CodeRData(data, U16(data, p), U16(data, p + 8), p + ANSWER_SIZE, name.labels, st, depth)
  }

  function CodeRData(data: seq<byte>, kind: nat, size: nat, at: nat, owner: seq<Label>, st: State, depth: nat)
    : Outcome<(State, nat)>
  {
    if kind == TYPE_PTR then
      var (n, end) := CodeName(data, at, depth);
      if n.Labels? then Ok((st, end)) else if n.OutOfRange? then Threw else Crashed
    else if kind == TYPE_SRV then
      if |data| < at + 6 then Threw
      else
        var (n, end) := CodeName(data, at + 6, depth);
        if n.Labels? then Ok((WithSrv(st, owner, U16(data, at + 4), n.labels), end))
        else if n.OutOfRange? then Threw else Crashed
    else if kind == TYPE_A then
      if |data| < at + 4 then Threw else Ok((st.(result := st.result.(ipv4 := data[at..at + 4])), at + 4))
    else if kind == TYPE_AAAA then
      if |data| < at + 16 then Threw else Ok((st.(result := st.result.(ipv6 := Groups(data[at..at + 16]))), at + 16))
    else
      if |data| < at + size then Threw else Ok((st, at + size))
  }

  function CodeRecords(data: seq<byte>, at: nat, count: nat, st: State, depth: nat): Outcome<(State, nat)>
    decreases count
  {
    if count == 0 then Ok((st, at))
    else
      var r := CodeRecord(data, at, st, depth);
      if r.Ok? then CodeRecords(data, r.value.1, count - 1, r.value.0, depth) else r
  }

  /** One received datagram: nothing is reported when anything throws. `unset` holds what the
      uninitialised fields of the result happen to contain. */
  function CodeMessage(data: seq<byte>, unset: Result, depth: nat): Outcome<State> {
    if |data| < HEADER_SIZE then Threw
    else
      var r := CodeRecords(data, HEADER_SIZE, U16(data, 6), State(unset, false), depth);
      if r.Ok? then Ok(r.value.0) else if r.Threw? then Threw else Crashed
  }

  class Discover {
    var results: seq<Result>

    constructor ()
      ensures results == []
    {
      results := [];
    }

    method Recv(data: seq<byte>, unset: Result, depth: nat) returns (crashed: bool)
      modifies this
      ensures crashed == CodeMessage(data, unset, depth).Crashed?
      ensures var m := CodeMessage(data, unset, depth);
              results == old(results) + if m.Ok? && m.value.isBf then [m.value.result] else []
    {
      var buffer := new SafeBuffer(data);
      var r := ReadMessage(buffer, unset, depth);
      if r.Ok? && r.value.isBf {
        results := results + [r.value.result];
      }
      crashed := r.Crashed?;
    }

    method ReadMessage(buffer: SafeBuffer, unset: Result, depth: nat) returns (r: Outcome<State>)
      requires buffer.offset == 0
      modifies buffer
      ensures r == CodeMessage(buffer.data, unset, depth)
    {
      hide CodeName, CodeRData;
      var header := buffer.Read(HEADER_SIZE);
      if header.None? {
        return Threw;
      }
      var count := Be16(header.value[6], header.value[7]) as int;
      var st := State(unset, false);
      while count > 0
        invariant count >= 0
        invariant CodeRecords(buffer.data, HEADER_SIZE, U16(buffer.data, 6), State(unset, false), depth)
               == CodeRecords(buffer.data, buffer.offset, count, st, depth)
      {
        count := count - 1;
        var name := buffer.ReadName(depth);
        if !name.Labels? {
          return if name.OutOfRange? then Threw else Crashed;
        }
        var answer := buffer.Read(ANSWER_SIZE);
        if answer.None? {
          return Threw;
        }
        var kind, size := Be16(answer.value[0], answer.value[1]), Be16(answer.value[8], answer.value[9]);
        var next := ReadRData(buffer, kind, size, name.labels, st, depth);
        if !next.Ok? {
          return next;
        }
        st := next.value;
      }
      r := Ok(st);
    }

    method ReadRData(buffer: SafeBuffer, kind: nat, size: nat, owner: seq<Label>, st: State, depth: nat)
      returns (r: Outcome<State>)
      modifies buffer
      ensures var c := CodeRData(buffer.data, kind, size, old(buffer.offset), owner, st, depth);
              if c.Ok? then r == Ok(c.value.0) && buffer.offset == c.value.1
              else r == if c.Threw? then Threw else Crashed
    {
      hide CodeName, WithSrv, ConcatFrom, U16, Groups, AsBytes;
      if kind == TYPE_PTR {
        var n := buffer.ReadName(depth);
        return if n.Labels? then Ok(st) else if n.OutOfRange? then Threw else Crashed;
      } else if kind == TYPE_SRV {
        r := ReadSrv(buffer, size, owner, st, depth);
      } else if kind == TYPE_A {
        var address := buffer.Read(4);
        return if address.None? then Threw else Ok(st.(result := st.result.(ipv4 := address.value)));
      } else if kind == TYPE_AAAA {
        var address := buffer.Read(16);
        return if address.None? then Threw else Ok(st.(result := st.result.(ipv6 := Groups(address.value))));
      } else {
        var ok := buffer.Skip(size);
        return if ok then Ok(st) else Threw;
      }
    }

    /** The branch for SRV records. */
    method ReadSrv(buffer: SafeBuffer, size: nat, owner: seq<Label>, st: State, depth: nat)
      returns (r: Outcome<State>)
      modifies buffer
      ensures var c := CodeRData(buffer.data, TYPE_SRV, size, old(buffer.offset), owner, st, depth);
              if c.Ok? then r == Ok(c.value.0) && buffer.offset == c.value.1
              else r == if c.Threw? then Threw else Crashed
    {
      hide CodeName, ConcatFrom, AsBytes;
      var ok := buffer.Skip(4);
      if !ok {
        return Threw;
      }
      var port := buffer.Read(2);
      if port.None? {
        return Threw;
      }
      var host := buffer.ReadName(depth);
      if !host.Labels? {
        return if host.OutOfRange? then Threw else Crashed;
      }
      var hostname := ConcatName(host.labels);
      var result := st.result.(port := Be16(port.value[0], port.value[1]), hostname := hostname);
      var isBf := st.isBf;
      if |owner| > 0 {
        result := result.(service := owner[0]);
        var rest := ConcatName(owner[1..]);
        var search := ConcatName(SEARCH);
        isBf := rest == search;
      }
      r := Ok(State(result, isBf));
    }
  }

  // ----- the loop stays in step with the records

  /** The effect of one record. */
  function Apply(st: State, r: Record): State {
    match r.rdata
    case Srv(port, target) => WithSrv(st, r.owner, port, target)
    case A(address) => st.(result := st.result.(ipv4 := address))
    case Aaaa(groups) => st.(result := st.result.(ipv6 := groups))
    case _ => st
  }

  function Fold(st: State, rs: seq<Record>): State
    decreases |rs|
  {
    if rs == [] then st else Fold(Apply(st, rs[0]), rs[1..])
  }

  lemma ReadsName(data: seq<byte>, at: nat, labels: seq<Label>, end: nat, depth: nat)
    requires NameAt(data, at, labels, end) && depth > |data|
    ensures CodeName(data, at, depth) == (Labels(labels), end)
  {
    assert at < |data|;
    NameDecoding(data, at, at, depth);
  }

  lemma GroupsAre(data: seq<byte>, at: nat, groups: seq<uint16>)
    requires at + 16 <= |data| && |groups| == 8
    requires forall i :: 0 <= i < 8 ==> groups[i] == data[at + 2 * i] as int * 256 + data[at + 2 * i + 1]
    ensures Groups(data[at..at + 16]) == groups
  {
  }

  lemma RecordInStep(data: seq<byte>, at: nat, r: Record, next: nat, st: State, depth: nat)
    requires RecordAt(data, at, r, next) && depth > |data|
    ensures CodeRecord(data, at, st, depth) == Ok((Apply(st, r), next))
  {
    hide CodeName, NameAt, CodeRData, RDataAt, Apply;
    var p: nat :| NameAt(data, at, r.owner, p) && RecordBody(data, p, r.rdata, next);
    ReadsName(data, at, r.owner, p, depth);
    RDataInStep(data, U16(data, p), U16(data, p + 8), p + ANSWER_SIZE, next, r, st, depth);
  }

  lemma RDataInStep(data: seq<byte>, kind: nat, size: nat, at: nat, next: nat, r: Record, st: State, depth: nat)
    requires RDataAt(data, kind, at, next, r.rdata) && next == at + size && depth > |data|
    ensures CodeRData(data, kind, size, at, r.owner, st, depth) == Ok((Apply(st, r), next))
  {
    hide CodeName, NameAt, WithSrv, Groups;
    match r.rdata {
      case Aaaa(groups) => GroupsAre(data, at, groups);
      case Ptr(target) => ReadsName(data, at, target, next, depth);
      case Srv(_, target) => ReadsName(data, at + 6, target, next, depth);
      case _ =>
    }
  }

  /** Every record read leaves the cursor exactly at the next one. */
  lemma {:induction false} LoopInStep(data: seq<byte>, at: nat, rs: seq<Record>, end: nat, st: State, depth: nat)
    requires RecordsAt(data, at, rs, end) && depth > |data|
    ensures CodeRecords(data, at, |rs|, st, depth) == Ok((Fold(st, rs), end))
    decreases |rs|
  {
    hide RecordAt, CodeRecord;
    if rs != [] {
      var next :| RecordAt(data, at, rs[0], next) && RecordsAt(data, next, rs[1..], end);
      RecordInStep(data, at, rs[0], next, st, depth);
      LoopInStep(data, next, rs[1..], end, Apply(st, rs[0]), depth);
    }
  }

  lemma {:induction false} RecordsPrefix(data: seq<byte>, at: nat, rs: seq<Record>, end: nat, k: nat) returns (mid: nat)
    requires RecordsAt(data, at, rs, end) && k <= |rs|
    ensures RecordsAt(data, at, rs[..k], mid) && RecordsAt(data, mid, rs[k..], end)
    decreases k
  {
    hide RecordAt;
    if k == 0 {
      mid := at;
      assert rs[..0] == [] && rs[0..] == rs;
    } else {
      var next :| RecordAt(data, at, rs[0], next) && RecordsAt(data, next, rs[1..], end);
      mid := RecordsPrefix(data, next, rs[1..], end, k - 1);
      assert rs[1..][..k - 1] == rs[..k][1..] && rs[1..][k - 1..] == rs[k..];
      assert RecordAt(data, at, rs[..k][0], next);
    }
  }

  /** After `k` iterations, for every `k`, the cursor is where the remaining records begin. */
  lemma CursorAtNextRecord(data: seq<byte>, at: nat, rs: seq<Record>, end: nat, k: nat, st: State, depth: nat)
    requires RecordsAt(data, at, rs, end) && k <= |rs| && depth > |data|
    ensures var c := CodeRecords(data, at, k, st, depth);
            c.Ok? && RecordsAt(data, c.value.1, rs[k..], end)
  {
    var mid := RecordsPrefix(data, at, rs, end, k);
    LoopInStep(data, at, rs[..k], mid, st, depth);
  }

  // ----- the last record of each kind wins

  datatype Kind = AnySrv | NamedSrv | AnyA | AnyAaaa

  predicate Is(kind: Kind, r: Record) {
    match kind
    case AnySrv => r.rdata.Srv?
    case NamedSrv => r.rdata.Srv? && r.owner != []
    case AnyA => r.rdata.A?
    case AnyAaaa => r.rdata.Aaaa?
  }

  function Last(rs: seq<Record>, kind: Kind): (r: Option<Record>)
    ensures r.Some? ==> Is(kind, r.value)
  {
    if rs == [] then None
    else if Is(kind, rs[|rs| - 1]) then Some(rs[|rs| - 1])
    else Last(rs[..|rs| - 1], kind)
  }

  /** What the last record of a kind sets; without one it stays as it was. */
  ghost predicate ShowsLast(was: State, rs: seq<Record>, now: State, kind: Kind) {
    var last := Last(rs, kind);
    match kind
    case AnySrv =>
      if last.None? then now.result.port == was.result.port && now.result.hostname == was.result.hostname
      else
        && now.result.port == last.value.rdata.port
        && now.result.hostname == ConcatFrom([], last.value.rdata.target)
    case NamedSrv =>
      if last.None? then now.result.service == was.result.service && now.isBf == was.isBf
      else
        && now.result.service == last.value.owner[0]
        && now.isBf == (ConcatFrom([], last.value.owner[1..]) == ConcatFrom([], SEARCH))
    case AnyA => now.result.ipv4 == if last.None? then was.result.ipv4 else last.value.rdata.address
    case AnyAaaa => now.result.ipv6 == if last.None? then was.result.ipv6 else last.value.rdata.groups
  }

  /** Port and host of the last SRV record, service of the last SRV record that has a name, addresses
      of the last address records. */
  ghost predicate Summarises(was: State, rs: seq<Record>, now: State) {
    forall kind :: ShowsLast(was, rs, now, kind)
  }

  lemma {:induction false} FoldSnoc(st: State, rs: seq<Record>, r: Record)
    ensures Fold(st, rs + [r]) == Apply(Fold(st, rs), r)
    decreases |rs|
  {
    if rs == [] {
      assert [r][1..] == [];
    } else {
      assert (rs + [r])[1..] == rs[1..] + [r];
      FoldSnoc(Apply(st, rs[0]), rs[1..], r);
    }
  }

  lemma LastSnoc(rs: seq<Record>, r: Record, kind: Kind)
    ensures Last(rs + [r], kind) == if Is(kind, r) then Some(r) else Last(rs, kind)
  {
    assert (rs + [r])[..|rs + [r]| - 1] == rs;
  }

  lemma ApplyShowsLast(was: State, rs: seq<Record>, now: State, r: Record, kind: Kind)
    requires ShowsLast(was, rs, now, kind)
    ensures ShowsLast(was, rs + [r], Apply(now, r), kind)
  {
    hide ConcatFrom, Last;
    LastSnoc(rs, r, kind);
  }

  lemma {:induction false} FoldShowsLast(st: State, rs: seq<Record>, kind: Kind)
    ensures ShowsLast(st, rs, Fold(st, rs), kind)
    decreases |rs|
  {
    hide ConcatFrom, Apply;
    if rs != [] {
      var init, r := rs[..|rs| - 1], rs[|rs| - 1];
      FoldShowsLast(st, init, kind);
      FoldSnoc(st, init, r);
      assert rs == init + [r];
      ApplyShowsLast(st, init, Fold(st, init), r, kind);
    }
  }

  lemma FoldSummarises(st: State, rs: seq<Record>)
    ensures Summarises(st, rs, Fold(st, rs))
  {
    hide ShowsLast;
    forall kind
      ensures ShowsLast(st, rs, Fold(st, rs), kind)
    {
      FoldShowsLast(st, rs, kind);
    }
  }

  /** The service test on an owner's labels after the first is label-list equality exactly when there are
      as many labels as in the service name. */
  lemma ServiceTest(rest: seq<Label>)
    requires NonEmptyLabels(rest)
    ensures ConcatFrom([], rest) == ConcatFrom([], SEARCH) && |rest| == |SEARCH| <==> rest == SEARCH
  {
    SearchIsPlain();
    SameJoinedString(rest, SEARCH);
  }

  /** An owner of three labels that passes for the service of four: its second label has a dot in it. */
  lemma DottedServicePasses(st: State, instance: Label, port: uint16, target: seq<Label>)
    ensures var owner := [instance, SEARCH[0] + [DOT] + SEARCH[1], SEARCH[2]];
            owner[1..] != SEARCH && WithSrv(st, owner, port, target).isBf
  {
    hide AsBytes;
    var owner := [instance, SEARCH[0] + [DOT] + SEARCH[1], SEARCH[2]];
    assert owner[1..] == [SEARCH[0] + [DOT] + SEARCH[1]] + [SEARCH[2]];
    SearchIsPlain();
    assert PlainLabel(SEARCH[0]) && PlainLabel(SEARCH[1]);
    JoinedPair(SEARCH[0], SEARCH[1], SEARCH[2]);
    assert SEARCH == [SEARCH[0], SEARCH[1], SEARCH[2]];
  }

  lemma JoinedPair(x: Label, y: Label, z: Label)
    requires x != []
    ensures ConcatFrom([], [x + [DOT] + y] + [z]) == ConcatFrom([], [x, y, z])
  {
    assert [x, y, z][1..] == [y, z] && [y, z][1..] == [z] && [z][1..] == [];
    assert ([x + [DOT] + y] + [z])[1..] == [z];
    assert ConcatFrom([], [x, y, z]) == ConcatFrom(x, [y, z]) == ConcatFrom(x + [DOT] + y, [z]);
  }

  /** The labels of a name on the wire are never empty. */
  lemma {:induction false} DenotedLabels(data: seq<byte>, start: nat, at: nat, labels: seq<Label>, end: nat)
    requires Denotes(data, start, at, labels, end)
    ensures NonEmptyLabels(labels)
    decreases start, |data| - at
  {
    var len := data[at];
    if len == 0 {
    } else if len < 64 {
      DenotedLabels(data, start, at + 1 + len, labels[1..], end);
      assert labels == [labels[0]] + labels[1..];
    } else {
      var target := RfcTarget(len, data[at + 1]);
      var e :| Denotes(data, target, target, labels, e);
      DenotedLabels(data, target, target, labels, e);
    }
  }

  lemma {:induction false} OwnersNonEmpty(data: seq<byte>, at: nat, rs: seq<Record>, end: nat, i: nat)
    requires RecordsAt(data, at, rs, end) && i < |rs|
    ensures NonEmptyLabels(rs[i].owner)
    decreases |rs|
  {
    hide RecordBody, GoodPointers, Denotes;
    var next :| RecordAt(data, at, rs[0], next) && RecordsAt(data, next, rs[1..], end);
    if i == 0 {
      var p: nat :| NameAt(data, at, rs[0].owner, p);
      DenotedLabels(data, at, at, rs[0].owner, p);
    } else {
      OwnersNonEmpty(data, next, rs[1..], end, i - 1);
    }
  }

  lemma {:induction false} LastIsIn(rs: seq<Record>, kind: Kind) returns (i: nat)
    requires Last(rs, kind).Some?
    ensures i < |rs| && rs[i] == Last(rs, kind).value
    decreases |rs|
  {
    if Is(kind, rs[|rs| - 1]) {
      i := |rs| - 1;
    } else {
      i := LastIsIn(rs[..|rs| - 1], kind);
    }
  }

  /** Main result: from a well-formed response without questions the datagram handler computes the
      last port, host, service and addresses. What it reports is a Blickfeld service, by the labels of the
      last named SRV record's owner, exactly when that owner has as many labels as such a service; and no
      Blickfeld service goes unreported. */
  lemma MessageResult(data: seq<byte>, rs: seq<Record>, end: nat, unset: Result, depth: nat)
    requires |data| >= HEADER_SIZE && U16(data, 6) == |rs| && RecordsAt(data, HEADER_SIZE, rs, end) && depth > |data|
    ensures CodeMessage(data, unset, depth).Ok?
    ensures var out := CodeMessage(data, unset, depth).value;
            && Summarises(State(unset, false), rs, out)
            && match Last(rs, NamedSrv)
               case None => !out.isBf
               case Some(r) =>
                 && (out.isBf && |r.owner| == 1 + |SEARCH| <==> r.owner[1..] == SEARCH)
                 && (PlainName(r.owner[1..]) ==> (out.isBf <==> r.owner[1..] == SEARCH))
  {
    hide CodeRecords, ConcatFrom, RecordsAt, AsBytes;
    LoopInStep(data, HEADER_SIZE, rs, end, State(unset, false), depth);
    FoldSummarises(State(unset, false), rs);
    if Last(rs, NamedSrv).Some? {
      assert ShowsLast(State(unset, false), rs, Fold(State(unset, false), rs), NamedSrv);
      var i := LastIsIn(rs, NamedSrv);
      OwnersNonEmpty(data, HEADER_SIZE, rs, end, i);
      ServiceTest(rs[i].owner[1..]);
      if PlainName(rs[i].owner[1..]) {
        SearchIsPlain();
        ConcatInjective(rs[i].owner[1..], SEARCH);
      }
    } else {
      assert ShowsLast(State(unset, false), rs, Fold(State(unset, false), rs), NamedSrv);
    }
  }

  lemma SearchIsPlain()
    ensures PlainName(SEARCH)
  {
    assert "_blickfeld-lidar"[0] == '_' && "_tcp"[0] == '_' && "local"[0] == 'l';
  }

  // ----- a datagram that exhausts the stack

  /** The answer count is one, and the only name, at the end of the header, points at itself. */
  const LOOPING_DATAGRAM: seq<byte> := [0, 0, 0, 0, 0, 0, 0, 1, 0, 0, 0, 0, 0xC0, 0x0C]

  lemma SelfPointerCrashes(unset: Result, depth: nat)
    ensures CodeMessage(LOOPING_DATAGRAM, unset, depth).Crashed?
  {
    SelfPointerOverflows(LOOPING_DATAGRAM, HEADER_SIZE, depth);
  }

  // ----- datagrams that get the wrong answer

  const SRV_PORT: uint16 := 443

  /** Type SRV, class IN, seven octets of data: priority, weight, port, and the root as target. */
  const SRV_REST: seq<byte> := [0, 0x21, 0, 1, 0, 0, 0, 0, 0, 7] + [0, 0, 0, 0, 1, 187, 0]

  /** Type TXT, class IN, without data. */
  const TXT_REST: seq<byte> := [0, 0x10, 0, 1, 0, 0, 0, 0, 0, 0]

  /** `rest` stands at `at`. */
  ghost predicate StandsAt(data: seq<byte>, at: nat, rest: seq<byte>) {
    at + |rest| <= |data| && data[at..at + |rest|] == rest
  }

  lemma StandsInMiddle(pre: seq<byte>, rest: seq<byte>, post: seq<byte>)
    ensures StandsAt(pre + rest + post, |pre|, rest)
  {
  }

  lemma SrvRecord(data: seq<byte>, at: nat, owner: seq<Label>, p: nat, st: State, depth: nat)
    requires CodeName(data, at, depth) == (Labels(owner), p) && depth > 0
    requires StandsAt(data, p, SRV_REST)
    ensures CodeRecord(data, at, st, depth) == Ok((WithSrv(st, owner, SRV_PORT, []), p + |SRV_REST|))
  {
    hide WithSrv;
    var r := data[p..p + |SRV_REST|];
    assert data[p] == r[0] && data[p + 1] == r[1] && data[p + 8] == r[8] && data[p + 9] == r[9];
    assert data[p + 14] == r[14] && data[p + 15] == r[15] && data[p + 16] == r[16];
    assert CodeName(data, p + 16, depth) == (Labels([]), p + 17);
  }

  lemma TxtRecord(data: seq<byte>, at: nat, owner: seq<Label>, p: nat, size: nat, st: State, depth: nat)
    requires CodeName(data, at, depth) == (Labels(owner), p)
    requires p + ANSWER_SIZE + size <= |data| && U16(data, p) == 0x10 && U16(data, p + 8) == size
    ensures CodeRecord(data, at, st, depth) == Ok((st, p + ANSWER_SIZE + size))
  {
    hide CodeName;
  }

  lemma ReadsWritten(data: seq<byte>, at: nat, labels: seq<Label>, depth: nat)
    requires Writable(labels)
    requires StandsAt(data, at, Write(labels, None)) && depth > at
    ensures CodeName(data, at, depth) == (Labels(labels), at + |Write(labels, None)|)
    ensures Denotes(data, at, at, labels, at + |Write(labels, None)|)
  {
    hide CodeName, Denotes, Write, GoodPointers;
    NameRoundTrip(data, at, labels, None, [], depth);
    WrittenDenotes(data, at, at, labels, None, []);
    assert labels + [] == labels;
  }

  /** Answer count one, and one SRV record. */
  function SrvDatagram(owner: seq<Label>): seq<byte>
    requires Writable(owner)
  {
    [0, 0, 0, 0, 0, 0, 0, 1, 0, 0, 0, 0] + Write(owner, None) + SRV_REST
  }

  lemma SrvDatagramResult(owner: seq<Label>, unset: Result, depth: nat)
    requires Writable(owner) && depth > HEADER_SIZE
    ensures CodeMessage(SrvDatagram(owner), unset, depth) == Ok(WithSrv(State(unset, false), owner, SRV_PORT, []))
  {
    hide WithSrv, CodeRecord, CodeName, Write;
    var data := SrvDatagram(owner);
    var header, w := data[..HEADER_SIZE], Write(owner, None);
    assert data == header + w + SRV_REST;
    StandsInMiddle(header, w, SRV_REST);
    StandsInMiddle(header + w, SRV_REST, []);
    assert data == (header + w) + SRV_REST + [];
    ReadsWritten(data, HEADER_SIZE, owner, depth);
    SrvRecord(data, HEADER_SIZE, owner, HEADER_SIZE + |w|, State(unset, false), depth);
    assert U16(data, 6) == 1;
    OneRecord(data, HEADER_SIZE, State(unset, false), depth);
  }

  lemma OneRecord(data: seq<byte>, at: nat, st: State, depth: nat)
    requires CodeRecord(data, at, st, depth).Ok?
    ensures CodeRecords(data, at, 1, st, depth) == CodeRecord(data, at, st, depth)
  {
    hide CodeRecord;
    var r := CodeRecord(data, at, st, depth).value;
    assert CodeRecords(data, r.1, 0, r.0, depth) == Ok((r.0, r.1));
  }

  lemma SearchLabels()
    ensures |SEARCH| == 3 && |SEARCH[0]| == 16 && |SEARCH[1]| == 4 && |SEARCH[2]| == 5
  {
  }

  /** A datagram with such an owner is reported. */
  lemma DottedServiceReported(instance: Label, unset: Result, depth: nat)
    requires 0 < |instance| < 64 && depth > HEADER_SIZE
    ensures var owner := [instance, SEARCH[0] + [DOT] + SEARCH[1], SEARCH[2]];
            && Writable(owner)
            && owner[1..] != SEARCH
            && CodeMessage(SrvDatagram(owner), unset, depth).Ok?
            && CodeMessage(SrvDatagram(owner), unset, depth).value.isBf
            && CodeMessage(SrvDatagram(owner), unset, depth).value.result.service == instance
  {
    hide AsBytes, CodeMessage, SrvDatagram, ConcatFrom;
    SearchLabels();
    var owner := [instance, SEARCH[0] + [DOT] + SEARCH[1], SEARCH[2]];
    DottedServicePasses(State(unset, false), instance, SRV_PORT, []);
    SrvDatagramResult(owner, unset, depth);
  }

  // A Blickfeld service whose owner is compressed: the name stands at offset 256, where a record of its own
  // puts it, and the SRV record's owner is a pointer there.

  function Zeros(n: nat): (s: seq<byte>)
    ensures |s| == n
  {
    seq(n, _ => 0)
  }

  /** Header with answer count three, and a record that fills the message up to offset 256. */
  const FILLER: seq<byte> :=
    [0, 0, 0, 0, 0, 0, 0, 3, 0, 0, 0, 0] + [0] + [0, 0x10, 0, 1, 0, 0, 0, 0, 0, 233] + Zeros(233)

  const FAR_POINTER: seq<byte> := [0xC1, 0x00]

  function FarDatagram(owner: seq<Label>): seq<byte>
    requires Writable(owner)
  {
    FILLER + Write(owner, None) + (TXT_REST + FAR_POINTER + SRV_REST)
  }

  /** Where the third record of that datagram begins. */
  function FarAt(owner: seq<Label>): nat
    requires Writable(owner)
  {
    256 + |Write(owner, None)| + ANSWER_SIZE
  }

  lemma FivePieces(a: seq<byte>, b: seq<byte>, c: seq<byte>, d: seq<byte>, e: seq<byte>)
    ensures var s := a + b + (c + d + e);
            && StandsAt(s, 0, a) && StandsAt(s, |a|, b) && StandsAt(s, |a| + |b|, c)
            && StandsAt(s, |a| + |b| + |c|, d) && StandsAt(s, |a| + |b| + |c| + |d|, e)
  {
    var s := a + b + (c + d + e);
    assert s[|a| + |b|..] == c + d + e;
  }

  lemma FarPieces(owner: seq<Label>)
    requires Writable(owner)
    ensures var data, at := FarDatagram(owner), FarAt(owner);
            && |data| == at + 19
            && StandsAt(data, 0, FILLER) && StandsAt(data, 256, Write(owner, None))
            && StandsAt(data, at - ANSWER_SIZE, TXT_REST)
            && StandsAt(data, at, FAR_POINTER) && StandsAt(data, at + 2, SRV_REST)
  {
    hide Write, StandsAt;
    FivePieces(FILLER, Write(owner, None), TXT_REST, FAR_POINTER, SRV_REST);
  }

  /** By the RFC the third record's owner is the name at 256; the reader finds the empty name at 1. */
  lemma FarOwner(owner: seq<Label>, depth: nat)
    requires Writable(owner) && depth > 256
    ensures var data, at := FarDatagram(owner), FarAt(owner);
            && Denotes(data, at, at, owner, at + 2)
            && CodeName(data, at, depth) == (Labels([]), at + 2)
  {
    hide Write, FarDatagram;
    var data, at := FarDatagram(owner), FarAt(owner);
    FarPieces(owner);
    ReadsWritten(data, 256, owner, depth);
    assert data[at] == data[at..at + 2][0] == 0xC1 && data[at + 1] == data[at..at + 2][1] == 0;
    assert RfcTarget(0xC1, 0) == 256;
    assert Denotes(data, 256, 256, owner, 256 + |Write(owner, None)|);
    assert data[1] == data[0..|FILLER|][1] == 0;
    assert CodeName(data, 1, depth - 1) == (Labels([]), 2);
  }

  /** The first record of that datagram only fills it up. */
  lemma FarFiller(owner: seq<Label>, st: State, depth: nat)
    requires Writable(owner) && depth > 256
    ensures U16(FarDatagram(owner), 6) == 3
    ensures CodeRecord(FarDatagram(owner), HEADER_SIZE, st, depth) == Ok((st, 256))
  {
    hide Write, FarDatagram, CodeRecord;
    var data := FarDatagram(owner);
    FarPieces(owner);
    assert forall k :: 0 <= k < |FILLER| ==> data[k] == data[0..|FILLER|][k] == FILLER[k];
    assert CodeName(data, HEADER_SIZE, depth) == (Labels([]), HEADER_SIZE + 1);
    TxtRecord(data, HEADER_SIZE, [], HEADER_SIZE + 1, 233, st, depth);
  }

  lemma FarNamed(owner: seq<Label>, st: State, depth: nat)
    requires Writable(owner) && depth > 256
    ensures CodeRecord(FarDatagram(owner), 256, st, depth) == Ok((st, FarAt(owner)))
  {
    hide Write, FarDatagram, CodeRecord, CodeName;
    var data, p := FarDatagram(owner), FarAt(owner) - ANSWER_SIZE;
    FarPieces(owner);
    ReadsWritten(data, 256, owner, depth);
    var r := data[p..p + ANSWER_SIZE];
    assert data[p] == r[0] && data[p + 1] == r[1] && data[p + 8] == r[8] && data[p + 9] == r[9];
    TxtRecord(data, 256, owner, p, 0, st, depth);
  }

  lemma ThreeRecords(data: seq<byte>, at: nat, st: State, depth: nat, p: nat, q: nat)
    requires CodeRecord(data, at, st, depth) == Ok((st, p))
    requires CodeRecord(data, p, st, depth) == Ok((st, q))
    requires CodeRecord(data, q, st, depth).Ok?
    ensures CodeRecords(data, at, 3, st, depth) == CodeRecord(data, q, st, depth)
  {
    hide CodeRecord;
    OneRecord(data, q, st, depth);
    assert CodeRecords(data, p, 2, st, depth) == CodeRecords(data, q, 1, st, depth);
  }

  /** A service whose SRV owner is compressed beyond the reader's reach goes unreported, whatever the stack. */
  lemma FarServiceUnreported(instance: Label, unset: Result, depth: nat)
    requires 0 < |instance| < 64 && depth > 256
    ensures var owner := [instance] + SEARCH;
            && Writable(owner)
            && |FarDatagram(owner)| <= 512
            && Denotes(FarDatagram(owner), FarAt(owner), FarAt(owner), owner, FarAt(owner) + 2)
            && StandsAt(FarDatagram(owner), FarAt(owner) + 2, SRV_REST)
            && CodeMessage(FarDatagram(owner), unset, depth).Ok?
            && !CodeMessage(FarDatagram(owner), unset, depth).value.isBf
  {
    hide AsBytes, FarDatagram, CodeRecord, CodeRecords, Denotes, CodeName, FarAt, Write, ConcatFrom;
    SearchLabels();
    var owner, st := [instance] + SEARCH, State(unset, false);
    assert Writable(owner);
    var data, at := FarDatagram(owner), FarAt(owner);
    FarPieces(owner);
    FarLength(instance);
    FarOwner(owner, depth);
    FarFiller(owner, st, depth);
    FarNamed(owner, st, depth);
    SrvRecord(data, at, [], at + 2, st, depth);
    ThreeRecords(data, HEADER_SIZE, st, depth, 256, at);
  }

  lemma FarLength(instance: Label)
    requires 0 < |instance| < 64 && Writable([instance] + SEARCH)
    ensures FarAt([instance] + SEARCH) <= 256 + 64 + 29 + ANSWER_SIZE
  {
    hide AsBytes;
    SearchLabels();
    var owner := [instance] + SEARCH;
    assert owner[1..] == SEARCH;
    assert |Write(SEARCH[3..], None)| == 1;
    assert SEARCH[2..][1..] == SEARCH[3..] && SEARCH[1..][1..] == SEARCH[2..];
    assert |Write(SEARCH[2..], None)| == 1 + 5 + 1;
    assert |Write(SEARCH[1..], None)| == 1 + 4 + 7;
    assert |Write(SEARCH, None)| == 1 + 16 + 12;
  }
}
