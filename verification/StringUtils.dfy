/** Splitting a string at a separator, and putting it together again. */
module StringUtils {
  import opened Bytes

  // ----- searching

  predicate OccursAt(s: string, sep: string, p: nat) {
    p + |sep| <= |s| && s[p..p + |sep|] == sep
  }

  /** `input.find(sep, from)`: the first occurrence at or after `from`. */
  function Find(s: string, sep: string, from: nat): (r: Option<nat>)
    ensures r.Some? ==> from <= r.value && r.value + |sep| <= |s|
    ensures r.Some? ==> OccursAt(s, sep, r.value) && forall q :: from <= q < r.value ==> !OccursAt(s, sep, q)
    ensures r.None? ==> forall q :: from <= q ==> !OccursAt(s, sep, q)
    decreases |s| - from
  {
    if from + |sep| > |s| then None
    else if OccursAt(s, sep, from) then Some(from)
    else Find(s, sep, from + 1)
  }

  // ----- splitting

  /** The loop ends for every separator that makes progress, for every limit, and on nothing. */
  predicate Terminates(input: string, sep: string, maxSplit: nat) {
    sep != "" || maxSplit > 0 || input == ""
  }

  /** The pieces still to come at position `s` when `done` have been cut. */
  function Split(input: string, sep: string, s: nat, maxSplit: nat, done: nat): (out: seq<string>)
    requires Terminates(input, sep, maxSplit) && s <= |input| && (maxSplit > 0 ==> done < maxSplit || done == 0)
    decreases |input| - s, if sep == "" then maxSplit - done else 0
  {
    if s == |input| then []
    else
      var p := Find(input, sep, s);
      if p.None? then [input[s..]]
      else
        var next := p.value + |sep|;
        [input[s..p.value]] +
          if maxSplit > 0 && done + 1 == maxSplit then [input[next..]] else Split(input, sep, next, maxSplit, done + 1)
  }

  // ----- joining

  function Join(pieces: seq<string>, sep: string): string {
    if pieces == [] then ""
    else if |pieces| == 1 then pieces[0]
    else pieces[0] + sep + Join(pieces[1..], sep)
  }

  /** A separator at the very end of the text leaves no piece behind it. */
  predicate DropsTrailing(input: string, sep: string, s: nat, maxSplit: nat, done: nat)
    requires Terminates(input, sep, maxSplit) && s <= |input| && (maxSplit > 0 ==> done < maxSplit || done == 0)
    decreases |input| - s, if sep == "" then maxSplit - done else 0
  {
    s < |input| &&
    var p := Find(input, sep, s);
    p.Some? && !(maxSplit > 0 && done + 1 == maxSplit) &&
    (p.value + |sep| == |input| || DropsTrailing(input, sep, p.value + |sep|, maxSplit, done + 1))
  }

  lemma JoinCons(first: string, rest: seq<string>, sep: string)
    ensures Join([first] + rest, sep) == if rest == [] then first else first + sep + Join(rest, sep)
  {
    assert ([first] + rest)[1..] == rest;
  }

  lemma CutText(input: string, sep: string, s: nat, p: nat)
    requires s <= p && OccursAt(input, sep, p)
    ensures input[s..] == input[s..p] + sep + input[p + |sep|..]
  {
    assert input[s..] == input[s..p] + input[p..p + |sep|] + input[p + |sep|..];
  }

  /** Joining the pieces gives back the text, less one separator exactly when one was dropped at the end. */
  lemma {:induction false} JoinSplit(input: string, sep: string, s: nat, maxSplit: nat, done: nat)
    requires Terminates(input, sep, maxSplit) && s <= |input| && (maxSplit > 0 ==> done < maxSplit || done == 0)
    ensures Join(Split(input, sep, s, maxSplit, done), sep)
            + (if DropsTrailing(input, sep, s, maxSplit, done) then sep else "") == input[s..]
    decreases |input| - s, if sep == "" then maxSplit - done else 0
  {
    hide Find, Join;
    if s == |input| {
      assert Join([], sep) == "" by { JoinFew("", sep); }
    } else {
      var p := Find(input, sep, s);
      if p.None? {
        JoinFew(input[s..], sep);
      } else {
        var next := p.value + |sep|;
        CutText(input, sep, s, p.value);
        hide OccursAt;
        var first := input[s..p.value];
        if maxSplit > 0 && done + 1 == maxSplit {
          JoinCons(first, [input[next..]], sep);
          JoinFew(input[next..], sep);
        } else {
          JoinSplit(input, sep, next, maxSplit, done + 1);
          JoinCons(first, Split(input, sep, next, maxSplit, done + 1), sep);
        }
      }
    }
  }

  lemma JoinFew(s: string, sep: string)
    ensures Join([], sep) == "" && Join([s], sep) == s
  {
  }

  lemma OccursInside(input: string, sep: string, s: nat, e: nat, q: nat)
    requires s <= e <= |input| && OccursAt(input[s..e], sep, q)
    ensures OccursAt(input, sep, s + q)
  {
    forall k | 0 <= k < |sep|
      ensures input[s + q..s + q + |sep|][k] == sep[k]
    {
      assert input[s..e][q..q + |sep|][k] == sep[k];
    }
  }

  /** What is cut before the next separator, or when there is none, does not contain one. */
  lemma CutIsFree(input: string, sep: string, s: nat, e: nat)
    requires s <= e <= |input| && sep != ""
    requires Find(input, sep, s) == Some(e) || (Find(input, sep, s).None? && e == |input|)
    ensures forall q :: !OccursAt(input[s..e], sep, q)
  {
    hide Find;
    forall q: nat
      ensures !OccursAt(input[s..e], sep, q)
    {
      if OccursAt(input[s..e], sep, q) {
        OccursInside(input, sep, s, e, q);
      }
    }
  }

  /** No separator occurs in a piece, except in the remainder that a limit leaves, and with a limit there
      is at most one more piece than the limit. */
  lemma {:induction false} PiecesAreFree(input: string, sep: string, s: nat, maxSplit: nat, done: nat, i: nat)
    requires Terminates(input, sep, maxSplit) && s <= |input| && (maxSplit > 0 ==> done < maxSplit || done == 0)
    requires sep != "" && i < |Split(input, sep, s, maxSplit, done)|
    ensures var out := Split(input, sep, s, maxSplit, done);
            && (maxSplit > 0 ==> done + |out| <= maxSplit + 1)
            && (maxSplit == 0 || done + i < maxSplit ==> forall q :: !OccursAt(out[i], sep, q))
    decreases |input| - s
  {
    hide Find;
    var p := Find(input, sep, s);
    var out := Split(input, sep, s, maxSplit, done);
    if p.None? {
      assert input[s..|input|] == input[s..];
      CutIsFree(input, sep, s, |input|);
    } else {
      CutIsFree(input, sep, s, p.value);
      hide OccursAt;
      var next := p.value + |sep|;
      if !(maxSplit > 0 && done + 1 == maxSplit) && |out| > 1 {
        PiecesAreFree(input, sep, next, maxSplit, done + 1, if i > 0 then i - 1 else 0);
      }
    }
  }

  /** The pieces join to the text, less at most one trailing separator; none but a limit's remainder contains
      a separator; and a limit allows one more piece than its value. */
  ghost predicate IsSplit(input: string, sep: string, maxSplit: nat, out: seq<string>) {
    && (Join(out, sep) == input || Join(out, sep) + sep == input)
    && (maxSplit > 0 && sep != "" ==> |out| <= maxSplit + 1)
    && (sep != "" ==> forall i, q :: 0 <= i < |out| && (maxSplit == 0 || i < maxSplit) ==> !OccursAt(out[i], sep, q))
  }

  lemma SplitProperties(input: string, sep: string, maxSplit: nat)
    requires Terminates(input, sep, maxSplit)
    ensures IsSplit(input, sep, maxSplit, Split(input, sep, 0, maxSplit, 0))
  {
    hide OccursAt, Find, Join, Split;
    var out := Split(input, sep, 0, maxSplit, 0);
    JoinSplit(input, sep, 0, maxSplit, 0);
    assert input[0..] == input;
    assert Join(out, sep) + "" == Join(out, sep);
    if sep != "" && |out| > 0 {
      PiecesAreFree(input, sep, 0, maxSplit, 0, 0);
      forall i | 0 <= i < |out| && (maxSplit == 0 || i < maxSplit)
        ensures forall q :: !OccursAt(out[i], sep, q)
      {
        PiecesAreFree(input, sep, 0, maxSplit, 0, i);
      }
    }
  }

  method SplitString(input: string, sep: string, maxSplit: nat) returns (out: seq<string>)
    requires Terminates(input, sep, maxSplit)
    ensures out == Split(input, sep, 0, maxSplit, 0)
    ensures IsSplit(input, sep, maxSplit, out)
  {
    hide OccursAt, Find, IsSplit, Split;
    out := [];
    SplitProperties(input, sep, maxSplit);
    assert [] + Split(input, sep, 0, maxSplit, 0) == Split(input, sep, 0, maxSplit, 0);
    var s := 0;
    while s < |input|
      invariant s <= |input|
      invariant maxSplit > 0 ==> |out| < maxSplit || |out| == 0
      invariant Split(input, sep, 0, maxSplit, 0) == out + Split(input, sep, s, maxSplit, |out|)
      decreases |input| - s, if sep == "" then maxSplit - |out| else 0
    {
      var p := Find(input, sep, s);
      if p.None? {
        SplitLast(input, sep, s, maxSplit, |out|);
        return out + [input[s..]];
      }
      SplitUnfolds(input, sep, s, maxSplit, |out|);
      OnePieceMore(out, input[s..p.value], Remaining(input, sep, p.value, maxSplit, |out|));
      out := out + [input[s..p.value]];
      s := p.value + |sep|;
      if maxSplit > 0 && |out| == maxSplit {
        return out + [input[s..]];
      }
    }
    SplitEnd(input, sep, maxSplit, |out|);
    assert out + [] == out;
  }

  lemma SplitEnd(input: string, sep: string, maxSplit: nat, done: nat)
    requires Terminates(input, sep, maxSplit) && (maxSplit > 0 ==> done < maxSplit || done == 0)
    ensures Split(input, sep, |input|, maxSplit, done) == []
  {
  }

  lemma SplitLast(input: string, sep: string, s: nat, maxSplit: nat, done: nat)
    requires Terminates(input, sep, maxSplit) && (maxSplit > 0 ==> done < maxSplit || done == 0)
    requires s < |input| && Find(input, sep, s).None?
    ensures Split(input, sep, s, maxSplit, done) == [input[s..]]
  {
    hide Find;
  }

  /** What is split off after the separator at `p`. */
  function Remaining(input: string, sep: string, p: nat, maxSplit: nat, done: nat): seq<string>
    requires Terminates(input, sep, maxSplit) && (maxSplit > 0 ==> done < maxSplit || done == 0)
    requires p + |sep| <= |input|
  {
    if maxSplit > 0 && done + 1 == maxSplit then [input[p + |sep|..]]
    else Split(input, sep, p + |sep|, maxSplit, done + 1)
  }

  lemma SplitUnfolds(input: string, sep: string, s: nat, maxSplit: nat, done: nat)
    requires Terminates(input, sep, maxSplit) && (maxSplit > 0 ==> done < maxSplit || done == 0)
    requires s < |input| && Find(input, sep, s).Some?
    ensures var p := Find(input, sep, s).value;
            Split(input, sep, s, maxSplit, done) == [input[s..p]] + Remaining(input, sep, p, maxSplit, done)
  {
    hide Find, OccursAt;
  }

  lemma OnePieceMore(out: seq<string>, piece: string, rest: seq<string>)
    ensures out + ([piece] + rest) == (out + [piece]) + rest
  {
  }

  /** Unless a limit leaves one, no empty piece ends the list, except for the separator that is dropped. */
  lemma {:induction false} NoEmptyTail(input: string, sep: string, s: nat, maxSplit: nat, done: nat)
    requires Terminates(input, sep, maxSplit) && s <= |input| && (maxSplit > 0 ==> done < maxSplit || done == 0)
    requires sep != ""
    ensures var out := Split(input, sep, s, maxSplit, done);
            out == [] || out[|out| - 1] != "" || DropsTrailing(input, sep, s, maxSplit, done)
            || (maxSplit > 0 && done + |out| == maxSplit + 1)
    decreases |input| - s
  {
    hide Find, OccursAt;
    var p := Find(input, sep, s);
    if s < |input| && p.Some? && !(maxSplit > 0 && done + 1 == maxSplit) {
      NoEmptyTail(input, sep, p.value + |sep|, maxSplit, done + 1);
    }
  }

  /** A separator is dropped only when all of the text has been joined again with it, so never together with a
      list that joins to the text. */
  lemma DroppedOrWhole(input: string, sep: string, maxSplit: nat)
    requires Terminates(input, sep, maxSplit) && sep != ""
    ensures var out := Split(input, sep, 0, maxSplit, 0);
            && (Join(out, sep) == input <==> !DropsTrailing(input, sep, 0, maxSplit, 0))
            && (Join(out, sep) == input && (maxSplit == 0 || |out| <= maxSplit) ==> out == [] || out[|out| - 1] != "")
  {
    hide Find, OccursAt, Join, Split, DropsTrailing;
    var out := Split(input, sep, 0, maxSplit, 0);
    JoinSplit(input, sep, 0, maxSplit, 0);
    NoEmptyTail(input, sep, 0, maxSplit, 0);
    assert input[0..] == input;
    if DropsTrailing(input, sep, 0, maxSplit, 0) {
      assert |Join(out, sep) + sep| == |input|;
    } else {
      assert Join(out, sep) + "" == Join(out, sep);
    }
  }
}
