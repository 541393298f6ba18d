/** The Markdown code-span scanner of `llm/citations.rs`: fenced blocks and inline spans, as byte
    ranges of the UTF-8 text. */
module CodeRanges {
  import opened Utf8

  type Range = (nat, nat)

  const TICK: byte := 0x60
  const NEWLINE: byte := 0x0A

  /** Three backticks start at `i`. The scanner looks for them anywhere, not only at a line start. */
  predicate FenceAt(t: seq<byte>, i: nat) {
    i + 2 < |t| && t[i] == TICK && t[i + 1] == TICK && t[i + 2] == TICK
  }

  /** A line starting with three backticks begins right after the newline at `i`. */
  predicate CloseAt(t: seq<byte>, i: nat) {
    i < |t| && t[i] == NEWLINE && FenceAt(t, i + 1)
  }

  // --------------------------------------------------------------------------------------------
  // What a code span is
  // --------------------------------------------------------------------------------------------

  /** Three backticks: they open a fenced block wherever they stand, not only at the start of a line. */
  ghost predicate Opens(t: seq<byte>, i: nat) {
    i + 3 <= |t| && t[i] == t[i + 1] == t[i + 2] == 0x60
  }

  /** A newline and three backticks. */
  ghost predicate Closes(t: seq<byte>, i: nat) {
    i + 4 <= |t| && t[i] == 0x0A && Opens(t, i + 1)
  }

  lemma {:induction false} FencesStand(t: seq<byte>, i: nat)
    ensures Opens(t, i) <==> FenceAt(t, i)
    ensures Closes(t, i) <==> CloseAt(t, i)
  {
  }

  /** No byte of `t[from..to]` is `b`. */
  ghost predicate Free(t: seq<byte>, from: nat, to: nat, b: byte)
    requires to <= |t|
  {
    forall k :: from <= k < to ==> t[k] != b
  }

  /** `[s, e)` is inline code: a backtick up to and including the next one, or up to the end of the
      text when there is no next one. */
  ghost predicate IsInline(t: seq<byte>, s: nat, e: nat) {
    && s < e <= |t| && t[s] == TICK && !Opens(t, s)
    && if e - 1 > s && t[e - 1] == TICK then Free(t, s + 1, e - 1, TICK)
       else e == |t| && Free(t, s + 1, e, TICK)
  }

  /** `[s, e)` is a fenced block: it runs to the end of the line that holds the first closing fence,
      or to the end of the text when no closing fence follows. */
  ghost predicate IsFenced(t: seq<byte>, s: nat, e: nat) {
    && s < e <= |t| && Opens(t, s)
    && ((e == |t| && forall k :: s + 3 <= k < |t| ==> !Closes(t, k))
        || exists p :: s + 3 <= p && ClosedBy(t, s, e, p))
  }

  ghost predicate ClosedBy(t: seq<byte>, s: nat, e: nat, p: nat)
    requires e <= |t|
  {
    && Closes(t, p) && p + 4 <= e
    && (forall k :: s + 3 <= k < p ==> !Closes(t, k))
    && Free(t, p + 4, e, NEWLINE) && (e == |t| || t[e] == NEWLINE)
  }

  ghost predicate IsCodeSpan(t: seq<byte>, s: nat, e: nat) {
    IsInline(t, s, e) || IsFenced(t, s, e)
  }

  /** `rs` cuts the text from `from` on into code spans, in order, and plain text without backticks. */
  ghost predicate Segments(t: seq<byte>, from: nat, rs: seq<Range>) {
    && (forall i :: 0 <= i < |rs| ==> from <= rs[i].0 && IsCodeSpan(t, rs[i].0, rs[i].1))
    && (forall i, j :: 0 <= i < j < |rs| ==> rs[i].1 <= rs[j].0)
    && (forall k :: from <= k < |t| && t[k] == TICK ==> InCode(k, rs))
  }

  /** `is_in_code_range`. */
  predicate InCode(offset: nat, rs: seq<Range>) {
    exists i :: 0 <= i < |rs| && rs[i].0 <= offset < rs[i].1
  }

  // --------------------------------------------------------------------------------------------
  // The scanner as a recursive function
  // --------------------------------------------------------------------------------------------

  function FirstByte(t: seq<byte>, from: nat, b: byte): (j: nat)
    requires from <= |t|
    ensures from <= j <= |t|
    ensures forall k :: from <= k < j ==> t[k] != b
    ensures j < |t| ==> t[j] == b
    decreases |t| - from
  {
    if from == |t| || t[from] == b then from else FirstByte(t, from + 1, b)
  }

  function FirstClose(t: seq<byte>, from: nat): (p: nat)
    requires from <= |t|
    ensures from <= p <= |t|
    ensures forall k :: from <= k < p ==> !CloseAt(t, k)
    ensures p < |t| ==> CloseAt(t, p)
    decreases |t| - from
  {
    if from == |t| || CloseAt(t, from) then from else FirstClose(t, from + 1)
  }

  function SpanEnd(t: seq<byte>, s: nat): (e: nat)
    requires s < |t| && t[s] == TICK
    ensures s < e <= |t|
  {
    if FenceAt(t, s) then
      var p := FirstClose(t, s + 3);
      if p == |t| then |t| else FirstByte(t, p + 4, NEWLINE)
    else
      var j := FirstByte(t, s + 1, TICK);
      if j < |t| then j + 1 else j
  }

  function RangesFrom(t: seq<byte>, from: nat): (rs: seq<Range>)
    requires from <= |t|
    decreases |t| - from
  {
    var s := FirstByte(t, from, TICK);
    if s == |t| then [] else [(s, SpanEnd(t, s))] + RangesFrom(t, SpanEnd(t, s))
  }

  // --------------------------------------------------------------------------------------------
  // The scanner as the source runs it
  // --------------------------------------------------------------------------------------------

  method FindCodeRanges(t: seq<byte>) returns (ranges: seq<Range>)
    ensures ranges == RangesFrom(t, 0)
  {
    ranges := [];
    var i := 0;
    assert Scanned(t, ranges, i);
    hide RangesFrom, SpanEnd, FirstByte, FirstClose, Scanned;
    while i < |t|
      invariant 0 <= i <= |t| && Scanned(t, ranges, i)
    {
      ScanStep(t, ranges, i);
      if t[i] == TICK && i + 2 < |t| && t[i + 1] == TICK && t[i + 2] == TICK {
        var start := i;
        i := ScanFence(t, start);
        ranges := ranges + [(start, i)];
      } else if t[i] == TICK {
        var start := i;
        i := ScanInline(t, start);
        ranges := ranges + [(start, i)];
      } else {
        i := i + 1;
      }
    }
    AllScanned(t, ranges);
  }

  /** The ranges so far and those of the text still to read make up the answer. */
  ghost predicate Scanned(t: seq<byte>, ranges: seq<Range>, i: nat) {
    i <= |t| && ranges + RangesFrom(t, i) == RangesFrom(t, 0)
  }

  lemma {:induction false} ScanStep(t: seq<byte>, ranges: seq<Range>, i: nat)
    requires i < |t| && Scanned(t, ranges, i)
    ensures if t[i] == TICK then Scanned(t, ranges + [(i, SpanEnd(t, i))], SpanEnd(t, i))
            else Scanned(t, ranges, i + 1)
  {
    RangesUnfold(t, i);
    hide RangesFrom;
    if t[i] == TICK {
      assert ranges + ([(i, SpanEnd(t, i))] + RangesFrom(t, SpanEnd(t, i)))
          == ranges + [(i, SpanEnd(t, i))] + RangesFrom(t, SpanEnd(t, i));
    }
  }

  lemma {:induction false} AllScanned(t: seq<byte>, ranges: seq<Range>)
    requires Scanned(t, ranges, |t|)
    ensures ranges == RangesFrom(t, 0)
  {
    assert RangesFrom(t, |t|) == [];
    hide RangesFrom;
  }

  lemma {:induction false} RangesUnfold(t: seq<byte>, i: nat)
    requires i < |t|
    ensures RangesFrom(t, i) == if t[i] == TICK then [(i, SpanEnd(t, i))] + RangesFrom(t, SpanEnd(t, i))
                                else RangesFrom(t, i + 1)
  {
    hide SpanEnd;
  }

  lemma {:induction false} RangesFromFirst(t: seq<byte>, from: nat)
    requires from <= |t|
    ensures var s := FirstByte(t, from, TICK);
            RangesFrom(t, from) == if s == |t| then [] else [(s, SpanEnd(t, s))] + RangesFrom(t, SpanEnd(t, s))
  {
    hide SpanEnd, FirstByte;
  }

  /** The inline branch: up to and including the next backtick, or to the end of the text. */
  method ScanInline(t: seq<byte>, start: nat) returns (i: nat)
    requires start < |t| && t[start] == TICK && !FenceAt(t, start)
    ensures i == SpanEnd(t, start)
  {
    i := start + 1;
    while i < |t| && t[i] != TICK
      invariant start < i <= |t|
      invariant FirstByte(t, start + 1, TICK) == FirstByte(t, i, TICK)
    {
      i := i + 1;
    }
    if i < |t| {
      i := i + 1;
    }
  }

  lemma {:induction false} SpanEndOfFence(t: seq<byte>, start: nat)
    requires FenceAt(t, start)
    ensures var p := FirstClose(t, start + 3);
            SpanEnd(t, start) == if p == |t| then |t| else FirstByte(t, p + 4, NEWLINE)
    ensures FirstClose(t, |t|) == |t| && start + 3 <= |t|
  {
    hide FirstByte;
  }

  lemma {:induction false} FirstCloseStep(t: seq<byte>, i: nat)
    requires i < |t|
    ensures FirstClose(t, i) ==
            if t[i] == NEWLINE && i + 3 < |t| && t[i + 1] == TICK && t[i + 2] == TICK && t[i + 3] == TICK then i
            else FirstClose(t, i + 1)
  {
  }

  lemma {:induction false} FirstByteStep(t: seq<byte>, i: nat, b: byte)
    requires i <= |t|
    ensures FirstByte(t, i, b) == if i == |t| || t[i] == b then i else FirstByte(t, i + 1, b)
  {
  }

  /** To the end of the line that holds the closing fence. */
  method SkipLine(t: seq<byte>, from: nat) returns (i: nat)
    requires from <= |t|
    ensures i == FirstByte(t, from, NEWLINE)
  {
    hide *;
    i := from;
    while i < |t| && t[i] != NEWLINE
      invariant from <= i <= |t|
      invariant FirstByte(t, from, NEWLINE) == FirstByte(t, i, NEWLINE)
    {
      FirstByteStep(t, i, NEWLINE);
      i := i + 1;
    }
    FirstByteStep(t, i, NEWLINE);
  }

  /** The fenced branch: skip the info string, then look for the closing fence line by line. */
  method ScanFence(t: seq<byte>, start: nat) returns (i: nat)
    requires FenceAt(t, start)
    ensures i == SpanEnd(t, start)
  {
    SpanEndOfFence(t, start);
    hide *;
    i := start + 3;
    while i < |t| && t[i] != NEWLINE
      invariant start + 3 <= i <= |t|
      invariant FirstClose(t, start + 3) == FirstClose(t, i)
    {
      FirstCloseStep(t, i);
      i := i + 1;
    }
    var foundClose := false;
    while i < |t|
      invariant start + 3 <= i <= |t|
      invariant !foundClose && FirstClose(t, start + 3) == FirstClose(t, i)
    {
      if t[i] == NEWLINE && i + 3 < |t| && t[i + 1] == TICK && t[i + 2] == TICK && t[i + 3] == TICK {
        FirstCloseStep(t, i);
        i := SkipLine(t, i + 4);
        foundClose := true;
        break;
      }
      FirstCloseStep(t, i);
      i := i + 1;
    }
    if !foundClose {
      i := |t|;
    }
  }

  // --------------------------------------------------------------------------------------------
  // Properties
  // --------------------------------------------------------------------------------------------

  /** At a backtick exactly one span starts, and the scanner finds its end. */
  lemma {:induction false} SpanIsUnique(t: seq<byte>, s: nat, e: nat)
    requires s < |t| && t[s] == TICK
    ensures IsCodeSpan(t, s, e) <==> e == SpanEnd(t, s)
  {
    forall k {
      FencesStand(t, k);
    }
    hide Opens, Closes;
    if FenceAt(t, s) {
      var p := FirstClose(t, s + 3);
      if p < |t| {
        assert ClosedBy(t, s, SpanEnd(t, s), p);
      }
      if IsFenced(t, s, e) && !(e == |t| && forall k :: s + 3 <= k < |t| ==> !Closes(t, k)) {
        var p' :| s + 3 <= p' && ClosedBy(t, s, e, p');
        assert p' == p;
      }
    }
  }

  /** The scanner's answer is the only way to cut the text into code spans and backtick-free text. */
  lemma {:induction false} SegmentsExactly(t: seq<byte>, from: nat, rs: seq<Range>)
    requires from <= |t|
    ensures Segments(t, from, rs) <==> rs == RangesFrom(t, from)
  {
    CodeRangesSegment(t, from);
    if Segments(t, from, rs) {
      SegmentsUnique(t, from, rs);
    }
  }

  lemma {:induction false} SegmentsUnique(t: seq<byte>, from: nat, rs: seq<Range>)
    requires from <= |t| && Segments(t, from, rs)
    ensures rs == RangesFrom(t, from)
    decreases |rs|
  {
    hide *;
    FirstSegment(t, from, rs);
    RangesFromFirst(t, from);
    if rs != [] {
      SegmentsOfTail(t, from, rs);
      SegmentsUnique(t, rs[0].1, rs[1..]);
      assert rs == [rs[0]] + rs[1..];
    }
  }

  lemma {:induction false} FirstSegment(t: seq<byte>, from: nat, rs: seq<Range>)
    requires from <= |t| && Segments(t, from, rs)
    ensures var s := FirstByte(t, from, TICK);
            if rs == [] then s == |t| else s < |t| && rs[0] == (s, SpanEnd(t, s))
  {
    hide FirstByte, SpanEnd;
    var s := FirstByte(t, from, TICK);
    if rs == [] {
      assert s < |t| ==> InCode(s, rs);
    } else {
      var r := rs[0];
      assert IsCodeSpan(t, r.0, r.1);
      assert InCode(s, rs);
      assert r.0 == s;
      hide IsCodeSpan;
      SpanIsUnique(t, s, r.1);
    }
  }

  lemma {:induction false} CodeRangesSegment(t: seq<byte>, from: nat)
    requires from <= |t|
    ensures Segments(t, from, RangesFrom(t, from))
    decreases |t| - from
  {
    var s := FirstByte(t, from, TICK);
    if s < |t| {
      var e := SpanEnd(t, s);
      SpanIsUnique(t, s, e);
      CodeRangesSegment(t, e);
      SegmentsOfHead(t, from, s, e, RangesFrom(t, e));
    }
  }

  lemma {:induction false} SegmentsOfHead(t: seq<byte>, from: nat, s: nat, e: nat, tail: seq<Range>)
    requires from <= s < e <= |t| && Free(t, from, s, TICK) && IsCodeSpan(t, s, e)
    requires Segments(t, e, tail)
    ensures Segments(t, from, [(s, e)] + tail)
  {
    hide IsCodeSpan, InCode;
    var rs := [(s, e)] + tail;
    assert rs[1..] == tail;
    assert rs[0] == (s, e) && forall i :: 0 < i < |rs| ==> rs[i] == tail[i - 1];
    forall k | from <= k < |t| && t[k] == TICK ensures InCode(k, rs) {
      if k < e {
        assert k >= s;
        InFirst(rs, k);
      } else {
        InRest(rs, k);
      }
    }
    hide Free;
  }

  lemma {:induction false} InFirst(rs: seq<Range>, k: nat)
    requires rs != [] && rs[0].0 <= k < rs[0].1
    ensures InCode(k, rs)
  {
  }

  lemma {:induction false} InRest(rs: seq<Range>, k: nat)
    requires rs != [] && InCode(k, rs[1..])
    ensures InCode(k, rs)
  {
    var i :| 0 <= i < |rs| - 1 && rs[1..][i].0 <= k < rs[1..][i].1;
    assert rs[i + 1] == rs[1..][i];
  }

  lemma {:induction false} SegmentsOfTail(t: seq<byte>, from: nat, rs: seq<Range>)
    requires rs != [] && Segments(t, from, rs)
    ensures Segments(t, rs[0].1, rs[1..])
  {
    var tail := rs[1..];
    forall i | 0 <= i < |rs| ensures rs[i].0 < rs[i].1 {
      SpanStarts(t, rs[i].0, rs[i].1);
    }
    hide IsCodeSpan, InCode;
    assert forall i :: 0 <= i < |tail| ==> tail[i] == rs[i + 1];
    forall k | rs[0].1 <= k < |t| && t[k] == TICK ensures InCode(k, tail) {
      NotInFirst(rs, k);
    }
  }

  lemma {:induction false} NotInFirst(rs: seq<Range>, k: nat)
    requires rs != [] && InCode(k, rs) && rs[0].1 <= k
    ensures InCode(k, rs[1..])
  {
    var i :| 0 <= i < |rs| && rs[i].0 <= k < rs[i].1;
    assert rs[1..][i - 1] == rs[i];
  }

  /** Three backticks in the middle of a line open a block as well: behind any text without backticks, a fence is
      where the first range starts, and it is a fenced block. */
  lemma {:induction false} FenceAnywhere(before: seq<byte>, rest: seq<byte>)
    requires Free(before, 0, |before|, TICK)
    ensures var t := before + [0x60, 0x60, 0x60] + rest;
            RangesFrom(t, 0) != [] && RangesFrom(t, 0)[0].0 == |before| && IsFenced(t, |before|, RangesFrom(t, 0)[0].1)
  {
    var t := before + [0x60, 0x60, 0x60] + rest;
    var n := |before|;
    assert t[n] == t[n + 1] == t[n + 2] == 0x60;
    assert t[n] == TICK && forall k :: 0 <= k < n ==> t[k] == before[k];
    assert FirstByte(t, 0, TICK) == n;
    RangesFromFirst(t, 0);
    SpanIsUnique(t, n, SpanEnd(t, n));
  }

  /** Non-empty, in bounds, sorted and disjoint; every backtick of the text is in exactly one range,
      and every range starts at one. */
  lemma {:induction false} RangesPartitionBackticks(t: seq<byte>, k: nat)
    requires k < |t| && t[k] == TICK
    ensures var rs := RangesFrom(t, 0);
            && (exists i :: 0 <= i < |rs| && rs[i].0 <= k < rs[i].1)
            && (forall i, j :: 0 <= i < |rs| && 0 <= j < |rs| && rs[i].0 <= k < rs[i].1 && rs[j].0 <= k < rs[j].1
                  ==> i == j)
            && (forall i :: 0 <= i < |rs| ==> rs[i].0 < rs[i].1 <= |t| && t[rs[i].0] == TICK)
            && (forall i, j :: 0 <= i < j < |rs| ==> rs[i].1 <= rs[j].0)
  {
    var rs := RangesFrom(t, 0);
    SegmentsExactly(t, 0, rs);
    forall i | 0 <= i < |rs| ensures rs[i].0 < rs[i].1 <= |t| && t[rs[i].0] == TICK {
      SpanStarts(t, rs[i].0, rs[i].1);
    }
    hide IsCodeSpan, RangesFrom;
    assert InCode(k, rs);
  }

  lemma {:induction false} SpanStarts(t: seq<byte>, s: nat, e: nat)
    requires IsCodeSpan(t, s, e)
    ensures s < e <= |t| && t[s] == TICK
  {
  }

  /** Both ends of every range are character boundaries, so slicing the text there cannot panic. */
  lemma {:induction false} RangesAreBoundaries(text: string, i: nat)
    requires i < |RangesFrom(Encode(text), 0)|
    ensures var (s, e) := RangesFrom(Encode(text), 0)[i]; IsBoundary(text, s) && IsBoundary(text, e)
  {
    var t := Encode(text);
    var rs := RangesFrom(t, 0);
    SegmentsExactly(t, 0, rs);
    var (s, e) := rs[i];
    assert IsCodeSpan(t, s, e);
    hide *;
    SpanIsBounded(text, s, e);
  }

  lemma {:induction false} SpanIsBounded(text: string, s: nat, e: nat)
    requires IsCodeSpan(Encode(text), s, e)
    ensures IsBoundary(text, s) && IsBoundary(text, e)
  {
    assert TICK < 0x80 && NEWLINE < 0x80;
    hide *;
    var t := Encode(text);
    SpanEnds(t, s, e);
    AsciiEnds(text, s);
    if e == |t| {
      EndIsBoundary(text);
    } else if t[e - 1] == TICK {
      AsciiEnds(text, e - 1);
    } else {
      AsciiEnds(text, e);
    }
  }

  lemma {:induction false} AsciiEnds(text: string, i: nat)
    requires i < |Encode(text)| && Encode(text)[i] < 0x80
    ensures IsBoundary(text, i) && IsBoundary(text, i + 1)
  {
    var k := AsciiByteIsAChar(text, i);
  }

  lemma {:induction false} EndIsBoundary(text: string)
    ensures IsBoundary(text, |Encode(text)|)
  {
    assert text[..|text|] == text;
  }

  lemma {:induction false} SpanEnds(t: seq<byte>, s: nat, e: nat)
    requires IsCodeSpan(t, s, e)
    ensures s < e <= |t| && t[s] == TICK && (e < |t| ==> t[e - 1] == TICK || t[e] == NEWLINE)
  {
  }
}
