/** UTF-8 as Rust's `str` sees it: a text is a sequence of Unicode scalar values (Dafny's `char`),
    its byte offsets are the lengths of the encodings of its prefixes. */
module Utf8 {

  newtype byte = b: int | 0 <= b < 256

  /** `char::len_utf8`. */
  function Width(c: char): (n: nat)
    ensures 1 <= n <= 4
  {
    var v := c as int;
    if v < 0x80 then 1 else if v < 0x800 then 2 else if v < 0x1_0000 then 3 else 4
  }

  function EncodeChar(c: char): (bs: seq<byte>)
    ensures |bs| == Width(c)
    ensures Width(c) == 1 ==> bs[0] as int == c as int
    ensures Width(c) > 1 ==> forall i :: 0 <= i < |bs| ==> bs[i] >= 0x80
  {
    var v := c as int;
    if v < 0x80 then [v as byte]
    else if v < 0x800 then [(0xC0 + v / 64) as byte, Tail(v)]
    else if v < 0x1_0000 then [(0xE0 + v / 4096) as byte, Tail(v / 64), Tail(v)]
    else [(0xF0 + v / 262144) as byte, Tail(v / 4096), Tail(v / 64), Tail(v)]
  }

  function Tail(v: nat): (b: byte)
    ensures b >= 0x80
  {
    (0x80 + v % 64) as byte
  }

  /** The number an encoding of one character stands for, by its leading byte: section 3 of RFC 3629. */
  ghost function Scalar(bs: seq<byte>): int
    requires 1 <= |bs| <= 4
  {
    if |bs| == 1 then bs[0] as int
    else if |bs| == 2 then (bs[0] as int - 0xC0) * 64 + (bs[1] as int - 0x80)
    else if |bs| == 3 then (bs[0] as int - 0xE0) * 4096 + (bs[1] as int - 0x80) * 64 + (bs[2] as int - 0x80)
    else (bs[0] as int - 0xF0) * 262144 + (bs[1] as int - 0x80) * 4096 + (bs[2] as int - 0x80) * 64
         + (bs[3] as int - 0x80)
  }

  /** The encoding stands for its character and is the shortest that can. */
  lemma {:induction false} EncodingIsShortest(c: char)
    ensures var bs := EncodeChar(c);
            && Scalar(bs) == c as int
            && (c as int < 0x80 <==> |bs| == 1) && (c as int < 0x800 <==> |bs| <= 2)
            && (c as int < 0x1_0000 <==> |bs| <= 3)
  {
    var v := c as int;
    if 0x80 <= v < 0x800 {
      TwoBytes(c);
    } else if 0x800 <= v < 0x1_0000 {
      ThreeBytes(c);
    } else if v >= 0x1_0000 {
      FourBytes(c);
    }
    hide Tail, Scalar;
    if v < 0x80 {
      OneByte(c);
    }
  }

  lemma {:induction false} OneByte(c: char)
    requires (c as int) < 0x80
    ensures Scalar(EncodeChar(c)) == c as int
  {
  }

  lemma {:induction false} TailIs(v: nat)
    ensures Tail(v) as int - 0x80 == v % 64 && v == 64 * (v / 64) + v % 64
  {
  }

  lemma {:induction false} TwoBytes(c: char)
    requires 0x80 <= c as int < 0x800
    ensures Scalar(EncodeChar(c)) == c as int
  {
    var v := c as int;
    TailIs(v);
    hide Tail;
    assert EncodeChar(c) == [(0xC0 + v / 64) as byte, Tail(v)];
  }

  lemma {:induction false} ThreeBytes(c: char)
    requires 0x800 <= c as int < 0x1_0000
    ensures Scalar(EncodeChar(c)) == c as int
  {
    var v := c as int;
    TailIs(v);
    TailIs(v / 64);
    assert v / 64 / 64 == v / 4096;
    hide Tail;
    assert EncodeChar(c) == [(0xE0 + v / 4096) as byte, Tail(v / 64), Tail(v)];
  }

  lemma {:induction false} FourBytes(c: char)
    requires 0x1_0000 <= c as int
    ensures Scalar(EncodeChar(c)) == c as int
  {
    var v := c as int;
    TailIs(v);
    TailIs(v / 64);
    TailIs(v / 4096);
    assert v / 64 / 64 == v / 4096 && v / 4096 / 64 == v / 262144;
    hide Tail;
    assert EncodeChar(c) == [(0xF0 + v / 262144) as byte, Tail(v / 4096), Tail(v / 64), Tail(v)];
  }

  function Encode(s: string): (bs: seq<byte>)
    ensures |bs| == Bytes(s)
  {
    if s == [] then [] else EncodeChar(s[0]) + Encode(s[1..])
  }

  /** `str::len`: the number of bytes of the encoding. */
  function Bytes(s: string): nat {
    if s == [] then 0 else Width(s[0]) + Bytes(s[1..])
  }

  lemma {:induction false} BytesConcat(a: string, b: string)
    ensures Bytes(a + b) == Bytes(a) + Bytes(b)
  {
    if a == [] {
      assert a + b == b;
    } else {
      assert (a + b)[1..] == a[1..] + b;
      BytesConcat(a[1..], b);
    }
  }

  lemma {:induction false} BytesSnoc(s: string, k: nat)
    requires k < |s|
    ensures Bytes(s[..k + 1]) == Bytes(s[..k]) + Width(s[k])
  {
    assert s[..k + 1] == s[..k] + [s[k]];
    BytesConcat(s[..k], [s[k]]);
  }

  /** Longer prefixes have strictly larger byte offsets, so an offset names one character position. */
  lemma {:induction false} BytesMonotone(s: string, i: nat, j: nat)
    requires i < j <= |s|
    ensures Bytes(s[..i]) < Bytes(s[..j])
    decreases j
  {
    BytesSnoc(s, j - 1);
    if i < j - 1 {
      BytesMonotone(s, i, j - 1);
    }
  }

  /** `str::is_char_boundary`, stated by what it means. */
  ghost predicate IsBoundary(s: string, offset: nat) {
    exists k :: 0 <= k <= |s| && offset == Bytes(s[..k])
  }

  /** A byte below 0x80 is a whole character: it starts and ends at a boundary. */
  lemma {:induction false} AsciiByteIsAChar(s: string, i: nat) returns (k: nat)
    requires i < |Encode(s)| && Encode(s)[i] < 0x80
    ensures k < |s| && i == Bytes(s[..k]) && i + 1 == Bytes(s[..k + 1])
    ensures s[k] as int == Encode(s)[i] as int
  {
    var w := Width(s[0]);
    if i < w {
      k := 0;
      assert s[..1][1..] == [];
    } else {
      var k' := AsciiByteIsAChar(s[1..], i - w);
      k := k' + 1;
      assert s[..k][1..] == s[1..][..k'];
      assert s[..k + 1][1..] == s[1..][..k' + 1];
    }
  }

  /** Conversely, an ASCII character is encoded by its own byte at its own offset. */
  lemma {:induction false} AsciiCharIsAByte(s: string, k: nat)
    requires k < |s| && Width(s[k]) == 1
    ensures Bytes(s[..k]) < |Encode(s)|
    ensures Encode(s)[Bytes(s[..k])] as int == s[k] as int
  {
    if k == 0 {
      assert Encode(s)[0] == EncodeChar(s[0])[0];
    } else {
      AsciiCharIsAByte(s[1..], k - 1);
      assert s[..k][1..] == s[1..][..k - 1];
    }
  }
}
