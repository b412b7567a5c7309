/** Bytes and little-endian numbers. */
module Coding {

  const WORD: nat := 0x1_0000_0000

  type byte = x: int | 0 <= x < 256
  type Word = x: int | 0 <= x < 0x1_0000_0000
  type Long = x: int | 0 <= x < 0x1_0000_0000_0000_0000

  function Zeros(n: nat): (s: seq<byte>)
    ensures |s| == n
  {
    seq(n, _ => 0)
  }

  function Fixed32(w: Word): (s: seq<byte>)
    ensures |s| == 4
  {
    [w % 256, (w / 256) % 256, (w / 65536) % 256, w / 16777216]
  }

  function DecodeFixed32(s: seq<byte>): Word
    requires |s| == 4
  {
    s[0] as int + 256 * s[1] as int + 65536 * s[2] as int + 16777216 * s[3] as int
  }

  lemma {:induction false} Fixed32RoundTrip(w: Word)
    ensures DecodeFixed32(Fixed32(w)) == w
  {
    var a, b, c := w / 256, w / 65536, w / 16777216;
    assert w == 256 * a + w % 256 && a == 256 * b + a % 256 && b == 256 * c + b % 256;
  }

  lemma {:induction false} Fixed32OfDecoded(s: seq<byte>)
    requires |s| == 4
    ensures Fixed32(DecodeFixed32(s)) == s
  {
    var w := DecodeFixed32(s);
    assert w / 256 == s[1] as int + 256 * s[2] as int + 65536 * s[3] as int;
    assert w / 65536 == s[2] as int + 256 * s[3] as int;
    assert w / 16777216 == s[3];
  }

  function Fixed64(w: Long): (s: seq<byte>)
    ensures |s| == 8
  {
    Fixed32(w % WORD) + Fixed32(w / WORD)
  }

  function DecodeFixed64(s: seq<byte>): Long
    requires |s| == 8
  {
    DecodeFixed32(s[..4]) as int + WORD * DecodeFixed32(s[4..]) as int
  }

  lemma {:induction false} Fixed64RoundTrip(w: Long)
    ensures DecodeFixed64(Fixed64(w)) == w
  {
    var s := Fixed64(w);
    assert s[..4] == Fixed32(w % WORD) && s[4..] == Fixed32(w / WORD);
    Fixed32RoundTrip(w % WORD);
    Fixed32RoundTrip(w / WORD);
  }

  lemma {:induction false} Fixed64OfDecoded(s: seq<byte>)
    requires |s| == 8
    ensures Fixed64(DecodeFixed64(s)) == s
  {
    var w, a, b := DecodeFixed64(s), DecodeFixed32(s[..4]), DecodeFixed32(s[4..]);
    assert w % WORD == a && w / WORD == b;
    Fixed32OfDecoded(s[..4]);
    Fixed32OfDecoded(s[4..]);
    assert s == s[..4] + s[4..];
  }

  /** What the low m bytes of a number say. */
  function LowBytes(w: nat, m: nat): nat
    requires m <= 4
  {
    if m == 0 then 0 else if m == 1 then w % 256 else if m == 2 then w % 65536 else if m == 3 then w % 16777216 else w
  }

  lemma {:induction false} DecodeLowBytes(w: Word, s: seq<byte>, m: nat)
    requires |s| == 4 && m <= 4
    requires forall i :: 0 <= i < 4 ==> s[i] == if i < m then Fixed32(w)[i] else 0
    ensures DecodeFixed32(s) == LowBytes(w, m) <= w
  {
    var a, b, c := w / 256, w / 65536, w / 16777216;
    assert w == 256 * a + w % 256 && a == 256 * b + a % 256 && b == 256 * c + b % 256;
  }
}
