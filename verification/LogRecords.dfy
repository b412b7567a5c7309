/** The records that are replicated to the storage servers, their encoding, and the loop that
    recovers them from a log buffer. */
module LogRecords {
  import opened Coding

  datatype Record = Record(key: seq<byte>, value: seq<byte>, sequence: Long)

  function RecordSize(r: Record): nat {
    4 + 4 + |r.key| + 4 + |r.value| + 8 + 1
  }

  /** Sizes are 32-bit numbers. */
  predicate Encodable(r: Record) {
    RecordSize(r) < WORD
  }

  function Encode(r: Record): (s: seq<byte>)
    requires Encodable(r)
    ensures |s| == RecordSize(r)
  {
    Fixed32(RecordSize(r)) + Fixed32(|r.key|) + r.key + Fixed32(|r.value|) + r.value + Fixed64(r.sequence) + [1]
  }

  predicate AllEncodable(records: seq<Record>) {
    forall i :: 0 <= i < |records| ==> Encodable(records[i])
  }

  function EncodeAll(records: seq<Record>): seq<byte>
    requires AllEncodable(records)
  {
    if records == [] then [] else Encode(records[0]) + EncodeAll(records[1..])
  }

  /** The decoder reads the end marker without asking whether a byte is left. */
  datatype Decoded = Got(record: Record, size: nat) | Stop | OutOfBounds

  function WordAt(b: seq<byte>, p: nat): Word
    requires p + 4 <= |b|
  {
    DecodeFixed32(b[p..p + 4])
  }

  function Decode(b: seq<byte>): (d: Decoded)
    ensures d.Got? ==> 0 < d.size <= |b|
  {
    if |b| < 8 || |b| < 8 + WordAt(b, 4) then Stop
    else
      var p := 8 + WordAt(b, 4);
      if |b| < p + 4 || |b| < p + 4 + WordAt(b, p) then Stop
      else
        var q := p + 4 + WordAt(b, p);
        if |b| < q + 8 then Stop
        else if |b| == q + 8 then OutOfBounds
        else if b[q + 8] != 1 then Stop
        else
          var r := Record(b[8..p], b[p + 4..q], DecodeFixed64(b[q..q + 8]));
          if WordAt(b, 0) != RecordSize(r) then Stop else Got(r, q + 9)
  }

  /** All records at the front of a buffer, and whether the decoder ran off its end. */
  function Recover(b: seq<byte>): (x: (seq<Record>, bool)) {
    match Decode(b)
    case Stop => ([], false)
    case OutOfBounds => ([], true)
    case Got(r, n) => var (rest, oob) := Recover(b[n..]); ([r] + rest, oob)
  }

  // ---------- the code ----------

  method DecodeFixed32From(slice: seq<byte>) returns (ok: bool, n: Word, rest: seq<byte>)
    ensures ok <==> |slice| >= 4
    ensures ok ==> n == WordAt(slice, 0) && rest == slice[4..]
  {
    if |slice| < 4 {
      return false, 0, slice;
    }
    return true, DecodeFixed32(slice[0..4]), slice[4..];
  }

  method DecodeStr(slice: seq<byte>) returns (ok: bool, str: seq<byte>, rest: seq<byte>)
    ensures ok <==> |slice| >= 4 && |slice| >= 4 + WordAt(slice, 0)
    ensures ok ==> str == slice[4..4 + WordAt(slice, 0)] && rest == slice[4 + WordAt(slice, 0)..]
  {
    var n: Word;
    ok, n, rest := DecodeFixed32From(slice);
    str := [];
    if ok {
      ok := |rest| >= n;
      if ok {
        str, rest := rest[..n], rest[n..];
      }
    }
  }

  lemma {:induction false} WordAtSuffix(b: seq<byte>, n: nat)
    requires n + 4 <= |b|
    ensures WordAt(b[n..], 0) == WordAt(b, n)
  {
    assert b[n..][0..4] == b[n..n + 4];
  }

  method DecodeLogRecord(b: seq<byte>) returns (d: Decoded)
    ensures d == Decode(b)
  {
    hide DecodeFixed32, DecodeFixed64;
    var ok, recordSize, rest := DecodeFixed32From(b);
    if !ok {
      return Stop;
    }
    if |b| >= 8 {
      WordAtSuffix(b, 4);
    }
    var key, value;
    ok, key, rest := DecodeStr(rest);
    if !ok {
      return Stop;
    }
    ghost var p := 8 + WordAt(b, 4);
    assert rest == b[p..] && key == b[8..p];
    if |b| >= p + 4 {
      WordAtSuffix(b, p);
    }
    ok, value, rest := DecodeStr(rest);
    if !ok {
      return Stop;
    }
    ghost var q := p + 4 + WordAt(b, p);
    assert rest == b[q..] && value == b[p + 4..q];
    if |rest| < 8 {
      return Stop;
    }
    assert rest[..8] == b[q..q + 8];
    var sequence := DecodeFixed64(rest[..8]);
    rest := rest[8..];
    if |rest| == 0 {
      return OutOfBounds;
    }
    if rest[0] != 1 {
      return Stop;
    }
    var r := Record(key, value, sequence);
    if recordSize != RecordSize(r) {
      return Stop;
    }
    return Got(r, RecordSize(r));
  }

  method RecoverLog(buf: seq<byte>) returns (records: seq<Record>, outOfBounds: bool)
    ensures (records, outOfBounds) == Recover(buf)
  {
    hide Decode;
    records, outOfBounds := [], false;
    var slice := buf;
    assert [] + Recover(buf).0 == Recover(buf).0;
    while true
      invariant (records + Recover(slice).0, Recover(slice).1) == Recover(buf)
      decreases |slice|
    {
      var d := DecodeLogRecord(slice);
      if !d.Got? {
        outOfBounds := d.OutOfBounds?;
        assert records + [] == records;
        return;
      }
      ghost var rest := Recover(slice[d.size..]).0;
      assert records + ([d.record] + rest) == (records + [d.record]) + rest;
      records := records + [d.record];
      slice := slice[d.size..];
    }
  }

  // ---------- what recovery finds ----------

  lemma {:induction false} Layout(r: Record)
    requires Encodable(r)
    ensures var e, p := Encode(r), 8 + |r.key|;
      var q := p + 4 + |r.value|;
      && |e| == q + 9
      && e[0..4] == Fixed32(RecordSize(r)) && e[4..8] == Fixed32(|r.key|) && e[8..p] == r.key
      && e[p..p + 4] == Fixed32(|r.value|) && e[p + 4..q] == r.value && e[q..q + 8] == Fixed64(r.sequence)
         && e[q + 8] == 1
  {
    hide Fixed32, Fixed64;
    var a, b, c, d := Fixed32(RecordSize(r)), Fixed32(|r.key|), Fixed32(|r.value|), Fixed64(r.sequence);
    var e := a + b + r.key + c + r.value + d + [1];
    assert e[0..4] == a && e[4..8] == b;
  }

  lemma {:induction false} LayoutWords(r: Record)
    requires Encodable(r)
    ensures var e := Encode(r);
      && WordAt(e, 0) == RecordSize(r) && WordAt(e, 4) == |r.key| && WordAt(e, 8 + |r.key|) == |r.value|
      && DecodeFixed64(e[12 + |r.key| + |r.value|..20 + |r.key| + |r.value|]) == r.sequence
  {
    Layout(r);
    Fixed32RoundTrip(RecordSize(r));
    Fixed32RoundTrip(|r.key|);
    Fixed32RoundTrip(|r.value|);
    Fixed64RoundTrip(r.sequence);
    hide Encode, Fixed32, Fixed64, DecodeFixed32, DecodeFixed64;
  }

  lemma {:induction false} SliceOfPrefix(b: seq<byte>, e: seq<byte>, lo: nat, hi: nat)
    requires e <= b && lo <= hi <= |e|
    ensures b[lo..hi] == e[lo..hi]
  {
  }

  lemma {:induction false} PrefixFields(b: seq<byte>, r: Record)
    requires Encodable(r) && Encode(r) <= b
    ensures var p := 8 + |r.key|;
      var q := p + 4 + |r.value|;
      && |b| >= q + 9 && WordAt(b, 0) == RecordSize(r) && WordAt(b, 4) == |r.key| && WordAt(b, p) == |r.value|
      && b[8..p] == r.key && b[p + 4..q] == r.value && DecodeFixed64(b[q..q + 8]) == r.sequence && b[q + 8] == 1
  {
    Layout(r);
    LayoutWords(r);
    hide Encode, DecodeFixed32, DecodeFixed64;
    var e, p := Encode(r), 8 + |r.key|;
    var q := p + 4 + |r.value|;
    SliceOfPrefix(b, e, 0, 4);
    SliceOfPrefix(b, e, 4, 8);
    SliceOfPrefix(b, e, 8, p);
    SliceOfPrefix(b, e, p, p + 4);
    SliceOfPrefix(b, e, p + 4, q);
    SliceOfPrefix(b, e, q, q + 8);
  }

  lemma {:induction false} DecodesPrefix(b: seq<byte>, r: Record)
    requires Encodable(r) && Encode(r) <= b
    ensures Decode(b) == Got(r, RecordSize(r))
  {
    PrefixFields(b, r);
    hide Encode, DecodeFixed64, WordAt;
  }

  /** What is decoded is encoded in the buffer. */
  lemma {:induction false} DecodedIsEncoded(b: seq<byte>)
    requires Decode(b).Got?
    ensures var d := Decode(b); Encodable(d.record) && d.size == RecordSize(d.record) && Encode(d.record) <= b
  {
    hide DecodeFixed32, DecodeFixed64, Fixed32, Fixed64;
    var p := 8 + WordAt(b, 4);
    var q := p + 4 + WordAt(b, p);
    var r := Record(b[8..p], b[p + 4..q], DecodeFixed64(b[q..q + 8]));
    assert Decode(b) == Got(r, q + 9) && |r.key| == WordAt(b, 4) && |r.value| == WordAt(b, p);
    Fixed32OfDecoded(b[0..4]);
    Fixed32OfDecoded(b[4..8]);
    Fixed32OfDecoded(b[p..p + 4]);
    Fixed64OfDecoded(b[q..q + 8]);
    Reassembled(b, p, q);
  }

  lemma {:induction false} Reassembled(b: seq<byte>, p: nat, q: nat)
    requires 8 <= p && p + 4 <= q && q + 9 <= |b| && b[q + 8] == 1
    ensures b[0..4] + b[4..8] + b[8..p] + b[p..p + 4] + b[p + 4..q] + b[q..q + 8] + [1] == b[..q + 9]
  {
  }

  /** A record is decoded from any bytes if and only if they begin with its encoding. */
  lemma {:induction false} DecodesIff(b: seq<byte>, r: Record, n: nat)
    ensures Decode(b) == Got(r, n) <==> Encodable(r) && n == RecordSize(r) && Encode(r) <= b
  {
    hide Decode, Encode;
    if Decode(b).Got? {
      DecodedIsEncoded(b);
    }
    if Encodable(r) && Encode(r) <= b {
      DecodesPrefix(b, r);
    }
  }

  /** The decoder runs off the end of any bytes if and only if they end where it expects the end marker. */
  lemma {:induction false} OverrunsIff(b: seq<byte>)
    ensures Decode(b).OutOfBounds? <==>
      |b| >= 20 && WordAt(b, 4) <= |b| - 20 && WordAt(b, 4) + WordAt(b, 8 + WordAt(b, 4)) == |b| - 20
  {
  }

  /** The bytes do not begin with a record. */
  ghost predicate NoRecord(b: seq<byte>) {
    forall r :: Encodable(r) ==> !(Encode(r) <= b)
  }

  lemma {:induction false} StoppedAt(b: seq<byte>)
    requires !Decode(b).Got?
    ensures NoRecord(b)
  {
    hide Decode, Encode;
    forall r | Encodable(r)
      ensures !(Encode(r) <= b)
    {
      DecodesIff(b, r, RecordSize(r));
    }
  }

  /** Whatever the bytes are, recovery finds records that are encoded at their front, one after the other, and
      behind them no other record is. */
  lemma {:induction false} RecoversFront(b: seq<byte>)
    ensures var found := Recover(b).0;
      && AllEncodable(found) && EncodeAll(found) <= b && NoRecord(b[|EncodeAll(found)|..])
      && (Recover(b).1 <==> Decode(b[|EncodeAll(found)|..]).OutOfBounds?)
    decreases |b|
  {
    hide Decode, Encode, NoRecord;
    if Decode(b).Got? {
      DecodedIsEncoded(b);
      var r, rest := Decode(b).record, b[Decode(b).size..];
      RecoversFront(rest);
      FrontGrows(b, r, Recover(rest).0);
    } else {
      assert b[0..] == b;
      StoppedAt(b);
    }
  }

  lemma {:induction false} FrontGrows(b: seq<byte>, r: Record, found: seq<Record>)
    requires Encodable(r) && Encode(r) <= b && AllEncodable(found) && EncodeAll(found) <= b[RecordSize(r)..]
    ensures AllEncodable([r] + found) && EncodeAll([r] + found) <= b
    ensures b[|EncodeAll([r] + found)|..] == b[RecordSize(r)..][|EncodeAll(found)|..]
  {
    hide Encode;
    assert ([r] + found)[1..] == found;
    assert b == Encode(r) + b[RecordSize(r)..];
  }

  /** A record of which only the first c bytes have arrived, in a buffer of zeros. */
  function Torn(r: Record, c: nat, z: nat): (b: seq<byte>)
    requires Encodable(r) && c <= RecordSize(r)
    ensures |b| == c + z
  {
    Encode(r)[..c] + Zeros(z)
  }

  /** How many of the four bytes at p are among the first c. */
  function Arrived(c: nat, p: nat): (m: nat)
    ensures m <= 4
  {
    if c <= p then 0 else if c < p + 4 then c - p else 4
  }

  lemma {:induction false} TornWord(r: Record, c: nat, z: nat, p: nat, w: Word)
    requires Encodable(r) && c <= RecordSize(r) && p + 4 <= c + z
    requires c <= p || (p + 4 <= RecordSize(r) && Encode(r)[p..p + 4] == Fixed32(w))
    ensures WordAt(Torn(r, c, z), p) == if c <= p then 0 else LowBytes(w, Arrived(c, p))
  {
    hide Encode, Fixed32, DecodeFixed32, LowBytes;
    var b, f := Torn(r, c, z), if c <= p then 0 else w;
    var s := b[p..p + 4];
    assert c > p ==> forall i :: 0 <= i < 4 ==> Fixed32(w)[i] == Encode(r)[p..p + 4][i];
    DecodeLowBytes(f, s, Arrived(c, p));
    LowBytesOfNone(f);
  }

  lemma {:induction false} LowBytesOfNone(w: nat)
    ensures LowBytes(w, 0) == 0
  {
  }

  /** Where the decoder looks for the end marker of a record of which only c bytes arrived. */
  function MarkerAt(r: Record, c: nat): nat {
    20 + LowBytes(|r.key|, Arrived(c, 4)) + LowBytes(|r.value|, Arrived(c, 8 + |r.key|))
  }

  /** It is behind the bytes that arrived, and never beyond where the whole record would have ended. */
  lemma {:induction false} MarkerBehind(r: Record, c: nat)
    requires Encodable(r) && c < RecordSize(r)
    ensures c <= MarkerAt(r, c) < RecordSize(r)
  {
  }

  lemma {:induction false} TornLengths(r: Record, c: nat, z: nat)
    requires Encodable(r) && c < RecordSize(r) && c + z >= 8
    ensures var b := Torn(r, c, z);
      var p := 8 + WordAt(b, 4);
      && p <= MarkerAt(r, c) - 12
      && (p + 4 <= |b| ==> p + 4 + WordAt(b, p) + 8 == MarkerAt(r, c))
  {
    Layout(r);
    hide Torn, Encode, WordAt, Fixed32, LowBytes;
    TornWord(r, c, z, 4, |r.key|);
    LowBytesOfNone(|r.key|);
    LowBytesOfNone(|r.value|);
    var b := Torn(r, c, z);
    var p := 8 + WordAt(b, 4);
    if p + 4 <= |b| {
      if c >= 8 {
        AllBytes(|r.key|);
      }
      TornWord(r, c, z, p, |r.value|);
    }
  }

  lemma {:induction false} AllBytes(w: nat)
    ensures LowBytes(w, 4) == w
  {
  }

  /** A record cut at any byte and followed by zeros is not decoded; the decoder runs off the end if
      and only if the buffer ends where it looks for the end marker. */
  lemma {:induction false} TornRecordStops(r: Record, c: nat, z: nat)
    requires Encodable(r) && c < RecordSize(r)
    ensures Decode(Torn(r, c, z)) == if c + z == MarkerAt(r, c) then OutOfBounds else Stop
  {
    MarkerBehind(r, c);
    var b := Torn(r, c, z);
    if |b| >= 8 {
      TornLengths(r, c, z);
      hide Encode, WordAt, DecodeFixed64, MarkerAt;
      assert forall i :: c <= i < |b| ==> b[i] == 0;
    }
  }

  /** Behind the last record: zeros stop the decoder, unless exactly 20 of them are left. */
  lemma {:induction false} ZerosStop(z: nat)
    ensures Decode(Zeros(z)) == if z == 20 then OutOfBounds else Stop
  {
    var b := Zeros(z);
    assert z >= 8 ==> b[4..8] == [0, 0, 0, 0];
    assert z >= 12 ==> b[8..12] == [0, 0, 0, 0];
  }

  /** How many of the records lie completely within the first n bytes. */
  function Whole(records: seq<Record>, n: nat): (k: nat)
    ensures k <= |records|
  {
    if records == [] || RecordSize(records[0]) > n then 0 else 1 + Whole(records[1..], n - RecordSize(records[0]))
  }

  lemma {:induction false} WholeIsMaximal(records: seq<Record>, n: nat)
    requires AllEncodable(records)
    ensures var k := Whole(records, n);
      |EncodeAll(records[..k])| <= n && (k < |records| ==> n < |EncodeAll(records[..k + 1])|)
  {
    hide Encode;
    var k := Whole(records, n);
    if records != [] && RecordSize(records[0]) <= n {
      WholeIsMaximal(records[1..], n - RecordSize(records[0]));
      assert records[..k][1..] == records[1..][..k - 1];
      if k < |records| {
        assert records[..k + 1][1..] == records[1..][..k];
      }
    } else if records != [] {
      assert EncodeAll(records[..1]) == Encode(records[0]) + EncodeAll(records[..1][1..]);
    }
  }

  /** The length of a buffer with the first n bytes of some records at which recovery overruns. */
  function OverrunLength(records: seq<Record>, n: nat): nat {
    if records == [] then 20
    else if RecordSize(records[0]) > n then MarkerAt(records[0], n)
    else RecordSize(records[0]) + OverrunLength(records[1..], n - RecordSize(records[0]))
  }

  /** It lies behind the records that arrived, by what is read of the next one, if there is one. */
  lemma {:induction false} OverrunBehindWhole(records: seq<Record>, n: nat)
    requires AllEncodable(records)
    ensures var k := Whole(records, n);
      var m := |EncodeAll(records[..k])|;
      m <= n && OverrunLength(records, n) == m + if k < |records| then MarkerAt(records[k], n - m) else 20
  {
    hide Encode, MarkerAt;
    var k := Whole(records, n);
    if records != [] && RecordSize(records[0]) <= n {
      OverrunBehindWhole(records[1..], n - RecordSize(records[0]));
      assert records[..k][1..] == records[1..][..k - 1];
    }
  }

  lemma {:induction false} RecoverStep(b: seq<byte>, r: Record)
    requires Encodable(r) && Encode(r) <= b
    ensures Recover(b) == ([r] + Recover(b[RecordSize(r)..]).0, Recover(b[RecordSize(r)..]).1)
  {
    DecodesPrefix(b, r);
  }

  /** The first n bytes of a sequence of records, followed by zeros, recover as exactly the
      records that are complete. */
  lemma {:induction false} RecoversWhole(records: seq<Record>, n: nat, z: nat)
    requires AllEncodable(records) && n <= |EncodeAll(records)|
    ensures Recover(EncodeAll(records)[..n] + Zeros(z)).0 == records[..Whole(records, n)]
    ensures Recover(EncodeAll(records)[..n] + Zeros(z)).1 <==> n + z == OverrunLength(records, n)
    decreases |records|
  {
    hide Encode, Decode, MarkerAt;
    var all := EncodeAll(records);
    var b := all[..n] + Zeros(z);
    if records == [] {
      assert b == Zeros(z);
      ZerosStop(z);
    } else {
      var e, rest := Encode(records[0]), EncodeAll(records[1..]);
      assert all == e + rest;
      if RecordSize(records[0]) > n {
        assert b == Torn(records[0], n, z);
        TornRecordStops(records[0], n, z);
      } else {
        var n' := n - |e|;
        assert e <= b && b[|e|..] == rest[..n'] + Zeros(z);
        RecoverStep(b, records[0]);
        RecoversWhole(records[1..], n', z);
        assert [records[0]] + records[1..][..Whole(records[1..], n')] == records[..Whole(records, n)];
      }
    }
  }
}
