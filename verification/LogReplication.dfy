/** Replication of one log file to a fixed set of storage servers.

    The writer keeps, per server, where its buffer starts and how much of it is used.  The first
    request allocates all buffers; until every server has answered, further requests are turned
    away.  Writes posted to one server land in the order they were posted and byte by byte, and
    are acknowledged in that order.  The theorems hold for every interleaving. */
module LogReplication {
  import opened Coding
  import opened LogRecords

  datatype Buf = Buf(base: nat, offset: nat, size: nat, initializing: bool)

  datatype Result = Unsent | WaitForAlloc | AllocSuccess | WaitForWrite(wr: nat) | WriteSuccess

  /** A posted RDMA write of the bytes of request `req`. */
  datatype Write = Write(req: nat, wr: nat, address: nat, bytes: seq<byte>)

  /** `buf` and `status` (per request) are the writer's; the rest is the server's buffer and the
      wire: `queue` are posted writes, the first `torn` bytes of its head have landed, `landed`
      are complete but not yet acknowledged.  `posted` is the history of all writes. */
  datatype Replica = Replica(buf: Buf, status: seq<Result>, memory: seq<byte>, queue: seq<Write>, torn: nat,
                             landed: seq<Write>, posted: seq<Write>)

  datatype State = State(replicas: seq<Replica>, requests: seq<seq<Record>>, nextWr: nat)

  // ---------- the writer's side of one replica ----------

  datatype Sent = Sent(buf: Buf, result: Result, posted: seq<Write>)

  /** What AddRecord does for one replica. */
  function Send(buf: Buf, req: nat, wr: nat, bytes: seq<byte>): Sent {
    if buf.base == 0 then Sent(buf.(initializing := true), WaitForAlloc, [])
    else Sent(buf.(offset := buf.offset + |bytes|), WaitForWrite(wr), [Write(req, wr, buf.base + buf.offset, bytes)])
  }

  /** What AckAllocLogBuf does: the record that waited for the buffer is written at its start. */
  function SendFirst(req: nat, wr: nat, bytes: seq<byte>, base: nat, size: nat): Sent {
    Sent(Buf(base, |bytes|, size, false), WaitForWrite(wr), [Write(req, wr, base, bytes)])
  }

  // ---------- steps ----------

  function AddTo(r: Replica, req: nat, wr: nat, bytes: seq<byte>): Replica {
    var x := Send(r.buf, req, wr, bytes);
    Post(r, x, r.status + [x.result])
  }

  function Post(r: Replica, x: Sent, status: seq<Result>): Replica {
    r.(buf := x.buf, status := status, queue := r.queue + x.posted, posted := r.posted + x.posted)
  }

  /** Accepted only while no buffer is being allocated; running out of buffer is fatal. */
  ghost predicate AddRecord(s: State, s': State, records: seq<Record>) {
    && AllEncodable(records)
    && (forall i :: 0 <= i < |s.replicas| ==> !s.replicas[i].buf.initializing)
    && (forall i :: 0 <= i < |s.replicas| && s.replicas[i].buf.base != 0 ==>
          s.replicas[i].buf.offset + |EncodeAll(records)| <= s.replicas[i].buf.size)
    && s'.requests == s.requests + [records]
    && s'.nextWr == s.nextWr + |s.replicas|
    && |s'.replicas| == |s.replicas|
    && (forall i :: 0 <= i < |s.replicas| ==>
          s'.replicas[i] == AddTo(s.replicas[i], |s.requests|, s.nextWr + i, EncodeAll(records)))
  }

  ghost predicate Allocated(r: Replica, r': Replica, req: nat, wr: nat, bytes: seq<byte>, base: nat, size: nat) {
    && r.buf.initializing && req < |r.status| && r.status[req] == WaitForAlloc && base > 0 && |bytes| <= size
    && var x := SendFirst(req, wr, bytes, base, size);
       r' == Post(r, x, r.status[req := x.result]).(memory := Zeros(size))
  }

  /** A server answers with a zeroed buffer that holds at least the waiting request. */
  ghost predicate AckAlloc(s: State, s': State, i: nat, req: nat, base: nat, size: nat) {
    && i < |s.replicas| == |s'.replicas| && req < |s.requests| && AllEncodable(s.requests[req])
    && Allocated(s.replicas[i], s'.replicas[i], req, s.nextWr, EncodeAll(s.requests[req]), base, size)
    && s' == s.(replicas := s.replicas[i := s'.replicas[i]], nextWr := s.nextWr + 1)
  }

  function Overwrite(memory: seq<byte>, at: nat, bytes: seq<byte>): (m: seq<byte>)
    requires at + |bytes| <= |memory|
  {
    memory[..at] + bytes + memory[at + |bytes|..]
  }

  /** The head of the queue lands up to its byte k. */
  ghost predicate Land(r: Replica, r': Replica, k: nat) {
    && r.queue != [] && r.torn <= k <= |r.queue[0].bytes|
    && var w := r.queue[0];
       && r.buf.base <= w.address && w.address - r.buf.base + k <= |r.memory|
       && var memory := Overwrite(r.memory, w.address - r.buf.base, w.bytes[..k]);
          r' == if k < |w.bytes| then r.(memory := memory, torn := k)
                else r.(memory := memory, torn := 0, queue := r.queue[1..], landed := r.landed + [w])
  }

  /** The completion of the oldest landed write; it must match what the request waits for. */
  ghost predicate AckWrite(r: Replica, r': Replica) {
    && r.landed != [] && r.landed[0].req < |r.status|
    && r.status[r.landed[0].req] == WaitForWrite(r.landed[0].wr)
    && r' == r.(landed := r.landed[1..], status := r.status[r.landed[0].req := WriteSuccess])
  }

  ghost predicate OnReplica(s: State, s': State, i: nat) {
    i < |s.replicas| == |s'.replicas| && s' == s.(replicas := s.replicas[i := s'.replicas[i]])
  }

  ghost predicate Next(s: State, s': State) {
    || (exists records :: AddRecord(s, s', records))
    || (exists i: nat, req: nat, base: nat, size: nat :: AckAlloc(s, s', i, req, base, size))
    || (exists i: nat, k: nat :: OnReplica(s, s', i) && Land(s.replicas[i], s'.replicas[i], k))
    || (exists i: nat :: OnReplica(s, s', i) && AckWrite(s.replicas[i], s'.replicas[i]))
  }

  ghost predicate Init(s: State) {
    && s.requests == []
    && forall i :: 0 <= i < |s.replicas| ==> s.replicas[i] == Replica(Buf(0, 0, 0, false), [], [], [], 0, [], [])
  }

  // ---------- the invariant ----------

  ghost predicate RequestsOk(reqs: seq<seq<Record>>) {
    forall j :: 0 <= j < |reqs| ==> AllEncodable(reqs[j])
  }

  /** All accepted bytes, in the order the requests were accepted. */
  ghost function Bytes(reqs: seq<seq<Record>>): seq<byte>
    requires RequestsOk(reqs)
  {
    if reqs == [] then [] else Bytes(reqs[..|reqs| - 1]) + EncodeAll(reqs[|reqs| - 1])
  }

  ghost function StartOf(reqs: seq<seq<Record>>, j: nat): nat
    requires RequestsOk(reqs) && j <= |reqs|
  {
    |Bytes(reqs[..j])|
  }

  ghost predicate IsWrite(w: Write, r: Replica, reqs: seq<seq<Record>>, j: nat)
    requires RequestsOk(reqs)
  {
    && j < |reqs| && j < |r.status| && w.req == j && r.status[j] == WaitForWrite(w.wr)
    && w.address == r.buf.base + StartOf(reqs, j) && w.bytes == EncodeAll(reqs[j])
  }

  /** Number of requests that have landed completely. */
  ghost function Delivered(r: Replica): int {
    |r.status| - |r.queue|
  }

  ghost function Acked(r: Replica): int {
    Delivered(r) - |r.landed|
  }

  /** Bytes of the log that have landed. */
  ghost function LandedBytes(r: Replica, reqs: seq<seq<Record>>): nat
    requires RequestsOk(reqs) && 0 <= Delivered(r) <= |reqs|
  {
    StartOf(reqs, Delivered(r)) + r.torn
  }

  ghost predicate WiresOk(r: Replica, reqs: seq<seq<Record>>)
    requires RequestsOk(reqs)
  {
    && 0 <= Acked(r)
    && (forall j :: 0 <= j < Acked(r) ==> r.status[j] == WriteSuccess)
    && (forall k :: 0 <= k < |r.landed| ==> IsWrite(r.landed[k], r, reqs, Acked(r) + k))
    && (forall k :: 0 <= k < |r.queue| ==> IsWrite(r.queue[k], r, reqs, Delivered(r) + k))
  }

  ghost predicate MemoryOk(r: Replica, reqs: seq<seq<Record>>)
    requires RequestsOk(reqs) && 0 <= Delivered(r) <= |reqs|
  {
    && r.buf.offset == |Bytes(reqs)| <= r.buf.size
    && (r.torn == 0 || (r.queue != [] && r.torn < |r.queue[0].bytes|))
    && var n := LandedBytes(r, reqs);
       && n <= |Bytes(reqs)|
       && r.memory == Bytes(reqs)[..n] + Zeros(r.buf.size - n)
  }

  /** The write of request j, whether acknowledged or not. */
  ghost predicate IsPosted(w: Write, r: Replica, reqs: seq<seq<Record>>, j: nat)
    requires RequestsOk(reqs)
  {
    j < |reqs| && w.req == j && w.address == r.buf.base + StartOf(reqs, j) && w.bytes == EncodeAll(reqs[j])
  }

  /** All writes on their way to one server, or arrived and not acknowledged. */
  ghost function Wire(r: Replica): seq<Write> {
    r.landed + r.queue
  }

  ghost predicate PostedOk(r: Replica, reqs: seq<seq<Record>>)
    requires RequestsOk(reqs)
  {
    && |r.posted| == |reqs| && 0 <= Acked(r) <= |r.posted| && Wire(r) == r.posted[Acked(r)..]
    && forall j :: 0 <= j < |r.posted| ==> IsPosted(r.posted[j], r, reqs, j)
  }

  ghost predicate ReplicaOk(r: Replica, reqs: seq<seq<Record>>)
    requires RequestsOk(reqs)
  {
    && |r.status| == |reqs|
    && if r.buf.base == 0 then
         && r.queue == [] && r.landed == [] && r.torn == 0 && r.posted == []
         && if r.buf.initializing then |reqs| == 1 && r.status[0] == WaitForAlloc else |reqs| == 0
       else
         !r.buf.initializing && |reqs| > 0 && WiresOk(r, reqs) && PostedOk(r, reqs) && MemoryOk(r, reqs)
  }

  ghost predicate Inv(s: State) {
    && RequestsOk(s.requests)
    && forall i :: 0 <= i < |s.replicas| ==> ReplicaOk(s.replicas[i], s.requests)
  }

  // ---------- each step keeps it ----------

  lemma {:induction false} BytesAppend(reqs: seq<seq<Record>>, records: seq<Record>)
    requires RequestsOk(reqs) && AllEncodable(records)
    ensures RequestsOk(reqs + [records]) && Bytes(reqs + [records]) == Bytes(reqs) + EncodeAll(records)
    ensures forall j :: 0 <= j <= |reqs| ==> StartOf(reqs + [records], j) == StartOf(reqs, j)
  {
    var reqs' := reqs + [records];
    assert reqs'[..|reqs|] == reqs;
    assert forall j :: 0 <= j <= |reqs| ==> reqs'[..j] == reqs[..j];
  }

  /** Where a request starts, its bytes lie, and the next request starts behind them. */
  lemma {:induction false} BytesAt(reqs: seq<seq<Record>>, j: nat)
    requires RequestsOk(reqs) && j < |reqs|
    ensures var at, e := StartOf(reqs, j), EncodeAll(reqs[j]);
      && StartOf(reqs, j + 1) == at + |e| && at + |e| <= |Bytes(reqs)| && Bytes(reqs)[at..at + |e|] == e
  {
    hide EncodeAll;
    var init := reqs[..|reqs| - 1];
    assert reqs[..j + 1][..j] == reqs[..j];
    assert reqs[..|reqs|] == reqs;
    if j < |reqs| - 1 {
      BytesAt(init, j);
      assert init[..j] == reqs[..j] && init[..j + 1] == reqs[..j + 1];
    }
  }

  lemma {:induction false} AddKeepsWrite(w: Write, r: Replica, reqs: seq<seq<Record>>, records: seq<Record>, x: Sent,
                                         j: nat)
    requires RequestsOk(reqs) && AllEncodable(records) && IsWrite(w, r, reqs, j) && x.buf.base == r.buf.base
    ensures RequestsOk(reqs + [records])
    ensures IsWrite(w, Post(r, x, r.status + [x.result]), reqs + [records], j)
  {
    BytesAppend(reqs, records);
    hide EncodeAll, Bytes, StartOf;
  }

  lemma {:induction false} AddMakesWrite(r: Replica, reqs: seq<seq<Record>>, records: seq<Record>, wr: nat)
    requires RequestsOk(reqs) && AllEncodable(records) && r.buf.base != 0 && |r.status| == |reqs|
      && r.buf.offset == |Bytes(reqs)|
    ensures var r', e := AddTo(r, |reqs|, wr, EncodeAll(records)), EncodeAll(records);
      && RequestsOk(reqs + [records])
      && r'.queue == r.queue + [Write(|reqs|, wr, r.buf.base + r.buf.offset, e)]
      && IsWrite(Write(|reqs|, wr, r.buf.base + r.buf.offset, e), r', reqs + [records], |reqs|)
  {
    BytesAppend(reqs, records);
    WholeLength(reqs);
    hide EncodeAll, Bytes, StartOf;
  }

  lemma {:induction false} AddKeepsWires(r: Replica, reqs: seq<seq<Record>>, records: seq<Record>, wr: nat)
    requires RequestsOk(reqs) && AllEncodable(records) && WiresOk(r, reqs) && r.buf.base != 0
    requires |r.status| == |reqs| && r.buf.offset == |Bytes(reqs)|
    ensures RequestsOk(reqs + [records])
    ensures WiresOk(AddTo(r, |reqs|, wr, EncodeAll(records)), reqs + [records])
  {
    AddMakesWrite(r, reqs, records, wr);
    hide EncodeAll, Bytes, StartOf, IsWrite;
    var r', reqs', x :=
      AddTo(r, |reqs|, wr, EncodeAll(records)), reqs + [records], Send(r.buf, |reqs|, wr, EncodeAll(records));
    forall k | 0 <= k < |r'.queue|
      ensures IsWrite(r'.queue[k], r', reqs', Delivered(r') + k)
    {
      if k < |r.queue| {
        AddKeepsWrite(r.queue[k], r, reqs, records, x, Delivered(r) + k);
      }
    }
    AddKeepsLanded(r, reqs, records, wr);
  }

  lemma {:induction false} AddKeepsLanded(r: Replica, reqs: seq<seq<Record>>, records: seq<Record>, wr: nat)
    requires RequestsOk(reqs) && AllEncodable(records) && WiresOk(r, reqs) && r.buf.base != 0
    ensures RequestsOk(reqs + [records])
    ensures var r' := AddTo(r, |reqs|, wr, EncodeAll(records));
      forall k :: 0 <= k < |r'.landed| ==> IsWrite(r'.landed[k], r', reqs + [records], Acked(r') + k)
  {
    BytesAppend(reqs, records);
    hide EncodeAll, Bytes, StartOf, IsWrite;
    var r', x := AddTo(r, |reqs|, wr, EncodeAll(records)), Send(r.buf, |reqs|, wr, EncodeAll(records));
    assert r'.landed == r.landed && Acked(r') == Acked(r) && x.buf.base == r.buf.base;
    assert r' == Post(r, x, r.status + [x.result]);
    hide AddTo, Send, Post;
    forall k | 0 <= k < |r'.landed|
      ensures IsWrite(r'.landed[k], r', reqs + [records], Acked(r') + k)
    {
      AddKeepsWrite(r.landed[k], r, reqs, records, x, Acked(r) + k);
    }
  }

  lemma {:induction false} AddKeepsPosted(r: Replica, reqs: seq<seq<Record>>, records: seq<Record>, wr: nat)
    requires RequestsOk(reqs) && AllEncodable(records) && PostedOk(r, reqs) && r.buf.base != 0
    requires |r.status| == |reqs| && r.buf.offset == |Bytes(reqs)|
    ensures RequestsOk(reqs + [records])
    ensures PostedOk(AddTo(r, |reqs|, wr, EncodeAll(records)), reqs + [records])
  {
    BytesAppend(reqs, records);
    WholeLength(reqs);
    hide EncodeAll, Bytes, StartOf;
    var r', reqs' := AddTo(r, |reqs|, wr, EncodeAll(records)), reqs + [records];
    assert IsPosted(r'.posted[|reqs|], r', reqs', |reqs|);
    hide IsPosted;
    forall j | 0 <= j < |r'.posted|
      ensures IsPosted(r'.posted[j], r', reqs', j)
    {
      if j < |r.posted| {
        AddKeepsOnePosted(r.posted[j], r, r', reqs, records, j);
      }
    }
  }

  lemma {:induction false} AddKeepsOnePosted(w: Write, r: Replica, r': Replica, reqs: seq<seq<Record>>,
                                             records: seq<Record>, j: nat)
    requires RequestsOk(reqs) && AllEncodable(records) && IsPosted(w, r, reqs, j) && r'.buf.base == r.buf.base
    ensures RequestsOk(reqs + [records]) && IsPosted(w, r', reqs + [records], j)
  {
    BytesAppend(reqs, records);
    hide EncodeAll, Bytes, StartOf;
  }

  lemma {:induction false} WholeLength(reqs: seq<seq<Record>>)
    requires RequestsOk(reqs)
    ensures StartOf(reqs, |reqs|) == |Bytes(reqs)|
  {
    assert reqs[..|reqs|] == reqs;
  }

  lemma {:induction false} AddKeepsMemory(r: Replica, reqs: seq<seq<Record>>, records: seq<Record>, wr: nat)
    requires RequestsOk(reqs) && AllEncodable(records) && ReplicaOk(r, reqs) && r.buf.base != 0
    requires r.buf.offset + |EncodeAll(records)| <= r.buf.size
    ensures RequestsOk(reqs + [records]) && Delivered(AddTo(r, |reqs|, wr, EncodeAll(records))) == Delivered(r)
    ensures MemoryOk(AddTo(r, |reqs|, wr, EncodeAll(records)), reqs + [records])
  {
    BytesAppend(reqs, records);
    hide EncodeAll, Bytes, StartOf, IsWrite;
    var n := LandedBytes(r, reqs);
    assert Bytes(reqs + [records])[..n] == Bytes(reqs)[..n];
  }

  lemma {:induction false} AddKeepsReplica(r: Replica, reqs: seq<seq<Record>>, records: seq<Record>, wr: nat)
    requires RequestsOk(reqs) && AllEncodable(records) && ReplicaOk(r, reqs) && !r.buf.initializing
    requires r.buf.base != 0 ==> r.buf.offset + |EncodeAll(records)| <= r.buf.size
    ensures RequestsOk(reqs + [records]) && ReplicaOk(AddTo(r, |reqs|, wr, EncodeAll(records)), reqs + [records])
  {
    BytesAppend(reqs, records);
    hide EncodeAll, WiresOk, PostedOk, Bytes;
    if r.buf.base != 0 {
      AddKeepsWires(r, reqs, records, wr);
      AddKeepsPosted(r, reqs, records, wr);
      AddKeepsMemory(r, reqs, records, wr);
    }
  }

  lemma {:induction false} AllocKeepsReplica(r: Replica, r': Replica, reqs: seq<seq<Record>>, req: nat, wr: nat,
                                             base: nat, size: nat)
    requires RequestsOk(reqs) && ReplicaOk(r, reqs) && req < |reqs|
    requires Allocated(r, r', req, wr, EncodeAll(reqs[req]), base, size)
    ensures ReplicaOk(r', reqs)
  {
    hide EncodeAll;
    assert reqs == [reqs[0]] && reqs[..0] == [];
    assert Bytes(reqs) == [] + EncodeAll(reqs[0]) == EncodeAll(reqs[0]);
    assert r'.queue == r'.posted == [Write(0, wr, base, EncodeAll(reqs[0]))];
    assert StartOf(reqs, 0) == 0 && Delivered(r') == 0;
    assert Bytes(reqs)[..0] + Zeros(size) == Zeros(size);
  }

  /** Landing more of the next bytes extends the landed prefix. */
  lemma {:induction false} OverwriteExtends(all: seq<byte>, n: nat, size: nat, at: nat, k: nat)
    requires at <= n <= at + k <= |all| <= size
    ensures Overwrite(all[..n] + Zeros(size - n), at, all[at..at + k]) == all[..at + k] + Zeros(size - at - k)
  {
  }

  lemma {:induction false} LandKeepsMemory(r: Replica, r': Replica, reqs: seq<seq<Record>>, k: nat)
    requires RequestsOk(reqs) && ReplicaOk(r, reqs) && r.buf.base != 0 && Land(r, r', k)
    ensures MemoryOk(r', reqs)
  {
    hide EncodeAll, Bytes;
    var w, d := r.queue[0], Delivered(r);
    assert IsWrite(r.queue[0], r, reqs, d + 0);
    BytesAt(reqs, d);
    var all, at := Bytes(reqs), StartOf(reqs, d);
    assert w.bytes[..k] == all[at..at + k];
    hide StartOf, WiresOk;
    OverwriteExtends(all, at + r.torn, r.buf.size, at, k);
  }

  lemma {:induction false} LandKeepsWires(r: Replica, r': Replica, reqs: seq<seq<Record>>, k: nat)
    requires RequestsOk(reqs) && WiresOk(r, reqs) && Land(r, r', k)
    ensures WiresOk(r', reqs)
  {
    hide EncodeAll, Bytes, StartOf, Overwrite;
    forall x | 0 <= x < |r'.landed|
      ensures IsWrite(r'.landed[x], r', reqs, Acked(r') + x)
    {
      if x < |r.landed| {
        assert IsWrite(r.landed[x], r, reqs, Acked(r) + x);
      } else {
        assert IsWrite(r.queue[0], r, reqs, Delivered(r) + 0);
      }
    }
    forall x | 0 <= x < |r'.queue|
      ensures IsWrite(r'.queue[x], r', reqs, Delivered(r') + x)
    {
      var y := if k < |r.queue[0].bytes| then x else x + 1;
      assert IsWrite(r.queue[y], r, reqs, Delivered(r) + y);
    }
  }

  lemma {:induction false} AckKeepsWires(r: Replica, r': Replica, reqs: seq<seq<Record>>)
    requires RequestsOk(reqs) && WiresOk(r, reqs) && AckWrite(r, r')
    ensures WiresOk(r', reqs)
  {
    hide EncodeAll, Bytes, StartOf;
    assert IsWrite(r.landed[0], r, reqs, Acked(r) + 0);
    forall x | 0 <= x < |r'.landed|
      ensures IsWrite(r'.landed[x], r', reqs, Acked(r') + x)
    {
      assert IsWrite(r.landed[x + 1], r, reqs, Acked(r) + (x + 1));
    }
    forall x | 0 <= x < |r'.queue|
      ensures IsWrite(r'.queue[x], r', reqs, Delivered(r') + x)
    {
      assert IsWrite(r.queue[x], r, reqs, Delivered(r) + x);
    }
  }

  lemma {:induction false} WireStepKeepsPosted(r: Replica, r': Replica, reqs: seq<seq<Record>>)
    requires RequestsOk(reqs) && WiresOk(r, reqs) && PostedOk(r, reqs) && |r.status| == |reqs|
    requires AckWrite(r, r') || exists k: nat :: Land(r, r', k)
    ensures PostedOk(r', reqs)
  {
    hide EncodeAll, Bytes, StartOf, Overwrite, IsWrite;
    forall j | 0 <= j < |r'.posted|
      ensures IsPosted(r'.posted[j], r', reqs, j)
    {
      assert IsPosted(r.posted[j], r, reqs, j);
    }
    hide IsPosted;
    assert Wire(r') == if AckWrite(r, r') then Wire(r)[1..] else Wire(r);
  }

  lemma {:induction false} WireStepKeepsReplica(r: Replica, r': Replica, reqs: seq<seq<Record>>)
    requires RequestsOk(reqs) && ReplicaOk(r, reqs) && (AckWrite(r, r') || exists k: nat :: Land(r, r', k))
    ensures ReplicaOk(r', reqs)
  {
    WiresWithin(r, reqs);
    WireStepKeepsPosted(r, r', reqs);
    hide WiresOk, PostedOk, MemoryOk, EncodeAll, Bytes;
    if AckWrite(r, r') {
      AckKeepsWires(r, r', reqs);
      AckKeepsMemory(r, r', reqs);
    } else {
      var k: nat :| Land(r, r', k);
      LandKeepsWires(r, r', reqs, k);
      LandKeepsMemory(r, r', reqs, k);
      LandKeepsRest(r, r', k);
    }
  }

  lemma {:induction false} WiresWithin(r: Replica, reqs: seq<seq<Record>>)
    requires RequestsOk(reqs) && ReplicaOk(r, reqs)
    ensures 0 <= Delivered(r) <= |reqs|
  {
  }

  lemma {:induction false} LandKeepsRest(r: Replica, r': Replica, k: nat)
    requires Land(r, r', k)
    ensures r'.buf == r.buf && r'.status == r.status
  {
  }

  lemma {:induction false} AckKeepsMemory(r: Replica, r': Replica, reqs: seq<seq<Record>>)
    requires RequestsOk(reqs) && 0 <= Delivered(r) <= |reqs| && MemoryOk(r, reqs) && AckWrite(r, r')
    ensures Delivered(r') == Delivered(r) && MemoryOk(r', reqs)
  {
    hide EncodeAll, Bytes;
  }

  lemma {:induction false} AddRecordInv(s: State, s': State, records: seq<Record>)
    requires Inv(s) && AddRecord(s, s', records)
    ensures Inv(s')
  {
    hide ReplicaOk, AddTo;
    BytesAppend(s.requests, records);
    forall i | 0 <= i < |s'.replicas|
      ensures ReplicaOk(s'.replicas[i], s'.requests)
    {
      AddKeepsReplica(s.replicas[i], s.requests, records, s.nextWr + i);
    }
  }

  lemma {:induction false} NextInv(s: State, s': State)
    requires Inv(s) && Next(s, s')
    ensures Inv(s')
  {
    hide ReplicaOk, Land, AckWrite, Allocated, AddRecord;
    if records :| AddRecord(s, s', records) {
      AddRecordInv(s, s', records);
    } else if i: nat, req: nat, base: nat, size: nat :| AckAlloc(s, s', i, req, base, size) {
      AllocKeepsReplica(s.replicas[i], s'.replicas[i], s.requests, req, s.nextWr, base, size);
    } else if i: nat, k: nat :| OnReplica(s, s', i) && Land(s.replicas[i], s'.replicas[i], k) {
      WireStepKeepsReplica(s.replicas[i], s'.replicas[i], s.requests);
    } else {
      var i: nat :| OnReplica(s, s', i) && AckWrite(s.replicas[i], s'.replicas[i]);
      WireStepKeepsReplica(s.replicas[i], s'.replicas[i], s.requests);
    }
  }

  ghost predicate Run(trace: seq<State>) {
    && |trace| > 0 && Init(trace[0])
    && forall i :: 0 <= i < |trace| - 1 ==> Next(trace[i], trace[i + 1])
  }

  lemma {:induction false} RunInv(trace: seq<State>, n: nat)
    requires Run(trace) && n < |trace|
    ensures Inv(trace[n])
  {
    if n > 0 {
      RunInv(trace, n - 1);
      NextInv(trace[n - 1], trace[n]);
    }
  }

  // ---------- what every run guarantees ----------

  ghost predicate IsAllocated(r: Replica) {
    r.buf.base != 0
  }

  /** The handler asserts that an acknowledged write is the one its request waits for. */
  lemma {:induction false} AckMatchesRequest(trace: seq<State>, n: nat, i: nat)
    requires Run(trace) && n < |trace| && i < |trace[n].replicas| && trace[n].replicas[i].landed != []
    ensures var r := trace[n].replicas[i];
      r.landed[0].req < |r.status| && r.status[r.landed[0].req] == WaitForWrite(r.landed[0].wr)
  {
    RunInv(trace, n);
    hide MemoryOk;
    var r, reqs := trace[n].replicas[i], trace[n].requests;
    assert ReplicaOk(r, reqs);
    assert IsWrite(r.landed[0], r, reqs, Acked(r) + 0);
  }

  lemma {:induction false} StartsAscend(reqs: seq<seq<Record>>, a: nat, b: nat)
    requires RequestsOk(reqs) && a < b <= |reqs|
    ensures StartOf(reqs, a) + |EncodeAll(reqs[a])| <= StartOf(reqs, b)
    decreases b
  {
    hide EncodeAll, Bytes, StartOf;
    BytesAt(reqs, b - 1);
    if a < b - 1 {
      StartsAscend(reqs, a, b - 1);
    } else {
      BytesAt(reqs, a);
    }
  }

  lemma {:induction false} WireIsWrites(r: Replica, reqs: seq<seq<Record>>, a: nat)
    requires RequestsOk(reqs) && WiresOk(r, reqs) && a < |Wire(r)|
    ensures IsWrite(Wire(r)[a], r, reqs, Acked(r) + a)
  {
    hide EncodeAll, Bytes, StartOf;
    if a < |r.landed| {
      assert IsWrite(r.landed[a], r, reqs, Acked(r) + a);
    } else {
      assert IsWrite(r.queue[a - |r.landed|], r, reqs, Delivered(r) + (a - |r.landed|));
    }
  }

  lemma {:induction false} PostedInside(r: Replica, reqs: seq<seq<Record>>, j: nat)
    requires RequestsOk(reqs) && PostedOk(r, reqs) && j < |r.posted|
    ensures r.buf.base <= r.posted[j].address
    ensures r.posted[j].address + |r.posted[j].bytes| <= r.buf.base + |Bytes(reqs)|
  {
    hide EncodeAll, Bytes, StartOf;
    BytesAt(reqs, j);
    assert IsPosted(r.posted[j], r, reqs, j);
  }

  lemma {:induction false} PostedApart(r: Replica, reqs: seq<seq<Record>>, a: nat, b: nat)
    requires RequestsOk(reqs) && PostedOk(r, reqs) && a < b < |r.posted|
    ensures r.posted[a].address + |r.posted[a].bytes| <= r.posted[b].address
  {
    hide EncodeAll, Bytes, StartOf;
    StartsAscend(reqs, a, b);
    assert IsPosted(r.posted[a], r, reqs, a) && IsPosted(r.posted[b], r, reqs, b);
  }

  lemma {:induction false} PostedFits(r: Replica, reqs: seq<seq<Record>>)
    requires RequestsOk(reqs) && ReplicaOk(r, reqs)
    ensures r.posted != [] ==> PostedOk(r, reqs) && |Bytes(reqs)| <= r.buf.size == |r.memory|
    ensures IsAllocated(r) <==> r.posted != []
  {
    hide IsWrite, IsPosted, Bytes, EncodeAll;
  }

  /** All writes ever posted to one server, at every moment of a run: the j-th is that of request j,
      lies where the requests before it end, inside the buffer, and no two touch the same byte.  What
      is on the wire or landed is the part that is not yet acknowledged. */
  lemma {:induction false} WritesNeverOverlap(trace: seq<State>, n: nat, i: nat)
    requires Run(trace) && n < |trace| && i < |trace[n].replicas|
    ensures var r, reqs := trace[n].replicas[i], trace[n].requests;
      && RequestsOk(reqs)
      && (IsAllocated(r) ==> |r.posted| == |reqs| && |r.memory| == r.buf.size)
      && (!IsAllocated(r) ==> r.posted == [] && Wire(r) == [])
      && (IsAllocated(r) ==> 0 <= Acked(r) <= |reqs| && Wire(r) == r.posted[Acked(r)..])
      && (forall j :: 0 <= j < |r.posted| ==>
            && IsPosted(r.posted[j], r, reqs, j)
            && r.posted[j].address + |r.posted[j].bytes| <= r.buf.base + r.buf.size)
      && forall a, b :: 0 <= a < b < |r.posted| ==>
           r.posted[a].address + |r.posted[a].bytes| <= r.posted[b].address
  {
    RunInv(trace, n);
    var r, reqs := trace[n].replicas[i], trace[n].requests;
    assert ReplicaOk(r, reqs);
    PostedFits(r, reqs);
    hide ReplicaOk, WiresOk, Bytes, EncodeAll, Next, IsPosted;
    forall j | 0 <= j < |r.posted|
      ensures r.posted[j].address + |r.posted[j].bytes| <= r.buf.base + r.buf.size
    {
      PostedInside(r, reqs, j);
    }
    forall a, b | 0 <= a < b < |r.posted|
      ensures r.posted[a].address + |r.posted[a].bytes| <= r.posted[b].address
    {
      PostedApart(r, reqs, a, b);
    }
  }

  /** What has landed at any two servers are two prefixes of the same log, followed by zeros; so
      servers with nothing on the wire hold the same bytes. */
  lemma {:induction false} ReplicasAgree(trace: seq<State>, n: nat, i: nat)
    requires Run(trace) && n < |trace| && i < |trace[n].replicas| && IsAllocated(trace[n].replicas[i])
    ensures RequestsOk(trace[n].requests)
    ensures var r, all := trace[n].replicas[i], Bytes(trace[n].requests);
      exists k: nat :: k <= |all| <= r.buf.size && r.memory == all[..k] + Zeros(r.buf.size - k)
                       && (r.queue == [] ==> k == |all|)
  {
    RunInv(trace, n);
    var r, reqs := trace[n].replicas[i], trace[n].requests;
    assert ReplicaOk(r, reqs);
    WholeLength(reqs);
    hide EncodeAll, Bytes, StartOf, IsWrite;
    var k := LandedBytes(r, reqs);
    assert r.memory == Bytes(reqs)[..k] + Zeros(r.buf.size - k);
  }

  ghost predicate Completed(s: State, j: nat) {
    forall i :: 0 <= i < |s.replicas| ==> j < |s.replicas[i].status| && s.replicas[i].status[j] == WriteSuccess
  }

  lemma {:induction false} SuccessMeansDelivered(r: Replica, reqs: seq<seq<Record>>, j: nat)
    requires RequestsOk(reqs) && ReplicaOk(r, reqs) && j < |r.status| && r.status[j] == WriteSuccess
    ensures IsAllocated(r) && j < Acked(r)
  {
    hide EncodeAll, Bytes, StartOf, MemoryOk;
    if IsAllocated(r) && j >= Acked(r) {
      WireIsWrites(r, reqs, j - Acked(r));
    }
  }

  // ---------- recovery ----------

  ghost function All(reqs: seq<seq<Record>>): seq<Record> {
    if reqs == [] then [] else All(reqs[..|reqs| - 1]) + reqs[|reqs| - 1]
  }

  lemma {:induction false} EncodeAllConcat(a: seq<Record>, b: seq<Record>)
    requires AllEncodable(a) && AllEncodable(b)
    ensures AllEncodable(a + b) && EncodeAll(a + b) == EncodeAll(a) + EncodeAll(b)
  {
    hide Encode;
    if a == [] {
      assert a + b == b;
    } else {
      assert (a + b)[1..] == a[1..] + b;
      EncodeAllConcat(a[1..], b);
    }
  }

  lemma {:induction false} BytesEncodeAll(reqs: seq<seq<Record>>)
    requires RequestsOk(reqs)
    ensures AllEncodable(All(reqs)) && EncodeAll(All(reqs)) == Bytes(reqs)
  {
    if reqs != [] {
      BytesEncodeAll(reqs[..|reqs| - 1]);
      EncodeAllConcat(All(reqs[..|reqs| - 1]), reqs[|reqs| - 1]);
      hide EncodeAll;
    }
  }

  lemma {:induction false} AllPrefix(reqs: seq<seq<Record>>, d: nat)
    requires d <= |reqs|
    ensures All(reqs[..d]) <= All(reqs)
  {
    if d < |reqs| {
      assert reqs[..|reqs| - 1][..d] == reqs[..d];
      AllPrefix(reqs[..|reqs| - 1], d);
    } else {
      assert reqs[..d] == reqs;
    }
  }

  lemma {:induction false} WholeAtLeast(records: seq<Record>, m: nat, n: nat)
    requires AllEncodable(records) && m <= |records| && |EncodeAll(records[..m])| <= n
    ensures m <= Whole(records, n)
    ensures n == |EncodeAll(records[..m])| ==> Whole(records, n) == m
  {
    hide Encode;
    if m > 0 {
      assert records[..m][1..] == records[1..][..m - 1];
      WholeAtLeast(records[1..], m - 1, n - RecordSize(records[0]));
    }
  }

  lemma {:induction false} LandedPrefix(r: Replica, reqs: seq<seq<Record>>)
    requires RequestsOk(reqs) && ReplicaOk(r, reqs) && IsAllocated(r)
    ensures 0 <= Delivered(r) <= |reqs| && LandedBytes(r, reqs) <= |Bytes(reqs)| <= r.buf.size
    ensures r.memory == Bytes(reqs)[..LandedBytes(r, reqs)] + Zeros(r.buf.size - LandedBytes(r, reqs))
    ensures LandedBytes(r, reqs) == |Bytes(reqs[..Delivered(r)])| + r.torn
  {
    hide Bytes, EncodeAll, IsWrite;
  }

  lemma {:induction false} RecoversPart(all: seq<Record>, part: seq<Record>, n: nat, z: nat)
    requires AllEncodable(all) && part <= all && AllEncodable(part) && |EncodeAll(part)| <= n <= |EncodeAll(all)|
    ensures var found := Recover(EncodeAll(all)[..n] + Zeros(z)).0;
      part <= found <= all && (n == |EncodeAll(part)| ==> found == part)
  {
    hide EncodeAll, Recover;
    RecoversWhole(all, n, z);
    assert all[..|part|] == part;
    WholeAtLeast(all, |part|, n);
  }

  /** Recovery from any allocated server, at any moment, finds a prefix of the accepted records:
      all records of the requests that have landed there, and no torn one. */
  lemma {:induction false} ReplicaRecovers(r: Replica, reqs: seq<seq<Record>>)
    requires RequestsOk(reqs) && ReplicaOk(r, reqs) && IsAllocated(r)
    ensures 0 <= Delivered(r) <= |reqs|
    ensures var found := Recover(r.memory).0;
      && All(reqs[..Delivered(r)]) <= found <= All(reqs)
      && (r.torn == 0 ==> found == All(reqs[..Delivered(r)]))
  {
    hide EncodeAll, ReplicaOk, All, Recover, Bytes;
    LandedPrefix(r, reqs);
    var d, n := Delivered(r), LandedBytes(r, reqs);
    BytesEncodeAll(reqs);
    BytesEncodeAll(reqs[..d]);
    AllPrefix(reqs, d);
    RecoversPart(All(reqs), All(reqs[..d]), n, r.buf.size - n);
  }

  lemma {:induction false} ReplicaOverruns(r: Replica, reqs: seq<seq<Record>>)
    requires RequestsOk(reqs) && ReplicaOk(r, reqs) && IsAllocated(r)
    ensures 0 <= Delivered(r) <= |reqs|
    ensures Recover(r.memory).1 <==> r.buf.size == OverrunLength(All(reqs), LandedBytes(r, reqs))
  {
    hide EncodeAll, ReplicaOk, All, Recover, Bytes, OverrunLength;
    LandedPrefix(r, reqs);
    var n := LandedBytes(r, reqs);
    BytesEncodeAll(reqs);
    RecoversWhole(All(reqs), n, r.buf.size - n);
  }

  lemma {:induction false} OverrunOfAll(records: seq<Record>)
    requires AllEncodable(records)
    ensures OverrunLength(records, |EncodeAll(records)|) == |EncodeAll(records)| + 20
  {
    hide Encode;
    if records != [] {
      OverrunOfAll(records[1..]);
    }
  }

  lemma {:induction false} QuietOverruns(r: Replica, reqs: seq<seq<Record>>)
    requires RequestsOk(reqs) && ReplicaOk(r, reqs) && IsAllocated(r) && r.queue == []
    ensures 0 <= Delivered(r) <= |reqs|
    ensures OverrunLength(All(reqs), LandedBytes(r, reqs)) == r.buf.offset + 20
  {
    WholeLength(reqs);
    BytesEncodeAll(reqs);
    hide EncodeAll, WiresOk, All, OverrunLength;
    OverrunOfAll(All(reqs));
  }

  /** Recovery at any moment of any run: a prefix of the accepted records, and exactly the landed
      requests when no write is torn.  The decoder reads past the end of the buffer if and only if
      the buffer ends where the end marker of the next record is expected; with nothing on the wire
      that is 20 bytes behind the log. */
  lemma {:induction false} RecoveryFindsPrefix(trace: seq<State>, n: nat, i: nat)
    requires Run(trace) && n < |trace| && i < |trace[n].replicas| && IsAllocated(trace[n].replicas[i])
    ensures RequestsOk(trace[n].requests) && 0 <= Delivered(trace[n].replicas[i]) <= |trace[n].requests|
    ensures var r, reqs := trace[n].replicas[i], trace[n].requests;
      var found := Recover(r.memory).0;
      && All(reqs[..Delivered(r)]) <= found <= All(reqs)
      && (r.torn == 0 ==> found == All(reqs[..Delivered(r)]))
      && (Recover(r.memory).1 <==> r.buf.size == OverrunLength(All(reqs), LandedBytes(r, reqs)))
      && (r.queue == [] ==> found == All(reqs) && (Recover(r.memory).1 <==> r.buf.size - r.buf.offset == 20))
  {
    hide ReplicaOk, Recover, All, Next, OverrunLength, Bytes;
    RunInv(trace, n);
    var r, reqs := trace[n].replicas[i], trace[n].requests;
    ReplicaRecovers(r, reqs);
    ReplicaOverruns(r, reqs);
    if r.queue == [] {
      QuietOverruns(r, reqs);
      NothingOnWire(r, reqs);
      assert reqs[..|reqs|] == reqs;
    }
  }

  lemma {:induction false} NothingOnWire(r: Replica, reqs: seq<seq<Record>>)
    requires RequestsOk(reqs) && ReplicaOk(r, reqs) && r.queue == []
    ensures r.torn == 0 && Delivered(r) == |reqs|
  {
    hide Bytes, EncodeAll, IsWrite;
  }

  lemma {:induction false} AllMonotone(reqs: seq<seq<Record>>, a: nat, b: nat)
    requires a <= b <= |reqs|
    ensures All(reqs[..a]) <= All(reqs[..b])
  {
    AllPrefix(reqs[..b], a);
    assert reqs[..b][..a] == reqs[..a];
  }

  /** Once a request is reported complete, every server has its records and those of all earlier
      requests, and recovery from any one of them returns them. */
  lemma {:induction false} CompletedIsRecoverable(trace: seq<State>, n: nat, j: nat, i: nat)
    requires Run(trace) && n < |trace| && Completed(trace[n], j) && i < |trace[n].replicas|
    ensures j < |trace[n].requests| && IsAllocated(trace[n].replicas[i])
    ensures All(trace[n].requests[..j + 1]) <= Recover(trace[n].replicas[i].memory).0 <= All(trace[n].requests)
  {
    hide Recover, All, WiresOk, MemoryOk, Next;
    RunInv(trace, n);
    var r, reqs := trace[n].replicas[i], trace[n].requests;
    assert ReplicaOk(r, reqs);
    SuccessMeansDelivered(r, reqs, j);
    ReplicaRecovers(r, reqs);
    AllMonotone(reqs, j + 1, Delivered(r));
  }

  // ---------- the code ----------

  class LogWriter {
    /** Per server. */
    var bufs: seq<Buf>

    constructor (servers: nat)
      ensures bufs == seq(servers, _ => Buf(0, 0, 0, false))
    {
      bufs := seq(servers, _ => Buf(0, 0, 0, false));
    }

    method SomeBufInitializing() returns (yes: bool)
      ensures yes <==> exists i :: 0 <= i < |bufs| && bufs[i].initializing
    {
      for i := 0 to |bufs|
        invariant forall k :: 0 <= k < i ==> !bufs[k].initializing
      {
        if bufs[i].initializing {
          return true;
        }
      }
      return false;
    }

    ghost predicate Busy()
      reads this
    {
      exists i :: 0 <= i < |bufs| && bufs[i].initializing
    }

    ghost predicate Fits(bytes: seq<byte>)
      reads this
    {
      forall i :: 0 <= i < |bufs| && bufs[i].base != 0 ==> bufs[i].offset + |bytes| <= bufs[i].size
    }

    /** Running out of buffer fails an assert; write i gets the work request id `wr + i`. */
    method AddRecord(records: seq<Record>, req: nat, wr: nat)
      returns (ok: bool, failed: bool, results: seq<Result>, posted: seq<seq<Write>>)
      requires AllEncodable(records)
      modifies this
      ensures ok <==> !old(Busy()) && old(Fits(EncodeAll(records)))
      ensures failed <==> !old(Busy()) && !old(Fits(EncodeAll(records)))
      ensures !ok && !failed ==> bufs == old(bufs)
      ensures ok ==> |bufs| == |old(bufs)| == |results| == |posted|
      ensures ok ==> forall i :: 0 <= i < |bufs| ==>
        Sent(bufs[i], results[i], posted[i]) == Send(old(bufs)[i], req, wr + i, EncodeAll(records))
    {
      hide EncodeAll;
      ok, failed, results, posted := false, false, [], [];
      var busy := SomeBufInitializing();
      if busy {
        return;
      }
      var bytes := EncodeAll(records);
      for i := 0 to |bufs|
        invariant |bufs| == |old(bufs)| && |results| == |posted| == i && !failed
        invariant forall k :: 0 <= k < i && old(bufs)[k].base != 0 ==>
          old(bufs)[k].offset + |bytes| <= old(bufs)[k].size
        invariant forall k :: 0 <= k < i ==>
          Sent(bufs[k], results[k], posted[k]) == Send(old(bufs)[k], req, wr + k, bytes)
        invariant forall k :: i <= k < |bufs| ==> bufs[k] == old(bufs)[k]
      {
        var buf := bufs[i];
        if buf.base == 0 {
          bufs := bufs[i := buf.(initializing := true)];
          results, posted := results + [WaitForAlloc], posted + [[]];
        } else {
          if buf.offset + |bytes| > buf.size {
            failed := true;
            return;
          }
          posted := posted + [[Write(req, wr + i, buf.base + buf.offset, bytes)]];
          bufs := bufs[i := buf.(offset := buf.offset + |bytes|)];
          results := results + [WaitForWrite(wr + i)];
        }
      }
      ok := true;
    }

    method AckAllocLogBuf(i: nat, base: nat, size: nat, req: nat, wr: nat, bytes: seq<byte>)
      returns (result: Result, posted: seq<Write>)
      requires i < |bufs|
      modifies this
      ensures |bufs| == |old(bufs)| && bufs == old(bufs)[i := bufs[i]]
      ensures Sent(bufs[i], result, posted) == SendFirst(req, wr, bytes, base, size)
    {
      result := AllocSuccess;
      bufs := bufs[i := Buf(base, 0, size, false)];
      posted := [Write(req, wr, bufs[i].base + bufs[i].offset, bytes)];
      bufs := bufs[i := bufs[i].(offset := bufs[i].offset + |bytes|)];
      result := WaitForWrite(wr);
    }
  }

  method AckWriteSuccess(results: array<Result>, i: nat, wr: nat) returns (ok: bool)
    requires i < results.Length
    modifies results
    ensures ok <==> old(results[i]) == WaitForWrite(wr)
    ensures results[..] == if ok then old(results[..])[i := WriteSuccess] else old(results[..])
  {
    ok := results[i] == WaitForWrite(wr);
    if ok {
      results[i] := WriteSuccess;
    }
  }

  /** A request is complete when the number of acknowledgements reaches the number of servers. */
  method CheckCompletion(results: array<Result>) returns (complete: bool)
    requires forall i :: 0 <= i < results.Length ==> !results[i].Unsent?
    ensures complete <==> forall i :: 0 <= i < results.Length ==> results[i] == WriteSuccess
  {
    var acks, total := 0, 0;
    for i := 0 to results.Length
      invariant total == i && 0 <= acks <= i
      invariant acks == i <==> forall k :: 0 <= k < i ==> results[k] == WriteSuccess
    {
      match results[i] {
        case WriteSuccess =>
          total, acks := total + 1, acks + 1;
        case _ =>
          total := total + 1;
      }
    }
    complete := acks == results.Length;
  }
}
