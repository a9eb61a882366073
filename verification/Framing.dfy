/**
 * The writer of one process and the reader of the other, with the bytes in flight
 * between them: every split of the stream by sends and every other split by receives
 * delivers the queued messages, in order and unchanged.
 */
module Framing {
  import opened Bytes
  import opened Signatures
  import opened Wire
  import opened Headers
  import opened Writers
  import opened Readers

  function Delivered(completed: seq<Completed>): (r: seq<Packet>)
    ensures |r| == |completed|
  {
    seq(|completed|, i requires 0 <= i < |completed| => completed[i].packet)
  }

  /** The stream of the first `q` messages leaves no part of a message over. */
  lemma WholeStream(sent: seq<Packet>, q: nat, n: nat, part: seq<Byte>)
    requires AllWellFormed(sent) && q <= |sent| && AllWellFormed(sent[..q])
    requires Cut(sent, EncodeQueue(sent[..q]), n, part)
    ensures n == q && part == []
  {
    hide WellFormed, EncodeQueue;
    assert q < |sent| ==> sent[q] in sent;
    assert EncodeQueue(sent[..q]) + [] == EncodeQueue(sent[..q]);
    assert Cut(sent, EncodeQueue(sent[..q]), q, []);
    CutIsUnique(sent, EncodeQueue(sent[..q]), n, part, q, []);
  }

  /** Two readers that got the same bytes in different pieces have handed on the same messages
      and hold the same part of the next. */
  lemma ChunksDoNotMatter(sent: seq<Packet>, a: Reader, b: Reader)
    requires a.Ok(sent) && b.Ok(sent) && a.received == b.received
    ensures Delivered(a.completed) == Delivered(b.completed) == sent[..|a.completed|]
    ensures Part(a.inHBuf[..], a.inHRead, a.inMsg, a.inBody[..], a.inBRead)
         == Part(b.inHBuf[..], b.inHRead, b.inMsg, b.inBody[..], b.inBRead)
    ensures a.inHRead == b.inHRead && a.inBRead == b.inBRead && a.inMsg == b.inMsg
  {
    var pa := Part(a.inHBuf[..], a.inHRead, a.inMsg, a.inBody[..], a.inBRead);
    var pb := Part(b.inHBuf[..], b.inHRead, b.inMsg, b.inBody[..], b.inBRead);
    CutIsUnique(sent, a.received, |a.completed|, pa, |b.completed|, pb);
    DeliveredIsSent(sent, a.completed);
    DeliveredIsSent(sent, b.completed);
  }

  lemma DeliveredIsSent(sent: seq<Packet>, completed: seq<Completed>)
    requires AllRecorded(sent, completed)
    ensures Delivered(completed) == sent[..|completed|]
  {
    forall i | 0 <= i < |completed|
      ensures completed[i].packet == sent[i]
    {
      assert Recorded(sent, i, completed[i]);
    }
  }

  lemma QueueIsWellFormed(queue: seq<Outgoing>)
    requires AllSendable(queue)
    ensures AllWellFormed(Packets(queue))
  {
    forall p | p in Packets(queue)
      ensures WellFormed(p)
    {
      var i :| 0 <= i < |queue| && Packets(queue)[i] == p;
      assert queue[i] in queue;
      SendableIsWellFormed(queue[i]);
    }
  }

  /** `gone` messages of the queue are written whole and removed, the others wait, and no byte is missing. */
  ghost predicate Sending(w: Writer, queue: seq<Outgoing>, gone: nat)
    reads w
  {
    && w.Ok() && w.missing == 0 && gone <= |queue|
    && w.outgoing == queue[gone..] && w.removed == Packets(queue[..gone])
  }

  /** What was written is the beginning of the stream of the whole queue, and all of it when none waits. */
  lemma WrittenIsPrefix(w: Writer, queue: seq<Outgoing>, gone: nat)
    requires AllSendable(queue) && Sending(w, queue, gone) && AllWellFormed(Packets(queue))
    ensures w.written <= EncodeQueue(Packets(queue))
    ensures gone == |queue| ==> w.written == EncodeQueue(Packets(queue))
  {
    hide AllSendable, Sendable, WellFormed, Encode, EncodeQueue, AllWellFormed;
    var sent := Packets(queue);
    assert sent[..gone] == Packets(queue[..gone]);
    if gone < |queue| {
      QueueAt(sent, gone);
      assert queue[gone..][0] == queue[gone] && sent[gone] == ToPacket(queue[gone]);
      assert w.HeadSent() <= Encode(sent[gone]);
      PieceOfQueue(EncodeQueue(sent[..gone]), w.HeadSent(), Encode(sent[gone]), EncodeQueue(sent[gone + 1..]));
    } else {
      assert sent[..gone] == sent;
    }
  }

  lemma PieceOfQueue(front: seq<Byte>, part: seq<Byte>, whole: seq<Byte>, rest: seq<Byte>)
    requires part <= whole
    ensures front + part <= front + (whole + rest)
  {
  }

  lemma WaitingNext(queue: seq<Outgoing>, gone: nat)
    requires gone < |queue|
    ensures queue[gone..] != [] && queue[gone..][0] == queue[gone] && queue[gone..][1..] == queue[gone + 1..]
    ensures Packets(queue[..gone + 1]) == Packets(queue[..gone]) + [ToPacket(queue[gone])]
    ensures ToPacket(queue[gone]).body == [] <==> queue[gone].body == []
  {
    hide Ceilg;
    CeilingOfBody(|queue[gone].body|);
    assert queue[..gone + 1] == queue[..gone] + [queue[gone]];
  }

  /** The bytes on the way: sent by the one and not yet received by the other. */
  lemma OnTheWay(received: seq<Byte>, wire: seq<Byte>, k: nat, whole: seq<Byte>)
    requires k <= |wire| && received + wire <= whole
    ensures received + wire[..k] <= whole && received + wire[..k] + wire[k..] == received + wire
  {
    assert wire == wire[..k] + wire[k..];
    assert received + wire[..k] == (received + wire)[..|received| + k];
  }

  /** The stream of the messages queued so far is the beginning of that of all. */
  lemma StreamGrows(queue: seq<Outgoing>, q: nat)
    requires AllSendable(queue) && q <= |queue|
    ensures AllSendable(queue[..q]) && AllWellFormed(Packets(queue)) && AllWellFormed(Packets(queue[..q]))
    ensures Packets(queue[..q]) == Packets(queue)[..q]
    ensures EncodeQueue(Packets(queue[..q])) <= EncodeQueue(Packets(queue))
  {
    hide Sendable, EncodeQueue;
    QueueIsWellFormed(queue);
    assert forall m :: m in queue[..q] ==> m in queue;
    PacketsPrefix(queue, q);
    hide Packets, AllSendable;
    PrefixGrows(Packets(queue), q);
  }

  lemma PacketsPrefix(queue: seq<Outgoing>, q: nat)
    requires q <= |queue|
    ensures Packets(queue[..q]) == Packets(queue)[..q]
  {
  }

  lemma PrefixGrows(sent: seq<Packet>, q: nat)
    requires AllWellFormed(sent) && q <= |sent|
    ensures AllWellFormed(sent[..q]) && EncodeQueue(sent[..q]) <= EncodeQueue(sent)
  {
    hide WellFormed, EncodeQueue;
    var front, rest := sent[..q], sent[q..];
    assert forall p :: p in rest ==> p in sent;
    assert forall p :: p in front ==> p in sent;
    assert sent == front + rest;
    QueueConcat(front, rest);
  }

  lemma Arrived(r: Reader, w: Writer, queue: seq<Outgoing>, q: nat, gone: nat, wire: seq<Byte>)
    requires AllSendable(queue) && AllWellFormed(Packets(queue)) && r.Ok(Packets(queue))
    requires q <= |queue| && Sending(w, queue[..q], gone) && w.written == r.received + wire
    ensures AllRecorded(Packets(queue), r.completed)
    ensures Delivered(r.completed) == Packets(queue)[..|r.completed|]
    ensures w.outgoing == [] && wire == [] ==> |r.completed| == q
  {
    hide AllSendable, Sendable, Recorded, Accounted, EncodeQueue, WellFormed, Inside, Encode, Cut, AllWellFormed;
    var sent := Packets(queue);
    TracksShape(sent, r.received, r.completed, r.inHBuf[..], r.inHRead, r.inMsg, r.inBody[..], r.inBRead);
    DeliveredIsSent(sent, r.completed);
    StreamGrows(queue, q);
    if w.outgoing == [] && wire == [] {
      WrittenIsPrefix(w, queue[..q], gone);
      assert r.received == w.written;
      WholeStream(sent, q, |r.completed|, Part(r.inHBuf[..], r.inHRead, r.inMsg, r.inBody[..], r.inBRead));
    }
  }

  /** A message is added to the queue, whatever is on the way. */
  method QueueOne(w: Writer, queue: seq<Outgoing>, q: nat, ghost gone: nat)
    requires AllSendable(queue) && q < |queue| && Sending(w, queue[..q], gone)
    modifies w`outgoing
    ensures Sending(w, queue[..q + 1], gone) && w.written == old(w.written)
  {
    QueuedOneMore(queue, q, gone);
    hide Sendable, AllSendable, Packets, Accounted, EncodeQueue, WellFormed, Encode, AllWellFormed, Inside;
    w.Queue(queue[q]);
  }

  lemma QueuedOneMore(queue: seq<Outgoing>, q: nat, gone: nat)
    requires AllSendable(queue) && gone <= q < |queue|
    ensures Sendable(queue[q]) && queue[..q + 1][..gone] == queue[..q][..gone]
    ensures queue[..q + 1][gone..] == queue[..q][gone..] + [queue[q]]
  {
    hide Sendable;
    assert queue[q] in queue;
  }

  /** The socket can take `k` bytes, and the header of a message without body only as a whole. */
  ghost predicate Takes(w: Writer, k: int)
    requires w.Ok()
    reads w
  {
    w.outgoing != [] && 0 < k <= w.Left() && (w.outgoing[0].body != [] || k == w.Left())
  }

  /** One call of sendmsg that takes `k` bytes, or none if the socket does not take that many. */
  method Send(w: Writer, k: int, ghost queue: seq<Outgoing>, ghost gone: nat)
    returns (data: seq<Byte>, ghost gone': nat)
    requires Sending(w, queue, gone)
    modifies w
    ensures Sending(w, queue, gone') && w.written == old(w.written) + data
    ensures |data| == if old(Takes(w, k)) then k else 0
  {
    hide AllSendable, Sendable, Packets, Accounted, EncodeQueue, WellFormed, Encode, AllWellFormed;
    data, gone' := [], gone;
    if |w.outgoing| > 0 {
      WaitingNext(queue, gone);
      var left := w.Remaining();
      if 0 < k <= left && (|w.outgoing[0].body| > 0 || k == left) {
        data := w.Sent(k);
        if |w.outgoing| < |queue| - gone {
          gone' := gone + 1;
        }
      }
    }
  }

  /** A receive can get `k` of the bytes on the way, and the header of a message without body only as a whole. */
  ghost predicate Gets(r: Reader, k: int, wire: seq<Byte>, sent: seq<Packet>)
    requires r.Ok(sent)
    reads r, r.inHBuf, r.inBody
  {
    var (len0, len1, len2) := r.Lengths(sent);
    0 < k <= |wire| && k <= len0 + len1 + len2 && (r.inMsg.Some? && r.inMsg.value.size == 0 ==> len0 <= k)
  }

  /** One call of recvmsg that gets `k` of the bytes on the way, or none if there are not that many. */
  method Receive(r: Reader, k: int, wire: seq<Byte>, ghost sent: seq<Packet>) returns (rest: seq<Byte>)
    requires r.Ok(sent) && AllWellFormed(sent) && r.received + wire <= EncodeQueue(sent)
    modifies r, r.inHBuf, r.inBody
    ensures r.Ok(sent) && r.received + rest == old(r.received) + wire
    ensures |rest| == |wire| - if old(Gets(r, k, wire, sent)) then k else 0
    ensures r.inBody == old(r.inBody) || fresh(r.inBody)
  {
    hide Tracks, AllWellFormed, EncodeQueue;
    var len0, len1, len2 := r.Offer(sent);
    var cut := r.inMsg.Some? && r.inMsg.value.size == 0 && k < len0;
    rest := wire;
    if 0 < k <= |wire| && k <= len0 + len1 + len2 && !cut {
      OnTheWay(r.received, wire, k, EncodeQueue(sent));
      r.Receive(wire[..k], sent);
      rest := wire[k..];
    }
  }

  /** Messages are queued one by one, with any number of sends and receives between, in any order and of any
      sizes, except that the header of a message without body is not cut. */
  method Exchange(w: Writer, r: Reader, queue: seq<Outgoing>, steps: nat)
    returns (wire: seq<Byte>, queued: nat, ghost gone: nat)
    requires AllSendable(queue) && AllWellFormed(Packets(queue)) && r.Ok(Packets(queue)) && Sending(w, queue[..0], 0)
    requires w.written == r.received == []
    modifies w, r, r.inHBuf, r.inBody
    ensures queued <= |queue| && r.Ok(Packets(queue)) && Sending(w, queue[..queued], gone)
    ensures w.written == r.received + wire && (r.inBody == old(r.inBody) || fresh(r.inBody))
  {
    hide AllSendable, Packets, Tracks, Sending, Recorded, EncodeQueue, AllWellFormed, Takes, Gets;
    ghost var sent := Packets(queue);
    queued, gone, wire := 0, 0, [];
    var n := steps;
    while n > 0
      invariant queued <= |queue| && r.Ok(sent) && Sending(w, queue[..queued], gone) && w.written == r.received + wire
      invariant r.inBody == old(r.inBody) || fresh(r.inBody)
    {
      n := n - 1;
      StreamGrows(queue, queued);
      WrittenIsPrefix(w, queue[..queued], gone);
      var step: int, k: int := *, *;
      if step == 0 {
        wire := Receive(r, k, wire, sent);
      } else if step == 1 {
        var data;
        data, gone := Send(w, k, queue[..queued], gone);
        wire := wire + data;
      } else if queued < |queue| {
        QueueOne(w, queue, queued, gone);
        queued := queued + 1;
      }
    }
  }

  /** At any time in such an exchange the reader has handed on the first messages of the queue, and all that were
      queued when nothing is left to send or receive. */
  method Transfer(queue: seq<Outgoing>, steps: nat) returns (r: Reader, queued: nat, drained: bool)
    requires AllSendable(queue)
    ensures |r.completed| <= |queue| && Delivered(r.completed) == Packets(queue)[..|r.completed|]
    ensures forall i :: 0 <= i < |r.completed| ==> Recorded(Packets(queue), i, r.completed[i])
    ensures queued <= |queue| && (drained ==> |r.completed| == queued)
  {
    hide AllSendable, Packets, Tracks, Sending, Recorded, EncodeQueue, AllWellFormed;
    QueueIsWellFormed(queue);
    var w := new Writer();
    r := new Reader();
    NothingSent(w, queue);
    var wire;
    ghost var gone;
    wire, queued, gone := Exchange(w, r, queue, steps);
    drained := |w.outgoing| == 0 && |wire| == 0;
    Arrived(r, w, queue, queued, gone, wire);
  }

  // -------------------------------------------------------------------- to the end

  /** Sends what is left, in pieces of any sizes that the socket takes. */
  method SendAll(w: Writer, queue: seq<Outgoing>, ghost gone: nat) returns (data: seq<Byte>)
    requires AllSendable(queue) && Sending(w, queue, gone)
    modifies w
    ensures Sending(w, queue, |queue|) && w.outgoing == [] && w.written == old(w.written) + data
  {
    hide Packets, Accounted, EncodeQueue, WellFormed, Encode, AllWellFormed, Sendable, AllSendable, Inside;
    QueueIsWellFormed(queue);
    data := [];
    ghost var g, whole := gone, EncodeQueue(Packets(queue));
    WrittenIsPrefix(w, queue, g);
    while |w.outgoing| > 0
      invariant Sending(w, queue, g) && w.written == old(w.written) + data && w.written <= whole
      decreases |whole| - |w.written|
    {
      var k: int := *;
      var left := w.Remaining();
      if k <= 0 || k > left || |w.outgoing[0].body| == 0 {
        k := left;
      }
      assert Takes(w, k);
      var piece;
      piece, g := Send(w, k, queue, g);
      data := data + piece;
      WrittenIsPrefix(w, queue, g);
    }
  }

  /** When everything was sent, the rest of the message in progress is on the way. */
  lemma RestIsThere(r: Reader, wire: seq<Byte>, sent: seq<Packet>)
    requires AllWellFormed(sent) && r.Ok(sent) && r.received + wire == EncodeQueue(sent)
    ensures r.Lengths(sent).0 + r.Lengths(sent).1 <= |wire|
  {
    hide EncodeQueue, WellFormed, AllWellFormed, Recorded;
    TracksShape(sent, r.received, r.completed, r.inHBuf[..], r.inHRead, r.inMsg, r.inBody[..], r.inBRead);
    if r.inMsg.Some? {
      var n := |r.completed|;
      QueueAt(sent, n);
      var part := Part(r.inHBuf[..], r.inHRead, r.inMsg, r.inBody[..], r.inBRead);
      assert r.received == EncodeQueue(sent[..n]) + part && |part| == r.inHRead + r.inBRead;
    }
  }

  /** Receives what is on the way, in pieces of any sizes. */
  method ReceiveAll(r: Reader, wire: seq<Byte>, ghost sent: seq<Packet>)
    requires r.Ok(sent) && AllWellFormed(sent) && r.received + wire == EncodeQueue(sent)
    modifies r, r.inHBuf, r.inBody
    ensures r.Ok(sent) && r.received == EncodeQueue(sent)
  {
    hide Tracks, AllWellFormed, EncodeQueue;
    var rest := wire;
    while |rest| > 0
      invariant r.Ok(sent) && r.received + rest == EncodeQueue(sent)
      invariant r.inBody == old(r.inBody) || fresh(r.inBody)
      decreases |rest|
    {
      RestIsThere(r, rest, sent);
      var len0, len1, len2 := r.Offer(sent);
      var all := len0 + len1 + len2;
      var k: int := *;
      if k <= 0 || k > |rest| || k > all || k < len0 {
        k := if |rest| < all then |rest| else all;
      }
      assert Gets(r, k, rest, sent);
      rest := Receive(r, k, rest, sent);
    }
    assert r.received + [] == r.received;
  }

  /** An exchange that goes on to its end, in pieces of any sizes, delivers every message, in order and unchanged. */
  method TransferAll(queue: seq<Outgoing>, steps: nat) returns (r: Reader)
    requires AllSendable(queue)
    ensures Delivered(r.completed) == Packets(queue)
    ensures forall i :: 0 <= i < |queue| ==> Recorded(Packets(queue), i, r.completed[i])
  {
    hide AllSendable, Packets, Tracks, Sending, Recorded, EncodeQueue, AllWellFormed;
    ghost var sent := Packets(queue);
    QueueIsWellFormed(queue);
    var w := new Writer();
    r := new Reader();
    NothingSent(w, queue);
    var wire, queued;
    ghost var gone;
    wire, queued, gone := Exchange(w, r, queue, steps);
    while queued < |queue|
      invariant queued <= |queue| && Sending(w, queue[..queued], gone) && w.written == r.received + wire && r.Ok(sent)
      invariant fresh(w) && fresh(r) && fresh(r.inHBuf) && fresh(r.inBody)
    {
      QueueOne(w, queue, queued, gone);
      queued := queued + 1;
    }
    assert queue[..|queue|] == queue;
    var data := SendAll(w, queue, gone);
    wire := wire + data;
    WrittenIsPrefix(w, queue, |queue|);
    ReceiveAll(r, wire, sent);
    assert sent[..|queue|] == sent && r.received + [] == r.received;
    Arrived(r, w, queue, |queue|, |queue|, []);
  }

  lemma NothingSent(w: Writer, queue: seq<Outgoing>)
    requires w.Ok() && w.outgoing == [] && w.removed == [] && w.written == [] && w.missing == 0
    ensures Sending(w, queue[..0], 0)
  {
    hide Sendable, WellFormed, Encode, EncodeQueue, Accounted, Inside;
    assert queue[..0] == [];
  }
}
