/**
 * The sending half of a connection, `Extern_writing` of xcom.c: each call of
 * sendmsg may take any part of the header and body it is offered.
 */
module Writers {
  import opened Bytes
  import opened Wire
  import opened Headers

  function Packets(ms: seq<Outgoing>): (r: seq<Packet>)
    ensures |r| == |ms|
  {
    seq(|ms|, i requires 0 <= i < |ms| => ToPacket(ms[i]))
  }

  predicate AllSendable(ms: seq<Outgoing>) {
    forall m :: m in ms ==> Sendable(m)
  }

  type Count = n: nat | n > 0 witness 1

  /** What sendmsg answers: it took so many bytes, or all it was given if those were fewer; or none, for one of
      three reasons. */
  datatype Answer = Took(n: Count) | Interrupted | WouldBlock | Closed

  function Transfers(answers: seq<Answer>): nat {
    if answers == [] then 0 else (if answers[0].Took? then 1 else 0) + Transfers(answers[1..])
  }

  lemma {:induction false} TransfersNext(answers: seq<Answer>, k: nat)
    requires k <= |answers|
    ensures k == 0 ==> Transfers(answers[..k]) == 0
    ensures k < |answers| ==> Transfers(answers[..k + 1]) == Transfers(answers[..k]) + if answers[k].Took? then 1 else 0
    decreases k
  {
    if 0 < k < |answers| {
      TransfersNext(answers[1..], k - 1);
      assert answers[..k + 1][1..] == answers[1..][..k] && answers[..k][1..] == answers[1..][..k - 1];
    } else if k < |answers| {
      assert answers[..1][1..] == [];
    }
  }

  class Writer {
    var outgoing: seq<Outgoing>
    var outHWritten: nat
    var outBWritten: nat

    /** The messages taken from the queue, the bytes given to the socket, and how many
        header bytes of removed messages were never given to it. */
    ghost var removed: seq<Packet>
    ghost var written: seq<Byte>
    ghost var missing: nat

    constructor ()
      ensures Ok() && outgoing == [] && removed == [] && written == [] && missing == 0
    {
      outgoing, outHWritten, outBWritten := [], 0, 0;
      removed, written, missing := [], [], 0;
    }

    ghost predicate Ok()
      reads this
    {
      && AllSendable(outgoing) && AllWellFormed(removed)
      && (outgoing == [] ==> outHWritten == outBWritten == 0)
      && (outgoing != [] ==> Inside(ToPacket(outgoing[0]), outHWritten, outBWritten))
      && Accounted(EncodeQueue(removed), HeadSent(), written, missing)
    }

    /** The bytes of the first message that were sent. */
    ghost function HeadSent(): seq<Byte>
      requires outgoing != [] ==> Inside(ToPacket(outgoing[0]), outHWritten, outBWritten)
      reads this
    {
      if outgoing == [] then [] else Encode(ToPacket(outgoing[0]))[..outHWritten + outBWritten]
    }

    /** The socket got the messages that left the queue, whole and in order, and the first
        `outHWritten + outBWritten` bytes of the next. */
    ghost predicate Faithful()
      requires Ok()
      reads this
    {
      written == EncodeQueue(removed) + HeadSent()
    }

    /** The stream is faithful exactly when no header byte is missing. */
    lemma FaithfulIffNothingMissing()
      requires Ok()
      ensures Faithful() <==> missing == 0
    {
    }

    method Queue(m: Outgoing)
      requires Ok() && Sendable(m)
      modifies this`outgoing
      ensures Ok() && outgoing == old(outgoing) + [m]
    {
      SendableIsWellFormed(m);
      outgoing := outgoing + [m];
      assert old(outgoing) != [] ==> outgoing[0] == old(outgoing)[0];
    }

    /** One call of sendmsg that takes `bw` bytes, and the accounting after it. Header bytes go
        missing exactly when a message without body is cut in its header. */
    method Sent(bw: nat) returns (data: seq<Byte>)
      requires Ok() && outgoing != []
      requires 1 <= bw <= HeaderSize(ToPacket(outgoing[0])) + |ToPacket(outgoing[0]).body| - outHWritten - outBWritten
      modifies this
      ensures Ok() && |data| == bw && written == old(written) + data
      ensures missing == old(missing) + old(CutShort(ToPacket(outgoing[0]), outHWritten, bw))
      ensures var p := ToPacket(old(outgoing)[0]);
              if old(outHWritten + outBWritten) + bw == HeaderSize(p) + |p.body| || p.body == [] then
                outgoing == old(outgoing)[1..] && removed == old(removed) + [p]
              else
                outgoing == old(outgoing) && removed == old(removed)
                && outHWritten + outBWritten == old(outHWritten + outBWritten) + bw
    {
      hide WellFormed, Sendable, AllSendable, AllWellFormed, EncodeQueue, ToPacket, Accounted, Encode;
      NextIsInside(outgoing);
      ghost var p, pos := ToPacket(outgoing[0]), outHWritten + outBWritten;
      var iov0, iov1, sz := Gather(outgoing[0], outHWritten, outBWritten);
      AccountSend(EncodeQueue(removed), Encode(p), pos, bw, written, missing);
      AccountCut(EncodeQueue(removed), Encode(p), pos, bw, written, missing);
      data := (iov0 + iov1)[..bw];
      written := written + data;
      var hbw := bw;
      if hbw > |iov0| {
        hbw := |iov0|;
      }
      outHWritten := outHWritten + hbw;
      outBWritten := outBWritten + (bw - hbw);
      if outBWritten >= sz {
        missing := missing + (HeaderSize(p) - outHWritten);
        RemovedOne(removed, p);
        removed := removed + [p];
        outHWritten := 0;
        outBWritten := 0;
        outgoing := outgoing[1..];
      }
    }

    /** Marshals the header and lists what is left to send of header and body. */
    method Gather(msg: Outgoing, h: nat, b: nat) returns (iov0: seq<Byte>, iov1: seq<Byte>, sz: nat)
      requires Sendable(msg) && Inside(ToPacket(msg), h, b)
      ensures sz == |ToPacket(msg).body| && |iov0| == HeaderSize(ToPacket(msg)) - h && |iov1| == sz - b
      ensures iov0 + iov1 == Encode(ToPacket(msg))[h + b..]
    {
      var hbuf, hsz := MarshalHeader(msg);
      var body := Padded(msg.body, 8);
      sz := |body|;
      iov0, iov1 := [], [];
      if hsz > h {
        iov0 := hbuf[h..hsz];
      }
      if sz > b {
        iov1 := body[b..];
      }
      Offered(ToPacket(msg), hbuf[..hsz], h, b, iov0, iov1);
    }

    /** Writes until the queue is empty, or the socket would block or is closed; returns whether to wait for it. Every
        transfer moves at least one byte, and what leaves the queue leaves it in order. */
    method Writing(answers: seq<Answer>) returns (more: bool, used: nat)
      requires Ok()
      modifies this
      ensures Ok() && used <= |answers|
      ensures |outgoing| <= |old(outgoing)| && outgoing == old(outgoing)[|old(outgoing)| - |outgoing|..]
      ensures removed == old(removed) + Packets(old(outgoing)[..|old(outgoing)| - |outgoing|])
      ensures old(written) <= written && missing >= old(missing)
      ensures |written| >= |old(written)| + Transfers(answers[..used])
      ensures outgoing == [] || used == |answers| ||
              (used > 0 && (answers[used - 1].WouldBlock? || answers[used - 1].Closed?))
      ensures more <==> outgoing != [] && !(used > 0 && answers[used - 1].Closed?)
      ensures forall i :: 0 <= i < used - 1 ==> !answers[i].WouldBlock? && !answers[i].Closed?
    {
      hide WellFormed, Sendable, AllSendable, AllWellFormed, EncodeQueue, ToPacket, Accounted, Encode, Packets, Inside,
        Transfers;
      ghost var start, gone := outgoing, 0;
      PacketsTake(start, 0);
      TransfersNext(answers, 0);
      used := 0;
      while |outgoing| > 0
        invariant Ok() && gone <= |start| && outgoing == start[gone..] && used <= |answers|
        invariant removed == old(removed) + Packets(start[..gone])
        invariant old(written) <= written && missing >= old(missing)
        invariant |written| >= |old(written)| + Transfers(answers[..used])
        invariant forall i :: 0 <= i < used ==> !answers[i].WouldBlock? && !answers[i].Closed?
        decreases |answers| - used
      {
        if used == |answers| {
          return true, used;
        }
        TransfersNext(answers, used);
        var answer := answers[used];
        used := used + 1;
        if answer.Closed? {
          return false, used;
        }
        if answer.WouldBlock? {
          return true, used;
        }
        if answer.Took? {
          var left := Remaining();
          ghost var queue := outgoing;
          var data := Sent(if answer.n > left then left else answer.n);
          if |outgoing| < |queue| {
            PacketsTake(start, gone);
            gone := gone + 1;
          }
        }
      }
      return false, used;
    }

    ghost function Left(): nat
      requires Ok()
      reads this
    {
      if outgoing == [] then 0
      else HeaderSize(ToPacket(outgoing[0])) + |ToPacket(outgoing[0]).body| - outHWritten - outBWritten
    }

    method Remaining() returns (n: nat)
      requires Ok() && outgoing != []
      ensures n == Left() && n > 0
    {
      var p := ToPacket(outgoing[0]);
      n := HeaderSize(p) + |p.body| - outHWritten - outBWritten;
    }
  }

  /** A place strictly inside the message: the body begins when the header is sent. */
  predicate Inside(p: Packet, h: nat, b: nat) {
    && WellFormed(p) && h <= HeaderSize(p) && b <= |p.body| && h + b < HeaderSize(p) + |p.body|
    && (b > 0 ==> h == HeaderSize(p))
  }

  /** Header bytes that are lost when a send of `bw` bytes ends inside the header of a message without body. */
  function CutShort(p: Packet, h: nat, bw: nat): nat {
    if p.body == [] && h + bw < HeaderSize(p) then HeaderSize(p) - h - bw else 0
  }

  /** `written` is `whole` and then `part`, unless bytes are missing from it. */
  ghost predicate Accounted(whole: seq<Byte>, part: seq<Byte>, written: seq<Byte>, missing: nat) {
    && |written| + missing == |whole| + |part|
    && (missing == 0 ==> written == whole + part)
  }

  lemma AccountSend(whole: seq<Byte>, head: seq<Byte>, pos: nat, bw: nat, written: seq<Byte>, missing: nat)
    requires pos + bw <= |head| && Accounted(whole, head[..pos], written, missing)
    ensures Accounted(whole, head[..pos + bw], written + head[pos..][..bw], missing)
  {
    assert head[..pos + bw] == head[..pos] + head[pos..][..bw];
    assert whole + head[..pos] + head[pos..][..bw] == whole + head[..pos + bw];
  }

  /** The message leaves the queue after `bw` more bytes; those behind them are never sent. */
  lemma AccountCut(whole: seq<Byte>, head: seq<Byte>, pos: nat, bw: nat, written: seq<Byte>, missing: nat)
    requires pos + bw <= |head| && Accounted(whole, head[..pos], written, missing)
    ensures Accounted(whole + head, [], written + head[pos..][..bw], missing + (|head| - pos - bw))
  {
    AccountSend(whole, head, pos, bw, written, missing);
    assert pos + bw == |head| ==> head[..pos + bw] == head;
  }

  lemma Offered(p: Packet, header: seq<Byte>, h: nat, b: nat, iov0: seq<Byte>, iov1: seq<Byte>)
    requires Inside(p, h, b) && header == Header(p)
    requires iov0 == if |header| > h then header[h..] else []
    requires iov1 == if |p.body| > b then p.body[b..] else []
    ensures iov0 + iov1 == Encode(p)[h + b..]
  {
  }

  lemma RemovedOne(ps: seq<Packet>, p: Packet)
    requires AllWellFormed(ps) && WellFormed(p)
    ensures AllWellFormed(ps + [p]) && EncodeQueue(ps + [p]) == EncodeQueue(ps) + Encode(p)
  {
    hide WellFormed;
    assert AllWellFormed([p]) && [p][1..] == [];
    QueueConcat(ps, [p]);
    assert EncodeQueue([p]) == Encode(p);
  }

  lemma PacketsTake(ms: seq<Outgoing>, n: nat)
    requires n <= |ms|
    ensures n == 0 ==> Packets(ms[..n]) == [] && ms[n..] == ms
    ensures n < |ms| ==> Packets(ms[..n + 1]) == Packets(ms[..n]) + [ToPacket(ms[n])] && ms[n..][1..] == ms[n + 1..]
    ensures n < |ms| ==> ms[n..][0] == ms[n]
  {
  }

  /** The message behind the first is not begun. */
  lemma NextIsInside(ms: seq<Outgoing>)
    requires AllSendable(ms) && ms != []
    ensures Sendable(ms[0]) && AllSendable(ms[1..])
    ensures ms[1..] != [] ==> Inside(ToPacket(ms[1..][0]), 0, 0)
  {
    assert ms[0] in ms;
    if |ms| > 1 {
      assert ms[1] in ms;
      SendableIsWellFormed(ms[1]);
    }
  }
}
