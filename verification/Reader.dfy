/**
 * The receiving half of a connection, `Extern_reading` of xcom.c: each call of
 * recvmsg scatters what arrived over the rest of the header, the rest of the body, and
 * the fixed header of the next message.
 */
module Readers {
  import opened Bytes
  import opened Signatures
  import opened Wire

  /** The fields of a message being received that are known from its fixed header. */
  datatype InMsg = InMsg(size: nat, extid: nat, fdoffset: nat)

  /** A message handed on, with the header buffer as the lookups of its interface and method find it. */
  datatype Completed = Completed(packet: Packet, hbuf: seq<Byte>)

  /** What the lookups find: the strings of the message and zeros behind them, and, for the
      header size, its own or that of the next message. */
  ghost predicate Recorded(sent: seq<Packet>, i: nat, c: Completed)
    requires i < |sent|
  {
    && c.packet == sent[i] && |c.hbuf| == HEADER_BUFFER && HeaderSize(sent[i]) <= HEADER_BUFFER
    && c.hbuf[FIXED_SIZE..] == sent[i].strings + Zeros(HEADER_BUFFER - HeaderSize(sent[i]))
    && (c.hbuf[7] == HeaderSize(sent[i]) || (i + 1 < |sent| && c.hbuf[7] == HeaderSize(sent[i + 1])))
  }

  /** The header buffer while a message is in progress. */
  ghost predicate HeaderInProgress(p: Packet, d: seq<Byte>, hread: nat) {
    && WellFormed(p) && |d| == HEADER_BUFFER && FIXED_SIZE <= hread <= HeaderSize(p)
    && d[..hread] == Header(p)[..hread]
    && forall k :: hread <= k < HEADER_BUFFER ==> d[k] == 0
  }

  /** The reader stands behind `part` of message `n` of `sent`. */
  ghost predicate Stands(sent: seq<Packet>, n: nat, d: seq<Byte>, hread: nat, msg: Option<InMsg>, body: seq<Byte>,
                         bread: nat) {
    match msg
    case None =>
      && |d| == HEADER_BUFFER && hread < FIXED_SIZE && bread == 0
      && forall k :: FIXED_SIZE <= k < HEADER_BUFFER ==> d[k] == 0
    case Some(m) =>
      && n < |sent| && HeaderInProgress(sent[n], d, hread)
      && m == InMsg(|sent[n].body|, sent[n].extid, sent[n].fdoffset)
      && |body| == m.size && bread <= m.size && body[..bread] == sent[n].body[..bread]
      && (bread > 0 ==> hread == HeaderSize(sent[n]))
      && hread + bread < HeaderSize(sent[n]) + m.size
  }

  function Part(d: seq<Byte>, hread: nat, msg: Option<InMsg>, body: seq<Byte>, bread: nat): seq<Byte>
    requires hread <= |d| && (msg.Some? ==> bread <= |body|)
  {
    if msg.None? then d[..hread] else d[..hread] + body[..bread]
  }

  /** The stream is the completed messages, each recorded as sent, and a proper part of the next. */
  ghost predicate Tracks(sent: seq<Packet>, stream: seq<Byte>, completed: seq<Completed>, d: seq<Byte>, hread: nat,
                         msg: Option<InMsg>, body: seq<Byte>, bread: nat)
  {
    && Stands(sent, |completed|, d, hread, msg, body, bread)
    && Cut(sent, stream, |completed|, Part(d, hread, msg, body, bread))
    && forall i :: 0 <= i < |completed| ==> Recorded(sent, i, completed[i])
  }

  class Reader {
    const inHBuf: array<Byte>
    var inBody: array<Byte>
    var inHRead: nat
    var inBRead: nat
    var inMsg: Option<InMsg>

    /** All bytes received so far, and the messages handed on. */
    ghost var received: seq<Byte>
    ghost var completed: seq<Completed>

    constructor ()
      ensures fresh(inHBuf) && fresh(inBody)
      ensures forall sent :: AllWellFormed(sent) ==> Ok(sent)
      ensures received == [] && completed == [] && inMsg == None && inHRead == 0 && inBRead == 0
    {
      inHBuf := new Byte[HEADER_BUFFER](i => 0);
      inBody := new Byte[0];
      inHRead, inBRead, inMsg := 0, 0, None;
      received, completed := [], [];
    }

    /** The bytes received are the completed messages, each recorded as sent, and a proper part of the next. */
    ghost predicate Ok(sent: seq<Packet>)
      reads this, inHBuf, inBody
    {
      && inHBuf.Length == HEADER_BUFFER && inHBuf != inBody
      && Tracks(sent, received, completed, inHBuf[..], inHRead, inMsg, inBody[..], inBRead)
    }

    /** The lengths of the three buffers given to recvmsg. */
    method Offer(ghost sent: seq<Packet>) returns (len0: nat, len1: nat, len2: nat)
      requires Ok(sent)
      ensures (len0, len1, len2) == Lengths(sent)
      ensures inMsg.None? ==> len0 == len1 == 0 && len2 == FIXED_SIZE - inHRead > 0
      ensures inMsg.Some? ==>
                var p := sent[|completed|];
                len0 == HeaderSize(p) - inHRead && len1 == |p.body| - inBRead && len2 == FIXED_SIZE
    {
      len0, len1 := 0, 0;
      if inHRead >= FIXED_SIZE {
        // The message is created when the fixed header is read.
        assert inMsg.Some?;
        HeaderSizeInBuffer(sent[|completed|], inHBuf[..], inHRead);
        len0 := inHBuf[7] - inHRead;
        len1 := inMsg.value.size - inBRead;
        len2 := FIXED_SIZE;
      } else {
        len2 := FIXED_SIZE - inHRead;
      }
    }

    ghost function Lengths(sent: seq<Packet>): (nat, nat, nat)
      requires Ok(sent)
      reads this, inHBuf, inBody
    {
      if inMsg.None? then (0, 0, FIXED_SIZE - inHRead)
      else (HeaderSize(sent[|completed|]) - inHRead, inMsg.value.size - inBRead, FIXED_SIZE)
    }

    /** A receive that would end a message without body inside its header does not have all of it. */
    ghost predicate WholeHeader(sent: seq<Packet>, n: nat)
      requires Ok(sent)
      reads this, inHBuf, inBody
    {
      inMsg.Some? && inMsg.value.size == 0 ==> Lengths(sent).0 <= n
    }

    /** One call of recvmsg that delivers `data`, and what the reader does with it. The reader keeps track of
        the stream if and only if no message without body is cut in its header. */
    method Receive(data: seq<Byte>, ghost sent: seq<Packet>)
      requires Ok(sent) && received + data <= EncodeQueue(sent)
      requires 1 <= |data| <= Lengths(sent).0 + Lengths(sent).1 + Lengths(sent).2
      modifies this, inHBuf, inBody
      ensures received == old(received) + data && (inBody == old(inBody) || fresh(inBody))
      ensures Ok(sent) <==> old(WholeHeader(sent, |data|))
      ensures old(completed) <= completed
      ensures |completed| == |old(completed)| + if old(Completes(sent, |data|)) then 1 else 0
      ensures old(Completes(sent, |data|) && WholeHeader(sent, |data|)) ==>
                completed[|old(completed)|].hbuf[7] == old(SizeSeen(sent, data))
    {
      hide Stands, Cut, Recorded, Tracks, HeaderInProgress, EncodeQueue, AllWellFormed, WellFormed, Encode, Header,
        Written, Part, AllRecorded, Cleared, FixedHeader, HeaderSize, Ends, Fills;
      ghost var n, d0, h0, m0 := |completed|, inHBuf[..], inHRead, inMsg;
      ghost var body0, b0, stream := inBody[..], inBRead, received;
      TracksShape(sent, stream, completed, d0, h0, m0, body0, b0);
      var len0, len1, len2 := Offer(sent);
      assert m0.Some? ==> len0 == HeaderSize(sent[n]) - h0;
      var n0 := Min(|data|, len0);
      var n1 := Min(|data| - n0, len1);
      ghost var d1 := Scatter(data, n0, n1);
      var done := inMsg.Some? && n1 == len1;
      DataArrives(sent, stream, completed, d0, h0, m0, body0, b0, data, n0, n1, d1, inBody[..], inHBuf[..]);
      if done {
        EndsFacts(sent, received, n, m0.value, inHBuf[..], inHRead, inBody[..], data, |data| - n0 - n1);
      }
      Proceed(|data| - n0 - n1, done, data, sent);
    }

    /** What follows the transfer: the message is handed on if it is complete, and the next begun. */
    method Proceed(br: nat, done: bool, ghost data: seq<Byte>, ghost sent: seq<Packet>)
      requires inHBuf.Length == HEADER_BUFFER && inHBuf != inBody && data != [] && AllRecorded(sent, completed)
      requires done ==>
        && inMsg.Some? && |completed| < |sent| && inBRead == inMsg.value.size
        && Ends(sent, received, |completed|, inMsg.value, inHBuf[..], inHRead, inBody[..], data, br)
      requires !done && inMsg.Some? ==>
        br == 0 && Tracks(sent, received, completed, inHBuf[..], inHRead, inMsg, inBody[..], inBRead)
      requires !done && inMsg.None? ==>
        inBRead == 0 && br > 0 && Fills(sent, received, |completed|, inHBuf[..], inHRead + br)
      modifies this`completed, this`inMsg, this`inHRead, this`inBRead, this`inBody, inHBuf
      ensures inBody == old(inBody) || fresh(inBody)
      ensures completed == old(completed) + if done then [old(ToHand())] else []
      ensures Ok(sent) <==> (done ==> old(inHRead) == HeaderSize(sent[|old(completed)|]))
    {
      hide Stands, Cut, Recorded, Tracks, HeaderInProgress, Part, AllRecorded, Cleared, FixedHeader, HeaderSize,
        Handed, Ends;
      ghost var m, d2, h, body1 := inMsg, inHBuf[..], inHRead, inBody[..];
      if done {
        EndsFacts(sent, received, |completed|, m.value, d2, h, body1, data, br);
      }
      Progress(br, done, sent);
      if done {
        HandedOn(sent, received, old(completed), m.value, d2, h, body1, inHRead, inMsg, inBody[..], data);
      } else if m.Some? {
        assert completed == old(completed);
      } else {
        assert completed == old(completed);
        TracksAt(sent, received, completed, inHBuf[..], inHRead, inMsg, inBody[..]);
      }
    }

    ghost function ToHand(): Completed
      requires inMsg.Some? && FIXED_SIZE <= inHRead <= inHBuf.Length
      reads this, inHBuf, inBody
    {
      Handed(inMsg.value, inHBuf[..], inHRead, inBody[..])
    }

    /** The data fills the three buffers in turn, and the counters of header and body advance. */
    method Scatter(data: seq<Byte>, n0: nat, n1: nat) returns (ghost d1: seq<Byte>)
      requires inHBuf != inBody && n0 + n1 <= |data|
      requires inHRead + n0 <= inHBuf.Length && inBRead + n1 <= inBody.Length
      requires (if inHRead >= FIXED_SIZE then 0 else inHRead) + |data| - n0 - n1 <= inHBuf.Length
      modifies this`inHRead, this`inBRead, this`received, inHBuf, inBody
      ensures Written(old(inHBuf[..]), old(inHRead), data[..n0], d1)
      ensures Written(old(inBody[..]), old(inBRead), data[n0..n0 + n1], inBody[..])
      ensures Written(d1, if old(inHRead) >= FIXED_SIZE then 0 else old(inHRead), data[n0 + n1..], inHBuf[..])
      ensures inHRead == old(inHRead) + n0 && inBRead == old(inBRead) + n1 && received == old(received) + data
    {
      hide Written;
      CopyInto(inHBuf, inHRead, data[..n0]);
      d1 := inHBuf[..];
      CopyInto(inBody, inBRead, data[n0..n0 + n1]);
      CopyInto(inHBuf, if inHRead >= FIXED_SIZE then 0 else inHRead, data[n0 + n1..]);
      received := received + data;
      inHRead := inHRead + n0;
      inBRead := inBRead + n1;
    }

    /** Hands a complete message on, and counts `br` bytes towards the next. */
    method Progress(br: nat, done: bool, ghost sent: seq<Packet>)
      requires inHBuf.Length == HEADER_BUFFER && inHBuf != inBody
      requires done ==> inMsg.Some? && inBRead == inMsg.value.size && FIXED_SIZE <= inHRead <= HEADER_BUFFER
      requires br > 0 ==> (done || inMsg == None) && br + (if done then 0 else inHRead) <= FIXED_SIZE
      requires br > 0 && br + (if done then 0 else inHRead) == FIXED_SIZE ==>
        var next := |completed| + if done then 1 else 0;
        && next < |sent|
        && HeaderInProgress(sent[next], if done then Cleared(inHBuf[..]) else inHBuf[..], FIXED_SIZE)
      modifies this`completed, this`inMsg, this`inHRead, this`inBRead, this`inBody, inHBuf
      ensures completed == old(completed)
                + if done then [old(Handed(inMsg.value, inHBuf[..], inHRead, inBody[..]))] else []
      ensures inHBuf[..] == if done then Cleared(old(inHBuf[..])) else old(inHBuf[..])
      ensures inHRead == br + (if done then 0 else old(inHRead)) && inBRead == if done then 0 else old(inBRead)
      ensures br == 0 ==> inMsg == (if done then None else old(inMsg)) && inBody == old(inBody)
      ensures br > 0 && inHRead < FIXED_SIZE ==> inMsg == None && inBody == old(inBody)
      ensures br > 0 && inHRead == FIXED_SIZE ==>
        var p := sent[|completed|]; inMsg == Some(InMsg(|p.body|, p.extid, p.fdoffset)) && inBody.Length == |p.body|
      ensures inBody == old(inBody) || fresh(inBody)
    {
      hide HeaderInProgress, Handed, Cleared;
      if done {
        assert inBRead == inMsg.value.size;
        HandOn();
      }
      if br > 0 {
        assert inMsg == None && inHRead + br <= FIXED_SIZE;
        NextHeader(br, sent);
      }
    }

    /** Queues the message for its object and clears the header strings for the next. */
    method HandOn()
      requires inHBuf.Length == HEADER_BUFFER && inMsg.Some? && FIXED_SIZE <= inHRead <= HEADER_BUFFER
      requires inHBuf != inBody
      modifies this`completed, this`inMsg, this`inHRead, this`inBRead, inHBuf
      ensures inMsg == None && inHRead == 0 && inBRead == 0
      ensures completed == old(completed) + [old(Handed(inMsg.value, inHBuf[..], inHRead, inBody[..]))]
      ensures inHBuf[..] == Cleared(old(inHBuf[..]))
    {
      completed := completed + [Handed(inMsg.value, inHBuf[..], inHRead, inBody[..])];
      inMsg, inHRead, inBRead := None, 0, 0;
      forall i | FIXED_SIZE <= i < inHBuf.Length {
        inHBuf[i] := 0;
      }
    }

    /** `Extern_validate_message_header`. */
    method ValidateMessageHeader(sz: nat, fdoffset: nat, hsz: nat) returns (valid: bool)
      ensures valid <==> hsz % 8 == 0 && sz % 8 == 0 && (fdoffset != NO_FD_IN_MESSAGE ==> fdoffset + 4 <= sz)
    {
      if hsz % 8 != 0 {
        return false;
      }
      if sz % 8 != 0 {
        return false;
      }
      if fdoffset != NO_FD_IN_MESSAGE && fdoffset + 4 > sz {
        return false;
      }
      return true;
    }

    /** Counts bytes of the next fixed header, and begins a message when it has them all. */
    method NextHeader(br: nat, ghost sent: seq<Packet>)
      requires inMsg == None && 0 < br && inHRead + br <= FIXED_SIZE
      requires inHRead + br == FIXED_SIZE ==>
        |completed| < |sent| && HeaderInProgress(sent[|completed|], inHBuf[..], FIXED_SIZE)
      modifies this`inHRead, this`inMsg, this`inBody
      ensures inHRead == old(inHRead) + br && (inBody == old(inBody) || fresh(inBody))
      ensures inHRead < FIXED_SIZE ==> inMsg == None && inBody == old(inBody)
      ensures inHRead == FIXED_SIZE ==>
        var p := sent[|completed|]; inMsg == Some(InMsg(|p.body|, p.extid, p.fdoffset)) && inBody.Length == |p.body|
    {
      inHRead := inHRead + br;
      if inHRead >= FIXED_SIZE {
        // Message data is only read when the message before it is complete.
        assert inHRead == FIXED_SIZE && inMsg == None;
        Begin(sent[|completed|]);
      }
    }

    /** Begins a message when its fixed header is read. */
    method Begin(ghost p: Packet)
      requires HeaderInProgress(p, inHBuf[..], FIXED_SIZE) && inHRead == FIXED_SIZE && inMsg == None
      modifies this`inMsg, this`inBody
      ensures inMsg == Some(InMsg(|p.body|, p.extid, p.fdoffset))
      ensures fresh(inBody) && inBody.Length == |p.body|
    {
      HeaderSizeInBuffer(p, inHBuf[..], FIXED_SIZE);
      FieldsOf(p, inHBuf[..]);
      var sz, extid, fdoffset, hsz := Value(inHBuf[0..4]), Value(inHBuf[4..6]), inHBuf[6], inHBuf[7];
      var valid := ValidateMessageHeader(sz, fdoffset, hsz);
      assert valid;
      inMsg := Some(InMsg(sz, extid, fdoffset));
      inBody := new Byte[sz](i => 0);
    }

    /** This call hands a message on: the body is complete, or there is none to receive. */
    ghost predicate Completes(sent: seq<Packet>, n: nat)
      requires Ok(sent)
      reads this, inHBuf, inBody
    {
      inMsg.Some? && (inMsg.value.size == 0 || Lengths(sent).0 + Lengths(sent).1 <= n)
    }

    /** The header size that the method lookup finds: the last byte of the data if that is
        the last byte of the next fixed header. */
    ghost function SizeSeen(sent: seq<Packet>, data: seq<Byte>): nat
      requires Ok(sent) && inMsg.Some? && data != []
      reads this, inHBuf, inBody
    {
      var (l0, l1, l2) := Lengths(sent);
      if |data| == l0 + l1 + l2 then data[|data| - 1] else HeaderSize(sent[|completed|])
    }
  }

  function Handed(m: InMsg, d: seq<Byte>, hread: nat, body: seq<Byte>): Completed
    requires FIXED_SIZE <= hread <= |d|
  {
    Completed(Packet(m.extid, m.fdoffset, d[FIXED_SIZE..hread], body), d)
  }

  function Cleared(d: seq<Byte>): seq<Byte>
    requires |d| == HEADER_BUFFER
  {
    d[..FIXED_SIZE] + Zeros(HEADER_BUFFER - FIXED_SIZE)
  }

  lemma TracksShape(sent: seq<Packet>, stream: seq<Byte>, completed: seq<Completed>, d: seq<Byte>, hread: nat,
                    msg: Option<InMsg>, body: seq<Byte>, bread: nat)
    requires Tracks(sent, stream, completed, d, hread, msg, body, bread)
    ensures |d| == HEADER_BUFFER && (hread >= FIXED_SIZE <==> msg.Some?)
    ensures msg.None? ==> bread == 0 && Part(d, hread, msg, body, bread) == d[..hread]
    ensures msg.None? ==> forall k :: FIXED_SIZE <= k < |d| ==> d[k] == 0
    ensures msg.Some? ==> bread <= |body| && Part(d, hread, msg, body, bread) == d[..hread] + body[..bread]
    ensures AllRecorded(sent, completed)
    ensures AllWellFormed(sent) && Cut(sent, stream, |completed|, Part(d, hread, msg, body, bread))
    ensures msg.Some? ==>
      && |completed| < |sent| && WellFormed(sent[|completed|]) && HeaderInProgress(sent[|completed|], d, hread)
      && |body| == |sent[|completed|].body| == msg.value.size && hread + bread < HeaderSize(sent[|completed|]) + |body|
      && Stands(sent, |completed|, d, hread, msg, body, bread)
      && FIXED_SIZE <= hread <= HeaderSize(sent[|completed|]) <= HEADER_BUFFER
  {
  }

  ghost predicate AllRecorded(sent: seq<Packet>, completed: seq<Completed>) {
    |completed| <= |sent| && forall i :: 0 <= i < |completed| ==> Recorded(sent, i, completed[i])
  }

  lemma OneMoreRecord(sent: seq<Packet>, completed: seq<Completed>)
    requires completed != [] && |completed| <= |sent| && AllRecorded(sent, completed[..|completed| - 1])
    requires Recorded(sent, |completed| - 1, completed[|completed| - 1])
    ensures AllRecorded(sent, completed)
  {
    forall i | 0 <= i < |completed|
      ensures Recorded(sent, i, completed[i])
    {
      if i < |completed| - 1 {
        assert completed[..|completed| - 1][i] == completed[i];
      }
    }
  }

  /** Between messages, or just behind the fixed header of one. */
  lemma TracksAt(sent: seq<Packet>, stream: seq<Byte>, completed: seq<Completed>, d: seq<Byte>, hread: nat,
                 msg: Option<InMsg>, body: seq<Byte>)
    requires AllRecorded(sent, completed) && |d| == HEADER_BUFFER && hread <= FIXED_SIZE
    requires Cut(sent, stream, |completed|, d[..hread])
    requires forall k :: FIXED_SIZE <= k < |d| ==> d[k] == 0
    requires if hread < FIXED_SIZE then msg == None
             else
               var n := |completed|;
               && n < |sent| && HeaderInProgress(sent[n], d, FIXED_SIZE) && |body| == |sent[n].body|
               && msg == Some(InMsg(|sent[n].body|, sent[n].extid, sent[n].fdoffset))
    ensures Tracks(sent, stream, completed, d, hread, msg, body, 0)
  {
    hide Recorded, Cut;
    assert Part(d, hread, msg, body, 0) == d[..hread];
  }

  /** After a message was handed on, the reader tracks the stream exactly when the record is complete. */
  lemma HandedOn(sent: seq<Packet>, stream: seq<Byte>, completed: seq<Completed>, m: InMsg, d2: seq<Byte>, h: nat,
                 body1: seq<Byte>, hread: nat, msg: Option<InMsg>, body: seq<Byte>, data: seq<Byte>)
    requires |completed| < |sent| && AllRecorded(sent, completed) && |d2| == HEADER_BUFFER && data != []
    requires Ends(sent, stream, |completed|, m, d2, h, body1, data, hread)
    requires if hread < FIXED_SIZE then msg == None
             else
               var n := |completed| + 1;
               && n < |sent| && |body| == |sent[n].body|
               && msg == Some(InMsg(|sent[n].body|, sent[n].extid, sent[n].fdoffset))
    ensures FIXED_SIZE <= h <= |d2|
    ensures Tracks(sent, stream, completed + [Handed(m, d2, h, body1)], Cleared(d2), hread, msg, body, 0)
       <==> h == HeaderSize(sent[|completed|])
  {
    hide Recorded, Cut, HeaderInProgress, Tracks, Handed, AllRecorded;
    var after := completed + [Handed(m, d2, h, body1)];
    assert after[..|after| - 1] == completed;
    if h == HeaderSize(sent[|completed|]) {
      RecordsSize(sent, completed);
      OneMoreRecord(sent, after);
      TracksAt(sent, stream, after, Cleared(d2), hread, msg, body);
    } else {
      LosesTrack(sent, stream, after, m, d2, h, body1, Cleared(d2), hread, msg, body, 0);
    }
  }

  lemma RecordsSize(sent: seq<Packet>, completed: seq<Completed>)
    requires AllRecorded(sent, completed)
    ensures |completed| <= |sent|
  {
  }

  /** `d` holds the first `h` bytes of message `n`, all from its fixed header, and zeros behind that. */
  ghost predicate Fills(sent: seq<Packet>, stream: seq<Byte>, n: nat, d: seq<Byte>, h: nat) {
    && n < |sent| && |d| == HEADER_BUFFER && h <= FIXED_SIZE && Cut(sent, stream, n, d[..h])
    && (forall k :: FIXED_SIZE <= k < |d| ==> d[k] == 0)
    && (h == FIXED_SIZE ==> HeaderInProgress(sent[n], d, FIXED_SIZE))
  }

  lemma EndsFacts(sent: seq<Packet>, stream: seq<Byte>, n: nat, m: InMsg, d2: seq<Byte>, h: nat, body1: seq<Byte>,
                  data: seq<Byte>, br: nat)
    requires n < |sent| && |d2| == HEADER_BUFFER && data != []
    requires Ends(sent, stream, n, m, d2, h, body1, data, br)
    ensures FIXED_SIZE <= h <= HeaderSize(sent[n]) <= |d2| && br <= FIXED_SIZE
    ensures br > 0 ==> h == HeaderSize(sent[n])
    ensures br == FIXED_SIZE ==> n + 1 < |sent| && HeaderInProgress(sent[n + 1], Cleared(d2), FIXED_SIZE)
    ensures h == HeaderSize(sent[n]) ==> d2[7] == if br == FIXED_SIZE then data[|data| - 1] else HeaderSize(sent[n])
  {
  }

  /** A message cut in its header is not the one sent, and the stream is lost. */
  lemma LosesTrack(sent: seq<Packet>, stream: seq<Byte>, completed: seq<Completed>, m: InMsg, d2: seq<Byte>, cut: nat,
                   body1: seq<Byte>, d: seq<Byte>, hread: nat, msg: Option<InMsg>, body: seq<Byte>, bread: nat)
    requires 0 < |completed| <= |sent| && FIXED_SIZE <= cut <= |d2|
    requires cut < HeaderSize(sent[|completed| - 1])
    requires completed[|completed| - 1] == Handed(m, d2, cut, body1)
    ensures !Tracks(sent, stream, completed, d, hread, msg, body, bread)
  {
    assert |completed[|completed| - 1].packet.strings| < |sent[|completed| - 1].strings|;
    assert !Recorded(sent, |completed| - 1, completed[|completed| - 1]);
  }

  /** The message goes on. */
  lemma TracksMore(sent: seq<Packet>, stream: seq<Byte>, completed: seq<Completed>, d: seq<Byte>, h: nat, m: InMsg,
                   body: seq<Byte>, b: nat, data: seq<Byte>, n0: nat, d1: seq<Byte>, body1: seq<Byte>, d2: seq<Byte>)
    requires Tracks(sent, stream, completed, d, h, Some(m), body, b)
    requires data != [] && stream + data <= EncodeQueue(sent)
    requires |completed| < |sent| && n0 == Min(|data|, HeaderSize(sent[|completed|]) - h)
    requires h + b + |data| < HeaderSize(sent[|completed|]) + m.size
    requires Written(d, h, data[..n0], d1) && Written(body, b, data[n0..], body1) && Written(d1, 0, [], d2)
    ensures Tracks(sent, stream + data, completed, d2, h + n0, Some(m), body1, b + |data| - n0)
  {
    hide Tracks, Stands, Part, Cut, EncodeQueue, AllWellFormed, Recorded, HeaderInProgress, Encode, Header, Written;
    hide HeaderSize, WellFormed;
    var n := |completed|;
    var p := sent[n];
    TracksShape(sent, stream, completed, d, h, Some(m), body, b);
    InProgressShape(sent, n, d, h, m, body, b);
    EncodeSize(p);
    PieceGrows(sent, stream, n, d[..h] + body[..b], data);
    MessageArrives(p, d, h, body, b, data, n0, d1, body1);
    WroteNothing(d1, 0, d2);
    StandsInMessage(sent, n, d2, h + n0, m, body1, b + |data| - n0);
    TracksIntro(sent, stream + data, completed, d2, h + n0, Some(m), body1, b + |data| - n0);
  }

  lemma EncodeSize(p: Packet)
    requires WellFormed(p)
    ensures |Encode(p)| == HeaderSize(p) + |p.body|
  {
  }

  lemma PieceGrows(sent: seq<Packet>, stream: seq<Byte>, n: nat, part: seq<Byte>, data: seq<Byte>)
    requires Cut(sent, stream, n, part) && data != [] && stream + data <= EncodeQueue(sent)
    requires n < |sent| && WellFormed(sent[n]) && |part| + |data| < |Encode(sent[n])|
    ensures Cut(sent, stream + data, n, part + data) && data <= Encode(sent[n])[|part|..]
  {
    hide Cut, EncodeQueue, AllWellFormed, Encode;
    CutNext(sent, stream, n, part, data);
    PieceOf(Encode(sent[n]), part, data);
    CutExtend(sent, stream, n, part, data);
  }

  lemma StandsInMessage(sent: seq<Packet>, n: nat, d: seq<Byte>, h: nat, m: InMsg, body: seq<Byte>, b: nat)
    requires n < |sent| && HeaderInProgress(sent[n], d, h)
    requires m == InMsg(|sent[n].body|, sent[n].extid, sent[n].fdoffset)
    requires b <= |body| == m.size && body[..b] == sent[n].body[..b] && (b > 0 ==> h == HeaderSize(sent[n]))
    requires h + b < HeaderSize(sent[n]) + m.size
    ensures Stands(sent, n, d, h, Some(m), body, b) && h <= |d| && Part(d, h, Some(m), body, b) == d[..h] + body[..b]
  {
  }

  lemma TracksIntro(sent: seq<Packet>, stream: seq<Byte>, completed: seq<Completed>, d: seq<Byte>, hread: nat,
                    msg: Option<InMsg>, body: seq<Byte>, bread: nat)
    requires hread <= |d| && (msg.Some? ==> bread <= |body|)
    requires Stands(sent, |completed|, d, hread, msg, body, bread) && AllRecorded(sent, completed)
    requires Cut(sent, stream, |completed|, Part(d, hread, msg, body, bread))
    ensures Tracks(sent, stream, completed, d, hread, msg, body, bread)
  {
  }

  lemma WroteNothing(before: seq<Byte>, at: nat, after: seq<Byte>)
    requires Written(before, at, [], after)
    ensures after == before
  {
  }

  function Min(a: nat, b: nat): nat {
    if a < b then a else b
  }

  method CopyInto(a: array<Byte>, at: nat, data: seq<Byte>)
    requires at + |data| <= a.Length
    modifies a
    ensures Written(old(a[..]), at, data, a[..])
  {
    forall i | 0 <= i < |data| {
      a[at + i] := data[i];
    }
  }

  // ------------------------------------------------------------- steps on values

  /** A new message is begun: the rest of its fixed header arrives. */
  lemma FixedArrives(sent: seq<Packet>, stream: seq<Byte>, n: nat, d: seq<Byte>, hread: nat, data: seq<Byte>,
                     d': seq<Byte>)
    requires |d| == HEADER_BUFFER && hread < FIXED_SIZE && (forall k :: FIXED_SIZE <= k < |d| ==> d[k] == 0)
    requires Cut(sent, stream, n, d[..hread])
    requires data != [] && stream + data <= EncodeQueue(sent) && hread + |data| <= FIXED_SIZE
    requires Written(d, hread, data, d')
    ensures n < |sent| && Cut(sent, stream + data, n, d'[..hread + |data|])
    ensures |d'| == HEADER_BUFFER && forall k :: FIXED_SIZE <= k < |d'| ==> d'[k] == 0
    ensures hread + |data| == FIXED_SIZE ==> HeaderInProgress(sent[n], d', FIXED_SIZE)
  {
    hide Cut, EncodeQueue, AllWellFormed, Encode, Header;
    CutNext(sent, stream, n, d[..hread], data);
    assert d'[..hread + |data|] == d[..hread] + data;
    PieceOf(Encode(sent[n]), d[..hread], data);
    CutExtend(sent, stream, n, d[..hread], data);
    if hread + |data| == FIXED_SIZE {
      FixedIsFirst(sent[n]);
      assert d'[..FIXED_SIZE] == Encode(sent[n])[..FIXED_SIZE];
    }
  }

  lemma FixedIsFirst(p: Packet)
    requires WellFormed(p)
    ensures Encode(p)[..FIXED_SIZE] == Header(p)[..FIXED_SIZE]
  {
  }

  lemma PieceOf(whole: seq<Byte>, part: seq<Byte>, data: seq<Byte>)
    requires part <= whole && data <= whole[|part|..]
    ensures part + data <= whole
  {
  }

  /** What one call of recvmsg brings: a part of a fixed header, more of a message, or its end. */
  lemma DataArrives(sent: seq<Packet>, stream: seq<Byte>, completed: seq<Completed>, d: seq<Byte>, h: nat,
                    msg: Option<InMsg>,
                    body: seq<Byte>, b: nat, data: seq<Byte>, n0: nat, n1: nat, d1: seq<Byte>, body1: seq<Byte>,
                    d2: seq<Byte>)
    requires Tracks(sent, stream, completed, d, h, msg, body, b) && stream + data <= EncodeQueue(sent) && data != []
    requires msg.None? ==>
      n0 == n1 == 0 && h + |data| <= FIXED_SIZE && Written(d, h, [], d1) && Written(d1, h, data, d2)
    requires msg.Some? ==>
      && |completed| < |sent| && h <= HeaderSize(sent[|completed|]) && b <= msg.value.size
      && n0 == Min(|data|, HeaderSize(sent[|completed|]) - h) && n1 == Min(|data| - n0, msg.value.size - b)
      && |data| <= HeaderSize(sent[|completed|]) - h + (msg.value.size - b) + FIXED_SIZE
      && Written(d, h, data[..n0], d1) && Written(body, b, data[n0..n0 + n1], body1)
      && Written(d1, 0, data[n0 + n1..], d2)
    ensures |d2| == HEADER_BUFFER && AllRecorded(sent, completed)
    ensures msg.None? ==> Fills(sent, stream + data, |completed|, d2, h + |data|)
    ensures msg.Some? && n1 < msg.value.size - b ==>
      n0 + n1 == |data| && Tracks(sent, stream + data, completed, d2, h + n0, msg, body1, b + n1)
    ensures msg.Some? && n1 == msg.value.size - b ==>
      Ends(sent, stream + data, |completed|, msg.value, d2, h + n0, body1, data, |data| - n0 - n1)
  {
    hide Tracks, Cut, EncodeQueue, Written, HeaderInProgress, AllRecorded, Stands, Part, Header, HeaderSize,
      WellFormed, Ends;
    var n := |completed|;
    TracksShape(sent, stream, completed, d, h, msg, body, b);
    WrittenSize(d, h, if msg.None? then [] else data[..n0], d1);
    WrittenSize(d1, if msg.None? then h else 0, if msg.None? then data else data[n0 + n1..], d2);
    if msg.None? {
      WroteNothing(d, h, d1);
      FixedArrives(sent, stream, n, d, h, data, d2);
    } else if n1 < msg.value.size - b {
      WholeData(data, n0);
      TracksMore(sent, stream, completed, d, h, msg.value, body, b, data, n0, d1, body1, d2);
    } else {
      EndArrives(sent, stream, n, d, h, msg.value, body, b, data, n0, n1, d1, body1, d2);
    }
  }

  lemma WrittenSize(before: seq<Byte>, at: nat, data: seq<Byte>, after: seq<Byte>)
    requires Written(before, at, data, after)
    ensures |after| == |before|
  {
  }

  /** The body of message `n` is complete: with the whole header it is the message sent, and `br` bytes
      of the next are behind it. */
  ghost predicate Ends(sent: seq<Packet>, stream: seq<Byte>, n: nat, m: InMsg, d2: seq<Byte>, h: nat, body1: seq<Byte>,
                       data: seq<Byte>, br: nat)
    requires n < |sent| && |d2| == HEADER_BUFFER && data != []
  {
    && FIXED_SIZE <= h <= HeaderSize(sent[n]) <= |d2| && br <= FIXED_SIZE && (h < HeaderSize(sent[n]) ==> br == 0)
    && (h == HeaderSize(sent[n]) ==>
        && Recorded(sent, n, Handed(m, d2, h, body1)) && Cut(sent, stream, n + 1, Cleared(d2)[..br])
        && d2[7] == (if br == FIXED_SIZE then data[|data| - 1] else HeaderSize(sent[n]))
        && (br == FIXED_SIZE ==> n + 1 < |sent| && HeaderInProgress(sent[n + 1], Cleared(d2), FIXED_SIZE)))
  }

  lemma EndArrives(sent: seq<Packet>, stream: seq<Byte>, n: nat, d: seq<Byte>, h: nat, m: InMsg, body: seq<Byte>,
                   b: nat,
                   data: seq<Byte>, n0: nat, n1: nat, d1: seq<Byte>, body1: seq<Byte>, d2: seq<Byte>)
    requires Stands(sent, n, d, h, Some(m), body, b) && Cut(sent, stream, n, d[..h] + body[..b])
    requires stream + data <= EncodeQueue(sent) && data != [] && |d2| == HEADER_BUFFER
    requires n0 == Min(|data|, HeaderSize(sent[n]) - h) && n1 == Min(|data| - n0, m.size - b) == m.size - b
    requires |data| <= HeaderSize(sent[n]) - h + n1 + FIXED_SIZE
    requires Written(d, h, data[..n0], d1) && Written(body, b, data[n0..n0 + n1], body1)
    requires Written(d1, 0, data[n0 + n1..], d2)
    ensures Ends(sent, stream + data, n, m, d2, h + n0, body1, data, |data| - n0 - n1)
  {
    InProgressShape(sent, n, d, h, m, body, b);
    hide Stands, Cut, EncodeQueue, AllWellFormed, Recorded, HeaderInProgress, Encode, Header, Written, Cleared,
      Handed, HeaderSize, WellFormed, FixedHeader;
    assert n0 < HeaderSize(sent[n]) - h ==> n0 == |data| && n1 == 0;
    if n0 == HeaderSize(sent[n]) - h {
      MessageEnds(sent, stream, n, d, h, m, body, b, data, n0, n1, d1, body1, d2);
    }
  }

  /** The rest of a message arrives, and up to the fixed header of the next behind it. */
  lemma MessageEnds(sent: seq<Packet>, stream: seq<Byte>, n: nat, d: seq<Byte>, h: nat, m: InMsg, body: seq<Byte>,
                    b: nat,
                    data: seq<Byte>, n0: nat, n1: nat, d1: seq<Byte>, body1: seq<Byte>, d2: seq<Byte>)
    requires Stands(sent, n, d, h, Some(m), body, b) && Cut(sent, stream, n, d[..h] + body[..b])
    requires stream + data <= EncodeQueue(sent) && data != []
    requires n0 == HeaderSize(sent[n]) - h && n1 == m.size - b && n0 + n1 <= |data| <= n0 + n1 + FIXED_SIZE
    requires Written(d, h, data[..n0], d1) && Written(body, b, data[n0..n0 + n1], body1)
    requires Written(d1, 0, data[n0 + n1..], d2)
    ensures var rest, hsz, d3 := data[n0 + n1..], HeaderSize(sent[n]), Cleared(d2);
            && h + n0 == hsz <= |d2| == HEADER_BUFFER && Recorded(sent, n, Handed(m, d2, hsz, body1))
            && Cut(sent, stream + data, n + 1, d3[..|rest|])
            && d2[7] == (if |rest| == FIXED_SIZE then data[|data| - 1] else hsz)
            && (|rest| == FIXED_SIZE ==> n + 1 < |sent| && HeaderInProgress(sent[n + 1], d3, FIXED_SIZE))
  {
    hide Stands, Cut, EncodeQueue, AllWellFormed, Recorded, HeaderInProgress, Encode, Header, Written, Cleared, Handed;
    InProgressShape(sent, n, d, h, m, body, b);
    var p, rest := sent[n], data[n0 + n1..];
    FirstPart(sent, stream, n, d, h, body, b, data, n0, n1, d1, body1);
    RecordFits(sent, n, m, d1, body1, d2, rest);
    RestIs(sent, n, d2, rest);
    CutAdvance(sent, stream, n, d[..h] + body[..b], data[..n0 + n1], rest);
    Rejoin(stream, data, n0 + n1);
  }

  lemma FirstPart(sent: seq<Packet>, stream: seq<Byte>, n: nat, d: seq<Byte>, h: nat, body: seq<Byte>, b: nat,
                  data: seq<Byte>, n0: nat, n1: nat, d1: seq<Byte>, body1: seq<Byte>)
    requires n < |sent| && HeaderInProgress(sent[n], d, h) && h <= |d|
    requires b <= |body| == |sent[n].body| && body[..b] == sent[n].body[..b] && (b > 0 ==> h == HeaderSize(sent[n]))
    requires Cut(sent, stream, n, d[..h] + body[..b]) && stream + data <= EncodeQueue(sent) && data != []
    requires h <= HeaderSize(sent[n]) && n0 == HeaderSize(sent[n]) - h && n1 == |body| - b
    requires n0 + n1 <= |data| <= n0 + n1 + FIXED_SIZE
    requires Written(d, h, data[..n0], d1) && Written(body, b, data[n0..n0 + n1], body1)
    ensures WellFormed(sent[n]) && HeaderInProgress(sent[n], d1, HeaderSize(sent[n])) && body1 == sent[n].body
    ensures d[..h] + body[..b] + data[..n0 + n1] == Encode(sent[n])
    ensures data[n0 + n1..] != [] ==>
              n + 1 < |sent| && WellFormed(sent[n + 1]) && data[n0 + n1..] <= Encode(sent[n + 1])
  {
    hide Cut, EncodeQueue, AllWellFormed, HeaderInProgress, Encode, Header, Written;
    var p, first := sent[n], data[..n0 + n1];
    assert first[..n0] == data[..n0] && first[n0..] == data[n0..n0 + n1];
    CutNext(sent, stream, n, d[..h] + body[..b], data);
    WantIs(p, d, h, body, b, data, n0 + n1);
    MessageArrives(p, d, h, body, b, first, n0, d1, body1);
    WholeIs(p, d, h, body, b, first);
  }

  lemma WholeData(data: seq<Byte>, k: nat)
    requires k <= |data|
    ensures data[k..|data|] == data[k..] && data[|data|..] == []
  {
  }

  lemma Rejoin(stream: seq<Byte>, data: seq<Byte>, k: nat)
    requires k <= |data|
    ensures stream + data[..k] + data[k..] == stream + data
  {
    assert data[..k] + data[k..] == data;
  }

  lemma InProgressShape(sent: seq<Packet>, n: nat, d: seq<Byte>, h: nat, m: InMsg, body: seq<Byte>, b: nat)
    requires Stands(sent, n, d, h, Some(m), body, b)
    ensures n < |sent| && |d| == HEADER_BUFFER && FIXED_SIZE <= h <= HeaderSize(sent[n]) <= HEADER_BUFFER
    ensures HeaderInProgress(sent[n], d, h) && m == InMsg(|sent[n].body|, sent[n].extid, sent[n].fdoffset)
    ensures b <= |body| == |sent[n].body| && body[..b] == sent[n].body[..b] && (b > 0 ==> h == HeaderSize(sent[n]))
  {
  }

  lemma WantIs(p: Packet, d: seq<Byte>, h: nat, body: seq<Byte>, b: nat, data: seq<Byte>, k: nat)
    requires WellFormed(p) && h <= |d| && b <= |body| && d[..h] + body[..b] <= Encode(p)
    requires h + b + k == |Encode(p)| && k <= |data|
    requires data[..k] <= Encode(p)[h + b..] || data[..k] == Encode(p)[h + b..]
    ensures data[..k] == Encode(p)[h + b..]
  {
  }

  lemma WholeIs(p: Packet, d: seq<Byte>, h: nat, body: seq<Byte>, b: nat, first: seq<Byte>)
    requires WellFormed(p) && h <= |d| && b <= |body| && d[..h] + body[..b] <= Encode(p)
    requires first == Encode(p)[h + b..]
    ensures d[..h] + body[..b] + first == Encode(p)
  {
  }

  lemma RestIs(sent: seq<Packet>, n: nat, d2: seq<Byte>, rest: seq<Byte>)
    requires |d2| == HEADER_BUFFER && |rest| <= FIXED_SIZE && d2[..|rest|] == rest
    requires rest != [] ==> n + 1 < |sent| && WellFormed(sent[n + 1]) && rest <= Encode(sent[n + 1])
    ensures Cleared(d2)[..|rest|] == rest && |Cleared(d2)| == HEADER_BUFFER
    ensures |rest| == FIXED_SIZE ==> HeaderInProgress(sent[n + 1], Cleared(d2), FIXED_SIZE)
  {
    if |rest| == FIXED_SIZE {
      FixedIsFirst(sent[n + 1]);
      assert Cleared(d2)[..FIXED_SIZE] == Encode(sent[n + 1])[..FIXED_SIZE];
    }
  }

  /** The record handed on is the message sent, and the size in its buffer that of the message or the next. */
  lemma RecordFits(sent: seq<Packet>, n: nat, m: InMsg, d1: seq<Byte>, body1: seq<Byte>, d2: seq<Byte>, rest: seq<Byte>)
    requires n < |sent| && m == InMsg(|sent[n].body|, sent[n].extid, sent[n].fdoffset)
    requires HeaderInProgress(sent[n], d1, HeaderSize(sent[n])) && body1 == sent[n].body
    requires Written(d1, 0, rest, d2) && |rest| <= FIXED_SIZE
    requires rest != [] ==> n + 1 < |sent| && WellFormed(sent[n + 1]) && rest <= Encode(sent[n + 1])
    ensures HeaderSize(sent[n]) <= |d2| && Recorded(sent, n, Handed(m, d2, HeaderSize(sent[n]), body1))
    ensures d2[7] == if |rest| == FIXED_SIZE then rest[7] else HeaderSize(sent[n])
    ensures |d2| == HEADER_BUFFER && d2[..|rest|] == rest
  {
    var p := sent[n];
    var hsz := HeaderSize(p);
    HeaderSizeInBuffer(p, d1, hsz);
    assert d1[..hsz] == Header(p);
    assert d1[FIXED_SIZE..hsz] == Header(p)[FIXED_SIZE..] == p.strings;
    assert d2[FIXED_SIZE..] == d1[FIXED_SIZE..];
    assert d2[FIXED_SIZE..hsz] == p.strings;
    assert d2[FIXED_SIZE..] == p.strings + Zeros(HEADER_BUFFER - hsz);
    if |rest| == FIXED_SIZE {
      FixedIsFirst(sent[n + 1]);
      FieldsOf(sent[n + 1], rest);
    }
  }

  /** The data offered to header and body, up to the end of the message. */
  lemma SplitWant(p: Packet, h: nat, b: nat, data: seq<Byte>, n0: nat)
    requires WellFormed(p) && h <= HeaderSize(p) && b <= |p.body| && (b > 0 ==> h == HeaderSize(p))
    requires data <= Encode(p)[h + b..] && n0 == Min(|data|, HeaderSize(p) - h)
    ensures data[..n0] == Header(p)[h..h + n0] && b + |data| - n0 <= |p.body|
    ensures data[n0..] == p.body[b..b + |data| - n0]
  {
    hide WellFormed, Header;
    var first, whole := Header(p), Encode(p);
    if b > 0 {
      assert whole[h + b..] == p.body[b..];
      PieceOfTwo([], p.body[b..], data, 0);
    } else {
      assert whole[h..] == first[h..] + p.body;
      PieceOfTwo(first[h..], p.body, data, n0);
    }
  }

  lemma PieceOfTwo(a: seq<Byte>, c: seq<Byte>, data: seq<Byte>, n: nat)
    requires data <= a + c && n == Min(|data|, |a|)
    ensures data[..n] == a[..n] && |data| - n <= |c| && data[n..] == c[..|data| - n]
  {
  }

  /** More header and body bytes arrive in their places. */
  lemma MessageArrives(p: Packet, d: seq<Byte>, h: nat, body: seq<Byte>, b: nat, data: seq<Byte>, n0: nat,
                       d': seq<Byte>, body': seq<Byte>)
    requires HeaderInProgress(p, d, h) && |body| == |p.body| && b <= |body| && body[..b] == p.body[..b]
    requires (b > 0 ==> h == HeaderSize(p)) && data <= Encode(p)[h + b..] && n0 == Min(|data|, HeaderSize(p) - h)
    requires Written(d, h, data[..n0], d') && Written(body, b, data[n0..], body')
    ensures HeaderInProgress(p, d', h + n0) && |body'| == |body|
    ensures var b' := b + |data| - n0;
            b' <= |body| && body'[..b'] == p.body[..b'] && (b' > 0 ==> h + n0 == HeaderSize(p))
    ensures d'[..h + n0] + body'[..b + |data| - n0] == d[..h] + body[..b] + data
    ensures b + |data| - n0 == |body| ==> body' == p.body
  {
    hide HeaderInProgress, Header, Encode, Written;
    HeaderSizeInBuffer(p, d, h);
    SplitWant(p, h, b, data, n0);
    HeaderArrives(p, d, h, data[..n0], d');
    BodyArrives(p.body, body, b, data[n0..], body');
    Interleave(d[..h], body[..b], data, n0, b > 0);
  }

  lemma Interleave(d: seq<Byte>, body: seq<Byte>, data: seq<Byte>, n0: nat, inBody: bool)
    requires n0 <= |data| && (inBody ==> n0 == 0) && (!inBody ==> body == [])
    ensures d + data[..n0] + (body + data[n0..]) == d + body + data
  {
    assert data == data[..n0] + data[n0..];
    if inBody {
      assert data[..n0] == [];
    }
  }

  lemma HeaderArrives(p: Packet, d: seq<Byte>, h: nat, data: seq<Byte>, d': seq<Byte>)
    requires HeaderInProgress(p, d, h) && h + |data| <= HeaderSize(p) && data == Header(p)[h..h + |data|]
    requires Written(d, h, data, d')
    ensures HeaderInProgress(p, d', h + |data|) && d'[..h + |data|] == d[..h] + data
  {
    assert d'[..h + |data|] == d[..h] + data;
    assert Header(p)[..h + |data|] == Header(p)[..h] + Header(p)[h..h + |data|];
    forall k | h + |data| <= k < HEADER_BUFFER
      ensures d'[k] == 0
    {
      assert d'[k] == d[k];
    }
  }

  lemma BodyArrives(whole: seq<Byte>, body: seq<Byte>, b: nat, data: seq<Byte>, body': seq<Byte>)
    requires |body| == |whole| && b + |data| <= |body| && body[..b] == whole[..b] && data == whole[b..b + |data|]
    requires Written(body, b, data, body')
    ensures |body'| == |body| && body'[..b + |data|] == whole[..b + |data|] == body[..b] + data
    ensures b + |data| == |body| ==> body' == whole
  {
    assert body'[..b + |data|] == body[..b] + data;
    assert whole[..b + |data|] == whole[..b] + whole[b..b + |data|];
    if b + |data| == |body| {
      assert body' == body'[..b + |data|] && whole == whole[..b + |data|];
    }
  }

  lemma HeaderSizeInBuffer(p: Packet, d: seq<Byte>, hread: nat)
    requires HeaderInProgress(p, d, hread)
    ensures WellFormed(p) && |d| == HEADER_BUFFER && FIXED_SIZE <= hread <= HeaderSize(p)
    ensures d[7] == HeaderSize(p) && d[..FIXED_SIZE] == FixedHeader(p)
  {
    assert d[..FIXED_SIZE] == d[..hread][..FIXED_SIZE] == Header(p)[..hread][..FIXED_SIZE] == FixedHeader(p);
    FieldsOf(p, d);
  }
}
