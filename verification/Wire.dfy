/**
 * The wire form of a message, section "casycom protocol" of docs/protocol.html:
 * a fixed header of 8 bytes, the padded header strings, and the padded body. The
 * form is self-delimiting, so a byte stream can be cut in only one way.
 */
module Wire {
  import opened Bytes

  /** A message as it goes over the wire; strings and body include their padding. */
  datatype Packet = Packet(extid: nat, fdoffset: nat, strings: seq<Byte>, body: seq<Byte>)

  const FIXED_SIZE := 8
  const MAX_MSG_HEADER_SIZE := 247
  /** `sizeof (ExtMsgHeaderBuf)`: the fixed header in the union aligns it to four bytes. */
  const HEADER_BUFFER := 248
  const NO_FD_IN_MESSAGE := 255

  /** What a well-formed peer sends, without a file descriptor. */
  predicate WellFormed(p: Packet) {
    && p.extid < 0x1_0000 && p.fdoffset == NO_FD_IN_MESSAGE
    && |p.strings| % 8 == 0 && 8 <= |p.strings| && HeaderSize(p) <= HEADER_BUFFER
    && |p.body| % 8 == 0 && |p.body| < Span(4)
  }

  function HeaderSize(p: Packet): nat {
    FIXED_SIZE + |p.strings|
  }

  function FixedHeader(p: Packet): (r: seq<Byte>)
    requires p.fdoffset < 256 && HeaderSize(p) < 256
    ensures |r| == FIXED_SIZE
  {
    LittleEndian(|p.body|, 4) + LittleEndian(p.extid, 2) + [p.fdoffset, HeaderSize(p)]
  }

  function Header(p: Packet): (r: seq<Byte>)
    requires WellFormed(p)
    ensures |r| == HeaderSize(p)
  {
    FixedHeader(p) + p.strings
  }

  function Encode(p: Packet): (r: seq<Byte>)
    requires WellFormed(p)
    ensures |r| == HeaderSize(p) + |p.body|
  {
    Header(p) + p.body
  }

  predicate AllWellFormed(ps: seq<Packet>) {
    forall p :: p in ps ==> WellFormed(p)
  }

  function EncodeQueue(ps: seq<Packet>): seq<Byte>
    requires AllWellFormed(ps)
  {
    if ps == [] then [] else Encode(ps[0]) + EncodeQueue(ps[1..])
  }

  // ------------------------------------------------------------- reading fields

  lemma FieldsOf(p: Packet, b: seq<Byte>)
    requires WellFormed(p) && |b| >= FIXED_SIZE && b[..FIXED_SIZE] == FixedHeader(p)
    ensures Value(b[0..4]) == |p.body| && Value(b[4..6]) == p.extid && b[6] == p.fdoffset && b[7] == HeaderSize(p)
  {
    var f := FixedHeader(p);
    assert b[0..4] == f[0..4] == LittleEndian(|p.body|, 4);
    assert b[4..6] == f[4..6] == LittleEndian(p.extid, 2);
    assert b[6] == f[6] && b[7] == f[7];
    ValueOfLittleEndian(|p.body|, 4);
    assert Span(2) == 0x1_0000 by { assert Span(0) == 1 && Span(1) == 0x100; }
    ValueOfLittleEndian(p.extid, 2);
  }

  /** The start of a stream says where its first message ends, and which message it is. */
  lemma Delimited(p: Packet, q: Packet, x: seq<Byte>, y: seq<Byte>)
    requires WellFormed(p) && WellFormed(q) && Encode(p) + x == Encode(q) + y
    ensures p == q && x == y
  {
    var s := Encode(p) + x;
    assert s[..8] == FixedHeader(p) && s[..8] == FixedHeader(q);
    FieldsOf(p, s);
    FieldsOf(q, s);
    var h := HeaderSize(p);
    var e := h + |p.body|;
    assert p.strings == s[8..h] == q.strings;
    assert p.body == s[h..e] == q.body;
    assert x == s[e..] == y;
  }

  lemma {:induction false} QueueConcat(a: seq<Packet>, b: seq<Packet>)
    requires AllWellFormed(a) && AllWellFormed(b)
    ensures AllWellFormed(a + b) && EncodeQueue(a + b) == EncodeQueue(a) + EncodeQueue(b)
    decreases |a|
  {
    if a == [] {
      assert a + b == b;
    } else {
      assert a[0] in a && forall p :: p in a[1..] ==> p in a;
      assert (a + b)[0] == a[0] && (a + b)[1..] == a[1..] + b;
      QueueConcat(a[1..], b);
    }
  }

  /** A stream can be cut into messages in one way only. */
  lemma {:induction false} UniqueQueue(a: seq<Packet>, b: seq<Packet>)
    requires AllWellFormed(a) && AllWellFormed(b) && EncodeQueue(a) == EncodeQueue(b)
    ensures a == b
    decreases |a|
  {
    QueueSize(a);
    QueueSize(b);
    if a != [] && b != [] {
      assert a[0] in a && b[0] in b;
      assert AllWellFormed(a[1..]) && AllWellFormed(b[1..]);
      Delimited(a[0], b[0], EncodeQueue(a[1..]), EncodeQueue(b[1..]));
      UniqueQueue(a[1..], b[1..]);
    }
  }

  lemma QueueSize(ps: seq<Packet>)
    requires AllWellFormed(ps)
    ensures ps != [] ==> |EncodeQueue(ps)| > 0
  {
    assert ps != [] ==> ps[0] in ps;
  }

  lemma QueueAt(ps: seq<Packet>, n: nat)
    requires AllWellFormed(ps) && n < |ps|
    ensures WellFormed(ps[n]) && AllWellFormed(ps[..n]) && AllWellFormed(ps[n + 1..])
    ensures EncodeQueue(ps) == EncodeQueue(ps[..n]) + (Encode(ps[n]) + EncodeQueue(ps[n + 1..]))
  {
    hide WellFormed, Encode;
    var tail := ps[n..];
    assert ps[n] in ps && AllWellFormed(tail);
    assert ps == ps[..n] + tail && tail[0] == ps[n] && tail[1..] == ps[n + 1..];
    QueueConcat(ps[..n], tail);
  }

  // ------------------------------------------------------------------- progress

  /** `stream` holds `n` messages of `sent` and then `part`, a proper piece of the next. */
  ghost predicate Cut(sent: seq<Packet>, stream: seq<Byte>, n: nat, part: seq<Byte>) {
    && AllWellFormed(sent) && n <= |sent|
    && AllWellFormed(sent[..n])
    && stream == EncodeQueue(sent[..n]) + part
    && (if n < |sent| then |part| < |Encode(sent[n])| && part <= Encode(sent[n]) else part == [])
  }

  /** However the stream arrived, the number of whole messages in it and the piece behind them are the same. */
  lemma CutIsUnique(sent: seq<Packet>, stream: seq<Byte>, n: nat, part: seq<Byte>, m: nat, rest: seq<Byte>)
    requires Cut(sent, stream, n, part) && Cut(sent, stream, m, rest)
    ensures n == m && part == rest
  {
    if n < m {
      CutIsShorter(sent, stream, n, part, m, rest);
    } else if m < n {
      CutIsShorter(sent, stream, m, rest, n, part);
    }
  }

  lemma CutIsShorter(sent: seq<Packet>, stream: seq<Byte>, n: nat, part: seq<Byte>, m: nat, rest: seq<Byte>)
    requires Cut(sent, stream, n, part) && m <= |sent| && AllWellFormed(sent[..m])
    requires stream == EncodeQueue(sent[..m]) + rest
    ensures m <= n
  {
    if n < m {
      QueueGrows(sent, n, m);
    }
  }

  lemma QueueGrows(sent: seq<Packet>, n: nat, m: nat)
    requires AllWellFormed(sent) && n < m <= |sent|
    ensures AllWellFormed(sent[..n]) && AllWellFormed(sent[..m])
    ensures |EncodeQueue(sent[..n])| + |Encode(sent[n])| <= |EncodeQueue(sent[..m])|
  {
    assert sent[n] in sent && AllWellFormed([sent[n]]) && AllWellFormed(sent[n + 1..m]);
    assert sent[..m] == sent[..n] + ([sent[n]] + sent[n + 1..m]);
    assert ([sent[n]] + sent[n + 1..m])[1..] == sent[n + 1..m];
    QueueConcat(sent[..n], [sent[n]] + sent[n + 1..m]);
  }

  /** Finishing message `n`: the piece grows to the whole message and nothing of the next. */
  lemma CutAdvance(sent: seq<Packet>, stream: seq<Byte>, n: nat, part: seq<Byte>, more: seq<Byte>, rest: seq<Byte>)
    requires Cut(sent, stream, n, part) && n < |sent|
    requires part + more == Encode(sent[n])
    requires if n + 1 < |sent| then |rest| < |Encode(sent[n + 1])| && rest <= Encode(sent[n + 1]) else rest == []
    ensures Cut(sent, stream + more + rest, n + 1, rest)
  {
    assert sent[n] in sent;
    assert sent[..n + 1] == sent[..n] + [sent[n]];
    QueueConcat(sent[..n], [sent[n]]);
    assert [sent[n]][1..] == [];
    assert EncodeQueue([sent[n]]) == Encode(sent[n]);
    assert stream + more + rest == EncodeQueue(sent[..n]) + (part + more) + rest;
  }

  lemma CutExtend(sent: seq<Packet>, stream: seq<Byte>, n: nat, part: seq<Byte>, more: seq<Byte>)
    requires Cut(sent, stream, n, part) && n < |sent|
    requires |part + more| < |Encode(sent[n])| && part + more <= Encode(sent[n])
    ensures Cut(sent, stream + more, n, part + more)
  {
    assert stream + more == EncodeQueue(sent[..n]) + (part + more);
  }

  /** What can come next on a stream that stands at a piece of message `n`. */
  lemma CutNext(sent: seq<Packet>, stream: seq<Byte>, n: nat, part: seq<Byte>, data: seq<Byte>)
    requires Cut(sent, stream, n, part) && data != [] && stream + data <= EncodeQueue(sent)
    ensures n < |sent| && WellFormed(sent[n]) && part <= Encode(sent[n])
    ensures n + 1 < |sent| ==> WellFormed(sent[n + 1])
    ensures var want := Encode(sent[n])[|part|..];
            && (|data| <= |want| ==> data <= want)
            && (|data| > |want| ==> data[..|want|] == want && n + 1 < |sent|)
            && (|want| < |data| <= |want| + FIXED_SIZE ==> data[|want|..] <= Encode(sent[n + 1]))
  {
    hide Encode, EncodeQueue, AllWellFormed, WellFormed;
    if n == |sent| {
      NothingBehind(sent, stream, data);
    }
    QueueAt(sent, n);
    var want, rest := Encode(sent[n])[|part|..], EncodeQueue(sent[n + 1..]);
    PieceBehind(EncodeQueue(sent[..n]), part, Encode(sent[n]), rest, stream, data);
    if n + 1 < |sent| {
      QueueAt(sent, n + 1);
    }
    if |data| > |want| {
      FirstOfRest(sent, n, data[|want|..]);
    }
  }

  lemma NothingBehind(sent: seq<Packet>, stream: seq<Byte>, data: seq<Byte>)
    requires AllWellFormed(sent) && stream == EncodeQueue(sent[..|sent|]) + [] && stream + data <= EncodeQueue(sent)
    ensures data == []
  {
    assert sent[..|sent|] == sent;
  }

  lemma PieceBehind(front: seq<Byte>, part: seq<Byte>, whole: seq<Byte>, rest: seq<Byte>, stream: seq<Byte>,
                    data: seq<Byte>)
    requires part <= whole && stream == front + part && stream + data <= front + (whole + rest)
    ensures var want := whole[|part|..];
            && (|data| <= |want| ==> data <= want)
            && (|data| > |want| ==> data[..|want|] == want && data[|want|..] <= rest)
  {
    var all, want := front + (whole + rest), whole[|part|..];
    assert all == stream + (want + rest);
    assert data == (stream + data)[|stream|..] == all[|stream|..|stream| + |data|] == (want + rest)[..|data|];
  }

  lemma FirstOfRest(sent: seq<Packet>, n: nat, data: seq<Byte>)
    requires AllWellFormed(sent) && n < |sent| && AllWellFormed(sent[n + 1..])
    requires data != [] && data <= EncodeQueue(sent[n + 1..])
    ensures n + 1 < |sent| && WellFormed(sent[n + 1])
    ensures |data| <= FIXED_SIZE ==> data <= Encode(sent[n + 1])
  {
    if n + 1 < |sent| {
      assert sent[n + 1] in sent && sent[n + 1..][0] == sent[n + 1];
    }
  }
}
