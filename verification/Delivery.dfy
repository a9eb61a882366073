/**
 * A call from the writes of its values in one process to their reads in the other:
 * the header lookups, the validator and the readers, on a message as the reader
 * handed it on.
 */
module Deliveries {
  import opened Bytes
  import opened Signatures
  import opened Marshalling
  import opened Validator
  import opened ValueStreams
  import opened Wire
  import opened Headers
  import opened Writers
  import opened Readers

  lemma RecordHolds(queue: seq<Outgoing>, i: nat, c: Completed)
    requires AllSendable(queue) && i < |queue| && Recorded(Packets(queue), i, c)
    ensures Holds(c.hbuf, queue[i]) && Named(queue[i]) && c.packet == ToPacket(queue[i])
    ensures |c.hbuf| == HEADER_BUFFER && c.hbuf[7] <= HEADER_BUFFER
    ensures c.packet.body == Padded(queue[i].body, 8) && c.packet.extid == queue[i].extid
  {
    hide Ceilg;
    assert queue[i] in queue && (i + 1 < |queue| ==> queue[i + 1] in queue);
    var m := queue[i];
    CeilingOfBody(|Strings(m)|);
    if i + 1 < |queue| {
      CeilingOfBody(|Strings(queue[i + 1])|);
    }
    var pad := Zeros(Ceilg(|Strings(m)|, 8) - |Strings(m)|);
    assert c.hbuf[FIXED_SIZE..] == Strings(m) + (pad + Zeros(HEADER_BUFFER - HeaderSize(ToPacket(m))));
  }

  /** The tests before the lookups: the last header byte is a terminator, and the assert on the
      bytes read holds if and only if the header has at most 240 bytes without padding. */
  lemma RecordPasses(queue: seq<Outgoing>, i: nat, c: Completed)
    requires AllSendable(queue) && i < |queue| && Recorded(Packets(queue), i, c)
    ensures var read := FIXED_SIZE + |c.packet.strings|;
            && read <= |c.hbuf| && c.hbuf[read - 1] == 0
            && (LookupAssert(read) <==> FIXED_SIZE + |Strings(queue[i])| <= 240)
  {
    hide Ceilg, Recorded, AllSendable;
    RecordHolds(queue, i, c);
    RecordLast(c.hbuf, queue[i]);
    HeaderFits(queue[i]);
  }

  lemma RecordLast(d: seq<Byte>, m: Outgoing)
    requires Holds(d, m)
    ensures HeaderSize(ToPacket(m)) <= |d| && d[HeaderSize(ToPacket(m)) - 1] == 0
  {
    hide Ceilg;
    CeilingOfBody(|Strings(m)|);
    var s, last := Strings(m), HeaderSize(ToPacket(m)) - 1 - FIXED_SIZE;
    assert s[|s| - 1] == 0;
    assert d[FIXED_SIZE..][last] == 0;
  }

  function Letters(sig: seq<Byte>): (r: string)
    ensures |r| == |sig|
  {
    seq(|sig|, i requires 0 <= i < |sig| => sig[i] as char)
  }

  /** The interface is found and the body accepted with the sender's size and values; the method
      is found if and only if the header size in the buffer covers the strings of this message. */
  lemma CallArrives(queue: seq<Outgoing>, i: nat, c: Completed, all: seq<Interface>, x: Interface, r: Option<Interface>,
                    mi: nat, es: seq<Elem>, vs: seq<Val>)
    requires AllSendable(queue) && i < |queue| && Recorded(Packets(queue), i, c)
    requires FirstNamed(all, queue[i].iname, Some(x))
    requires FirstNamed(all, c.hbuf[FIXED_SIZE..StringEnd(c.hbuf, FIXED_SIZE)], r)
    requires DistinctMethods(x.methods) && mi < |x.methods| && x.methods[mi] == queue[i].mth
    requires SupportedSignature(es) && TypedAll(es, vs) && AlignedAll(es, vs, 0) && queue[i].body == EncodeAll(es, vs)
    ensures r == Some(x) && c.hbuf[7] <= |c.hbuf|
    ensures MethodIndex(c.hbuf, c.hbuf[7], x.methods)
         == if FIXED_SIZE + |Strings(queue[i])| <= c.hbuf[7] then Some(mi) else None
    ensures RecoveredSize(es, c.packet.body) == CheckAll(es, c.packet.body, 0) == Some(|queue[i].body|)
    ensures |c.packet.body| % 8 == 0 && DecodeAll(es, c.packet.body, 0) == vs && AllZeroFree(vs)
    ensures c.packet.extid == queue[i].extid
  {
    hide Recorded, AllSendable, Packets, MethodIndex, DecodeAll, EncodeAll, AlignedAll, TypedAll, SupportedSignature,
      RecoveredSize, CheckAll, FirstNamed, Holds, Named, AllZeroFree;
    RecordHolds(queue, i, c);
    InterfaceRoundTrip(c.hbuf, queue[i], all, x, r);
    MethodRoundTrip(c.hbuf, queue[i], c.hbuf[7], x.methods, mi);
    SizeRecovery(es, vs);
    WrittenIsRead(es, vs);
  }

  /** A call of the sender: the receiver finds its interface under the name and has the method, and the
      stub wrote its body. */
  ghost predicate Callable(m: Outgoing, all: seq<Interface>, x: Interface, mi: nat, es: seq<Elem>, vs: seq<Val>) {
    && FirstNamed(all, m.iname, Some(x))
    && DistinctMethods(x.methods) && mi < |x.methods| && x.methods[mi] == m.mth && Letters(m.mth.sig) == PrintAll(es)
    && SupportedSignature(es) && TypedAll(es, vs) && AlignedAll(es, vs, 0) && m.body == EncodeAll(es, vs)
    && |x.methods| < METHOD_INVALID
  }

  /** What the receiver does with a message handed on: the three checks of `Extern_validate_message` and then the
      reads of the stub. The call comes out as it went in if and only if the header size that was read covers it. */
  method TakeCall(c: Completed, tables: seq<seq<Interface>>, default: Option<Interface>, es: seq<Elem>,
                  ghost queue: seq<Outgoing>, ghost i: nat, ghost x: Interface, ghost mi: nat, ghost vs: seq<Val>)
    returns (r: Option<(Interface, nat, seq<Val>)>)
    requires AllSendable(queue) && i < |queue| && Recorded(Packets(queue), i, c)
    requires Callable(queue[i], Registered(tables, default), x, mi, es, vs)
    requires FIXED_SIZE + |Strings(queue[i])| <= 240
    ensures |c.hbuf| == HEADER_BUFFER
    ensures r == if FIXED_SIZE + |Strings(queue[i])| <= c.hbuf[7] then Some((x, mi, vs)) else None
  {
    hide Recorded, AllSendable, Packets, MethodIndex, DecodeAll, EncodeAll, AlignedAll, TypedAll, SupportedSignature,
      RecoveredSize, CheckAll, FirstNamed, Holds, Named, AllZeroFree, StringEnd, LookupAssert, Registered,
      DistinctMethods;
    RecordHolds(queue, i, c);
    RecordPasses(queue, i, c);
    var iface := LookupInterface(c.hbuf, FIXED_SIZE + |c.packet.strings|, tables, default);
    CallArrives(queue, i, c, Registered(tables, default), x, iface, mi, es, vs);
    var m := LookupMethod(c.hbuf, c.hbuf[7], iface.value);
    if m == METHOD_INVALID {
      return None;
    }
    var size := RecoverSize(Letters(iface.value.methods[m].sig), c.packet.body, es);
    var values := ReadMessage(c.packet.body, size.value, es);
    return Some((iface.value, m, values.value));
  }

  /** The size of the message itself always covers its strings. */
  lemma OwnSizeCovers(m: Outgoing)
    requires Sendable(m)
    ensures FIXED_SIZE + |Strings(m)| <= HeaderSize(ToPacket(m)) < FIXED_SIZE + |Strings(m)| + 8
  {
    hide Ceilg;
    CeilingOfBody(|Strings(m)|);
  }

  lemma QueueSizes(queue: seq<Outgoing>, i: nat, c: Completed)
    requires AllSendable(queue) && i < |queue| && Recorded(Packets(queue), i, c)
    requires i + 1 < |queue| ==> FIXED_SIZE + |Strings(queue[i])| <= HeaderSize(ToPacket(queue[i + 1]))
    ensures |c.hbuf| == HEADER_BUFFER && FIXED_SIZE + |Strings(queue[i])| <= c.hbuf[7]
  {
    hide Sendable, ToPacket;
    assert queue[i] in queue;
    OwnSizeCovers(queue[i]);
  }

  /** When no header of the queue is shorter than the one before it needs, every method is found. */
  lemma MethodsFound(queue: seq<Outgoing>, i: nat, c: Completed, methods: seq<Method>, mi: nat)
    requires AllSendable(queue) && i < |queue| && Recorded(Packets(queue), i, c)
    requires DistinctMethods(methods) && mi < |methods| && methods[mi] == queue[i].mth
    requires i + 1 < |queue| ==> FIXED_SIZE + |Strings(queue[i])| <= HeaderSize(ToPacket(queue[i + 1]))
    ensures c.hbuf[7] <= |c.hbuf| && MethodIndex(c.hbuf, c.hbuf[7], methods) == Some(mi)
  {
    hide AllSendable, MethodIndex, Holds, Named, DistinctMethods;
    QueueSizes(queue, i, c);
    RecordHolds(queue, i, c);
    MethodRoundTrip(c.hbuf, queue[i], c.hbuf[7], methods, mi);
  }

  /** The record of a message behind whose end the fixed header of `next` was read. */
  function ReadOver(m: Outgoing, next: Outgoing): Completed
    requires Sendable(m) && Sendable(next)
  {
    SendableIsWellFormed(m);
    SendableIsWellFormed(next);
    var p := ToPacket(m);
    Completed(p, FixedHeader(ToPacket(next)) + (p.strings + Zeros(HEADER_BUFFER - HeaderSize(p))))
  }

  /** It is a record the reader can hand on, and no method is found in it when the next header is too short. */
  lemma ShorterHeaderBehind(m: Outgoing, next: Outgoing, methods: seq<Method>, mi: nat)
    requires Sendable(m) && Sendable(next) && HeaderSize(ToPacket(next)) < FIXED_SIZE + |Strings(m)|
    requires DistinctMethods(methods) && mi < |methods| && methods[mi] == m.mth
    ensures var c := ReadOver(m, next);
            && AllSendable([m, next]) && Recorded(Packets([m, next]), 0, c)
            && c.hbuf[7] <= |c.hbuf| && MethodIndex(c.hbuf, c.hbuf[7], methods) == None
  {
    hide MethodIndex, Holds, Named, DistinctMethods, Sendable, ToPacket, FixedHeader;
    SendableIsWellFormed(m);
    SendableIsWellFormed(next);
    var c := ReadOver(m, next);
    RecordOver(m, next, c);
    RecordHolds([m, next], 0, c);
    MethodRoundTrip(c.hbuf, m, c.hbuf[7], methods, mi);
  }

  lemma RecordOver(m: Outgoing, next: Outgoing, c: Completed)
    requires Sendable(m) && Sendable(next) && c == ReadOver(m, next)
    ensures AllSendable([m, next]) && Recorded(Packets([m, next]), 0, c)
    ensures c.hbuf[7] == HeaderSize(ToPacket(next))
  {
    hide Sendable;
    SendableIsWellFormed(m);
    SendableIsWellFormed(next);
    var p := ToPacket(m);
    assert c.hbuf[FIXED_SIZE..] == p.strings + Zeros(HEADER_BUFFER - HeaderSize(p));
  }

  /** The names of two such messages. */
  lemma ShorterHeaderExample()
    ensures var mth := Method([112], []);
            var m := Outgoing(1, NO_FD_IN_MESSAGE, [65, 65, 65, 65, 65, 65, 65, 65, 65, 65], mth, []);
            var next := Outgoing(1, NO_FD_IN_MESSAGE, [66], mth, []);
            Sendable(m) && Sendable(next) && HeaderSize(ToPacket(next)) < FIXED_SIZE + |Strings(m)|
  {
    assert Span(4) > 0 && Ceilg(0, 8) == 0;
  }

  /** A message that the sender lets pass and whose header fails the assert of the receiver's lookup. */
  lemma LongHeaderExample()
    ensures var m := Outgoing(1, NO_FD_IN_MESSAGE, seq(229, i => 65), Method([112], []), []);
            && Sendable(m) && FIXED_SIZE + |Strings(m)| == 241 && !LookupAssert(HeaderSize(ToPacket(m)))
  {
    var m := Outgoing(1, NO_FD_IN_MESSAGE, seq(229, i => 65), Method([112], []), []);
    hide Ceilg, Span, ToPacket;
    EmptyBodyFits();
    HeaderFits(m);
  }

  lemma EmptyBodyFits()
    ensures |Padded([], 8)| < Span(4)
  {
    assert Ceilg(0, 8) == 0;
  }
}
