/**
 * The variable part of a message header: the names of the interface and the
 * method and the signature, as the sender prints them and the receiver looks them up.
 */
module Headers {
  import opened Bytes
  import opened Signatures
  import opened Wire

  /** One of the strings of an interface's method list: name and signature, each with its terminator. */
  datatype Method = Method(name: seq<Byte>, sig: seq<Byte>)

  datatype Interface = Interface(name: seq<Byte>, methods: seq<Method>)

  /** A message in the outgoing queue, with the strings of its interface and method. */
  datatype Outgoing = Outgoing(extid: nat, fdoffset: nat, iname: seq<Byte>, mth: Method, body: seq<Byte>)

  predicate CString(s: seq<Byte>) {
    0 !in s
  }

  function MethodBytes(m: Method): (r: seq<Byte>)
    ensures |r| == |m.name| + |m.sig| + 2
  {
    m.name + [0] + m.sig + [0]
  }

  function Strings(m: Outgoing): (r: seq<Byte>)
    ensures |r| == |m.iname| + |m.mth.name| + |m.mth.sig| + 3
  {
    m.iname + [0] + MethodBytes(m.mth)
  }

  function ToPacket(m: Outgoing): Packet {
    Packet(m.extid, m.fdoffset, Padded(Strings(m), 8), Padded(m.body, 8))
  }

  predicate Named(m: Outgoing) {
    CString(m.iname) && CString(m.mth.name) && CString(m.mth.sig)
  }

  /** A message that the sender can export without a descriptor. */
  predicate Sendable(m: Outgoing) {
    && Named(m) && m.extid < 0x1_0000 && m.fdoffset == NO_FD_IN_MESSAGE
    && FIXED_SIZE + |Strings(m)| <= MAX_MSG_HEADER_SIZE && |Padded(m.body, 8)| < Span(4)
  }

  lemma SendableIsWellFormed(m: Outgoing)
    requires Sendable(m)
    ensures WellFormed(ToPacket(m))
  {
    hide Ceilg;
    CeilingOfBody(|Strings(m)|);
  }

  /** The assert of the interface lookup, on the number of header bytes read. */
  predicate LookupAssert(inHRead: nat) {
    FIXED_SIZE + 5 <= inHRead < MAX_MSG_HEADER_SIZE
  }

  /** The padded header of every message that passes the sender's assert fits the buffers of both sides and
      the one-byte size, but the lookup's assert holds if and only if it has at most 240 bytes without padding. */
  lemma HeaderFits(m: Outgoing)
    requires FIXED_SIZE + |Strings(m)| <= MAX_MSG_HEADER_SIZE
    ensures HeaderSize(ToPacket(m)) <= HEADER_BUFFER < 256
    ensures LookupAssert(HeaderSize(ToPacket(m))) <==> FIXED_SIZE + |Strings(m)| <= 240
    ensures !LookupAssert(HeaderSize(ToPacket(m))) ==> HeaderSize(ToPacket(m)) == HEADER_BUFFER
  {
    hide Ceilg;
    CeilingOfBody(|Strings(m)|);
  }

  // ------------------------------------------------------------------- printing

  /** `stpcpy`: copies a string with its terminator and returns the place of the terminator. */
  method StringCopy(buf: array<Byte>, at: nat, s: seq<Byte>) returns (end: nat)
    requires at + |s| < buf.Length
    modifies buf
    ensures end == at + |s|
    ensures Written(old(buf[..]), at, s + [0], buf[..])
  {
    ghost var before := buf[..];
    end := at;
    while end < at + |s|
      invariant at <= end <= at + |s|
      invariant forall k :: 0 <= k < buf.Length ==> buf[k] == if at <= k < end then s[k - at] else before[k]
    {
      buf[end] := s[end - at];
      end := end + 1;
    }
    buf[end] := 0;
    assert buf[..] == before[..at] + (s + [0]) + before[at + |s + [0]|..];
  }

  /** Builds the header of a message in a cleared buffer; it is the same at every retry. */
  method MarshalHeader(m: Outgoing) returns (hbuf: array<Byte>, hsz: nat)
    requires Sendable(m)
    ensures fresh(hbuf) && hbuf.Length == HEADER_BUFFER
    ensures WellFormed(ToPacket(m)) && hsz == HeaderSize(ToPacket(m)) <= hbuf.Length
    ensures hbuf[..hsz] == Header(ToPacket(m))
    ensures Value(hbuf[0..4]) == Ceilg(|m.body|, 8) && Value(hbuf[4..6]) == m.extid
    ensures hbuf[6] == m.fdoffset && hbuf[7] == hsz
  {
    SendableIsWellFormed(m);
    hide WellFormed, Ceilg, Written, LittleEndian, FixedHeader, Header, MethodBytes;
    hbuf := new Byte[HEADER_BUFFER](i => 0);
    ghost var b0 := hbuf[..];
    assert b0 == Zeros(HEADER_BUFFER);
    var phend := StringCopy(hbuf, FIXED_SIZE, m.iname);
    ghost var b1 := hbuf[..];
    phend := StringCopy(hbuf, phend + 1, m.mth.name);
    ghost var b2 := hbuf[..];
    phend := StringCopy(hbuf, phend + 1, m.mth.sig);
    phend := phend + 1;
    WrittenThrice(b0, FIXED_SIZE, m.iname + [0], b1, m.mth.name + [0], b2, m.mth.sig + [0], hbuf[..]);
    CopiedStrings(m, hbuf[..]);
    hsz := FIXED_SIZE + Ceilg(phend - FIXED_SIZE, 8);
    var sz := Ceilg(|m.body|, 8);
    var fixed := LittleEndian(sz, 4) + LittleEndian(m.extid, 2) + [m.fdoffset, hsz];
    FixedFields(m, hsz);
    ghost var b3 := hbuf[..];
    forall i | 0 <= i < FIXED_SIZE {
      hbuf[i] := fixed[i];
    }
    assert hbuf[..] == fixed + b3[FIXED_SIZE..];
    HeaderBytes(m, b3, hbuf[..], fixed);
    FieldsOf(ToPacket(m), hbuf[..]);
  }

  lemma FixedFields(m: Outgoing, hsz: nat)
    requires m.fdoffset < 256 && hsz < 256 && hsz == FIXED_SIZE + Ceilg(|Strings(m)|, 8)
    ensures LittleEndian(Ceilg(|m.body|, 8), 4) + LittleEndian(m.extid, 2) + [m.fdoffset, hsz]
         == FixedHeader(ToPacket(m))
  {
  }

  lemma CopiedStrings(m: Outgoing, d: seq<Byte>)
    requires FIXED_SIZE + |Strings(m)| <= MAX_MSG_HEADER_SIZE
    requires Written(Zeros(HEADER_BUFFER), FIXED_SIZE, m.iname + [0] + (m.mth.name + [0]) + (m.mth.sig + [0]), d)
    ensures |d| == HEADER_BUFFER
    ensures d[FIXED_SIZE..] == Strings(m) + Zeros(HEADER_BUFFER - FIXED_SIZE - |Strings(m)|)
  {
    assert m.iname + [0] + (m.mth.name + [0]) + (m.mth.sig + [0]) == Strings(m);
  }

  lemma HeaderBytes(m: Outgoing, b3: seq<Byte>, d: seq<Byte>, fixed: seq<Byte>)
    requires Sendable(m) && WellFormed(ToPacket(m))
    requires |b3| == HEADER_BUFFER && d == fixed + b3[FIXED_SIZE..]
    requires b3[FIXED_SIZE..] == Strings(m) + Zeros(HEADER_BUFFER - FIXED_SIZE - |Strings(m)|)
    requires fixed == FixedHeader(ToPacket(m))
    ensures HeaderSize(ToPacket(m)) <= |d| && d[..HeaderSize(ToPacket(m))] == Header(ToPacket(m))
  {
    hide Ceilg;
    CeilingOfBody(|Strings(m)|);
    var hsz := HeaderSize(ToPacket(m));
    assert d[..hsz] == fixed + (Strings(m) + Zeros(hsz - FIXED_SIZE - |Strings(m)|));
  }

  // -------------------------------------------------------------------- parsing

  lemma StringEndsAt(d: seq<Byte>, i: nat, s: seq<Byte>)
    requires At(d, i, s + [0]) && CString(s)
    ensures i + |s| < |d| && d[i..i + |s|] == s && StringEnd(d, i) == i + |s|
  {
    var t := s + [0];
    AtBytes(d, i, t);
    forall k | i <= k <= i + |s|
      ensures d[k] == 0 <==> k == i + |s|
    {
      assert d[k] == d[i..i + |t|][k - i] == t[k - i];
      assert k < i + |s| ==> t[k - i] == s[k - i] && s[k - i] in s;
    }
    assert d[i..i + |s|] == d[i..i + |t|][..|s|] == s;
    assert d[i + |s|] == 0;
  }

  /** The interfaces that can be found by name, in the order of the search: the tables of the
      registered factories, then that of the default factory. */
  function Registered(tables: seq<seq<Interface>>, default: Option<Interface>): seq<Interface> {
    if tables == [] then (if default.Some? then [default.value] else [])
    else tables[0] + Registered(tables[1..], default)
  }

  ghost predicate FirstNamed(all: seq<Interface>, iname: seq<Byte>, r: Option<Interface>) {
    match r
    case None => forall x :: x in all ==> x.name != iname
    case Some(x) => x.name == iname &&
                    exists k :: 0 <= k < |all| && all[k] == x && forall j :: 0 <= j < k ==> all[j].name != iname
  }

  /** `casycom_interface_by_name`. */
  method InterfaceByName(tables: seq<seq<Interface>>, default: Option<Interface>, iname: seq<Byte>)
    returns (r: Option<Interface>)
    ensures FirstNamed(Registered(tables, default), iname, r)
  {
    RegisteredPrefix(tables, default, 0);
    for i := 0 to |tables|
      invariant forall k :: 0 <= k < |Registered(tables[..i], None)| ==> Registered(tables[..i], None)[k].name != iname
    {
      RegisteredPrefix(tables, default, i);
      RegisteredPrefix(tables, default, i + 1);
      ghost var before := Registered(tables[..i], None);
      for di := 0 to |tables[i]|
        invariant forall k :: 0 <= k < di ==> tables[i][k].name != iname
      {
        if tables[i][di].name == iname {
          assert Registered(tables, default)[|before| + di] == tables[i][di];
          return Some(tables[i][di]);
        }
      }
    }
    RegisteredPrefix(tables, default, |tables|);
    if default.Some? && default.value.name == iname {
      assert Registered(tables, default)[|Registered(tables[..|tables|], None)|] == default.value;
      return default;
    }
    return None;
  }

  /** The first `i` tables come first, then table `i`; behind all tables comes the default. */
  lemma {:induction false} RegisteredPrefix(tables: seq<seq<Interface>>, default: Option<Interface>, i: nat)
    requires i <= |tables|
    ensures var all, some := Registered(tables, default), Registered(tables[..i], None);
            && |some| <= |all| && all[..|some|] == some
            && (i < |tables| ==> Registered(tables[..i + 1], None) == some + tables[i])
            && (i < |tables| ==> some + tables[i] <= all)
            && (i == |tables| ==> all == some + if default.Some? then [default.value] else [])
    decreases |tables|
  {
    if tables != [] && i > 0 {
      RegisteredPrefix(tables[1..], default, i - 1);
      assert tables[..i][1..] == tables[1..][..i - 1];
      if i < |tables| {
        assert tables[..i + 1][1..] == tables[1..][..i];
      }
    } else if tables != [] {
      assert tables[..1][1..] == [];
      assert tables[..1][0] + Registered([], None) == tables[0];
    }
  }

  /** `Extern_lookup_in_msg_interface`, on the header buffer with `inHRead` bytes read. */
  method LookupInterface(d: seq<Byte>, inHRead: nat, tables: seq<seq<Interface>>, default: Option<Interface>)
    returns (r: Option<Interface>)
    requires |d| == HEADER_BUFFER && LookupAssert(inHRead)
    ensures d[inHRead - 1] != 0 ==> r == None
    ensures d[inHRead - 1] == 0 ==>
              FirstNamed(Registered(tables, default), d[FIXED_SIZE..StringEnd(d, FIXED_SIZE)], r)
  {
    if d[inHRead - 1] != 0 {
      return None;
    }
    var n := StringLength(d, FIXED_SIZE);
    r := InterfaceByName(tables, default, d[FIXED_SIZE..FIXED_SIZE + n]);
  }

  const METHOD_INVALID := 0xFFFF_FFFE

  /** Where the name of the method begins and its signature ends in the buffer, if that is before `hend`. */
  function MethodAt(d: seq<Byte>, hend: nat): (r: Option<(nat, nat)>)
    requires FIXED_SIZE <= |d| && hend <= |d|
    ensures r.Some? ==> r.value.0 <= r.value.1 <= hend
  {
    var mname := StringEnd(d, FIXED_SIZE) + 1;
    if mname >= hend then None
    else
      var msig := StringEnd(d, mname) + 1;
      if msig >= hend then None
      else
        var mend := StringEnd(d, msig) + 1;
        if mend > hend then None else Some((mname, mend))
  }

  function FindMethod(methods: seq<Method>, bytes: seq<Byte>, from: nat): (r: Option<nat>)
    requires from <= |methods|
    ensures r.Some? ==> from <= r.value < |methods| && MethodBytes(methods[r.value]) == bytes
    ensures r.Some? ==> forall k :: from <= k < r.value ==> MethodBytes(methods[k]) != bytes
    ensures r.None? ==> forall k :: from <= k < |methods| ==> MethodBytes(methods[k]) != bytes
    decreases |methods| - from
  {
    if from == |methods| then None
    else if MethodBytes(methods[from]) == bytes then Some(from)
    else FindMethod(methods, bytes, from + 1)
  }

  /** The index of the method that the header in `d` names, when `hsz` is taken for the size of the header. */
  function MethodIndex(d: seq<Byte>, hsz: nat, methods: seq<Method>): Option<nat>
    requires FIXED_SIZE <= |d| && hsz <= |d|
  {
    match MethodAt(d, hsz)
    case None => None
    case Some((b, e)) => FindMethod(methods, d[b..e], 0)
  }

  /** `Extern_lookup_in_msg_method`: compares name and signature at once with each method of the
      interface. `hsz` is the header size found in the buffer at the time of the lookup. */
  method LookupMethod(d: seq<Byte>, hsz: nat, iface: Interface) returns (r: nat)
    requires |d| == HEADER_BUFFER && hsz <= HEADER_BUFFER
    ensures r == match MethodIndex(d, hsz, iface.methods) case None => METHOD_INVALID case Some(i) => i
  {
    hide MethodBytes, StringEnd;
    var hend := hsz;
    var n := StringLength(d, FIXED_SIZE);
    var mname := FIXED_SIZE + n + 1;
    if mname >= hend {
      return METHOD_INVALID;
    }
    n := StringLength(d, mname);
    var msig := mname + n + 1;
    if msig >= hend {
      return METHOD_INVALID;
    }
    n := StringLength(d, msig);
    var mend := msig + n + 1;
    if mend > hend {
      return METHOD_INVALID;
    }
    var mi := 0;
    while mi < |iface.methods|
      invariant mi <= |iface.methods|
      invariant FindMethod(iface.methods, d[mname..mend], 0) == FindMethod(iface.methods, d[mname..mend], mi)
    {
      var m := iface.methods[mi];
      var msz := |m.name| + |m.sig| + 2;
      if mend - mname == msz && MethodBytes(m) == d[mname..mend] {
        return mi;
      }
      mi := mi + 1;
    }
    return METHOD_INVALID;
  }

  // ---------------------------------------------------------------- round trip

  lemma MethodBytesAreUnique(a: Method, b: Method)
    requires CString(a.name) && CString(a.sig) && CString(b.name) && CString(b.sig)
    requires MethodBytes(a) == MethodBytes(b)
    ensures a == b
  {
    var x := MethodBytes(a);
    assert x[0..] == x;
    MethodStrings(x, 0, a);
    MethodStrings(x, 0, b);
    hide MethodBytes, StringEnd, CString;
    StringEndsAt(x, 0, a.name);
    StringEndsAt(x, 0, b.name);
    StringEndsAt(x, |a.name| + 1, a.sig);
    StringEndsAt(x, |b.name| + 1, b.sig);
  }

  /** The strings of `m` stand in the buffer and zeros behind them. */
  ghost predicate Holds(d: seq<Byte>, m: Outgoing) {
    && |d| == HEADER_BUFFER && FIXED_SIZE + |Strings(m)| <= MAX_MSG_HEADER_SIZE
    && d[FIXED_SIZE..] == Strings(m) + Zeros(HEADER_BUFFER - FIXED_SIZE - |Strings(m)|)
  }

  /** The name and the signature of a method that stands in the buffer, each with its terminator. */
  lemma MethodStrings(d: seq<Byte>, at: nat, mth: Method)
    requires At(d, at, MethodBytes(mth))
    ensures At(d, at, mth.name + [0]) && At(d, at + |mth.name| + 1, mth.sig + [0])
  {
    hide At;
    assert MethodBytes(mth) == mth.name + [0] + (mth.sig + [0]);
    AtSplit(d, at, mth.name + [0], mth.sig + [0]);
  }

  lemma HeldStrings(d: seq<Byte>, m: Outgoing)
    requires Holds(d, m)
    ensures FIXED_SIZE + |Strings(m)| <= |d|
    ensures At(d, FIXED_SIZE, m.iname + [0]) && At(d, FIXED_SIZE + |m.iname| + 1, MethodBytes(m.mth))
  {
    assert d[FIXED_SIZE..FIXED_SIZE + |Strings(m)|] == d[FIXED_SIZE..][..|Strings(m)|] == Strings(m);
    AtSplit(d, FIXED_SIZE, m.iname + [0], MethodBytes(m.mth));
  }

  lemma StringsInPlace(d: seq<Byte>, m: Outgoing)
    requires Holds(d, m) && Named(m)
    ensures var mname := FIXED_SIZE + |m.iname| + 1;
            var msig := mname + |m.mth.name| + 1;
            && StringEnd(d, FIXED_SIZE) == mname - 1 && d[FIXED_SIZE..mname - 1] == m.iname
            && StringEnd(d, mname) == msig - 1
            && StringEnd(d, msig) == msig + |m.mth.sig|
            && d[mname..FIXED_SIZE + |Strings(m)|] == MethodBytes(m.mth)
  {
    HeldStrings(d, m);
    hide Holds, StringEnd, MethodBytes, CString, At;
    var mname := FIXED_SIZE + |m.iname| + 1;
    MethodStrings(d, mname, m.mth);
    AtBytes(d, mname, MethodBytes(m.mth));
    StringEndsAt(d, FIXED_SIZE, m.iname);
    StringEndsAt(d, mname, m.mth.name);
    StringEndsAt(d, mname + |m.mth.name| + 1, m.mth.sig);
  }

  predicate DistinctMethods(methods: seq<Method>) {
    && (forall k :: 0 <= k < |methods| ==> CString(methods[k].name) && CString(methods[k].sig))
    && forall j, k :: 0 <= j < k < |methods| ==> methods[j] != methods[k]
  }

  /** The receiver finds the index of the method that the sender meant if and only if the header size
      in its buffer covers the strings. That size is the message's own unless the fixed header of
      the next message has already been read over it. */
  lemma MethodRoundTrip(d: seq<Byte>, m: Outgoing, hsz: nat, methods: seq<Method>, mi: nat)
    requires Holds(d, m) && Named(m) && hsz <= HEADER_BUFFER
    requires DistinctMethods(methods) && mi < |methods| && methods[mi] == m.mth
    ensures MethodIndex(d, hsz, methods) == if FIXED_SIZE + |Strings(m)| <= hsz then Some(mi) else None
  {
    StringsInPlace(d, m);
    if FIXED_SIZE + |Strings(m)| <= hsz {
      var r := FindMethod(methods, MethodBytes(m.mth), 0);
      if r.Some? && r.value != mi {
        MethodBytesAreUnique(methods[r.value], methods[mi]);
      }
    }
  }

  /** A method the interface does not have is not found, whatever size is in the buffer. */
  lemma UnknownMethod(d: seq<Byte>, m: Outgoing, hsz: nat, methods: seq<Method>)
    requires Holds(d, m) && Named(m) && hsz <= HEADER_BUFFER
    requires DistinctMethods(methods) && m.mth !in methods
    ensures MethodIndex(d, hsz, methods) == None
  {
    StringsInPlace(d, m);
    var r := FindMethod(methods, MethodBytes(m.mth), 0);
    if r.Some? {
      MethodBytesAreUnique(methods[r.value], m.mth);
    }
  }

  /** The receiver finds the interface that the sender meant if and only if that is the first of its name. */
  lemma InterfaceRoundTrip(d: seq<Byte>, m: Outgoing, all: seq<Interface>, x: Interface, r: Option<Interface>)
    requires Holds(d, m) && Named(m)
    requires FirstNamed(all, d[FIXED_SIZE..StringEnd(d, FIXED_SIZE)], r)
    ensures r == Some(x) <==> FirstNamed(all, m.iname, Some(x))
  {
    StringsInPlace(d, m);
    if FirstNamed(all, m.iname, Some(x)) {
      FirstIsUnique(all, m.iname, Some(x), r);
    }
  }

  lemma FirstIsUnique(all: seq<Interface>, iname: seq<Byte>, a: Option<Interface>, b: Option<Interface>)
    requires FirstNamed(all, iname, a) && FirstNamed(all, iname, b)
    ensures a == b
  {
    if a.Some? && b.Some? {
      var j :| 0 <= j < |all| && all[j] == a.value && forall i :: 0 <= i < j ==> all[i].name != iname;
      var k :| 0 <= k < |all| && all[k] == b.value && forall i :: 0 <= i < k ==> all[i].name != iname;
      assert !(j < k) && !(k < j);
    }
  }

  /** So it does when a name stands for one interface, in however many tables that is. */
  lemma NamesSuffice(all: seq<Interface>, x: Interface)
    requires x in all
    requires forall j, k :: 0 <= j < |all| && 0 <= k < |all| && all[j].name == all[k].name ==> all[j] == all[k]
    ensures FirstNamed(all, x.name, Some(x))
  {
    var k :| 0 <= k < |all| && all[k] == x;
    FirstAmong(all, x, k);
  }

  lemma FirstAmong(all: seq<Interface>, x: Interface, k: nat)
    requires k < |all| && all[k] == x
    requires forall j :: 0 <= j < |all| && all[j].name == x.name ==> all[j] == x
    ensures FirstNamed(all, x.name, Some(x))
  {
    if j :| 0 <= j < k && all[j].name == x.name {
      FirstAmong(all, x, j);
    } else {
      assert forall j :: 0 <= j < k ==> all[j].name != x.name;
    }
  }
}
