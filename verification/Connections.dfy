/**
 * The connection table of an `Extern` (xcom.c): which relay object stands for
 * which external id, how ids are minted for outgoing messages, and what an incoming
 * message does to the table.
 */
module Connections {
  import opened Links

  const EXTID_COM: Extid := 0
  const CLIENT_BASE := 0
  const OID_LAST: Oid := 31999
  const CLIENT_LAST := 31999
  const SERVER_BASE := 32000
  const SERVER_LAST := 63999

  type Extid = n: int | 0 <= n < 0x1_0000

  datatype Conn = Conn(oid: Oid, extid: Extid)

  /** One end of a connection: its `Extern` object, its table, and the objects that
      its `Extern` holds a proxy to. */
  datatype Side = Side(oid: Oid, client: bool, conns: seq<Conn>, held: set<Oid>)

  datatype Verdict = ToExtern | Ignored | Refused | Reached(oid: Oid)

  /** The extid for messages through the relay `oid`: a 16-bit sum. */
  function Minted(client: bool, oid: Oid): Extid {
    (oid + if client then CLIENT_BASE else SERVER_BASE) % 0x1_0000
  }

  /** The index of the first connection with this extid, or the size of the table. */
  function ByExtid(conns: seq<Conn>, extid: Extid): (k: nat)
    ensures k <= |conns| && (k < |conns| ==> conns[k].extid == extid)
    ensures forall i :: 0 <= i < k ==> conns[i].extid != extid
  {
    if conns == [] || conns[0].extid == extid then 0 else 1 + ByExtid(conns[1..], extid)
  }

  function ByOid(conns: seq<Conn>, oid: Oid): (k: nat)
    ensures k <= |conns| && (k < |conns| ==> conns[k].oid == oid)
    ensures forall i :: 0 <= i < k ==> conns[i].oid != oid
  {
    if conns == [] || conns[0].oid == oid then 0 else 1 + ByOid(conns[1..], oid)
  }

  // ------------------------------------------------------------------ operations

  /** The connection that a message to `dest` goes through; a new one is added at the end. */
  function Connected(s: Side, dest: Oid): Side {
    if ByOid(s.conns, dest) < |s.conns| then s
    else s.(conns := s.conns + [Conn(dest, Minted(s.client, dest))], held := s.held + {dest})
  }

  function Removed(conns: seq<Conn>, k: nat): seq<Conn>
    requires k < |conns|
  {
    conns[..k] + conns[k + 1..]
  }

  /** `Extern_queue_outgoing_message`: the new table, and the extid the message is sent with. */
  function Queued(s: Side, dest: Oid, delete: bool): (Side, Extid) {
    if dest == s.oid then (s, EXTID_COM)
    else
      var t := Connected(s, dest);
      var k := ByOid(t.conns, dest);
      ConnectedHas(s, dest);
      (if delete then t.(conns := Removed(t.conns, k)) else t, t.conns[k].extid)
  }

  lemma ConnectedHas(s: Side, dest: Oid)
    ensures ByOid(Connected(s, dest).conns, dest) < |Connected(s, dest).conns|
  {
    var t := Connected(s, dest);
    if ByOid(s.conns, dest) == |s.conns| {
      assert t.conns[|s.conns|].oid == dest;
    }
  }

  /** The range check on the extid of an object that the other side asks for. */
  predicate InRange(client: bool, extid: Extid) {
    !(extid >= CLIENT_LAST || (client && (extid < SERVER_BASE || extid >= SERVER_LAST)))
  }

  /** The addressing part of `Extern_validate_message`: `com` tells that the message is for the COM
      interface, `exported` that its interface is on the export list, and `spare` is the oid a new
      relay gets. */
  function Admitted(s: Side, extid: Extid, com: bool, exported: bool, spare: Oid): (Side, Verdict) {
    if extid == EXTID_COM then (s, if com then ToExtern else Refused)
    else
      var k := ByExtid(s.conns, extid);
      if k < |s.conns| then (s, Reached(s.conns[k].oid))
      else if com then (s, Ignored)
      else if !exported || !InRange(s.client, extid) then (s, Refused)
      else (s.(conns := s.conns + [Conn(spare, extid)], held := s.held + {spare}), Reached(spare))
  }

  // ------------------------------------------------------------------- invariant

  ghost predicate DistinctConns(conns: seq<Conn>) {
    forall i, j :: 0 <= i < j < |conns| ==> conns[i].oid != conns[j].oid && conns[i].extid != conns[j].extid
  }

  /** Minted by this side for the relay, or, on a server, by its client. */
  predicate ConnOk(client: bool, c: Conn) {
    && OID_BROADCAST < c.oid <= OID_LAST && c.extid != EXTID_COM
    && (c.extid == Minted(client, c.oid) || (!client && c.extid < CLIENT_LAST))
  }

  ghost predicate SideOk(s: Side) {
    && DistinctConns(s.conns)
    && forall c :: c in s.conns ==> ConnOk(s.client, c) && c.oid in s.held && c.oid != s.oid
  }

  /** The ids of the two sides never meet, none is that of the `Extern` and none overflows, for relays
      with declared oids. The map can give out other oids; these are the exact bounds for all of them. */
  lemma MintedApart(a: Oid, b: Oid)
    ensures Minted(true, a) == a && (Minted(true, a) == EXTID_COM <==> a == OID_BROADCAST)
    ensures Minted(false, a) == a + SERVER_BASE <==> a <= 33535
    ensures Minted(false, a) == EXTID_COM <==> a == 33536
    ensures SERVER_BASE <= Minted(false, a) <= SERVER_LAST <==> a <= OID_LAST
    ensures Minted(true, a) == Minted(true, b) || Minted(false, a) == Minted(false, b) <==> a == b
  {
  }

  /** A client relay's id is that of some server relay with a declared oid if and only if its own oid is
      in the range of the server's ids. */
  lemma IdsMeet(a: Oid)
    ensures (exists b: Oid :: OID_BROADCAST < b <= OID_LAST && Minted(true, a) == Minted(false, b))
       <==> SERVER_BASE < a <= SERVER_LAST
  {
    if SERVER_BASE < a <= SERVER_LAST {
      var b: Oid := a - SERVER_BASE;
      assert Minted(true, a) == Minted(false, b);
    }
  }

  lemma OneMore(conns: seq<Conn>, c: Conn)
    requires DistinctConns(conns)
    requires forall x :: x in conns ==> x.oid != c.oid && x.extid != c.extid
    ensures DistinctConns(conns + [c])
  {
    assert forall i :: 0 <= i < |conns| ==> conns[i] in conns;
  }

  lemma OneLess(conns: seq<Conn>, k: nat)
    requires DistinctConns(conns) && k < |conns|
    ensures DistinctConns(Removed(conns, k))
    ensures forall c :: c in Removed(conns, k) <==> c in conns && c != conns[k]
  {
    var less := Removed(conns, k);
    forall c | c in conns && c != conns[k]
      ensures c in less
    {
      var i :| 0 <= i < |conns| && conns[i] == c;
      assert c == less[if i < k then i else i - 1];
    }
  }

  /** In a table without doubles, a lookup finds the one connection there is. */
  lemma FoundByExtid(conns: seq<Conn>, c: Conn)
    requires DistinctConns(conns) && c in conns
    ensures ByExtid(conns, c.extid) < |conns| && conns[ByExtid(conns, c.extid)] == c
    ensures ByOid(conns, c.oid) < |conns| && conns[ByOid(conns, c.oid)] == c
  {
    var i :| 0 <= i < |conns| && conns[i] == c;
    var j, k := ByExtid(conns, c.extid), ByOid(conns, c.oid);
    assert j <= i && k <= i;
  }

  lemma QueuedKeeps(s: Side, dest: Oid, delete: bool)
    requires SideOk(s) && OID_BROADCAST < dest <= OID_LAST
    ensures var (t, extid) := Queued(s, dest, delete);
            && SideOk(t) && t.held >= s.held && t.oid == s.oid && t.client == s.client
            && (extid == EXTID_COM <==> dest == s.oid)
            && (dest != s.oid ==> dest in t.held && ConnOk(s.client, Conn(dest, extid)))
            && (forall c :: c in t.conns ==> c in s.conns || c == Conn(dest, Minted(s.client, dest)))
            && (dest != s.oid && delete ==> forall c :: c in t.conns <==> c in s.conns && c.oid != dest)
            && (dest != s.oid && !delete ==> Conn(dest, extid) in t.conns && forall c :: c in s.conns ==> c in t.conns)
            && (dest != s.oid && (exists c :: c in s.conns && c.oid == dest) ==> Conn(dest, extid) in s.conns)
            && (dest != s.oid && (forall c :: c in s.conns ==> c.oid != dest) ==> extid == Minted(s.client, dest))
  {
    if dest != s.oid {
      ConnectedKeeps(s, dest);
      ConnectedHas(s, dest);
      hide ConnOk, DistinctConns, Minted, Connected;
      var t := Connected(s, dest);
      var k := ByOid(t.conns, dest);
      assert t.conns[k] in t.conns && t.conns[k] == Conn(dest, t.conns[k].extid);
      forall x | x in t.conns && x.oid == dest
        ensures x == t.conns[k]
      {
        FoundByExtid(t.conns, x);
      }
      if delete {
        OneLess(t.conns, k);
      }
    }
  }

  /** The table with the relay's connection in it. */
  lemma ConnectedKeeps(s: Side, dest: Oid)
    requires SideOk(s) && OID_BROADCAST < dest <= OID_LAST && dest != s.oid
    ensures var t, c := Connected(s, dest), Conn(dest, Minted(s.client, dest));
            && SideOk(t) && t.held >= s.held && dest in t.held && t.oid == s.oid && t.client == s.client
            && (forall x :: x in s.conns ==> x in t.conns)
            && (if exists x :: x in s.conns && x.oid == dest then t == s
                else c in t.conns && forall x :: x in t.conns <==> x in s.conns || x == c)
  {
    var c := Conn(dest, Minted(s.client, dest));
    var k := ByOid(s.conns, dest);
    if k == |s.conns| {
      forall x | x in s.conns
        ensures x.oid != dest && x.extid != c.extid
      {
        assert ConnOk(s.client, x);
        MintedApart(dest, x.oid);
      }
      OneMore(s.conns, c);
    } else {
      assert s.conns[k] in s.conns;
    }
  }

  /** A delete message to broadcast: its connection comes and goes, and a proxy stays. From a client it has
      the extid of the other `Extern`, which takes it for the end of the connection. */
  lemma QueuedToBroadcast(s: Side)
    requires SideOk(s) && s.oid != OID_BROADCAST
    ensures var (t, extid) := Queued(s, OID_BROADCAST, true);
            && t == s.(held := s.held + {OID_BROADCAST}) && SideOk(t) && extid == Minted(s.client, OID_BROADCAST)
            && (extid == EXTID_COM <==> s.client)
  {
    assert forall i :: 0 <= i < |s.conns| ==> s.conns[i] in s.conns && s.conns[i].oid != OID_BROADCAST;
    var t := Connected(s, OID_BROADCAST);
    ConnectedHas(s, OID_BROADCAST);
    assert t.conns[|s.conns|].oid == OID_BROADCAST;
    assert Removed(t.conns, |s.conns|) == s.conns;
  }

  lemma AdmittedKeeps(s: Side, extid: Extid, com: bool, exported: bool, spare: Oid)
    requires SideOk(s) && OID_BROADCAST < spare <= OID_LAST && spare !in s.held && spare != s.oid
    ensures var (t, verdict) := Admitted(s, extid, com, exported, spare);
            && SideOk(t) && t.held >= s.held
            && (verdict.Reached? ==> Conn(verdict.oid, extid) in t.conns)
            && (t == s || (t.conns == s.conns + [Conn(spare, extid)] && verdict == Reached(spare)))
  {
    var k := ByExtid(s.conns, extid);
    if k == |s.conns| {
      OneMoreIsDistinct(s, extid, spare);
    } else {
      assert s.conns[k] == Conn(s.conns[k].oid, extid);
    }
  }

  lemma OneMoreIsDistinct(s: Side, extid: Extid, spare: Oid)
    requires SideOk(s) && spare !in s.held && ByExtid(s.conns, extid) == |s.conns|
    ensures DistinctConns(s.conns + [Conn(spare, extid)])
  {
    forall x | x in s.conns
      ensures x.oid != spare && x.extid != extid
    {
      var i :| 0 <= i < |s.conns| && s.conns[i] == x;
    }
    OneMore(s.conns, Conn(spare, extid));
  }

  // -------------------------------------------------------------- what is admitted

  /** What becomes of every message: one to the extid of the `Extern` is its own, if it is for COM; one to the extid of
      a connection goes to that relay; else one for COM is ignored, and any other makes a relay or is refused. */
  lemma Verdicts(s: Side, extid: Extid, com: bool, exported: bool, spare: Oid)
    requires SideOk(s)
    ensures var (t, verdict) := Admitted(s, extid, com, exported, spare);
            var known := exists c :: c in s.conns && c.extid == extid;
            var makes := !s.client && exported && extid < CLIENT_LAST;
            && (verdict == ToExtern <==> extid == EXTID_COM && com)
            && (verdict == Ignored <==> extid != EXTID_COM && com && !known)
            && (verdict == Refused <==> !com && !known && (extid == EXTID_COM || !makes))
            && (forall x :: verdict == Reached(x) <==>
                  Conn(x, extid) in s.conns || (extid != EXTID_COM && !com && !known && makes && x == spare))
            && (t != s ==> verdict == Reached(spare) && t.conns == s.conns + [Conn(spare, extid)])
  {
    var k := ByExtid(s.conns, extid);
    assert forall c :: c in s.conns ==> c.extid != EXTID_COM;
    if k < |s.conns| {
      var c := s.conns[k];
      assert c in s.conns && c == Conn(c.oid, extid);
      forall x | Conn(x, extid) in s.conns
        ensures x == c.oid
      {
        FoundByExtid(s.conns, Conn(x, extid));
      }
    } else {
      assert forall i :: 0 <= i < |s.conns| ==> s.conns[i].extid != extid;
    }
  }

  /** Exactly these messages make a relay: sent to a server, under an id of the client's range below its
      last, that is not connected, for an exported interface. A client makes no relay for its server,
      though docs/protocol.html gives the server a range of ids for that. */
  lemma CreationsAdmitted(s: Side, extid: Extid, com: bool, exported: bool, spare: Oid)
    requires SideOk(s) && spare !in s.held
    ensures Admitted(s, extid, com, exported, spare).0 != s <==>
            && !s.client && !com && exported && 0 < extid < CLIENT_LAST
            && forall c :: c in s.conns ==> c.extid != extid
  {
    var k := ByExtid(s.conns, extid);
    assert k < |s.conns| ==> s.conns[k] in s.conns;
    assert k == |s.conns| ==> forall i :: 0 <= i < |s.conns| ==> s.conns[i].extid != extid;
  }

  /** An id that a server minted is refused by a client, and the last id of a client by a server. */
  lemma MintedButRefused(oid: Oid, ext: Oid, spare: Oid)
    requires OID_FIRST <= oid <= OID_LAST
    ensures Admitted(Side(ext, true, [], {}), Minted(false, oid), false, true, spare).1 == Refused
    ensures Admitted(Side(ext, false, [], {}), Minted(true, oid), false, true, spare).1 == Refused <==> oid == OID_LAST
  {
  }
}
