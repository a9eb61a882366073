/**
 * The `Extern` object (xcom.c) on the link map of its process: every connection keeps
 * a proxy to its relay, so that the map never gives the relay's oid to another object.
 */
module Externs {
  import opened Links
  import opened Worlds
  import opened Cascades
  import opened ObjectMaps
  import opened Connections

  const IFACE_COM := 1

  ghost function HeldBy(links: seq<Link>, x: Oid): set<Oid> {
    set l | l in links && l.src == x :: l.dest
  }

  /** Some oid of the declared range is free. */
  ghost predicate HasRoom(links: seq<Link>) {
    exists k: Oid :: ObjectMap.Start(links) <= k <= OID_LAST && !ObjectMap.Used(links, k)
  }

  class Extern {
    const omap: ObjectMap
    const oid: Oid
    const client: bool
    var conns: seq<Conn>

    ghost function Table(): Side
      reads this, omap
    {
      Side(oid, client, conns, HeldBy(omap.links, oid))
    }

    ghost predicate Ok()
      reads this, omap
    {
      SideOk(Table()) && Valid(omap.State()) && oid in omap.born
    }

    constructor (omap: ObjectMap, oid: Oid, client: bool)
      requires Valid(omap.State()) && oid in omap.born
      ensures Ok() && this.omap == omap && this.oid == oid && this.client == client && conns == []
    {
      this.omap, this.oid, this.client, conns := omap, oid, client, [];
    }

    method ConnByExtid(extid: Extid) returns (k: nat)
      ensures k == ByExtid(conns, extid)
    {
      k := 0;
      while k < |conns|
        invariant k <= |conns| && forall i :: 0 <= i < k ==> conns[i].extid != extid
      {
        if conns[k].extid == extid {
          break;
        }
        k := k + 1;
      }
      ghost var f := ByExtid(conns, extid);
      assert !(k < f) && !(f < k);
    }

    method ConnByOid(dest: Oid) returns (k: nat)
      ensures k == ByOid(conns, dest)
    {
      k := 0;
      while k < |conns|
        invariant k <= |conns| && forall i :: 0 <= i < k ==> conns[i].oid != dest
      {
        if conns[k].oid == dest {
          break;
        }
        k := k + 1;
      }
      ghost var f := ByOid(conns, dest);
      assert !(k < f) && !(f < k);
    }

    /** Finds or adds the connection of `dest`, and removes it when the message is its last. A message to
        broadcast is not refused, but the proxy that it makes breaks the map. */
    method QueueOutgoingMessage(dest: Oid, delete: bool) returns (extid: Extid)
      requires Ok() && dest <= OID_LAST
      modifies this`conns, omap`links
      ensures (Table(), extid) == Queued(old(Table()), dest, delete)
      ensures Ok() <==> dest != OID_BROADCAST
      ensures omap.links == if dest == oid || ByOid(old(conns), dest) < |old(conns)| then old(omap.links)
                            else Insert(old(omap.links), Link(0, IFACE_COM, oid, dest, false))
    {
      hide Ordered, Valid, SideOk, ByOid, HeldBy, Insert, Connected;
      if dest != OID_BROADCAST {
        QueuedKeeps(Table(), dest, delete);
      }
      ExternHasOid(omap.State(), oid);
      if dest == oid {
        return EXTID_COM;
      }
      ConnectedHas(Table(), dest);
      var k := Connect(dest);
      extid := conns[k].extid;
      if delete {
        conns := conns[..k] + conns[k + 1..];
      }
    }

    /** The connection of `dest`, new at the end of the table if there is none. */
    method Connect(dest: Oid) returns (k: nat)
      requires Ok() && dest <= OID_LAST && dest != oid
      modifies this`conns, omap`links
      ensures Table() == Connected(old(Table()), dest) && k == ByOid(conns, dest)
      ensures Valid(omap.State()) <==> dest != OID_BROADCAST
      ensures omap.links == if ByOid(old(conns), dest) < |old(conns)| then old(omap.links)
                            else Insert(old(omap.links), Link(0, IFACE_COM, oid, dest, false))
    {
      hide Ordered, Valid, SideOk, Insert, HeldBy;
      ValidIsOrdered(omap.State());
      NoBroadcastConn(Table());
      k := ConnByOid(dest);
      if k == |conns| {
        if dest == OID_BROADCAST {
          BrokenMap(omap.State(), Link(0, IFACE_COM, oid, dest, false));
        }
        InsertHeld(omap.links, Link(0, IFACE_COM, oid, dest, false), oid);
        omap.CreateProxyTo(IFACE_COM, oid, dest);
        conns := conns + [Conn(dest, (dest + if client then CLIENT_BASE else SERVER_BASE) % 0x1_0000)];
      }
      k := ConnByOid(dest);
    }

    /** Finds the connection of an incoming message or makes one, with a relay under an oid
        that the map has no link to. */
    method ValidateMessage(extid: Extid, com: bool, exported: bool) returns (verdict: Verdict, ghost spare: Oid)
      requires Ok() && HasRoom(omap.links)
      modifies this`conns, omap`links
      ensures Ok() && (Table(), verdict) == Admitted(old(Table()), extid, com, exported, spare)
      ensures OID_BROADCAST < spare <= OID_LAST && !ObjectMap.Used(old(omap.links), spare)
      ensures spare !in old(Table()).held && spare != oid
    {
      hide Valid, SideOk;
      ValidIsOrdered(omap.State());
      spare := FirstFree(omap.links, ObjectMap.Start(omap.links));
      SpareIsFree(omap.State(), oid);
      if extid == EXTID_COM {
        return if com then ToExtern else Refused, spare;
      }
      AdmittedKeeps(Table(), extid, com, exported, spare);
      var k := ConnByExtid(extid);
      if k == |conns| {
        if com {
          return Ignored, spare;
        }
        if !exported || extid >= CLIENT_LAST || (client && (extid < SERVER_BASE || extid >= SERVER_LAST)) {
          return Refused, spare;
        }
        ghost var links := omap.links;
        var nid := omap.CreateProxy(IFACE_COM, oid);
        OnlyFirstFree(links, nid);
        InsertHeld(links, Link(0, IFACE_COM, oid, nid, false), oid);
        conns := conns + [Conn(nid, extid)];
      }
      verdict := Reached(conns[k].oid);
    }
  }

  lemma ExternHasOid(w: World, x: Oid)
    requires Valid(w) && x in w.born
    ensures x != OID_BROADCAST
  {
    assert BornOk(w, x);
    BlockHead(w.links, x);
    assert LinkOk(Block(w.links, x)[0], w.born);
  }

  lemma NoBroadcastConn(s: Side)
    requires SideOk(s)
    ensures ByOid(s.conns, OID_BROADCAST) == |s.conns|
  {
    assert forall i :: 0 <= i < |s.conns| ==> s.conns[i] in s.conns;
  }

  lemma BrokenMap(w: World, l: Link)
    requires l.dest == OID_BROADCAST
    ensures !Valid(w.(links := Insert(w.links, l)))
  {
    assert l in Insert(w.links, l) && !LinkOk(l, w.born);
  }

  lemma InsertHeld(links: seq<Link>, l: Link, x: Oid)
    ensures HeldBy(Insert(links, l), x) == HeldBy(links, x) + if l.src == x then {l.dest} else {}
  {
    var e := EndOf(links, l.dest);
    assert links == links[..e] + links[e..];
    assert forall m :: m in Insert(links, l) <==> m in links || m == l;
  }

  /** The first oid from `k` on that no link goes to, if there is one below the last. */
  ghost function FirstFree(links: seq<Link>, k: Oid): (r: Oid)
    ensures k <= r && (forall j: Oid :: k <= j < r ==> ObjectMap.Used(links, j))
    ensures r < OID_SPAN - 1 ==> !ObjectMap.Used(links, r)
    decreases OID_SPAN - k
  {
    if k == OID_SPAN - 1 || !ObjectMap.Used(links, k) then k else FirstFree(links, k + 1)
  }

  lemma SpareIsFree(w: World, x: Oid)
    requires Valid(w) && x in w.born && HasRoom(w.links)
    ensures var spare := FirstFree(w.links, ObjectMap.Start(w.links));
            && OID_BROADCAST < spare <= OID_LAST && !ObjectMap.Used(w.links, spare)
            && spare !in HeldBy(w.links, x) && spare != x
    ensures w.links != [] ==> w.links[0].dest != OID_BROADCAST
  {
    if w.links != [] {
      assert LinkOk(w.links[0], w.born);
    }
    assert BornOk(w, x);
    BlockHead(w.links, x);
    assert ObjectMap.Used(w.links, x);
  }

  lemma OnlyFirstFree(links: seq<Link>, nid: Oid)
    requires HasRoom(links) && nid != OID_BROADCAST && !ObjectMap.Used(links, nid) && ObjectMap.Start(links) <= nid
    requires forall k: Oid :: ObjectMap.Start(links) <= k < nid ==> ObjectMap.Used(links, k)
    ensures nid == FirstFree(links, ObjectMap.Start(links))
  {
  }

  // --------------------------------------------------------------- the map's part

  /** Whatever the process does with its map, short of destroying the `Extern` or a proxy of
      its, the `Extern` keeps its proxies, and so the relays' oids are given to nothing else. */
  lemma ProxiesStay(w: World, a: Action, w': World, x: Oid)
    requires Valid(w) && Next(w, a, w') && x in w'.born && x != OID_BROADCAST
    requires a.DropLink? ==> w.links[a.k].src != x
    ensures HeldBy(w.links, x) <= HeldBy(w'.links, x)
  {
    match a
    case NewProxy(src, dest, iface) =>
      InsertHeld(w.links, Link(0, iface, src, dest, false), x);
    case BeginObject(d) =>
    case EndObject(d, o) =>
      SameEnds(w.links, w'.links, x);
    case DropLink(k) =>
      ghost var log :| DropsLink(w.links, k, w'.links, log) && Buried(w, w', log);
      EraseHeld(w.links, k, x);
      if w.links[k].o != 0 {
        CascadeHeld(Erase(w.links, k), w.links[k].dest, w'.links, log, x);
      }
    case Retire(k) =>
      ghost var log :| Cascaded(Emptied(w.links, k), w.links[k].dest, w'.links, log) && Buried(w, w', log);
      SameEnds(w.links, Emptied(w.links, k), x);
      CascadeHeld(Emptied(w.links, k), w.links[k].dest, w'.links, log, x);
    case MarkObjects =>
      SameEnds(w.links, w'.links, x);
  }

  lemma SameEnds(a: seq<Link>, b: seq<Link>, x: Oid)
    requires |a| == |b| && forall i :: 0 <= i < |a| ==> a[i].src == b[i].src && a[i].dest == b[i].dest
    ensures HeldBy(a, x) <= HeldBy(b, x)
  {
    forall l | l in a && l.src == x
      ensures l.dest in HeldBy(b, x)
    {
      var i :| 0 <= i < |a| && a[i] == l;
      assert b[i] in b;
    }
  }

  lemma EraseHeld(links: seq<Link>, k: nat, x: Oid)
    requires k < |links| && links[k].src != x
    ensures HeldBy(links, x) <= HeldBy(Erase(links, k), x)
  {
    forall l | l in links && l.src == x
      ensures l in Erase(links, k)
    {
      var i :| 0 <= i < |links| && links[i] == l;
      assert l == Erase(links, k)[if i < k then i else i - 1];
    }
  }

  lemma CascadeHeld(before: seq<Link>, root: Oid, after: seq<Link>, log: seq<Oid>, x: Oid)
    requires Cascaded(before, root, after, log) && x !in Elements(log)
    ensures HeldBy(before, x) <= HeldBy(after, x)
  {
    var gone := Doomed(EdgesOf(before), root);
    WithoutMember(before, gone);
    assert HeldBy(before, x) <= HeldBy(Links.Without(before, gone), x);
    SameEnds(Links.Without(before, gone), after, x);
  }

  /** The links that the relays of a connection have to its `Extern`. */
  function RelayLinks(relays: seq<Oid>, x: Oid): seq<Link> {
    if relays == [] then [] else [Link(0, IFACE_COM, relays[0], x, false)] + RelayLinks(relays[1..], x)
  }

  /** Every relay is a caller of its `Extern`, so a connection with more than 16 relays has too many
      for the destruction of the `Extern`. */
  lemma {:induction false} RelaysAreCallers(relays: seq<Oid>, x: Oid)
    requires OID_BROADCAST !in relays
    ensures Callers(RelayLinks(relays, x), x) == relays
    ensures FewCallers(RelayLinks(relays, x)) ==> |relays| <= MAX_CALLERS
    decreases |relays|
  {
    if relays != [] {
      var rest := RelayLinks(relays[1..], x);
      RelaysAreCallers(relays[1..], x);
      assert RelayLinks(relays, x)[1..] == rest;
      assert relays == [relays[0]] + relays[1..];
    }
    assert |Callers(RelayLinks(relays, x), x)| == |relays|;
  }
}
