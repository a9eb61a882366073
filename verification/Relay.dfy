/**
 * The `COMRelay` object of xcom.c, which stands in one process for an object of
 * another: which way it passes each message, and what it says when it or its
 * other side goes away.
 */
module Relays {
  import opened Bytes
  import opened Links
  import opened Worlds
  import opened ObjectMaps
  import opened Signatures
  import opened Connections
  import opened Externs

  /** A message with its body, or without one when the body was moved to another message. */
  class Msg {
    var src: Oid
    var dest: Oid
    var imethod: nat
    var size: nat
    var body: array?<Byte>

    constructor (src: Oid, dest: Oid, imethod: nat, size: nat, body: array?<Byte>)
      ensures this.src == src && this.dest == dest && this.imethod == imethod && this.size == size && this.body == body
    {
      this.src, this.dest, this.imethod, this.size, this.body := src, dest, imethod, size, body;
    }
  }

  /** What can happen to a relay; `spare` is the oid of the object that its first message makes. */
  datatype Event =
    | Arrives(src: Oid, tag: nat, spare: Oid)
    | RemoteFailed
    | RemoteDeleted
    | Told(oid: Oid)
    | LocalFailed(eoid: Oid)
    | Destroyed

  /** What a relay does: a message passed to the local object or to the other side, an error of its own,
      an error for the local object, and the two notices to the other side. */
  datatype Act =
    | Inward(tag: nat)
    | Outward(tag: nat)
    | Failed
    | Blamed(oid: Oid)
    | ErrorOut(local: Option<Oid>)
    | DeleteOut(local: Option<Oid>)

  datatype State = State(local: Option<Oid>, externid: Oid, connected: bool, unused: bool)

  /** The oid in `localp.dest`, zero before the proxy exists. */
  function LocalOid(s: State): Oid {
    if s.local.Some? then s.local.value else OID_BROADCAST
  }

  function Step(s: State, e: Event): (State, seq<Act>) {
    match e
    case Arrives(src, tag, spare) =>
      var t := s.(local := Some(if s.local.Some? then s.local.value else spare));
      (t, [if !s.connected then Failed else if src == t.local.value then Outward(tag) else Inward(tag)])
    case RemoteFailed => (s, [Blamed(LocalOid(s))])
    case RemoteDeleted => (s.(connected := false, unused := true), [])
    case Told(oid) => (s.(connected := s.connected && oid != s.externid, unused := true), [])
    case LocalFailed(eoid) => (s, if s.connected && eoid == LocalOid(s) then [ErrorOut(s.local)] else [])
    case Destroyed => (s, if s.connected then [DeleteOut(s.local)] else [])
  }

  predicate ToOtherSide(a: Act) {
    a.Outward? || a.ErrorOut? || a.DeleteOut?
  }

  /** The destination of what goes out: the relay's own oid, or zero when a notice goes out before
      there is a local object. */
  function DestOf(a: Act, oid: Oid): Oid {
    if a == ErrorOut(None) || a == DeleteOut(None) then OID_BROADCAST else oid
  }

  /** What the acts of the relay `oid` do to the connection table of its side. */
  function Tables(t: Side, oid: Oid, acts: seq<Act>): Side
    decreases |acts|
  {
    if acts == [] then t
    else
      var next := if ToOtherSide(acts[0]) then Queued(t, DestOf(acts[0], oid), acts[0].DeleteOut?).0 else t;
      Tables(next, oid, acts[1..])
  }

  /** The extids under which its messages go out. */
  function Extids(t: Side, oid: Oid, acts: seq<Act>): seq<Extid>
    decreases |acts|
  {
    if acts == [] then []
    else if ToOtherSide(acts[0]) then
      var (next, extid) := Queued(t, DestOf(acts[0], oid), acts[0].DeleteOut?);
      [extid] + Extids(next, oid, acts[1..])
    else Extids(t, oid, acts[1..])
  }

  lemma OneAct(t: Side, oid: Oid, a: Act)
    ensures Tables(t, oid, [a]) == if ToOtherSide(a) then Queued(t, DestOf(a, oid), a.DeleteOut?).0 else t
    ensures Tables(t, oid, []) == t
  {
    assert [a][1..] == [];
  }

  /** `e` did what `Step` says, and what the acts do to the connection table. */
  ghost predicate Did(oid: Oid, e: Event, s: State, t: Option<Side>, acts: seq<Act>,
                      s': State, t': Option<Side>, acts': seq<Act>) {
    && s' == Step(s, e).0 && acts' == acts + Step(s, e).1
    && (t.Some? ==> t' == Some(Tables(t.value, oid, Step(s, e).1)))
  }

  lemma StaysIn(t: Side, oid: Oid, tag: nat)
    ensures Tables(t, oid, [Inward(tag)]) == t
  {
    OneAct(t, oid, Inward(tag));
  }

  class Relay {
    const omap: ObjectMap
    const oid: Oid
    var local: Option<Oid>
    var externid: Oid
    var pExtern: Extern?
    var unused: bool
    ghost var acts: seq<Act>

    function AsState(): State
      reads this
    {
      State(local, externid, pExtern != null, unused)
    }

    ghost function Footprint(): set<object>
      reads this
    {
      {omap} + if pExtern == null then {} else {pExtern}
    }

    ghost predicate Ok()
      reads this, omap, Footprint()
    {
      && Valid(omap.State())
      && (pExtern != null ==>
            && pExtern.omap == omap && pExtern.Ok() && pExtern.oid == externid
            && OID_BROADCAST < oid <= OID_LAST && oid != externid)
    }

    ghost function Table(): Option<Side>
      reads this, omap, Footprint()
    {
      if pExtern == null || pExtern.omap != omap then None else Some(pExtern.Table())
    }

    /** A relay made by a message from a local object knows it; one made by its `Extern` does not yet. */
    constructor (omap: ObjectMap, oid: Oid, creator: Option<Oid>, pExtern: Extern?)
      requires Valid(omap.State())
      requires pExtern != null ==>
        pExtern.omap == omap && pExtern.Ok() && OID_BROADCAST < oid <= OID_LAST && oid != pExtern.oid
      ensures this.omap == omap && this.oid == oid && acts == [] && this.pExtern == pExtern && Ok()
      ensures AsState() ==
              State(creator, if pExtern == null then OID_BROADCAST else pExtern.oid, pExtern != null, false)
    {
      this.omap, this.oid, local, unused, acts := omap, oid, creator, false, [];
      this.pExtern := pExtern;
      externid := if pExtern == null then OID_BROADCAST else pExtern.oid;
    }

    /** The message goes out under the relay's extid if the local object sent it, and in if anything else did.
        The first message makes a proxy to a new local object. Its body belongs to exactly one message
        afterwards. */
    method ComMessage(msg: Msg, iface: nat, ghost tag: nat) returns (passed: Msg?, extid: Extid, ghost spare: Oid)
      requires Ok() && msg.dest == oid && oid in omap.born && (local.None? ==> HasRoom(omap.links))
      modifies this`local, this`acts, msg, Footprint()
      ensures Ok() && pExtern == old(pExtern)
      ensures Did(oid, Arrives(old(msg.src), tag, spare), old(AsState()), old(Table()), old(acts),
                  AsState(), Table(), acts)
      ensures local == if old(local).None? then Some(spare) else old(local)
      ensures acts == old(acts) +
                [if pExtern == null then Failed else if msg.src == local.value then Outward(tag) else Inward(tag)]
      ensures old(local).None? ==> OID_BROADCAST < spare <= OID_LAST && !ObjectMap.Used(old(omap.links), spare)
      ensures old(local).None? ==> Link(0, iface, oid, spare, false) in omap.links
      ensures passed != null <==> pExtern != null
      ensures passed != null ==>
                && fresh(passed) && passed.body == old(msg.body) && passed.size == old(msg.size)
                && passed.imethod == msg.imethod && msg.body == null && msg.size == 0 && msg.src == old(msg.src)
                && (passed.src, passed.dest) == if msg.src == local.value then (msg.src, oid) else (oid, local.value)
      ensures passed != null && msg.src == local.value ==> extid == old(IdOf(pExtern.Table(), oid))
      ensures passed == null ==> msg.body == old(msg.body) && msg.size == old(msg.size)
    {
      hide Tables, Queued, SideOk, IdOf, Insert, HeldBy, Valid;
      extid, spare := EXTID_COM, oid;
      if local.None? {
        ghost var links := omap.links;
        spare := MakeLocal(iface);
        InsertMore(links, Link(0, iface, oid, spare, false));
      }
      if pExtern == null {
        acts := acts + [Failed];
        passed := null;
        return;
      }
      if msg.src != local.value {
        StaysIn(pExtern.Table(), oid, tag);
        acts := acts + [Inward(tag)];
        passed := Forward(oid, local.value, msg);
        return;
      }
      passed := Forward(msg.src, msg.dest, msg);
      SentUnderId(pExtern.Table(), oid, false);
      extid := Send(oid, false, Outward(tag));
    }

    /** `casymsg_forward`: a new message takes over the body. */
    static method Forward(src: Oid, dest: Oid, msg: Msg) returns (fwm: Msg)
      modifies msg`size, msg`body
      ensures fresh(fwm) && fwm.src == src && fwm.dest == dest && fwm.imethod == msg.imethod
      ensures fwm.body == old(msg.body) && fwm.size == old(msg.size) && msg.body == null && msg.size == 0
    {
      fwm := new Msg(src, dest, msg.imethod, msg.size, msg.body);
      msg.size := 0;
      msg.body := null;
    }

    /** Makes the proxy to the object that serves the other side. */
    method MakeLocal(iface: nat) returns (ghost spare: Oid)
      requires Ok() && local.None? && oid in omap.born && HasRoom(omap.links)
      modifies this`local, omap`links
      ensures Ok() && local == Some(spare) && Table() == old(Table())
      ensures OID_BROADCAST < spare <= OID_LAST && !ObjectMap.Used(old(omap.links), spare)
      ensures omap.links == Insert(old(omap.links), Link(0, iface, oid, spare, false))
    {
      hide Valid, SideOk, Insert, HeldBy;
      ValidIsOrdered(omap.State());
      SpareIsFree(omap.State(), oid);
      spare := FirstFree(omap.links, ObjectMap.Start(omap.links));
      ghost var links := omap.links;
      var nid := omap.CreateProxy(iface, oid);
      OnlyFirstFree(links, nid);
      if pExtern != null {
        InsertHeld(links, Link(0, iface, oid, nid, false), pExtern.oid);
        assert HeldBy(omap.links, pExtern.oid) == HeldBy(links, pExtern.oid);
      }
      local := Some(nid);
    }

    /** Hands a message to the `Extern`. */
    method Send(dest: Oid, delete: bool, ghost a: Act) returns (extid: Extid)
      requires Ok() && pExtern != null && ToOtherSide(a) && delete == a.DeleteOut? && dest == DestOf(a, oid)
      modifies this`acts, Footprint()
      ensures acts == old(acts) + [a] && (Ok() <==> dest != OID_BROADCAST)
      ensures pExtern == old(pExtern) && Table() == Some(Tables(old(pExtern.Table()), oid, [a]))
      ensures extid == Queued(old(pExtern.Table()), dest, delete).1
      ensures forall l :: l in old(omap.links) ==> l in omap.links
    {
      hide Tables, Queued, SideOk, HeldBy, Valid, ByOid, Insert, ToOtherSide;
      ghost var t, links := pExtern.Table(), omap.links;
      OneAct(t, oid, a);
      InsertMore(links, Link(0, IFACE_COM, pExtern.oid, dest, false));
      acts := acts + [a];
      extid := pExtern.QueueOutgoingMessage(dest, delete);
      assert pExtern.Table() == Queued(t, dest, delete).0;
    }

    /** An error that came from the other side is raised for the local object. */
    method ComError()
      requires Ok()
      modifies this`acts
      ensures Ok()
      ensures Did(oid, RemoteFailed, old(AsState()), old(Table()), old(acts), AsState(), Table(), acts)
      ensures acts == old(acts) + [Blamed(if local.Some? then local.value else OID_BROADCAST)]
    {
      if pExtern != null {
        OneAct(pExtern.Table(), oid, Blamed(LocalOid(AsState())));
      }
      acts := acts + [Blamed(LocalOid(AsState()))];
    }

    method ComDelete()
      requires Ok()
      modifies this`pExtern, this`unused
      ensures Ok() && pExtern == null && unused && AsState() == Step(old(AsState()), RemoteDeleted).0
    {
      pExtern := null;
      unused := true;
    }

    method ObjectDestroyed(oid: Oid)
      requires Ok()
      modifies this`pExtern, this`unused
      ensures Ok() && AsState() == Step(old(AsState()), Told(oid)).0
      ensures unused && pExtern == if oid == externid then null else old(pExtern)
    {
      if oid == externid {
        pExtern := null;
      }
      unused := true;
    }

    /** An error of the local object goes to the other side, and is handled there; other errors are not handled. */
    method Error(eoid: Oid) returns (handled: bool)
      requires Ok() && eoid != OID_BROADCAST
      modifies this`acts, Footprint()
      ensures Ok() && pExtern == old(pExtern)
      ensures Did(oid, LocalFailed(eoid), old(AsState()), old(Table()), old(acts), AsState(), Table(), acts)
      ensures handled <==> pExtern != null && local == Some(eoid)
      ensures acts == old(acts) + if handled then [ErrorOut(local)] else []
    {
      hide Tables, Queued, SideOk, Valid;
      if pExtern != null {
        OneAct(pExtern.Table(), oid, ErrorOut(local));
      }
      if pExtern != null && eoid == LocalOid(AsState()) {
        var extid := Send(oid, false, ErrorOut(local));
        return true;
      }
      assert acts == acts + [];
      return false;
    }

    /** The destructor: if the other side is still there it gets the notice, under the relay's extid, and the
        connection leaves the table. Before the first message there is no local object and the notice is
        addressed to broadcast: no connection leaves the table, and the map gets a link it must not have. */
    method Destroy() returns (extid: Option<Extid>)
      requires Ok()
      modifies this`acts, Footprint()
      ensures pExtern == old(pExtern) && (Ok() <==> pExtern == null || local.Some?)
      ensures Did(oid, Destroyed, old(AsState()), old(Table()), old(acts), AsState(), Table(), acts)
      ensures acts == old(acts) + if pExtern != null then [DeleteOut(local)] else []
      ensures extid.Some? <==> pExtern != null
      ensures pExtern != null && local.Some? ==>
                && extid.value == old(IdOf(pExtern.Table(), oid))
                && forall c :: c in pExtern.conns <==> c in old(pExtern.conns) && c.oid != oid
      ensures pExtern != null && local.None? ==>
                pExtern.conns == old(pExtern.conns) && (extid.value == EXTID_COM <==> pExtern.client)
    {
      hide Tables, Queued, SideOk, Valid, IdOf;
      if pExtern != null {
        ghost var t := pExtern.Table();
        ExternHasOid(omap.State(), pExtern.oid);
        OneAct(t, oid, DeleteOut(local));
        DeletedFrom(t, oid);
        SentUnderId(t, oid, true);
        QueuedToBroadcast(t);
        var dest := if local.Some? then oid else OID_BROADCAST;
        var sent := Send(dest, true, DeleteOut(local));
        extid := Some(sent);
      } else {
        assert acts == acts + [];
        extid := None;
      }
    }
  }

  lemma InsertMore(links: seq<Link>, l: Link)
    ensures forall m :: m in links ==> m in Insert(links, l)
    ensures l in Insert(links, l)
  {
    var e := EndOf(links, l.dest);
    assert links == links[..e] + links[e..];
  }

  lemma SentUnderId(t: Side, oid: Oid, delete: bool)
    requires SideOk(t) && OID_BROADCAST < oid <= OID_LAST && oid != t.oid
    ensures Queued(t, oid, delete).1 == IdOf(t, oid)
  {
    QueuedUnderId(t, oid, delete);
  }

  // ------------------------------------------------------------------------ lives

  function After(s: State, events: seq<Event>): State
    decreases |events|
  {
    if events == [] then s else After(Step(s, events[0]).0, events[1..])
  }

  function Acts(s: State, events: seq<Event>): seq<Act>
    decreases |events|
  {
    if events == [] then [] else Step(s, events[0]).1 + Acts(Step(s, events[0]).0, events[1..])
  }

  /** The other side or the connection to it is gone. */
  predicate Loses(s: State, e: Event) {
    e.RemoteDeleted? || e == Told(s.externid)
  }

  /** The relay is connected for as long as nothing told it that the other side is gone, and stands for
      the same local object and connection all its life. */
  lemma {:induction false} ConnectedUntilLost(s: State, events: seq<Event>)
    ensures After(s, events).connected <==> s.connected && forall e :: e in events ==> !Loses(s, e)
    ensures After(s, events).externid == s.externid && (s.local.Some? ==> After(s, events).local == s.local)
    decreases |events|
  {
    if events != [] {
      var t := Step(s, events[0]).0;
      StepKeeps(s, events[0]);
      ConnectedUntilLost(t, events[1..]);
      assert events == [events[0]] + events[1..];
      assert forall e :: Loses(t, e) <==> Loses(s, e);
    }
  }

  lemma StepKeeps(s: State, e: Event)
    ensures var t := Step(s, e).0;
            && t.externid == s.externid && (t.connected <==> s.connected && !Loses(s, e))
            && (s.local.Some? ==> t.local == s.local)
  {
  }

  /** A relay is marked for cleanup exactly when its other side was destroyed or it was told of any destruction. */
  lemma {:induction false} UnusedWhenTold(s: State, events: seq<Event>)
    ensures After(s, events).unused <==> s.unused || exists e :: e in events && (e.RemoteDeleted? || e.Told?)
    decreases |events|
  {
    if events != [] {
      UnusedWhenTold(Step(s, events[0]).0, events[1..]);
      assert events == [events[0]] + events[1..];
    }
  }

  /** A relay that lost its other side sends nothing there any more, not even the notice of its own end. */
  lemma {:induction false} SilentWhenLost(s: State, events: seq<Event>)
    requires !s.connected
    ensures forall a :: a in Acts(s, events) ==> !ToOtherSide(a)
    decreases |events|
  {
    if events != [] {
      SilentWhenLost(Step(s, events[0]).0, events[1..]);
    }
  }

  lemma {:induction false} ActsConcat(s: State, before: seq<Event>, later: seq<Event>)
    ensures Acts(s, before + later) == Acts(s, before) + Acts(After(s, before), later)
    decreases |before|
  {
    if before == [] {
      assert before + later == later;
    } else {
      assert (before + later)[0] == before[0] && (before + later)[1..] == before[1..] + later;
      ActsConcat(Step(s, before[0]).0, before[1..], later);
    }
  }

  lemma {:induction false} NoEarlyDelete(s: State, events: seq<Event>)
    requires Destroyed !in events
    ensures forall a :: a in Acts(s, events) ==> !a.DeleteOut?
    decreases |events|
  {
    if events != [] {
      NoEarlyDelete(Step(s, events[0]).0, events[1..]);
    }
  }

  /** A whole life: the delete notice is sent once and as the last thing if the other side is still there at
      the end, and never otherwise. */
  lemma DeleteIsLast(s: State, life: seq<Event>)
    requires Destroyed !in life
    ensures var acts := Acts(s, life + [Destroyed]);
            && (forall a :: a in Acts(s, life) ==> !a.DeleteOut?)
            && (if s.connected && forall e :: e in life ==> !Loses(s, e)
                then acts == Acts(s, life) + [DeleteOut(After(s, life).local)]
                else acts == Acts(s, life))
  {
    ActsConcat(s, life, [Destroyed]);
    ConnectedUntilLost(s, life);
    NoEarlyDelete(s, life);
    var end := After(s, life);
    assert [Destroyed][1..] == [] && Acts(end, [Destroyed]) == Step(end, Destroyed).1;
  }

  /** The extid of the relay's connection, or of the one it gets. */
  function IdOf(t: Side, oid: Oid): Extid {
    var k := ByOid(t.conns, oid);
    if k < |t.conns| then t.conns[k].extid else Minted(t.client, oid)
  }

  lemma DeletedFrom(t: Side, oid: Oid)
    requires SideOk(t) && OID_BROADCAST < oid <= OID_LAST && oid != t.oid
    ensures forall c :: c in Queued(t, oid, true).0.conns <==> c in t.conns && c.oid != oid
  {
    QueuedKeeps(t, oid, true);
  }

  lemma QueuedUnderId(t: Side, oid: Oid, delete: bool)
    requires SideOk(t) && OID_BROADCAST < oid <= OID_LAST && oid != t.oid
    ensures var (next, extid) := Queued(t, oid, delete);
            && SideOk(next) && next.oid == t.oid && extid == IdOf(t, oid)
            && (!delete ==> IdOf(next, oid) == IdOf(t, oid))
            && (delete ==> forall c :: c in next.conns ==> c.oid != oid)
  {
    QueuedKeeps(t, oid, delete);
    var (next, extid) := Queued(t, oid, delete);
    if !delete {
      FoundByExtid(next.conns, Conn(oid, extid));
    }
    ConnectedHas(t, oid);
    var k := ByOid(t.conns, oid);
    if k < |t.conns| {
      assert t.conns[k] in t.conns;
      FoundByExtid(t.conns, t.conns[k]);
    } else {
      assert forall c :: c in t.conns ==> c.oid != oid;
    }
  }

  // ---------------------------------------------------------- lives among other relays

  /** A step in the life of a relay: what happens to it, a message of another relay of the connection, a message
      from the other side, and proxies that the `Extern` gets. All of them change the one table. */
  datatype Move =
    | Own(e: Event)
    | Queues(dest: Oid, delete: bool)
    | Admits(extid: Extid, com: bool, exported: bool, spare: Oid)
    | Maps(held: set<Oid>)

  /** The map gives new relays oids that it has no link to, so never this relay's. */
  predicate Allowed(t: Side, oid: Oid, m: Move) {
    match m
    case Own(e) => e.LocalFailed? ==> e.eoid != OID_BROADCAST
    case Queues(dest, delete) => OID_BROADCAST < dest <= OID_LAST && dest != oid
    case Admits(_, _, _, spare) =>
      OID_BROADCAST < spare <= OID_LAST && spare !in t.held && spare != t.oid && spare != oid
    case Maps(held) => t.held <= held
  }

  /** The table, the relay and the extids it sent under after one step. */
  function Moved(t: Side, oid: Oid, s: State, m: Move): (Side, State, seq<Extid>) {
    match m
    case Own(e) => var (s', acts) := Step(s, e); (Tables(t, oid, acts), s', Extids(t, oid, acts))
    case Queues(dest, delete) => (Queued(t, dest, delete).0, s, [])
    case Admits(extid, com, exported, spare) => (Admitted(t, extid, com, exported, spare).0, s, [])
    case Maps(held) => (t.(held := held), s, [])
  }

  function Lived(t: Side, oid: Oid, s: State, life: seq<Move>): (Side, State, seq<Extid>)
    decreases |life|
  {
    if life == [] then (t, s, [])
    else
      var (t', s', now) := Moved(t, oid, s, life[0]);
      var (u, v, later) := Lived(t', oid, s', life[1..]);
      (u, v, now + later)
  }

  predicate Lives(t: Side, oid: Oid, s: State, life: seq<Move>)
    decreases |life|
  {
    life != [] ==>
      && Allowed(t, oid, life[0])
      && var (t', s', _) := Moved(t, oid, s, life[0]); Lives(t', oid, s', life[1..])
  }

  lemma OneExtid(t: Side, oid: Oid, a: Act)
    ensures Extids(t, oid, [a]) == if ToOtherSide(a) then [Queued(t, DestOf(a, oid), a.DeleteOut?).1] else []
    ensures Extids(t, oid, []) == []
  {
    assert [a][1..] == [];
  }

  /** Everybody else leaves the relay its connection, or leaves it without one. */
  lemma OthersKeep(t: Side, oid: Oid, s: State, m: Move)
    requires SideOk(t) && OID_BROADCAST < oid <= OID_LAST && oid != t.oid && Allowed(t, oid, m) && !m.Own?
    ensures var t' := Moved(t, oid, s, m).0;
            && SideOk(t') && t'.oid == t.oid && IdOf(t', oid) == IdOf(t, oid)
            && ((exists c :: c in t'.conns && c.oid == oid) <==> exists c :: c in t.conns && c.oid == oid)
  {
    var t' := Moved(t, oid, s, m).0;
    match m
    case Queues(dest, delete) =>
      QueuedKeeps(t, dest, delete);
      OthersQueue(t, dest, delete);
      SameConn(t, t', oid);
    case Admits(extid, com, exported, spare) =>
      AdmittedKeeps(t, extid, com, exported, spare);
      SameConn(t, t', oid);
    case Maps(_) =>
  }

  lemma OthersQueue(t: Side, dest: Oid, delete: bool)
    requires SideOk(t) && OID_BROADCAST < dest <= OID_LAST
    ensures var t' := Queued(t, dest, delete).0;
            && t'.oid == t.oid && t'.client == t.client
            && forall c: Conn :: c.oid != dest ==> (c in t'.conns <==> c in t.conns)
  {
    QueuedKeeps(t, dest, delete);
  }

  lemma SameConn(t: Side, t': Side, oid: Oid)
    requires SideOk(t) && SideOk(t') && t'.client == t.client
    requires forall c: Conn :: c.oid == oid ==> (c in t'.conns <==> c in t.conns)
    ensures IdOf(t', oid) == IdOf(t, oid)
  {
    var k := ByOid(t.conns, oid);
    if k < |t.conns| {
      assert t.conns[k] in t.conns && t.conns[k] in t'.conns;
      FoundByExtid(t'.conns, t.conns[k]);
    } else {
      assert forall i :: 0 <= i < |t.conns| ==> t.conns[i].oid != oid;
      assert forall c :: c in t'.conns ==> c.oid != oid;
      assert forall i :: 0 <= i < |t'.conns| ==> t'.conns[i] in t'.conns;
    }
  }

  /** What happens to a relay before its end changes its connection only by making it. */
  lemma OwnKeeps(t: Side, oid: Oid, s: State, e: Event)
    requires SideOk(t) && OID_BROADCAST < oid <= OID_LAST && oid != t.oid && Allowed(t, oid, Own(e)) && e != Destroyed
    ensures var (t', s', ids) := Moved(t, oid, s, Own(e));
            && SideOk(t') && t'.oid == t.oid && IdOf(t', oid) == IdOf(t, oid)
            && forall x :: x in ids ==> x == IdOf(t, oid)
  {
    hide Queued, SideOk, IdOf;
    var acts := Step(s, e).1;
    QueuedUnderId(t, oid, false);
    if acts == [] {
      OneAct(t, oid, Failed);
      OneExtid(t, oid, Failed);
    } else {
      assert acts == [acts[0]];
      OneAct(t, oid, acts[0]);
      OneExtid(t, oid, acts[0]);
    }
  }

  lemma {:induction false} LifeKeeps(t: Side, oid: Oid, s: State, life: seq<Move>)
    requires SideOk(t) && OID_BROADCAST < oid <= OID_LAST && oid != t.oid
    requires Lives(t, oid, s, life) && Own(Destroyed) !in life
    ensures var (u, v, ids) := Lived(t, oid, s, life);
            && SideOk(u) && u.oid == t.oid && IdOf(u, oid) == IdOf(t, oid)
            && forall x :: x in ids ==> x == IdOf(t, oid)
    decreases |life|
  {
    hide SideOk, IdOf, Moved, Allowed;
    if life != [] {
      var (t', s', ids) := Moved(t, oid, s, life[0]);
      if life[0].Own? {
        OwnKeeps(t, oid, s, life[0].e);
      } else {
        OthersKeep(t, oid, s, life[0]);
        OthersSayNothing(t, oid, s, life[0]);
      }
      LifeKeeps(t', oid, s', life[1..]);
    }
  }

  lemma OthersSayNothing(t: Side, oid: Oid, s: State, m: Move)
    requires !m.Own?
    ensures Moved(t, oid, s, m).2 == [] && Moved(t, oid, s, m).1 == s
  {
  }

  lemma {:induction false} StaysAway(t: Side, oid: Oid, s: State, later: seq<Move>)
    requires SideOk(t) && OID_BROADCAST < oid <= OID_LAST && oid != t.oid
    requires Lives(t, oid, s, later) && forall m :: m in later ==> !m.Own?
    requires forall c :: c in t.conns ==> c.oid != oid
    ensures SideOk(Lived(t, oid, s, later).0) && forall c :: c in Lived(t, oid, s, later).0.conns ==> c.oid != oid
    decreases |later|
  {
    hide SideOk, IdOf, Moved, Allowed;
    if later != [] {
      OthersKeep(t, oid, s, later[0]);
      OthersSayNothing(t, oid, s, later[0]);
      StaysAway(Moved(t, oid, s, later[0]).0, oid, s, later[1..]);
    }
  }

  /** Among any messages of other relays and of the other side: all that a relay sends in its life goes under one
      extid, and so does the notice of its end; and after that no connection of it is in the table, then or later. */
  lemma LifeUnderOneId(t: Side, oid: Oid, s: State, life: seq<Move>, later: seq<Move>)
    requires SideOk(t) && OID_BROADCAST < oid <= OID_LAST && oid != t.oid
    requires Lives(t, oid, s, life) && Own(Destroyed) !in life && forall m :: m in later ==> !m.Own?
    ensures var (u, v, ids) := Lived(t, oid, s, life);
            var (t', s', notice) := Moved(u, oid, v, Own(Destroyed));
            && SideOk(u) && (forall x :: x in ids ==> x == IdOf(t, oid))
            && (v.connected && v.local.Some? ==> SideOk(t') && notice == [IdOf(t, oid)])
            && (v.connected && v.local.Some? && Lives(t', oid, s', later) ==>
                forall c :: c in Lived(t', oid, s', later).0.conns ==> c.oid != oid)
  {
    hide SideOk, IdOf, Queued, Lived, Lives;
    LifeKeeps(t, oid, s, life);
    var (u, v, ids) := Lived(t, oid, s, life);
    if v.connected && v.local.Some? {
      OneAct(u, oid, DeleteOut(v.local));
      OneExtid(u, oid, DeleteOut(v.local));
      QueuedUnderId(u, oid, true);
      var (t', s', notice) := Moved(u, oid, v, Own(Destroyed));
      if Lives(t', oid, s', later) {
        StaysAway(t', oid, s', later);
      }
    }
  }

  // ------------------------------------------------------------------------- mail

  /** The messages passed inward, and those passed outward, in order. */
  function Passed(acts: seq<Act>, inward: bool): seq<nat> {
    if acts == [] then []
    else (if (acts[0].Inward? && inward) || (acts[0].Outward? && !inward) then [acts[0].tag] else [])
         + Passed(acts[1..], inward)
  }

  /** The messages that the local object sent, or that others sent. */
  function Mail(events: seq<Event>, local: Oid, inward: bool): seq<nat> {
    if events == [] then []
    else (if events[0].Arrives? && (events[0].src != local) == inward then [events[0].tag] else [])
         + Mail(events[1..], local, inward)
  }

  lemma {:induction false} PassedConcat(a: seq<Act>, b: seq<Act>, inward: bool)
    ensures Passed(a + b, inward) == Passed(a, inward) + Passed(b, inward)
    decreases |a|
  {
    if a == [] {
      assert a + b == b;
    } else {
      assert (a + b)[0] == a[0] && (a + b)[1..] == a[1..] + b;
      PassedConcat(a[1..], b, inward);
    }
  }

  /** As long as the other side is there, every message is passed on once, in order: those of the local
      object to the other side, all others to the local object. */
  lemma {:induction false} AllPassed(s: State, local: Oid, events: seq<Event>, inward: bool)
    requires s.local == Some(local) && s.connected && forall e :: e in events ==> !Loses(s, e)
    ensures Passed(Acts(s, events), inward) == Mail(events, local, inward)
    decreases |events|
  {
    if events != [] {
      var (t, now) := Step(s, events[0]);
      StepKeeps(s, events[0]);
      assert !Loses(s, events[0]);
      assert forall e :: Loses(t, e) <==> Loses(s, e);
      AllPassed(t, local, events[1..], inward);
      PassedConcat(now, Acts(t, events[1..]), inward);
      PassedNow(s, local, events[0], inward);
    }
  }

  lemma PassedNow(s: State, local: Oid, e: Event, inward: bool)
    requires s.local == Some(local) && s.connected
    ensures Passed(Step(s, e).1, inward)
         == if e.Arrives? && (e.src != local) == inward then [e.tag] else []
  {
    var now := Step(s, e).1;
    assert |now| == 1 ==> now[1..] == [];
  }

  /** The message that makes the local object goes to that object, and so does all that comes later but for
      what the object sends. */
  lemma FirstGoesIn(s: State, src: Oid, tag: nat, spare: Oid, later: seq<Event>, inward: bool)
    requires s.local.None? && s.connected && src != spare && forall e :: e in later ==> !Loses(s, e)
    ensures var events := [Arrives(src, tag, spare)] + later;
            && After(s, events).local == Some(spare)
            && Passed(Acts(s, events), inward) == (if inward then [tag] else []) + Mail(later, spare, inward)
  {
    var first := Arrives(src, tag, spare);
    var events := [first] + later;
    var (t, now) := Step(s, first);
    assert events[0] == first && events[1..] == later;
    assert now == [Inward(tag)] && now[1..] == [];
    assert forall e :: Loses(t, e) <==> Loses(s, e);
    AllPassed(t, spare, later, inward);
    ConnectedUntilLost(t, later);
    PassedConcat(now, Acts(t, later), inward);
  }

  predicate IsMail(a: Act) {
    a.Inward? || a.Outward? || a.DeleteOut?
  }

  lemma ErrorsNow(s: State, local: Oid, e: Event)
    requires s.local == Some(local) && s.connected && !Loses(s, e)
    ensures var (t, now) := Step(s, e);
            && t.local == Some(local) && t.connected && (forall x :: Loses(t, x) <==> Loses(s, x))
            && (ErrorOut(Some(local)) in now <==> e == LocalFailed(local))
            && (Blamed(local) in now <==> e == RemoteFailed)
            && |now| <= 1
  {
  }

  lemma CountFirst<T>(first: seq<T>, rest: seq<T>, x: T)
    requires |first| <= 1
    ensures multiset(first + rest)[x] == multiset(rest)[x] + if x in first then 1 else 0
  {
    assert |first| == 1 ==> first == [first[0]];
  }

  /** As long as the other side is there, it learns of every error of the local object, and the local object
      of every error of the other side. */
  lemma {:induction false} AllErrorsPassed(s: State, local: Oid, events: seq<Event>, a: Act, e: Event)
    requires s.local == Some(local) && s.connected && forall x :: x in events ==> !Loses(s, x)
    requires (a == ErrorOut(Some(local)) && e == LocalFailed(local)) || (a == Blamed(local) && e == RemoteFailed)
    ensures multiset(Acts(s, events))[a] == multiset(events)[e]
    decreases |events|
  {
    if events != [] {
      var (t, now) := Step(s, events[0]);
      ErrorsNow(s, local, events[0]);
      assert !Loses(s, events[0]);
      var rest := Acts(t, events[1..]);
      assert Acts(s, events) == now + rest;
      hide Step, Loses, Acts;
      AllErrorsPassed(t, local, events[1..], a, e);
      assert events == [events[0]] + events[1..];
      CountFirst(now, rest, a);
      CountFirst([events[0]], events[1..], e);
    }
  }

  /** There are no other errors, and no message fails. */
  lemma {:induction false} NoOtherErrors(s: State, local: Oid, events: seq<Event>)
    requires s.local == Some(local) && s.connected && forall e :: e in events ==> !Loses(s, e)
    ensures forall a :: a in Acts(s, events) && !IsMail(a) ==> a == ErrorOut(Some(local)) || a == Blamed(local)
    decreases |events|
  {
    if events != [] {
      ErrorsNow(s, local, events[0]);
      assert !Loses(s, events[0]);
      NoOtherErrors(Step(s, events[0]).0, local, events[1..]);
    }
  }
}
