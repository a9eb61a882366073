/**
 * The link map of main.c: proxies, objects created on first use, the recursive
 * destruction of objects, idle cleanup, error forwarding and reset.
 */
module ObjectMaps {
  import opened Links
  import opened Worlds
  import opened Cascades
  import opened Settling
  import opened Notices
  import opened Cleanups

  /** The `MsgLink*` given to `casycom_destroy_object`: a copy of an erased link, or a link still in the map. */
  datatype LinkRef = Saved(link: Link) | InMap(k: nat)

  ghost predicate Grown(before: seq<Link>, after: seq<Link>) {
    && Live(after) == Live(before)
    && forall d :: Block(before, d) <= Block(after, d)
  }

  class ObjectMap {
    var links: seq<Link>
    /** Whether the object's factory has an error handler that accepts an error blamed on the second oid. */
    const accepts: (Oid, Oid) -> bool

    ghost var born: map<Oid, nat>
    ghost var created: seq<Oid>
    ghost var destroyed: seq<Oid>
    ghost var notified: seq<Notice>
    /** The objects that were marked unused since the last cleanup began. */
    ghost var marks: set<Oid>
    ghost var offered: seq<(Oid, Oid)>

    ghost function State(): World
      reads this
    {
      World(links, born, created, destroyed)
    }

    ghost predicate Steady()
      reads this
    {
      Valid(State()) && Quiescent(State())
    }

    constructor (accepts: (Oid, Oid) -> bool)
      ensures Steady() && State() == EMPTY && this.accepts == accepts
    {
      links := [];
      this.accepts := accepts;
      born, created, destroyed, notified, offered, marks := map[], [], [], [], [], {};
    }

    // ------------------------------------------------------------- lookups

    method LowerBound(oid: Oid) returns (first: nat)
      requires Ordered(links)
      ensures first <= |links|
      ensures forall i :: 0 <= i < first ==> links[i].dest < oid
      ensures forall i :: first <= i < |links| ==> oid <= links[i].dest
    {
      var last := |links|;
      first := 0;
      while first < last
        invariant first <= last <= |links|
        invariant forall i :: 0 <= i < first ==> links[i].dest < oid
        invariant forall i :: last <= i < |links| ==> oid <= links[i].dest
      {
        var mid := (first + last) / 2;
        assert forall i :: 0 <= i < mid ==> Before(links[i], links[mid]);
        assert forall i :: mid < i < |links| ==> Before(links[mid], links[i]);
        if links[mid].dest < oid {
          first := mid + 1;
        } else {
          last := mid;
        }
      }
    }

    /** The link with the object of `doid`, or the size of the map for NULL: the binary search agrees with a scan. */
    method FindDestination(doid: Oid) returns (dp: nat)
      requires Ordered(links)
      ensures dp == FirstOf(links, doid)
    {
      dp := LowerBound(doid);
      var scan := FirstOf(links, doid);
      if dp < |links| && links[dp].dest == doid {
        assert !(dp < scan) && !(scan < dp);
        return;
      }
      assert dp < |links| ==> forall i :: dp < i < |links| ==> Before(links[dp], links[i]);
      dp := |links|;
    }

    /** The oldest link from `src` to `dest`; the size of the map stands for SIZE_MAX. */
    method LinkForProxy(src: Oid, dest: Oid) returns (l: nat)
      requires Ordered(links)
      ensures l <= |links|
      ensures l < |links| ==> links[l].src == src && links[l].dest == dest
      ensures forall i :: 0 <= i < l ==> links[i].src != src || links[i].dest != dest
    {
      l := LowerBound(dest);
      while l < |links| && links[l].dest == dest
        invariant l <= |links|
        invariant forall i :: 0 <= i < l ==> links[i].src != src || links[i].dest != dest
        invariant forall i :: l <= i < |links| ==> dest <= links[i].dest
      {
        if links[l].src == src {
          return;
        }
        l := l + 1;
      }
      forall i | l <= i < |links|
        ensures links[i].dest != dest
      {
        assert l < i ==> Before(links[l], links[i]);
      }
      l := |links|;
    }

    method LinkForObject(o: nat) returns (dp: nat)
      ensures dp <= |links|
      ensures dp < |links| ==> links[dp].o == o
      ensures forall i :: 0 <= i < dp ==> links[i].o != o
    {
      dp := 0;
      while dp < |links|
        invariant dp <= |links|
        invariant forall i :: 0 <= i < dp ==> links[i].o != o
      {
        if links[dp].o == o {
          return;
        }
        dp := dp + 1;
      }
    }

    // -------------------------------------------------------------- proxies

    /** The new link goes behind the older links to `dest`. */
    method CreateProxyTo(iface: nat, src: Oid, dest: Oid)
      requires Ordered(links)
      modifies this`links
      ensures links == Insert(old(links), Link(0, iface, src, dest, false))
      ensures Ordered(links)
      ensures old(FewCallers(links)) && (src == OID_BROADCAST || |old(Callers(links, dest))| < MAX_CALLERS)
          ==> FewCallers(links)
      ensures old(Valid(State())) && (src == OID_BROADCAST || src in born) && dest != OID_BROADCAST && dest != src
          ==> Valid(State()) && Next(old(State()), NewProxy(src, dest, iface), State())
              && Live(links) == old(Live(links))
    {
      var ip := LowerBound(dest);
      while ip < |links| && links[ip].dest == dest
        invariant ip <= |links|
        invariant forall i :: 0 <= i < ip ==> links[i].dest <= dest
        invariant forall i :: ip <= i < |links| ==> dest <= links[i].dest
      {
        ip := ip + 1;
      }
      if ip < |links| {
        assert forall i :: ip < i < |links| ==> Before(links[ip], links[i]);
      }
      EndOfIsUnique(links, dest, ip);
      var e := Link(0, iface, src, dest, false);
      InsertOrdered(links, e);
      ghost var w := State();
      links := links[..ip] + [e] + links[ip..];
      InsertLive(w.links, e);
      if FewCallers(w.links) && (src == OID_BROADCAST || |Callers(w.links, dest)| < MAX_CALLERS) {
        InsertFew(w.links, e);
      }
      if Valid(w) && (src == OID_BROADCAST || src in born) && dest != OID_BROADCAST && dest != src {
        ProxyKeeps(w, src, dest, iface, State());
      }
    }

    /** A proxy to a new object. Its oid is the first gap above the smallest oid in use,
        or 0 when all the oids from there to the last 16-bit value are in use. */
    method CreateProxy(iface: nat, src: Oid) returns (nid: Oid)
      requires Ordered(links) && (links != [] ==> links[0].dest != OID_BROADCAST)
      modifies this`links
      ensures Ordered(links)
      ensures links == Insert(old(links), Link(0, iface, src, nid, false))
      ensures old(FewCallers(links)) && nid != OID_BROADCAST ==> FewCallers(links)
      ensures nid == OID_BROADCAST <==> forall k: Oid :: old(Start(links)) <= k ==> old(Used(links, k))
      ensures nid != OID_BROADCAST ==> !old(Used(links, nid)) && OID_FIRST <= nid && old(Start(links)) <= nid
      ensures nid != OID_BROADCAST ==> forall k: Oid :: old(Start(links)) <= k < nid ==> old(Used(links, k))
      ensures old(Valid(State())) && (src == OID_BROADCAST || src in born) && nid != OID_BROADCAST
          ==> Valid(State()) && Next(old(State()), NewProxy(src, nid, iface), State())
              && Live(links) == old(Live(links))
    {
      nid := OID_FIRST;
      if |links| > 0 {
        nid := links[0].dest;
      }
      var ip := 0;
      while ip < |links|
        invariant ip <= |links|
        invariant nid == OID_BROADCAST ==> ip > 0 && forall k: Oid :: Start(links) <= k ==> Used(links, k)
        invariant nid != OID_BROADCAST ==> Start(links) <= nid && (ip > 0 ==> Start(links) < nid)
        invariant nid != OID_BROADCAST ==> forall k: Oid :: Start(links) <= k < nid ==> Used(links, k)
        invariant nid != OID_BROADCAST ==> forall i :: 0 <= i < ip ==> links[i].dest < nid
      {
        assert forall i :: ip < i < |links| ==> Before(links[ip], links[i]);
        assert ip > 0 ==> Before(links[0], links[ip]);
        if nid < links[ip].dest {
          break;
        }
        if nid == links[ip].dest {
          assert Used(links, nid);
          nid := (nid + 1) % OID_SPAN;
        }
        ip := ip + 1;
      }
      assert nid != OID_BROADCAST ==> !Used(links, nid);
      if nid != OID_BROADCAST && Valid(State()) && src in born {
        assert BornOk(State(), src);
        BlockHead(links, src);
        assert Used(links, src);
      }
      if nid != OID_BROADCAST {
        UncalledIfUnused(links, nid);
      }
      CreateProxyTo(iface, src, nid);
    }

    static predicate Used(links: seq<Link>, k: Oid) {
      exists i :: 0 <= i < |links| && links[i].dest == k
    }

    static function Start(links: seq<Link>): Oid {
      if links == [] then OID_FIRST else links[0].dest
    }

    // ------------------------------------------------- destruction of objects

    /** The destructor of the object ran, and no other since. */
    ghost predicate JustDestroyed(oid: Oid)
      reads this
    {
      destroyed != [] && destroyed[|destroyed| - 1] == oid
    }

    /** A user's `object_destroyed` handler, called for the object at `o`, which is null if that is
        destroyed already: it may mark objects unused. */
    method ObjectDestroyed(caller: Oid, o: nat, oid: Oid)
      requires Ordered(links) && JustDestroyed(oid)
      modifies this`links, this`notified, this`marks
      ensures Marked(old(links), links) && Marks(old(links), old(marks), links, marks)
      ensures notified == old(notified) + [Notice(caller, o, oid)]
    {
      hide Marks;
      notified := notified + [Notice(caller, o, oid)];
      var times: int := *;
      MarksNone(links, marks);
      while times > 0
        invariant Marked(old(links), links) && Marks(old(links), old(marks), links, marks)
        invariant notified == old(notified) + [Notice(caller, o, oid)]
      {
        times := times - 1;
        var other: nat := *;
        if other != 0 {
          ghost var before, some := links, marks;
          MarkUnused(other);
          MarkedTransitive(old(links), before, links);
          MarksMore(old(links), old(marks), before, some, links, marks);
        }
      }
    }

    /** Sets the flag of the link that carries `o`, if there is one. */
    method MarkUnused(o: nat)
      requires o != 0
      modifies this`links, this`marks
      ensures Marked(old(links), links) && Marks(old(links), old(marks), links, marks)
      ensures forall i :: 0 <= i < |links| ==> (links[i].unused <==>
                old(links)[i].unused || (old(links)[i].o == o && forall j :: 0 <= j < i ==> old(links)[j].o != o))
    {
      hide Marks;
      var ml := LinkForObject(o);
      if ml < |links| {
        MarksOne(links, ml, marks);
        marks := marks + {links[ml].dest};
        links := links[ml := links[ml].(unused := true)];
      } else {
        MarksNone(links, marks);
      }
    }

    ghost function Now(): Books
      reads this
    {
      BooksOf(links, marks, notified, destroyed)
    }

    /** `running` are the objects that are destroyed and whose links are being erased. */
    method DestroyLinkAt(l: nat, ghost running: set<Oid>)
      requires Ordered(links) && FewCallers(links) && Grounded(links, running)
      modifies this`links, this`born, this`destroyed, this`notified, this`marks
      ensures Ordered(links) && FewCallers(links) && Grounded(links, running)
      ensures old(notified) <= notified && old(destroyed) <= destroyed
      ensures Buried(old(State()), State(), destroyed[|old(destroyed)|..])
      ensures l < |old(links)| ==> DropsLink(old(links), l, links, destroyed[|old(destroyed)|..])
      ensures l >= |old(links)| ==> links == old(links) && destroyed == old(destroyed)
      ensures l < |old(links)| ==> |links| < |old(links)|
      ensures l < |old(links)| && old(links)[l].o != 0 ==>
                var base, d := Erase(old(links), l), old(links)[l].dest;
                old(notified) + Told(base, Callers(base, d), d) <= notified
      ensures Since(old(Now()), Now(), running)
      decreases |links|, 0
    {
      hide Grounded, Since, Told, Callers, BooksOf, DestroyedSince;
      BuriesNothing(State());
      SinceNothing(Now(), running);
      if l >= |links| {
        return;
      }
      var ol := links[l];
      ghost var before, some, told, done := links, marks, notified, destroyed;
      EraseOrdered(links, l);
      EraseLive(links, l);
      EraseGrounded(links, l, running);
      CallersErase(links, l);
      links := links[..l] + links[l + 1..];
      if ol.o != 0 {
        DestroyObject(Saved(ol), running);
        RootIsDestroyed(Erase(before, l), ol.dest, links, before, some, told, done, Now());
      } else {
        assert running + {} == running;
        SinceNothing(Now(), running);
      }
      SinceErased(before, l, some, told, done, Now(), running);
    }

    /** Destroys the object of `ol`, tells its callers, and erases every link that leaves
        it, which destroys the objects it created. */
    method DestroyObject(ol: LinkRef, ghost running: set<Oid>)
      requires Ordered(links) && FewCallers(links)
      requires ol.InMap? ==> ol.k < |links|
      requires ol.Saved? && ol.link.o != 0 ==> ol.link.dest !in Live(links)
      requires Target(ol).o != 0 ==> Grounded(Base(ol), running + {Target(ol).dest})
      modifies this`links, this`born, this`destroyed, this`notified, this`marks
      ensures Ordered(links) && FewCallers(links) && |links| <= |old(links)|
      ensures old(destroyed) <= destroyed && Buried(old(State()), State(), destroyed[|old(destroyed)|..])
      ensures old(Target(ol)).o == 0 ==> links == old(links) && destroyed == old(destroyed) && notified == old(notified)
      ensures old(Target(ol)).o != 0 ==>
                && Cascaded(old(Base(ol)), old(Target(ol)).dest, links, destroyed[|old(destroyed)|..])
                && Grounded(links, running)
      ensures old(Target(ol)).o != 0 ==>
                var base, d := old(Base(ol)), old(Target(ol)).dest;
                old(notified) + Told(base, Callers(base, d), d) <= notified
      ensures old(Target(ol)).o != 0 ==>
                Since(BooksOf(old(Base(ol)), old(marks), old(notified), old(destroyed)), Now(), running)
      decreases |links|, 2
    {
      hide Cascading, Cascaded, FewCallers, Ordered, Callers, Told, Buried, Grounded, Fair, Since, Live, Marks, BooksOf;
      BuriesNothing(State());
      var target := if ol.Saved? then ol.link else links[ol.k];
      if target.o == 0 {
        return;
      }
      ghost var base, first := Base(ol), BooksOf(Base(ol), marks, notified, destroyed);
      var oid := target.dest;
      destroyed := destroyed + [oid];
      born := born - {oid};
      BooksBuried(base, marks, notified, old(destroyed), oid);
      SinceBuried(first, oid, running + {oid});
      if ol.InMap? {
        EmptiedOrdered(links, ol.k);
        EmptiedFew(links, ol.k);
        links := links[ol.k := links[ol.k].(o := 0, unused := false)];
      }
      ghost var calls := TellCallers(oid, running + {oid});
      SinceMarked(base, links, old(marks), marks, old(notified), calls, destroyed, running + {oid});
      ghost var told := BooksOf(base, old(marks), old(notified), destroyed);
      ghost var w, begun := State(), Now();
      BuriesOne(old(State()), w, oid);
      CascadeStarts(base, oid, links);
      MarkedGrounded(base, links, running + {oid});
      EraseLinksFrom(oid, base, |old(destroyed)|, running + {oid});
      BuriesMore(old(State()), w, State());
      CascadeGrounded(base, oid, running, links, destroyed[|old(destroyed)|..]);
      SinceLonger(first, told, begun, running + {oid});
      SinceLonger(first, begun, Now(), running + {oid});
      BooksLog(base, old(marks), old(notified), old(destroyed), Now(), destroyed);
      SinceWithout(first, Now(), running, oid);
    }

    /** Erases one link at a time and starts over, because each removal may change the whole map. */
    method EraseLinksFrom(oid: Oid, ghost base: seq<Link>, ghost start: nat, ghost running: set<Oid>)
      requires start < |destroyed| && Cascading(base, oid, links, destroyed[start..])
      requires Ordered(links) && FewCallers(links) && Grounded(links, running)
      modifies this`links, this`born, this`destroyed, this`notified, this`marks
      ensures FewCallers(links) && |links| <= |old(links)|
      ensures old(destroyed) <= destroyed && old(notified) <= notified
      ensures Cascaded(base, oid, links, destroyed[start..]) && Ordered(links)
      ensures Buried(old(State()), State(), destroyed[|old(destroyed)|..])
      ensures Since(old(Now()), Now(), running)
      decreases |links|, 1
    {
      hide Cascading, Cascaded, FewCallers, Ordered, DropsLink, Buried, Grounded, Since, Live, Told, Callers, BooksOf;
      var di := 0;
      BuriesNothing(State());
      SinceNothing(Now(), running);
      while di < |links|
        invariant di <= |links| <= |old(links)|
        invariant old(destroyed) <= destroyed && old(notified) <= notified
        invariant Cascading(base, oid, links, destroyed[start..])
        invariant Ordered(links) && FewCallers(links) && Grounded(links, running)
        invariant Buried(old(State()), State(), destroyed[|old(destroyed)|..])
        invariant Since(old(Now()), Now(), running)
        invariant forall i :: 0 <= i < di ==> links[i].src != oid
        decreases |links|, |links| - di
      {
        if links[di].src == oid {
          ghost var w, before := State(), Now();
          DestroyLinkAt(di, running);
          ghost var more := destroyed[|w.destroyed|..];
          SplitLog(w.destroyed, destroyed);
          assert destroyed[start..] == w.destroyed[start..] + more;
          CascadeStep(base, oid, w.links, w.destroyed[start..], di, links, more);
          BuriesMore(old(State()), w, State());
          SinceLonger(old(Now()), before, Now(), running);
          di := 0;
        } else {
          di := di + 1;
        }
      }
      CascadeEnds(base, oid, links, destroyed[start..]);
    }

    /** Collects the callers first, because a handler can change the map. Each one that still has a link is told,
        with a null pointer exactly if its own cascade is running. */
    method TellCallers(oid: Oid, ghost running: set<Oid>) returns (ghost calls: seq<Notice>)
      requires Ordered(links) && FewCallers(links) && Grounded(links, running) && oid in running && JustDestroyed(oid)
      modifies this`links, this`notified, this`marks
      ensures Marked(old(links), links) && FewCallers(links) && Marks(old(links), old(marks), links, marks)
      ensures calls == Told(old(links), Callers(old(links), oid), oid) && notified == old(notified) + calls
      ensures |calls| == |Linked(old(links), Callers(old(links), oid))|
      ensures forall i :: 0 <= i < |calls| ==>
                var caller := Linked(old(links), Callers(old(links), oid))[i];
                && FirstOf(old(links), caller) < |old(links)|
                && calls[i] == Notice(caller, old(links)[FirstOf(old(links), caller)].o, oid)
      ensures Fair(calls, old(Live(links)), running, old(Plain(links)))
    {
      hide FewCallers, Ordered, Callers, FirstOf, Told, Marked, Marks, Call, Grounded, Live, Plain, Fair, Linked;
      ToldInOrder(links, Callers(links, oid), oid);
      var callers, fits := CollectCallers(oid);
      FewFit(links, oid);
      CallersAreTold(links, running, oid);
      MarkedSelf(links);
      MarksNone(links, marks);
      calls := [];
      for i := 0 to |callers|
        invariant Marked(old(links), links) && Ordered(links) && FewCallers(links)
        invariant Marks(old(links), old(marks), links, marks)
        invariant calls == Told(old(links), callers[..i], oid) && notified == old(notified) + calls
      {
        ghost var was, some := links, marks;
        TellCaller(callers[i], oid);
        MarkedCall(old(links), was, callers[i], oid);
        MarkedTransitive(old(links), was, links);
        MarksMore(old(links), old(marks), was, some, links, marks);
        ToldNext(old(links), callers, i, oid);
        calls := calls + Call(was, callers[i], oid);
      }
      assert callers[..|callers|] == callers;
    }

    /** Tells one caller, if there is still a link to it. */
    method TellCaller(caller: Oid, oid: Oid)
      requires Ordered(links) && FewCallers(links) && JustDestroyed(oid)
      modifies this`links, this`notified, this`marks
      ensures Marked(old(links), links) && Ordered(links) && FewCallers(links)
      ensures Marks(old(links), old(marks), links, marks)
      ensures notified == old(notified) + Call(old(links), caller, oid)
    {
      hide FewCallers, Ordered, FirstOf, Marked, Marks;
      MarkedSelf(links);
      MarksNone(links, marks);
      var cl := FindDestination(caller);
      if cl < |links| {
        ghost var was := links;
        ObjectDestroyed(caller, links[cl].o, oid);
        MarkedOrdered(was, links);
        FewCallersMarked(was, links);
      }
    }

    /** The array of 16 is enough if and only if the object has at most 16 callers; else the C code
        writes behind it. */
    method CollectCallers(oid: Oid) returns (callers: seq<Oid>, fits: bool)
      ensures fits <==> |Callers(links, oid)| <= MAX_CALLERS
      ensures fits ==> callers == Callers(links, oid)
    {
      var buffer := new Oid[MAX_CALLERS];
      var nCallers := 0;
      assert links[..0] == [];
      for di := 0 to |links|
        invariant nCallers <= MAX_CALLERS
        invariant buffer[..nCallers] == Callers(links[..di], oid)
      {
        CallersPrefix(links, di, oid);
        if links[di].dest == oid && links[di].src != OID_BROADCAST {
          if nCallers == MAX_CALLERS {
            CallersGrow(links, di + 1, oid);
            return [], false;
          }
          buffer[nCallers] := links[di].src;
          nCallers := nCallers + 1;
        }
      }
      assert links[..|links|] == links;
      return buffer[..nCallers], true;
    }

    ghost function Target(ol: LinkRef): Link
      requires ol.InMap? ==> ol.k < |links|
      reads this`links
    {
      if ol.Saved? then ol.link else links[ol.k]
    }

    ghost function Base(ol: LinkRef): seq<Link>
      requires ol.InMap? ==> ol.k < |links|
      reads this`links
    {
      if ol.Saved? then links else Emptied(links, ol.k)
    }

    method DestroyProxy(src: Oid, dest: Oid)
      requires Steady() && FewCallers(links)
      modifies this`links, this`born, this`destroyed, this`notified, this`marks
      ensures Steady() && FewCallers(links)
      ensures (exists l :: l in old(links) && l.src == src && l.dest == dest) ==>
                exists k :: 0 <= k < |old(links)| && Next(old(State()), DropLink(k), State())
                  && old(links)[k].src == src && old(links)[k].dest == dest
                  && forall i :: 0 <= i < k ==> old(links)[i].src != src || old(links)[i].dest != dest
      ensures (forall l :: l in old(links) ==> l.src != src || l.dest != dest) ==> State() == old(State())
      ensures Since(old(Now()), Now(), {})
    {
      hide FewCallers, DropsLink, Next, Buried, Since;
      var l := LinkForProxy(src, dest);
      ghost var w := State();
      SteadyIsGrounded(State());
      DestroyLinkAt(l, {});
      ghost var log := destroyed[|w.destroyed|..];
      SplitLog(w.destroyed, destroyed);
      if l < |w.links| {
        DropIsNext(w, l, State(), log);
      } else {
        BuriedNothing(w, State());
      }
    }

    // ------------------------------------------------------ idle and reset

    /** Destroys the marked objects, also those marked by the handlers it calls, and starts over after each. What is
        destroyed is exactly the objects flagged before or marked meanwhile and what they created. */
    method DestroyUnusedObjects() returns (ghost log: seq<Oid>)
      requires Steady() && FewCallers(links)
      modifies this`links, this`born, this`destroyed, this`notified, this`marks
      ensures Steady() && FewCallers(links)
      ensures Logged(old(State()), log, State())
      ensures Elements(log) == Under(old(EdgesOf(links)), old(Flagged(links)) + marks)
      ensures forall l :: l in links ==> !l.unused
      ensures links == Settle(old(links), Elements(log))
      ensures old(notified) <= notified
      ensures Fair(notified[|old(notified)|..], old(Live(links)), Elements(log), old(Plain(links)))
    {
      hide Cleaning, Since, Grounded, Live, FewCallers, Settle, Next, Valid, Quiescent, Logged, Cascaded, Flagged,
        Ordered, Elements, Buried, BooksOf, Fair, Plain, Under, EdgesOf;
      log, marks := [], {};
      ghost var start := State();
      CleaningStarts(start, notified);
      var i := 0;
      while i < |links|
        invariant i <= |links|
        invariant Steady() && FewCallers(links)
        invariant Cleaning(start, State(), log, marks, old(notified), notified)
        invariant forall j :: 0 <= j < i ==> !links[j].unused
        decreases |born.Keys|, |links| - i
      {
        if links[i].unused {
          ghost var w, done, some, told := State(), log, marks, notified;
          MarkedIsObject(w, i);
          ValidIsOrdered(w);
          SteadyIsGrounded(w);
          EmptiedGrounded(links, i, {});
          DestroyObject(InMap(i), {});
          ghost var more := destroyed[|w.destroyed|..];
          SplitLog(w.destroyed, destroyed);
          RetireIsNext(w, i, State(), more);
          CleaningGoesOn(start, w, done, some, old(notified), told, i, State(), more, marks, notified);
          log := done + more;
          i := 0;
        } else {
          i := i + 1;
        }
      }
      CleaningEnds(start, State(), log, marks, old(notified), notified);
    }

    /** `casycom_reset`: destroys all objects. */
    method Reset() returns (ghost log: seq<Oid>)
      requires Steady() && FewCallers(links)
      modifies this`links, this`born, this`destroyed, this`notified, this`marks
      ensures links == [] && State() == World([], map[], old(created), old(destroyed) + log)
      ensures Distinct(log) && Elements(log) == old(Live(links))
      ensures Since(old(Now()), Now(), {})
    {
      assert old(born).Keys == old(Live(links));
      hide FewCallers, Valid, Quiescent, DropsLink, Ordered, Next, Logged, Elements, Buried, Since, BooksOf;
      log := [];
      LogStarts(State());
      SinceNothing(Now(), {});
      while |links| > 0
        invariant Steady() && FewCallers(links)
        invariant Logged(old(State()), log, State())
        invariant Since(old(Now()), Now(), {})
        decreases |links|
      {
        ghost var w, done, before := State(), log, Now();
        assert Ordered(links) by { ValidIsOrdered(w); }
        var last := |links| - 1;
        SteadyIsGrounded(w);
        DestroyLinkAt(last, {});
        ghost var more := destroyed[|w.destroyed|..];
        SplitLog(w.destroyed, destroyed);
        DropIsNext(w, last, State(), more);
        log := done + more;
        LogGrows(old(State()), done, w, State(), more);
        SinceLonger(old(Now()), before, Now(), {});
      }
      NothingAlive(old(State()), log, State());
    }

    // --------------------------------------------------- objects on first use

    /** `xalloc`: an address that no object in the map has. */
    method Allocate() returns (o: nat)
      ensures o != 0 && forall l :: l in links ==> l.o != o
    {
      o := 1;
      for i := 0 to |links|
        invariant o != 0 && forall j :: 0 <= j < i ==> links[j].o < o
      {
        if o <= links[i].o {
          o := links[i].o + 1;
        }
      }
    }

    /** A user's constructor for the object of `oid`: it may create proxies from the object, or
        from any other object there is, but gives no object more than 16 callers. */
    method Construct(oid: Oid) returns (o: nat)
      requires Valid(State()) && oid in born && FewCallers(links)
      modifies this`links
      ensures Valid(State()) && FewCallers(links) && Grown(old(links), links)
      ensures o != 0 && forall l :: l in links ==> l.o != o
    {
      hide FewCallers, Next;
      var times: int := *;
      GrownSelf(links);
      while times > 0
        invariant Valid(State()) && FewCallers(links) && Grown(old(links), links)
      {
        times := times - 1;
        var iface: nat, src: Oid, dest: Oid := *, *, *;
        if (src == OID_BROADCAST || src == oid || HasObject(links, src)) && dest != OID_BROADCAST && dest != src
           && |Callers(links, dest)| < MAX_CALLERS {
          ghost var before := State();
          if HasObject(links, src) {
            HasObjectIsLive(before, src);
          }
          CreateProxyTo(iface, src, dest);
          GrownInsert(old(links), before, Link(0, iface, src, dest, false));
        }
      }
      o := Allocate();
    }

    /** The link to deliver a message for `d` to, its object created if need be; the size of the
        map stands for NULL. The constructor may change the map, so the link is looked up again. */
    method FindOrCreateDestination(d: Oid) returns (ml: nat)
      requires Steady() && FewCallers(links)
      modifies this`links, this`born, this`created
      ensures Steady() && FewCallers(links)
      ensures ml == FirstOf(links, d) && (ml < |links| <==> old(Block(links, d)) != [])
      ensures ml < |links| ==> links[ml].o != 0
      ensures old(Block(links, d) == [] || d in Live(links)) ==> State() == old(State())
      ensures old(Block(links, d) != [] && d !in Live(links)) ==>
                && created == old(created) + [d] && born == old(born)[d := |old(created)|]
                && Live(links) == old(Live(links)) + {d}
                && (forall e :: e != d ==> old(Block(links, e)) <= Block(links, e))
                && [old(Block(links, d))[0].(o := links[ml].o)] + old(Block(links, d))[1..] <= Block(links, d)
                && forall l :: l in old(links) ==> l.o != links[ml].o
    {
      hide FewCallers, Next, Valid, Quiescent, Ordered, Grown, Block, FirstOf;
      var no := 0;
      ghost var start := State();
      ValidIsOrdered(start);
      BlockHead(start.links, d);
      while true
        invariant Valid(State()) && FewCallers(links) && Ordered(links)
        invariant no == 0 ==> State() == start
        invariant no != 0 ==> d !in Live(start.links)
        invariant no != 0 ==> d !in start.born && Block(start.links, d) != [] && Grown(start.links, links)
        invariant no != 0 ==> created == start.created + [d] && born == start.born[d := |start.created|]
        invariant no != 0 ==> forall l :: l in links ==> l.o != no
        decreases if no == 0 then 1 else 0
      {
        ml := FindDestination(d);
        if ml == |links| || links[ml].o != 0 {
          if no != 0 {
            GrownKeepsFirst(start, State(), d);
          } else if ml < |links| {
            FirstIsLive(links, d);
          }
          break;
        }
        if no != 0 {
          ghost var w := State();
          links := links[ml := links[ml].(o := no)];
          Constructed(start, w, d, no, State());
          GrownMembers(start.links, w.links);
          break;
        }
        CarrierOnlyFirst(start, d);
        created := created + [d];
        born := born[d := |created| - 1];
        BeginIsNext(start, d, State());
        no := Construct(d);
        ValidIsOrdered(State());
      }
    }

    /** `casycom_create_object`: an object with no creator, made at once. */
    method CreateObject(iface: nat) returns (o: nat, ghost d: Oid)
      requires Steady() && FewCallers(links)
      modifies this`links, this`born, this`created
      ensures d != OID_BROADCAST <==> old(exists k: Oid :: Start(links) <= k && !Used(links, k))
      ensures d != OID_BROADCAST ==>
                && Steady() && FewCallers(links) && o != 0 && created == old(created) + [d]
                && d !in old(Live(links)) && Live(links) == old(Live(links)) + {d}
                && Block(links, d) != [] && Block(links, d)[0].o == o && Block(links, d)[0].src == OID_BROADCAST
    {
      hide FewCallers, Next, Quiescent, Ordered, Valid, Block, FirstOf;
      ghost var start := State();
      assert Ordered(links) && (links != [] ==> links[0].dest != OID_BROADCAST) by {
        ValidIsOrdered(start);
        NoBroadcastLinks(start);
      }
      var oid := CreateProxy(iface, OID_BROADCAST);
      d := oid;
      if oid == OID_BROADCAST {
        return 0, d;
      }
      FreshProxy(start, Link(0, iface, OID_BROADCAST, oid, false));
      var ml := FindOrCreateDestination(oid);
      o := links[ml].o;
    }

    // ---------------------------------------------------------------- errors

    /** Offers the error to `oid`, then up the chain of its creators, to the first that accepts. */
    method ForwardError(oid: Oid, eoid: Oid) returns (handled: bool, ghost asked: nat)
      requires Steady()
      modifies this`offered
      ensures Answered(State(), CreatorChain(State(), oid), eoid, accepts, handled, asked)
      ensures offered == old(offered) + Asked(State(), CreatorChain(State(), oid), eoid, asked)
      decreases if oid == OID_BROADCAST then 0 else 1 + if oid in born then born[oid] else |created|
    {
      ghost var w := State();
      ghost var chain := CreatorChain(w, oid);
      ChainStep(w, oid);
      ValidIsOrdered(w);
      hide Valid, Quiescent, FirstOf, Answered, Ordered, Takes, Live, Asked, CreatorChain;
      var ml := FindDestination(oid);
      if ml == |links| {
        AnsweredByNone(w, eoid, accepts);
        handled, asked := false, 0;
        return;
      }
      var taken := Offer(oid, eoid, links[ml].o);
      if taken {
        AnsweredHere(w, chain, eoid, accepts);
        handled, asked := true, 1;
        return;
      }
      AskedFirst(w, chain, eoid);
      // An object is never created by itself.
      assert links[ml].src != oid;
      handled, asked := ForwardError(links[ml].src, oid);
      AnsweredBelow(w, chain, eoid, accepts, handled, asked);
      OfferedLater(old(offered), Asked(w, chain[..1], eoid, 1), Asked(w, chain[1..], oid, asked));
      asked := asked + 1;
    }

    /** Offers the error to one object, if it is there. */
    method Offer(oid: Oid, eoid: Oid, o: nat) returns (taken: bool)
      modifies this`offered
      ensures taken <==> o != 0 && accepts(oid, eoid)
      ensures offered == old(offered) + if o != 0 then [(oid, eoid)] else []
    {
      taken := false;
      if o != 0 {
        offered := offered + [(oid, eoid)];
        taken := accepts(oid, eoid);
      }
    }
  }

  // -------------------------------------------------------------------- lemmas

  predicate HasObject(links: seq<Link>, d: Oid) {
    exists l :: l in links && l.o != 0 && l.dest == d
  }

  lemma HasObjectIsLive(w: World, d: Oid)
    requires Valid(w) && HasObject(w.links, d)
    ensures d in w.born
  {
    var l :| l in w.links && l.o != 0 && l.dest == d;
    assert LinkOk(l, w.born);
  }

  lemma ValidIsOrdered(w: World)
    requires Valid(w)
    ensures Ordered(w.links)
  {
  }

  lemma MarkedIsObject(w: World, i: nat)
    requires Valid(w) && i < |w.links| && w.links[i].unused
    ensures w.links[i].o != 0
  {
    assert LinkOk(w.links[i], w.born);
  }

  lemma NothingAlive(start: World, log: seq<Oid>, w: World)
    requires Valid(w) && Quiescent(w) && w.links == [] && Logged(start, log, w)
    ensures w == World([], map[], start.created, start.destroyed + log)
    ensures Distinct(log) && Elements(log) == start.born.Keys
  {
    assert Live(w.links) == {};
    assert w.born.Keys == start.born.Keys - Elements(log);
  }

  lemma BuriesNothing(w: World)
    ensures Buried(w, w, w.destroyed[|w.destroyed|..])
  {
    assert w.destroyed[|w.destroyed|..] == [] && w.born - {} == w.born;
  }

  lemma BuriedNothing(w: World, w': World)
    requires w'.destroyed == w.destroyed && Buried(w, w', w'.destroyed[|w.destroyed|..])
    ensures w'.born == w.born
  {
    assert w.born - {} == w.born;
  }

  lemma BuriesOne(w: World, w': World, oid: Oid)
    requires w'.destroyed == w.destroyed + [oid] && w'.born == w.born - {oid} && w'.created == w.created
    ensures Buried(w, w', w'.destroyed[|w.destroyed|..])
    ensures w'.destroyed[|w.destroyed|..] == [oid]
  {
    assert Elements([oid]) == {oid};
  }

  lemma BuriesMore(w: World, w': World, w'': World)
    requires w.destroyed <= w'.destroyed <= w''.destroyed
    requires Buried(w, w', w'.destroyed[|w.destroyed|..])
    requires Buried(w', w'', w''.destroyed[|w'.destroyed|..])
    ensures Buried(w, w'', w''.destroyed[|w.destroyed|..])
  {
    var a, b := w'.destroyed[|w.destroyed|..], w''.destroyed[|w'.destroyed|..];
    assert w''.destroyed[|w.destroyed|..] == a + b;
    ElementsConcat(a, b);
    assert w.born - Elements(a) - Elements(b) == w.born - (Elements(a) + Elements(b));
  }

  /** Every object marked at the start is destroyed or still marked. */
  lemma SplitLog(older: seq<Oid>, newer: seq<Oid>)
    requires older <= newer
    ensures newer == older + newer[|older|..]
  {
  }

  lemma RetireIsNext(w: World, k: nat, w': World, log: seq<Oid>)
    requires Valid(w) && Quiescent(w) && k < |w.links| && w.links[k].o != 0
    requires Cascaded(Emptied(w.links, k), w.links[k].dest, w'.links, log) && Buried(w, w', log)
    ensures Next(w, Retire(k), w') && Valid(w') && Quiescent(w')
    ensures Settle(w'.links, {}) == Settle(w.links, Elements(log))
    ensures Flagged(w.links) - Elements(log) <= Flagged(w'.links)
    ensures Distinct(log) && Elements(log) <= w.born.Keys && |w'.born.Keys| < |w.born.Keys|
  {
    RetireKeeps(w, k, w');
    RetireSettles(w, k, w'.links, log);
    assert w'.born.Keys < w.born.Keys;
    SubsetSize(w'.born.Keys, w.born.Keys);
  }

  lemma SubsetSize(a: set<Oid>, b: set<Oid>)
    requires a < b
    ensures |a| < |b|
  {
    assert |b| == |a| + |b - a| by { assert b == a + (b - a); }
  }

  lemma GrownSelf(links: seq<Link>)
    ensures Grown(links, links)
  {
  }

  lemma GrownInsert(start: seq<Link>, before: World, l: Link)
    requires Valid(before) && Grown(start, before.links) && l.o == 0
    ensures Grown(start, Insert(before.links, l))
  {
    InsertLive(before.links, l);
    forall d
      ensures Block(start, d) <= Block(Insert(before.links, l), d)
    {
      InsertIntoBlock(before.links, l, d);
    }
  }

  lemma InsertFew(links: seq<Link>, l: Link)
    requires FewCallers(links) && (l.src == OID_BROADCAST || |Callers(links, l.dest)| < MAX_CALLERS)
    ensures FewCallers(Insert(links, l))
  {
    var e := EndOf(links, l.dest);
    forall d
      ensures |Callers(Insert(links, l), d)| <= MAX_CALLERS
    {
      assert links == links[..e] + links[e..];
      CallersConcat(links[..e], links[e..], d);
      CallersConcat(links[..e] + [l], links[e..], d);
      CallersConcat(links[..e], [l], d);
      assert [l][1..] == [];
    }
  }

  lemma FirstIsLive(links: seq<Link>, d: Oid)
    requires FirstOf(links, d) < |links| && links[FirstOf(links, d)].o != 0
    ensures d in Live(links)
  {
    assert links[FirstOf(links, d)] in links;
  }

  /** If the first link of a block carries no object, none does. */
  lemma CarrierOnlyFirst(w: World, d: Oid)
    requires Valid(w) && Quiescent(w) && FirstOf(w.links, d) < |w.links| && w.links[FirstOf(w.links, d)].o == 0
    ensures d !in w.born && d !in Live(w.links)
  {
    if d in Live(w.links) {
      CarrierLeads(w.links, d);
    }
  }

  lemma BeginIsNext(w: World, d: Oid, w': World)
    requires Valid(w) && Quiescent(w) && Block(w.links, d) != [] && d !in w.born
    requires w' == w.(born := w.born[d := |w.created|], created := w.created + [d])
    ensures Next(w, BeginObject(d), w') && Valid(w')
  {
    BeginKeeps(w, d, w');
  }

  /** A constructor cannot give its own object a pointer, nor take its links away. */
  lemma GrownKeepsFirst(start: World, w: World, d: Oid)
    requires Valid(start) && Quiescent(start) && d !in start.born && Block(start.links, d) != []
    requires Grown(start.links, w.links)
    ensures FirstOf(w.links, d) < |w.links| && w.links[FirstOf(w.links, d)].o == 0
    ensures d !in Live(w.links) && Block(w.links, d) != [] && Block(w.links, d)[0] == Block(start.links, d)[0]
  {
    assert Block(start.links, d) <= Block(w.links, d);
    BlockHead(start.links, d);
    BlockHead(w.links, d);
    if w.links[FirstOf(w.links, d)].o != 0 {
      FirstIsLive(w.links, d);
    }
  }

  lemma GrownMembers(before: seq<Link>, after: seq<Link>)
    requires Grown(before, after)
    ensures forall l :: l in before ==> l in after
  {
    forall l | l in before
      ensures l in after
    {
      BlockHead(before, l.dest);
      BlockHead(after, l.dest);
      assert Block(before, l.dest) <= Block(after, l.dest);
      assert l in Block(before, l.dest);
    }
  }

  /** What one construction does to the map, from the lookup to the stored pointer. */
  lemma Constructed(start: World, w: World, d: Oid, o: nat, w': World)
    requires Valid(start) && Quiescent(start) && d !in start.born && Block(start.links, d) != []
    requires Valid(w) && Grown(start.links, w.links) && FewCallers(w.links)
    requires w.born == start.born[d := |start.created|]
    requires o != 0 && forall l :: l in w.links ==> l.o != o
    requires var f := FirstOf(w.links, d); f < |w.links| && w' == w.(links := w.links[f := w.links[f].(o := o)])
    ensures Valid(w') && Quiescent(w') && FewCallers(w'.links) && FirstOf(w'.links, d) == FirstOf(w.links, d)
    ensures Live(w'.links) == Live(start.links) + {d}
    ensures forall e :: e != d ==> Block(start.links, e) <= Block(w'.links, e)
    ensures [Block(start.links, d)[0].(o := o)] + Block(start.links, d)[1..] <= Block(w'.links, d)
  {
    GrownKeepsFirst(start, w, d);
    EndIsNext(w, d, o, w');
    forall e | e != d
      ensures Block(start.links, e) <= Block(w'.links, e)
    {
      assert Block(start.links, e) <= Block(w.links, e);
    }
    assert Block(start.links, d) <= Block(w.links, d);
  }

  lemma EndIsNext(w: World, d: Oid, o: nat, w': World)
    requires Valid(w) && d in w.born && d !in Live(w.links) && Block(w.links, d) != []
    requires o != 0 && forall l :: l in w.links ==> l.o != o
    requires var f := FirstOf(w.links, d); f < |w.links| && w' == w.(links := w.links[f := w.links[f].(o := o)])
    ensures Next(w, EndObject(d, o), w') && Valid(w')
    ensures Live(w'.links) == Live(w.links) + {d} && FirstOf(w'.links, d) == FirstOf(w.links, d)
    ensures forall e :: e != d ==> Block(w'.links, e) == Block(w.links, e)
    ensures Block(w'.links, d) == [Block(w.links, d)[0].(o := o)] + Block(w.links, d)[1..]
    ensures FewCallers(w.links) ==> FewCallers(w'.links)
  {
    EndKeeps(w, d, o, w');
    EndBlocks(w.links, d, o);
  }

  /** Storing a pointer in the first link of a block changes nothing else. */
  lemma EndBlocks(links: seq<Link>, d: Oid, o: nat)
    requires FirstOf(links, d) < |links| && Block(links, d) != []
    ensures var after := links[FirstOf(links, d) := links[FirstOf(links, d)].(o := o)];
            && FirstOf(after, d) == FirstOf(links, d)
            && (forall e :: e != d ==> Block(after, e) == Block(links, e))
            && (forall e :: Callers(after, e) == Callers(links, e))
            && Block(after, d) == [Block(links, d)[0].(o := o)] + Block(links, d)[1..]
  {
    var f := FirstOf(links, d);
    var l := links[f].(o := o);
    var after := links[f := l];
    NoneBefore(links, d);
    SameFirst(links, after, d);
    hide Block, Callers, FirstOf;
    forall e
      ensures e != d ==> Block(after, e) == Block(links, e)
      ensures Callers(after, e) == Callers(links, e)
    {
      BlockUpdate(links, f, l, e);
      CallersUpdate(links, f, l, e);
    }
    BlockUpdate(links, f, l, d);
    FirstReplaced([], links[f], l, Block(links[f + 1..], d), Block(links, d), Block(after, d));
  }

  lemma NoneBefore(links: seq<Link>, d: Oid)
    ensures Block(links[..FirstOf(links, d)], d) == []
  {
    var front := links[..FirstOf(links, d)];
    assert forall m :: m in front ==> m.dest != d;
    hide FirstOf;
    BlockEmpty(front, d);
  }

  lemma FirstReplaced(none: seq<Link>, a: Link, b: Link, rest: seq<Link>, before: seq<Link>, after: seq<Link>)
    requires none == [] && before == none + [a] + rest && after == none + [b] + rest
    ensures before[0] == a && after == [b] + before[1..]
  {
  }

  lemma SameFirst(a: seq<Link>, b: seq<Link>, d: Oid)
    requires |a| == |b| && forall i :: 0 <= i < |a| ==> a[i].dest == b[i].dest
    ensures FirstOf(a, d) == FirstOf(b, d)
  {
    var f, g := FirstOf(a, d), FirstOf(b, d);
    assert !(f < g) && !(g < f);
  }

  lemma CallersUpdate(links: seq<Link>, k: nat, l: Link, d: Oid)
    requires k < |links| && l.src == links[k].src && l.dest == links[k].dest
    ensures Callers(links[k := l], d) == Callers(links, d)
  {
    assert links == links[..k] + [links[k]] + links[k + 1..];
    assert links[k := l] == links[..k] + [l] + links[k + 1..];
    CallersConcat(links[..k] + [links[k]], links[k + 1..], d);
    CallersConcat(links[..k] + [l], links[k + 1..], d);
    CallersConcat(links[..k], [links[k]], d);
    CallersConcat(links[..k], [l], d);
    assert [links[k]][1..] == [l][1..] == [];
  }

  lemma CallersPrefix(links: seq<Link>, k: nat, d: Oid)
    requires k < |links|
    ensures Callers(links[..k + 1], d) == Callers(links[..k], d)
              + if links[k].dest == d && links[k].src != OID_BROADCAST then [links[k].src] else []
    ensures |Callers(links[..k + 1], d)| <= |Callers(links, d)|
  {
    assert links[..k + 1] == links[..k] + [links[k]] && links == links[..k + 1] + links[k + 1..];
    CallersConcat(links[..k], [links[k]], d);
    CallersConcat(links[..k + 1], links[k + 1..], d);
    assert [links[k]][1..] == [];
  }

  lemma FewCallersMarked(a: seq<Link>, b: seq<Link>)
    requires Marked(a, b) && FewCallers(a)
    ensures FewCallers(b)
  {
    forall d
      ensures |Callers(b, d)| <= MAX_CALLERS
    {
      CallersMarked(a, b, d);
    }
  }

  /** The link of a new proxy is the whole block of its new oid. */
  lemma FreshProxy(w: World, l: Link)
    requires Valid(w) && Quiescent(w) && forall i :: 0 <= i < |w.links| ==> w.links[i].dest != l.dest
    requires l.o == 0
    ensures Block(Insert(w.links, l), l.dest) == [l] && l.dest !in Live(w.links)
    ensures Quiescent(w.(links := Insert(w.links, l)))
  {
    InsertIntoBlock(w.links, l, l.dest);
    UncalledIfUnused(w.links, l.dest);
    InsertLive(w.links, l);
  }

  /** One step of the creator chain, as the map shows it. */
  lemma ChainStep(w: World, oid: Oid)
    requires Valid(w) && Quiescent(w)
    ensures var f, chain := FirstOf(w.links, oid), CreatorChain(w, oid);
            if f == |w.links| then
              chain == []
            else
              var src := w.links[f].src;
              && chain == [oid] + CreatorChain(w, src) && chain[1..] == CreatorChain(w, src) && src != oid
              && (oid in Live(w.links) <==> w.links[f].o != 0)
              && (src != OID_BROADCAST ==> src in w.born && w.born[src] < |w.created|)
              && (src != OID_BROADCAST && oid in w.born ==> w.born[src] < w.born[oid])
              && oid != OID_BROADCAST
  {
    BlockHead(w.links, oid);
    BroadcastIsUnlinked(w);
    var f := FirstOf(w.links, oid);
    if f < |w.links| {
      assert LinkOk(w.links[f], w.born);
      var src := w.links[f].src;
      assert oid in w.born ==> BornOk(w, oid);
      assert src in w.born ==> BornOk(w, src);
      FirstCarries(w, oid);
      assert ([oid] + CreatorChain(w, src))[1..] == CreatorChain(w, src);
      BlockHead(w.links, OID_BROADCAST);
    }
  }

  lemma AnsweredByNone(w: World, failed: Oid, accepts: (Oid, Oid) -> bool)
    ensures Answered(w, [], failed, accepts, false, 0) && Asked(w, [], failed, 0) == []
  {
  }

  lemma AskedFirst(w: World, chain: seq<Oid>, failed: Oid)
    requires chain != []
    ensures Asked(w, chain[..1], failed, 1) == if chain[0] in Live(w.links) then [(chain[0], failed)] else []
  {
    assert Asked(w, chain[..1][1..], chain[0], 0) == [];
  }

  lemma OfferedLater(before: seq<(Oid, Oid)>, above: seq<(Oid, Oid)>, below: seq<(Oid, Oid)>)
    ensures before + above + below == before + (above + below)
  {
  }

  lemma AnsweredHere(w: World, chain: seq<Oid>, failed: Oid, accepts: (Oid, Oid) -> bool)
    requires chain != [] && chain[0] in Live(w.links) && accepts(chain[0], failed)
    ensures Answered(w, chain, failed, accepts, true, 1) && Asked(w, chain, failed, 1) == [(chain[0], failed)]
  {
    assert Asked(w, chain[1..], chain[0], 0) == [];
  }

  lemma NoBroadcastLinks(w: World)
    requires Valid(w)
    ensures w.links != [] ==> w.links[0].dest != OID_BROADCAST
  {
    assert w.links != [] ==> LinkOk(w.links[0], w.born);
  }

  lemma BroadcastIsUnlinked(w: World)
    requires Valid(w)
    ensures FirstOf(w.links, OID_BROADCAST) == |w.links|
  {
    forall i | 0 <= i < |w.links|
      ensures w.links[i].dest != OID_BROADCAST
    {
      assert LinkOk(w.links[i], w.born);
    }
  }

  lemma FirstCarries(w: World, d: Oid)
    requires Valid(w) && FirstOf(w.links, d) < |w.links|
    ensures d in Live(w.links) <==> w.links[FirstOf(w.links, d)].o != 0
  {
    if d in Live(w.links) {
      CarrierLeads(w.links, d);
    } else if w.links[FirstOf(w.links, d)].o != 0 {
      FirstIsLive(w.links, d);
    }
  }

  lemma {:induction false} UncalledIfUnused(links: seq<Link>, d: Oid)
    requires forall i :: 0 <= i < |links| ==> links[i].dest != d
    ensures Callers(links, d) == [] && Block(links, d) == []
  {
    if links != [] {
      UncalledIfUnused(links[1..], d);
    }
  }

  lemma DropIsNext(w: World, k: nat, w': World, log: seq<Oid>)
    requires Valid(w) && Quiescent(w) && k < |w.links| && DropsLink(w.links, k, w'.links, log) && Buried(w, w', log)
    ensures Next(w, DropLink(k), w') && Valid(w') && Quiescent(w')
    ensures Distinct(log) && Elements(log) <= w.born.Keys
  {
    DropKeeps(w, k, w');
    if w.links[k].o != 0 {
      DropOrphans(w, k);
      DoomedAreBorn(w, Erase(w.links, k), w.links[k].dest);
    }
  }

  lemma InsertLive(links: seq<Link>, l: Link)
    requires l.o == 0
    ensures Live(Insert(links, l)) == Live(links)
  {
    var e := EndOf(links, l.dest);
    forall m
      ensures m in Insert(links, l) <==> m in links || m == l
    {
      assert links == links[..e] + links[e..];
    }
  }

  lemma EmptiedOrdered(links: seq<Link>, k: nat)
    requires Ordered(links) && k < |links| && links[k].o != 0
    ensures Ordered(Emptied(links, k))
    ensures links[k].dest !in Live(Emptied(links, k))
  {
    var after := Emptied(links, k);
    forall i, j | 0 <= i < j < |links|
      ensures Before(after[i], after[j])
    {
      assert Before(links[i], links[j]);
    }
    forall i | 0 <= i < |after| && after[i].dest == links[k].dest
      ensures after[i].o == 0
    {
      assert i < k ==> Before(links[i], links[k]);
      assert k < i ==> Before(links[k], links[i]);
    }
  }

  lemma EmptiedCallers(links: seq<Link>, k: nat, d: Oid)
    requires k < |links|
    ensures FirstOf(Emptied(links, k), d) == FirstOf(links, d)
    ensures Callers(Emptied(links, k), d) == Callers(links, d)
  {
    var after := Emptied(links, k);
    assert links == links[..k] + [links[k]] + links[k + 1..];
    assert after == links[..k] + [after[k]] + links[k + 1..];
    CallersConcat(links[..k] + [links[k]], links[k + 1..], d);
    CallersConcat(links[..k] + [after[k]], links[k + 1..], d);
    CallersConcat(links[..k], [links[k]], d);
    CallersConcat(links[..k], [after[k]], d);
    assert [links[k]][1..] == [after[k]][1..] == [];
    var f, g := FirstOf(links, d), FirstOf(after, d);
    assert f < |links| ==> after[f].dest == d;
    assert g < |links| ==> links[g].dest == d;
  }

  lemma EmptiedFew(links: seq<Link>, k: nat)
    requires k < |links|
    ensures FewCallers(links) ==> FewCallers(Emptied(links, k))
    ensures forall d :: FirstOf(Emptied(links, k), d) == FirstOf(links, d)
    ensures forall d :: Callers(Emptied(links, k), d) == Callers(links, d)
  {
    forall d
      ensures Callers(Emptied(links, k), d) == Callers(links, d)
      ensures FirstOf(Emptied(links, k), d) == FirstOf(links, d)
    {
      EmptiedCallers(links, k, d);
    }
  }

  lemma MarkedSelf(links: seq<Link>)
    ensures Marked(links, links)
  {
  }

  lemma FewFit(links: seq<Link>, oid: Oid)
    requires FewCallers(links)
    ensures |Callers(links, oid)| <= MAX_CALLERS
  {
  }

  lemma CallersGrow(links: seq<Link>, k: nat, d: Oid)
    requires k <= |links|
    ensures |Callers(links[..k], d)| <= |Callers(links, d)|
  {
    assert links == links[..k] + links[k..];
    CallersConcat(links[..k], links[k..], d);
  }

  // ----------------------------------------------------------------- marks and notices

  lemma MarksNone(links: seq<Link>, marks: set<Oid>)
    ensures Marks(links, marks, links, marks)
  {
  }

  lemma MarksOne(links: seq<Link>, k: nat, marks: set<Oid>)
    requires k < |links|
    ensures Marks(links, marks, links[k := links[k].(unused := true)], marks + {links[k].dest})
  {
    var after := links[k := links[k].(unused := true)];
    assert after[k] in after;
    forall i | 0 <= i < |links|
      ensures links[i].unused ==> links[i].dest in Flagged(after)
      ensures after[i].unused ==> after[i].dest in Flagged(links) + {links[k].dest}
    {
      assert links[i] in links && after[i] in after;
    }
    forall d | d in Flagged(after)
      ensures d in Flagged(links) + {links[k].dest}
    {
      var i :| 0 <= i < |after| && after[i].unused && after[i].dest == d;
    }
    forall d | d in Flagged(links)
      ensures d in Flagged(after)
    {
      var i :| 0 <= i < |links| && links[i].unused && links[i].dest == d;
    }
  }

  lemma BooksBuried(links: seq<Link>, marks: set<Oid>, notified: seq<Notice>, done: seq<Oid>, oid: Oid)
    ensures BooksOf(links, marks, notified, done + [oid])
         == BooksOf(links, marks, notified, done).(destroyed := done + [oid])
  {
  }

  lemma BooksLog(links: seq<Link>, marks: set<Oid>, notified: seq<Notice>, done: seq<Oid>, b: Books,
                 destroyed: seq<Oid>)
    requires b.destroyed == destroyed && done <= destroyed
    ensures DestroyedSince(BooksOf(links, marks, notified, done), b) == Elements(destroyed[|done|..])
  {
  }

  lemma RootIsDestroyed(base: seq<Link>, root: Oid, after: seq<Link>, before: seq<Link>, marks: set<Oid>,
                        notified: seq<Notice>, done: seq<Oid>, b: Books)
    requires done <= b.destroyed && Cascaded(base, root, after, b.destroyed[|done|..])
    ensures root in DestroyedSince(BooksOf(before, marks, notified, done), b)
  {
    hide Doomed;
    var log := b.destroyed[|done|..];
    assert log[0] == root;
  }

  lemma CallersAreTold(links: seq<Link>, running: set<Oid>, oid: Oid)
    requires Ordered(links) && Grounded(links, running) && oid in running
    ensures Fair(Told(links, Callers(links, oid), oid), Live(links), running, Plain(links))
    ensures Told(links, Callers(links, oid)[..0], oid) == []
  {
    hide Fair, Grounded, Ordered, Live, Callers, Plain;
    forall c | c in Callers(links, oid)
      ensures c != OID_BROADCAST && exists l :: l in links && l.src == c && l.dest == oid
    {
      CallersAreSources(links, oid, c);
    }
    ToldIsFair(links, running, Callers(links, oid), oid);
  }
}
