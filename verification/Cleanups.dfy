/**
 * Idle cleanup as a whole: which objects it destroys, and what it leaves and tells.
 */
module Cleanups {
  import opened Links
  import opened Worlds
  import opened Cascades
  import opened Settling
  import opened Notices

  /** Between two states objects were destroyed, and nothing was created. */
  ghost predicate Logged(start: World, log: seq<Oid>, w: World) {
    && w.destroyed == start.destroyed + log && w.created == start.created
    && w.born == start.born - Elements(log)
    && Distinct(log) && Elements(log) <= start.born.Keys
  }

  /** The objects of `roots` and what they created, directly or not. */
  ghost function Under(edges: Edges, roots: set<Oid>): set<Oid> {
    set r, x | r in roots && x in Doomed(edges, r) :: x
  }

  /** A cleanup that began at `start` and destroyed the objects of `log` so far. `marks` are the objects
      marked since. */
  ghost predicate Cleaning(start: World, w: World, log: seq<Oid>, marks: set<Oid>, before: seq<Notice>,
                           notified: seq<Notice>)
  {
    && Logged(start, log, w) && Settle(w.links, {}) == Settle(start.links, Elements(log))
    && Flagged(w.links) <= Flagged(start.links) + marks
    && Flagged(start.links) + marks <= Flagged(w.links) + Elements(log)
    && Elements(log) <= Under(EdgesOf(start.links), Flagged(start.links) + marks)
    && before <= notified
    && Fair(notified[|before|..], Live(start.links), Elements(log), Plain(start.links))
  }

  lemma LogStarts(w: World)
    ensures Logged(w, [], w)
  {
    assert w.destroyed == w.destroyed + [];
    assert w.born == w.born - {};
  }

  lemma LogGrows(start: World, log: seq<Oid>, w: World, w': World, more: seq<Oid>)
    requires Logged(start, log, w) && Buried(w, w', more) && Distinct(more) && Elements(more) <= w.born.Keys
    ensures Logged(start, log + more, w') && Elements(log) !! Elements(more)
  {
    ElementsConcat(log, more);
    assert w'.destroyed == start.destroyed + (log + more);
    assert w'.born == start.born - Elements(log + more);
  }

  lemma CleaningStarts(w: World, notified: seq<Notice>)
    ensures Cleaning(w, w, [], {}, notified, notified)
  {
    LogStarts(w);
    assert Elements([]) == {};
  }

  // ---------------------------------------------------------------- the settled map

  lemma HollowMembers(links: seq<Link>, gone: set<Oid>)
    ensures forall l :: l in links ==> HollowLink(l, gone) in Hollow(links, gone)
    ensures forall h :: h in Hollow(links, gone) ==> exists l :: l in links && h == HollowLink(l, gone)
  {
    var r := Hollow(links, gone);
    forall l | l in links
      ensures HollowLink(l, gone) in r
    {
      var i :| 0 <= i < |links| && links[i] == l;
      assert r[i] == HollowLink(l, gone);
    }
    forall h | h in r
      ensures exists l :: l in links && h == HollowLink(l, gone)
    {
      var i :| 0 <= i < |r| && r[i] == h;
      assert links[i] in links;
    }
  }

  /** The links of a map from which the objects of `gone` were cleaned are old links of the other objects. */
  lemma SettledLinks(start: seq<Link>, gone: set<Oid>, links: seq<Link>, l: Link)
    requires Settle(links, {}) == Settle(start, gone) && l in links
    ensures exists m :: m in start && m.src == l.src && m.dest == l.dest && m.src !in gone
                        && l.o == if m.dest in gone then 0 else m.o
  {
    SettleNothing(links);
    HollowMembers(links, {});
    var h := HollowLink(l, {});
    assert h in Settle(start, gone);
    HollowMembers(Without(start, gone), gone);
    WithoutMember(start, gone);
  }

  lemma SettledEdges(start: seq<Link>, gone: set<Oid>, links: seq<Link>)
    requires Settle(links, {}) == Settle(start, gone)
    ensures EdgesOf(links) <= EdgesOf(start)
  {
    forall l | l in links && l.o != 0
      ensures (l.src, l.dest) in EdgesOf(start)
    {
      SettledLinks(start, gone, links, l);
    }
  }

  lemma MoreEdges(a: Edges, b: Edges, root: Oid)
    requires a <= b
    ensures Doomed(a, root) <= Doomed(b, root)
  {
    DoomedIsClosed(b, root);
    DoomedIsLeast(a, root, Doomed(b, root));
  }

  lemma EmptiedMembers(links: seq<Link>, k: nat)
    requires k < |links| && links[k].o != 0
    ensures EdgesOf(Emptied(links, k)) <= EdgesOf(links)
    ensures Flagged(Emptied(links, k)) <= Flagged(links) <= Flagged(Emptied(links, k)) + {links[k].dest}
    ensures Plain(Emptied(links, k)) <= Plain(links) + {(links[k].src, links[k].dest)}
  {
    var after := Emptied(links, k);
    forall i | 0 <= i < |links| && i != k
      ensures links[i] in after && after[i] in links
    {
      assert after[i] == links[i];
    }
    forall l | l in after
      ensures l in links || l == after[k]
    {
      var i :| 0 <= i < |after| && after[i] == l;
    }
    forall l | l in links
      ensures l in after || l == links[k]
    {
      var i :| 0 <= i < |links| && links[i] == l;
    }
  }

  // ------------------------------------------------------------------------ creators

  /** An object does not create its own creator: the creator is older than all that the object made. */
  lemma CreatorIsNotDoomed(w: World, k: nat)
    requires Valid(w) && Quiescent(w) && k < |w.links| && w.links[k].o != 0
    ensures w.links[k].src !in Doomed(EdgesOf(Emptied(w.links, k)), w.links[k].dest)
  {
    var root, base := w.links[k].dest, Emptied(w.links, k);
    CarriedByCreator(w, w.links[k]);
    var young := set x | x in w.born && w.born[root] <= w.born[x];
    EmptiedMembers(w.links, k);
    forall e | e in EdgesOf(base) && e.0 in young
      ensures e.1 in young
    {
      var l :| l in w.links && l.o != 0 && (l.src, l.dest) == e;
      CarriedByCreator(w, l);
    }
    DoomedIsLeast(EdgesOf(base), root, young);
  }

  lemma CarriedByCreator(w: World, l: Link)
    requires Valid(w) && Quiescent(w) && l in w.links && l.o != 0
    ensures l.dest in w.born && OID_BROADCAST !in w.born
    ensures l.src == OID_BROADCAST || (l.src in w.born && w.born[l.src] < w.born[l.dest])
  {
    assert LinkOk(l, w.born) && l.dest in Live(w.links);
    assert forall m :: m in w.links ==> LinkOk(m, w.born);
    assert BornOk(w, l.dest);
    CarrierLeads(w.links, l.dest);
    BlockHead(w.links, l.dest);
    var first := w.links[FirstOf(w.links, l.dest)];
    OneCarrier(w.links, l, first);
  }

  // ------------------------------------------------------------------------- one turn

  /** What the books of the cascade say about those of the cleanup. */
  lemma TurnMarks(w: World, k: nat, marks: set<Oid>, notified: seq<Notice>, w': World, more: seq<Oid>, marks': set<Oid>,
                  notified': seq<Notice>)
    requires k < |w.links| && w.links[k].o != 0 && w.links[k].dest in Elements(more) && Buried(w, w', more)
    requires Since(BooksOf(Emptied(w.links, k), marks, notified, w.destroyed),
                   BooksOf(w'.links, marks', notified', w'.destroyed), {})
    ensures Flagged(w'.links) <= Flagged(w.links) + marks' && marks <= marks' && notified <= notified'
    ensures Flagged(w.links) <= Flagged(w'.links) + Elements(more)
    ensures marks' <= marks + Flagged(w'.links) + Elements(more)
    ensures Fair(notified'[|notified|..], Live(Emptied(w.links, k)), {} + Elements(more), Plain(Emptied(w.links, k)))
  {
    hide Fair;
    EmptiedMembers(w.links, k);
    assert w'.destroyed[|w.destroyed|..] == more;
  }

  lemma TurnRoots(edges: Edges, roots: set<Oid>, more: set<Oid>, base: Edges, root: Oid)
    requires base <= edges && root in roots && more == Doomed(base, root)
    ensures more <= Under(edges, roots)
  {
    MoreEdges(base, edges, root);
  }

  lemma MoreRoots(edges: Edges, a: set<Oid>, b: set<Oid>)
    requires a <= b
    ensures Under(edges, a) <= Under(edges, b)
  {
  }

  /** A null notice of this turn goes through a link that was there without an object when the cleanup began. */
  lemma TurnFair(start: World, log: seq<Oid>, w: World, k: nat, notices: seq<Notice>, more: set<Oid>)
    requires Valid(w) && Quiescent(w) && k < |w.links| && w.links[k].o != 0 && Live(w.links) <= Live(start.links)
    requires Settle(w.links, {}) == Settle(start.links, Elements(log)) && Elements(log) !! more
    requires more == Doomed(EdgesOf(Emptied(w.links, k)), w.links[k].dest)
    requires Fair(notices, Live(Emptied(w.links, k)), more, Plain(Emptied(w.links, k)))
    requires Live(Emptied(w.links, k)) <= Live(w.links)
    ensures Fair(notices, Live(start.links), more, Plain(start.links))
  {
    CreatorIsNotDoomed(w, k);
    EmptiedMembers(w.links, k);
    forall n | n in notices && n.o == 0
      ensures (n.caller, n.oid) in Plain(start.links)
    {
      assert (n.caller, n.oid) in Plain(w.links);
      var l :| l in w.links && l.o == 0 && (l.src, l.dest) == (n.caller, n.oid);
      SettledLinks(start.links, Elements(log), w.links, l);
    }
  }

  /** Destroying one flagged object in place. */
  lemma CleaningGoesOn(start: World, w: World, log: seq<Oid>, marks: set<Oid>, before: seq<Notice>,
                       notified: seq<Notice>,
                       k: nat, w': World, more: seq<Oid>, marks': set<Oid>, notified': seq<Notice>)
    requires Valid(start) && Quiescent(start) && Valid(w) && Quiescent(w)
    requires Cleaning(start, w, log, marks, before, notified)
    requires k < |w.links| && w.links[k].o != 0 && w.links[k].unused
    requires Cascaded(Emptied(w.links, k), w.links[k].dest, w'.links, more) && Buried(w, w', more)
    requires Since(BooksOf(Emptied(w.links, k), marks, notified, w.destroyed),
                   BooksOf(w'.links, marks', notified', w'.destroyed), {})
    ensures Cleaning(start, w', log + more, marks', before, notified')
  {
    hide Fair, Settle, Under, Doomed, Plain, Flagged, Live, Since, BooksOf, Logged, Buried, Cascaded, Elements, Valid,
      Quiescent, Emptied, EdgesOf;
    RetireSettles(w, k, w'.links, more);
    LogGrows(start, log, w, w', more);
    SettleStep(start.links, w.links, log, w'.links, more);
    RootOfTurn(w.links, k, w'.links, more);
    TurnMarks(w, k, marks, notified, w', more, marks', notified');
    TurnSources(start, w, log, marks, marks', k, more);
    TurnNotices(start, w, log, before, notified, notified', k, w'.links, more);
    ElementsConcat(log, more);
    SumsOf(Flagged(start.links), Flagged(w.links), Flagged(w'.links), marks, marks', Elements(log), Elements(more));
  }

  lemma SumsOf(f: set<Oid>, f1: set<Oid>, f2: set<Oid>, marks: set<Oid>, marks': set<Oid>, log: set<Oid>,
               more: set<Oid>)
    requires f1 <= f + marks && f + marks <= f1 + log && marks <= marks'
    requires f2 <= f1 + marks' && f1 <= f2 + more && marks' <= marks + f2 + more
    ensures f2 <= f + marks' && f + marks' <= f2 + (log + more)
  {
  }

  lemma RootOfTurn(links: seq<Link>, k: nat, after: seq<Link>, more: seq<Oid>)
    requires k < |links| && links[k].o != 0 && Cascaded(Emptied(links, k), links[k].dest, after, more)
    ensures Elements(more) == Doomed(EdgesOf(Emptied(links, k)), links[k].dest) && links[k].dest in Elements(more)
    ensures links[k].unused ==> links[k].dest in Flagged(links)
  {
    assert links[k] in links;
    assert more[0] == links[k].dest;
  }

  lemma TurnSources(start: World, w: World, log: seq<Oid>, marks: set<Oid>, marks': set<Oid>, k: nat, more: seq<Oid>)
    requires k < |w.links| && w.links[k].o != 0 && w.links[k].dest in Flagged(w.links) && marks <= marks'
    requires Settle(w.links, {}) == Settle(start.links, Elements(log))
    requires Flagged(w.links) <= Flagged(start.links) + marks
    requires Elements(log) <= Under(EdgesOf(start.links), Flagged(start.links) + marks)
    requires Elements(more) == Doomed(EdgesOf(Emptied(w.links, k)), w.links[k].dest)
    ensures Elements(log) + Elements(more) <= Under(EdgesOf(start.links), Flagged(start.links) + marks')
  {
    hide Under, Doomed, Flagged, Settle;
    SettledEdges(start.links, Elements(log), w.links);
    EmptiedMembers(w.links, k);
    MoreRoots(EdgesOf(start.links), Flagged(start.links) + marks, Flagged(start.links) + marks');
    TurnRoots(EdgesOf(start.links), Flagged(start.links) + marks', Elements(more), EdgesOf(Emptied(w.links, k)),
              w.links[k].dest);
  }

  lemma TurnNotices(start: World, w: World, log: seq<Oid>, before: seq<Notice>, notified: seq<Notice>,
                    notified': seq<Notice>, k: nat, after: seq<Link>, more: seq<Oid>)
    requires Valid(start) && Quiescent(start) && Valid(w) && Quiescent(w) && Logged(start, log, w)
    requires k < |w.links| && w.links[k].o != 0
    requires Settle(w.links, {}) == Settle(start.links, Elements(log)) && Elements(log) !! Elements(more)
    requires Cascaded(Emptied(w.links, k), w.links[k].dest, after, more)
    requires before <= notified <= notified'
    requires Fair(notified[|before|..], Live(start.links), Elements(log), Plain(start.links))
    requires Fair(notified'[|notified|..], Live(Emptied(w.links, k)), {} + Elements(more), Plain(Emptied(w.links, k)))
    ensures before <= notified'
    ensures Fair(notified'[|before|..], Live(start.links), Elements(log + more), Plain(start.links))
  {
    hide Fair, Settle, Plain, Live;
    assert {} + Elements(more) == Elements(more);
    SteadyIsGrounded(w);
    ValidIsSorted(w);
    EmptiedGrounded(w.links, k, {});
    LoggedLive(start, log, w);
    RootOfTurn(w.links, k, after, more);
    TurnFair(start, log, w, k, notified'[|notified|..], Elements(more));
    ElementsConcat(log, more);
    FairMore(notified[|before|..], Live(start.links), Elements(log), Plain(start.links),
             Live(start.links), Elements(log + more), Plain(start.links));
    FairMore(notified'[|notified|..], Live(start.links), Elements(more), Plain(start.links),
             Live(start.links), Elements(log + more), Plain(start.links));
    SuffixSplit(before, notified, notified');
    FairConcat(notified[|before|..], notified'[|notified|..], Live(start.links), Elements(log + more),
               Plain(start.links));
  }

  lemma ValidIsSorted(w: World)
    requires Valid(w)
    ensures Ordered(w.links)
  {
  }

  lemma LoggedLive(start: World, log: seq<Oid>, w: World)
    requires Quiescent(start) && Quiescent(w) && Logged(start, log, w)
    ensures Live(w.links) <= Live(start.links)
  {
  }

  // -------------------------------------------------------------------------- the end

  /** With no flag left, the objects destroyed are those that were flagged or marked meanwhile and what they created. */
  lemma Cleaned(start: World, w: World, log: seq<Oid>, marks: set<Oid>, before: seq<Notice>, notified: seq<Notice>)
    requires Valid(start) && Quiescent(start) && Valid(w) && Quiescent(w)
    requires Cleaning(start, w, log, marks, before, notified)
    requires forall l :: l in w.links ==> !l.unused
    ensures Elements(log) == Under(EdgesOf(start.links), Flagged(start.links) + marks)
    ensures w.links == Settle(start.links, Elements(log))
  {
    hide Fair, Settle, Doomed, Plain, Under, Logged, Flagged, Valid, Quiescent, EdgesOf, Elements, Closed;
    SettledFlags(w.links);
    LogIsClosed(start, w, log);
    AllUnder(EdgesOf(start.links), Flagged(start.links) + marks, Elements(log));
  }

  lemma CleaningEnds(start: World, w: World, log: seq<Oid>, marks: set<Oid>, before: seq<Notice>, notified: seq<Notice>)
    requires Valid(start) && Quiescent(start) && Valid(w) && Quiescent(w)
    requires Cleaning(start, w, log, marks, before, notified)
    requires forall l :: l in w.links ==> !l.unused
    ensures Logged(start, log, w) && before <= notified
    ensures Elements(log) == Under(EdgesOf(start.links), Flagged(start.links) + marks)
    ensures w.links == Settle(start.links, Elements(log))
    ensures Fair(notified[|before|..], Live(start.links), Elements(log), Plain(start.links))
  {
    hide Fair, Settle, Under, Logged, Flagged, Live, Plain, EdgesOf, Elements, Valid, Quiescent;
    Cleaned(start, w, log, marks, before, notified);
  }

  lemma AllUnder(edges: Edges, roots: set<Oid>, log: set<Oid>)
    requires Closed(edges, log) && roots <= log
    ensures Under(edges, roots) <= log
  {
    hide Doomed;
    forall r | r in roots
      ensures Doomed(edges, r) <= log
    {
      DoomedIsLeast(edges, r, log);
    }
  }

  lemma LogIsClosed(start: World, w: World, log: seq<Oid>)
    requires Valid(start) && Quiescent(start) && Quiescent(w) && Logged(start, log, w)
    requires Settle(w.links, {}) == Settle(start.links, Elements(log))
    ensures Closed(EdgesOf(start.links), Elements(log))
  {
    hide Settle, Hollow;
    forall e | e in EdgesOf(start.links) && e.0 in Elements(log)
      ensures e.1 in Elements(log)
    {
      var l :| l in start.links && l.o != 0 && (l.src, l.dest) == e;
      assert e.1 in Live(start.links);
      if e.1 !in Elements(log) {
        StillCarried(start, w, log, l);
      }
    }
  }

  /** An object that is left is carried by the same link as before, so its creator is left. */
  lemma StillCarried(start: World, w: World, log: seq<Oid>, l: Link)
    requires Valid(start) && Quiescent(start) && Quiescent(w) && Logged(start, log, w)
    requires Settle(w.links, {}) == Settle(start.links, Elements(log))
    requires l in start.links && l.o != 0 && l.dest !in Elements(log)
    ensures l.src !in Elements(log)
  {
    assert l.dest in Live(start.links) && l.dest in w.born && l.dest in Live(w.links);
    var c :| c in w.links && c.o != 0 && c.dest == l.dest;
    SettledLinks(start.links, Elements(log), w.links, c);
    var m :| m in start.links && m.src == c.src && m.dest == c.dest && m.src !in Elements(log)
             && c.o == if m.dest in Elements(log) then 0 else m.o;
    OneCarrier(start.links, l, m);
  }

  /** When no object that is destroyed has a link without object to another, every notice has a pointer. */
  lemma NoNullNotice(notices: seq<Notice>, live: set<Oid>, gone: set<Oid>, plain: Edges)
    requires Fair(notices, live, gone, plain)
    requires forall e :: e in plain ==> e.0 !in gone || e.1 !in gone
    ensures forall n :: n in notices ==> n.o != 0
  {
  }
}
