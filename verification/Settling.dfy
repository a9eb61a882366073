/**
 * The map after several objects were destroyed in place, as idle cleanup does.
 */
module Settling {
  import opened Links
  import opened Worlds
  import opened Cascades

  function HollowLink(l: Link, gone: set<Oid>): Link {
    l.(o := if l.dest in gone then 0 else l.o, unused := false)
  }

  function Hollow(links: seq<Link>, gone: set<Oid>): (r: seq<Link>)
    ensures |r| == |links| && forall i :: 0 <= i < |r| ==> r[i] == HollowLink(links[i], gone)
  {
    if links == [] then [] else [HollowLink(links[0], gone)] + Hollow(links[1..], gone)
  }

  /** Without the links that leave a destroyed object, without pointers to destroyed objects, with no flag. */
  ghost function Settle(links: seq<Link>, gone: set<Oid>): seq<Link> {
    Hollow(Without(links, gone), gone)
  }

  ghost function Flagged(links: seq<Link>): set<Oid> {
    set l | l in links && l.unused :: l.dest
  }

  lemma {:induction false} HollowWithout(links: seq<Link>, gone: set<Oid>, hollow: set<Oid>)
    ensures Hollow(Without(links, gone), hollow) == Without(Hollow(links, hollow), gone)
  {
    if links != [] {
      HollowWithout(links[1..], gone, hollow);
      assert Hollow(links, hollow)[1..] == Hollow(links[1..], hollow);
      var rest := Without(links[1..], gone);
      if links[0].src in gone {
        assert Without(links, gone) == rest;
      } else {
        assert ([links[0]] + rest)[1..] == rest;
      }
    }
  }

  lemma SettleTwice(links: seq<Link>, a: set<Oid>, b: set<Oid>)
    ensures Settle(Settle(links, a), b) == Settle(links, a + b)
  {
    calc {
      Settle(Settle(links, a), b);
      Hollow(Without(Hollow(Without(links, a), a), b), b);
      { HollowWithout(Without(links, a), b, a); }
      Hollow(Hollow(Without(Without(links, a), b), a), b);
      { WithoutUnion(links, a, b); }
      Hollow(Hollow(Without(links, a + b), a), b);
      Hollow(Without(links, a + b), a + b);
    }
  }

  lemma {:induction false} WithoutUnion(links: seq<Link>, a: set<Oid>, b: set<Oid>)
    ensures Without(Without(links, a), b) == Without(links, a + b)
  {
    if links != [] {
      WithoutUnion(links[1..], a, b);
      var rest := Without(links[1..], a);
      if links[0].src in a {
        assert Without(links, a) == rest;
      } else {
        assert ([links[0]] + rest)[1..] == rest;
      }
    }
  }

  lemma {:induction false} SettleNothing(links: seq<Link>)
    ensures Settle(links, {}) == Hollow(links, {})
  {
    WithoutNothing(links, {});
  }

  lemma HollowMarked(a: seq<Link>, b: seq<Link>, gone: set<Oid>)
    requires Marked(a, b)
    ensures Hollow(a, gone) == Hollow(b, gone)
  {
    assert forall i :: 0 <= i < |a| ==> MarkedLink(a[i], b[i]);
  }

  lemma HollowOutside(links: seq<Link>, gone: set<Oid>)
    requires Live(links) !! gone
    ensures Hollow(links, gone) == Hollow(links, {})
  {
    assert forall i :: 0 <= i < |links| ==> links[i] in links;
  }

  lemma HollowEmptied(links: seq<Link>, k: nat, gone: set<Oid>)
    requires k < |links| && links[k].dest in gone
    ensures Hollow(Emptied(links, k), gone) == Hollow(links, gone)
  {
  }

  /** Destroying one object in place settles the map by its doomed set. */
  lemma RetireSettles(w: World, k: nat, after: seq<Link>, log: seq<Oid>)
    requires Valid(w) && Quiescent(w) && k < |w.links| && w.links[k].o != 0
    requires Cascaded(Emptied(w.links, k), w.links[k].dest, after, log)
    ensures Settle(after, {}) == Settle(w.links, Elements(log))
    ensures Flagged(w.links) - Elements(log) <= Flagged(after)
    ensures w.links[k].dest in Elements(log)
    ensures Distinct(log) && Elements(log) <= w.born.Keys
  {
    var base := Emptied(w.links, k);
    var gone := Doomed(EdgesOf(base), w.links[k].dest);
    var left := Without(base, gone);
    RetireOrphans(w, k);
    FlagsStay(w, k, after, log);
    hide Hollow, Valid, Quiescent, Flagged, Emptied, Without, Marked, Doomed, Distinct;
    DoomedIsClosed(EdgesOf(base), w.links[k].dest);
    OrphanedLive(w, base, w.links[k].dest);
    MarkedEdges(left, after);
    DoomedAreBorn(w, base, w.links[k].dest);
    HollowWithout(w.links, gone, gone);
    HollowEmptied(w.links, k, gone);
    HollowWithout(base, gone, gone);
    HollowMarked(left, after, gone);
    HollowOutside(after, gone);
    SettleNothing(after);
  }

  lemma OrphanedLive(w: World, base: seq<Link>, root: Oid)
    requires Orphaned(w, base, root)
    ensures Live(Without(base, Doomed(EdgesOf(base), root))) == Live(base) - Doomed(EdgesOf(base), root)
  {
    CascadeLive(base, root);
  }

  lemma DoomedAreBorn(w: World, links: seq<Link>, root: Oid)
    requires Orphaned(w, links, root)
    ensures Doomed(EdgesOf(links), root) <= w.born.Keys
  {
    LiveIsEdges(links);
    forall e | e in EdgesOf(links)
      ensures e.1 in w.born
    {
      assert e.1 in Live(links);
    }
    DoomedIsLeast(EdgesOf(links), root, w.born.Keys);
  }

  lemma FlagsStay(w: World, k: nat, after: seq<Link>, log: seq<Oid>)
    requires Valid(w) && k < |w.links| && w.links[k].o != 0
    requires Cascaded(Emptied(w.links, k), w.links[k].dest, after, log)
    ensures Flagged(w.links) - Elements(log) <= Flagged(after)
  {
    var base := Emptied(w.links, k);
    var gone := Doomed(EdgesOf(base), w.links[k].dest);
    var left := Without(base, gone);
    DoomedIsClosed(EdgesOf(base), w.links[k].dest);
    WithoutMember(base, gone);
    forall d | d in Flagged(w.links) && d !in gone
      ensures d in Flagged(after)
    {
      var i :| 0 <= i < |w.links| && w.links[i].unused && w.links[i].dest == d;
      assert w.links[i] in w.links && LinkOk(w.links[i], w.born);
      assert base[i] == w.links[i] && base[i] in base;
      assert (base[i].src, d) in EdgesOf(base);
      var j :| 0 <= j < |left| && left[j] == base[i];
      assert MarkedLink(left[j], after[j]) && after[j] in after;
    }
  }

  lemma SettleStep(start: seq<Link>, links: seq<Link>, done: seq<Oid>, after: seq<Link>, more: seq<Oid>)
    requires Settle(links, {}) == Settle(start, Elements(done)) && Settle(after, {}) == Settle(links, Elements(more))
    ensures Settle(after, {}) == Settle(start, Elements(done + more))
  {
    SettleTwice(links, {}, Elements(more));
    SettleTwice(start, Elements(done), Elements(more));
    assert {} + Elements(more) == Elements(more);
    ElementsConcat(done, more);
  }

  lemma SettledFlags(links: seq<Link>)
    requires forall l :: l in links ==> !l.unused
    ensures Settle(links, {}) == links && Flagged(links) == {}
  {
    SettleNothing(links);
    forall i | 0 <= i < |links|
      ensures Hollow(links, {})[i] == links[i]
    {
      assert links[i] in links;
    }
  }
}
