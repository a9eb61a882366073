/**
 * The destruction cascade of main.c step by step: what the restart loop keeps
 * between two removed links, and why it ends with the closed form.
 */
module Cascades {
  import opened Links
  import opened Worlds

  /** The sources, other than broadcast, of the links to `d`: the objects that call it. */
  function Callers(links: seq<Link>, d: Oid): seq<Oid> {
    if links == [] then []
    else (if links[0].dest == d && links[0].src != OID_BROADCAST then [links[0].src] else [])
         + Callers(links[1..], d)
  }

  /** `casycom_destroy_object` collects callers in an array of this size. */
  const MAX_CALLERS := 16

  ghost predicate FewCallers(links: seq<Link>) {
    forall d :: |Callers(links, d)| <= MAX_CALLERS
  }

  /** No object gained a caller. */
  ghost predicate NoMoreCallers(before: seq<Link>, after: seq<Link>) {
    forall d :: |Callers(after, d)| <= |Callers(before, d)|
  }

  /** State of the cascade of `root` on the map `base`, when the objects of `log` are
      destroyed: only links of doomed objects are gone, no destroyed object but the
      root still has an outgoing link, and any object whose creator link is gone is destroyed. */
  ghost predicate Cascading(base: seq<Link>, root: Oid, links: seq<Link>, log: seq<Oid>) {
    var doomed := Doomed(EdgesOf(base), root);
    && Ordered(links)
    && log != [] && log[0] == root && Distinct(log) && Elements(log) <= doomed
    && Elements(log) !! Live(links)
    && Marked(Without(base, doomed), Without(links, doomed))
    && EdgesOf(links) <= EdgesOf(base)
    && (forall e :: e in EdgesOf(base) && e.1 !in Elements(log) ==> e in EdgesOf(links))
    && (forall l :: l in links && l.src in Elements(log) ==> l.src == root)
    && NoMoreCallers(base, links)
  }

  lemma {:induction false} CallersConcat(a: seq<Link>, b: seq<Link>, d: Oid)
    ensures Callers(a + b, d) == Callers(a, d) + Callers(b, d)
  {
    if a == [] {
      assert a + b == b;
    } else {
      assert (a + b)[1..] == a[1..] + b;
      CallersConcat(a[1..], b, d);
    }
  }

  lemma CallersOfOne(l: Link, d: Oid)
    ensures Callers([l], d) == if l.dest == d && l.src != OID_BROADCAST then [l.src] else []
  {
    assert [l][1..] == [];
  }

  /** The callers of an object are the sources of the links to it. */
  lemma {:induction false} CallersAreSources(links: seq<Link>, d: Oid, c: Oid)
    ensures c in Callers(links, d) <==> c != OID_BROADCAST && exists l :: l in links && l.src == c && l.dest == d
  {
    if links != [] {
      assert links == [links[0]] + links[1..];
      CallersConcat([links[0]], links[1..], d);
      CallersOfOne(links[0], d);
      CallersAreSources(links[1..], d, c);
      assert forall l :: l in links <==> l == links[0] || l in links[1..];
    }
  }

  lemma {:induction false} CallersMarked(a: seq<Link>, b: seq<Link>, d: Oid)
    requires Marked(a, b)
    ensures Callers(a, d) == Callers(b, d)
  {
    if a != [] {
      MarkedTail(a, b);
      CallersMarked(a[1..], b[1..], d);
    }
  }

  lemma {:induction false} CallersWithout(links: seq<Link>, gone: set<Oid>, d: Oid)
    ensures |Callers(Without(links, gone), d)| <= |Callers(links, d)|
  {
    if links != [] {
      CallersWithout(links[1..], gone, d);
      var rest := Without(links[1..], gone);
      if links[0].src in gone {
        assert Without(links, gone) == rest;
      } else {
        assert Without(links, gone) == [links[0]] + rest && ([links[0]] + rest)[1..] == rest;
      }
    }
  }

  lemma CallersErase(links: seq<Link>, k: nat)
    requires k < |links|
    ensures NoMoreCallers(links, Erase(links, k))
  {
    forall d
      ensures |Callers(Erase(links, k), d)| <= |Callers(links, d)|
    {
      assert links == links[..k] + ([links[k]] + links[k + 1..]);
      CallersConcat(links[..k], [links[k]] + links[k + 1..], d);
      CallersConcat([links[k]], links[k + 1..], d);
      CallersConcat(links[..k], links[k + 1..], d);
    }
  }

  lemma CallersCascaded(base: seq<Link>, root: Oid, after: seq<Link>, log: seq<Oid>)
    requires Cascaded(base, root, after, log)
    ensures NoMoreCallers(base, after)
  {
    var gone := Doomed(EdgesOf(base), root);
    forall d
      ensures |Callers(after, d)| <= |Callers(base, d)|
    {
      CallersWithout(base, gone, d);
      CallersMarked(Without(base, gone), after, d);
    }
  }

  lemma CascadeStarts(base: seq<Link>, root: Oid, links: seq<Link>)
    requires Ordered(base) && root !in Live(base) && Marked(base, links)
    ensures Cascading(base, root, links, [root])
  {
    var doomed := Doomed(EdgesOf(base), root);
    MarkedOrdered(base, links);
    MarkedEdges(base, links);
    WithoutMarked(base, links, doomed);
    DoomedIsClosed(EdgesOf(base), root);
    forall d
      ensures |Callers(links, d)| <= |Callers(base, d)|
    {
      CallersMarked(base, links, d);
    }
  }

  lemma EraseEdges(links: seq<Link>, k: nat)
    requires k < |links|
    ensures EdgesOf(Erase(links, k)) <= EdgesOf(links)
    ensures forall e :: e in EdgesOf(links) && e != (links[k].src, links[k].dest) ==> e in EdgesOf(Erase(links, k))
    ensures links[k].o == 0 ==> EdgesOf(Erase(links, k)) == EdgesOf(links)
  {
    var after := Erase(links, k);
    forall e | e in EdgesOf(links) && (links[k].o == 0 || e != (links[k].src, links[k].dest))
      ensures e in EdgesOf(after)
    {
      var i :| 0 <= i < |links| && links[i].o != 0 && (links[i].src, links[i].dest) == e;
      assert links[i] == after[if i < k then i else i - 1];
    }
  }

  /** The cascade below the object at the removed link stays inside the cascade of `root`,
      and destroys only objects that were alive. */
  lemma InnerDoomed(base: seq<Link>, root: Oid, links: seq<Link>, log: seq<Oid>, k: nat)
    requires Cascading(base, root, links, log)
    requires k < |links| && links[k].src == root && links[k].o != 0
    ensures Doomed(EdgesOf(Erase(links, k)), links[k].dest) <= Doomed(EdgesOf(base), root)
    ensures Doomed(EdgesOf(Erase(links, k)), links[k].dest) <= Live(links)
  {
    var doomed := Doomed(EdgesOf(base), root);
    var c := links[k].dest;
    EraseEdges(links, k);
    DoomedIsClosed(EdgesOf(base), root);
    assert (root, c) in EdgesOf(links);
    DoomedIsLeast(EdgesOf(Erase(links, k)), c, doomed);
    LiveIsEdges(links);
    forall e | e in EdgesOf(Erase(links, k))
      ensures e.1 in Live(links)
    {
      assert e in EdgesOf(links);
    }
    DoomedIsLeast(EdgesOf(Erase(links, k)), c, Live(links));
  }

  lemma StepEdges(base: seq<Link>, root: Oid, links: seq<Link>, log: seq<Oid>, k: nat, after: seq<Link>, more: seq<Oid>)
    requires Cascading(base, root, links, log) && k < |links| && links[k].src == root && links[k].o != 0
    requires DropsLink(links, k, after, more)
    ensures EdgesOf(after) <= EdgesOf(base)
    ensures forall e :: e in EdgesOf(base) && e.1 !in Elements(log) + Elements(more) ==> e in EdgesOf(after)
  {
    var rest := Erase(links, k);
    var inner := Doomed(EdgesOf(rest), links[k].dest);
    var left := Without(rest, inner);
    EraseEdges(links, k);
    MarkedEdges(left, after);
    WithoutMember(rest, inner);
    DoomedIsClosed(EdgesOf(rest), links[k].dest);
    forall e | e in EdgesOf(after)
      ensures e in EdgesOf(base)
    {
      var l :| l in left && l.o != 0 && (l.src, l.dest) == e;
      assert e in EdgesOf(rest);
    }
    forall e | e in EdgesOf(base) && e.1 !in Elements(log) + Elements(more)
      ensures e in EdgesOf(after)
    {
      assert e in EdgesOf(links) && e in EdgesOf(rest);
      var l :| l in rest && l.o != 0 && (l.src, l.dest) == e;
      assert l in left;
    }
  }

  lemma StepFilter(base: seq<Link>, root: Oid, links: seq<Link>, log: seq<Oid>, k: nat, after: seq<Link>,
                   more: seq<Oid>)
    requires Cascading(base, root, links, log) && k < |links| && links[k].src == root && links[k].o != 0
    requires DropsLink(links, k, after, more)
    ensures Marked(Without(base, Doomed(EdgesOf(base), root)), Without(after, Doomed(EdgesOf(base), root)))
  {
    var doomed := Doomed(EdgesOf(base), root);
    var rest := Erase(links, k);
    var inner := Doomed(EdgesOf(rest), links[k].dest);
    InnerDoomed(base, root, links, log, k);
    DoomedIsClosed(EdgesOf(base), root);
    WithoutErase(links, k, doomed);
    WithoutTwice(rest, inner, doomed);
    WithoutMarked(Without(rest, inner), after, doomed);
    MarkedTransitive(Without(base, doomed), Without(links, doomed), Without(after, doomed));
  }

  lemma StepSources(base: seq<Link>, root: Oid, links: seq<Link>, log: seq<Oid>, k: nat, after: seq<Link>,
                    more: seq<Oid>)
    requires Cascading(base, root, links, log) && k < |links| && links[k].src == root && links[k].o != 0
    requires DropsLink(links, k, after, more)
    ensures forall l :: l in after ==> l.src !in Elements(more) && exists m :: m in links && m.src == l.src
  {
    var rest := Erase(links, k);
    var inner := Doomed(EdgesOf(rest), links[k].dest);
    var left := Without(rest, inner);
    WithoutMember(rest, inner);
    forall l | l in after
      ensures l.src !in inner && exists m :: m in links && m.src == l.src
    {
      var i :| 0 <= i < |after| && after[i] == l;
      assert MarkedLink(left[i], l) && left[i] in left && left[i] in links;
    }
  }

  lemma StepOrder(base: seq<Link>, root: Oid, links: seq<Link>, log: seq<Oid>, k: nat, after: seq<Link>, more: seq<Oid>)
    requires Cascading(base, root, links, log) && k < |links| && links[k].src == root && links[k].o != 0
    requires DropsLink(links, k, after, more)
    ensures Ordered(after)
    ensures Live(after) == Live(links) - Elements(more)
    ensures NoMoreCallers(base, after)
  {
    var rest := Erase(links, k);
    var inner := Doomed(EdgesOf(rest), links[k].dest);
    var left := Without(rest, inner);
    EraseOrdered(links, k);
    WithoutOrdered(rest, inner);
    MarkedOrdered(left, after);
    EraseLive(links, k);
    CascadeLive(rest, links[k].dest);
    DoomedIsClosed(EdgesOf(rest), links[k].dest);
    MarkedEdges(left, after);
    CallersErase(links, k);
    CallersCascaded(rest, links[k].dest, after, more);
    forall d
      ensures |Callers(after, d)| <= |Callers(base, d)|
    {
      assert |Callers(after, d)| <= |Callers(rest, d)| <= |Callers(links, d)| <= |Callers(base, d)|;
    }
  }

  lemma ElementsConcat(a: seq<Oid>, b: seq<Oid>)
    ensures Elements(a + b) == Elements(a) + Elements(b)
    ensures Distinct(a) && Distinct(b) && Elements(a) !! Elements(b) ==> Distinct(a + b)
  {
    if Distinct(a) && Distinct(b) && Elements(a) !! Elements(b) {
      forall i, j | 0 <= i < j < |a + b|
        ensures (a + b)[i] != (a + b)[j]
      {
        if i < |a| <= j {
          assert a[i] in Elements(a) && b[j - |a|] in Elements(b);
        }
      }
    }
  }

  /** One turn of the restart loop. */
  lemma CascadeStep(base: seq<Link>, root: Oid, links: seq<Link>, log: seq<Oid>, k: nat, after: seq<Link>,
                    more: seq<Oid>)
    requires Cascading(base, root, links, log)
    requires k < |links| && links[k].src == root && DropsLink(links, k, after, more)
    ensures Cascading(base, root, after, log + more)
  {
    var doomed := Doomed(EdgesOf(base), root);
    ElementsConcat(log, more);
    if links[k].o == 0 {
      assert log + more == log;
      DoomedIsClosed(EdgesOf(base), root);
      EraseOrdered(links, k);
      EraseLive(links, k);
      EraseEdges(links, k);
      CallersErase(links, k);
      WithoutErase(links, k, doomed);
      assert forall l :: l in after ==> l in links;
    } else {
      InnerDoomed(base, root, links, log, k);
      StepEdges(base, root, links, log, k, after, more);
      StepFilter(base, root, links, log, k, after, more);
      StepSources(base, root, links, log, k, after, more);
      StepOrder(base, root, links, log, k, after, more);
    }
  }

  /** When the root has no outgoing link left, the cascade has its closed form. */
  lemma CascadeEnds(base: seq<Link>, root: Oid, links: seq<Link>, log: seq<Oid>)
    requires Cascading(base, root, links, log)
    requires forall l :: l in links ==> l.src != root
    ensures Cascaded(base, root, links, log)
  {
    var doomed := Doomed(EdgesOf(base), root);
    forall e | e in EdgesOf(base) && e.0 in Elements(log)
      ensures e.1 in Elements(log)
    {
    }
    assert log[0] in Elements(log);
    DoomedIsLeast(EdgesOf(base), root, Elements(log));
    assert Elements(log) == doomed;
    WithoutNothing(links, doomed);
  }
}
