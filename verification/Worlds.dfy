/**
 * Runs of the object map: what may happen to the links, when each object was
 * constructed, and the facts that hold after every run.
 */
module Worlds {
  import opened Links

  /** The map with its history: when each live (or half-constructed) object was
      born, and the objects constructed and destroyed so far, in order. */
  datatype World = World(links: seq<Link>, born: map<Oid, nat>, created: seq<Oid>, destroyed: seq<Oid>)

  datatype Action =
    | NewProxy(src: Oid, dest: Oid, iface: nat)
    | BeginObject(oid: Oid)
    | EndObject(oid: Oid, o: nat)
    | DropLink(k: nat)
    | Retire(k: nat)
    | MarkObjects

  const EMPTY := World([], map[], [], [])

  predicate LinkOk(l: Link, born: map<Oid, nat>) {
    && l.dest != OID_BROADCAST && l.src != l.dest
    && (l.src == OID_BROADCAST || l.src in born)
    && (l.o != 0 ==> l.dest in born)
    && (l.unused ==> l.o != 0)
  }

  /** A constructed object has a creator link, and the creator is older. */
  predicate BornOk(w: World, d: Oid)
    requires d in w.born
  {
    && w.born[d] < |w.created| && Block(w.links, d) != []
    && var creator := Block(w.links, d)[0].src;
       (creator == OID_BROADCAST || (creator in w.born && w.born[creator] < w.born[d]))
  }

  ghost predicate Valid(w: World) {
    && Ordered(w.links)
    && (forall l :: l in w.links ==> LinkOk(l, w.born))
    && (forall d :: d in w.born ==> BornOk(w, d))
    && multiset(w.created) == multiset(w.destroyed) + multiset(w.born.Keys)
  }

  /** Every object whose construction began is in the map: no constructor is running. */
  ghost predicate Quiescent(w: World) {
    w.born.Keys == Live(w.links)
  }

  ghost predicate Distinct(s: seq<Oid>) {
    forall i, j :: 0 <= i < j < |s| ==> s[i] != s[j]
  }

  ghost function Elements(s: seq<Oid>): set<Oid> {
    set x | x in s
  }

  /** What destroying `root` does to a map whose creator link of `root` is gone: the
      links of all doomed objects go, nothing else does, handlers may mark objects
      unused, and each doomed object is destroyed once, `root` first. */
  ghost predicate Cascaded(before: seq<Link>, root: Oid, after: seq<Link>, log: seq<Oid>) {
    var d := Doomed(EdgesOf(before), root);
    && Marked(Without(before, d), after)
    && log != [] && log[0] == root && Distinct(log) && Elements(log) == d
  }

  /** Map and log after destroying link `k`. */
  ghost predicate DropsLink(before: seq<Link>, k: nat, after: seq<Link>, log: seq<Oid>)
    requires k < |before|
  {
    if before[k].o != 0 then Cascaded(Erase(before, k), before[k].dest, after, log)
    else after == Erase(before, k) && log == []
  }

  function Emptied(links: seq<Link>, k: nat): seq<Link>
    requires k < |links|
  {
    links[k := links[k].(o := 0, unused := false)]
  }

  ghost predicate Buried(w: World, w': World, log: seq<Oid>) {
    w'.born == w.born - Elements(log) && w'.created == w.created && w'.destroyed == w.destroyed + log
  }

  ghost predicate Next(w: World, a: Action, w': World) {
    match a
    case NewProxy(src, dest, iface) =>
      && (src == OID_BROADCAST || src in w.born) && dest != OID_BROADCAST && dest != src
      && w' == w.(links := Insert(w.links, Link(0, iface, src, dest, false)))
    case BeginObject(d) =>
      && Block(w.links, d) != [] && d !in w.born
      && w' == w.(born := w.born[d := |w.created|], created := w.created + [d])
    case EndObject(d, o) =>
      && d in w.born && d !in Live(w.links) && Block(w.links, d) != []
      && o != 0 && (forall l :: l in w.links ==> l.o != o)
      && var f := FirstOf(w.links, d);
         f < |w.links| && w' == w.(links := w.links[f := w.links[f].(o := o)])
    case DropLink(k) =>
      && Quiescent(w) && k < |w.links|
      && exists log :: DropsLink(w.links, k, w'.links, log) && Buried(w, w', log)
    case Retire(k) =>
      && Quiescent(w) && k < |w.links| && w.links[k].o != 0
      && exists log :: Cascaded(Emptied(w.links, k), w.links[k].dest, w'.links, log) && Buried(w, w', log)
    case MarkObjects =>
      Marked(w.links, w'.links) && w' == w.(links := w'.links)
  }

  // ------------------------------------------------------------ blocks and filters

  lemma {:induction false} BlockHead(links: seq<Link>, d: Oid)
    ensures Block(links, d) == [] <==> FirstOf(links, d) == |links|
    ensures Block(links, d) != [] ==> Block(links, d)[0] == links[FirstOf(links, d)]
    ensures forall l :: l in Block(links, d) ==> l in links && l.dest == d
    ensures forall l :: l in links && l.dest == d ==> l in Block(links, d)
  {
    if links != [] {
      BlockHead(links[1..], d);
      assert links == [links[0]] + links[1..];
    }
  }

  lemma {:induction false} BlockWithout(links: seq<Link>, gone: set<Oid>, d: Oid)
    ensures Block(Without(links, gone), d) == Without(Block(links, d), gone)
  {
    if links != [] {
      BlockWithout(links[1..], gone, d);
      var head := if links[0].src in gone then [] else [links[0]];
      BlockConcat(head, Without(links[1..], gone), d);
      BlockOfOne(links[0], d);
      var own := if links[0].dest == d then [links[0]] else [];
      WithoutConcat(own, Block(links[1..], d), gone);
      assert Without([links[0]], gone) == head by { assert [links[0]][1..] == []; }
    }
  }

  lemma {:induction false} BlockMarked(a: seq<Link>, b: seq<Link>, d: Oid)
    requires Marked(a, b)
    ensures Marked(Block(a, d), Block(b, d))
  {
    if a != [] {
      MarkedTail(a, b);
      BlockMarked(a[1..], b[1..], d);
    }
  }

  lemma BlockUpdate(links: seq<Link>, k: nat, l: Link, d: Oid)
    requires k < |links| && l.dest == links[k].dest
    ensures d != l.dest ==> Block(links[k := l], d) == Block(links, d)
    ensures d == l.dest ==> Block(links[k := l], d) == Block(links[..k], d) + [l] + Block(links[k + 1..], d)
    ensures d == l.dest ==> Block(links, d) == Block(links[..k], d) + [links[k]] + Block(links[k + 1..], d)
  {
    EraseFromBlock(links, k, d);
    EraseFromBlock(links[k := l], k, d);
    assert links[k := l][..k] == links[..k] && links[k := l][k + 1..] == links[k + 1..];
  }

  lemma OneCarrier(links: seq<Link>, l: Link, m: Link)
    requires Ordered(links) && l in links && m in links && l.o != 0 && m.o != 0
    requires l.dest == m.dest || l.o == m.o
    ensures l == m
  {
    var i :| 0 <= i < |links| && links[i] == l;
    var j :| 0 <= j < |links| && links[j] == m;
    InOrder(links, i, j);
    InOrder(links, j, i);
  }

  /** The cascade leaves exactly the objects outside the doomed set. */
  lemma CascadeLive(links: seq<Link>, root: Oid)
    requires Ordered(links) && root !in Live(links)
    ensures Live(Without(links, Doomed(EdgesOf(links), root))) == Live(links) - Doomed(EdgesOf(links), root)
  {
    var edges := EdgesOf(links);
    var d := Doomed(edges, root);
    var left := Without(links, d);
    WithoutMember(links, d);
    DoomedIsClosed(edges, root);
    forall x
      ensures x in Live(left) <==> x in Live(links) && x !in d
    {
      if x in Live(left) {
        var l :| l in left && l.o != 0 && l.dest == x;
        if x in d {
          var c := DoomedHasCreator(edges, root, x);
          var m :| m in links && m.o != 0 && (m.src, m.dest) == (c, x);
          OneCarrier(links, l, m);
        }
      }
      if x in Live(links) && x !in d {
        var l :| l in links && l.o != 0 && l.dest == x;
        assert (l.src, l.dest) in edges;
        assert l in left;
      }
    }
  }

  // -------------------------------------------------------------- the invariant

  lemma ProxyKeeps(w: World, src: Oid, dest: Oid, iface: nat, w': World)
    requires Valid(w) && Next(w, NewProxy(src, dest, iface), w')
    ensures Valid(w')
  {
    var l := Link(0, iface, src, dest, false);
    InsertOrdered(w.links, l);
    var e := EndOf(w.links, dest);
    forall m | m in w'.links
      ensures LinkOk(m, w.born)
    {
      assert m == l || m in w.links[..e] || m in w.links[e..];
    }
    forall d | d in w.born
      ensures BornOk(w', d)
    {
      assert BornOk(w, d);
      InsertIntoBlock(w.links, l, d);
    }
  }

  lemma BeginBorn(w: World, oid: Oid, w': World, d: Oid)
    requires Valid(w) && Next(w, BeginObject(oid), w') && d in w'.born
    ensures BornOk(w', d)
  {
    BlockHead(w.links, d);
    if d != oid {
      assert BornOk(w, d);
    } else {
      var first := Block(w.links, d)[0];
      assert LinkOk(first, w.born);
      if first.src != OID_BROADCAST {
        assert BornOk(w, first.src);
      }
    }
  }

  lemma BeginKeeps(w: World, oid: Oid, w': World)
    requires Valid(w) && Next(w, BeginObject(oid), w')
    ensures Valid(w')
  {
    forall d | d in w'.born
      ensures BornOk(w', d)
    {
      BeginBorn(w, oid, w', d);
    }
    forall l | l in w'.links
      ensures LinkOk(l, w'.born)
    {
      assert LinkOk(l, w.born);
    }
    assert w'.born.Keys == w.born.Keys + {oid};
    assert multiset(w'.born.Keys) == multiset(w.born.Keys) + multiset{oid};
  }

  lemma EndKeeps(w: World, oid: Oid, o: nat, w': World)
    requires Valid(w) && Next(w, EndObject(oid, o), w')
    ensures Valid(w') && Live(w'.links) == Live(w.links) + {oid}
  {
    var f := FirstOf(w.links, oid);
    var l := w.links[f].(o := o);
    forall i, j | 0 <= i < j < |w.links|
      ensures Before(w'.links[i], w'.links[j])
    {
      assert Before(w.links[i], w.links[j]);
      assert w.links[i] in w.links && w.links[j] in w.links;
    }
    forall m | m in w'.links
      ensures LinkOk(m, w.born)
    {
      assert w.links[f] in w.links;
      assert m == l || m in w.links;
    }
    forall d | d in w.born
      ensures BornOk(w', d)
    {
      EndKeepsCreator(w, oid, o, w', d);
    }
    EndLive(w.links, f, o);
  }

  lemma EndKeepsCreator(w: World, oid: Oid, o: nat, w': World, d: Oid)
    requires Valid(w) && Next(w, EndObject(oid, o), w') && d in w.born
    ensures BornOk(w', d)
  {
    var f := FirstOf(w.links, oid);
    assert BornOk(w, d);
    BlockUpdate(w.links, f, w.links[f].(o := o), d);
    if d == oid {
      BlockHead(w.links, d);
      BlockHead(w.links[..f], d);
      assert forall m :: m in w.links[..f] ==> m.dest != d;
      BlockEmpty(w.links[..f], d);
    }
  }

  lemma EndLive(links: seq<Link>, f: nat, o: nat)
    requires f < |links| && o != 0
    ensures Live(links[f := links[f].(o := o)]) == Live(links) + {links[f].dest}
  {
    var after := links[f := links[f].(o := o)];
    forall x
      ensures x in Live(after) <==> x in Live(links) || x == links[f].dest
    {
      assert after[f] in after;
      if x in Live(links) {
        var i :| 0 <= i < |links| && links[i].o != 0 && links[i].dest == x;
        assert after[i] in after && after[i].o != 0;
      }
      if x in Live(after) && x != links[f].dest {
        var i :| 0 <= i < |links| && after[i].o != 0 && after[i].dest == x;
        assert links[i] == after[i] && links[i] in links;
      }
    }
  }

  lemma MarkKeeps(w: World, w': World)
    requires Valid(w) && Next(w, MarkObjects, w')
    ensures Valid(w') && Live(w'.links) == Live(w.links)
  {
    MarkedOrdered(w.links, w'.links);
    MarkedEdges(w.links, w'.links);
    MarkedLinksOk(w.links, w'.links, w.born);
    forall d | d in w.born
      ensures BornOk(w', d)
    {
      assert BornOk(w, d);
      BlockMarked(w.links, w'.links, d);
      assert MarkedLink(Block(w.links, d)[0], Block(w'.links, d)[0]);
    }
  }

  lemma MarkedLinksOk(a: seq<Link>, b: seq<Link>, born: map<Oid, nat>)
    requires Marked(a, b) && forall l :: l in a ==> LinkOk(l, born)
    ensures forall l :: l in b ==> LinkOk(l, born)
  {
    forall l | l in b
      ensures LinkOk(l, born)
    {
      var i :| 0 <= i < |b| && b[i] == l;
      assert MarkedLink(a[i], b[i]) && a[i] in a;
    }
  }

  /** A map whose objects are those of a valid world, all but `root`, whose creator link is gone. */
  ghost predicate Orphaned(w: World, links: seq<Link>, root: Oid) {
    && Valid(w) && Quiescent(w) && root in w.born
    && Ordered(links) && Live(links) == Live(w.links) - {root}
    && (forall l :: l in links ==> LinkOk(l, w.born))
    && (forall d :: d in w.born && d != root ==> Block(links, d) == Block(w.links, d))
  }

  lemma CascadeKeeps(w: World, links: seq<Link>, root: Oid, w': World, log: seq<Oid>)
    requires Orphaned(w, links, root) && Cascaded(links, root, w'.links, log) && Buried(w, w', log)
    ensures Valid(w') && Quiescent(w')
  {
    var gone := Doomed(EdgesOf(links), root);
    var left := Without(links, gone);
    CascadeLive(links, root);
    DoomedIsLeast(EdgesOf(links), root, w.born.Keys) by {
      LiveIsEdges(links);
      forall e | e in EdgesOf(links) ensures e.1 in w.born { assert e.1 in Live(links); }
    }
    DoomedIsClosed(EdgesOf(links), root);
    MarkedEdges(left, w'.links);
    WithoutOrdered(links, gone);
    MarkedOrdered(left, w'.links);
    WithoutMember(links, gone);
    forall l | l in left
      ensures LinkOk(l, w'.born)
    {
      assert LinkOk(l, w.born);
      if l.o != 0 { assert l.dest in Live(left); }
    }
    MarkedLinksOk(left, w'.links, w'.born);
    forall d | d in w'.born
      ensures BornOk(w', d)
    {
      SurvivorKeepsCreator(w, links, root, d);
      BlockMarked(left, w'.links, d);
      assert MarkedLink(Block(left, d)[0], Block(w'.links, d)[0]);
    }
    BuriedCounts(w, w', log);
  }

  /** An object outside the doomed set keeps its creator link at the head of its block, and its creator. */
  lemma SurvivorKeepsCreator(w: World, links: seq<Link>, root: Oid, d: Oid)
    requires Orphaned(w, links, root) && d in w.born && d !in Doomed(EdgesOf(links), root)
    ensures BornOk(w, d)
    ensures Block(links, d) == Block(w.links, d)
    ensures var left := Block(Without(links, Doomed(EdgesOf(links), root)), d);
            left != [] && left[0] == Block(links, d)[0]
    ensures Block(links, d)[0].src !in Doomed(EdgesOf(links), root)
  {
    var edges := EdgesOf(links);
    var gone := Doomed(edges, root);
    DoomedIsClosed(edges, root);
    var block := Block(links, d);
    CarrierLeads(w.links, d);
    BlockHead(links, d);
    assert (block[0].src, d) in edges;
    BlockWithout(links, gone, d);
    assert Without(block, gone)[0] == block[0];
  }

  /** The link that carries an object is the first of its block. */
  lemma CarrierLeads(links: seq<Link>, d: Oid)
    requires Ordered(links) && d in Live(links)
    ensures Block(links, d) != [] && Block(links, d)[0].o != 0 && FirstOf(links, d) < |links|
    ensures links[FirstOf(links, d)].o != 0
  {
    var k :| 0 <= k < |links| && links[k].o != 0 && links[k].dest == d;
    BlockHead(links, d);
    var f := FirstOf(links, d);
    InOrder(links, f, k);
  }

  lemma InOrder(links: seq<Link>, i: nat, j: nat)
    requires Ordered(links) && i < |links| && j < |links|
    ensures i < j ==> Before(links[i], links[j])
  {
  }

  lemma BuriedCounts(w: World, w': World, log: seq<Oid>)
    requires multiset(w.created) == multiset(w.destroyed) + multiset(w.born.Keys)
    requires Buried(w, w', log) && Distinct(log) && Elements(log) <= w.born.Keys
    ensures multiset(w'.created) == multiset(w'.destroyed) + multiset(w'.born.Keys)
  {
    DistinctCounts(log);
    assert w'.born.Keys == w.born.Keys - Elements(log);
    assert multiset(w.born.Keys) == multiset(w'.born.Keys) + multiset(Elements(log));
    assert multiset(w'.destroyed) == multiset(w.destroyed) + multiset(log);
  }

  lemma {:induction false} DistinctCounts(s: seq<Oid>)
    requires Distinct(s)
    ensures multiset(s) == multiset(Elements(s))
  {
    if s != [] {
      var rest := s[..|s| - 1];
      var last := s[|s| - 1];
      DistinctCounts(rest);
      assert s == rest + [last];
      assert Elements(s) == Elements(rest) + {last};
      assert last !in Elements(rest);
    }
  }

  lemma DropOrphans(w: World, k: nat)
    requires Valid(w) && Quiescent(w) && k < |w.links| && w.links[k].o != 0
    ensures Orphaned(w, Erase(w.links, k), w.links[k].dest)
  {
    hide BornOk, LinkOk, Block, Ordered, Live;
    var l := w.links[k];
    CarriedIsBorn(w, k);
    EraseOrdered(w.links, k);
    forall d | d in w.born && d != l.dest
      ensures Block(Erase(w.links, k), d) == Block(w.links, d)
    {
      EraseFromBlock(w.links, k, d);
      assert Block(w.links[..k], d) + [] == Block(w.links[..k], d);
    }
    EraseLive(w.links, k);
  }

  lemma CarriedIsBorn(w: World, k: nat)
    requires Valid(w) && k < |w.links| && w.links[k].o != 0
    ensures w.links[k].dest in w.born && Ordered(w.links)
    ensures forall m :: m in Erase(w.links, k) ==> LinkOk(m, w.born)
  {
    hide BornOk, Block, Ordered, Live;
    assert w.links[k] in w.links && LinkOk(w.links[k], w.born);
    assert forall m :: m in Erase(w.links, k) ==> m in w.links;
  }

  lemma EraseLive(links: seq<Link>, k: nat)
    requires Ordered(links) && k < |links|
    ensures Live(Erase(links, k)) == Live(links) - if links[k].o != 0 then {links[k].dest} else {}
  {
    var after := Erase(links, k);
    forall x
      ensures x in Live(after) <==> x in Live(links) && (links[k].o == 0 || x != links[k].dest)
    {
      if x in Live(links) && (links[k].o == 0 || x != links[k].dest) {
        var i :| 0 <= i < |links| && links[i].o != 0 && links[i].dest == x;
        assert links[i] == after[if i < k then i else i - 1];
      }
      if x in Live(after) {
        var i :| 0 <= i < |after| && after[i].o != 0 && after[i].dest == x;
        var i' := if i < k then i else i + 1;
        assert after[i] == links[i'] && links[i'] in links;
        assert i' < k ==> Before(links[i'], links[k]);
        assert k < i' ==> Before(links[k], links[i']);
      }
    }
  }

  lemma RetireOrphans(w: World, k: nat)
    requires Valid(w) && Quiescent(w) && k < |w.links| && w.links[k].o != 0
    ensures Orphaned(w, Emptied(w.links, k), w.links[k].dest)
  {
    var l := w.links[k];
    var links := Emptied(w.links, k);
    assert l in w.links && LinkOk(l, w.born);
    forall i, j | 0 <= i < j < |links|
      ensures Before(links[i], links[j])
    {
      assert Before(w.links[i], w.links[j]);
    }
    forall m | m in links
      ensures LinkOk(m, w.born)
    {
      assert m == links[k] || m in w.links;
    }
    forall d | d in w.born && d != l.dest
      ensures Block(links, d) == Block(w.links, d)
    {
      BlockUpdate(w.links, k, links[k], d);
    }
    forall x
      ensures x in Live(links) <==> x in Live(w.links) && x != l.dest
    {
      if x in Live(w.links) && x != l.dest {
        var i :| 0 <= i < |links| && w.links[i].o != 0 && w.links[i].dest == x;
        assert links[i] == w.links[i] && links[i] in links;
      }
      if x in Live(links) {
        var i :| 0 <= i < |links| && links[i].o != 0 && links[i].dest == x;
        assert links[i] == w.links[i] && w.links[i] in w.links;
        assert i < k ==> Before(w.links[i], w.links[k]);
        assert k < i ==> Before(w.links[k], w.links[i]);
      }
    }
  }

  lemma DropKeeps(w: World, k: nat, w': World)
    requires Valid(w) && Next(w, DropLink(k), w')
    ensures Valid(w') && Quiescent(w')
  {
    var log :| DropsLink(w.links, k, w'.links, log) && Buried(w, w', log);
    var l := w.links[k];
    if l.o != 0 {
      DropOrphans(w, k);
      CascadeKeeps(w, Erase(w.links, k), l.dest, w', log);
    } else {
      PlainDropKeeps(w, k, w');
    }
  }

  /** Erasing a link that carries no object. */
  lemma PlainDropKeeps(w: World, k: nat, w': World)
    requires Valid(w) && Quiescent(w) && k < |w.links| && w.links[k].o == 0 && w' == w.(links := Erase(w.links, k))
    ensures Valid(w') && Quiescent(w')
  {
    EraseOrdered(w.links, k);
    EraseLive(w.links, k);
    forall l | l in w'.links
      ensures LinkOk(l, w.born)
    {
      assert l in w.links;
    }
    forall d | d in w.born
      ensures BornOk(w', d)
    {
      KeepsCreator(w, k, w', d);
    }
  }

  lemma KeepsCreator(w: World, k: nat, w': World, d: Oid)
    requires Valid(w) && Quiescent(w) && k < |w.links| && w.links[k].o == 0 && w' == w.(links := Erase(w.links, k))
    requires d in w.born
    ensures BornOk(w', d)
  {
    assert BornOk(w, d);
    EraseFromBlock(w.links, k, d);
    if d == w.links[k].dest {
      CarrierLeads(w.links, d);
      BlockHead(w.links, d);
      BlockHead(w.links[..k], d);
      var f := FirstOf(w.links, d);
      assert f < k;
      assert w.links[..k][f] in w.links[..k] && w.links[..k][f].dest == d;
    }
  }

  lemma RetireKeeps(w: World, k: nat, w': World)
    requires Valid(w) && Next(w, Retire(k), w')
    ensures Valid(w') && Quiescent(w')
  {
    var log :| Cascaded(Emptied(w.links, k), w.links[k].dest, w'.links, log) && Buried(w, w', log);
    RetireOrphans(w, k);
    CascadeKeeps(w, Emptied(w.links, k), w.links[k].dest, w', log);
  }

  lemma StepKeepsValid(w: World, a: Action, w': World)
    requires Valid(w) && Next(w, a, w')
    ensures Valid(w')
  {
    match a
    case NewProxy(src, dest, iface) => ProxyKeeps(w, src, dest, iface, w');
    case BeginObject(d) => BeginKeeps(w, d, w');
    case EndObject(d, o) => EndKeeps(w, d, o, w');
    case DropLink(k) => DropKeeps(w, k, w');
    case Retire(k) => RetireKeeps(w, k, w');
    case MarkObjects => MarkKeeps(w, w');
  }

  // --------------------------------------------------------------------- runs

  ghost predicate Run(trace: seq<World>, actions: seq<Action>) {
    && |trace| == |actions| + 1 && trace[0] == EMPTY
    && forall i :: 0 <= i < |actions| ==> Next(trace[i], actions[i], trace[i + 1])
  }

  /** After every run of the map: the map is sorted with at most the first link of a block
      carrying an object, every source is alive or broadcast, every creator is older
      than its object, and objects constructed are those destroyed plus those still there. */
  lemma {:induction false} RunsAreValid(trace: seq<World>, actions: seq<Action>, n: nat)
    requires Run(trace, actions) && n < |trace|
    ensures Valid(trace[n])
  {
    if n > 0 {
      RunsAreValid(trace, actions, n - 1);
      StepKeepsValid(trace[n - 1], actions[n - 1], trace[n]);
    }
  }

  // ---------------------------------------------------------- the creator chain

  /** The objects an error travels through: `oid`, the creator of `oid`, the creator's creator, ... */
  ghost function CreatorChain(w: World, oid: Oid): (chain: seq<Oid>)
    requires Valid(w) && Quiescent(w)
    ensures chain != [] ==> chain[0] == oid
    decreases if oid in w.born then w.born[oid] else |w.created|
  {
    BlockHead(w.links, oid);
    var f := FirstOf(w.links, oid);
    if f == |w.links| then []
    else
      assert LinkOk(w.links[f], w.born);
      var creator := w.links[f].src;
      assert oid in w.born ==> BornOk(w, oid);
      assert creator in w.born ==> BornOk(w, creator);
      [oid] + if creator == OID_BROADCAST then [] else CreatorChain(w, creator)
  }

  ghost predicate CreatedBy(w: World, d: Oid, creator: Oid) {
    Block(w.links, d) != [] && Block(w.links, d)[0].src == creator
  }

  /** Each entry is followed by its creator, and the last was created by broadcast. */
  ghost predicate FollowsCreators(w: World, chain: seq<Oid>) {
    && (forall i :: 0 < i < |chain| ==> chain[i] in w.born)
    && (forall i :: 0 <= i < |chain| ==> CreatedBy(w, chain[i], Following(chain, i)))
  }

  function Following(chain: seq<Oid>, i: nat): Oid {
    if i + 1 < |chain| then chain[i + 1] else OID_BROADCAST
  }

  lemma FollowsOneMore(w: World, oid: Oid, rest: seq<Oid>)
    requires FollowsCreators(w, rest) && rest != [] && rest[0] in w.born && CreatedBy(w, oid, rest[0])
    ensures FollowsCreators(w, [oid] + rest)
  {
    var chain := [oid] + rest;
    forall i | 0 <= i < |chain|
      ensures i > 0 ==> chain[i] in w.born
      ensures CreatedBy(w, chain[i], Following(chain, i))
    {
      if i > 0 {
        assert CreatedBy(w, rest[i - 1], Following(rest, i - 1));
        assert chain[i] == rest[i - 1] && Following(chain, i) == Following(rest, i - 1);
      }
    }
  }

  lemma {:induction false} ChainFollows(w: World, oid: Oid)
    requires Valid(w) && Quiescent(w)
    ensures FollowsCreators(w, CreatorChain(w, oid))
    ensures CreatorChain(w, oid) != [] <==> Block(w.links, oid) != []
    decreases if oid in w.born then w.born[oid] else |w.created|
  {
    BlockHead(w.links, oid);
    var f := FirstOf(w.links, oid);
    if f < |w.links| {
      var creator := w.links[f].src;
      assert CreatedBy(w, oid, creator) && LinkOk(w.links[f], w.born);
      assert oid in w.born ==> BornOk(w, oid);
      if creator == OID_BROADCAST {
        assert CreatorChain(w, oid) == [oid];
      } else {
        assert BornOk(w, creator);
        BlockHead(w.links, creator);
        ChainFollows(w, creator);
        FollowsOneMore(w, oid, CreatorChain(w, creator));
      }
    }
  }

  lemma {:induction false} ChainAges(w: World, chain: seq<Oid>, i: nat, j: nat)
    requires Valid(w) && FollowsCreators(w, chain) && i < j < |chain| && chain[i] in w.born
    ensures w.born[chain[j]] < w.born[chain[i]]
    decreases j
  {
    CreatorIsOlder(w, chain, j);
    if i + 1 < j {
      ChainAges(w, chain, i, j - 1);
    }
  }

  lemma CreatorIsOlder(w: World, chain: seq<Oid>, j: nat)
    requires Valid(w) && FollowsCreators(w, chain) && 0 < j < |chain|
    ensures chain[j] in w.born && (chain[j - 1] in w.born ==> w.born[chain[j]] < w.born[chain[j - 1]])
  {
    var d := chain[j - 1];
    assert CreatedBy(w, d, Following(chain, j - 1)) && Following(chain, j - 1) == chain[j];
    if d in w.born {
      assert BornOk(w, d);
      BlockHead(w.links, chain[j]);
      assert BornOk(w, chain[j]) && LinkOk(Block(w.links, chain[j])[0], w.born);
    }
  }

  /** Creator chains have no cycle. */
  lemma ChainIsAcyclic(w: World, oid: Oid)
    requires Valid(w) && Quiescent(w)
    ensures Distinct(CreatorChain(w, oid))
  {
    var chain := CreatorChain(w, oid);
    ChainFollows(w, oid);
    forall i, j | 0 <= i < j < |chain|
      ensures chain[i] != chain[j]
    {
      if chain[i] in w.born {
        ChainAges(w, chain, i, j);
      }
    }
  }

  /** The error is offered to `chain[i]` if that object is alive, with the failed object one step down the chain. */
  ghost predicate Takes(w: World, chain: seq<Oid>, failed: Oid, accepts: (Oid, Oid) -> bool, i: nat)
    requires i < |chain|
  {
    chain[i] in Live(w.links) && accepts(chain[i], if i == 0 then failed else chain[i - 1])
  }

  /** The live objects among the first `n` of the chain, each with the object it is told has failed. */
  ghost function Asked(w: World, chain: seq<Oid>, failed: Oid, n: nat): seq<(Oid, Oid)>
    requires n <= |chain|
  {
    if n == 0 then []
    else (if chain[0] in Live(w.links) then [(chain[0], failed)] else []) + Asked(w, chain[1..], chain[0], n - 1)
  }

  /** Of a chain only the first can be without an object. All the others are asked in turn, each about the one
      before it. */
  lemma {:induction false} AskedInOrder(w: World, chain: seq<Oid>, failed: Oid, n: nat)
    requires n <= |chain| && forall i :: 0 < i < n ==> chain[i] in Live(w.links)
    ensures var pairs := Asked(w, chain, failed, n);
            var first := if n > 0 && chain[0] !in Live(w.links) then 1 else 0;
            && |pairs| == n - first
            && forall i :: first <= i < n ==> pairs[i - first] == (chain[i], if i == 0 then failed else chain[i - 1])
    decreases n
  {
    if n > 0 {
      assert forall i :: 0 <= i < n - 1 ==> chain[1..][i] == chain[i + 1];
      hide Live;
      AskedInOrder(w, chain[1..], chain[0], n - 1);
    }
  }

  /** The error went up the chain to its `asked`-th object, which is the first that takes it, or to the end. */
  ghost predicate Answered(w: World, chain: seq<Oid>, failed: Oid, accepts: (Oid, Oid) -> bool, handled: bool,
                           asked: nat) {
    && asked <= |chain|
    && (forall i :: 0 <= i < asked && Takes(w, chain, failed, accepts, i) ==> handled && i == asked - 1)
    && (if handled then asked > 0 && Takes(w, chain, failed, accepts, asked - 1) else asked == |chain|)
  }

  lemma AnsweredBelow(w: World, chain: seq<Oid>, failed: Oid, accepts: (Oid, Oid) -> bool, handled: bool, asked: nat)
    requires chain != [] && !(chain[0] in Live(w.links) && accepts(chain[0], failed))
    requires Answered(w, chain[1..], chain[0], accepts, handled, asked)
    ensures Answered(w, chain, failed, accepts, handled, asked + 1)
    ensures Asked(w, chain, failed, asked + 1)
         == Asked(w, chain[..1], failed, 1) + Asked(w, chain[1..], chain[0], asked)
  {
    assert Asked(w, chain[..1][1..], chain[0], 0) == [];
    forall i | 0 <= i < asked + 1 && Takes(w, chain, failed, accepts, i)
      ensures handled && i == asked
    {
      if i > 0 {
        assert Takes(w, chain[1..], chain[0], accepts, i - 1);
      }
    }
    if handled {
      assert Takes(w, chain[1..], chain[0], accepts, asked - 1);
    }
  }
}
