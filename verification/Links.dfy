/**
 * The message link map of main.c as a value: the sorted table of
 * proxy-to-object links, the creator relation it carries, and the closed form
 * of the destruction cascade.
 */
module Links {

  const OID_BROADCAST: Oid := 0
  const OID_FIRST: Oid := 2
  const OID_SPAN: nat := 0x1_0000

  /** `oid_t`, a 16-bit unsigned integer. */
  type Oid = n: int | 0 <= n < 0x1_0000

  /** `MsgLink`. A null object pointer is 0; any other `o` is an object's address. */
  datatype Link = Link(o: nat, iface: nat, src: Oid, dest: Oid, unused: bool)

  type Edges = set<(Oid, Oid)>

  // ---------------------------------------------------------------- the map

  /** How any link relates to a later one: sorted by destination, and a link that
      carries an object is the first of its block and the only one with that pointer. */
  predicate Before(a: Link, b: Link) {
    a.dest <= b.dest && (b.o != 0 ==> a.dest < b.dest && a.o != b.o)
  }

  ghost predicate Ordered(links: seq<Link>) {
    forall i, j :: 0 <= i < j < |links| ==> Before(links[i], links[j])
  }

  /** Index of the first link to `d`, or the length of the map: a linear scan. */
  function FirstOf(links: seq<Link>, d: Oid): (r: nat)
    ensures r <= |links|
    ensures r < |links| ==> links[r].dest == d
    ensures forall j :: 0 <= j < r ==> links[j].dest != d
  {
    if links == [] || links[0].dest == d then 0 else 1 + FirstOf(links[1..], d)
  }

  /** All links to `d`, in map order. */
  function Block(links: seq<Link>, d: Oid): seq<Link> {
    if links == [] then []
    else (if links[0].dest == d then [links[0]] else []) + Block(links[1..], d)
  }

  /** Where a new link to `d` goes: behind every link to `d` or to a smaller oid. */
  function EndOf(links: seq<Link>, d: Oid): (r: nat)
    ensures r <= |links|
  {
    if links == [] || d < links[0].dest then 0 else 1 + EndOf(links[1..], d)
  }

  function Insert(links: seq<Link>, l: Link): seq<Link> {
    links[..EndOf(links, l.dest)] + [l] + links[EndOf(links, l.dest)..]
  }

  function Erase(links: seq<Link>, k: nat): seq<Link>
    requires k < |links|
  {
    links[..k] + links[k + 1..]
  }

  ghost function Live(links: seq<Link>): set<Oid> {
    set l | l in links && l.o != 0 :: l.dest
  }

  /** The creator relation: an edge for every link that carries an object. */
  ghost function EdgesOf(links: seq<Link>): Edges {
    set l | l in links && l.o != 0 :: (l.src, l.dest)
  }

  /** The map without the links that leave an object of `d`. */
  ghost function Without(links: seq<Link>, d: set<Oid>): seq<Link> {
    if links == [] then []
    else (if links[0].src in d then [] else [links[0]]) + Without(links[1..], d)
  }

  /** `b` is `a` with more objects marked unused, and only objects. */
  ghost predicate Marked(a: seq<Link>, b: seq<Link>) {
    |a| == |b| && forall i :: 0 <= i < |a| ==> MarkedLink(a[i], b[i])
  }

  predicate MarkedLink(a: Link, b: Link) {
    b == a.(unused := b.unused) && (a.unused ==> b.unused) && (b.unused && !a.unused ==> a.o != 0)
  }

  // ------------------------------------------------- reachability of creation

  ghost predicate IsPath(edges: Edges, path: seq<Oid>) {
    if |path| <= 1 then |path| == 1
    else (path[|path| - 2], path[|path| - 1]) in edges && IsPath(edges, path[..|path| - 1])
  }

  ghost predicate PathTo(edges: Edges, root: Oid, x: Oid, path: seq<Oid>) {
    IsPath(edges, path) && path[0] == root && path[|path| - 1] == x
  }

  /** The objects created by `root`, by an object created by `root`, and so on, with `root` itself. */
  ghost function Doomed(edges: Edges, root: Oid): set<Oid> {
    {root} + set e | e in edges && (exists path :: PathTo(edges, root, e.1, path)) :: e.1
  }

  ghost predicate Closed(edges: Edges, d: set<Oid>) {
    forall e :: e in edges && e.0 in d ==> e.1 in d
  }

  lemma {:induction false} PathStays(edges: Edges, d: set<Oid>, path: seq<Oid>)
    requires IsPath(edges, path) && path[0] in d && Closed(edges, d)
    ensures path[|path| - 1] in d
    decreases |path|
  {
    if |path| > 1 {
      PathStays(edges, d, path[..|path| - 1]);
    }
  }

  /** `Doomed` is the least set that holds `root` and is closed under creation. */
  lemma DoomedIsLeast(edges: Edges, root: Oid, d: set<Oid>)
    requires root in d && Closed(edges, d)
    ensures Doomed(edges, root) <= d
  {
    forall x | x in Doomed(edges, root)
      ensures x in d
    {
      if x != root {
        var path :| PathTo(edges, root, x, path);
        PathStays(edges, d, path);
      }
    }
  }

  lemma DoomedIsClosed(edges: Edges, root: Oid)
    ensures root in Doomed(edges, root) && Closed(edges, Doomed(edges, root))
  {
    forall e | e in edges && e.0 in Doomed(edges, root)
      ensures e.1 in Doomed(edges, root)
    {
      var path := [root];
      if e.0 != root {
        path :| PathTo(edges, root, e.0, path);
      }
      PathGrows(edges, root, e, path);
    }
  }

  lemma PathGrows(edges: Edges, root: Oid, e: (Oid, Oid), path: seq<Oid>)
    requires e in edges && PathTo(edges, root, e.0, path)
    ensures PathTo(edges, root, e.1, path + [e.1])
  {
    var longer := path + [e.1];
    assert longer[..|longer| - 1] == path;
    assert (longer[|longer| - 2], longer[|longer| - 1]) == e;
  }

  /** Every doomed object but the root was created by a doomed object. */
  lemma DoomedHasCreator(edges: Edges, root: Oid, x: Oid) returns (creator: Oid)
    requires x in Doomed(edges, root) && x != root
    ensures creator in Doomed(edges, root) && (creator, x) in edges
  {
    var path :| PathTo(edges, root, x, path);
    creator := path[|path| - 2];
    DoomedIsClosed(edges, root);
    assert path[..|path| - 1][0] == root;
    PathStays(edges, Doomed(edges, root), path[..|path| - 1]);
  }

  // --------------------------------------------------------- lemmas on filters

  lemma {:induction false} WithoutMember(links: seq<Link>, d: set<Oid>)
    ensures forall l :: l in Without(links, d) <==> l in links && l.src !in d
  {
    if links != [] {
      WithoutMember(links[1..], d);
      assert links == [links[0]] + links[1..];
    }
  }

  lemma {:induction false} WithoutConcat(a: seq<Link>, b: seq<Link>, d: set<Oid>)
    ensures Without(a + b, d) == Without(a, d) + Without(b, d)
  {
    if a == [] {
      assert a + b == b;
    } else {
      assert (a + b)[1..] == a[1..] + b;
      WithoutConcat(a[1..], b, d);
    }
  }

  lemma WithoutErase(links: seq<Link>, k: nat, d: set<Oid>)
    requires k < |links| && links[k].src in d
    ensures Without(Erase(links, k), d) == Without(links, d)
  {
    assert links == links[..k] + ([links[k]] + links[k + 1..]);
    WithoutConcat(links[..k], links[k + 1..], d);
    WithoutConcat(links[..k], [links[k]] + links[k + 1..], d);
    assert ([links[k]] + links[k + 1..])[1..] == links[k + 1..];
  }

  lemma {:induction false} WithoutTwice(links: seq<Link>, some: set<Oid>, more: set<Oid>)
    requires some <= more
    ensures Without(Without(links, some), more) == Without(links, more)
  {
    if links != [] {
      WithoutTwice(links[1..], some, more);
      var rest := Without(links[1..], some);
      if links[0].src !in some {
        assert ([links[0]] + rest)[1..] == rest;
      } else {
        assert Without(links, some) == rest;
      }
    }
  }

  lemma {:induction false} WithoutNothing(links: seq<Link>, d: set<Oid>)
    requires forall l :: l in links ==> l.src !in d
    ensures Without(links, d) == links
  {
    if links != [] {
      WithoutNothing(links[1..], d);
    }
  }

  lemma {:induction false} WithoutOrdered(links: seq<Link>, d: set<Oid>)
    requires Ordered(links)
    ensures Ordered(Without(links, d))
  {
    if links != [] {
      var rest := Without(links[1..], d);
      WithoutOrdered(links[1..], d);
      WithoutMember(links[1..], d);
      forall l | l in rest
        ensures Before(links[0], l)
      {
        var j :| 0 <= j < |links[1..]| && links[1..][j] == l;
        assert l == links[j + 1];
      }
    }
  }

  lemma MarkedTail(a: seq<Link>, b: seq<Link>)
    requires Marked(a, b) && a != []
    ensures MarkedLink(a[0], b[0]) && Marked(a[1..], b[1..])
  {
    forall i | 0 <= i < |a| - 1
      ensures MarkedLink(a[1..][i], b[1..][i])
    {
      assert MarkedLink(a[i + 1], b[i + 1]);
    }
  }

  lemma {:induction false} WithoutMarked(a: seq<Link>, b: seq<Link>, d: set<Oid>)
    requires Marked(a, b)
    ensures Marked(Without(a, d), Without(b, d))
  {
    if a != [] {
      MarkedTail(a, b);
      WithoutMarked(a[1..], b[1..], d);
    }
  }

  lemma MarkedEdges(a: seq<Link>, b: seq<Link>)
    requires Marked(a, b)
    ensures EdgesOf(a) == EdgesOf(b) && Live(a) == Live(b)
  {
    forall e
      ensures e in EdgesOf(a) <==> e in EdgesOf(b)
    {
      if e in EdgesOf(a) {
        var i :| 0 <= i < |a| && a[i].o != 0 && (a[i].src, a[i].dest) == e;
        assert MarkedLink(a[i], b[i]) && b[i] in b;
      }
      if e in EdgesOf(b) {
        var i :| 0 <= i < |b| && b[i].o != 0 && (b[i].src, b[i].dest) == e;
        assert MarkedLink(a[i], b[i]) && a[i] in a;
      }
    }
    LiveIsEdges(a);
    LiveIsEdges(b);
  }

  lemma LiveIsEdges(links: seq<Link>)
    ensures Live(links) == set e | e in EdgesOf(links) :: e.1
  {
    forall x | x in Live(links) ensures x in set e | e in EdgesOf(links) :: e.1 {
      var l :| l in links && l.o != 0 && l.dest == x;
      assert (l.src, l.dest) in EdgesOf(links);
    }
  }

  lemma MarkedOrdered(a: seq<Link>, b: seq<Link>)
    requires Marked(a, b) && Ordered(a)
    ensures Ordered(b)
  {
    forall i, j | 0 <= i < j < |b|
      ensures Before(b[i], b[j])
    {
      assert Before(a[i], a[j]) && MarkedLink(a[i], b[i]) && MarkedLink(a[j], b[j]);
    }
  }

  lemma MarkedFirst(a: seq<Link>, b: seq<Link>, d: Oid)
    requires Marked(a, b)
    ensures FirstOf(a, d) == FirstOf(b, d)
  {
    var f, g := FirstOf(a, d), FirstOf(b, d);
    if f < |a| { assert MarkedLink(a[f], b[f]); }
    if g < |b| { assert MarkedLink(a[g], b[g]); }
  }

  lemma MarkedTransitive(a: seq<Link>, b: seq<Link>, c: seq<Link>)
    requires Marked(a, b) && Marked(b, c)
    ensures Marked(a, c)
  {
    forall i | 0 <= i < |a|
      ensures MarkedLink(a[i], c[i])
    {
      assert MarkedLink(a[i], b[i]) && MarkedLink(b[i], c[i]);
    }
  }

  // ------------------------------------------------------------ the map as index

  lemma {:induction false} EndOfSplits(links: seq<Link>, d: Oid)
    requires Ordered(links)
    ensures forall i :: 0 <= i < EndOf(links, d) ==> links[i].dest <= d
    ensures forall i :: EndOf(links, d) <= i < |links| ==> d < links[i].dest
  {
    if links != [] {
      if d < links[0].dest {
        forall i | 0 < i < |links|
          ensures d < links[i].dest
        {
          assert Before(links[0], links[i]);
        }
      } else {
        TailOrdered(links);
        EndOfSplits(links[1..], d);
        forall i | 0 <= i < |links|
          ensures i < EndOf(links, d) ==> links[i].dest <= d
          ensures EndOf(links, d) <= i ==> d < links[i].dest
        {
          if i > 0 {
            assert links[i] == links[1..][i - 1];
          }
        }
      }
    }
  }

  lemma {:induction false} EndOfIsUnique(links: seq<Link>, d: Oid, e: nat)
    requires e <= |links|
    requires forall i :: 0 <= i < e ==> links[i].dest <= d
    requires forall i :: e <= i < |links| ==> d < links[i].dest
    ensures e == EndOf(links, d)
  {
    if e > 0 {
      EndOfIsUnique(links[1..], d, e - 1);
    }
  }

  lemma TailOrdered(links: seq<Link>)
    requires Ordered(links) && links != []
    ensures Ordered(links[1..])
  {
    forall i, j | 0 <= i < j < |links| - 1
      ensures Before(links[1..][i], links[1..][j])
    {
      assert Before(links[i + 1], links[j + 1]);
    }
  }

  lemma {:induction false} BlockConcat(a: seq<Link>, b: seq<Link>, d: Oid)
    ensures Block(a + b, d) == Block(a, d) + Block(b, d)
  {
    if a == [] {
      assert a + b == b;
    } else {
      assert (a + b)[1..] == a[1..] + b;
      BlockConcat(a[1..], b, d);
    }
  }

  lemma {:induction false} BlockEmpty(links: seq<Link>, d: Oid)
    requires forall l :: l in links ==> l.dest != d
    ensures Block(links, d) == []
  {
    if links != [] {
      BlockEmpty(links[1..], d);
    }
  }

  lemma BlockOfOne(l: Link, d: Oid)
    ensures Block([l], d) == if l.dest == d then [l] else []
  {
    assert [l][1..] == [];
  }

  lemma InsertOrdered(links: seq<Link>, l: Link)
    requires Ordered(links) && l.o == 0
    ensures Ordered(Insert(links, l))
  {
    var e := EndOf(links, l.dest);
    EndOfSplits(links, l.dest);
    var after := Insert(links, l);
    forall i, j | 0 <= i < j < |after|
      ensures Before(after[i], after[j])
    {
      var i' := if i < e then i else i - 1;
      var j' := if j < e then j else j - 1;
      if i != e { assert after[i] == links[i']; }
      if j != e { assert after[j] == links[j']; }
      if i != e && j != e { assert Before(links[i'], links[j']); }
    }
  }

  /** Insertion appends to the block of the new link and changes no other block. */
  lemma InsertIntoBlock(links: seq<Link>, l: Link, d: Oid)
    requires Ordered(links)
    ensures Block(Insert(links, l), d) == Block(links, d) + if l.dest == d then [l] else []
  {
    var e := EndOf(links, l.dest);
    var low, high := links[..e], links[e..];
    EndOfSplits(links, l.dest);
    assert links == low + high;
    BlockConcat(low, high, d);
    BlockConcat(low + [l], high, d);
    BlockConcat(low, [l], d);
    BlockOfOne(l, d);
    if d == l.dest {
      BlockEmpty(high, d);
    }
  }

  /** Erasing takes one link out of its own block and changes no other block. */
  lemma EraseFromBlock(links: seq<Link>, k: nat, d: Oid)
    requires k < |links|
    ensures Block(Erase(links, k), d) == Block(links[..k], d) + Block(links[k + 1..], d)
    ensures Block(links, d)
         == Block(links[..k], d) + (if links[k].dest == d then [links[k]] else []) + Block(links[k + 1..], d)
  {
    var low, high := links[..k], links[k + 1..];
    assert links == low + [links[k]] + high;
    BlockConcat(low + [links[k]], high, d);
    BlockConcat(low, [links[k]], d);
    BlockOfOne(links[k], d);
    BlockConcat(low, high, d);
  }

  lemma EraseOrdered(links: seq<Link>, k: nat)
    requires Ordered(links) && k < |links|
    ensures Ordered(Erase(links, k))
  {
    var after := Erase(links, k);
    forall i, j | 0 <= i < j < |after|
      ensures Before(after[i], after[j])
    {
      var i' := if i < k then i else i + 1;
      var j' := if j < k then j else j + 1;
      assert after[i] == links[i'] && after[j] == links[j'] && Before(links[i'], links[j']);
    }
  }
}
