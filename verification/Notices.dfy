/**
 * The calls of `object_destroyed`: which objects are told of a destruction, and with which
 * pointer. A cascade tells objects that it has destroyed itself, and those get a null pointer.
 */
module Notices {
  import opened Links
  import opened Worlds
  import opened Cascades
  import opened Settling

  /** `caller` is told that `oid` is destroyed; its handler is given the pointer `o`, which can be null. */
  datatype Notice = Notice(caller: Oid, o: nat, oid: Oid)

  /** The notice for one caller, if there is still a link to it. */
  function Call(links: seq<Link>, caller: Oid, oid: Oid): seq<Notice> {
    var f := FirstOf(links, caller);
    if f < |links| then [Notice(caller, links[f].o, oid)] else []
  }

  function Told(links: seq<Link>, callers: seq<Oid>, oid: Oid): seq<Notice> {
    if callers == [] then [] else Call(links, callers[0], oid) + Told(links, callers[1..], oid)
  }

  /** Every source is alive, or destroyed with its cascade still running; and only objects are flagged. */
  ghost predicate Grounded(links: seq<Link>, running: set<Oid>) {
    && running !! Live(links)
    && (forall l :: l in links ==> l.src == OID_BROADCAST || l.src in Live(links) || l.src in running)
    && forall l :: l in links && l.unused ==> l.o != 0
  }

  /** The ends of the links that carry no object. */
  ghost function Plain(links: seq<Link>): set<(Oid, Oid)> {
    set l | l in links && l.o == 0 :: (l.src, l.dest)
  }

  /** A notice is of an object that is destroyed. With a pointer it goes to an object that was alive, without to
      one that was not, through a link that carried no object. */
  ghost predicate Fair(notices: seq<Notice>, live: set<Oid>, gone: set<Oid>, plain: Edges) {
    forall n :: n in notices ==>
      && n.oid in gone
      && if n.o != 0 then n.caller in live else n.caller in gone && (n.caller, n.oid) in plain
  }

  /** Those of the callers that some link leads to. */
  function Linked(links: seq<Link>, callers: seq<Oid>): seq<Oid> {
    if callers == [] then []
    else (if exists l :: l in links && l.dest == callers[0] then [callers[0]] else []) + Linked(links, callers[1..])
  }

  // ------------------------------------------------------------------------- books

  /** What is known of a map when a cascade begins or ends: its flagged and live objects, its plain links, and all
      marks, notices and destructions so far. */
  datatype Books = Books(flagged: set<Oid>, live: set<Oid>, plain: Edges, marks: set<Oid>,
                         notified: seq<Notice>, destroyed: seq<Oid>)

  ghost function BooksOf(links: seq<Link>, marks: set<Oid>, notified: seq<Notice>, destroyed: seq<Oid>): (b: Books)
    ensures b.marks == marks && b.notified == notified && b.destroyed == destroyed
  {
    Books(Flagged(links), Live(links), Plain(links), marks, notified, destroyed)
  }

  ghost function DestroyedSince(a: Books, b: Books): set<Oid>
    requires |a.destroyed| <= |b.destroyed|
  {
    Elements(b.destroyed[|a.destroyed|..])
  }

  /** Between the two, flags came from marks alone and went with their objects, notices were fair, and
      nothing new came to live or to be linked. */
  ghost predicate Since(a: Books, b: Books, running: set<Oid>) {
    && a.notified <= b.notified && a.destroyed <= b.destroyed && b.live <= a.live && b.plain <= a.plain
    && MarkedSince(a, b)
    && Fair(b.notified[|a.notified|..], a.live, running + DestroyedSince(a, b), a.plain)
  }

  ghost predicate MarkedSince(a: Books, b: Books)
    requires |a.destroyed| <= |b.destroyed|
  {
    && a.marks <= b.marks && b.flagged <= a.flagged + b.marks
    && a.flagged <= b.flagged + DestroyedSince(a, b) && b.marks <= a.marks + b.flagged + DestroyedSince(a, b)
  }

  lemma SinceNothing(a: Books, running: set<Oid>)
    ensures Since(a, a, running)
  {
  }

  lemma FairMore(a: seq<Notice>, live: set<Oid>, gone: set<Oid>, plain: Edges, live': set<Oid>, gone': set<Oid>,
                 plain': Edges)
    requires Fair(a, live, gone, plain) && live <= live' && gone <= gone' && plain <= plain'
    ensures Fair(a, live', gone', plain')
  {
  }

  lemma FairConcat(a: seq<Notice>, b: seq<Notice>, live: set<Oid>, gone: set<Oid>, plain: Edges)
    requires Fair(a, live, gone, plain) && Fair(b, live, gone, plain)
    ensures Fair(a + b, live, gone, plain)
  {
  }

  lemma SuffixSplit<T>(x: seq<T>, y: seq<T>, z: seq<T>)
    requires x <= y <= z
    ensures z[|x|..] == y[|x|..] + z[|y|..]
  {
  }

  lemma SinceLonger(a: Books, b: Books, c: Books, running: set<Oid>)
    requires Since(a, b, running) && Since(b, c, running)
    ensures Since(a, c, running) && DestroyedSince(a, c) == DestroyedSince(a, b) + DestroyedSince(b, c)
  {
    hide Fair, Elements;
    SuffixSplit(a.destroyed, b.destroyed, c.destroyed);
    SuffixSplit(a.notified, b.notified, c.notified);
    ElementsConcat(b.destroyed[|a.destroyed|..], c.destroyed[|b.destroyed|..]);
    var first, rest := b.notified[|a.notified|..], c.notified[|b.notified|..];
    var gone := running + DestroyedSince(a, c);
    FairMore(first, a.live, running + DestroyedSince(a, b), a.plain, a.live, gone, a.plain);
    FairMore(rest, b.live, running + DestroyedSince(b, c), b.plain, a.live, gone, a.plain);
    FairConcat(first, rest, a.live, gone, a.plain);
  }

  /** An object that was destroyed meanwhile need not be said to be in its cascade. */
  lemma SinceWithout(a: Books, b: Books, running: set<Oid>, x: Oid)
    requires Since(a, b, running + {x}) && x in DestroyedSince(a, b)
    ensures Since(a, b, running)
  {
    assert running + {x} + DestroyedSince(a, b) == running + DestroyedSince(a, b);
  }

  /** Putting an object on the list of the destroyed changes nothing else. */
  lemma SinceBuried(a: Books, x: Oid, running: set<Oid>)
    ensures Since(a, a.(destroyed := a.destroyed + [x]), running)
    ensures DestroyedSince(a, a.(destroyed := a.destroyed + [x])) == {x}
  {
    assert (a.destroyed + [x])[|a.destroyed|..] == [x];
    assert [x][0] in Elements([x]);
  }

  /** A removed link: with it goes the flag of its object, which is destroyed next. */
  lemma SinceErased(links: seq<Link>, k: nat, marks: set<Oid>, notified: seq<Notice>, destroyed: seq<Oid>, b: Books,
                    running: set<Oid>)
    requires k < |links| && Ordered(links) && Grounded(links, running)
    requires Since(BooksOf(Erase(links, k), marks, notified, destroyed), b, running)
    requires links[k].o != 0 ==> links[k].dest in DestroyedSince(BooksOf(links, marks, notified, destroyed), b)
    ensures Since(BooksOf(links, marks, notified, destroyed), b, running)
  {
    hide Fair, Grounded;
    var a, e := BooksOf(links, marks, notified, destroyed), BooksOf(Erase(links, k), marks, notified, destroyed);
    ErasedBooks(links, k, running);
    FairMore(b.notified[|notified|..], e.live, running + DestroyedSince(e, b), e.plain,
             a.live, running + DestroyedSince(a, b), a.plain);
  }

  lemma ErasedBooks(links: seq<Link>, k: nat, running: set<Oid>)
    requires k < |links| && Ordered(links) && Grounded(links, running)
    ensures var e := Erase(links, k);
            && Flagged(e) <= Flagged(links) && Live(e) <= Live(links) && Plain(e) <= Plain(links)
            && Flagged(links) <= Flagged(e) + if links[k].o != 0 then {links[k].dest} else {}
  {
    var e := Erase(links, k);
    assert forall l :: l in e ==> l in links;
    assert links[k] in links;
    forall i | 0 <= i < |links| && i != k
      ensures links[i] in e
    {
      assert e[if i < k then i else i - 1] == links[i];
    }
  }

  /** Handlers mark objects and do nothing else. */
  lemma SinceMarked(a: seq<Link>, b: seq<Link>, marks: set<Oid>, marks': set<Oid>, notified: seq<Notice>,
                    calls: seq<Notice>, destroyed: seq<Oid>, running: set<Oid>)
    requires Marked(a, b) && Marks(a, marks, b, marks') && Fair(calls, Live(a), running, Plain(a))
    ensures Since(BooksOf(a, marks, notified, destroyed), BooksOf(b, marks', notified + calls, destroyed), running)
  {
    hide Fair, Marks;
    MarkedBooks(a, b);
    MarksAre(a, marks, b, marks');
    assert destroyed[|destroyed|..] == [] && (notified + calls)[|notified|..] == calls;
    assert running + Elements([]) == running;
  }

  /** The flags that came are marks, and the marks that came are flags. */
  ghost predicate Marks(a: seq<Link>, marks: set<Oid>, b: seq<Link>, marks': set<Oid>) {
    marks <= marks' && Flagged(a) <= Flagged(b) <= Flagged(a) + marks' && marks' <= marks + Flagged(b)
  }

  lemma MarksAre(a: seq<Link>, marks: set<Oid>, b: seq<Link>, marks': set<Oid>)
    requires Marks(a, marks, b, marks')
    ensures marks <= marks' && Flagged(a) <= Flagged(b) <= Flagged(a) + marks' && marks' <= marks + Flagged(b)
  {
  }

  lemma MarksMore(a: seq<Link>, x: set<Oid>, b: seq<Link>, y: set<Oid>, c: seq<Link>, z: set<Oid>)
    requires Marks(a, x, b, y) && Marks(b, y, c, z)
    ensures Marks(a, x, c, z)
  {
  }

  lemma MarkedBooks(a: seq<Link>, b: seq<Link>)
    requires Marked(a, b)
    ensures Live(a) == Live(b) && Plain(a) == Plain(b)
  {
    MarkedEdges(a, b);
    forall e
      ensures e in Plain(a) <==> e in Plain(b)
    {
      if e in Plain(a) {
        var i :| 0 <= i < |a| && a[i].o == 0 && (a[i].src, a[i].dest) == e;
        assert MarkedLink(a[i], b[i]) && b[i] in b;
      }
      if e in Plain(b) {
        var i :| 0 <= i < |b| && b[i].o == 0 && (b[i].src, b[i].dest) == e;
        assert MarkedLink(a[i], b[i]) && a[i] in a;
      }
    }
  }

  // ------------------------------------------------------------------ grounded maps

  lemma SteadyIsGrounded(w: World)
    requires Valid(w) && Quiescent(w)
    ensures Grounded(w.links, {})
  {
    forall l | l in w.links
      ensures l.src == OID_BROADCAST || l.src in Live(w.links)
    {
      assert LinkOk(l, w.born);
    }
    assert forall l :: l in w.links ==> LinkOk(l, w.born);
  }

  lemma EraseGrounded(links: seq<Link>, k: nat, running: set<Oid>)
    requires Ordered(links) && k < |links| && Grounded(links, running)
    ensures Grounded(Erase(links, k), running + if links[k].o != 0 then {links[k].dest} else {})
    ensures Live(Erase(links, k)) <= Live(links)
  {
    EraseLive(links, k);
  }

  lemma EmptiedGrounded(links: seq<Link>, k: nat, running: set<Oid>)
    requires Ordered(links) && k < |links| && links[k].o != 0 && Grounded(links, running)
    ensures Grounded(Emptied(links, k), running + {links[k].dest}) && Live(Emptied(links, k)) <= Live(links)
  {
    var after := Emptied(links, k);
    forall x
      ensures x in Live(after) <==> x in Live(links) && x != links[k].dest
    {
      if x in Live(links) && x != links[k].dest {
        var i :| 0 <= i < |links| && links[i].o != 0 && links[i].dest == x;
        assert after[i] == links[i] && after[i] in after;
      }
      if x in Live(after) {
        var i :| 0 <= i < |after| && after[i].o != 0 && after[i].dest == x;
        assert i != k && links[i] == after[i] && links[i] in links;
        InOrder(links, i, k);
        InOrder(links, k, i);
      }
    }
    forall l | l in after
      ensures (exists m :: m in links && m.src == l.src) && (l.unused ==> l.o != 0)
    {
      var i :| 0 <= i < |after| && after[i] == l;
      assert links[i] in links && links[i].src == l.src;
    }
  }

  lemma MarkedGrounded(a: seq<Link>, b: seq<Link>, running: set<Oid>)
    requires Marked(a, b) && Grounded(a, running)
    ensures Grounded(b, running) && Live(a) == Live(b)
  {
    MarkedEdges(a, b);
    forall l | l in b
      ensures (exists m :: m in a && m.src == l.src) && (l.unused ==> l.o != 0)
    {
      var i :| 0 <= i < |b| && b[i] == l;
      assert MarkedLink(a[i], b[i]) && a[i] in a;
    }
  }

  /** When the cascade of `root` has ended, no link of it is left, and only the outer cascades run on. */
  lemma CascadeGrounded(base: seq<Link>, root: Oid, running: set<Oid>, after: seq<Link>, log: seq<Oid>)
    requires Ordered(base) && root !in Live(base) && Grounded(base, running + {root})
    requires Cascaded(base, root, after, log)
    ensures Grounded(after, running) && Live(after) <= Live(base) && root in Elements(log)
    ensures Plain(after) <= Plain(base)
  {
    var gone := Doomed(EdgesOf(base), root);
    var left := Without(base, gone);
    DoomedIsClosed(EdgesOf(base), root);
    CascadeLive(base, root);
    WithoutMember(base, gone);
    assert Grounded(left, running);
    MarkedGrounded(left, after, running);
    MarkedBooks(left, after);
  }

  // ------------------------------------------------------------------------ telling

  /** The pointer an object is told with is null exactly when the object is destroyed and its cascade runs. */
  lemma NullIfRunning(links: seq<Link>, running: set<Oid>, l: Link)
    requires Ordered(links) && Grounded(links, running) && l in links && l.src != OID_BROADCAST && l.dest in running
    ensures Fair(Call(links, l.src, l.dest), Live(links), running, Plain(links))
    ensures forall n :: n in Call(links, l.src, l.dest) ==> (n.o == 0 <==> l.src in running)
  {
    var f := FirstOf(links, l.src);
    if l.src in Live(links) {
      CarrierLeads(links, l.src);
    } else if f < |links| {
      assert links[f] in links;
    }
    assert l.o != 0 ==> l.dest in Live(links);
  }

  /** One notice for each caller that has a link, in their order: of the destroyed object, and with the pointer
      in the first link to the caller. */
  lemma {:induction false} ToldInOrder(links: seq<Link>, callers: seq<Oid>, oid: Oid)
    ensures var told, linked := Told(links, callers, oid), Linked(links, callers);
            && |told| == |linked|
            && forall i :: 0 <= i < |told| ==>
                 && told[i].caller == linked[i] && told[i].oid == oid && FirstOf(links, linked[i]) < |links|
                 && told[i].o == links[FirstOf(links, linked[i])].o
    decreases |callers|
  {
    if callers != [] {
      ToldInOrder(links, callers[1..], oid);
      var f := FirstOf(links, callers[0]);
      assert f < |links| ==> links[f] in links;
      hide FirstOf;
    }
  }

  lemma {:induction false} ToldIsFair(links: seq<Link>, running: set<Oid>, callers: seq<Oid>, oid: Oid)
    requires Ordered(links) && Grounded(links, running) && oid in running
    requires forall c :: c in callers ==> c != OID_BROADCAST && exists l :: l in links && l.src == c && l.dest == oid
    ensures Fair(Told(links, callers, oid), Live(links), running, Plain(links))
    decreases |callers|
  {
    hide Grounded, Live, Ordered, Call, Plain, Fair;
    NoneIsFair(Live(links), running, Plain(links));
    if callers != [] {
      assert callers[0] in callers;
      var l :| l in links && l.src == callers[0] && l.dest == oid;
      NullIfRunning(links, running, l);
      assert forall c :: c in callers[1..] ==> c in callers;
      ToldIsFair(links, running, callers[1..], oid);
      FairConcat(Call(links, l.src, oid), Told(links, callers[1..], oid), Live(links), running, Plain(links));
    }
  }

  lemma NoneIsFair(live: set<Oid>, gone: set<Oid>, plain: Edges)
    ensures Fair([], live, gone, plain)
  {
  }

  lemma MarkedCall(a: seq<Link>, b: seq<Link>, caller: Oid, oid: Oid)
    requires Marked(a, b)
    ensures Call(a, caller, oid) == Call(b, caller, oid)
  {
    MarkedFirst(a, b, caller);
    var f := FirstOf(a, caller);
    assert f < |a| ==> MarkedLink(a[f], b[f]);
  }

  lemma ToldFirst(links: seq<Link>, callers: seq<Oid>, oid: Oid)
    ensures callers == [] ==> Told(links, callers, oid) == []
    ensures callers != [] ==> Told(links, callers, oid) == Call(links, callers[0], oid) + Told(links, callers[1..], oid)
  {
  }

  lemma {:induction false} ToldOneMore(links: seq<Link>, callers: seq<Oid>, c: Oid, oid: Oid)
    ensures Told(links, callers + [c], oid) == Told(links, callers, oid) + Call(links, c, oid)
    decreases |callers|
  {
    hide Told, Call;
    var more := callers + [c];
    ToldFirst(links, callers, oid);
    ToldFirst(links, more, oid);
    if callers == [] {
      assert more[1..] == [];
      ToldFirst(links, more[1..], oid);
    } else {
      assert more[1..] == callers[1..] + [c] && more[0] == callers[0];
      ToldOneMore(links, callers[1..], c, oid);
    }
  }

  /** One more of the callers collected before. */
  lemma ToldNext(links: seq<Link>, callers: seq<Oid>, i: nat, oid: Oid)
    requires i < |callers|
    ensures Told(links, callers[..i + 1], oid) == Told(links, callers[..i], oid) + Call(links, callers[i], oid)
    ensures Told(links, callers[..0], oid) == []
  {
    hide Call;
    assert callers[..i + 1] == callers[..i] + [callers[i]];
    ToldOneMore(links, callers[..i], callers[i], oid);
  }

  // ------------------------------------------------------------------ a null notice

  /** A map that a run leads to (`TwoLinksAreReached`): object 2 made object 3 and has another link to it. */
  function TwoLinks(): World {
    World([Link(7, 1, 0, 2, false), Link(9, 1, 2, 3, false), Link(0, 1, 2, 3, false)], map[2 := 0, 3 := 1], [2, 3], [])
  }

  /** When object 2 is retired there, erasing its first link to 3 destroys 3, and 2 is told of that
      with a null pointer, through the link that is left to it. */
  lemma NullNotice()
    ensures Valid(TwoLinks()) && Quiescent(TwoLinks())
    ensures var links := Emptied(TwoLinks().links, 0);
            && links[1].src == 2 && links[1].o != 0 && links[1].dest == 3
            && Told(Erase(links, 1), Callers(Erase(links, 1), 3), 3) == [Notice(2, 0, 3)]
  {
    var w := TwoLinks();
    TwoLinksAreValid();
    var links := Emptied(w.links, 0);
    var base := Erase(links, 1);
    assert base == [Link(0, 1, 0, 2, false), Link(0, 1, 2, 3, false)];
    assert base[1..] == [Link(0, 1, 2, 3, false)] && base[2..] == [];
    assert Callers(base[1..], 3) == [2] by { assert base[1..][1..] == []; }
    assert Callers(base, 3) == [2];
    assert FirstOf(base, 2) == 0;
    assert Call(base, 2, 3) == [Notice(2, 0, 3)];
    assert [2 as Oid][1..] == [];
  }

  lemma TwoLinksAreValid()
    ensures Valid(TwoLinks()) && Quiescent(TwoLinks())
  {
    TwoBlocks();
    TwoLive();
    hide Block, Live;
    var w := TwoLinks();
    assert BornOk(w, 2) && BornOk(w, 3);
    assert forall l :: l in w.links ==> LinkOk(l, w.born);
    assert Ordered(w.links);
    assert w.born.Keys == {2, 3};
    assert multiset(w.created) == multiset(w.born.Keys);
  }

  lemma TwoBlocks()
    ensures var links := TwoLinks().links; Block(links, 3) == [links[1], links[2]] && Block(links, 2) == [links[0]]
  {
    var links := TwoLinks().links;
    assert links == [links[0]] + [links[1]] + [links[2]];
    hide Block;
    forall d
      ensures Block(links, d) == Block([links[0]], d) + Block([links[1]], d) + Block([links[2]], d)
    {
      BlockConcat([links[0]] + [links[1]], [links[2]], d);
      BlockConcat([links[0]], [links[1]], d);
    }
    BlockOfOne(links[0], 2);
    BlockOfOne(links[1], 2);
    BlockOfOne(links[2], 2);
    BlockOfOne(links[0], 3);
    BlockOfOne(links[1], 3);
    BlockOfOne(links[2], 3);
  }

  lemma TwoLive()
    ensures Live(TwoLinks().links) == {2, 3}
  {
    var links := TwoLinks().links;
    assert links[0] in links && links[1] in links;
  }

  lemma TwoLinksAreReached()
    ensures exists trace, actions :: Run(trace, actions) && trace[|trace| - 1] == TwoLinks()
  {
    hide Next;
    var a, b, c := Link(7, 1, 0, 2, false), Link(9, 1, 2, 3, false), Link(0, 1, 2, 3, false);
    var trace := [EMPTY, World([a.(o := 0)], map[], [], []), World([a.(o := 0)], map[2 := 0], [2], []),
                  World([a], map[2 := 0], [2], []), World([a, c], map[2 := 0], [2], []),
                  World([a, c], map[2 := 0, 3 := 1], [2, 3], []),
                  World([a, b], map[2 := 0, 3 := 1], [2, 3], []), TwoLinks()];
    var actions := [NewProxy(0, 2, 1), BeginObject(2), EndObject(2, 7), NewProxy(2, 3, 1), BeginObject(3),
                    EndObject(3, 9), NewProxy(2, 3, 1)];
    FirstObject(a);
    SecondObject(a, b, c);
    assert Run(trace, actions);
  }

  lemma FirstObject(a: Link)
    requires a == Link(7, 1, 0, 2, false)
    ensures var w1 := World([a.(o := 0)], map[], [], []);
            var w2, w3 := w1.(born := map[2 := 0], created := [2]), World([a], map[2 := 0], [2], []);
            && Next(EMPTY, NewProxy(0, 2, 1), w1) && Next(w1, BeginObject(2), w2) && Next(w2, EndObject(2, 7), w3)
  {
    var l := a.(o := 0);
    assert Insert([], l) == [l] && Block([l], 2) == [l] && FirstOf([l], 2) == 0 by { BlockOfOne(l, 2); }
    assert 2 !in Live([l]) && [l][0 := a] == [a];
  }

  lemma SecondObject(a: Link, b: Link, c: Link)
    requires a == Link(7, 1, 0, 2, false) && b == Link(9, 1, 2, 3, false) && c == Link(0, 1, 2, 3, false)
    ensures var w3 := World([a], map[2 := 0], [2], []);
            var w4, w5 := w3.(links := [a, c]), World([a, c], map[2 := 0, 3 := 1], [2, 3], []);
            var w6 := w5.(links := [a, b]);
            && Next(w3, NewProxy(2, 3, 1), w4) && Next(w4, BeginObject(3), w5) && Next(w5, EndObject(3, 9), w6)
            && Next(w6, NewProxy(2, 3, 1), TwoLinks())
  {
    assert [a][1..] == [] && [a, c][1..] == [c] && [a, b][1..] == [b] && [b][1..] == [] && [c][1..] == [];
    assert EndOf([a], 3) == 1 && Insert([a], c) == [a, c];
    assert EndOf([b], 3) == 1 && EndOf([a, b], 3) == 2 && Insert([a, b], c) == [a, b, c];
    assert FirstOf([c], 3) == 0 && FirstOf([a, c], 3) == 1;
    BlockConcat([a], [c], 3);
    BlockOfOne(a, 3);
    BlockOfOne(c, 3);
    assert [a, c] == [a] + [c] && 3 !in Live([a, c]) && [a, c][1 := b] == [a, b];
  }
}
