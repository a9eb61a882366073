/**
 * Two processes joined by a connection: what their relays send, what arrives where, and
 * which relay of the server stands for which relay of the client, over all runs.
 */
module Peers {
  import opened Links
  import opened Connections

  /** A message on the way. The relay `from` that sent it is known to nobody else. */
  datatype Note = Note(from: Oid, extid: Extid, com: bool, exported: bool)

  datatype Handling = Handling(note: Note, verdict: Verdict)

  /** The two tables, the bytes on the way as messages, what each side did with what it
      received, all that was sent, the extid for which each server relay was made, and
      the server relays that sent their delete message. */
  datatype Pair = Pair(client: Side, server: Side, up: seq<Note>, down: seq<Note>,
                       atServer: seq<Handling>, atClient: seq<Handling>,
                       sentUp: seq<Note>, sentDown: seq<Note>, bound: map<Oid, Extid>, retired: set<Oid>)

  datatype Step =
    | ClientSends(dest: Oid, com: bool, delete: bool, exported: bool)
    | ServerSends(dest: Oid, com: bool, delete: bool, exported: bool)
    | ServerTakes(spare: Oid)
    | ClientTakes(spare: Oid)
    | ClientMaps(held: set<Oid>)
    | ServerMaps(held: set<Oid>)

  function Start(client: Oid, server: Oid): Pair {
    Pair(Side(client, true, [], {}), Side(server, false, [], {}), [], [], [], [], [], [], map[], {})
  }

  /** A side that refused a message has closed the connection. */
  predicate Open(log: seq<Handling>) {
    log != [] ==> log[|log| - 1].verdict != Refused
  }

  /** Only the `Extern` itself sends to the other `Extern`, and only COM messages. */
  predicate CanSend(s: Side, dest: Oid, com: bool, delete: bool) {
    OID_BROADCAST < dest <= OID_LAST && (delete || dest == s.oid ==> com)
  }

  /** The oid that the map of this side has for a new relay. */
  predicate Unheld(s: Side, spare: Oid) {
    OID_BROADCAST < spare <= OID_LAST && spare !in s.held && spare != s.oid
  }

  predicate Enabled(p: Pair, a: Step) {
    match a
    case ClientSends(dest, com, delete, exported) => Open(p.atClient) && CanSend(p.client, dest, com, delete)
    case ServerSends(dest, com, delete, exported) => Open(p.atServer) && CanSend(p.server, dest, com, delete)
    case ServerTakes(spare) => Open(p.atServer) && p.up != [] && Unheld(p.server, spare)
    case ClientTakes(spare) => Open(p.atClient) && p.down != [] && Unheld(p.client, spare)
    case ClientMaps(held) => p.client.held <= held
    case ServerMaps(held) => p.server.held <= held
  }

  function After(p: Pair, a: Step): Pair
    requires Enabled(p, a)
  {
    match a
    case ClientSends(dest, com, delete, exported) =>
      var (t, extid) := Queued(p.client, dest, delete);
      var n := Note(dest, extid, com, exported);
      p.(client := t, up := p.up + [n], sentUp := p.sentUp + [n])
    case ServerSends(dest, com, delete, exported) =>
      var (t, extid) := Queued(p.server, dest, delete);
      var n := Note(dest, extid, com, exported);
      p.(server := t, down := p.down + [n], sentDown := p.sentDown + [n],
         retired := if delete && dest != p.server.oid then p.retired + {dest} else p.retired)
    case ServerTakes(spare) =>
      var n := p.up[0];
      var (t, verdict) := Admitted(p.server, n.extid, n.com, n.exported, spare);
      p.(server := t, up := p.up[1..], atServer := p.atServer + [Handling(n, verdict)],
         bound := if t == p.server then p.bound else p.bound[spare := n.extid])
    case ClientTakes(spare) =>
      var n := p.down[0];
      var (t, verdict) := Admitted(p.client, n.extid, n.com, n.exported, spare);
      p.(client := t, down := p.down[1..], atClient := p.atClient + [Handling(n, verdict)])
    case ClientMaps(held) => p.(client := p.client.(held := held))
    case ServerMaps(held) => p.(server := p.server.(held := held))
  }

  function Notes(log: seq<Handling>): (r: seq<Note>)
    ensures |r| == |log|
  {
    seq(|log|, i requires 0 <= i < |log| => log[i].note)
  }

  // ------------------------------------------------------------------- invariant

  /** Sent by the client, whose `Extern` is `x`: by the `Extern` to the other one, or under the oid of the relay. */
  predicate UpOk(n: Note, x: Oid) {
    if n.from == x then n.extid == EXTID_COM && n.com else n.extid == n.from && EXTID_COM < n.extid <= OID_LAST
  }

  /** Sent by the server: by its `Extern` to the other one, under the extid of the relay, or under an id minted here. */
  predicate DownOk(n: Note, x: Oid, bound: map<Oid, Extid>) {
    if n.from == x then n.extid == EXTID_COM && n.com
    else n.extid == n.from + SERVER_BASE || (n.from in bound && bound[n.from] == n.extid && n.extid != EXTID_COM)
  }

  predicate ServerConnOk(c: Conn, bound: map<Oid, Extid>, retired: set<Oid>) {
    c.extid < CLIENT_LAST ==> c.oid in bound && bound[c.oid] == c.extid && c.oid !in retired
  }

  /** A message that reached a relay of the server was sent by the client relay of that oid, and the `Extern` got
      what the `Extern` of the client sent and nothing else. */
  predicate ServerDid(h: Handling, x: Oid, bound: map<Oid, Extid>) {
    && (h.verdict == ToExtern <==> h.note.from == x)
    && (h.verdict.Reached? ==> h.verdict.oid in bound && bound[h.verdict.oid] == h.note.extid == h.note.from)
  }

  /** A message that reached a relay of the client was sent by a server relay made for it, and the `Extern` got
      what the `Extern` of the server sent and nothing else. */
  predicate ClientDid(h: Handling, x: Oid, bound: map<Oid, Extid>) {
    && (h.verdict == ToExtern <==> h.note.from == x)
    && (h.verdict.Reached? ==> h.note.from in bound && bound[h.note.from] == h.note.extid == h.verdict.oid)
  }

  ghost predicate TablesOk(p: Pair) {
    && SideOk(p.client) && p.client.client && SideOk(p.server) && !p.server.client
    && p.bound.Keys <= p.server.held && p.retired <= p.server.held
    && (forall s :: s in p.bound ==> EXTID_COM < p.bound[s] < CLIENT_LAST)
    && (forall c :: c in p.server.conns ==> ServerConnOk(c, p.bound, p.retired))
  }

  ghost predicate TrafficOk(p: Pair) {
    && (forall n :: n in p.up ==> UpOk(n, p.client.oid))
    && (forall n :: n in p.down ==> DownOk(n, p.server.oid, p.bound))
    && (forall h :: h in p.atServer ==> ServerDid(h, p.client.oid, p.bound))
    && (forall h :: h in p.atClient ==> ClientDid(h, p.server.oid, p.bound))
    && p.sentUp == Notes(p.atServer) + p.up && p.sentDown == Notes(p.atClient) + p.down
  }

  ghost predicate PairOk(p: Pair) {
    TablesOk(p) && TrafficOk(p)
  }

  /** What never changes back in the life of a connection. */
  ghost predicate Later(p: Pair, q: Pair) {
    && (forall s :: s in p.bound ==> s in q.bound && q.bound[s] == p.bound[s]) && p.retired <= q.retired
    && q.client.oid == p.client.oid && q.server.oid == p.server.oid
    && p.atServer <= q.atServer && p.atClient <= q.atClient && p.sentUp <= q.sentUp && p.sentDown <= q.sentDown
  }

  lemma ClientSendKeeps(p: Pair, a: Step)
    requires PairOk(p) && a.ClientSends? && Enabled(p, a)
    ensures PairOk(After(p, a)) && Later(p, After(p, a))
  {
    var q := After(p, a);
    QueuedKeeps(p.client, a.dest, a.delete);
    MintedApart(a.dest, a.dest);
    assert UpOk(q.up[|p.up|], p.client.oid);
    assert q.sentUp == Notes(q.atServer) + q.up;
  }

  lemma ServerSendKeeps(p: Pair, a: Step)
    requires PairOk(p) && a.ServerSends? && Enabled(p, a)
    ensures PairOk(After(p, a)) && Later(p, After(p, a))
  {
    var q := After(p, a);
    QueuedKeeps(p.server, a.dest, a.delete);
    MintedApart(a.dest, a.dest);
    var n := q.down[|p.down|];
    assert DownOk(n, p.server.oid, p.bound);
    forall c | c in q.server.conns
      ensures ServerConnOk(c, q.bound, q.retired)
    {
      assert c in p.server.conns ==> ServerConnOk(c, p.bound, p.retired);
    }
    assert q.sentDown == Notes(q.atClient) + q.down;
  }

  lemma ServerTakeKeeps(p: Pair, a: Step)
    requires PairOk(p) && a.ServerTakes? && Enabled(p, a)
    ensures PairOk(After(p, a)) && Later(p, After(p, a))
    ensures forall s :: s in p.retired ==> After(p, a).atServer[|p.atServer|].verdict != Reached(s)
  {
    hide SideOk, Admitted, ServerConnOk, Notes, ByExtid, ConnOk;
    var q, n := After(p, a), p.up[0];
    var h := q.atServer[|p.atServer|];
    assert UpOk(n, p.client.oid);
    ServerAdmits(p.server, n, p.client.oid, a.spare, p.bound, p.retired);
    NotesOneMore(p.atServer, h);
    assert p.up == [n] + q.up;
    forall m | m in q.down
      ensures DownOk(m, q.server.oid, q.bound)
    {
      assert DownOk(m, p.server.oid, p.bound);
    }
  }

  /** What a message from the client does to the table of the server. */
  lemma ServerAdmits(s: Side, n: Note, x: Oid, spare: Oid, bound: map<Oid, Extid>, retired: set<Oid>)
    requires SideOk(s) && !s.client && UpOk(n, x) && Unheld(s, spare) && bound.Keys <= s.held && retired <= s.held
    requires forall c :: c in s.conns ==> ServerConnOk(c, bound, retired)
    ensures var (t, verdict) := Admitted(s, n.extid, n.com, n.exported, spare);
            var bound' := if t == s then bound else bound[spare := n.extid];
            && SideOk(t) && !t.client && t.held >= s.held && bound'.Keys <= t.held
            && (forall c :: c in t.conns ==> ServerConnOk(c, bound', retired))
            && (t != s ==> spare !in bound && EXTID_COM < n.extid < CLIENT_LAST)
            && ServerDid(Handling(n, verdict), x, bound') && t.oid == s.oid
            && forall r :: r in retired ==> verdict != Reached(r)
  {
    var (t, verdict) := Admitted(s, n.extid, n.com, n.exported, spare);
    var bound' := if t == s then bound else bound[spare := n.extid];
    AdmittedKeeps(s, n.extid, n.com, n.exported, spare);
    forall c | c in t.conns
      ensures ServerConnOk(c, bound', retired)
    {
      assert c in s.conns ==> ServerConnOk(c, bound, retired);
    }
    if verdict.Reached? {
      var c := Conn(verdict.oid, n.extid);
      assert c in t.conns && ConnOk(false, c) && ServerConnOk(c, bound', retired);
    }
  }

  lemma ClientTakeKeeps(p: Pair, a: Step)
    requires PairOk(p) && a.ClientTakes? && Enabled(p, a)
    ensures PairOk(After(p, a)) && Later(p, After(p, a))
  {
    hide SideOk, Admitted, ServerConnOk, Notes, ByExtid, ConnOk;
    var q, n := After(p, a), p.down[0];
    var h := q.atClient[|p.atClient|];
    assert DownOk(n, p.server.oid, p.bound);
    ClientAdmits(p.client, n, p.server.oid, a.spare, p.bound);
    NotesOneMore(p.atClient, h);
    assert p.down == [n] + q.down;
  }

  /** What a message from the server does to the table of the client. */
  lemma ClientAdmits(s: Side, n: Note, x: Oid, spare: Oid, bound: map<Oid, Extid>)
    requires SideOk(s) && s.client && DownOk(n, x, bound) && Unheld(s, spare)
    ensures var (t, verdict) := Admitted(s, n.extid, n.com, n.exported, spare);
            SideOk(t) && t.client && t.oid == s.oid && ClientDid(Handling(n, verdict), x, bound)
  {
    var (t, verdict) := Admitted(s, n.extid, n.com, n.exported, spare);
    AdmittedKeeps(s, n.extid, n.com, n.exported, spare);
    if verdict.Reached? {
      var c := Conn(verdict.oid, n.extid);
      assert c in t.conns && ConnOk(true, c);
    }
  }

  lemma NotesOneMore(log: seq<Handling>, h: Handling)
    ensures Notes(log + [h]) == Notes(log) + [h.note]
  {
  }

  lemma StepKeeps(p: Pair, a: Step)
    requires PairOk(p) && Enabled(p, a)
    ensures PairOk(After(p, a)) && Later(p, After(p, a))
  {
    match a
    case ClientSends(_, _, _, _) => ClientSendKeeps(p, a);
    case ServerSends(_, _, _, _) => ServerSendKeeps(p, a);
    case ServerTakes(_) => ServerTakeKeeps(p, a);
    case ClientTakes(_) => ClientTakeKeeps(p, a);
    case ClientMaps(_) =>
    case ServerMaps(_) =>
  }

  // ------------------------------------------------------------------------ runs

  ghost predicate PairRun(trace: seq<Pair>, steps: seq<Step>, client: Oid, server: Oid) {
    && |trace| == |steps| + 1 && trace[0] == Start(client, server)
    && forall i :: 0 <= i < |steps| ==> Enabled(trace[i], steps[i]) && trace[i + 1] == After(trace[i], steps[i])
  }

  /** After every run: ids are distinct, every message that reached a relay came from the one relay that
      relay stands for, and both directions lose, double and reorder nothing. */
  lemma {:induction false} RoutingIsSafe(trace: seq<Pair>, steps: seq<Step>, client: Oid, server: Oid, n: nat)
    requires PairRun(trace, steps, client, server) && n < |trace|
    ensures PairOk(trace[n])
  {
    hide After, Enabled;
    if n > 0 {
      RoutingIsSafe(trace, steps, client, server, n - 1);
      StepKeeps(trace[n - 1], steps[n - 1]);
    }
  }

  /** A server relay stands for the same extid as long as the connection lives. */
  lemma {:induction false} BoundForLife(trace: seq<Pair>, steps: seq<Step>, client: Oid, server: Oid, i: nat, j: nat)
    requires PairRun(trace, steps, client, server) && i <= j < |trace|
    ensures Later(trace[i], trace[j])
    decreases j
  {
    hide After, Enabled, TablesOk, TrafficOk;
    if i < j {
      BoundForLife(trace, steps, client, server, i, j - 1);
      RoutingIsSafe(trace, steps, client, server, j - 1);
      StepKeeps(trace[j - 1], steps[j - 1]);
    }
  }

  lemma {:induction false} SidesStay(trace: seq<Pair>, steps: seq<Step>, client: Oid, server: Oid, n: nat)
    requires PairRun(trace, steps, client, server) && n < |trace|
    ensures trace[n].client.oid == client && trace[n].server.oid == server
  {
    hide After, Enabled, TablesOk, TrafficOk;
    BoundForLife(trace, steps, client, server, 0, n);
  }

  /** What the `Extern` of one side sends is handled by the `Extern` of the other, and what a relay sends never is. */
  lemma ExternToExtern(trace: seq<Pair>, steps: seq<Step>, client: Oid, server: Oid, n: nat)
    requires PairRun(trace, steps, client, server) && n < |trace|
    ensures forall h :: h in trace[n].atServer ==> (h.verdict == ToExtern <==> h.note.from == client)
    ensures forall h :: h in trace[n].atClient ==> (h.verdict == ToExtern <==> h.note.from == server)
  {
    hide PairRun, TablesOk;
    RoutingIsSafe(trace, steps, client, server, n);
    SidesStay(trace, steps, client, server, n);
  }

  /** Each message sent is on the way behind the others, under the sender's own name, and for the other `Extern` if and
      only if the `Extern` sent it. */
  lemma SendsOne(p: Pair, a: Step)
    requires PairOk(p) && Enabled(p, a)
    ensures a.ClientSends? ==>
              var q, n := After(p, a), After(p, a).sentUp[|p.sentUp|];
              && q.sentUp == p.sentUp + [n] && q.up == p.up + [n] && q.server == p.server && q.down == p.down
              && n.from == a.dest && n.com == a.com && n.exported == a.exported
              && (n.extid == EXTID_COM <==> a.dest == p.client.oid)
    ensures a.ServerSends? ==>
              var q, n := After(p, a), After(p, a).sentDown[|p.sentDown|];
              && q.sentDown == p.sentDown + [n] && q.down == p.down + [n] && q.client == p.client && q.up == p.up
              && n.from == a.dest && n.com == a.com && n.exported == a.exported
              && (n.extid == EXTID_COM <==> a.dest == p.server.oid)
  {
    if a.ClientSends? {
      QueuedKeeps(p.client, a.dest, a.delete);
    } else if a.ServerSends? {
      QueuedKeeps(p.server, a.dest, a.delete);
    }
  }

  /** A server relay that said it is deleted gets nothing more, even when its extid is used again. */
  lemma DeletedGetsNothing(trace: seq<Pair>, steps: seq<Step>, client: Oid, server: Oid, i: nat, j: nat, k: nat)
    requires PairRun(trace, steps, client, server) && i < j < |trace|
    requires steps[i].ServerSends? && steps[i].delete && steps[i].dest != server
    requires |trace[i].atServer| <= k < |trace[j].atServer|
    ensures trace[j].atServer[k].verdict != Reached(steps[i].dest)
  {
    SidesStay(trace, steps, client, server, i);
    RetiredGetsNothing(trace, steps, client, server, i + 1, j, steps[i].dest, k);
  }

  lemma {:induction false} RetiredGetsNothing(trace: seq<Pair>, steps: seq<Step>, client: Oid, server: Oid,
                                              i: nat, j: nat, s: Oid, k: nat)
    requires PairRun(trace, steps, client, server) && i <= j < |trace|
    requires s in trace[i].retired && |trace[i].atServer| <= k < |trace[j].atServer|
    ensures trace[j].atServer[k].verdict != Reached(s)
    decreases j
  {
    if i < j {
      hide PairRun;
      RetiredSoFar(trace, steps, client, server, i, j, s);
      var older := trace[j - 1].atServer;
      if k < |older| {
        RetiredGetsNothing(trace, steps, client, server, i, j - 1, s, k);
      }
    }
  }

  /** What one more step adds to the log does not reach a relay that was retired before. */
  lemma RetiredSoFar(trace: seq<Pair>, steps: seq<Step>, client: Oid, server: Oid, i: nat, j: nat, s: Oid)
    requires PairRun(trace, steps, client, server) && i < j < |trace| && s in trace[i].retired
    ensures trace[j - 1].atServer <= trace[j].atServer && |trace[j].atServer| <= |trace[j - 1].atServer| + 1
    ensures |trace[i].atServer| <= |trace[j - 1].atServer|
    ensures |trace[j].atServer| > |trace[j - 1].atServer| ==>
              trace[j].atServer[|trace[j - 1].atServer|].verdict != Reached(s)
  {
    hide After, Enabled, TablesOk, TrafficOk;
    RoutingIsSafe(trace, steps, client, server, j - 1);
    BoundForLife(trace, steps, client, server, i, j - 1);
    var p, a := trace[j - 1], steps[j - 1];
    StepKeeps(p, a);
    ServerLog(p, a);
  }

  lemma ServerLog(p: Pair, a: Step)
    requires PairOk(p) && Enabled(p, a)
    ensures var q := After(p, a);
            && |p.atServer| <= |q.atServer| <= |p.atServer| + 1
            && (|q.atServer| > |p.atServer| ==>
                  forall s :: s in p.retired ==> q.atServer[|p.atServer|].verdict != Reached(s))
  {
    if a.ServerTakes? {
      ServerTakeKeeps(p, a);
    }
  }

  /** The routing of a whole run, in terms of relays alone. */
  lemma RoutedBack(trace: seq<Pair>, steps: seq<Step>, client: Oid, server: Oid, n: nat, h: Handling, g: Handling)
    requires PairRun(trace, steps, client, server) && n < |trace|
    requires h in trace[n].atServer && h.verdict.Reached?
    requires g in trace[n].atClient && g.verdict.Reached? && g.note.from == h.verdict.oid
    ensures g.verdict.oid == h.note.from
  {
    RoutingIsSafe(trace, steps, client, server, n);
    assert ServerDid(h, trace[n].client.oid, trace[n].bound) && ClientDid(g, trace[n].server.oid, trace[n].bound);
  }

  // ------------------------------------------------------------ what is not refused

  /** What the server does with each message: the one at the head is handled, and how depends on who sent it, what
      it is for and which connections there are. */
  lemma ServerHandles(p: Pair, a: Step)
    requires PairOk(p) && a.ServerTakes? && Enabled(p, a)
    ensures var q, n := After(p, a), p.up[0];
            var v := q.atServer[|p.atServer|].verdict;
            var known := exists c :: c in p.server.conns && c.extid == n.extid;
            && q.atServer == p.atServer + [Handling(n, v)] && p.up == [n] + q.up
            && (v == ToExtern <==> n.from == p.client.oid)
            && (v == Ignored <==> n.from != p.client.oid && !known && n.com)
            && (v == Refused <==> n.from != p.client.oid && !known && !n.com && (!n.exported || n.from == OID_LAST))
            && (v.Reached? <==> n.from != p.client.oid && (known || (!n.com && n.exported && n.from != OID_LAST)))
  {
    hide ServerConnOk, Notes, ByExtid;
    var n := p.up[0];
    assert UpOk(n, p.client.oid);
    Verdicts(p.server, n.extid, n.com, n.exported, a.spare);
  }

  lemma ClientHandles(p: Pair, a: Step)
    requires PairOk(p) && a.ClientTakes? && Enabled(p, a)
    ensures var q, n := After(p, a), p.down[0];
            var v := q.atClient[|p.atClient|].verdict;
            var known := exists c :: c in p.client.conns && c.extid == n.extid;
            && q.atClient == p.atClient + [Handling(n, v)] && p.down == [n] + q.down
            && (v == ToExtern <==> n.from == p.server.oid)
            && (v == Ignored <==> n.from != p.server.oid && !known && n.com)
            && (v == Refused <==> n.from != p.server.oid && !known && !n.com)
            && (v.Reached? <==> n.from != p.server.oid && known)
  {
    hide ServerConnOk, Notes, ByExtid;
    var n := p.down[0];
    assert DownOk(n, p.server.oid, p.bound);
    Verdicts(p.client, n.extid, n.com, n.exported, a.spare);
  }

  /** The server closes the connection exactly on a message that would need a new relay, of an
      interface it does not export or from the client's last oid. */
  lemma ServerRefuses(p: Pair, a: Step)
    requires PairOk(p) && a.ServerTakes? && Enabled(p, a)
    ensures !Open(After(p, a).atServer) <==>
            var n := p.up[0];
            && !n.com && (forall c :: c in p.server.conns ==> c.extid != n.extid) && (!n.exported || n.from == OID_LAST)
  {
    var n := p.up[0];
    assert UpOk(n, p.client.oid);
    ByExtidIsIn(p.server.conns, n.extid);
  }

  /** The client closes the connection exactly on a message that is not for COM and not for one of its relays. */
  lemma ClientRefuses(p: Pair, a: Step)
    requires PairOk(p) && a.ClientTakes? && Enabled(p, a)
    ensures !Open(After(p, a).atClient) <==>
            !p.down[0].com && forall c :: c in p.client.conns ==> c.extid != p.down[0].extid
  {
    var n := p.down[0];
    assert DownOk(n, p.server.oid, p.bound);
    ByExtidIsIn(p.client.conns, n.extid);
  }

  /** A side that refused a message neither takes nor sends another for the rest of the run. */
  lemma {:induction false} ClosedForGood(trace: seq<Pair>, steps: seq<Step>, client: Oid, server: Oid, i: nat, j: nat)
    requires PairRun(trace, steps, client, server) && i <= j < |trace|
    ensures !Open(trace[i].atServer) ==>
              trace[j].atServer == trace[i].atServer && trace[j].sentDown == trace[i].sentDown
    ensures !Open(trace[i].atClient) ==>
              trace[j].atClient == trace[i].atClient && trace[j].sentUp == trace[i].sentUp
    decreases j
  {
    if i < j {
      ClosedForGood(trace, steps, client, server, i, j - 1);
      ClosedStaysSo(trace[j - 1], steps[j - 1]);
    }
  }

  lemma ClosedStaysSo(p: Pair, a: Step)
    requires Enabled(p, a)
    ensures !Open(p.atServer) ==> After(p, a).atServer == p.atServer && After(p, a).sentDown == p.sentDown
    ensures !Open(p.atClient) ==> After(p, a).atClient == p.atClient && After(p, a).sentUp == p.sentUp
  {
  }

  lemma ByExtidIsIn(conns: seq<Conn>, extid: Extid)
    ensures ByExtid(conns, extid) < |conns| <==> exists c :: c in conns && c.extid == extid
  {
    var k := ByExtid(conns, extid);
    assert k < |conns| ==> conns[k] in conns;
  }

  /** A reply that is on its way when the client deletes its relay makes the client close the connection. */
  lemma ReplyMeetsDelete()
    ensures exists trace: seq<Pair>, steps: seq<Step> ::
              PairRun(trace, steps, 2, 2) && |trace| == 6 && !Open(trace[5].atClient)
  {
    hide After, Enabled;
    var ask, drop, n, m := ClientSends(3, false, false, true), ClientSends(3, true, true, false),
                           Note(3, 3, false, true), Note(3, 3, true, false);
    var steps := [ask, ServerTakes(3), ServerSends(3, false, false, true), drop, ClientTakes(4)];
    var on, off, relay := Side(2, true, [Conn(3, 3)], {3}), Side(2, true, [], {3}), Side(2, false, [Conn(3, 3)], {3});
    var none, got := Side(2, false, [], {}), [Handling(n, Reached(3))];
    var p0, p1 := Start(2, 2), Pair(on, none, [n], [], [], [], [n], [], map[], {});
    var p2, p3 := Pair(on, relay, [], [], got, [], [n], [], map[3 := 3], {}),
                  Pair(on, relay, [], [n], got, [], [n], [n], map[3 := 3], {});
    var p4 := Pair(off, relay, [m], [n], got, [], [n, m], [n], map[3 := 3], {});
    var p5 := Pair(off, relay, [m], [], got, [Handling(n, Refused)], [n, m], [n], map[3 := 3], {});
    Asks(n);
    Replies(n);
    Races(n, m);
    var trace := [p0, p1, p2, p3, p4, p5];
    assert PairRun(trace, steps, 2, 2);
  }

  lemma Asks(n: Note)
    requires n == Note(3, 3, false, true)
    ensures var p, on, none := Start(2, 2), Side(2, true, [Conn(3, 3)], {3}), Side(2, false, [], {});
            var a, b := ClientSends(3, false, false, true), ServerTakes(3);
            var q := Pair(on, none, [n], [], [], [], [n], [], map[], {});
            && Enabled(p, a) && After(p, a) == q && Enabled(q, b)
            && After(q, b) == Pair(on, Side(2, false, [Conn(3, 3)], {3}), [], [], [Handling(n, Reached(3))], [], [n],
                                   [], map[3 := 3], {})
  {
    assert ByOid([], 3) == 0 && ByOid([Conn(3, 3)], 3) == 0 && ByExtid([], 3) == 0;
  }

  lemma Replies(n: Note)
    requires n == Note(3, 3, false, true)
    ensures var on, relay := Side(2, true, [Conn(3, 3)], {3}), Side(2, false, [Conn(3, 3)], {3});
            var got := [Handling(n, Reached(3))];
            var p, a := Pair(on, relay, [], [], got, [], [n], [], map[3 := 3], {}), ServerSends(3, false, false, true);
            Enabled(p, a) && After(p, a) == Pair(on, relay, [], [n], got, [], [n], [n], map[3 := 3], {})
  {
    assert ByOid([Conn(3, 3)], 3) == 0;
  }

  lemma Races(n: Note, m: Note)
    requires n == Note(3, 3, false, true) && m == Note(3, 3, true, false)
    ensures var on, off := Side(2, true, [Conn(3, 3)], {3}), Side(2, true, [], {3});
            var relay := Side(2, false, [Conn(3, 3)], {3});
            var got, a, b := [Handling(n, Reached(3))], ClientSends(3, true, true, false), ClientTakes(4);
            var p := Pair(on, relay, [], [n], got, [], [n], [n], map[3 := 3], {});
            var q := Pair(off, relay, [m], [n], got, [], [n, m], [n], map[3 := 3], {});
            && Enabled(p, a) && After(p, a) == q && Enabled(q, b)
            && After(q, b) == Pair(off, relay, [m], [], got, [Handling(n, Refused)], [n, m], [n], map[3 := 3], {})
  {
    assert ByOid([Conn(3, 3)], 3) == 0 && Removed([Conn(3, 3)], 0) == [] && ByExtid([], 3) == 0;
  }
}
