/**
 * The double-buffered message queues of main.c: what is sent during a round is
 * handled in the next, in the order it was sent.
 */
module MessageLoops {
  import opened Links
  import opened Worlds
  import opened Cascades
  import opened Settling
  import opened Notices
  import opened Cleanups
  import opened ObjectMaps

  datatype Msg = Msg(iface: nat, src: Oid, dest: Oid, imethod: nat, body: seq<bv8>)

  /** What became of a message: given to the object at an address, after which there was an error or not and that
      was left unhandled or not; or dropped because its destination is gone. */
  datatype Delivery = Delivered(msg: Msg, o: nat, raised: bool, unhandled: bool) | Skipped(msg: Msg)

  predicate Unhandled(d: Delivery) {
    d.Delivered? && d.unhandled
  }

  /** The last delivery since `before` ended in an error that nobody handled. */
  predicate EndsBroken(before: seq<Delivery>, after: seq<Delivery>) {
    |before| < |after| && Unhandled(after[|after| - 1])
  }

  /** One round: the messages of the input in order, all of them or up to the first unhandled error. */
  ghost predicate Round(before: seq<Delivery>, after: seq<Delivery>, input: seq<Msg>) {
    && before <= after && |after| - |before| <= |input|
    && Messages(after[|before|..]) == input[..|after| - |before|]
    && (forall i :: |before| <= i < |after| - 1 ==> !Unhandled(after[i]))
    && (!EndsBroken(before, after) ==> |after| - |before| == |input|)
  }

  function Messages(s: seq<Delivery>): (r: seq<Msg>)
    ensures |r| == |s|
  {
    seq(|s|, i requires 0 <= i < |s| => s[i].msg)
  }

  class MessageLoop {
    const omap: ObjectMap
    var inputQueue: seq<Msg>
    var outputQueue: seq<Msg>
    var failed: bool
    var quitting: bool

    /** An error that no object handled ended a round before its end, and a user asked to quit. */
    ghost var broke: bool
    ghost var asked: bool

    ghost var queued: seq<Msg>
    ghost var processed: seq<Delivery>
    ghost var freed: seq<Msg>

    constructor (omap: ObjectMap)
      requires omap.Steady() && FewCallers(omap.links)
      ensures Ready() && this.omap == omap
      ensures inputQueue == outputQueue == queued == freed == [] && processed == [] && !failed && !quitting
      ensures !broke && !asked
    {
      this.omap := omap;
      inputQueue, outputQueue, failed, quitting := [], [], false, false;
      queued, processed, freed, broke, asked := [], [], [], false, false;
    }

    /** Every message ever queued is freed or still in one of the queues, in the order of sending. Unless
        an unhandled error ended a round, those freed are those handled, each dispatched or skipped. */
    ghost predicate Ready()
      reads this, omap
    {
      && omap.Steady() && FewCallers(omap.links)
      && queued == freed + inputQueue + outputQueue
      && (broke || Messages(processed) == freed)
    }

    method QueueMessage(msg: Msg)
      modifies this`outputQueue, this`queued
      ensures outputQueue == old(outputQueue) + [msg] && queued == old(queued) + [msg]
    {
      outputQueue := outputQueue + [msg];
      queued := queued + [msg];
    }

    /** A user's method of the object at `o`: any calls of the framework, in any order. */
    method Dispatch(o: nat, msg: Msg) returns (ghost sent: seq<Msg>)
      requires omap.Steady() && FewCallers(omap.links)
      modifies this`outputQueue, this`queued, this`failed, this`quitting, this`asked, this`processed
      modifies omap`links, omap`born, omap`destroyed, omap`notified, omap`marks
      ensures omap.Steady() && FewCallers(omap.links) && omap.created == old(omap.created)
      ensures outputQueue == old(outputQueue) + sent && queued == old(queued) + sent
      ensures (old(asked) ==> asked) && (old(quitting) ==> quitting)
      ensures quitting && !old(quitting) ==> asked
      ensures processed == old(processed) + [Delivered(msg, o, failed, false)]
    {
      hide FewCallers, Next, Valid, Quiescent, Ordered;
      sent := [];
      var calls: int := *;
      while calls > 0
        invariant omap.Steady() && FewCallers(omap.links) && omap.created == old(omap.created)
        invariant processed == old(processed)
        invariant outputQueue == old(outputQueue) + sent && queued == old(queued) + sent
        invariant (old(asked) ==> asked) && (old(quitting) ==> quitting)
        invariant quitting && !old(quitting) ==> asked
      {
        calls := calls - 1;
        var call: int := *;
        if call == 0 {
          var reply: Msg := *;
          QueueMessage(reply);
          sent := sent + [reply];
        } else if call == 1 {
          var src: Oid, dest: Oid := *, *;
          omap.DestroyProxy(src, dest);
        } else if call == 2 {
          UserProxy();
        } else if call == 3 {
          var other: nat := *;
          if other != 0 {
            UserMark(other);
          }
        } else if call == 4 {
          quitting := true;
          asked := true;
        } else {
          failed := true;
        }
      }
      processed := processed + [Delivered(msg, o, failed, false)];
    }

    /** Timers and signals, which are not part of this model: they queue any messages. */
    method OutsideEvents() returns (ghost sent: seq<Msg>)
      modifies this`outputQueue, this`queued
      ensures outputQueue == old(outputQueue) + sent && queued == old(queued) + sent
    {
      sent := [];
      var events: int := *;
      while events > 0
        invariant outputQueue == old(outputQueue) + sent && queued == old(queued) + sent
      {
        events := events - 1;
        var msg: Msg := *;
        QueueMessage(msg);
        sent := sent + [msg];
      }
    }

    method UserProxy()
      requires omap.Steady() && FewCallers(omap.links)
      modifies omap`links
      ensures omap.Steady() && FewCallers(omap.links)
    {
      var iface: nat, src: Oid, dest: Oid := *, *, *;
      ghost var w := omap.State();
      ValidIsOrdered(w);
      if (src == OID_BROADCAST || HasObject(omap.links, src)) && dest != OID_BROADCAST && dest != src
         && |Callers(omap.links, dest)| < MAX_CALLERS {
        if src != OID_BROADCAST {
          HasObjectIsLive(w, src);
        }
        omap.CreateProxyTo(iface, src, dest);
      }
    }

    method UserMark(o: nat)
      requires omap.Steady() && FewCallers(omap.links) && o != 0
      modifies omap`links, omap`marks
      ensures omap.Steady() && FewCallers(omap.links)
    {
      ghost var w := omap.State();
      omap.MarkUnused(o);
      FewCallersMarked(w.links, omap.links);
      MarkKeeps(w, omap.State());
    }

    /** One turn of the delivery loop. The message is dispatched exactly when its destination has a link, to the
        object at the head of the links to that destination. An error that is there afterwards is offered to
        that object and to its creators in turn, and is left unhandled exactly when none of them accepts it. */
    method Deliver(msg: Msg) returns (unhandled: bool, ghost sent: seq<Msg>, ghost offers: nat)
      requires omap.Steady() && FewCallers(omap.links)
      modifies this`outputQueue, this`queued, this`failed, this`processed, this`quitting, this`asked, omap
      ensures omap.Steady() && FewCallers(omap.links)
      ensures outputQueue == old(outputQueue) + sent && queued == old(queued) + sent
      ensures |processed| == |old(processed)| + 1 && processed[..|old(processed)|] == old(processed)
      ensures processed[|old(processed)|].msg == msg
      ensures processed[|old(processed)|].Delivered? <==> old(Block(omap.links, msg.dest)) != []
      ensures old(msg.dest in Live(omap.links)) ==>
                processed[|old(processed)|].o == old(omap.links[FirstOf(omap.links, msg.dest)]).o
      ensures old(Block(omap.links, msg.dest) != [] && msg.dest !in Live(omap.links)) ==>
                var o := processed[|old(processed)|].o; o != 0 && forall l :: l in old(omap.links) ==> l.o != o
      ensures omap.created == old(omap.created) +
                if old(Block(omap.links, msg.dest) != [] && msg.dest !in Live(omap.links)) then [msg.dest] else []
      ensures processed[|old(processed)|].Skipped? ==>
                && sent == [] && omap.State() == old(omap.State()) && omap.offered == old(omap.offered)
                && failed == old(failed) && quitting == old(quitting)
      ensures unhandled <==> Unhandled(processed[|old(processed)|])
      ensures processed[|old(processed)|].Delivered? ==>
                var chain := CreatorChain(omap.State(), msg.dest);
                && (failed <==> unhandled)
                && if processed[|old(processed)|].raised then
                     && Answered(omap.State(), chain, msg.dest, omap.accepts, !unhandled, offers)
                     && omap.offered == old(omap.offered) + Asked(omap.State(), chain, msg.dest, offers)
                   else
                     !unhandled && omap.offered == old(omap.offered)
      ensures (old(asked) ==> asked) && (old(quitting) ==> quitting)
      ensures quitting && !old(quitting) ==> asked
    {
      hide FewCallers, Valid, Quiescent, Block, Answered, Asked, CreatorChain;
      unhandled, sent, offers := false, [], 0;
      ghost var w := omap.State();
      LiveHasFirst(w, msg.dest);
      var ml := omap.FindOrCreateDestination(msg.dest);
      if ml == |omap.links| {
        processed := processed + [Skipped(msg)];
        return;
      }
      sent := Dispatch(omap.links[ml].o, msg);
      if failed {
        var handled;
        handled, offers := omap.ForwardError(msg.dest, msg.dest);
        if handled {
          failed := false;
        } else {
          unhandled := true;
          processed := old(processed) + [processed[|old(processed)|].(unhandled := true)];
        }
      }
    }

    /** `casycom_do_message_queues`: delivers the input queue, frees it, and makes the output queue the input
        queue of the next round. A round ends early exactly at an error that no object of the creator chain
        handles, and that quits; a user's request to quit lets it go on. */
    method DoMessageQueues() returns (ghost sent: seq<Msg>)
      requires Ready()
      modifies this, omap
      ensures Ready()
      ensures inputQueue == old(outputQueue) + sent && outputQueue == []
      ensures queued == old(queued) + sent && freed == old(freed) + old(inputQueue)
      ensures Round(old(processed), processed, old(inputQueue))
      ensures broke <==> old(broke) || EndsBroken(old(processed), processed)
      ensures EndsBroken(old(processed), processed) ==> quitting && failed
      ensures (old(asked) ==> asked) && (old(quitting) ==> quitting)
      ensures quitting && !old(quitting) ==> asked || EndsBroken(old(processed), processed)
    {
      hide FewCallers, Messages;
      sent := DeliverAll();
      ghost var more := processed[|old(processed)|..];
      MessagesConcat(old(processed), more);
      assert processed == old(processed) + more;
      if |more| == |inputQueue| {
        assert inputQueue[..|more|] == inputQueue;
      }
      FreeQueue(inputQueue);
      inputQueue := [];
      inputQueue, outputQueue := outputQueue, inputQueue;
      assert queued == freed + (inputQueue + outputQueue);
    }

    method DeliverAll() returns (ghost sent: seq<Msg>)
      requires Ready()
      modifies this`outputQueue, this`queued, this`failed, this`processed, this`quitting, this`asked, this`broke, omap
      ensures omap.Steady() && FewCallers(omap.links)
      ensures outputQueue == old(outputQueue) + sent && queued == old(queued) + sent
      ensures Round(old(processed), processed, inputQueue)
      ensures broke <==> old(broke) || EndsBroken(old(processed), processed)
      ensures EndsBroken(old(processed), processed) ==> quitting && failed
      ensures (old(asked) ==> asked) && (old(quitting) ==> quitting)
      ensures quitting && !old(quitting) ==> asked || EndsBroken(old(processed), processed)
    {
      hide FewCallers, Messages, Block, FirstOf, Live, Valid, Quiescent, Answered, Asked, CreatorChain;
      sent := [];
      ghost var done := processed;
      var m := 0;
      MessagesOfNone(processed);
      while m < |inputQueue|
        invariant m <= |inputQueue|
        invariant omap.Steady() && FewCallers(omap.links)
        invariant outputQueue == old(outputQueue) + sent && queued == old(queued) + sent
        invariant |processed| == |done| + m && processed[..|done|] == done
        invariant Messages(processed[|done|..]) == inputQueue[..m]
        invariant forall i :: |done| <= i < |processed| ==> !Unhandled(processed[i])
        invariant broke == old(broke) && (old(asked) ==> asked)
        invariant (old(quitting) ==> quitting)
        invariant quitting && !old(quitting) ==> asked
      {
        ghost var before := processed;
        var unhandled;
        ghost var more, offers;
        unhandled, more, offers := Deliver(inputQueue[m]);
        sent := sent + more;
        m := m + 1;
        DeliveredOneMore(done, before, processed, inputQueue[..m]);
        if unhandled {
          quitting := true;
          broke := true;
          break;
        }
      }
    }

    /** Frees the messages of a queue. */
    method FreeQueue(queue: seq<Msg>)
      modifies this`freed
      ensures freed == old(freed) + queue
    {
      for m := 0 to |queue|
        invariant freed == old(freed) + queue[..m]
      {
        freed := freed + [queue[m]];
        assert queue[..m + 1] == queue[..m] + [queue[m]];
      }
      assert queue[..|queue|] == queue;
    }

    /** `casycom_loop_once`. */
    method LoopOnce() returns (more: bool, ghost sent: seq<Msg>, ghost at: seq<Link>, ghost log: seq<Oid>)
      requires Ready()
      modifies this, omap
      ensures omap.links == Settle(at, Elements(log)) && Elements(log) == Under(EdgesOf(at), Flagged(at) + omap.marks)
      ensures Ready() && more == (inputQueue != [] || outputQueue != [])
      ensures freed == old(freed) + old(inputQueue) && inputQueue == old(outputQueue) + sent
      ensures Round(old(processed), processed, old(inputQueue))
      ensures broke <==> old(broke) || EndsBroken(old(processed), processed)
      ensures forall l :: l in omap.links ==> !l.unused
    {
      hide FewCallers, Messages, Settle, Under, EdgesOf, Elements, Flagged, Round, EndsBroken;
      ghost var outside := OutsideEvents();
      Unbroken(queued, freed, inputQueue, old(outputQueue), outside);
      sent := DoMessageQueues();
      sent := outside + sent;
      at := omap.links;
      log := omap.DestroyUnusedObjects();
      more := |inputQueue| + |outputQueue| > 0;
    }

    /** `casycom_idle`: signals, the marked objects, timers, and the end when nothing is left to do. */
    method Idle(haveTimers: bool) returns (ghost log: seq<Oid>)
      requires Ready()
      modifies this, omap
      ensures omap.destroyed == old(omap.destroyed) + log && omap.links == Settle(old(omap.links), Elements(log))
      ensures Elements(log) == Under(old(EdgesOf(omap.links)), old(Flagged(omap.links)) + omap.marks)
      ensures Ready() && freed == old(freed) && inputQueue == old(inputQueue) && processed == old(processed)
      ensures old(queued) <= queued && old(outputQueue) <= outputQueue
      ensures broke == old(broke) && asked == old(asked) && failed == old(failed)
      ensures quitting <==> old(quitting) || (!haveTimers && inputQueue == [] && outputQueue == [])
      ensures quitting && !old(quitting) ==> queued == freed
      ensures forall l :: l in omap.links ==> !l.unused
    {
      hide FewCallers, Messages, Settle, Under, EdgesOf, Elements, Flagged, Valid, Quiescent;
      ghost var signals := OutsideEvents();
      Unbroken(queued, freed, inputQueue, old(outputQueue), signals);
      log := omap.DestroyUnusedObjects();
      ghost var base := outputQueue;
      ghost var timers := OutsideEvents();
      Unbroken(queued, freed, inputQueue, base, timers);
      if !haveTimers && |inputQueue| + |outputQueue| == 0 {
        quitting := true;
      }
    }

    /** `casycom_main`, for as many rounds as the process has time for. What was queued before is freed after two
        rounds. Every message freed was handled, in order, unless an unhandled error broke a round; and if
        neither that nor a user ended the loop, nothing that was ever queued is left. No message at all is
        delivered after an unhandled error, and each round ends with no object marked. The loop goes on exactly
        until the round after which it is quitting: `quits` says that of each round. */
    method EventLoop(rounds: nat) returns (count: nat, ghost quits: seq<bool>)
      requires Ready()
      modifies this, omap
      ensures Ready() && old(queued) <= queued && old(freed) <= freed
      ensures count == |quits| <= rounds && (count < rounds ==> count > 0 && quitting)
      ensures forall i :: 0 <= i < count ==> (quits[i] <==> i == count - 1 && quitting)
      ensures count >= 2 ==> old(queued) <= freed
      ensures !broke ==> Messages(processed) == freed
      ensures quitting && !broke && !asked ==> Messages(processed) == freed == queued
      ensures old(processed) <= processed
      ensures forall i :: |old(processed)| <= i < |processed| - 1 ==> !Unhandled(processed[i])
      ensures broke <==> old(broke) || EndsBroken(old(processed), processed)
      ensures EndsBroken(old(processed), processed) ==> quitting
      ensures count > 0 ==> forall l :: l in omap.links ==> !l.unused
    {
      hide FewCallers, Messages, Settle, Under, EdgesOf, Elements, Flagged, Valid, Quiescent;
      ghost var base, first, second := freed, inputQueue, outputQueue;
      count, quits := 0, [];
      quitting := false;
      while count < rounds && !quitting
        invariant Ready() && old(queued) <= queued && base <= freed && count == |quits| <= rounds
        invariant count == 0 ==> !quitting
        invariant forall i :: 0 <= i < count ==> (quits[i] <==> i == count - 1 && quitting)
        invariant count == 0 ==> freed == base && inputQueue == first && outputQueue == second
        invariant count == 1 ==> freed == base + first && second <= inputQueue
        invariant count >= 2 ==> base + first + second <= freed
        invariant quitting && !broke && !asked ==> queued == freed
        invariant old(processed) <= processed
        invariant forall i :: |old(processed)| <= i < |processed| - 1 ==> !Unhandled(processed[i])
        invariant broke <==> old(broke) || EndsBroken(old(processed), processed)
        invariant EndsBroken(old(processed), processed) ==> quitting
        invariant count > 0 ==> forall l :: l in omap.links ==> !l.unused
      {
        ghost var before, handled, done := freed, inputQueue, processed;
        ghost var sent := DoMessageQueues();
        RoundAfter(old(processed), done, processed, handled);
        var haveTimers: bool := *;
        ghost var log := Idle(haveTimers);
        quits := quits + [quitting];
        Extends(before, handled, base + first + second);
        if count == 1 {
          TwoRounds(base, first, second, handled);
        }
        count := count + 1;
      }
    }

    /** `casycom_reset`: every object is destroyed once, every message still queued is freed once. */
    method Reset() returns (ghost log: seq<Oid>)
      requires Ready()
      modifies this, omap
      ensures omap.links == [] && inputQueue == outputQueue == [] && multiset(freed) == multiset(queued)
      ensures queued == old(queued) && Distinct(log) && Elements(log) == old(Live(omap.links))
      ensures omap.destroyed == old(omap.destroyed) + log
    {
      hide FewCallers, Messages, Valid, Quiescent;
      log := omap.Reset();
      FreeQueue(outputQueue);
      outputQueue := [];
      FreeQueue(inputQueue);
      inputQueue := [];
    }
  }

  lemma Unbroken(queued: seq<Msg>, freed: seq<Msg>, input: seq<Msg>, output: seq<Msg>, more: seq<Msg>)
    ensures freed + input + output + more == freed + input + (output + more)
  {
  }

  lemma Extends(a: seq<Msg>, b: seq<Msg>, whole: seq<Msg>)
    ensures a <= a + b && (whole <= a ==> whole <= a + b)
  {
  }

  /** Rounds without an unhandled error, and one more. */
  lemma RoundAfter(start: seq<Delivery>, before: seq<Delivery>, after: seq<Delivery>, input: seq<Msg>)
    requires start <= before && Round(before, after, input) && !EndsBroken(start, before)
    requires forall i :: |start| <= i < |before| - 1 ==> !Unhandled(before[i])
    ensures start <= after && (EndsBroken(start, after) <==> EndsBroken(before, after))
    ensures forall i :: |start| <= i < |after| - 1 ==> !Unhandled(after[i])
  {
  }

  lemma TwoRounds(base: seq<Msg>, first: seq<Msg>, second: seq<Msg>, handled: seq<Msg>)
    requires second <= handled
    ensures base + first + second <= base + first + handled
  {
  }

  lemma LiveHasFirst(w: World, d: Oid)
    requires Valid(w)
    ensures d in Live(w.links) ==> FirstOf(w.links, d) < |w.links| && Block(w.links, d) != []
  {
    if d in Live(w.links) {
      CarrierLeads(w.links, d);
    }
  }

  lemma MessagesOfNone(s: seq<Delivery>)
    ensures Messages(s[|s|..]) == []
  {
  }

  lemma MessagesConcat(a: seq<Delivery>, b: seq<Delivery>)
    ensures Messages(a + b) == Messages(a) + Messages(b)
  {
  }

  lemma DeliveredOneMore(done: seq<Delivery>, before: seq<Delivery>, after: seq<Delivery>, msgs: seq<Msg>)
    requires |done| <= |before| && before[..|done|] == done && msgs != []
    requires |after| == |before| + 1 && after[..|before|] == before
    requires Messages(before[|done|..]) == msgs[..|msgs| - 1] && after[|before|].msg == msgs[|msgs| - 1]
    ensures after[..|done|] == done && Messages(after[|done|..]) == msgs
  {
    assert after[|done|..] == before[|done|..] + [after[|before|]];
    MessagesConcat(before[|done|..], [after[|before|]]);
  }
}
