/** The host as the object it is: fields updated in place by the handlers, each handler doing to the
    state what the protocol says. */
module RuntimeHostObject {
  import opened Basics
  import opened RuntimeHost

  class PluginRuntimeHost {
    const limit: nat

    var child: Option<nat>
    var readyPromise: Option<nat>
    var resolver: Option<nat>
    var stopping: bool
    var ledger: Ledger  // the pending map, with the timers and promises it refers to

    // the callbacks made, and the ready promises with the calls that await them
    var exits: seq<bool>
    var spawned: nat
    var readyOutcomes: map<nat, ReadyOutcome>
    var waiting: map<nat, nat>
    var refused: set<nat>
    var owners: map<nat, nat>

    function LinkView(): Link
      reads this
    {
      Link(child, readyPromise, resolver, stopping, exits, spawned, readyOutcomes, waiting, refused, owners)
    }

    function View(): Host
      reads this
    {
      Host(LinkView(), ledger)
    }

    constructor (timeoutMs: int)
      ensures limit == RequestLimit(timeoutMs) && View() == IDLE
    {
      limit := RequestLimit(timeoutMs);
      child, readyPromise, resolver, stopping := None, None, None, false;
      exits, spawned, readyOutcomes, waiting, refused, owners := [], 0, map[], map[], {}, map[];
      ledger := Ledger(0, {}, map[], map[], map[], map[]);
    }

    method StartHost(available: bool)
      modifies this
      ensures LinkView() == StartChild(old(LinkView()), available)
      ensures ledger == old(ledger)
    {
      if child.Some? && available && readyPromise.Some? {
        return;
      }
      stopping := false;
      readyPromise, resolver := Some(spawned), Some(spawned);
      child := Some(spawned);
      spawned := spawned + 1;
    }

    method InvokeAction(call: nat, available: bool)
      modifies this
      ensures LinkView() == Await(old(LinkView()), call, available)
      ensures ledger == old(ledger)
    {
      StartHost(available);
      if call !in waiting && readyPromise.Some? {
        waiting := waiting[call := readyPromise.value];
      }
    }

    method ResumeInvoke(call: nat, id: nat, available: bool)
      modifies this
      ensures View() == Continue(old(View()), call, id, available, limit)
    {
      if call !in waiting || waiting[call] !in readyOutcomes || id in ledger.issued {
        return;
      }
      var ready := readyOutcomes[waiting[call]];
      waiting := waiting - {call};
      if ready.NeverReady? || child.None? || !available {
        refused := refused + {call};
        return;
      }
      owners := owners[id := child.value];
      var due := ledger.now + limit;
      ledger := ledger.(timers := ledger.timers[id := due], pending := ledger.pending + {id},
                        issued := ledger.issued[id := ledger.now]);
    }

    method HandleReadyMessage(pid: nat)
      modifies this
      ensures LinkView() == HandleReady(old(LinkView()), pid)
      ensures ledger == old(ledger)
    {
      if resolver.Some? {
        readyOutcomes := readyOutcomes[resolver.value := Ready(pid)];
      }
      resolver := None;
    }

    method HandleResponseMessage(id: nat, reply: Reply)
      modifies this
      ensures LinkView() == old(LinkView())
      ensures ledger == HandleResponse(old(ledger), id, reply)
    {
      if id !in ledger.pending {
        return;
      }
      ledger := Forget(ledger, id);
      if reply.Success? {
        ledger := Settle(ledger, id, Resolved(reply.result));
      } else {
        ledger := Settle(ledger, id, Rejected(RemoteError(reply.name, reply.message)));
      }
    }

    method HandleExit()
      modifies this
      ensures LinkView() == ChildGone(old(LinkView()))
      ensures ledger == RejectPending(old(ledger))
    {
      hide RejectAll;
      var unexpected := !stopping;
      if resolver.Some? {
        readyOutcomes := readyOutcomes[resolver.value := NeverReady];
      }
      resolver := None;
      RejectEach(ledger.pending, Exited, map id | id in ledger.pending :: ledger.now);
      child, readyPromise, stopping := None, None, false;
      exits := exits + [unexpected];
    }

    /** Disarming the timers of the given requests and rejecting their promises, one after another. */
    method RejectEach(ids: set<nat>, reason: Reason, at: map<nat, nat>)
      requires ids <= at.Keys
      modifies this`ledger
      ensures ledger == RejectAll(old(ledger), ids, reason, at)
    {
      hide Rejections, Moments;
      var todo, timers, outcomes, settledAt := ids, ledger.timers, ledger.outcomes, ledger.settledAt;
      NothingRejected(outcomes, settledAt, reason, at);
      assert ids - todo - outcomes.Keys == {} && timers - {} == timers;
      while todo != {}
        invariant todo <= ids && ledger == old(ledger)
        invariant timers == ledger.timers - (ids - todo)
        invariant outcomes == ledger.outcomes + Rejections(ids - todo - ledger.outcomes.Keys, reason)
        invariant settledAt == ledger.settledAt + Moments(ids - todo - ledger.outcomes.Keys, at)
        decreases todo
      {
        var id :| id in todo;
        RejectOneMore(ledger.outcomes, ledger.settledAt, ids - todo, id, reason, at);
        assert ids - (todo - {id}) == (ids - todo) + {id};
        timers := timers - {id};
        if id !in outcomes {
          outcomes, settledAt := outcomes[id := Rejected(reason)], settledAt[id := at[id]];
        }
        todo := todo - {id};
      }
      assert ids - todo == ids;
      assert outcomes == ledger.outcomes + Rejections(ids - ledger.outcomes.Keys, reason);
      assert settledAt == ledger.settledAt + Moments(ids - ledger.outcomes.Keys, at);
      ledger := Ledger(ledger.now, ledger.pending - ids, timers, ledger.issued, outcomes, settledAt);
    }

    method HandleSendFailure(id: nat)
      modifies this
      ensures LinkView() == old(LinkView())
      ensures ledger == HandleSendError(old(ledger), id)
    {
      if id !in ledger.issued {
        return;
      }
      if id in ledger.pending {
        ledger := Forget(ledger, id);
      }
      ledger := Settle(ledger, id, Rejected(SendFailed));
    }

    method StopHost(gone: bool)
      modifies this
      ensures LinkView() == StopChild(old(LinkView()), gone)
      ensures ledger == old(ledger)
    {
      if child.None? {
        return;
      }
      stopping := true;
      if gone {
        child, readyPromise, stopping := None, None, false;
      }
    }

    /** The event loop runs the timers that come due. */
    method AdvanceClock(ms: nat)
      modifies this
      ensures LinkView() == old(LinkView())
      ensures ledger == Elapse(old(ledger), ms)
    {
      hide RejectAll, Due;
      var later := ledger.now + ms;
      RejectEach(Due(ledger, later), TimedOut, ledger.timers);
      ledger := ledger.(now := later);
    }
  }

  lemma {:induction false} NothingRejected(outcomes: map<nat, Outcome>, settledAt: map<nat, nat>, reason: Reason, at: map<nat, nat>)
    ensures outcomes + Rejections({}, reason) == outcomes && settledAt + Moments({}, at) == settledAt
  {
  }

  lemma {:induction false} RejectOneMore(outcomes: map<nat, Outcome>, settledAt: map<nat, nat>, done: set<nat>, id: nat,
                      reason: Reason, at: map<nat, nat>)
    requires done + {id} <= at.Keys && id !in done
    ensures var open, wider := done - outcomes.Keys, done + {id} - outcomes.Keys;
            var rejected := outcomes + Rejections(open, reason);
            && (id in rejected ==> outcomes + Rejections(wider, reason) == rejected
                                   && settledAt + Moments(wider, at) == settledAt + Moments(open, at))
            && (id !in rejected ==> outcomes + Rejections(wider, reason) == rejected[id := Rejected(reason)]
                                    && settledAt + Moments(wider, at) == (settledAt + Moments(open, at))[id := at[id]])
  {
    var open, wider := done - outcomes.Keys, done + {id} - outcomes.Keys;
    if id in outcomes {
      assert wider == open;
    } else {
      assert wider == open + {id};
    }
  }
}
