/** The request/response protocol between the platform and a plugin runtime process: pending
    requests, their timers, the ready handshake, exits, send failures and stops. */
module RuntimeHost {
  import opened Basics

  datatype Reason = TimedOut | SendFailed | RemoteError(name: string, message: string) | Exited

  datatype Outcome = Resolved(result: string) | Rejected(reason: Reason)

  datatype Reply = Success(result: string) | Failure(name: string, message: string)

  datatype ReadyOutcome = Ready(pid: nat) | NeverReady

  /** The requests: the pending map, and what the event loop holds for it - the clock, the armed
      timers and the promises handed out. Requests are numbered. */
  datatype Ledger = Ledger(
    now: nat, pending: set<nat>, timers: map<nat, nat>,
    issued: map<nat, nat>, outcomes: map<nat, Outcome>, settledAt: map<nat, nat>)

  /** The process side: the child, the ready promise and its resolver, and the calls awaiting it.
      Children and their ready promises are numbered alike; `owners` tells which child each request
      was sent to. */
  datatype Link = Link(
    child: Option<nat>, readyPromise: Option<nat>, resolver: Option<nat>, stopping: bool, exits: seq<bool>,
    spawned: nat, readyOutcomes: map<nat, ReadyOutcome>, waiting: map<nat, nat>, refused: set<nat>, owners: map<nat, nat>)

  datatype Host = Host(link: Link, ledger: Ledger)

  datatype Event =
    | Start(available: bool)
    | Invoke(call: nat, available: bool)
    | Resume(call: nat, id: nat, available: bool)
    | ReadyMessage(pid: nat)
    | Response(id: nat, reply: Reply)
    | Violation
    | Exit(of: nat)
    | SendError(id: nat)
    | Stop(gone: bool)
    | Advance(ms: nat)

  /** How long a request may stay unanswered. */
  function RequestLimit(timeoutMs: int): (limit: nat)
    ensures limit >= 1 && limit >= timeoutMs + 1000 && limit in {1, timeoutMs + 1000}
  {
    if timeoutMs + 1000 < 1 then 1 else timeoutMs + 1000
  }

  const IDLE := Host(Link(None, None, None, false, [], 0, map[], map[], {}, map[]), Ledger(0, {}, map[], map[], map[], map[]))

  // ----- requests -----------------------------------------------------------

  function Issue(l: Ledger, id: nat, limit: nat): Ledger {
    l.(pending := l.pending + {id}, timers := l.timers[id := l.now + limit], issued := l.issued[id := l.now])
  }

  /** Dropping a request from the pending map and disarming its timer. */
  function Forget(l: Ledger, id: nat): Ledger {
    l.(pending := l.pending - {id}, timers := l.timers - {id})
  }

  /** Settling a promise: the first outcome stays. */
  function Settle(l: Ledger, id: nat, outcome: Outcome): Ledger {
    if id in l.outcomes then l
    else l.(outcomes := l.outcomes[id := outcome], settledAt := l.settledAt[id := l.now])
  }

  function FromReply(reply: Reply): Outcome {
    match reply
    case Success(result) => Resolved(result)
    case Failure(name, message) => Rejected(RemoteError(name, message))
  }

  function HandleResponse(l: Ledger, id: nat, reply: Reply): Ledger {
    if id !in l.pending then l else Settle(Forget(l, id), id, FromReply(reply))
  }

  /** The send callback rejects the promise whether or not the request is still pending. */
  function HandleSendError(l: Ledger, id: nat): Ledger {
    if id !in l.issued then l
    else Settle(if id in l.pending then Forget(l, id) else l, id, Rejected(SendFailed))
  }

  /** Rejecting pending requests, each at its own moment. */
  function RejectAll(l: Ledger, ids: set<nat>, reason: Reason, at: map<nat, nat>): Ledger
    requires ids <= at.Keys
  {
    var open := ids - l.outcomes.Keys;
    Ledger(l.now, l.pending - ids, l.timers - ids, l.issued,
           l.outcomes + Rejections(open, reason), l.settledAt + Moments(open, at))
  }

  function Rejections(ids: set<nat>, reason: Reason): map<nat, Outcome> {
    map id | id in ids :: Rejected(reason)
  }

  function Moments(ids: set<nat>, at: map<nat, nat>): map<nat, nat>
    requires ids <= at.Keys
  {
    map id | id in ids :: at[id]
  }

  function RejectPending(l: Ledger): Ledger {
    RejectAll(l, l.pending, Exited, map id | id in l.pending :: l.now)
  }

  function Due(l: Ledger, until: nat): (due: set<nat>)
    ensures due <= l.timers.Keys
  {
    set id | id in l.timers && l.timers[id] <= until
  }

  /** Time passes and every timer that comes due fires when it does. */
  function Elapse(l: Ledger, ms: nat): Ledger {
    RejectAll(l, Due(l, l.now + ms), TimedOut, l.timers).(now := l.now + ms)
  }

  // ----- process and handshake ----------------------------------------------

  function Spawn(k: Link): Link {
    k.(child := Some(k.spawned), stopping := false,
       readyPromise := Some(k.spawned), resolver := Some(k.spawned), spawned := k.spawned + 1)
  }

  function StartChild(k: Link, available: bool): Link {
    if k.child.Some? && available && k.readyPromise.Some? then k else Spawn(k)
  }

  /** `invoke` starts the child if need be and then awaits the ready promise. */
  function Await(k: Link, call: nat, available: bool): Link {
    var started := StartChild(k, available);
    if call in k.waiting || started.readyPromise.None? then started
    else started.(waiting := k.waiting[call := started.readyPromise.value])
  }

  predicate CanResume(k: Link, call: nat) {
    call in k.waiting && k.waiting[call] in k.readyOutcomes
  }

  /** A resumed call issues its request unless the child never became ready or is gone. */
  predicate Admitted(k: Link, call: nat, available: bool)
    requires CanResume(k, call)
  {
    k.readyOutcomes[k.waiting[call]].Ready? && k.child.Some? && available
  }

  function HandleReady(k: Link, pid: nat): Link {
    match k.resolver
    case Some(p) => k.(readyOutcomes := k.readyOutcomes[p := Ready(pid)], resolver := None)
    case None => k
  }

  /** The exit handler does not look at which child exited. */
  function ChildGone(k: Link): Link {
    k.(readyOutcomes := if k.resolver.Some? then k.readyOutcomes[k.resolver.value := NeverReady] else k.readyOutcomes,
       resolver := None, child := None, readyPromise := None, stopping := false, exits := k.exits + [!k.stopping])
  }

  function StopChild(k: Link, gone: bool): Link {
    if k.child.None? then k
    else if gone then k.(child := None, readyPromise := None, stopping := false)
    else k.(stopping := true)
  }

  // ----- runs ---------------------------------------------------------------

  function Continue(h: Host, call: nat, id: nat, available: bool, limit: nat): Host {
    if !CanResume(h.link, call) || id in h.ledger.issued then h
    else
      var resumed := h.link.(waiting := h.link.waiting - {call});
      if Admitted(h.link, call, available)
      then Host(resumed.(owners := resumed.owners[id := h.link.child.value]), Issue(h.ledger, id, limit))
      else Host(resumed.(refused := resumed.refused + {call}), h.ledger)
  }

  function Step(h: Host, e: Event, limit: nat): Host {
    match e
    case Start(available) => h.(link := StartChild(h.link, available))
    case Invoke(call, available) => h.(link := Await(h.link, call, available))
    case Resume(call, id, available) => Continue(h, call, id, available, limit)
    case ReadyMessage(pid) => h.(link := HandleReady(h.link, pid))
    case Response(id, reply) => h.(ledger := HandleResponse(h.ledger, id, reply))
    case Violation => Host(ChildGone(h.link), RejectPending(h.ledger))
    case Exit(_) => Host(ChildGone(h.link), RejectPending(h.ledger))
    case SendError(id) => h.(ledger := HandleSendError(h.ledger, id))
    case Stop(gone) => h.(link := StopChild(h.link, gone))
    case Advance(ms) => h.(ledger := Elapse(h.ledger, ms))
  }

  function Run(h: Host, events: seq<Event>, limit: nat): Host
    decreases |events|
  {
    if events == [] then h else Run(Step(h, events[0], limit), events[1..], limit)
  }

  // ----- what every step keeps ----------------------------------------------

  /** A request is unsettled exactly while it is pending, exactly while its timer is armed, and never
      longer than the limit. */
  predicate Sound(l: Ledger, limit: nat) {
    && l.timers.Keys == l.pending
    && l.settledAt.Keys == l.outcomes.Keys
    && l.issued.Keys == l.pending + l.outcomes.Keys
    && l.pending !! l.outcomes.Keys
    && (forall id :: id in l.pending ==> l.timers[id] == l.issued[id] + limit && l.issued[id] <= l.now <= l.timers[id])
    && (forall id :: id in l.outcomes ==> l.issued[id] <= l.settledAt[id] <= l.issued[id] + limit && l.settledAt[id] <= l.now)
  }

  predicate Handshake(k: Link) {
    && (k.child.Some? <==> k.readyPromise.Some?)
    && (k.child.Some? ==> k.child.value + 1 == k.spawned && k.readyPromise == k.child)
    && (k.stopping ==> k.child.Some?)
    && (k.readyPromise.Some? ==> k.readyPromise.value < k.spawned)
    && (k.resolver.Some? ==> k.resolver.value < k.spawned && k.resolver.value !in k.readyOutcomes)
    && (forall p :: p in k.readyOutcomes ==> p < k.spawned)
    && (forall call :: call in k.waiting ==> k.waiting[call] < k.spawned)
  }

  lemma {:induction false} RejectAllKeeps(l: Ledger, ids: set<nat>, reason: Reason, at: map<nat, nat>, later: nat, limit: nat)
    requires Sound(l, limit) && ids <= l.pending && ids <= at.Keys && l.now <= later
    requires forall id :: id in ids ==> l.issued[id] <= at[id] <= later && at[id] <= l.issued[id] + limit
    requires forall id :: id in l.pending - ids ==> later <= l.timers[id]
    ensures Sound(RejectAll(l, ids, reason, at).(now := later), limit)
  {
    var l' := RejectAll(l, ids, reason, at).(now := later);
    assert ids - l.outcomes.Keys == ids;
    assert l'.outcomes.Keys == l.outcomes.Keys + ids && l'.settledAt.Keys == l.settledAt.Keys + ids;
    assert l'.timers.Keys == l'.pending;
  }

  lemma {:induction false} IssueKeeps(l: Ledger, id: nat, limit: nat)
    requires Sound(l, limit) && id !in l.issued
    ensures Sound(Issue(l, id, limit), limit)
  {
    var l' := Issue(l, id, limit);
    assert l'.timers.Keys == l'.pending;
  }

  lemma {:induction false} SettleKeeps(l: Ledger, id: nat, outcome: Outcome, limit: nat)
    requires Sound(l, limit) && id in l.pending
    ensures Sound(Settle(Forget(l, id), id, outcome), limit)
  {
    var l' := Settle(Forget(l, id), id, outcome);
    assert l'.timers.Keys == l'.pending;
    assert l'.outcomes.Keys == l.outcomes.Keys + {id};
  }

  lemma {:induction false} ElapseKeeps(l: Ledger, ms: nat, limit: nat)
    requires Sound(l, limit)
    ensures Sound(Elapse(l, ms), limit)
  {
    hide RejectAll;
    RejectAllKeeps(l, Due(l, l.now + ms), TimedOut, l.timers, l.now + ms, limit);
  }

  lemma {:induction false} RejectPendingKeeps(l: Ledger, limit: nat)
    requires Sound(l, limit)
    ensures Sound(RejectPending(l), limit)
  {
    RejectAllKeeps(l, l.pending, Exited, map id | id in l.pending :: l.now, l.now, limit);
  }

  lemma {:induction false} SettledStays(l: Ledger, id: nat, limit: nat)
    requires Sound(l, limit) && id in l.issued && id !in l.pending
    ensures id in l.outcomes
  {
  }

  lemma {:induction false} StepKeepsRequests(h: Host, e: Event, limit: nat)
    requires Sound(h.ledger, limit)
    ensures Sound(Step(h, e, limit).ledger, limit)
  {
    hide Sound, Issue, Settle, Forget, Elapse, RejectAll, StartChild, Await, HandleReady, ChildGone, StopChild;
    var l := h.ledger;
    match e
    case Advance(ms) => ElapseKeeps(l, ms, limit);
    case Violation => RejectPendingKeeps(l, limit);
    case Exit(_) => RejectPendingKeeps(l, limit);
    case Response(id, reply) =>
      if id in l.pending {
        SettleKeeps(l, id, FromReply(reply), limit);
      }
    case SendError(id) =>
      if id in l.pending {
        SettleKeeps(l, id, Rejected(SendFailed), limit);
      } else if id in l.issued {
        SettledStays(l, id, limit);
        AlreadySettled(l, id, Rejected(SendFailed));
      }
    case Resume(_, id, _) =>
      if id !in l.issued {
        IssueKeeps(l, id, limit);
      }
    case _ =>
  }

  lemma {:induction false} AlreadySettled(l: Ledger, id: nat, outcome: Outcome)
    requires id in l.outcomes
    ensures Settle(l, id, outcome) == l
  {
  }

  lemma {:induction false} StepKeepsHandshake(h: Host, e: Event, limit: nat)
    requires Handshake(h.link)
    ensures Handshake(Step(h, e, limit).link)
  {
    hide HandleResponse, HandleSendError, RejectPending, Elapse, Issue;
  }

  /** In every run, at each event boundary, requests and handshake are in order. */
  lemma {:induction false} RunKeeps(h: Host, events: seq<Event>, limit: nat)
    requires Sound(h.ledger, limit) && Handshake(h.link)
    ensures Sound(Run(h, events, limit).ledger, limit) && Handshake(Run(h, events, limit).link)
    decreases |events|
  {
    hide Sound, Handshake, Step;
    if events == [] {
    } else {
      StepKeepsRequests(h, events[0], limit);
      StepKeepsHandshake(h, events[0], limit);
      RunKeeps(Step(h, events[0], limit), events[1..], limit);
    }
  }

  /** In every run from the start: a request is pending exactly when it was issued and has no outcome,
      and it neither stays pending nor is settled later than the limit after it was issued. */
  lemma {:induction false} RequestsInEveryRun(events: seq<Event>, timeoutMs: int, id: nat)
    ensures var limit := RequestLimit(timeoutMs);
            var l := Run(IDLE, events, limit).ledger;
            && (id in l.pending <==> id in l.issued && id !in l.outcomes)
            && (id in l.pending ==> l.now <= l.issued[id] + limit)
            && (id in l.outcomes ==> id in l.issued && id in l.settledAt && l.settledAt[id] <= l.issued[id] + limit)
  {
    hide Run;
    RunKeeps(IDLE, events, RequestLimit(timeoutMs));
  }

  // ----- first settle wins --------------------------------------------------

  /** The outcome a pending request gets from the events to come, when `left` milliseconds remain on
      its timer: that of the first event that answers it, fails its send, ends the child or exhausts
      its time. No host state is consulted. */
  function FirstSettler(events: seq<Event>, id: nat, left: nat): Option<Outcome>
    decreases |events|
  {
    if events == [] then None
    else
      var rest := events[1..];
      match events[0]
      case Response(i, reply) => if i == id then Some(FromReply(reply)) else FirstSettler(rest, id, left)
      case SendError(i) => if i == id then Some(Rejected(SendFailed)) else FirstSettler(rest, id, left)
      case Violation => Some(Rejected(Exited))
      case Exit(_) => Some(Rejected(Exited))
      case Advance(ms) => if left <= ms then Some(Rejected(TimedOut)) else FirstSettler(rest, id, left - ms)
      case _ => FirstSettler(rest, id, left)
  }

  predicate HasOutcome(l: Ledger, id: nat, outcome: Outcome) {
    id in l.outcomes && l.outcomes[id] == outcome
  }

  /** A settled outcome never changes. */
  lemma {:induction false} StepKeepsOutcome(h: Host, e: Event, limit: nat, id: nat, outcome: Outcome)
    requires HasOutcome(h.ledger, id, outcome)
    ensures HasOutcome(Step(h, e, limit).ledger, id, outcome)
  {
    hide StartChild, Await, HandleReady, ChildGone, StopChild;
  }

  lemma {:induction false} OutcomeIsFinal(h: Host, events: seq<Event>, limit: nat, id: nat, outcome: Outcome)
    requires HasOutcome(h.ledger, id, outcome)
    ensures HasOutcome(Run(h, events, limit).ledger, id, outcome)
    decreases |events|
  {
    hide Step, HasOutcome;
    if events == [] {
    } else {
      StepKeepsOutcome(h, events[0], limit, id, outcome);
      OutcomeIsFinal(Step(h, events[0], limit), events[1..], limit, id, outcome);
    }
  }

  /** One event settles a pending request exactly as the specification says, or leaves it pending. */
  lemma {:induction false} StepOnPending(h: Host, e: Event, limit: nat, id: nat)
    requires id in h.ledger.pending && id in h.ledger.issued && id !in h.ledger.outcomes
    requires id in h.ledger.timers && h.ledger.now <= h.ledger.timers[id]
    ensures var l, l' := h.ledger, Step(h, e, limit).ledger;
            match FirstSettler([e], id, l.timers[id] - l.now) {
              case Some(outcome) => HasOutcome(l', id, outcome)
              case None => id in l'.pending && id in l'.timers && l'.timers[id] == l.timers[id]
                           && l'.now == l.now + (if e.Advance? then e.ms else 0)
                           && (e.Advance? ==> e.ms < l.timers[id] - l.now)
            }
  {
    hide StartChild, Await, HandleReady, ChildGone, StopChild;
    assert [e][1..] == [];
  }

  lemma {:induction false} FirstSettlerCons(e: Event, rest: seq<Event>, id: nat, left: nat)
    ensures FirstSettler([e] + rest, id, left) ==
            match FirstSettler([e], id, left) {
              case Some(outcome) => Some(outcome)
              case None => FirstSettler(rest, id, if e.Advance? && e.ms < left then left - e.ms else left)
            }
  {
    assert ([e] + rest)[1..] == rest && [e][1..] == [];
  }

  /** In every run, what becomes of a pending request is decided by the first settling event. */
  lemma {:induction false} FirstSettleWins(h: Host, events: seq<Event>, limit: nat, id: nat)
    requires Sound(h.ledger, limit) && id in h.ledger.pending
    ensures var end := Run(h, events, limit).ledger;
            match FirstSettler(events, id, h.ledger.timers[id] - h.ledger.now) {
              case Some(outcome) => HasOutcome(end, id, outcome)
              case None => id in end.pending && id !in end.outcomes
            }
    decreases |events|
  {
    hide Step, HasOutcome, FirstSettler;
    if events == [] {
      NoSettler(id, h.ledger.timers[id] - h.ledger.now);
    } else {
      var e, rest := events[0], events[1..];
      var h' := Step(h, e, limit);
      StepKeepsRequests(h, e, limit);
      StepOnPending(h, e, limit, id);
      FirstSettlerCons(e, rest, id, h.ledger.timers[id] - h.ledger.now);
      assert events == [e] + rest;
      match FirstSettler([e], id, h.ledger.timers[id] - h.ledger.now) {
        case Some(outcome) => OutcomeIsFinal(h', rest, limit, id, outcome);
        case None => FirstSettleWins(h', rest, limit, id);
      }
    }
  }

  lemma {:induction false} NoSettler(id: nat, left: nat)
    ensures FirstSettler([], id, left) == None
  {
  }

  /** The event decides a request whose timer has `left` milliseconds to go. */
  predicate Decides(e: Event, id: nat, left: nat) {
    match e
    case Response(i, _) => i == id
    case SendError(i) => i == id
    case Violation => true
    case Exit(_) => true
    case Advance(ms) => left <= ms
    case _ => false
  }

  /** Position of the first deciding event, or the number of events. */
  function FirstDecision(events: seq<Event>, id: nat, left: nat): (k: nat)
    ensures k <= |events|
    decreases |events|
  {
    if events == [] || Decides(events[0], id, left) then 0
    else 1 + FirstDecision(events[1..], id, if events[0].Advance? then left - events[0].ms else left)
  }

  lemma {:induction false} SettlerIsFirstDecision(events: seq<Event>, id: nat, left: nat)
    ensures var k := FirstDecision(events, id, left);
            if k == |events| then FirstSettler(events, id, left) == None
            else match events[k]
              case Response(_, Success(x)) => FirstSettler(events, id, left) == Some(Resolved(x))
              case Response(_, Failure(name, message)) => FirstSettler(events, id, left) == Some(Rejected(RemoteError(name, message)))
              case SendError(_) => FirstSettler(events, id, left) == Some(Rejected(SendFailed))
              case Advance(_) => FirstSettler(events, id, left) == Some(Rejected(TimedOut))
              case _ => FirstSettler(events, id, left) == Some(Rejected(Exited)) && (events[k].Exit? || events[k].Violation?)
    decreases |events|
  {
    if events == [] || Decides(events[0], id, left) {
    } else {
      var rest := events[1..];
      var left' := if events[0].Advance? then left - events[0].ms else left;
      SettlerIsFirstDecision(rest, id, left');
      assert FirstSettler(events, id, left) == FirstSettler(rest, id, left');
      assert forall k :: 0 <= k < |rest| ==> events[k + 1] == rest[k];
    }
  }

  /** In every run a pending request is resolved with `x` exactly when its first deciding event is the
      successful answer `x`, rejected with the remote error exactly when it is that failure, and likewise
      for a failed send, a timeout and an exit; it stays pending exactly when no event decides it. */
  lemma {:induction false} AnswerDecides(h: Host, events: seq<Event>, limit: nat, id: nat)
    requires Sound(h.ledger, limit) && id in h.ledger.pending
    ensures var k := FirstDecision(events, id, h.ledger.timers[id] - h.ledger.now);
            var end := Run(h, events, limit).ledger;
            && (id in end.pending <==> k == |events|) && (id in end.outcomes <==> k < |events|)
            && (forall x :: HasOutcome(end, id, Resolved(x)) <==> k < |events| && events[k] == Response(id, Success(x)))
            && (forall name, message :: HasOutcome(end, id, Rejected(RemoteError(name, message))) <==>
                  k < |events| && events[k] == Response(id, Failure(name, message)))
            && (HasOutcome(end, id, Rejected(SendFailed)) <==> k < |events| && events[k] == SendError(id))
            && (HasOutcome(end, id, Rejected(TimedOut)) <==> k < |events| && events[k].Advance?)
            && (HasOutcome(end, id, Rejected(Exited)) <==> k < |events| && (events[k].Exit? || events[k].Violation?))
  {
    hide Run, FirstSettler, Sound;
    var left := PendingLeft(h, limit, id);
    FirstSettleWins(h, events, limit, id);
    SettlerIsFirstDecision(events, id, left);
    DecisionDecides(events, id, left);
    SettledIsNotPending(h, events, limit, id);
  }

  lemma {:induction false} PendingLeft(h: Host, limit: nat, id: nat) returns (left: nat)
    requires Sound(h.ledger, limit) && id in h.ledger.pending
    ensures id in h.ledger.timers && h.ledger.timers[id] - h.ledger.now == left
  {
    left := h.ledger.timers[id] - h.ledger.now;
  }

  lemma {:induction false} DecisionDecides(events: seq<Event>, id: nat, left: nat)
    ensures var k := FirstDecision(events, id, left);
            k < |events| ==> (events[k].Response? ==> events[k].id == id) && (events[k].SendError? ==> events[k].id == id)
    decreases |events|
  {
    if events == [] || Decides(events[0], id, left) {
    } else {
      DecisionDecides(events[1..], id, if events[0].Advance? then left - events[0].ms else left);
    }
  }

  lemma {:induction false} SettledIsNotPending(h: Host, events: seq<Event>, limit: nat, id: nat)
    requires Sound(h.ledger, limit)
    ensures id in Run(h, events, limit).ledger.outcomes ==> id !in Run(h, events, limit).ledger.pending
    decreases |events|
  {
    hide Step;
    if events == [] {
    } else {
      StepKeepsRequests(h, events[0], limit);
      SettledIsNotPending(Step(h, events[0], limit), events[1..], limit, id);
    }
  }

  /** After an exit nothing is pending, no timer is armed and every request has an outcome. */
  lemma {:induction false} ExitSettlesEverything(h: Host, e: Event, limit: nat)
    requires Sound(h.ledger, limit) && (e.Exit? || e.Violation?)
    ensures var l := Step(h, e, limit).ledger;
            l.pending == {} && l.timers == map[] && l.outcomes.Keys == h.ledger.issued.Keys
  {
    StepKeepsRequests(h, e, limit);
    assert Step(h, e, limit).ledger.timers.Keys == {};
  }

  /** A response to a request that is settled or was never issued changes nothing at all. */
  lemma {:induction false} LateResponseIgnored(h: Host, limit: nat, id: nat, reply: Reply)
    requires Sound(h.ledger, limit)
    requires id in h.ledger.outcomes || id !in h.ledger.issued
    ensures Step(h, Response(id, reply), limit) == h
  {
  }

  // ----- the ready handshake, calls and exits ---------------------------------

  /** What becomes of the open ready promise: the first ready message or exit decides, unless a child is
      spawned before. */
  function ReadyFate(h: Host, events: seq<Event>, limit: nat): Option<ReadyOutcome>
    decreases |events|
  {
    if events == [] || Spawns(h.link, events[0]) then None
    else
      match events[0]
      case ReadyMessage(pid) => Some(Ready(pid))
      case Violation => Some(NeverReady)
      case Exit(_) => Some(NeverReady)
      case _ => ReadyFate(Step(h, events[0], limit), events[1..], limit)
  }

  function ReadyOf(k: Link, p: nat): Option<ReadyOutcome> {
    if p in k.readyOutcomes then Some(k.readyOutcomes[p]) else None
  }

  lemma {:induction false} ReadyStep(h: Host, e: Event, limit: nat, p: nat)
    requires Handshake(h.link) && h.link.resolver == Some(p)
    ensures var k := Step(h, e, limit).link;
            match e
            case ReadyMessage(pid) => ReadyOf(k, p) == Some(Ready(pid))
            case Violation => ReadyOf(k, p) == Some(NeverReady)
            case Exit(_) => ReadyOf(k, p) == Some(NeverReady)
            case _ => if Spawns(h.link, e) then Abandoned(k, p) else k.resolver == Some(p)
  {
    hide HandleResponse, HandleSendError, RejectPending, Elapse, Issue;
  }

  lemma {:induction false} ReadyIsFinal(h: Host, events: seq<Event>, limit: nat, p: nat)
    requires Handshake(h.link) && p in h.link.readyOutcomes
    ensures ReadyOf(Run(h, events, limit).link, p) == ReadyOf(h.link, p)
    decreases |events|
  {
    hide HandleResponse, HandleSendError, RejectPending, Elapse, Issue;
    if events == [] {
    } else {
      StepKeepsHandshake(h, events[0], limit);
      ReadyIsFinal(Step(h, events[0], limit), events[1..], limit, p);
    }
  }

  /** In every run the ready promise ends as the first ready message or exit says, for good. */
  lemma {:induction false} FirstReadyWins(h: Host, events: seq<Event>, limit: nat, p: nat)
    requires Handshake(h.link) && h.link.resolver == Some(p)
    ensures ReadyOf(Run(h, events, limit).link, p) == ReadyFate(h, events, limit)
    decreases |events|
  {
    if events == [] {
    } else {
      var e := events[0];
      ReadyStep(h, e, limit, p);
      StepKeepsHandshake(h, e, limit);
      hide Step, Handshake;
      if e.ReadyMessage? || e.Violation? || e.Exit? {
        ReadyIsFinal(Step(h, e, limit), events[1..], limit, p);
      } else if Spawns(h.link, e) {
        AbandonedForEver(Step(h, e, limit), events[1..], limit, p);
      } else {
        FirstReadyWins(Step(h, e, limit), events[1..], limit, p);
      }
    }
  }

  /** A call that comes back from waiting issues its request, to the current child, exactly when that
      child's promise was fulfilled and a child is there and available; otherwise it is refused. A call
      whose promise is open goes on waiting. */
  lemma {:induction false} CallComesBack(h: Host, call: nat, id: nat, available: bool, limit: nat)
    requires call in h.link.waiting && id !in h.ledger.issued
    ensures var h', ready := Step(h, Resume(call, id, available), limit), ReadyOf(h.link, h.link.waiting[call]);
            if ready == None then h' == h
            else
              && call !in h'.link.waiting
              && (id in h'.ledger.issued <==> ready.value.Ready? && h.link.child.Some? && available)
              && (id in h'.ledger.issued ==>
                    && id in h'.ledger.pending && id in h'.link.owners && Some(h'.link.owners[id]) == h.link.child
                    && h'.ledger.timers == h.ledger.timers[id := h.ledger.now + limit])
              && (call in h'.link.refused <==> id !in h'.ledger.issued || call in h.link.refused)
  {
  }

  /** A new call waits for the ready promise of the child it finds or starts. */
  lemma {:induction false} CallWaits(h: Host, call: nat, available: bool, limit: nat)
    requires Handshake(h.link) && call !in h.link.waiting
    ensures var k := Step(h, Invoke(call, available), limit).link;
            && k.waiting.Keys == h.link.waiting.Keys + {call}
            && (forall c :: c in h.link.waiting ==> k.waiting[c] == h.link.waiting[c])
            && Some(k.waiting[call]) == k.readyPromise == k.child
            && (Spawns(h.link, Invoke(call, available)) ==> k.waiting[call] == h.link.spawned)
  {
  }

  /** Every exit is reported once, as expected exactly when a stop of the running child was under way. */
  lemma {:induction false} ExitsAreReported(h: Host, e: Event, limit: nat)
    requires Handshake(h.link)
    ensures var k, k' := h.link, Step(h, e, limit).link;
            && k'.exits == (if e.Exit? || e.Violation? then k.exits + [!k.stopping] else k.exits)
            && (k'.stopping <==>
                  || (e.Stop? && k.child.Some? && !e.gone)
                  || (k.stopping && !Spawns(k, e) && !e.Exit? && !e.Violation? && !(e.Stop? && e.gone)))
  {
    hide HandleResponse, HandleSendError, RejectPending, Elapse, Issue;
  }

  /** Which child is current: a new one when one is spawned, none after an exit or the stop of a child
      that is gone, and otherwise the same. */
  lemma {:induction false} CurrentChild(h: Host, e: Event, limit: nat)
    ensures Step(h, e, limit).link.child ==
            if Spawns(h.link, e) then Some(h.link.spawned)
            else if e.Exit? || e.Violation? || (e.Stop? && e.gone) then None
            else h.link.child
  {
    hide HandleResponse, HandleSendError, RejectPending, Elapse, Issue;
  }

  // ----- ready promises that are left behind --------------------------------

  /** An unsettled ready promise that is no longer the current one. */
  predicate Abandoned(k: Link, p: nat) {
    p < k.spawned && p !in k.readyOutcomes && k.resolver != Some(p)
  }

  /** The event starts a child: it asks for one and there is none to reuse. */
  predicate Spawns(k: Link, e: Event) {
    (e.Start? || e.Invoke?) && !(k.child.Some? && e.available && k.readyPromise.Some?)
  }

  /** An abandoned promise never settles, and a call that awaits it waits for ever. */
  lemma {:induction false} AbandonedForEver(h: Host, events: seq<Event>, limit: nat, p: nat)
    requires Abandoned(h.link, p)
    ensures Abandoned(Run(h, events, limit).link, p)
    ensures forall call :: call in h.link.waiting && h.link.waiting[call] == p ==>
              call in Run(h, events, limit).link.waiting && Run(h, events, limit).link.waiting[call] == p
    decreases |events|
  {
    hide Step;
    if events == [] {
    } else {
      AbandonedStep(h, events[0], limit, p);
      AbandonedForEver(Step(h, events[0], limit), events[1..], limit, p);
    }
  }

  lemma {:induction false} AbandonedStep(h: Host, e: Event, limit: nat, p: nat)
    requires Abandoned(h.link, p)
    ensures Abandoned(Step(h, e, limit).link, p)
    ensures forall call :: call in h.link.waiting && h.link.waiting[call] == p ==>
              call in Step(h, e, limit).link.waiting && Step(h, e, limit).link.waiting[call] == p
  {
    hide HandleResponse, HandleSendError, RejectPending, Elapse, Issue;
  }

  /** A ready promise is abandoned exactly when a child is spawned while it is still the open one. */
  lemma {:induction false} AbandonedBySpawn(h: Host, e: Event, limit: nat, p: nat)
    requires Handshake(h.link) && !Abandoned(h.link, p) && p < h.link.spawned
    ensures Abandoned(Step(h, e, limit).link, p) <==> h.link.resolver == Some(p) && Spawns(h.link, e)
  {
    hide HandleResponse, HandleSendError, RejectPending, Elapse, Issue;
  }

  /** It happens: a call awaits child 0, which is gone when the host is started again. */
  lemma {:induction false} CallLeftWaiting(limit: nat, events: seq<Event>)
    ensures var h := Run(IDLE, [Invoke(0, true), Start(false)], limit);
            && Abandoned(h.link, 0) && 0 in h.link.waiting && h.link.waiting[0] == 0
            && var end := Run(h, events, limit).link; 0 in end.waiting && end.waiting[0] == 0
  {
    var h1 := Step(IDLE, Invoke(0, true), limit);
    RunCons(IDLE, Invoke(0, true), [Start(false)], limit);
    RunCons(h1, Start(false), [], limit);
    var h2 := Step(h1, Start(false), limit);
    AbandonedForEver(h2, events, limit, 0);
  }

  // ----- exits that are not labelled with a child ---------------------------

  /** The exit of child `of` rejects a request that was sent to another child. */
  ghost predicate RejectsForeign(h: Host, of: nat, limit: nat) {
    exists id :: && id in h.ledger.issued && id !in h.ledger.outcomes && id in h.link.owners && h.link.owners[id] != of
                 && HasOutcome(Step(h, Exit(of), limit).ledger, id, Rejected(Exited))
  }

  /** Every request has an owner, and the pending ones all belong to the child spawned last. */
  predicate Owned(h: Host) {
    && h.link.owners.Keys == h.ledger.issued.Keys
    && (forall id :: id in h.ledger.pending ==> id in h.link.owners && h.link.owners[id] + 1 == h.link.spawned)
  }

  /** The event replaces no child while requests are pending, and reports the exit of no child but the
      last one while requests are pending. */
  predicate Orderly(h: Host, e: Event) {
    h.ledger.pending != {} ==> !Spawns(h.link, e) && (e.Exit? ==> e.of + 1 == h.link.spawned)
  }

  /** An exit rejects a request of another child exactly when one is pending. */
  lemma {:induction false} RejectsForeignExactlyWhen(h: Host, of: nat, limit: nat)
    requires Sound(h.ledger, limit) && h.link.owners.Keys == h.ledger.issued.Keys
    ensures RejectsForeign(h, of, limit) <==> exists id :: id in h.ledger.pending && h.link.owners[id] != of
  {
    hide Step;
    if RejectsForeign(h, of, limit) {
      var id :| id in h.ledger.issued && id !in h.ledger.outcomes && id in h.link.owners && h.link.owners[id] != of;
      assert id in h.ledger.pending;
    }
    if id :| id in h.ledger.pending && h.link.owners[id] != of {
      AnyExitRejects(h, of, limit, id);
      assert id in h.ledger.issued && id !in h.ledger.outcomes && id in h.link.owners;
    }
  }

  lemma {:induction false} StepKeepsOwners(h: Host, e: Event, limit: nat)
    requires Handshake(h.link) && Owned(h) && Orderly(h, e)
    ensures Owned(Step(h, e, limit))
  {
    hide Elapse, RejectPending, RejectAll, FromReply, Continue;
    match e
    case Advance(ms) => ElapseOnlyRemoves(h.ledger, ms);
    case Violation => RejectOnlyRemoves(h.ledger);
    case Exit(_) => RejectOnlyRemoves(h.ledger);
    case Resume(call, id, available) => ResumeKeepsOwners(h, call, id, available, limit);
    case _ =>
  }

  lemma {:induction false} ResumeKeepsOwners(h: Host, call: nat, id: nat, available: bool, limit: nat)
    requires Handshake(h.link) && Owned(h)
    ensures Owned(Continue(h, call, id, available, limit))
  {
  }

  lemma {:induction false} ElapseOnlyRemoves(l: Ledger, ms: nat)
    ensures Elapse(l, ms).pending <= l.pending && Elapse(l, ms).issued == l.issued
  {
  }

  lemma {:induction false} RejectOnlyRemoves(l: Ledger)
    ensures RejectPending(l).pending == {} && RejectPending(l).issued == l.issued
  {
  }

  /** With all pending requests owned by the last child, an event is orderly exactly when it neither
      rejects a foreign request nor leaves one pending behind a newer child. */
  lemma {:induction false} OrderlyExactlyWhen(h: Host, e: Event, limit: nat)
    requires Sound(h.ledger, limit) && Handshake(h.link) && Owned(h)
    ensures Orderly(h, e) <==> Owned(Step(h, e, limit)) && (e.Exit? ==> !RejectsForeign(h, e.of, limit))
  {
    hide RejectsForeign, Sound, Handshake;
    if Orderly(h, e) {
      StepKeepsOwners(h, e, limit);
    }
    if e.Exit? {
      RejectsForeignExactlyWhen(h, e.of, limit);
    }
    if h.ledger.pending != {} {
      var id :| id in h.ledger.pending;
      assert h.link.owners[id] + 1 == h.link.spawned;
      if e.Exit? && e.of + 1 != h.link.spawned {
        assert h.link.owners[id] != e.of;
      }
      if Spawns(h.link, e) {
        assert id in Step(h, e, limit).ledger.pending;
      }
    }
  }

  predicate OrderlyRun(h: Host, events: seq<Event>, limit: nat)
    decreases |events|
  {
    events == [] || (Orderly(h, events[0]) && OrderlyRun(Step(h, events[0], limit), events[1..], limit))
  }

  lemma {:induction false} OrderlyContinuation(h: Host, events: seq<Event>, limit: nat, k: nat)
    requires Sound(h.ledger, limit) && Handshake(h.link) && Owned(h) && OrderlyRun(h, events, limit)
    requires k < |events| && events[k].Exit?
    ensures !RejectsForeign(Run(h, events[..k], limit), events[k].of, limit)
    decreases |events|
  {
    hide Step, Sound, Handshake, Owned, Orderly, RejectsForeign;
    if k == 0 {
      assert events[..0] == [];
      OrderlyExactlyWhen(h, events[0], limit);
    } else {
      var h' := Step(h, events[0], limit);
      StepKeepsRequests(h, events[0], limit);
      StepKeepsHandshake(h, events[0], limit);
      StepKeepsOwners(h, events[0], limit);
      OrderlyContinuation(h', events[1..], limit, k - 1);
      assert events[..k][1..] == events[1..][..k - 1];
    }
  }

  lemma {:induction false} IdleIsOrderly(limit: nat)
    ensures Sound(IDLE.ledger, limit) && Handshake(IDLE.link) && Owned(IDLE)
  {
  }

  /** In every run that replaces no child while requests are pending and whose exits then name the last
      child, no exit ever rejects a request of another child. */
  lemma {:induction false} OrderlyRunsRejectTheirOwn(events: seq<Event>, limit: nat, k: nat)
    requires OrderlyRun(IDLE, events, limit) && k < |events| && events[k].Exit?
    ensures !RejectsForeign(Run(IDLE, events[..k], limit), events[k].of, limit)
  {
    hide OrderlyRun, RejectsForeign, Run, Sound, Handshake, Owned;
    IdleIsOrderly(limit);
    OrderlyContinuation(IDLE, events, limit, k);
  }

  /** The late exit of a discarded child rejects the requests of its successor: child 0 breaks the
      protocol, child 1 takes over and holds request 7, and then child 0 exits. */
  lemma {:induction false} StaleExitRejectsSuccessor(limit: nat) returns (before: Host)
    ensures before == Run(IDLE, HANDOVER, limit)
    ensures before.link.child == Some(1) && 7 in before.ledger.pending && RejectsForeign(before, 0, limit)
    ensures var after := Step(before, Exit(0), limit);
            after.link.child == None && HasOutcome(after.ledger, 7, Rejected(Exited))
  {
    hide Step, Run;
    var h := FirstChildDiscarded(limit);
    before := SuccessorTakesOver(h, limit);
    AnyExitRejects(before, 0, limit, 7);
  }

  /** Whichever child exits, every pending request is rejected and the current child is dropped. */
  lemma {:induction false} AnyExitRejects(h: Host, of: nat, limit: nat, id: nat)
    requires id in h.ledger.pending && id !in h.ledger.outcomes
    ensures var after := Step(h, Exit(of), limit);
            after.link.child == None && HasOutcome(after.ledger, id, Rejected(Exited))
  {
  }

  lemma {:induction false} SuccessorTakesOver(h: Host, limit: nat) returns (before: Host)
    requires h.link.child == None && h.link.spawned == 1 && 1 !in h.link.waiting
    requires h.ledger.pending == {} && h.ledger.issued == map[] && h.ledger.outcomes == map[]
    ensures before == Run(h, HANDOVER[3..], limit)
    ensures before.link.child == Some(1) && 7 in before.ledger.pending && 7 !in before.ledger.outcomes
    ensures 7 in before.ledger.issued && 7 in before.link.owners && before.link.owners[7] == 1
  {
    var h4 := Step(h, HANDOVER[3], limit);
    var h5 := Step(h4, HANDOVER[4], limit);
    before := Step(h5, HANDOVER[5], limit);
    hide Step;
    RunCons(h5, HANDOVER[5], [], limit);
    RunCons(h4, HANDOVER[4], HANDOVER[5..], limit);
    RunCons(h, HANDOVER[3], HANDOVER[4..], limit);
  }

  lemma {:induction false} FirstChildDiscarded(limit: nat) returns (h: Host)
    ensures Run(IDLE, HANDOVER, limit) == Run(h, HANDOVER[3..], limit)
    ensures h.link.child == None && h.link.spawned == 1 && 1 !in h.link.waiting
    ensures h.ledger.pending == {} && h.ledger.issued == map[] && h.ledger.outcomes == map[]
  {
    var h1 := Step(IDLE, HANDOVER[0], limit);
    var h2 := Step(h1, HANDOVER[1], limit);
    h := Step(h2, HANDOVER[2], limit);
    hide Step;
    RunCons(h2, HANDOVER[2], HANDOVER[3..], limit);
    RunCons(h1, HANDOVER[1], HANDOVER[2..], limit);
    RunCons(IDLE, HANDOVER[0], HANDOVER[1..], limit);
  }

  lemma {:induction false} RunCons(h: Host, e: Event, rest: seq<Event>, limit: nat)
    ensures Run(h, [e] + rest, limit) == Run(Step(h, e, limit), rest, limit)
    ensures rest == [] ==> Run(h, [e], limit) == Step(h, e, limit)
  {
    assert ([e] + rest)[1..] == rest && [e][1..] == [];
  }

  const HANDOVER := [
    Invoke(0, true), ReadyMessage(100), Violation, Invoke(1, true), ReadyMessage(200), Resume(1, 7, true)]
}
