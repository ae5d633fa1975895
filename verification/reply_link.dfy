/**
 * Request/reply correlation over connections that can fail (crates/truewire-core/src/ws/socket.rs):
 * requesters, readers and failers interleave at the granularity of the locks and channels they use.
 */
module ReplyLink {
  import opened Wrappers

  type Reply = string
  type Error = string

  /** How a request ended: answered, failed with its connection, refused locally, or given up by its caller. */
  datatype Outcome = Replied(reply: Reply) | Failed(error: Error) | Refused | GivenUp

  /** Where a requester is in `rpc_request`; waiting remembers the version of `closed` it has seen. */
  datatype Phase =
    | Allocated
    | Registered
    | Sent
    | Waiting(seen: nat)
    | Leaving(outcome: Outcome)
    | Finished(outcome: Outcome)

  /** The oneshot channel a request waits on. */
  datatype Slot = Empty | Full(reply: Reply) | Dropped

  datatype Request = Request(link: nat, id: nat, phase: Phase, slot: Slot)

  /** One connection: why it failed, the version of that watch value, and its table of waiting requests. */
  datatype Link = Link(closed: Option<Error>, version: nat, cleared: bool, replies: map<nat, nat>)

  datatype Incoming = Incoming(link: nat, id: nat, reply: Reply)

  /**
   * The socket's shared id counter, every connection it ever opened, every request ever made, every
   * reply ever read, and which request each of those was delivered to.
   */
  datatype State = State(
    counter: nat,
    links: seq<Link>,
    requests: seq<Request>,
    read: seq<Incoming>,
    delivered: map<nat, nat>)

  datatype Step =
    | Connect
    | Allocate(link: nat)
    | EncodingFails(r: nat)
    | Register(r: nat)
    | Send(r: nat)
    | WritingFails(r: nat)
    | StartWaiting(r: nat)
    | TakeReply(r: nat)
    | SeeClosed(r: nat)
    | SeeDropped(r: nat)
    | GiveUp(r: nat)
    | Release(r: nat)
    | Dispatch(incoming: Incoming)
    | Fail(at: nat, error: Error)
    | Clear(at: nat)

  function Init(): State { State(0, [], [], [], map[]) }

  predicate Gone(phase: Phase) { phase.Leaving? || phase.Finished? }

  function ClosedError(link: Link): Error {
    if link.closed.Some? then link.closed.value else "Connection closed"
  }

  function SetPhase(s: State, r: nat, phase: Phase): State
    requires r < |s.requests|
  {
    s.(requests := s.requests[r := s.requests[r].(phase := phase)])
  }

  predicate AtPhase(s: State, r: nat, phase: Phase) {
    r < |s.requests| && s.requests[r].link < |s.links| && s.requests[r].phase == phase
  }

  predicate Enabled(s: State, step: Step) {
    match step
    case Connect => s.links == [] || s.links[|s.links| - 1].closed.Some?
    case Allocate(link) => link < |s.links|
    case EncodingFails(r) => AtPhase(s, r, Allocated)
    case Register(r) => AtPhase(s, r, Allocated)
    case Send(r) => AtPhase(s, r, Registered)
    case WritingFails(r) => AtPhase(s, r, Registered)
    case StartWaiting(r) => AtPhase(s, r, Sent)
    case TakeReply(r) => r < |s.requests| && s.requests[r].phase.Waiting? && s.requests[r].slot.Full?
    case SeeClosed(r) =>
      && r < |s.requests| && s.requests[r].link < |s.links| && s.requests[r].phase.Waiting?
      && s.requests[r].phase.seen < s.links[s.requests[r].link].version
    case SeeDropped(r) =>
      && r < |s.requests| && s.requests[r].link < |s.links|
      && s.requests[r].phase.Waiting? && s.requests[r].slot.Dropped?
    case GiveUp(r) => r < |s.requests| && !Gone(s.requests[r].phase) && s.requests[r].phase != Allocated
    case Release(r) => r < |s.requests| && s.requests[r].link < |s.links| && s.requests[r].phase.Leaving?
    case Dispatch(incoming) => incoming.link < |s.links|
    case Fail(at, _) => at < |s.links|
    case Clear(at) => at < |s.links| && s.links[at].closed.Some? && !s.links[at].cleared
  }

  /** A reply is delivered to whoever the table holds for its id, and its entry removed. */
  function Deliver(s: State, incoming: Incoming): State
    requires incoming.link < |s.links|
  {
    var l := s.links[incoming.link];
    var t := s.(read := s.read + [incoming]);
    if incoming.id !in l.replies then t
    else
      var r := l.replies[incoming.id];
      var u := t.(links := s.links[incoming.link := l.(replies := l.replies - {incoming.id})]);
      if r < |s.requests| && !Gone(s.requests[r].phase)
      then u.(requests := s.requests[r := s.requests[r].(slot := Full(incoming.reply))],
              delivered := s.delivered[|s.read| := r])
      else u
  }

  /** Whether a slot's sender sits in the table being cleared. */
  function AfterClear(q: Request, at: nat, i: nat, table: map<nat, nat>): Request {
    if q.link == at && q.id in table && table[q.id] == i && q.slot.Empty? then q.(slot := Dropped) else q
  }

  function Apply(s: State, step: Step): State
    requires Enabled(s, step)
  {
    match step
    case Connect => s.(links := s.links + [Link(None, 0, false, map[])])
    case Allocate(link) =>
      s.(counter := s.counter + 1, requests := s.requests + [Request(link, s.counter, Allocated, Empty)])
    case EncodingFails(r) => SetPhase(s, r, Leaving(Refused))
    case Register(r) =>
      var q := s.requests[r];
      var l := s.links[q.link];
      SetPhase(s, r, Registered).(links := s.links[q.link := l.(replies := l.replies[q.id := r])])
    case Send(r) =>
      var l := s.links[s.requests[r].link];
      SetPhase(s, r, if l.closed.Some? then Leaving(Failed(l.closed.value)) else Sent)
    case WritingFails(r) => SetPhase(s, r, Leaving(Refused))
    case StartWaiting(r) =>
      var l := s.links[s.requests[r].link];
      SetPhase(s, r, if l.closed.Some? then Leaving(Failed(l.closed.value)) else Waiting(l.version))
    case TakeReply(r) => SetPhase(s, r, Leaving(Replied(s.requests[r].slot.reply)))
    case SeeClosed(r) => SetPhase(s, r, Leaving(Failed(ClosedError(s.links[s.requests[r].link]))))
    case SeeDropped(r) => SetPhase(s, r, Leaving(Failed(ClosedError(s.links[s.requests[r].link]))))
    case GiveUp(r) => SetPhase(s, r, Leaving(GivenUp))
    case Release(r) =>
      var q := s.requests[r];
      var l := s.links[q.link];
      SetPhase(s, r, Finished(q.phase.outcome)).(links := s.links[q.link := l.(replies := l.replies - {q.id})])
    case Dispatch(incoming) => Deliver(s, incoming)
    case Fail(at, error) =>
      var l := s.links[at];
      if l.closed.Some? then s else s.(links := s.links[at := l.(closed := Some(error), version := l.version + 1)])
    case Clear(at) =>
      var l := s.links[at];
      s.(links := s.links[at := l.(cleared := true, replies := map[])],
         requests := seq(|s.requests|, i requires 0 <= i < |s.requests| => AfterClear(s.requests[i], at, i, l.replies)))
  }

  predicate Legal(s: State, steps: seq<Step>)
    decreases |steps|
  {
    steps == [] || (Enabled(s, steps[0]) && Legal(Apply(s, steps[0]), steps[1..]))
  }

  function Run(s: State, steps: seq<Step>): State
    requires Legal(s, steps)
    decreases |steps|
  {
    if steps == [] then s else Run(Apply(s, steps[0]), steps[1..])
  }

  /** The reply numbered `k` was read for this request's id on its connection, with this content. */
  predicate ReadFor(s: State, k: nat, q: Request, reply: Reply) {
    k < |s.read| && s.read[k] == Incoming(q.link, q.id, reply)
  }

  ghost predicate LinkOk(s: State, l: nat)
    requires l < |s.links|
  {
    var link := s.links[l];
    && link.version == (if link.closed.Some? then 1 else 0)
    && (link.cleared ==> link.closed.Some?)
    && forall id :: id in link.replies ==>
         && link.replies[id] < |s.requests|
         && s.requests[link.replies[id]].link == l && s.requests[link.replies[id]].id == id
         && s.requests[link.replies[id]].slot.Empty?
         && !s.requests[link.replies[id]].phase.Allocated? && !s.requests[link.replies[id]].phase.Finished?
  }

  ghost predicate OutcomeOk(s: State, r: nat, outcome: Outcome)
    requires r < |s.requests| && s.requests[r].link < |s.links|
  {
    match outcome
    case Replied(reply) => s.requests[r].slot == Full(reply)
    case Failed(error) => s.links[s.requests[r].link].closed == Some(error)
    case _ => true
  }

  ghost predicate RequestOk(s: State, r: nat)
    requires r < |s.requests|
  {
    var q := s.requests[r];
    && q.link < |s.links| && q.id < s.counter
    && (q.phase.Allocated? ==> q.slot.Empty?)
    && (q.slot.Dropped? ==> s.links[q.link].closed.Some?)
    && (q.slot.Full? ==> WasRead(s, r, q.slot.reply))
    && (q.phase.Waiting? ==> q.phase.seen == 0)
    && (Gone(q.phase) ==> OutcomeOk(s, r, q.phase.outcome))
    && (!q.phase.Allocated? && !Gone(q.phase) && q.slot.Empty? && !s.links[q.link].cleared ==>
          q.id in s.links[q.link].replies && s.links[q.link].replies[q.id] == r)
  }

  /** Some reply delivered to request `r` was read for it, with this content. */
  ghost predicate WasRead(s: State, r: nat, reply: Reply) {
    r < |s.requests| && exists k :: k in s.delivered && s.delivered[k] == r && ReadFor(s, k, s.requests[r], reply)
  }

  ghost predicate DeliveriesOk(s: State) {
    && (forall k :: k in s.delivered ==> k < |s.read| && s.delivered[k] < |s.requests|)
    && (forall k :: k in s.delivered ==>
          s.requests[s.delivered[k]].slot.Full? && ReadFor(s, k, s.requests[s.delivered[k]], s.read[k].reply))
    && (forall j, k :: j in s.delivered && k in s.delivered && j != k ==> s.delivered[j] != s.delivered[k])
  }

  ghost predicate Inv(s: State) {
    && (forall l :: 0 <= l < |s.links| ==> LinkOk(s, l))
    && (forall r :: 0 <= r < |s.requests| ==> RequestOk(s, r))
    && (forall q, r :: 0 <= q < r < |s.requests| ==> s.requests[q].id != s.requests[r].id)
    && DeliveriesOk(s)
  }

  lemma AllocateKeepsInv(s: State, link: nat)
    requires Inv(s) && link < |s.links|
    ensures Inv(Apply(s, Allocate(link)))
  {
    var t := Apply(s, Allocate(link));
    assert forall r :: 0 <= r < |s.requests| ==> t.requests[r] == s.requests[r];
    forall l | 0 <= l < |t.links| ensures LinkOk(t, l) { assert LinkOk(s, l); }
    forall r | 0 <= r < |t.requests| ensures RequestOk(t, r) {
      if r < |s.requests| { assert RequestOk(s, r); }
    }
    forall q, r | 0 <= q < r < |t.requests| ensures t.requests[q].id != t.requests[r].id {
      assert RequestOk(s, q);
    }
  }

  lemma OldDeliveryKept(s: State, incoming: Incoming, k: nat)
    requires Inv(s) && incoming.link < |s.links| && k in s.delivered
    ensures var t := Deliver(s, incoming);
            && k < |s.read| && k in t.delivered && t.delivered[k] == s.delivered[k] < |t.requests|
            && t.requests[t.delivered[k]] == s.requests[s.delivered[k]] && t.read[k] == s.read[k]
  {
    assert LinkOk(s, incoming.link);
  }

  lemma DispatchKeepsDeliveries(s: State, incoming: Incoming)
    requires Inv(s) && incoming.link < |s.links|
    ensures DeliveriesOk(Deliver(s, incoming))
  {
    var t := Deliver(s, incoming);
    assert LinkOk(s, incoming.link);
    forall k | k in s.delivered
      ensures k < |s.read| && k in t.delivered && t.delivered[k] == s.delivered[k] < |t.requests|
      ensures t.requests[t.delivered[k]] == s.requests[s.delivered[k]] && t.read[k] == s.read[k]
    {
      OldDeliveryKept(s, incoming, k);
    }
  }

  /** A requester moving on by itself, registered or leaving, disturbs no one. */
  lemma MoveKeepsInv(s: State, r: nat, phase: Phase)
    requires Inv(s) && r < |s.requests|
    requires !phase.Allocated? && !phase.Finished? && !s.requests[r].phase.Finished?
    requires s.requests[r].phase.Allocated? || Gone(s.requests[r].phase) ==> Gone(phase)
    requires phase.Waiting? ==> phase.seen == 0
    requires Gone(phase) ==> s.requests[r].link < |s.links| && OutcomeOk(s, r, phase.outcome)
    ensures Inv(SetPhase(s, r, phase))
  {
    var t := SetPhase(s, r, phase);
    forall l | 0 <= l < |t.links| ensures LinkOk(t, l) { assert LinkOk(s, l); }
    forall q | 0 <= q < |t.requests| ensures RequestOk(t, q) { assert RequestOk(s, q); }
  }

  lemma RegisterKeepsInv(s: State, r: nat)
    requires Inv(s) && Enabled(s, Register(r))
    ensures Inv(Apply(s, Register(r)))
  {
    var t := Apply(s, Register(r));
    assert RequestOk(s, r);
    forall l | 0 <= l < |t.links| ensures LinkOk(t, l) { assert LinkOk(s, l); }
    forall q | 0 <= q < |t.requests| ensures RequestOk(t, q) { assert RequestOk(s, q); }
  }

  lemma ReleaseKeepsInv(s: State, r: nat)
    requires Inv(s) && Enabled(s, Release(r))
    ensures Inv(Apply(s, Release(r)))
  {
    var t := Apply(s, Release(r));
    forall l | 0 <= l < |t.links| ensures LinkOk(t, l) { assert LinkOk(s, l); }
    forall q | 0 <= q < |t.requests| ensures RequestOk(t, q) { assert RequestOk(s, q); }
  }

  lemma DispatchKeepsRequest(s: State, incoming: Incoming, q: nat)
    requires Inv(s) && incoming.link < |s.links| && q < |s.requests|
    ensures RequestOk(Deliver(s, incoming), q)
  {
    var t := Deliver(s, incoming);
    assert RequestOk(s, q) && LinkOk(s, incoming.link);
    if s.requests[q].slot.Full? {
      var k :| k in s.delivered && s.delivered[k] == q && ReadFor(s, k, s.requests[q], s.requests[q].slot.reply);
      assert k in t.delivered && t.delivered[k] == q && ReadFor(t, k, t.requests[q], t.requests[q].slot.reply);
    } else if t.requests[q].slot.Full? {
      var k := |s.read|;
      assert k in t.delivered && t.delivered[k] == q && ReadFor(t, k, t.requests[q], t.requests[q].slot.reply);
    }
  }

  lemma DispatchKeepsLink(s: State, incoming: Incoming, l: nat)
    requires Inv(s) && incoming.link < |s.links| && l < |s.links|
    ensures LinkOk(Deliver(s, incoming), l)
  {
    assert LinkOk(s, l) && LinkOk(s, incoming.link);
  }

  lemma DispatchKeepsInv(s: State, incoming: Incoming)
    requires Inv(s) && incoming.link < |s.links|
    ensures Inv(Deliver(s, incoming))
  {
    var t := Deliver(s, incoming);
    DispatchKeepsDeliveries(s, incoming);
    forall l | 0 <= l < |t.links| ensures LinkOk(t, l) { DispatchKeepsLink(s, incoming, l); }
    forall q | 0 <= q < |t.requests| ensures RequestOk(t, q) { DispatchKeepsRequest(s, incoming, q); }
  }

  lemma FailKeepsInv(s: State, at: nat, error: Error)
    requires Inv(s) && at < |s.links|
    ensures Inv(Apply(s, Fail(at, error)))
  {
    var t := Apply(s, Fail(at, error));
    forall l | 0 <= l < |t.links| ensures LinkOk(t, l) { assert LinkOk(s, l); }
    forall q | 0 <= q < |t.requests| ensures RequestOk(t, q) { assert RequestOk(s, q); }
  }

  lemma ClearKeepsInv(s: State, at: nat)
    requires Inv(s) && Enabled(s, Clear(at))
    ensures Inv(Apply(s, Clear(at)))
  {
    var t := Apply(s, Clear(at));
    assert LinkOk(s, at);
    forall l | 0 <= l < |t.links| ensures LinkOk(t, l) { assert LinkOk(s, l); }
    forall q | 0 <= q < |t.requests| ensures RequestOk(t, q) { assert RequestOk(s, q); }
  }

  /** Every step of every requester, reader and failer keeps the invariant. */
  lemma StepKeepsInv(s: State, step: Step)
    requires Inv(s) && Enabled(s, step)
    ensures Inv(Apply(s, step))
  {
    match step
    case Connect =>
      forall l | 0 <= l < |s.links| ensures LinkOk(Apply(s, step), l) { assert LinkOk(s, l); }
      forall q | 0 <= q < |s.requests| ensures RequestOk(Apply(s, step), q) { assert RequestOk(s, q); }
    case Allocate(link) => AllocateKeepsInv(s, link);
    case Register(r) => RegisterKeepsInv(s, r);
    case Release(r) => ReleaseKeepsInv(s, r);
    case Dispatch(incoming) => DispatchKeepsInv(s, incoming);
    case Fail(at, error) => FailKeepsInv(s, at, error);
    case Clear(at) => ClearKeepsInv(s, at);
    case _ => OwnMoveKeepsInv(s, step);
  }

  lemma OwnMoveKeepsInv(s: State, step: Step)
    requires Inv(s) && Enabled(s, step)
    requires step.EncodingFails? || step.Send? || step.WritingFails? || step.StartWaiting? || step.TakeReply?
             || step.SeeClosed? || step.SeeDropped? || step.GiveUp?
    ensures Inv(Apply(s, step))
  {
    var r := step.r;
    assert RequestOk(s, r) && LinkOk(s, s.requests[r].link);
    MoveKeepsInv(s, r, Apply(s, step).requests[r].phase);
  }

  lemma {:induction false} RunKeepsInv(s: State, steps: seq<Step>)
    requires Inv(s) && Legal(s, steps)
    ensures Inv(Run(s, steps))
    decreases |steps|
  {
    if steps != [] {
      StepKeepsInv(s, steps[0]);
      RunKeepsInv(Apply(s, steps[0]), steps[1..]);
    }
  }

  predicate EndedWith(s: State, r: nat, outcome: Outcome) {
    r < |s.requests| && (s.requests[r].phase == Leaving(outcome) || s.requests[r].phase == Finished(outcome))
  }

  /**
   * A request ends with a reply only when that reply was read for its own id on its own connection, no
   * two requests share an id, no reply reaches two requests and no request gets two, and a request that
   * fails does so with the failure its connection recorded.
   */
  ghost predicate Correlated(s: State) {
    && (forall r: nat, reply :: EndedWith(s, r, Replied(reply)) ==> WasRead(s, r, reply))
    && (forall j, k :: j in s.delivered && k in s.delivered && j != k ==> s.delivered[j] != s.delivered[k])
    && (forall q, r :: 0 <= q < r < |s.requests| ==> s.requests[q].id != s.requests[r].id)
    && (forall r: nat, error :: EndedWith(s, r, Failed(error)) ==>
          s.requests[r].link < |s.links| && s.links[s.requests[r].link].closed == Some(error))
  }

  lemma InvCorrelates(s: State)
    requires Inv(s)
    ensures Correlated(s)
  {
    forall r: nat, reply | EndedWith(s, r, Replied(reply)) ensures WasRead(s, r, reply) {
      assert RequestOk(s, r) && s.requests[r].slot == Full(reply);
    }
    forall r: nat, error | EndedWith(s, r, Failed(error))
      ensures s.requests[r].link < |s.links| && s.links[s.requests[r].link].closed == Some(error)
    {
      assert RequestOk(s, r);
    }
  }

  /** Over every run of requesters, readers and failers, replies and failures reach whom they are for. */
  lemma Correlation(steps: seq<Step>)
    requires Legal(Init(), steps)
    ensures Correlated(Run(Init(), steps))
  {
    RunKeepsInv(Init(), steps);
    InvCorrelates(Run(Init(), steps));
  }

  /** A connection's failure, its id counter and every request's id and connection are never changed again. */
  ghost predicate Extends(s: State, t: State) {
    && s.counter <= t.counter && |s.links| <= |t.links| && |s.requests| <= |t.requests|
    && (forall l :: 0 <= l < |s.links| && s.links[l].closed.Some? ==> t.links[l].closed == s.links[l].closed)
    && (forall r :: 0 <= r < |s.requests| ==> t.requests[r].id == s.requests[r].id && t.requests[r].link == s.requests[r].link)
    && (forall r, o :: 0 <= r < |s.requests| && EndedWith(s, r, o) ==> EndedWith(t, r, o))
  }

  lemma DeliverExtends(s: State, incoming: Incoming)
    requires Inv(s) && incoming.link < |s.links|
    ensures Extends(s, Deliver(s, incoming))
  {}

  lemma StepExtends(s: State, step: Step)
    requires Inv(s) && Enabled(s, step)
    ensures Extends(s, Apply(s, step))
  {
    if step.Dispatch? {
      DeliverExtends(s, step.incoming);
    }
  }

  /** What is once decided stays: the first failure, the ids, and how each request ended. */
  lemma {:induction false} RunExtends(s: State, steps: seq<Step>)
    requires Inv(s) && Legal(s, steps)
    ensures Extends(s, Run(s, steps))
    decreases |steps|
  {
    if steps != [] {
      var t := Apply(s, steps[0]);
      StepKeepsInv(s, steps[0]);
      StepExtends(s, steps[0]);
      RunExtends(t, steps[1..]);
    }
  }

  /** How many of its own steps a request needs at most once its connection has failed. */
  function StepsLeft(phase: Phase): nat {
    match phase
    case Allocated => 4
    case Registered => 3
    case Sent => 3
    case Waiting(_) => 2
    case Leaving(_) => 1
    case Finished(_) => 0
  }

  /** The step a request can take by itself once its connection has failed. */
  function WayOut(s: State, r: nat): Step
    requires r < |s.requests| && !s.requests[r].phase.Finished?
  {
    match s.requests[r].phase
    case Allocated => Register(r)
    case Registered => Send(r)
    case Sent => StartWaiting(r)
    case Waiting(_) => SeeClosed(r)
    case Leaving(_) => Release(r)
  }

  /** Once its connection has failed no request is stuck: it can always go on by itself, towards its end. */
  lemma NeverStuck(s: State, r: nat)
    requires Inv(s) && r < |s.requests| && s.requests[r].link < |s.links|
    requires s.links[s.requests[r].link].closed.Some? && !s.requests[r].phase.Finished?
    ensures Enabled(s, WayOut(s, r))
    ensures var t := Apply(s, WayOut(s, r));
            && r < |t.requests| && StepsLeft(t.requests[r].phase) < StepsLeft(s.requests[r].phase)
            && t.links[s.requests[r].link].closed == s.links[s.requests[r].link].closed
  {
    assert RequestOk(s, r) && LinkOk(s, s.requests[r].link);
  }

  lemma WayOutOutcome(s: State, r: nat)
    requires Inv(s) && r < |s.requests| && s.requests[r].link < |s.links|
    requires s.links[s.requests[r].link].closed.Some? && !s.requests[r].phase.Finished?
    requires Enabled(s, WayOut(s, r))
    ensures var t, error := Apply(s, WayOut(s, r)), s.links[s.requests[r].link].closed.value;
            if Gone(s.requests[r].phase) then t.requests[r].phase == Finished(s.requests[r].phase.outcome)
            else Gone(t.requests[r].phase) ==> t.requests[r].phase == Leaving(Failed(error))
  {
    assert RequestOk(s, r) && LinkOk(s, s.requests[r].link);
  }

  /** So a run of at most four of its own steps ends it: as it was already leaving, or with the first failure recorded. */
  lemma {:induction false} EndsOnceClosed(s: State, r: nat) returns (steps: seq<Step>)
    requires Inv(s) && r < |s.requests| && s.requests[r].link < |s.links|
    requires s.links[s.requests[r].link].closed.Some?
    ensures |steps| <= StepsLeft(s.requests[r].phase) && Legal(s, steps)
    ensures r < |Run(s, steps).requests| && Run(s, steps).requests[r].phase.Finished?
    ensures Run(s, steps).requests[r].phase.outcome ==
            if Gone(s.requests[r].phase) then s.requests[r].phase.outcome
            else Failed(s.links[s.requests[r].link].closed.value)
    decreases StepsLeft(s.requests[r].phase)
  {
    if s.requests[r].phase.Finished? {
      steps := [];
    } else {
      var step := WayOut(s, r);
      NeverStuck(s, r);
      WayOutOutcome(s, r);
      StepKeepsInv(s, step);
      StepExtends(s, step);
      var rest := EndsOnceClosed(Apply(s, step), r);
      steps := [step] + rest;
      assert steps[1..] == rest;
    }
  }

  /** A request whose reply has come can still end with it, in two steps of its own, whether its connection has failed or not. */
  lemma EndsWithItsReply(s: State, r: nat) returns (steps: seq<Step>)
    requires Inv(s) && r < |s.requests| && s.requests[r].phase.Waiting? && s.requests[r].slot.Full?
    ensures |steps| == 2 && Legal(s, steps)
    ensures r < |Run(s, steps).requests| && Run(s, steps).requests[r].phase == Finished(Replied(s.requests[r].slot.reply))
  {
    assert RequestOk(s, r);
    var t := Apply(s, TakeReply(r));
    var rest := [Release(r)];
    steps := [TakeReply(r)] + rest;
    assert rest[1..] == [] && steps[1..] == rest;
    assert Run(t, rest) == Apply(t, Release(r));
  }

  /** A request waits for a reply: it is in the table, has none yet and has not ended. */
  predicate Awaits(s: State, r: nat) {
    && r < |s.requests| && s.requests[r].link < |s.links|
    && !s.requests[r].phase.Allocated? && !Gone(s.requests[r].phase) && s.requests[r].slot.Empty?
    && !s.links[s.requests[r].link].cleared
  }

  /** A reply read for a request that awaits it comes to that request, and changes no other. */
  lemma ReplyArrives(s: State, r: nat, reply: Reply)
    requires Inv(s) && Awaits(s, r)
    ensures var q := s.requests[r];
            var t := Apply(s, Dispatch(Incoming(q.link, q.id, reply)));
            && t.requests == s.requests[r := q.(slot := Full(reply))]
            && |s.read| in t.delivered && t.delivered[|s.read|] == r
            && t.links[q.link].closed == s.links[q.link].closed
  {
    assert RequestOk(s, r);
  }

  /** An open connection's request that has its reply goes on by itself to end with it. */
  lemma {:induction false} AnsweredEnds(s: State, r: nat) returns (steps: seq<Step>)
    requires Inv(s) && r < |s.requests| && s.requests[r].link < |s.links| && s.requests[r].slot.Full?
    requires !s.requests[r].phase.Allocated? && !Gone(s.requests[r].phase)
    requires s.links[s.requests[r].link].closed.None? || s.requests[r].phase.Waiting?
    ensures |steps| <= (match s.requests[r].phase case Registered => 4 case Sent => 3 case _ => 2) && Legal(s, steps)
    ensures r < |Run(s, steps).requests| && Run(s, steps).requests[r].phase == Finished(Replied(s.requests[r].slot.reply))
    decreases StepsLeft(s.requests[r].phase), if s.requests[r].phase.Registered? then 1 else 0
  {
    if s.requests[r].phase.Waiting? {
      steps := EndsWithItsReply(s, r);
    } else {
      var step := if s.requests[r].phase.Registered? then Send(r) else StartWaiting(r);
      StepKeepsInv(s, step);
      var rest := AnsweredEnds(Apply(s, step), r);
      steps := [step] + rest;
      assert steps[1..] == rest;
    }
  }

  /**
   * In every reachable state a request of an open connection that awaits its reply is answered by the
   * reading of it: the reply comes to it, and its own steps end it with that reply.
   */
  lemma AwaitedReplyAnswers(s: State, r: nat, reply: Reply) returns (own: seq<Step>)
    requires Inv(s) && Awaits(s, r) && s.links[s.requests[r].link].closed.None?
    ensures var read := Dispatch(Incoming(s.requests[r].link, s.requests[r].id, reply));
            && |own| <= 4 && Legal(s, [read] + own)
            && r < |Run(s, [read] + own).requests| && Run(s, [read] + own).requests[r].phase == Finished(Replied(reply))
  {
    var read := Dispatch(Incoming(s.requests[r].link, s.requests[r].id, reply));
    ReplyArrives(s, r, reply);
    StepKeepsInv(s, read);
    own := AnsweredEnds(Apply(s, read), r);
    assert ([read] + own)[1..] == own;
  }

  /** A request just allocated on an open connection comes to await its reply once it has registered. */
  lemma RegisteredAwaits(s: State, r: nat)
    requires Inv(s) && AtPhase(s, r, Allocated) && s.links[s.requests[r].link].closed.None?
    ensures Enabled(s, Register(r)) && Awaits(Apply(s, Register(r)), r)
    ensures Apply(s, Register(r)).links[s.requests[r].link].closed.None?
  {
    assert RequestOk(s, r) && LinkOk(s, s.requests[r].link);
  }

  /** A request that is over has left the table of its connection. */
  lemma NoLeak(steps: seq<Step>)
    requires Legal(Init(), steps)
    ensures var s := Run(Init(), steps);
            forall l, id :: 0 <= l < |s.links| && id in s.links[l].replies ==>
              var r := s.links[l].replies[id];
              r < |s.requests| && s.requests[r].id == id && !s.requests[r].phase.Finished?
  {
    RunKeepsInv(Init(), steps);
    var s := Run(Init(), steps);
    forall l, id | 0 <= l < |s.links| && id in s.links[l].replies
      ensures var r := s.links[l].replies[id]; r < |s.requests| && s.requests[r].id == id && !s.requests[r].phase.Finished?
    {
      assert LinkOk(s, l);
    }
  }
}
