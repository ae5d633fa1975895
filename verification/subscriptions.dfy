/**
 * Channel subscriptions (packages/core-go/ws/correlate.go): one reader routes messages into queues, one
 * consumer per stream empties its own, and a one-slot channel wakes it up. Steps interleave freely
 * between one lock or channel operation and the next.
 */
module Subscriptions {
  import opened Wrappers

  type Message = string

  /** Where a consumer is: about to pop, now or in its next call, or in the select. */
  datatype Consumer = Looking | Blocked

  /** A subscription's queue, with all that was ever routed to it and all it ever yielded. */
  datatype Queue = Queue(
    channel: string,
    since: nat,
    items: seq<Message>,
    signal: bool,
    consumer: Consumer,
    routed: seq<Message>,
    yielded: seq<Message>)

  /** Where the reader is: between messages, about to append one, or about to signal. */
  datatype Reader = Idle | Appending(q: nat, message: Message) | Signalling(q: nat)

  /** A message read, the local channel it belongs to, and the queue it went to. */
  datatype Entry = Entry(local: string, message: Message, target: Option<nat>)

  datatype State = State(
    subs: map<string, nat>,
    keys: map<string, Message -> string>,
    queues: seq<Queue>,
    reader: Reader,
    log: seq<Entry>)

  datatype Step =
    | Subscribe(channel: string, requestChannel: string, key: Option<Message -> string>)
    | Dispatch(channel: string, message: Message)
    | Append
    | Signal
    | Look(q: nat)
    | WakeUp(q: nat)
    | SeeClosed(q: nat)
    | SeeDone(q: nat)
    | Cancel(q: nat)
    | Drop(q: nat)

  function Init(): State { State(map[], map[], [], Idle, []) }

  function Local(s: State, channel: string, message: Message): string {
    if channel in s.keys then s.keys[channel](message) else channel
  }

  predicate ConsumerIs(s: State, q: nat, c: Consumer) { q < |s.queues| && s.queues[q].consumer == c }

  predicate Enabled(s: State, step: Step) {
    match step
    case Subscribe(_, _, _) => true
    case Dispatch(_, _) => s.reader.Idle?
    case Append => s.reader.Appending? && s.reader.q < |s.queues|
    case Signal => s.reader.Signalling? && s.reader.q < |s.queues|
    case Look(q) => ConsumerIs(s, q, Looking)
    case WakeUp(q) => ConsumerIs(s, q, Blocked) && s.queues[q].signal
    case SeeClosed(q) => ConsumerIs(s, q, Blocked)
    case SeeDone(q) => ConsumerIs(s, q, Blocked)
    case Cancel(q) => ConsumerIs(s, q, Blocked)
    case Drop(q) => q < |s.queues|
  }

  function SetQueue(s: State, q: nat, queue: Queue): State
    requires q < |s.queues|
  {
    s.(queues := s.queues[q := queue])
  }

  /** Take a channel's queue out, unless a newer subscription took its place. */
  function Dropped(s: State, q: nat): State
    requires q < |s.queues|
  {
    var channel := s.queues[q].channel;
    if channel in s.subs && s.subs[channel] == q then s.(subs := s.subs - {channel}) else s
  }

  function Popped(queue: Queue): Queue
    requires queue.items != []
  {
    queue.(items := queue.items[1..], yielded := queue.yielded + [queue.items[0]], consumer := Looking)
  }

  function Apply(s: State, step: Step): State
    requires Enabled(s, step)
  {
    match step
    case Subscribe(channel, requestChannel, key) =>
      if channel in s.subs then s
      else
        s.(subs := s.subs[channel := |s.queues|],
           keys := if key.Some? then s.keys[requestChannel := key.value] else s.keys,
           queues := s.queues + [Queue(channel, |s.log|, [], false, Looking, [], [])])
    case Dispatch(channel, message) =>
      var local := Local(s, channel, message);
      if local !in s.subs then s.(log := s.log + [Entry(local, message, None)])
      else
        var q := s.subs[local];
        var t := s.(log := s.log + [Entry(local, message, Some(q))], reader := Appending(q, message));
        if q < |s.queues| then SetQueue(t, q, t.queues[q].(routed := t.queues[q].routed + [message])) else t
    case Append =>
      var q := s.reader.q;
      SetQueue(s, q, s.queues[q].(items := s.queues[q].items + [s.reader.message])).(reader := Signalling(q))
    case Signal =>
      var q := s.reader.q;
      SetQueue(s, q, s.queues[q].(signal := true)).(reader := Idle)
    case Look(q) =>
      SetQueue(s, q, if s.queues[q].items != [] then Popped(s.queues[q]) else s.queues[q].(consumer := Blocked))
    case WakeUp(q) => SetQueue(s, q, s.queues[q].(signal := false, consumer := Looking))
    case SeeClosed(q) =>
      if s.queues[q].items != [] then SetQueue(s, q, Popped(s.queues[q]))
      else Dropped(SetQueue(s, q, s.queues[q].(consumer := Looking)), q)
    case SeeDone(q) => SetQueue(s, q, s.queues[q].(consumer := Looking))
    case Cancel(q) => SetQueue(s, q, s.queues[q].(consumer := Looking))
    case Drop(q) => Dropped(s, q)
  }

  predicate Legal(s: State, steps: seq<Step>)
    decreases |steps|
  {
    steps == [] || (Enabled(s, steps[0]) && Legal(Apply(s, steps[0]), steps[1..]))
  }

  function Run(s: State, steps: seq<Step>): State
    requires Legal(s, steps)
    decreases |steps|
  {
    if steps == [] then s else Run(Apply(s, steps[0]), steps[1..])
  }

  /** The messages of the log that went to queue `q`, in order. */
  function SentTo(log: seq<Entry>, q: nat): seq<Message> {
    if log == [] then []
    else
      var before := SentTo(log[..|log| - 1], q);
      if log[|log| - 1].target == Some(q) then before + [log[|log| - 1].message] else before
  }

  /** The messages of the log that belong to a local channel, in order. */
  function Belonging(log: seq<Entry>, local: string): seq<Message> {
    if log == [] then []
    else
      var before := Belonging(log[..|log| - 1], local);
      if log[|log| - 1].local == local then before + [log[|log| - 1].message] else before
  }

  function InFlight(s: State, q: nat): seq<Message> {
    if s.reader.Appending? && s.reader.q == q then [s.reader.message] else []
  }

  ghost predicate QueueOk(s: State, q: nat)
    requires q < |s.queues|
  {
    var u := s.queues[q];
    && u.since <= |s.log|
    && u.yielded + u.items + InFlight(s, q) == u.routed
    && u.routed == SentTo(s.log, q)
    && (u.consumer.Blocked? && u.items != [] ==> u.signal || s.reader == Signalling(q))
    && (u.channel in s.subs && s.subs[u.channel] == q ==> u.routed == Belonging(s.log[u.since..], u.channel))
  }

  ghost predicate Inv(s: State) {
    && (forall q :: 0 <= q < |s.queues| ==> QueueOk(s, q))
    && (forall c :: c in s.subs ==> s.subs[c] < |s.queues| && s.queues[s.subs[c]].channel == c)
    && (!s.reader.Idle? ==> s.reader.q < |s.queues|)
    && (forall i :: 0 <= i < |s.log| && s.log[i].target.Some? ==> s.log[i].target.value < |s.queues|)
  }

  lemma {:induction false} NothingSent(log: seq<Entry>, q: nat)
    requires forall i :: 0 <= i < |log| ==> log[i].target != Some(q)
    ensures SentTo(log, q) == []
  {
    if log != [] { NothingSent(log[..|log| - 1], q); }
  }

  lemma SubscribeKeepsInv(s: State, channel: string, requestChannel: string, key: Option<Message -> string>)
    requires Inv(s)
    ensures Inv(Apply(s, Subscribe(channel, requestChannel, key)))
  {
    var t := Apply(s, Subscribe(channel, requestChannel, key));
    if channel !in s.subs {
      var n := |s.queues|;
      NothingSent(s.log, n);
      assert s.log[|s.log|..] == [];
      forall q | 0 <= q < |t.queues| ensures QueueOk(t, q) {
        if q < n { assert QueueOk(s, q) && t.queues[q] == s.queues[q]; }
      }
    }
  }

  lemma DispatchKeepsQueue(s: State, channel: string, message: Message, q: nat)
    requires Inv(s) && s.reader.Idle? && q < |s.queues|
    ensures QueueOk(Apply(s, Dispatch(channel, message)), q)
  {
    var t := Apply(s, Dispatch(channel, message));
    var entry := t.log[|s.log|];
    var u := s.queues[q];
    assert QueueOk(s, q);
    assert t.log[..|t.log| - 1] == s.log;
    assert t.log[u.since..][..|t.log[u.since..]| - 1] == s.log[u.since..];
    assert u.yielded + u.items + [message] == (u.yielded + u.items + []) + [message];
  }

  lemma DispatchKeepsInv(s: State, channel: string, message: Message)
    requires Inv(s) && s.reader.Idle?
    ensures Inv(Apply(s, Dispatch(channel, message)))
  {
    var t := Apply(s, Dispatch(channel, message));
    forall q | 0 <= q < |t.queues| ensures QueueOk(t, q) { DispatchKeepsQueue(s, channel, message, q); }
  }

  lemma AppendKeepsQueue(s: State, q: nat)
    requires Inv(s) && Enabled(s, Append) && q < |s.queues|
    ensures QueueOk(Apply(s, Append), q)
  {
    assert QueueOk(s, q);
    var u, m := s.queues[q], s.reader.message;
    assert u.yielded + (u.items + [m]) + [] == u.yielded + u.items + [m];
  }

  lemma PoppedKeepsBooks(u: Queue)
    requires u.items != []
    ensures Popped(u).yielded + Popped(u).items == u.yielded + u.items
  {}

  /** A consumer's own step, or a drop, moves messages along and leaves the records alone. */
  lemma SameBooks(s: State, step: Step, q: nat)
    requires Enabled(s, step) && q < |s.queues| && !step.Subscribe? && !step.Dispatch? && !step.Append?
    ensures var t := Apply(s, step);
            && |t.queues| == |s.queues| && t.log == s.log && InFlight(t, q) == InFlight(s, q)
            && t.queues[q].channel == s.queues[q].channel && t.queues[q].since == s.queues[q].since
            && t.queues[q].routed == s.queues[q].routed
            && t.queues[q].yielded + t.queues[q].items == s.queues[q].yielded + s.queues[q].items
            && (forall c :: c in t.subs ==> c in s.subs && t.subs[c] == s.subs[c])
  {
    if s.queues[q].items != [] { PoppedKeepsBooks(s.queues[q]); }
  }

  lemma WakeUpsKept(s: State, step: Step, q: nat)
    requires Inv(s) && Enabled(s, step) && q < |s.queues| && !step.Subscribe? && !step.Dispatch? && !step.Append?
    ensures var t := Apply(s, step);
            && q < |t.queues|
            && (t.queues[q].consumer.Blocked? && t.queues[q].items != [] ==> t.queues[q].signal || t.reader == Signalling(q))
  {
    assert QueueOk(s, q);
  }

  /** The reader's and the consumers' own steps keep every queue's books. */
  lemma StepKeepsQueue(s: State, step: Step, q: nat)
    requires Inv(s) && Enabled(s, step) && q < |s.queues| && !step.Subscribe? && !step.Dispatch?
    ensures q < |Apply(s, step).queues| && QueueOk(Apply(s, step), q)
  {
    if step.Append? {
      AppendKeepsQueue(s, q);
    } else {
      assert QueueOk(s, q);
      SameBooks(s, step, q);
      WakeUpsKept(s, step, q);
      BooksBalance(s, Apply(s, step), q);
    }
  }

  lemma BooksBalance(s: State, t: State, q: nat)
    requires q < |s.queues| == |t.queues| && QueueOk(s, q)
    requires t.log == s.log && InFlight(t, q) == InFlight(s, q)
    requires t.queues[q].channel == s.queues[q].channel && t.queues[q].since == s.queues[q].since
    requires t.queues[q].routed == s.queues[q].routed
    requires t.queues[q].yielded + t.queues[q].items == s.queues[q].yielded + s.queues[q].items
    requires forall c :: c in t.subs ==> c in s.subs && t.subs[c] == s.subs[c]
    requires t.queues[q].consumer.Blocked? && t.queues[q].items != [] ==> t.queues[q].signal || t.reader == Signalling(q)
    ensures QueueOk(t, q)
  {}

  lemma StepKeepsInv(s: State, step: Step)
    requires Inv(s) && Enabled(s, step)
    ensures Inv(Apply(s, step))
  {
    match step
    case Subscribe(channel, requestChannel, key) => SubscribeKeepsInv(s, channel, requestChannel, key);
    case Dispatch(channel, message) => DispatchKeepsInv(s, channel, message);
    case _ =>
      var t := Apply(s, step);
      forall q | 0 <= q < |t.queues| ensures QueueOk(t, q) { StepKeepsQueue(s, step, q); }
  }

  lemma {:induction false} RunKeepsInv(s: State, steps: seq<Step>)
    requires Inv(s) && Legal(s, steps)
    ensures Inv(Run(s, steps))
    decreases |steps|
  {
    if steps != [] {
      StepKeepsInv(s, steps[0]);
      RunKeepsInv(Apply(s, steps[0]), steps[1..]);
    }
  }

  predicate IsPrefix(a: seq<Message>, b: seq<Message>) {
    |a| <= |b| && a == b[..|a|]
  }

  /**
   * Over every run, a stream has yielded, in order, a prefix of what was routed to it; as long as its
   * subscription stands that is everything its channel got since it registered.
   */
  lemma YieldsPrefix(steps: seq<Step>, q: nat)
    requires Legal(Init(), steps) && q < |Run(Init(), steps).queues|
    ensures var s := Run(Init(), steps);
            var u := s.queues[q];
            && IsPrefix(u.yielded, SentTo(s.log, q))
            && (u.channel in s.subs && s.subs[u.channel] == q ==>
                  u.since <= |s.log| && IsPrefix(u.yielded, Belonging(s.log[u.since..], u.channel)))
  {
    RunKeepsInv(Init(), steps);
    var s := Run(Init(), steps);
    assert QueueOk(s, q);
    var u := s.queues[q];
    assert u.routed == u.yielded + (u.items + InFlight(s, q));
  }

  /** In no reachable state is a consumer blocked on a non-empty queue with no wake-up present or on its way. */
  lemma NoMissedWakeUp(steps: seq<Step>, q: nat)
    requires Legal(Init(), steps)
    requires ConsumerIs(Run(Init(), steps), q, Blocked) && Run(Init(), steps).queues[q].items != []
    ensures var s := Run(Init(), steps);
            Enabled(s, WakeUp(q)) || (Enabled(s, Signal) && Enabled(Apply(s, Signal), WakeUp(q)))
  {
    RunKeepsInv(Init(), steps);
    assert QueueOk(Run(Init(), steps), q);
  }

  /** A drop, however late, takes out its own subscription and no other. */
  lemma LateDropSparesNewer(s: State, q: nat, channel: string)
    requires Inv(s) && q < |s.queues|
    ensures var t := Apply(s, Drop(q));
            if channel in s.subs && s.subs[channel] == q then channel !in t.subs
            else (channel in t.subs <==> channel in s.subs) && (channel in s.subs ==> t.subs[channel] == s.subs[channel])
  {}

  // ---- Messages arrive ----

  /** The local channel a message pushed on a channel is for: what the channel's key says, else the channel itself. */
  predicate IsFor(s: State, channel: string, message: Message, local: string) {
    (channel in s.keys ==> local == s.keys[channel](message)) && (channel !in s.keys ==> local == channel)
  }

  lemma FirstThen(s: State, step: Step, rest: seq<Step>)
    requires Enabled(s, step) && Legal(Apply(s, step), rest)
    ensures Legal(s, [step] + rest) && Run(s, [step] + rest) == Run(Apply(s, step), rest)
  {
    assert ([step] + rest)[1..] == rest;
  }

  lemma RunsOne(s: State, a: Step)
    requires Enabled(s, a)
    ensures Legal(s, [a]) && Run(s, [a]) == Apply(s, a)
  {
    FirstThen(s, a, []);
    assert [a] + [] == [a];
  }

  lemma RunsTwo(s: State, a: Step, b: Step)
    requires Enabled(s, a) && Enabled(Apply(s, a), b)
    ensures Legal(s, [a, b]) && Run(s, [a, b]) == Apply(Apply(s, a), b)
  {
    RunsOne(Apply(s, a), b);
    FirstThen(s, a, [b]);
    assert [a] + [b] == [a, b];
  }

  lemma RunsThree(s: State, a: Step, b: Step, c: Step)
    requires Enabled(s, a) && Enabled(Apply(s, a), b) && Enabled(Apply(Apply(s, a), b), c)
    ensures Legal(s, [a, b, c]) && Run(s, [a, b, c]) == Apply(Apply(Apply(s, a), b), c)
  {
    RunsTwo(Apply(s, a), b, c);
    FirstThen(s, a, [b, c]);
    assert [a] + [b, c] == [a, b, c];
  }

  /** A message is put into the queue subscribed under the channel it is for, behind all it holds, and into no other. */
  lemma MessageArrives(s: State, channel: string, message: Message, local: string)
    requires Inv(s) && s.reader.Idle? && IsFor(s, channel, message, local) && local in s.subs
    ensures var steps := [Dispatch(channel, message), Append, Signal];
            && Legal(s, steps)
            && var t, q := Run(s, steps), s.subs[local];
               && q < |s.queues| == |t.queues| && t.reader.Idle?
               && t.queues[q].items == s.queues[q].items + [message] && t.queues[q].signal
               && t.queues[q].yielded == s.queues[q].yielded && t.queues[q].consumer == s.queues[q].consumer
               && forall p :: 0 <= p < |s.queues| && p != q ==> t.queues[p] == s.queues[p]
  {
    RunsThree(s, Dispatch(channel, message), Append, Signal);
  }

  /** A channel's key, once given with a subscription, is the one its messages go by. */
  lemma KeyIsKept(s: State, channel: string, requestChannel: string, key: Message -> string, message: Message)
    requires channel !in s.subs
    ensures var t := Apply(s, Subscribe(channel, requestChannel, Some(key)));
            && channel in t.subs && t.subs[channel] == |s.queues|
            && (IsFor(t, requestChannel, message, channel) <==> key(message) == channel)
  {}

  /** A consumer of a queue that holds something comes to yield its first item within three steps. */
  lemma FirstIsYielded(s: State, q: nat) returns (steps: seq<Step>)
    requires Inv(s) && q < |s.queues| && s.queues[q].items != []
    ensures |steps| <= 3 && Legal(s, steps)
    ensures var t := Run(s, steps);
            && q < |t.queues|
            && t.queues[q].yielded == s.queues[q].yielded + [s.queues[q].items[0]]
            && t.queues[q].items == s.queues[q].items[1..]
  {
    assert QueueOk(s, q);
    if s.queues[q].consumer.Looking? {
      steps := [Look(q)];
      RunsOne(s, Look(q));
    } else if s.queues[q].signal {
      steps := [WakeUp(q), Look(q)];
      RunsTwo(s, WakeUp(q), Look(q));
    } else {
      steps := [Signal, WakeUp(q), Look(q)];
      RunsThree(s, Signal, WakeUp(q), Look(q));
    }
  }
}
