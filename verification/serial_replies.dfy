/**
 * Replies with no id, matched by arrival alone (`Serial` in packages/core-go/ws/correlate.go): requests
 * take a lock in turn, send, and wait for the next reply pushed.
 */
module SerialReplies {
  import opened Wrappers

  type Reply = string

  /** A request: waiting for the lock, holding it unsent, about to look, in the wait, or over. */
  datatype Phase = Waiting | Opening | Looking | Blocked | Answered(reply: Reply) | Refused | Abandoned

  /**
   * The lock, the requests, the replies not yet taken and the one-slot signal; then every reply pushed,
   * how many pushes have yet to signal, who sent, and who was answered with what.
   */
  datatype State = State(
    holder: Option<nat>,
    requests: seq<Phase>,
    replies: seq<Reply>,
    signal: bool,
    pushed: seq<Reply>,
    unsignalled: nat,
    sent: seq<nat>,
    answers: seq<(nat, Reply)>)

  datatype Step =
    | Arrive
    | Lock(r: nat)
    | Refuse(r: nat)
    | Send(r: nat)
    | Look(r: nat)
    | WakeUp(r: nat)
    | Abandon(r: nat)
    | Push(reply: Reply)
    | Signal

  function Init(): State { State(None, [], [], false, [], 0, [], []) }

  predicate At(s: State, r: nat, phase: Phase) { r < |s.requests| && s.requests[r] == phase }

  predicate Enabled(s: State, step: Step) {
    match step
    case Arrive => true
    case Lock(r) => At(s, r, Waiting) && s.holder.None?
    case Refuse(r) => At(s, r, Opening)
    case Send(r) => At(s, r, Opening)
    case Look(r) => At(s, r, Looking)
    case WakeUp(r) => At(s, r, Blocked) && s.signal
    case Abandon(r) => At(s, r, Blocked)
    case Push(_) => true
    case Signal => s.unsignalled > 0
  }

  function To(s: State, r: nat, phase: Phase): State
    requires r < |s.requests|
  {
    s.(requests := s.requests[r := phase])
  }

  function Apply(s: State, step: Step): State
    requires Enabled(s, step)
  {
    match step
    case Arrive => s.(requests := s.requests + [Waiting])
    case Lock(r) => To(s, r, Opening).(holder := Some(r))
    case Refuse(r) => To(s, r, Refused).(holder := None)
    case Send(r) => To(s, r, Looking).(sent := s.sent + [r])
    case Look(r) =>
      if s.replies == [] then To(s, r, Blocked)
      else
        To(s, r, Answered(s.replies[0])).(
          holder := None, replies := s.replies[1..], answers := s.answers + [(r, s.replies[0])])
    case WakeUp(r) => To(s, r, Looking).(signal := false)
    case Abandon(r) => To(s, r, Abandoned).(holder := None)
    case Push(reply) => s.(replies := s.replies + [reply], pushed := s.pushed + [reply], unsignalled := s.unsignalled + 1)
    case Signal => s.(signal := true, unsignalled := s.unsignalled - 1)
  }

  predicate Legal(s: State, steps: seq<Step>)
    decreases |steps|
  {
    steps == [] || (Enabled(s, steps[0]) && Legal(Apply(s, steps[0]), steps[1..]))
  }

  function Run(s: State, steps: seq<Step>): State
    requires Legal(s, steps)
    decreases |steps|
  {
    if steps == [] then s else Run(Apply(s, steps[0]), steps[1..])
  }

  predicate Active(phase: Phase) { phase.Opening? || phase.Looking? || phase.Blocked? }

  /** Whether the holder has sent and not been answered yet. */
  predicate OneOutstanding(s: State) {
    s.holder.Some? && s.holder.value < |s.requests| && !s.requests[s.holder.value].Opening?
  }

  predicate Kept(requests: seq<Phase>, r: nat) { r < |requests| && !requests[r].Abandoned? }

  /** The requests sent and not abandoned, in the order they were sent. */
  function KeptOf(requests: seq<Phase>, sent: seq<nat>): (kept: seq<nat>)
    ensures |kept| <= |sent|
  {
    if sent == [] then []
    else
      var before, last := KeptOf(requests, sent[..|sent| - 1]), sent[|sent| - 1];
      if Kept(requests, last) then before + [last] else before
  }

  /** The requests sent and not waited for any more. */
  function Done(s: State): seq<nat> {
    if OneOutstanding(s) && s.sent != [] then s.sent[..|s.sent| - 1] else s.sent
  }

  /** Who sent: each once, none still to send, and the one outstanding last. */
  ghost predicate SentOk(s: State) {
    && (forall i :: 0 <= i < |s.sent| ==>
          s.sent[i] < |s.requests| && !s.requests[s.sent[i]].Waiting? && !s.requests[s.sent[i]].Opening?)
    && (forall i, j :: 0 <= i < j < |s.sent| ==> s.sent[i] != s.sent[j])
    && (OneOutstanding(s) ==> s.sent != [] && s.sent[|s.sent| - 1] == s.holder.value)
  }

  /** The k-th of those kept has been answered with the k-th reply. */
  ghost predicate AnsweredInOrder(s: State) {
    && |s.answers| == |KeptOf(s.requests, Done(s))|
    && |s.answers| <= |s.pushed|
    && forall k :: 0 <= k < |s.answers| ==> s.answers[k] == (KeptOf(s.requests, Done(s))[k], s.pushed[k])
  }

  ghost predicate Inv(s: State) {
    && (forall r :: 0 <= r < |s.requests| ==> (Active(s.requests[r]) <==> s.holder == Some(r)))
    && (s.holder.Some? ==> s.holder.value < |s.requests|)
    && SentOk(s) && AnsweredInOrder(s)
    && s.replies == s.pushed[|s.answers|..]
    && (forall r :: 0 <= r < |s.requests| && s.requests[r].Blocked? && s.replies != [] ==> s.signal || s.unsignalled > 0)
  }

  lemma {:induction false} KeptSame(before: seq<Phase>, after: seq<Phase>, sent: seq<nat>)
    requires forall i :: 0 <= i < |sent| ==> (Kept(before, sent[i]) <==> Kept(after, sent[i]))
    ensures KeptOf(before, sent) == KeptOf(after, sent)
  {
    if sent != [] { KeptSame(before, after, sent[..|sent| - 1]); }
  }

  lemma SendKeepsInv(s: State, r: nat)
    requires Inv(s) && Enabled(s, Send(r))
    ensures Inv(Apply(s, Send(r)))
  {
    var t := Apply(s, Send(r));
    assert t.sent[..|t.sent| - 1] == s.sent;
    KeptSame(s.requests, t.requests, s.sent);
  }

  lemma LookKeepsInv(s: State, r: nat)
    requires Inv(s) && Enabled(s, Look(r))
    ensures Inv(Apply(s, Look(r)))
  {
    var t := Apply(s, Look(r));
    assert s.requests[r] == Looking && s.holder == Some(r) && OneOutstanding(s);
    if s.replies == [] {
      assert OneOutstanding(t) && Done(t) == Done(s);
      KeptSame(s.requests, t.requests, Done(s));
    } else {
      AnswerKeepsOrder(s, r);
    }
  }

  lemma AnswerKeepsOrder(s: State, r: nat)
    requires Inv(s) && Enabled(s, Look(r)) && s.replies != []
    ensures SentOk(Apply(s, Look(r))) && AnsweredInOrder(Apply(s, Look(r)))
  {
    var t := Apply(s, Look(r));
    KeptSame(s.requests, t.requests, Done(s));
    assert Done(t) == s.sent && s.sent[|s.sent| - 1] == r;
    assert KeptOf(t.requests, s.sent) == KeptOf(t.requests, Done(s)) + [r];
    assert s.replies[0] == s.pushed[|s.answers|];
  }

  lemma AbandonKeepsInv(s: State, r: nat)
    requires Inv(s) && Enabled(s, Abandon(r))
    ensures Inv(Apply(s, Abandon(r)))
  {
    var t := Apply(s, Abandon(r));
    assert OneOutstanding(s) && Done(t) == s.sent;
    KeptSame(s.requests, t.requests, Done(s));
  }

  /** The steps that leave who has sent, who is outstanding and who was answered as they were. */
  predicate Bystander(step: Step) { step.Arrive? || step.Lock? || step.Refuse? || step.WakeUp? }

  lemma SameSent(s: State, step: Step)
    requires Inv(s) && Enabled(s, step) && Bystander(step)
    ensures var t := Apply(s, step);
            SentOk(t) && OneOutstanding(s) == OneOutstanding(t) && Done(t) == Done(s)
  {
    var t := Apply(s, step);
    assert step.Lock? || step.Refuse? ==> !OneOutstanding(s) && !OneOutstanding(t);
  }

  lemma BystanderKeepsInv(s: State, step: Step)
    requires Inv(s) && Enabled(s, step) && Bystander(step)
    ensures Inv(Apply(s, step))
  {
    var t := Apply(s, step);
    SameSent(s, step);
    forall i | 0 <= i < |Done(s)| ensures Kept(s.requests, Done(s)[i]) <==> Kept(t.requests, Done(s)[i]) {
      assert Done(s)[i] == s.sent[i];
    }
    KeptSame(s.requests, t.requests, Done(s));
  }

  lemma PushKeepsInv(s: State, reply: Reply)
    requires Inv(s)
    ensures Inv(Apply(s, Push(reply)))
  {
    var t := Apply(s, Push(reply));
    assert Done(t) == Done(s);
    RestGrows(s.pushed, |s.answers|, reply);
  }

  lemma RestGrows(pushed: seq<Reply>, n: nat, reply: Reply)
    requires n <= |pushed|
    ensures (pushed + [reply])[n..] == pushed[n..] + [reply]
  {}

  lemma SignalKeepsInv(s: State)
    requires Inv(s) && Enabled(s, Signal)
    ensures Inv(Apply(s, Signal))
  {}

  lemma StepKeepsInv(s: State, step: Step)
    requires Inv(s) && Enabled(s, step)
    ensures Inv(Apply(s, step))
  {
    match step
    case Send(r) => SendKeepsInv(s, r);
    case Look(r) => LookKeepsInv(s, r);
    case Abandon(r) => AbandonKeepsInv(s, r);
    case Push(reply) => PushKeepsInv(s, reply);
    case Signal => SignalKeepsInv(s);
    case _ => BystanderKeepsInv(s, step);
  }

  lemma {:induction false} RunKeepsInv(s: State, steps: seq<Step>)
    requires Inv(s) && Legal(s, steps)
    ensures Inv(Run(s, steps))
    decreases |steps|
  {
    if steps != [] {
      StepKeepsInv(s, steps[0]);
      RunKeepsInv(Apply(s, steps[0]), steps[1..]);
    }
  }

  lemma {:induction false} KeptSplits(requests: seq<Phase>, a: seq<nat>, b: seq<nat>)
    ensures KeptOf(requests, a + b) == KeptOf(requests, a) + KeptOf(requests, b)
  {
    if b == [] {
      assert a + b == a;
    } else {
      assert (a + b)[..|a + b| - 1] == a + b[..|b| - 1];
      KeptSplits(requests, a, b[..|b| - 1]);
    }
  }

  /** How many of the first `k` requests sent were abandoned. */
  function AbandonedBefore(s: State, k: nat): nat
    requires k <= |s.sent|
  {
    k - |KeptOf(s.requests, s.sent[..k])|
  }

  lemma {:induction false} AllKept(requests: seq<Phase>, sent: seq<nat>)
    ensures |KeptOf(requests, sent)| == |sent| <==> forall i :: 0 <= i < |sent| ==> Kept(requests, sent[i])
    ensures forall r :: r in KeptOf(requests, sent) ==> r in sent && Kept(requests, r)
  {
    if sent != [] {
      var init := sent[..|sent| - 1];
      AllKept(requests, init);
      assert sent == init + [sent[|sent| - 1]];
    }
  }

  /** Over every run, whoever is abandoned: the k-th request sent and kept gets the k-th reply pushed. */
  lemma KthReplyToKthKept(steps: seq<Step>)
    requires Legal(Init(), steps)
    ensures var s := Run(Init(), steps);
            var kept := KeptOf(s.requests, s.sent);
            && |s.answers| <= |kept| <= |s.answers| + 1 && |s.answers| <= |s.pushed|
            && forall k :: 0 <= k < |s.answers| ==> s.answers[k] == (kept[k], s.pushed[k])
  {
    RunKeepsInv(Init(), steps);
    var s := Run(Init(), steps);
    KeptSplits(s.requests, Done(s), s.sent[|Done(s)|..]);
    assert s.sent == Done(s) + s.sent[|Done(s)|..];
  }

  lemma {:induction false} KeptPlace(requests: seq<Phase>, sent: seq<nat>, k: nat, i: nat)
    requires k < |sent| && i < |KeptOf(requests, sent)| && KeptOf(requests, sent)[i] == sent[k]
    requires forall a, b :: 0 <= a < b < |sent| ==> sent[a] != sent[b]
    ensures i == |KeptOf(requests, sent[..k])|
  {
    var init, last := sent[..|sent| - 1], sent[|sent| - 1];
    AllKept(requests, init);
    assert KeptOf(requests, sent) == if Kept(requests, last) then KeptOf(requests, init) + [last] else KeptOf(requests, init);
    if i < |KeptOf(requests, init)| {
      assert KeptOf(requests, init)[i] in KeptOf(requests, init);
      var j :| 0 <= j < |init| && init[j] == sent[k];
      assert sent[j] == sent[k] && init[..k] == sent[..k];
      KeptPlace(requests, init, k, i);
    } else {
      assert last == sent[k] && init == sent[..k];
    }
  }

  lemma OwnPlace(s: State, k: nat, i: nat)
    requires SentOk(s) && k < |s.sent| && i < |KeptOf(s.requests, s.sent)| && KeptOf(s.requests, s.sent)[i] == s.sent[k]
    ensures i == k - AbandonedBefore(s, k)
    ensures i == k <==> forall j :: 0 <= j < k ==> !At(s, s.sent[j], Abandoned)
  {
    var before := s.sent[..k];
    KeptPlace(s.requests, s.sent, k, i);
    AllKept(s.requests, before);
    assert forall j :: 0 <= j < k ==> before[j] == s.sent[j];
  }

  /**
   * A request's reply comes as many places early as requests sent before it were abandoned: it is the
   * reply at its own place exactly when none of them was.
   */
  lemma OwnReplyExactly(steps: seq<Step>, k: nat, i: nat)
    requires Legal(Init(), steps)
    requires k < |Run(Init(), steps).sent| && i < |Run(Init(), steps).answers|
    requires Run(Init(), steps).answers[i].0 == Run(Init(), steps).sent[k]
    ensures var s := Run(Init(), steps);
            && i < |s.pushed| && s.answers[i].1 == s.pushed[i]
            && i == k - AbandonedBefore(s, k)
            && (i == k <==> forall j :: 0 <= j < k ==> !At(s, s.sent[j], Abandoned))
  {
    KthReplyToKthKept(steps);
    RunKeepsInv(Init(), steps);
    OwnPlace(Run(Init(), steps), k, i);
  }

  lemma Prepend(s: State, step: Step, rest: seq<Step>) returns (steps: seq<Step>)
    requires Enabled(s, step) && Legal(Apply(s, step), rest)
    ensures |steps| == |rest| + 1 && Legal(s, steps) && Run(s, steps) == Run(Apply(s, step), rest)
  {
    steps := [step] + rest;
    assert steps[1..] == rest;
  }

  /** One request abandoned after sending shifts the replies: the next one gets the reply meant for it. */
  lemma AbandonedShiftsReplies() returns (steps: seq<Step>)
    ensures Legal(Init(), steps)
    ensures Run(Init(), steps).sent == [0, 1] && Run(Init(), steps).pushed == ["for 0"]
    ensures Run(Init(), steps).answers == [(1, "for 0")]
  {
    var s1 := Apply(Init(), Arrive);
    var s2 := Apply(s1, Lock(0));
    var s3 := Apply(s2, Send(0));
    var s4 := Apply(s3, Look(0));
    var s5 := Apply(s4, Abandon(0));
    var s6 := Apply(s5, Arrive);
    var s7 := Apply(s6, Lock(1));
    var s8 := Apply(s7, Send(1));
    var s9 := Apply(s8, Push("for 0"));
    steps := Prepend(s9, Look(1), []);
    steps := Prepend(s8, Push("for 0"), steps);
    steps := Prepend(s7, Send(1), steps);
    steps := Prepend(s6, Lock(1), steps);
    steps := Prepend(s5, Arrive, steps);
    steps := Prepend(s4, Abandon(0), steps);
    steps := Prepend(s3, Look(0), steps);
    steps := Prepend(s2, Send(0), steps);
    steps := Prepend(s1, Lock(0), steps);
    steps := Prepend(Init(), Arrive, steps);
  }

  /** A request blocked while replies are waiting has a wake-up, present or on its way. */
  lemma NoMissedWakeUp(steps: seq<Step>, r: nat)
    requires Legal(Init(), steps)
    requires At(Run(Init(), steps), r, Blocked) && Run(Init(), steps).replies != []
    ensures var s := Run(Init(), steps);
            Enabled(s, WakeUp(r)) || (Enabled(s, Signal) && Enabled(Apply(s, Signal), WakeUp(r)))
  {
    RunKeepsInv(Init(), steps);
  }

  /** A request outstanding while a reply waits comes to be answered with it within three steps. */
  lemma ReplyIsTaken(s: State, r: nat) returns (steps: seq<Step>)
    requires Inv(s) && (At(s, r, Looking) || At(s, r, Blocked)) && s.replies != []
    ensures |steps| <= 3 && Legal(s, steps) && At(Run(s, steps), r, Answered(s.replies[0]))
  {
    var looked := if At(s, r, Looking) then s else if s.signal then Apply(s, WakeUp(r)) else Apply(Apply(s, Signal), WakeUp(r));
    steps := Prepend(looked, Look(r), []);
    if !At(s, r, Looking) {
      var woken := if s.signal then s else Apply(s, Signal);
      steps := Prepend(woken, WakeUp(r), steps);
      if !s.signal { steps := Prepend(s, Signal, steps); }
    }
  }

  /** With no reply waiting, the next one pushed answers the request outstanding. */
  lemma NextReplyAnswers(s: State, r: nat, reply: Reply) returns (steps: seq<Step>)
    requires Inv(s) && (At(s, r, Looking) || At(s, r, Blocked)) && s.replies == []
    ensures |steps| <= 3 && Legal(s, [Push(reply)] + steps) && At(Run(s, [Push(reply)] + steps), r, Answered(reply))
  {
    PushKeepsInv(s, reply);
    steps := ReplyIsTaken(Apply(s, Push(reply)), r);
    assert ([Push(reply)] + steps)[1..] == steps;
  }
}
