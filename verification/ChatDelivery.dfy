/**
The chat server of Lab 5 as a whole: any number of client slots, each with a chat thread that
announces and relays its client's messages to the other slots one by one, and a queue with its
sending thread.  A slot serves one session.  A push is one step: the mutex of the target queue
is held from before to after, so it waits until the sender of that queue has let go.
*/
module ChatDelivery {
  import opened Runs
  import opened ChatFraming
  import opened ChatSender
  import opened ChatThread
  import opened Octets

  /** The chat thread: between broadcasts, or at some slot of one; checked tells that it has
      found the slot online and is about to push to it. */
  datatype Chat = Between | Broadcasting(text: string, slot: nat, checked: bool)

  /** log lists every message this slot's chat thread has begun to broadcast; since[i] is how
      many of slot i's broadcasts had already passed this slot when it came online. */
  datatype Slot = Slot(joined: bool, valid: bool, q: Queue, chat: Chat, thread: Thread, log: seq<string>, since: seq<nat>)

  type State = seq<Slot>

  datatype Step =
    | Arrive(j: nat, name: string)
    | Welcome(j: nat, text: string)
    | ThreadDoes(i: nat, doing: Doing)
    | Say(i: nat)
    | Check(i: nat)
    | Push(i: nat)
    | EndSay(i: nat)
    | Leave(i: nat)
    | SenderActs(j: nat, act: Act)

  predicate Present(s: State, i: nat) {
    i < |s| && s[i].joined
  }

  predicate Enabled(s: State, step: Step) {
    match step
    case Arrive(j, _) => j < |s| && !s[j].joined
    case Welcome(j, _) => Present(s, j) && MutexFree(s[j].q)
    case ThreadDoes(i, doing) => Present(s, i) && s[i].chat == Between && MayDo(s[i].thread, s[i].valid, doing)
    case Say(i) => Present(s, i) && s[i].chat == Between && s[i].thread.due.Some?
    case Check(i) => Present(s, i) && s[i].chat.Broadcasting? && !s[i].chat.checked && s[i].chat.slot < |s|
    case Push(i) =>
      && Present(s, i) && s[i].chat.Broadcasting? && s[i].chat.checked
      && s[i].chat.slot < |s| && MutexFree(s[s[i].chat.slot].q)
    case EndSay(i) => Present(s, i) && s[i].chat.Broadcasting? && !s[i].chat.checked && s[i].chat.slot == |s|
    case Leave(i) => Present(s, i) && s[i].valid && s[i].chat == Between && s[i].thread.phase.Greeted? && IsIdle(s[i].thread)
    case SenderActs(j, act) => Present(s, j) && Can(s[j].q, act) && (act.Stop? ==> !s[j].valid)
  }

  /** How many of slot i's broadcasts are past slot j, seen at slot i. */
  function PassedBy(ti: Slot, j: nat): nat {
    if ti.chat.Broadcasting? && ti.chat.slot <= j && ti.log != [] then |ti.log| - 1 else |ti.log|
  }

  function AllPassed(s: State, j: nat): (since: seq<nat>)
    ensures |since| == |s|
  {
    seq(|s|, i requires 0 <= i < |s| => PassedBy(s[i], j))
  }

  function AfterCheck(s: State, i: nat): Chat
    requires i < |s| && s[i].chat.Broadcasting? && s[i].chat.slot < |s|
  {
    var c := s[i].chat;
    if s[c.slot].valid && c.slot != i then c.(checked := true) else c.(slot := c.slot + 1)
  }

  function Receive(t: Slot, m: Message): Slot {
    t.(q := Deliver(t.q, m))
  }

  /** The slot that takes the step. */
  function Actor(step: Step): nat {
    match step
    case Arrive(j, _) => j
    case Welcome(j, _) => j
    case ThreadDoes(i, _) => i
    case Say(i) => i
    case Check(i) => i
    case Push(i) => i
    case EndSay(i) => i
    case Leave(i) => i
    case SenderActs(j, _) => j
  }

  function AfterPush(t: Slot): Slot
    requires t.chat.Broadcasting?
  {
    t.(chat := t.chat.(slot := t.chat.slot + 1, checked := false))
  }

  function AfterSay(t: Slot): Slot
    requires t.thread.due.Some?
  {
    var text := t.thread.due.value;
    t.(chat := Broadcasting(text, 0, false), thread := t.thread.(due := None), log := t.log + [text])
  }

  /** The acting slot after the step. */
  function After(s: State, step: Step): Slot
    requires Enabled(s, step)
  {
    var t := s[Actor(step)];
    match step
    case Arrive(j, name) => t.(joined := true, valid := true, thread := Begun(name), since := AllPassed(s, j))
    case Welcome(j, text) => Receive(t, Message(j, text))
    case ThreadDoes(_, doing) => t.(thread := AfterDoing(t.thread, doing))
    case Say(_) => AfterSay(t)
    case Check(i) => t.(chat := AfterCheck(s, i))
    case Push(_) => AfterPush(t)
    case EndSay(_) => t.(chat := Between)
    case Leave(_) => t.(valid := false)
    case SenderActs(_, act) => t.(q := Do(t.q, act))
  }

  /** Only a push changes a second slot: its target. */
  function Apply(s: State, step: Step): State
    requires Enabled(s, step)
  {
    var s' := if step.Push? then AfterReceiving(s, step.i) else s;
    s'[Actor(step) := After(s, step)]
  }

  function AfterReceiving(s: State, i: nat): State
    requires Enabled(s, Push(i))
  {
    var c := s[i].chat;
    s[c.slot := Receive(s[c.slot], Message(i, c.text))]
  }

  ghost function Next(): (State, Step, State) -> bool {
    (s, step, t) => Enabled(s, step) && t == Apply(s, step)
  }

  ghost predicate Initial(s: State) {
    forall j :: 0 <= j < |s| ==> s[j] == Slot(false, false, Queue([], NotStarted, "", []), Between, Begun(""), [], [])
  }

  // ---------------------------------------------------------------------------------------
  // What each slot keeps by itself
  // ---------------------------------------------------------------------------------------

  ghost predicate SlotFits(t: Slot, i: nat, n: nat) {
    && ChatSender.QueueFits(t.q)
    && (!t.joined ==> t.chat == Between && t.log == [] && t.q.history == [] && !t.valid)
    && (t.joined ==> |t.since| == n)
    && (t.chat.Broadcasting? ==>
          && t.chat.slot <= n && t.log != [] && t.log[|t.log| - 1] == t.chat.text
          && (t.chat.checked ==> t.chat.slot < n && t.chat.slot != i))
  }

  lemma ReceiveFits(t: Slot, i: nat, n: nat, m: Message)
    requires SlotFits(t, i, n) && t.joined && MutexFree(t.q)
    ensures SlotFits(Receive(t, m), i, n)
  {
    DeliverFits(t.q, m);
  }

  ghost predicate TargetPresent(s: State, i: nat)
    requires i < |s|
  {
    s[i].chat.Broadcasting? && s[i].chat.checked ==> Present(s, s[i].chat.slot)
  }

  ghost predicate SlotsFit(s: State) {
    forall i :: 0 <= i < |s| ==> SlotFits(s[i], i, |s|) && TargetPresent(s, i)
  }

  lemma SizeKept(s: State, step: Step)
    requires Enabled(s, step)
    ensures |Apply(s, step)| == |s|
  {
  }

  lemma AfterFits(s: State, step: Step)
    requires SlotsFit(s) && Enabled(s, step)
    ensures SlotFits(After(s, step), Actor(step), |s|)
  {
    var i := Actor(step);
    assert SlotFits(s[i], i, |s|);
    match step
    case Welcome(j, text) => ReceiveFits(s[i], i, |s|, Message(j, text));
    case SenderActs(j, act) => DoFits(s[i].q, act);
    case _ =>
  }

  lemma SlotKept(s: State, step: Step, i: nat)
    requires SlotsFit(s) && Enabled(s, step) && i < |s|
    ensures SlotFits(Apply(s, step)[i], i, |s|)
  {
    AfterFits(s, step);
    assert SlotFits(s[i], i, |s|);
    if i != Actor(step) && step.Push? && s[step.i].chat.slot == i {
      assert TargetPresent(s, step.i);
      ReceiveFits(s[i], i, |s|, Message(step.i, s[step.i].chat.text));
    }
  }

  lemma PresentKept(s: State, step: Step, i: nat)
    requires Enabled(s, step) && Present(s, i)
    ensures Present(Apply(s, step), i)
  {
  }

  lemma TargetKept(s: State, step: Step, i: nat)
    requires SlotsFit(s) && Enabled(s, step) && i < |s|
    ensures TargetPresent(Apply(s, step), i)
  {
    assert TargetPresent(s, i);
    var c := Apply(s, step)[i].chat;
    if c.Broadcasting? && c.checked {
      assert c == s[i].chat || step == Check(i);
      if step == Check(i) {
        assert SlotFits(s[c.slot], c.slot, |s|);
      }
      PresentKept(s, step, c.slot);
    }
  }

  lemma SlotsKept(s: State, step: Step)
    requires SlotsFit(s) && Enabled(s, step)
    ensures |Apply(s, step)| == |s| && SlotsFit(Apply(s, step))
  {
    SizeKept(s, step);
    forall i | 0 <= i < |s|
      ensures SlotFits(Apply(s, step)[i], i, |s|) && TargetPresent(Apply(s, step), i)
    {
      SlotKept(s, step, i);
      TargetKept(s, step, i);
    }
  }

  // ---------------------------------------------------------------------------------------
  // Order: what reaches a queue from each of the other slots
  // ---------------------------------------------------------------------------------------

  /** The messages of slot i among those pushed to a queue, in the order they were pushed. */
  function From(ms: seq<Message>, i: nat): seq<string> {
    if ms == [] then []
    else From(ms[..|ms| - 1], i) + if ms[|ms| - 1].from == i then [ms[|ms| - 1].text] else []
  }

  lemma FromSnoc(ms: seq<Message>, m: Message, i: nat)
    ensures From(ms + [m], i) == if m.from == i then From(ms, i) + [m.text] else From(ms, i)
  {
    assert (ms + [m])[..|ms|] == ms;
  }

  /** Slot j still receives slot i's broadcasts: it is online, or about to be pushed to. */
  predicate Receiving(ti: Slot, tj: Slot, j: nat) {
    tj.valid || (ti.chat.Broadcasting? && ti.chat.checked && ti.chat.slot == j)
  }

  /** What slot j got from slot i is an unbroken stretch of what slot i said, from the moment j
      came online, and it reaches up to now while j is online. */
  ghost predicate InOrder(ti: Slot, tj: Slot, i: nat, j: nat) {
    tj.joined ==>
      i < |tj.since| &&
      var got, from := From(tj.q.history, i), tj.since[i];
      && from + |got| <= PassedBy(ti, j) <= |ti.log|
      && got == ti.log[from..from + |got|]
      && (Receiving(ti, tj, j) ==> from + |got| == PassedBy(ti, j))
  }

  ghost predicate AllInOrder(s: State) {
    forall i, j :: 0 <= i < |s| && 0 <= j < |s| && i != j ==> InOrder(s[i], s[j], i, j)
  }

  /** Nothing InOrder speaks of has changed. */
  predicate SameForOrder(ti: Slot, tj: Slot, ti': Slot, tj': Slot) {
    && ti'.chat == ti.chat && ti'.log == ti.log
    && tj'.joined == tj.joined && tj'.valid == tj.valid && tj'.q.history == tj.q.history && tj'.since == tj.since
  }

  lemma SayKeepsOrder(ti: Slot, tj: Slot, i: nat, j: nat)
    requires InOrder(ti, tj, i, j) && ti.chat == Between && ti.thread.due.Some?
    ensures InOrder(AfterSay(ti), tj, i, j)
  {
    if tj.joined {
      SliceOfLonger(ti.log, ti.thread.due.value, tj.since[i], |From(tj.q.history, i)|);
    }
  }

  lemma SliceOfLonger(log: seq<string>, text: string, from: nat, n: nat)
    requires from + n <= |log|
    ensures (log + [text])[from..from + n] == log[from..from + n]
    ensures from + n == |log| ==> (log + [text])[from..from + n + 1] == log[from..from + n] + [text]
  {
  }

  lemma CheckKeepsOrder(s: State, i: nat, j: nat)
    requires SlotsFit(s) && Enabled(s, Check(i)) && j < |s| && i != j && InOrder(s[i], s[j], i, j)
    ensures InOrder(s[i].(chat := AfterCheck(s, i)), s[j], i, j)
  {
    assert SlotFits(s[i], i, |s|);
  }

  lemma PushedInOrder(ti: Slot, tj: Slot, i: nat, j: nat, n: nat)
    requires SlotFits(ti, i, n) && InOrder(ti, tj, i, j)
    requires ti.chat.Broadcasting? && ti.chat.checked && ti.chat.slot == j
    ensures InOrder(AfterPush(ti), Receive(tj, Message(i, ti.chat.text)), i, j)
  {
    FromSnoc(tj.q.history, Message(i, ti.chat.text), i);
    if tj.joined {
      assert PassedBy(ti, j) == |ti.log| - 1 && PassedBy(AfterPush(ti), j) == |ti.log|;
      OneFurther(ti.log, tj.since[i], From(tj.q.history, i));
      IsInOrder(AfterPush(ti), Receive(tj, Message(i, ti.chat.text)), i, j, From(tj.q.history, i) + [ti.chat.text]);
    }
  }

  lemma IsInOrder(ti: Slot, tj: Slot, i: nat, j: nat, got: seq<string>)
    requires got == From(tj.q.history, i) && i < |tj.since| && PassedBy(ti, j) == |ti.log|
    requires tj.since[i] + |got| == |ti.log| && got == ti.log[tj.since[i]..|ti.log|]
    ensures InOrder(ti, tj, i, j)
  {
  }

  lemma OneFurther(log: seq<string>, from: nat, got: seq<string>)
    requires from + |got| + 1 == |log| && got == log[from..from + |got|]
    ensures got + [log[|log| - 1]] == log[from..|log|]
  {
  }

  lemma PushedElsewhere(ti: Slot, tj: Slot, i: nat, j: nat)
    requires InOrder(ti, tj, i, j) && ti.chat.Broadcasting? && ti.chat.slot != j
    ensures InOrder(AfterPush(ti), tj, i, j)
  {
  }

  lemma ReceiveKeepsOrder(ti: Slot, tj: Slot, i: nat, j: nat, m: Message)
    requires InOrder(ti, tj, i, j) && m.from != i
    ensures InOrder(ti, Receive(tj, m), i, j)
  {
    FromSnoc(tj.q.history, m, i);
  }

  lemma ArriveIsInOrder(s: State, i: nat, j: nat, name: string)
    requires SlotsFit(s) && Enabled(s, Arrive(j, name)) && i < |s| && i != j
    ensures InOrder(s[i], After(s, Arrive(j, name)), i, j)
  {
    assert SlotFits(s[j], j, |s|) && SlotFits(s[i], i, |s|);
  }

  lemma EndSayKeepsOrder(ti: Slot, tj: Slot, i: nat, j: nat, n: nat)
    requires InOrder(ti, tj, i, j) && j < n && ti.chat.Broadcasting? && ti.chat.slot == n
    ensures InOrder(ti.(chat := Between), tj, i, j)
  {
  }

  lemma FrameOrder(ti: Slot, tj: Slot, ti': Slot, tj': Slot, i: nat, j: nat)
    requires InOrder(ti, tj, i, j) && SameForOrder(ti, tj, ti', tj')
    ensures InOrder(ti', tj', i, j)
  {
  }

  /** A step other than a push, taken by slot i, the one that speaks. */
  lemma SpeakerKeepsOrder(s: State, step: Step, i: nat, j: nat)
    requires SlotsFit(s) && Enabled(s, step) && !step.Push? && Actor(step) == i
    requires j < |s| && i != j && InOrder(s[i], s[j], i, j)
    ensures InOrder(After(s, step), s[j], i, j)
  {
    assert SlotFits(s[i], i, |s|);
    match step
    case Say(_) => SayKeepsOrder(s[i], s[j], i, j);
    case ThreadDoes(_, _) => FrameOrder(s[i], s[j], After(s, step), s[j], i, j);
    case Check(_) => CheckKeepsOrder(s, i, j);
    case EndSay(_) => EndSayKeepsOrder(s[i], s[j], i, j, |s|);
    case Push(_) =>
    case Arrive(_, _) => FrameOrder(s[i], s[j], After(s, step), s[j], i, j);
    case Welcome(_, _) => FrameOrder(s[i], s[j], After(s, step), s[j], i, j);
    case Leave(_) => FrameOrder(s[i], s[j], After(s, step), s[j], i, j);
    case SenderActs(_, _) => FrameOrder(s[i], s[j], After(s, step), s[j], i, j);
  }

  /** A step other than a push, taken by slot j, the one that listens. */
  lemma ListenerKeepsOrder(s: State, step: Step, i: nat, j: nat)
    requires SlotsFit(s) && Enabled(s, step) && !step.Push? && Actor(step) == j
    requires i < |s| && i != j && InOrder(s[i], s[j], i, j)
    ensures InOrder(s[i], After(s, step), i, j)
  {
    match step
    case Arrive(_, name) => ArriveIsInOrder(s, i, j, name);
    case Welcome(_, text) => ReceiveKeepsOrder(s[i], s[j], i, j, Message(j, text));
    case Leave(_) => LeaveKeepsOrder(s[i], s[j], i, j);
    case Push(_) =>
    case Say(_) => FrameOrder(s[i], s[j], s[i], After(s, step), i, j);
    case ThreadDoes(_, _) => FrameOrder(s[i], s[j], s[i], After(s, step), i, j);
    case Check(_) => FrameOrder(s[i], s[j], s[i], After(s, step), i, j);
    case EndSay(_) => FrameOrder(s[i], s[j], s[i], After(s, step), i, j);
    case SenderActs(_, _) => FrameOrder(s[i], s[j], s[i], After(s, step), i, j);
  }

  lemma LeaveKeepsOrder(ti: Slot, tj: Slot, i: nat, j: nat)
    requires InOrder(ti, tj, i, j)
    ensures InOrder(ti, tj.(valid := false), i, j)
  {
  }

  lemma PushKeepsOrder(s: State, k: nat, i: nat, j: nat)
    requires SlotsFit(s) && Enabled(s, Push(k)) && i < |s| && j < |s| && i != j
    requires InOrder(s[i], s[j], i, j)
    ensures InOrder(Apply(s, Push(k))[i], Apply(s, Push(k))[j], i, j)
  {
    var target, s' := s[k].chat.slot, Apply(s, Push(k));
    assert SlotFits(s[k], k, |s|);
    var m := Message(k, s[k].chat.text);
    if k == i {
      if target == j {
        PushedInOrder(s[i], s[j], i, j, |s|);
      } else {
        PushedElsewhere(s[i], s[j], i, j);
      }
    } else if target == j {
      ReceiveKeepsOrder(s[i], s[j], i, j, m);
      assert s'[j] == Receive(s[j], m) && s'[i] == s[i];
    } else {
      FrameOrder(s[i], s[j], s'[i], s'[j], i, j);
    }
  }

  lemma OrderKept(s: State, step: Step, i: nat, j: nat)
    requires SlotsFit(s) && Enabled(s, step) && i < |s| && j < |s| && i != j
    requires InOrder(s[i], s[j], i, j)
    ensures InOrder(Apply(s, step)[i], Apply(s, step)[j], i, j)
  {
    if step.Push? {
      PushKeepsOrder(s, step.i, i, j);
    } else if Actor(step) == i {
      SpeakerKeepsOrder(s, step, i, j);
    } else if Actor(step) == j {
      ListenerKeepsOrder(s, step, i, j);
    }
  }

  ghost predicate Invariant(s: State) {
    SlotsFit(s) && AllInOrder(s)
  }

  lemma InvariantKept(s: State, step: Step)
    requires Invariant(s) && Enabled(s, step)
    ensures Invariant(Apply(s, step))
  {
    SlotsKept(s, step);
    forall i, j | 0 <= i < |s| && 0 <= j < |s| && i != j
      ensures InOrder(Apply(s, step)[i], Apply(s, step)[j], i, j)
    {
      OrderKept(s, step, i, j);
    }
  }

  lemma InvariantAlong(r: Run<State, Step>)
    requires IsRun(Next(), r) && Initial(r.states[0])
    ensures Invariant(Last(r))
  {
    forall s, step, t | Invariant(s) && Next()(s, step, t)
      ensures Invariant(t)
    {
      InvariantKept(s, step);
    }
    HoldsAlong(Next(), Invariant, r, 0, |r.steps|);
  }

  /** Under every interleaving and for every way the socket takes the bytes, what it has accepted,
      what remains of the message being sent and the rest of the queue are together exactly the
      messages pushed, in order. */
  lemma BytesAreDelivered(r: Run<State, Step>, j: nat)
    requires IsRun(Next(), r) && Initial(r.states[0]) && j < |Last(r)|
    ensures var q := Last(r)[j].q;
            && q.accepted <= Pushed(q)
            && (q.sender != Stopped ==> q.accepted + Unsent(q) == Pushed(q))
  {
    InvariantAlong(r);
    assert SlotFits(Last(r)[j], j, |Last(r)|);
  }

  /** No lost wakeup: a sender waits for a signal only while its queue is empty. */
  lemma WaitingMeansEmpty(r: Run<State, Step>, j: nat)
    requires IsRun(Next(), r) && Initial(r.states[0]) && j < |Last(r)|
    requires Last(r)[j].q.sender == Waiting
    ensures Last(r)[j].q.queue == []
  {
    InvariantAlong(r);
    assert SlotFits(Last(r)[j], j, |Last(r)|);
  }

  /** A recipient's queue history merges what the others said: from each other slot it holds, in
      order and without gap or repetition, the broadcasts since the recipient came online, all
      of those that have passed it while it stays online. */
  lemma EachSenderInOrder(r: Run<State, Step>, i: nat, j: nat)
    requires IsRun(Next(), r) && Initial(r.states[0])
    requires i < |Last(r)| && j < |Last(r)| && i != j && Last(r)[j].joined
    ensures var ti, tj := Last(r)[i], Last(r)[j];
            && i < |tj.since|
            && var got, from := From(tj.q.history, i), tj.since[i];
            && from + |got| <= |ti.log| && got == ti.log[from..from + |got|]
            && (tj.valid ==> from <= PassedBy(ti, j) <= |ti.log| && got == ti.log[from..PassedBy(ti, j)])
            && (tj.valid && ti.chat == Between ==> got == ti.log[from..])
  {
    InvariantAlong(r);
    assert InOrder(Last(r)[i], Last(r)[j], i, j);
    assert SlotFits(Last(r)[i], i, |Last(r)|);
  }

  // ---------------------------------------------------------------------------------------
  // From the sender's stream to the recipient's queue
  // ---------------------------------------------------------------------------------------

  /** What recv has returned to slot i's chat thread in these steps, joined. */
  function ReceivedIn(steps: seq<Step>, i: nat): string {
    if steps == [] then ""
    else
      var n := |steps| - 1;
      ReceivedIn(steps[..n], i)
        + if steps[n].ThreadDoes? && steps[n].i == i && steps[n].doing.Recv? then steps[n].doing.chunk else ""
  }

  /** What a slot has said is what its thread has to say of the octets it has looked at. */
  ghost predicate Talks(t: Slot) {
    Speaks(t.thread, t.log) && (!t.joined ==> t.log == [] && t.thread == Begun(t.thread.name))
  }

  lemma ActorTalks(s: State, step: Step)
    requires Enabled(s, step) && Talks(s[Actor(step)])
    ensures Talks(After(s, step))
  {
    var t := s[Actor(step)];
    match step
    case ThreadDoes(_, doing) => DoingSpeaks(t.thread, t.valid, doing, t.log);
    case Say(_) => SayingSpeaks(t.thread, t.log);
    case Arrive(_, name) => NewSpeaks(name);
    case _ =>
  }

  lemma OtherThreadsKept(s: State, step: Step, i: nat)
    requires Enabled(s, step) && i < |s|
    ensures |Apply(s, step)| == |s|
    ensures var t := if i == Actor(step) then After(s, step) else s[i];
            Apply(s, step)[i].thread == t.thread && Apply(s, step)[i].log == t.log && Apply(s, step)[i].joined == t.joined
  {
  }

  lemma HeardAfter(s: State, step: Step)
    requires Enabled(s, step) && Talks(s[Actor(step)])
    ensures var was, now := s[Actor(step)].thread, After(s, step).thread;
            now.heard + now.unread
            == was.heard + was.unread + if step.ThreadDoes? && step.doing.Recv? then step.doing.chunk else ""
  {
  }

  /** The thread looks at what it received, all of it and in order. */
  lemma {:induction false} TalksAlong(r: Run<State, Step>, i: nat, n: nat)
    requires IsRun(Next(), r) && Initial(r.states[0]) && n < |r.states| && i < |r.states[0]|
    ensures |r.states[n]| == |r.states[0]| && Talks(r.states[n][i])
    ensures r.states[n][i].thread.heard + r.states[n][i].thread.unread == ReceivedIn(r.steps[..n], i)
  {
    if n == 0 {
      NewSpeaks("");
    } else {
      TalksAlong(r, i, n - 1);
      assert Next()(r.states[n - 1], r.steps[n - 1], r.states[n]);
      OtherThreadsKept(r.states[n - 1], r.steps[n - 1], i);
      if i == Actor(r.steps[n - 1]) {
        ActorTalks(r.states[n - 1], r.steps[n - 1]);
        HeardAfter(r.states[n - 1], r.steps[n - 1]);
      }
      assert r.steps[..n][..n - 1] == r.steps[..n - 1];
    }
  }

  lemma {:induction false} SizeAlong(r: Run<State, Step>, n: nat)
    requires IsRun(Next(), r) && n < |r.states|
    ensures |r.states[n]| == |r.states[0]|
  {
    if n > 0 {
      SizeAlong(r, n - 1);
      assert Next()(r.states[n - 1], r.steps[n - 1], r.states[n]);
    }
  }

  lemma AtTheEnd(r: Run<State, Step>, i: nat)
    requires IsRun(Next(), r) && Initial(r.states[0]) && i < |Last(r)|
    ensures Last(r)[i].thread.heard + Last(r)[i].thread.unread == ReceivedIn(r.steps, i)
    ensures Speaks(Last(r)[i].thread, Last(r)[i].log)
  {
    SizeAlong(r, |r.steps|);
    TalksAlong(r, i, |r.steps|);
    assert r.steps[..|r.steps|] == r.steps;
  }

  // Who says what, by the steps alone: the name a client arrived with, its greeting and its farewell.

  function NameIn(steps: seq<Step>, i: nat): string {
    if steps == [] then ""
    else
      var last := steps[|steps| - 1];
      if last.Arrive? && last.j == i then last.name else NameIn(steps[..|steps| - 1], i)
  }

  function GreetingIn(steps: seq<Step>, i: nat): seq<string> {
    if steps == [] then []
    else
      var last := steps[|steps| - 1];
      if last.ThreadDoes? && last.i == i && last.doing.Greet? then [last.doing.hello]
      else GreetingIn(steps[..|steps| - 1], i)
  }

  function FarewellIn(steps: seq<Step>, i: nat): seq<string> {
    if steps == [] then []
    else
      var last := steps[|steps| - 1];
      if last.ThreadDoes? && last.i == i && last.doing.Bye? then [last.doing.bye]
      else FarewellIn(steps[..|steps| - 1], i)
  }

  /** Greeting, lines and farewell. */
  function Script(steps: seq<Step>, i: nat, stream: string): seq<string> {
    GreetingIn(steps, i) + Prefixed(NameIn(steps, i), Lines(stream)) + FarewellIn(steps, i)
  }

  ghost predicate IsCast(t: Slot, name: string, greeting: seq<string>, farewell: seq<string>) {
    && t.thread.name == name
    && (t.thread.phase == if greeting == [] then New else if farewell == [] then Greeted(greeting[0])
                          else Gone(greeting[0], farewell[0]))
    && (greeting == [] ==> farewell == []) && |greeting| <= 1 && |farewell| <= 1
    && (!t.joined ==> greeting == [])
  }

  lemma CastInStep(s: State, step: Step, name: string, greeting: seq<string>, farewell: seq<string>)
    requires Enabled(s, step) && IsCast(s[Actor(step)], name, greeting, farewell)
    ensures IsCast(After(s, step), if step.Arrive? then step.name else name,
                   if step.ThreadDoes? && step.doing.Greet? then [step.doing.hello] else greeting,
                   if step.ThreadDoes? && step.doing.Bye? then [step.doing.bye] else farewell)
  {
  }

  lemma {:induction false} CastAlong(r: Run<State, Step>, i: nat, n: nat)
    requires IsRun(Next(), r) && Initial(r.states[0]) && n < |r.states| && i < |r.states[0]|
    ensures |r.states[n]| == |r.states[0]|
    ensures IsCast(r.states[n][i], NameIn(r.steps[..n], i), GreetingIn(r.steps[..n], i), FarewellIn(r.steps[..n], i))
  {
    if n > 0 {
      CastAlong(r, i, n - 1);
      assert Next()(r.states[n - 1], r.steps[n - 1], r.states[n]);
      CastOfOthersKept(r.states[n - 1], r.steps[n - 1], i);
      if i == Actor(r.steps[n - 1]) {
        CastInStep(r.states[n - 1], r.steps[n - 1], NameIn(r.steps[..n - 1], i),
                   GreetingIn(r.steps[..n - 1], i), FarewellIn(r.steps[..n - 1], i));
      }
      assert r.steps[..n][..n - 1] == r.steps[..n - 1];
    }
  }

  lemma CastOfOthersKept(s: State, step: Step, i: nat)
    requires Enabled(s, step) && i < |s|
    ensures |Apply(s, step)| == |s|
    ensures var t := if i == Actor(step) then After(s, step) else s[i];
            Apply(s, step)[i].thread == t.thread && Apply(s, step)[i].joined == t.joined
  {
  }

  lemma ScriptIsToSay(t: Slot, name: string, greeting: seq<string>, farewell: seq<string>)
    requires Talks(t) && IsCast(t, name, greeting, farewell)
    ensures ToSay(t.thread) == greeting + Prefixed(name, Lines(t.thread.heard)) + farewell
  {
    var lines := Prefixed(name, Lines(t.thread.heard));
    if greeting == [] {
      assert lines == [] && greeting + lines + farewell == [];
    } else {
      assert greeting == [greeting[0]];
      assert farewell == [] ==> greeting + lines + farewell == greeting + lines;
      assert farewell != [] ==> farewell == [farewell[0]];
    }
  }

  lemma ToSayAtTheEnd(r: Run<State, Step>, i: nat)
    requires IsRun(Next(), r) && Initial(r.states[0]) && i < |Last(r)|
    ensures ToSay(Last(r)[i].thread) == Script(r.steps, i, Last(r)[i].thread.heard)
    ensures IsCast(Last(r)[i], NameIn(r.steps, i), GreetingIn(r.steps, i), FarewellIn(r.steps, i))
  {
    SizeAlong(r, |r.steps|);
    TalksAlong(r, i, |r.steps|);
    CastAlong(r, i, |r.steps|);
    assert r.steps[..|r.steps|] == r.steps;
    ScriptIsToSay(Last(r)[i], NameIn(r.steps, i), GreetingIn(r.steps, i), FarewellIn(r.steps, i));
  }

  lemma StretchOfPrefix(log: seq<string>, all: seq<string>, from: nat, n: nat)
    requires log <= all && from + n <= |log|
    ensures log[from..from + n] == all[from..from + n]
  {
  }

  lemma WholeSession(lines: seq<string>, hello: string, bye: string, from: nat, got: seq<string>)
    requires from <= 1 && got == ([hello] + lines + [bye])[from..]
    ensures |got| == |lines| + 2 - from && got[1 - from..|got| - 1] == lines
  {
    var all := [hello] + lines + [bye];
    assert forall k :: 0 <= k < |got| ==> got[k] == all[from + k];
  }

  /** What a slot gets from another is an unbroken stretch of the other's greeting, the lines of the
      octets it received, each once behind the name it arrived with, and its farewell - however
      these octets were cut into chunks. */
  lemma StreamIsDelivered(r: Run<State, Step>, i: nat, j: nat)
    requires IsRun(Next(), r) && Initial(r.states[0])
    requires i < |Last(r)| && j < |Last(r)| && i != j && Last(r)[j].joined
    ensures var heard, tj := Last(r)[i].thread.heard, Last(r)[j];
            var script := Script(r.steps, i, heard);
            && heard <= ReceivedIn(r.steps, i)
            && i < |tj.since|
            && var got, from := From(tj.q.history, i), tj.since[i];
            && from + |got| <= |script| && got == script[from..from + |got|]
  {
    AtTheEnd(r, i);
    ToSayAtTheEnd(r, i);
    EachSenderInOrder(r, i, j);
    var ti, tj := Last(r)[i], Last(r)[j];
    StretchOfPrefix(ti.log, ToSay(ti.thread), tj.since[i], |From(tj.q.history, i)|);
  }

  lemma SessionIsOver(r: Run<State, Step>, i: nat)
    requires IsRun(Next(), r) && Initial(r.states[0]) && i < |Last(r)|
    requires FarewellIn(r.steps, i) != [] && Last(r)[i].thread.due == None
    ensures Last(r)[i].thread.heard == ReceivedIn(r.steps, i)
    ensures |GreetingIn(r.steps, i)| == |FarewellIn(r.steps, i)| == 1
    ensures Last(r)[i].log == Script(r.steps, i, ReceivedIn(r.steps, i))
  {
    AtTheEnd(r, i);
    ToSayAtTheEnd(r, i);
    var th := Last(r)[i].thread;
    assert Last(r)[i].log + [] == Last(r)[i].log && th.heard + "" == th.heard;
  }

  /** When a client has gone and its farewell is out, a slot that was there before its first line and
      still is has got every line of all it sent behind its name, in order and once, and the farewell. */
  lemma EveryLineIsDelivered(r: Run<State, Step>, i: nat, j: nat)
    requires IsRun(Next(), r) && Initial(r.states[0])
    requires i < |Last(r)| && j < |Last(r)| && i != j && Last(r)[j].joined && Last(r)[j].valid
    requires FarewellIn(r.steps, i) != [] && Last(r)[i].thread.due == None && Last(r)[i].chat == Between
    ensures i < |Last(r)[j].since|
    ensures var got, from := From(Last(r)[j].q.history, i), Last(r)[j].since[i];
            var lines := Prefixed(NameIn(r.steps, i), Lines(ReceivedIn(r.steps, i)));
            from <= 1 ==> |got| == |lines| + 2 - from && got[1 - from..|got| - 1] == lines
                          && [got[|got| - 1]] == FarewellIn(r.steps, i)
  {
    SessionIsOver(r, i);
    EachSenderInOrder(r, i, j);
    if Last(r)[j].since[i] <= 1 {
      var hello, bye := GreetingIn(r.steps, i), FarewellIn(r.steps, i);
      assert hello == [hello[0]] && bye == [bye[0]];
      WholeSession(Prefixed(NameIn(r.steps, i), Lines(ReceivedIn(r.steps, i))), hello[0], bye[0],
                   Last(r)[j].since[i], From(Last(r)[j].q.history, i));
    }
  }

  /** The notices a slot gives its own client in these steps. */
  function NoticesIn(steps: seq<Step>, j: nat): seq<string> {
    if steps == [] then []
    else
      var last := steps[|steps| - 1];
      NoticesIn(steps[..|steps| - 1], j) + if last.Welcome? && last.j == j then [last.text] else []
  }

  /** What a step puts into the queue of slot j. */
  function Arriving(s: State, step: Step, j: nat): seq<Message>
    requires Enabled(s, step)
  {
    match step
    case Welcome(k, text) => if k == j then [Message(j, text)] else []
    case Push(i) => if s[i].chat.slot == j then [Message(i, s[i].chat.text)] else []
    case _ => []
  }

  lemma HistoryInStep(s: State, step: Step, j: nat)
    requires SlotsFit(s) && Enabled(s, step) && j < |s|
    ensures |Apply(s, step)| == |s|
    ensures Apply(s, step)[j].q.history == s[j].q.history + Arriving(s, step, j)
  {
    assert s[j].q.history + [] == s[j].q.history;
    if step.Push? {
      assert SlotFits(s[step.i], step.i, |s|);
    }
  }

  lemma NoticeInStep(s: State, step: Step, j: nat)
    requires SlotsFit(s) && Enabled(s, step) && j < |s|
    ensures |Apply(s, step)| == |s|
    ensures From(Apply(s, step)[j].q.history, j)
         == From(s[j].q.history, j) + if step.Welcome? && step.j == j then [step.text] else []
  {
    HistoryInStep(s, step, j);
    var arriving := Arriving(s, step, j);
    assert From(s[j].q.history, j) + [] == From(s[j].q.history, j);
    if step.Push? {
      assert SlotFits(s[step.i], step.i, |s|);
    }
    if arriving == [] {
      assert s[j].q.history + [] == s[j].q.history;
    } else {
      FromSnoc(s[j].q.history, arriving[0], j);
      assert arriving == [arriving[0]];
    }
  }

  /** From itself a slot has in its queue exactly these notices, in order. */
  lemma {:induction false} OwnNoticesInOrder(r: Run<State, Step>, j: nat, n: nat)
    requires IsRun(Next(), r) && Initial(r.states[0]) && n < |r.states| && j < |r.states[0]|
    ensures |r.states[n]| == |r.states[0]| && SlotsFit(r.states[n])
    ensures From(r.states[n][j].q.history, j) == NoticesIn(r.steps[..n], j)
  {
    if n > 0 {
      OwnNoticesInOrder(r, j, n - 1);
      assert Next()(r.states[n - 1], r.steps[n - 1], r.states[n]);
      SlotsKept(r.states[n - 1], r.steps[n - 1]);
      NoticeInStep(r.states[n - 1], r.steps[n - 1], j);
      assert r.steps[..n][..n - 1] == r.steps[..n - 1];
    }
  }
}
