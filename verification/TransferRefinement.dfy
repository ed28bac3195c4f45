/**
What any run of the protocol looks like from either end: the client does, at a file, what its
program does with the replies that came; the server does what its program does with the packets
that came.  Whatever the network and the other end do between these steps is not seen.
*/
module TransferRefinement {
  import opened Octets
  import opened Sequences
  import opened Transfer
  import opened TransferNetwork
  import opened TransferPrograms
  import opened Runs

  type Behaviour = Run<State, Step>

  // ---------------------------------------------------------------------------------------
  // The client
  // ---------------------------------------------------------------------------------------

  /** What a receive of the client returned in this step, if there was one. */
  function ReplyIn(step: Step): seq<Option<Ack>> {
    match step
    case ClientReply(a) => [Some(a)]
    case ClientTimeout => [None]
    case _ => []
  }

  ghost function Replies(r: Behaviour, i: nat): seq<Option<Ack>>
    decreases |r.steps| - i
  {
    if i >= |r.steps| then [] else ReplyIn(r.steps[i]) + Replies(r, i + 1)
  }

  /** What the client sends in this step. */
  ghost function SentIn(files: seq<Text>, s: State, step: Step): seq<Packet> {
    if step.ClientMove? && SendableFiles(files) && GoodClient(files, s.client) && !s.client.awaiting then
      var sent := Advance(files, s.client).1;
      if sent.Some? then [sent.value] else []
    else []
  }

  ghost function Sent(files: seq<Text>, r: Behaviour, i: nat): seq<Packet>
    decreases |r.steps| - i
  {
    if i >= |r.steps| || i >= |r.states| then [] else SentIn(files, r.states[i], r.steps[i]) + Sent(files, r, i + 1)
  }

  ghost predicate StaysAt(files: seq<Text>, r: Behaviour, i: nat) {
    i < |r.states| && r.states[i].client.file < |files| &&
    forall j :: i <= j < |r.states| ==> r.states[j].client.file == r.states[i].client.file
  }

  /** The client's program at this file, given these replies and later ones, sends these packets
      and goes on as it does from d. */
  ghost predicate Gives(files: seq<Text>, c: Client, replies: seq<Option<Ack>>, sent: seq<Packet>, d: Client,
                        later: seq<Option<Ack>>) {
    && SendableFiles(files) && GoodClient(files, c) && GoodClient(files, d) && c.file == d.file < |files|
    && GoodReplies(replies + later) && GoodReplies(later)
    && AtFile(files, c, replies + later) == (AtFile(files, d, later).0, sent + AtFile(files, d, later).1)
  }

  lemma GivesNothing(files: seq<Text>, c: Client, later: seq<Option<Ack>>)
    requires SendableFiles(files) && GoodClient(files, c) && c.file < |files| && GoodReplies(later)
    ensures Gives(files, c, [], [], c, later)
  {
    var rest := AtFile(files, c, later);
    assert [] + later == later && rest == (rest.0, rest.1) && [] + rest.1 == rest.1;
  }

  lemma GivesBoth(files: seq<Text>, c: Client, a: seq<Option<Ack>>, u: seq<Packet>, d: Client,
                  b: seq<Option<Ack>>, v: seq<Packet>, e: Client, later: seq<Option<Ack>>)
    requires Gives(files, c, a, u, d, b + later) && Gives(files, d, b, v, e, later)
    ensures Gives(files, c, a + b, u + v, e, later)
  {
    Assoc(a, b, later);
    Assoc(u, v, AtFile(files, e, later).1);
  }

  lemma ClientStep(files: seq<Text>, s: State, step: Step, t: State, later: seq<Option<Ack>>)
    requires Takes(files, s, step, t) && s.client.file == t.client.file < |files| && GoodReplies(later)
    ensures Gives(files, s.client, ReplyIn(step), SentIn(files, s, step), t.client, later)
  {
    ShapeKept(files, s, step);
    if s.client == t.client {
      GivesNothing(files, s.client, later);
    } else if ReplyIn(step) != [] {
      ReplyGives(files, s.client, ReplyIn(step)[0], later);
    } else {
      assert [] + later == later;
    }
  }

  lemma ReplyGives(files: seq<Text>, c: Client, reply: Option<Ack>, later: seq<Option<Ack>>)
    requires SendableFiles(files) && GoodClient(files, c) && c.awaiting
    requires (reply.Some? ==> AckFits(reply.value)) && GoodReplies(later)
    ensures Gives(files, c, [reply], [], AfterReply(c, reply), later)
  {
    if reply.Some? {
      AcknowledgeIsGood(files, c, reply.value);
    }
    assert ([reply] + later)[1..] == later;
    var rest := AtFile(files, AfterReply(c, reply), later);
    assert rest == (rest.0, rest.1) && [] + rest.1 == rest.1;
  }

  lemma ClientStepThen(files: seq<Text>, r: Behaviour, i: nat,
                       b: seq<Option<Ack>>, v: seq<Packet>, e: Client, later: seq<Option<Ack>>)
    requires IsRun(Next(files), r) && i < |r.steps| && r.states[i].client.file == r.states[i + 1].client.file
    requires Gives(files, r.states[i + 1].client, b, v, e, later)
    ensures Gives(files, r.states[i].client, ReplyIn(r.steps[i]) + b, SentIn(files, r.states[i], r.steps[i]) + v, e, later)
  {
    var s, step, t := r.states[i], r.steps[i], r.states[i + 1];
    StepOfRun(files, r, i);
    ClientStep(files, s, step, t, b + later);
    GivesBoth(files, s.client, ReplyIn(step), SentIn(files, s, step), t.client, b, v, e, later);
  }

  /** What either end sends in a step is what the network gets from it, and it takes from the
      network no more than what it receives. */
  lemma NetworkGetsWhatIsSent(files: seq<Text>, s: State, step: Step, t: State)
    requires Takes(files, s, step, t) && !step.LosePacket? && !step.CopyPacket? && !step.LoseAck? && !step.CopyAck?
    ensures t.data + (if step.ServerReceive? then multiset{step.p} else multiset{}) == s.data + multiset(SentIn(files, s, step))
    ensures t.acks + (if step.ClientReply? then multiset{step.a} else multiset{}) == s.acks + multiset(AcksIn(s, step))
  {
  }

  /** While it is at one file, the client of any run sends and becomes what its program's pass
      gives for the replies the run brought it, whatever replies come later. */
  lemma {:induction false} ClientDoesItsProgram(files: seq<Text>, r: Behaviour, i: nat, later: seq<Option<Ack>>)
    requires IsRun(Next(files), r) && StaysAt(files, r, i) && GoodReplies(later)
    requires Shape(files, Last(r))
    ensures Gives(files, r.states[i].client, Replies(r, i), Sent(files, r, i), Last(r).client, later)
    decreases |r.steps| - i
  {
    if i == |r.steps| {
      GivesNothing(files, Last(r).client, later);
    } else {
      ClientDoesItsProgram(files, r, i + 1, later);
      ClientStepThen(files, r, i, Replies(r, i + 1), Sent(files, r, i + 1), Last(r).client, later);
    }
  }

  /** A whole pass: once the client is past the file's last segment, the program's pass has
      ended where it is, and has sent what it sent. */
  lemma PassIsTheProgram(files: seq<Text>, r: Behaviour, later: seq<Option<Ack>>)
    requires IsRun(Next(files), r) && StaysAt(files, r, 0) && GoodReplies(later)
    requires Shape(files, Last(r)) && !Last(r).client.awaiting && !HasSegment(files[Last(r).client.file], Last(r).client.seg)
    ensures GoodReplies(Replies(r, 0) + later) && GoodClient(files, r.states[0].client)
    ensures AtFile(files, r.states[0].client, Replies(r, 0) + later) == (Last(r).client, Sent(files, r, 0))
  {
    ClientDoesItsProgram(files, r, 0, later);
    assert Sent(files, r, 0) + [] == Sent(files, r, 0);
  }

  // ---------------------------------------------------------------------------------------
  // The server
  // ---------------------------------------------------------------------------------------

  /** The turn of the receive loop that ends in this step, if one does. */
  ghost function ArrivalIn(s: State, step: Step): seq<Arrival> {
    if step.ServerHandle? && s.held.Some? then [Arrival(s.held.value, step.opens)] else []
  }

  /** The acknowledgements the server sends in this step. */
  ghost function AcksIn(s: State, step: Step): seq<Ack> {
    match step
    case ServerReceive(p) => [AckOf(p)]
    case ServerHandle(_) =>
      if s.held.Some? && Stored(s.server, s.held.value.file, s.held.value.seg) then [AckOf(s.held.value)] else []
    case _ => []
  }

  ghost function Arrivals(r: Behaviour, i: nat): seq<Arrival>
    decreases |r.steps| - i
  {
    if i >= |r.steps| || i >= |r.states| then [] else ArrivalIn(r.states[i], r.steps[i]) + Arrivals(r, i + 1)
  }

  ghost function AcksSent(r: Behaviour, i: nat): seq<Ack>
    decreases |r.steps| - i
  {
    if i >= |r.steps| || i >= |r.states| then [] else AcksIn(r.states[i], r.steps[i]) + AcksSent(r, i + 1)
  }

  /** The acknowledgement of a packet whose turn is not over. */
  ghost function Early(s: State): seq<Ack> {
    if s.held.Some? then [AckOf(s.held.value)] else []
  }

  /** The acknowledgements of the turn that ends in this step. */
  ghost function TurnAcks(s: State, step: Step): seq<Ack> {
    if step.ServerHandle? && s.held.Some? then AcksFor(s.server, s.held.value) else []
  }

  lemma HeldAfter(files: seq<Text>, s: State, step: Step, t: State)
    requires Takes(files, s, step, t)
    ensures t.held == match step
                      case ServerReceive(p) => Some(p)
                      case ServerHandle(_) => None
                      case _ => s.held
  {
  }

  lemma AcksOfStep(files: seq<Text>, s: State, step: Step, t: State)
    requires Takes(files, s, step, t)
    ensures Early(s) + AcksIn(s, step) == TurnAcks(s, step) + Early(t)
  {
    HeldAfter(files, s, step, t);
  }

  lemma ServerStep(files: seq<Text>, s: State, step: Step, t: State, later: seq<Arrival>)
    requires Takes(files, s, step, t) && AllAddressable(later)
    ensures AllAddressable(ArrivalIn(s, step) + later) && WellSized(t.server)
    ensures var rest := Served(t.server, later);
            Served(s.server, ArrivalIn(s, step) + later) == (rest.0, TurnAcks(s, step) + rest.1)
  {
    ShapeKept(files, s, step);
    if step.ServerHandle? {
      TurnServed(s.server, ArrivalIn(s, step)[0], later);
    } else {
      var rest := Served(t.server, later);
      assert rest == (rest.0, rest.1) && [] + rest.1 == rest.1 && [] + later == later;
    }
  }

  lemma TurnServed(sv: Server, a: Arrival, later: seq<Arrival>)
    requires WellSized(sv) && Addressable(a.packet) && AllAddressable(later)
    ensures AllAddressable([a] + later) && WellSized(Handle(sv, a.packet, a.opens))
    ensures var rest := Served(Handle(sv, a.packet, a.opens), later);
            Served(sv, [a] + later) == (rest.0, AcksFor(sv, a.packet) + rest.1)
  {
    HandleIsWellSized(sv, a.packet, a.opens);
    assert ([a] + later)[1..] == later;
  }

  lemma Swap(e: seq<Ack>, a: seq<Ack>, u: seq<Ack>, e': seq<Ack>, as': seq<Ack>, x: seq<Ack>, last: seq<Ack>)
    requires e + a == u + e' && e' + as' == x + last
    ensures e + (a + as') == (u + x) + last
  {
    Assoc(e, a, as');
    Assoc(u, e', as');
    Assoc(u, x, last);
  }

  /** The server of any run is what its program becomes by the packets whose turns are over, and
      it has sent their acknowledgements in this order, and the first of the turn under way. */
  lemma {:induction false} ServerDoesItsProgram(files: seq<Text>, r: Behaviour, i: nat)
    requires IsRun(Next(files), r) && i < |r.states| && Shape(files, r.states[i])
    ensures AllAddressable(Arrivals(r, i))
    ensures var (server, acks) := Served(r.states[i].server, Arrivals(r, i));
            && Last(r).server == server
            && Early(r.states[i]) + AcksSent(r, i) == acks + Early(Last(r))
    decreases |r.steps| - i
  {
    if i < |r.steps| {
      var s, step, t := r.states[i], r.steps[i], r.states[i + 1];
      StepOfRun(files, r, i);
      ShapeKept(files, s, step);
      ServerDoesItsProgram(files, r, i + 1);
      ServerStep(files, s, step, t, Arrivals(r, i + 1));
      AcksOfStep(files, s, step, t);
      Swap(Early(s), AcksIn(s, step), TurnAcks(s, step), Early(t), AcksSent(r, i + 1),
           Served(t.server, Arrivals(r, i + 1)).1, Early(Last(r)));
    }
  }
}
