/**
The chat daemon of hw1: client slots, the channel list with its user counters, and each client's
set of channels (sections 4.2.1, 4.2.2 and 4.4.1 of RFC 1459). When do the counters tell the
truth?
*/
module Irc {
  import opened Octets
  import opened Runs

  datatype Client = Client(id: int, fd: int, name: string, curCh: string, joined: set<string>)

  datatype Channel = Channel(name: string, users: nat, topic: string)

  datatype State = State(clients: seq<Client>, channels: seq<Channel>, online: int)

  const NOBODY: Client := Client(-1, -1, "", "", {})

  predicate IsOnline(c: Client) {
    c.fd > 0
  }

  predicate IsMember(c: Client, channel: string) {
    IsOnline(c) && channel in c.joined
  }

  /** How many clients that are online hold the channel. */
  function Count(clients: seq<Client>, channel: string): nat {
    if clients == [] then 0
    else
      var n := |clients| - 1;
      Count(clients[..n], channel) + if IsMember(clients[n], channel) then 1 else 0
  }

  /** The first channel of that name, or the length of the list. */
  function Find(channels: seq<Channel>, name: string): (j: nat)
    ensures j <= |channels| && (j < |channels| ==> channels[j].name == name)
    ensures forall k :: 0 <= k < j ==> channels[k].name != name
  {
    if channels == [] || channels[0].name == name then 0 else 1 + Find(channels[1..], name)
  }

  predicate Exists(s: State, channel: string) {
    Find(s.channels, channel) < |s.channels|
  }

  // ---------------------------------------------------------------------------------------
  // The handlers
  // ---------------------------------------------------------------------------------------

  datatype Command = Accept(fd: int) | Nick(i: nat, name: string) | Join(i: nat, channel: string)
                   | Part(i: nat, channel: string) | Topic(i: nat, channel: string, topic: string)
                   | Message(i: nat, channel: string) | Quit(i: nat)

  /** The first slot without a descriptor, or the number of slots. */
  function FreeSlot(clients: seq<Client>): (i: nat)
    ensures i <= |clients| && (i < |clients| ==> clients[i].fd < 0)
    ensures forall k :: 0 <= k < i ==> clients[k].fd >= 0
  {
    if clients == [] || clients[0].fd < 0 then 0 else 1 + FreeSlot(clients[1..])
  }

  lemma FreeSlotIs(clients: seq<Client>, i: nat)
    requires i <= |clients| && (i < |clients| ==> clients[i].fd < 0)
    requires forall k :: 0 <= k < i ==> clients[k].fd >= 0
    ensures FreeSlot(clients) == i
  {
  }

  function AfterAccept(s: State, fd: int): State {
    var i := FreeSlot(s.clients);
    if i < |s.clients| then s.(clients := s.clients[i := s.clients[i].(id := i, fd := fd)], online := s.online + 1) else s
  }

  function AfterNick(s: State, i: nat, name: string): State
    requires i < |s.clients|
  {
    s.(clients := s.clients[i := s.clients[i].(name := name)])
  }

  function AfterJoin(s: State, i: nat, channel: string): State
    requires i < |s.clients|
  {
    var j, c := Find(s.channels, channel), s.clients[i];
    var entered := s.clients[i := c.(curCh := channel, joined := c.joined + {channel})];
    if j < |s.channels| then
      if c.curCh != channel then
        s.(channels := s.channels[j := s.channels[j].(users := s.channels[j].users + 1)], clients := entered)
      else s
    else s.(channels := s.channels + [Channel(channel, 1, "")], clients := entered)
  }

  function AfterPart(s: State, i: nat, channel: string): State
    requires i < |s.clients|
  {
    var j, c := Find(s.channels, channel), s.clients[i];
    var left := c.(curCh := if c.curCh == channel then "" else c.curCh, joined := c.joined - {channel});
    s.(clients := s.clients[i := left],
       channels := if j < |s.channels| && s.channels[j].users > 0
                   then s.channels[j := s.channels[j].(users := s.channels[j].users - 1)] else s.channels)
  }

  function AfterTopic(s: State, channel: string, topic: string): State {
    var j := Find(s.channels, channel);
    if j < |s.channels| then s.(channels := s.channels[j := s.channels[j].(topic := topic)]) else s
  }

  /** The channels' counters and the slot's current channel stay as they are. */
  function AfterQuit(s: State, i: nat): State
    requires i < |s.clients|
  {
    s.(clients := s.clients[i := s.clients[i].(fd := -1, name := "", id := -1, joined := {})], online := s.online - 1)
  }

  predicate Enabled(s: State, c: Command) {
    match c
    case Accept(fd) => fd > 0
    case Nick(i, _) => i < |s.clients| && IsOnline(s.clients[i])
    case Join(i, _) => i < |s.clients| && IsOnline(s.clients[i])
    case Part(i, _) => i < |s.clients| && IsOnline(s.clients[i])
    case Topic(i, _, _) => i < |s.clients| && IsOnline(s.clients[i])
    case Message(i, _) => i < |s.clients| && IsOnline(s.clients[i])
    case Quit(i) => i < |s.clients| && IsOnline(s.clients[i])
  }

  function Apply(s: State, c: Command): State
    requires Enabled(s, c)
  {
    match c
    case Accept(fd) => AfterAccept(s, fd)
    case Nick(i, name) => AfterNick(s, i, name)
    case Join(i, channel) => AfterJoin(s, i, channel)
    case Part(i, channel) => AfterPart(s, i, channel)
    case Topic(i, channel, topic) => AfterTopic(s, channel, topic)
    case Message(i, channel) => s
    case Quit(i) => AfterQuit(s, i)
  }

  // ---------------------------------------------------------------------------------------
  // Truthful counters
  // ---------------------------------------------------------------------------------------

  ghost predicate SlotsAgree(clients: seq<Client>) {
    forall k :: 0 <= k < |clients| ==>
      if IsOnline(clients[k]) then clients[k].id == k else clients[k].fd < 0 && clients[k].joined == {}
  }

  ghost predicate DistinctNames(channels: seq<Channel>) {
    forall j, k :: 0 <= j < k < |channels| ==> channels[j].name != channels[k].name
  }

  ghost predicate Listed(s: State) {
    forall k, c :: 0 <= k < |s.clients| && c in s.clients[k].joined ==> Exists(s, c)
  }

  ghost predicate Counted(s: State) {
    forall j :: 0 <= j < |s.channels| ==> s.channels[j].users == Count(s.clients, s.channels[j].name)
  }

  function Online(clients: seq<Client>): nat {
    if clients == [] then 0
    else
      var n := |clients| - 1;
      Online(clients[..n]) + if IsOnline(clients[n]) then 1 else 0
  }

  /** What every run keeps, whatever the clients send. */
  ghost predicate Structured(s: State) {
    SlotsAgree(s.clients) && DistinctNames(s.channels) && Listed(s) && s.online == Online(s.clients)
  }

  /** Every channel's counter is the number of clients online that hold it. */
  ghost predicate Truthful(s: State) {
    Structured(s) && Counted(s)
  }

  lemma {:induction false} CountAfter(clients: seq<Client>, i: nat, c: Client, channel: string)
    requires i < |clients|
    ensures Count(clients[i := c], channel)
         == Count(clients, channel) - (if IsMember(clients[i], channel) then 1 else 0) + (if IsMember(c, channel) then 1 else 0)
  {
    var n := |clients| - 1;
    if i == n {
      assert clients[i := c][..n] == clients[..n];
    } else {
      assert clients[i := c][..n] == clients[..n][i := c];
      CountAfter(clients[..n], i, c, channel);
    }
  }

  lemma {:induction false} OnlineAfter(clients: seq<Client>, i: nat, c: Client)
    requires i < |clients|
    ensures Online(clients[i := c])
         == Online(clients) - (if IsOnline(clients[i]) then 1 else 0) + (if IsOnline(c) then 1 else 0)
  {
    var n := |clients| - 1;
    if i == n {
      assert clients[i := c][..n] == clients[..n];
    } else {
      assert clients[i := c][..n] == clients[..n][i := c];
      OnlineAfter(clients[..n], i, c);
    }
  }

  lemma {:induction false} NobodyHolds(clients: seq<Client>, channel: string)
    requires forall k :: 0 <= k < |clients| ==> channel !in clients[k].joined
    ensures Count(clients, channel) == 0
  {
    if clients != [] {
      NobodyHolds(clients[..|clients| - 1], channel);
    }
  }

  // ---------------------------------------------------------------------------------------
  // What every command keeps
  // ---------------------------------------------------------------------------------------

  lemma SlotChanged(clients: seq<Client>, i: nat, c: Client)
    requires SlotsAgree(clients) && i < |clients|
    requires if IsOnline(c) then c.id == i else c.fd < 0 && c.joined == {}
    ensures SlotsAgree(clients[i := c])
  {
  }

  lemma FoundByName(s: State, t: State, channel: string)
    requires Exists(s, channel) && |s.channels| <= |t.channels|
    requires forall j :: 0 <= j < |s.channels| ==> t.channels[j].name == s.channels[j].name
    ensures Exists(t, channel)
  {
    var j := Find(s.channels, channel);
    assert t.channels[j].name == channel;
  }

  /** A handler changes at most one slot, and at most adds one channel. */
  lemma ListedAfter(s: State, t: State, i: nat, added: set<string>)
    requires Listed(s) && |s.channels| <= |t.channels| && i < |s.clients| == |t.clients|
    requires forall j :: 0 <= j < |s.channels| ==> t.channels[j].name == s.channels[j].name
    requires forall k :: 0 <= k < |s.clients| && k != i ==> t.clients[k] == s.clients[k]
    requires t.clients[i].joined <= s.clients[i].joined + added && forall c :: c in added ==> Exists(t, c)
    ensures Listed(t)
  {
    forall k, c | 0 <= k < |t.clients| && c in t.clients[k].joined
      ensures Exists(t, c)
    {
      if c in s.clients[k].joined {
        FoundByName(s, t, c);
      }
    }
  }

  lemma AddedIsFound(channels: seq<Channel>, c: Channel)
    requires DistinctNames(channels) && Find(channels, c.name) == |channels|
    ensures DistinctNames(channels + [c]) && Find(channels + [c], c.name) == |channels|
  {
    var more := channels + [c];
    var r := Find(more, c.name);
    assert more[|channels|] == c;
    forall k | 0 <= k < |channels|
      ensures more[k].name != c.name
    {
      assert more[k] == channels[k];
    }
    forall j, k | 0 <= j < k < |more|
      ensures more[j].name != more[k].name
    {
      assert more[j] == channels[j];
    }
  }

  lemma JoinKeepsStructure(s: State, i: nat, channel: string)
    requires Structured(s) && i < |s.clients| && IsOnline(s.clients[i])
    ensures Structured(AfterJoin(s, i, channel))
  {
    var t, j := AfterJoin(s, i, channel), Find(s.channels, channel);
    if t != s {
      OnlineAfter(s.clients, i, t.clients[i]);
      SlotChanged(s.clients, i, t.clients[i]);
      if j < |s.channels| {
        assert t.channels[j].name == channel;
      } else {
        AddedIsFound(s.channels, Channel(channel, 1, ""));
      }
      ListedAfter(s, t, i, {channel});
    }
  }

  lemma PartKeepsStructure(s: State, i: nat, channel: string)
    requires Structured(s) && i < |s.clients| && IsOnline(s.clients[i])
    ensures Structured(AfterPart(s, i, channel))
  {
    var t := AfterPart(s, i, channel);
    OnlineAfter(s.clients, i, t.clients[i]);
    SlotChanged(s.clients, i, t.clients[i]);
    ListedAfter(s, t, i, {});
  }

  lemma QuitKeepsStructure(s: State, i: nat)
    requires Structured(s) && i < |s.clients| && IsOnline(s.clients[i])
    ensures Structured(AfterQuit(s, i))
  {
    var t := AfterQuit(s, i);
    OnlineAfter(s.clients, i, t.clients[i]);
    SlotChanged(s.clients, i, t.clients[i]);
    ListedAfter(s, t, i, {});
  }

  lemma AcceptKeepsStructure(s: State, fd: int)
    requires Structured(s) && fd > 0
    ensures Structured(AfterAccept(s, fd))
  {
    var t, i := AfterAccept(s, fd), FreeSlot(s.clients);
    if i < |s.clients| {
      OnlineAfter(s.clients, i, t.clients[i]);
      SlotChanged(s.clients, i, t.clients[i]);
      ListedAfter(s, t, i, {});
    }
  }

  lemma NickKeepsStructure(s: State, i: nat, name: string)
    requires Structured(s) && i < |s.clients| && IsOnline(s.clients[i])
    ensures Structured(AfterNick(s, i, name))
  {
    var t := AfterNick(s, i, name);
    OnlineAfter(s.clients, i, t.clients[i]);
    SlotChanged(s.clients, i, t.clients[i]);
    ListedAfter(s, t, i, {});
  }

  lemma TopicKeepsStructure(s: State, channel: string, topic: string)
    requires Structured(s)
    ensures Structured(AfterTopic(s, channel, topic))
  {
    var t := AfterTopic(s, channel, topic);
    if s.clients != [] {
      ListedAfter(s, t, 0, {});
    }
  }

  lemma StructureIsKept(s: State, c: Command)
    requires Structured(s) && Enabled(s, c)
    ensures Structured(Apply(s, c))
  {
    match c
    case Accept(fd) => AcceptKeepsStructure(s, fd);
    case Nick(i, name) => NickKeepsStructure(s, i, name);
    case Join(i, channel) => JoinKeepsStructure(s, i, channel);
    case Part(i, channel) => PartKeepsStructure(s, i, channel);
    case Topic(i, channel, topic) => TopicKeepsStructure(s, channel, topic);
    case Message(i, channel) =>
    case Quit(i) => QuitKeepsStructure(s, i);
  }

  // ---------------------------------------------------------------------------------------
  // When a command falsifies a counter
  // ---------------------------------------------------------------------------------------

  /** A second JOIN of a channel that is not the current one; a PART by somebody who is not in
      the channel; a QUIT by somebody who is in one. */
  predicate Miscounts(s: State, c: Command)
    requires Enabled(s, c)
  {
    match c
    case Join(i, channel) => Exists(s, channel) && channel in s.clients[i].joined && s.clients[i].curCh != channel
    case Part(i, channel) =>
      channel !in s.clients[i].joined && Exists(s, channel) && s.channels[Find(s.channels, channel)].users > 0
    case Quit(i) => s.clients[i].joined != {}
    case Accept(_) => false
    case Nick(_, _) => false
    case Topic(_, _, _) => false
    case Message(_, _) => false
  }

  lemma JoinIsCounted(s: State, i: nat, channel: string)
    requires Truthful(s) && Enabled(s, Join(i, channel))
    ensures Counted(AfterJoin(s, i, channel)) <==> !Miscounts(s, Join(i, channel))
  {
    var t, j := AfterJoin(s, i, channel), Find(s.channels, channel);
    if j < |s.channels| && s.clients[i].curCh == channel {
      assert t == s;
    } else if j < |s.channels| {
      forall k | 0 <= k < |s.channels|
        ensures t.channels[k].users == Count(t.clients, t.channels[k].name)
            <==> k != j || channel !in s.clients[i].joined
      {
        CountAfter(s.clients, i, t.clients[i], s.channels[k].name);
      }
      assert t.channels[j].name == channel;
    } else {
      forall k | 0 <= k < |t.channels|
        ensures t.channels[k].users == Count(t.clients, t.channels[k].name)
      {
        CountAfter(s.clients, i, t.clients[i], t.channels[k].name);
        if k == j {
          forall n | 0 <= n < |s.clients|
            ensures channel !in s.clients[n].joined
          {
            assert channel in s.clients[n].joined ==> Exists(s, channel);
          }
          NobodyHolds(s.clients, channel);
        }
      }
    }
  }

  lemma PartIsCounted(s: State, i: nat, channel: string)
    requires Truthful(s) && Enabled(s, Part(i, channel))
    ensures Counted(AfterPart(s, i, channel)) <==> !Miscounts(s, Part(i, channel))
  {
    var t, j := AfterPart(s, i, channel), Find(s.channels, channel);
    forall k | 0 <= k < |s.channels|
      ensures t.channels[k].users == Count(t.clients, t.channels[k].name)
          <==> k != j || channel in s.clients[i].joined || s.channels[j].users == 0
    {
      CountAfter(s.clients, i, t.clients[i], s.channels[k].name);
    }
    if j < |s.channels| {
      assert t.channels[j].name == channel;
    }
  }

  lemma QuitIsCounted(s: State, i: nat)
    requires Truthful(s) && Enabled(s, Quit(i))
    ensures Counted(AfterQuit(s, i)) <==> !Miscounts(s, Quit(i))
  {
    var t := AfterQuit(s, i);
    forall k | 0 <= k < |s.channels|
      ensures t.channels[k].users == Count(t.clients, t.channels[k].name) <==> s.channels[k].name !in s.clients[i].joined
    {
      CountAfter(s.clients, i, t.clients[i], s.channels[k].name);
    }
    if c :| c in s.clients[i].joined {
      assert Exists(s, c);
      var k := Find(s.channels, c);
      assert t.channels[k].users != Count(t.clients, t.channels[k].name);
    }
  }

  lemma AcceptIsCounted(s: State, fd: int)
    requires Truthful(s) && fd > 0
    ensures Counted(AfterAccept(s, fd))
  {
    var t, i := AfterAccept(s, fd), FreeSlot(s.clients);
    if i < |s.clients| {
      forall k | 0 <= k < |s.channels|
        ensures t.channels[k].users == Count(t.clients, t.channels[k].name)
      {
        CountAfter(s.clients, i, t.clients[i], s.channels[k].name);
      }
    }
  }

  lemma NickIsCounted(s: State, i: nat, name: string)
    requires Truthful(s) && i < |s.clients|
    ensures Counted(AfterNick(s, i, name))
  {
    var t := AfterNick(s, i, name);
    forall k | 0 <= k < |s.channels|
      ensures t.channels[k].users == Count(t.clients, t.channels[k].name)
    {
      CountAfter(s.clients, i, t.clients[i], s.channels[k].name);
    }
  }

  /** From truthful counters a command leads to truthful counters exactly when it does not
      miscount. */
  lemma TruthIsKeptUnlessMiscounted(s: State, c: Command)
    requires Truthful(s) && Enabled(s, c)
    ensures Truthful(Apply(s, c)) <==> !Miscounts(s, c)
  {
    StructureIsKept(s, c);
    match c
    case Accept(fd) => AcceptIsCounted(s, fd);
    case Nick(i, name) => NickIsCounted(s, i, name);
    case Join(i, channel) => JoinIsCounted(s, i, channel);
    case Part(i, channel) => PartIsCounted(s, i, channel);
    case Topic(i, channel, topic) =>
    case Message(i, channel) =>
    case Quit(i) => QuitIsCounted(s, i);
  }

  // ---------------------------------------------------------------------------------------
  // Whole runs
  // ---------------------------------------------------------------------------------------

  ghost function Next(): (State, Command, State) -> bool {
    (s: State, c: Command, t: State) => Enabled(s, c) && t == Apply(s, c)
  }

  /** Commands of clients that join only channels they are not in, leave only channels they are
      in, and leave all before they quit. */
  ghost function NextOrderly(): (State, Command, State) -> bool {
    (s: State, c: Command, t: State) => Enabled(s, c) && IsOrderly(s, c) && t == Apply(s, c)
  }

  predicate IsOrderly(s: State, c: Command)
    requires Enabled(s, c)
  {
    match c
    case Join(i, channel) => channel !in s.clients[i].joined
    case Part(i, channel) => channel in s.clients[i].joined
    case Quit(i) => s.clients[i].joined == {}
    case Accept(_) => true
    case Nick(_, _) => true
    case Topic(_, _, _) => true
    case Message(_, _) => true
  }

  function Empty(slots: nat): State {
    State(seq(slots, _ => NOBODY), [], 0)
  }

  lemma {:induction false} NobodyOnline(clients: seq<Client>)
    requires forall k :: 0 <= k < |clients| ==> clients[k] == NOBODY
    ensures Online(clients) == 0
  {
    if clients != [] {
      NobodyOnline(clients[..|clients| - 1]);
    }
  }

  lemma EmptyIsTruthful(slots: nat)
    ensures Truthful(Empty(slots))
  {
    NobodyOnline(Empty(slots).clients);
  }

  /** However the commands of orderly clients interleave, every counter stays the number of
      clients that hold its channel, and no name appears twice in the list. */
  lemma OrderlyRunsCount(slots: nat, r: Run<State, Command>, n: nat)
    requires IsRun(NextOrderly(), r) && n < |r.states| && r.states[0] == Empty(slots)
    ensures Truthful(r.states[n])
  {
    EmptyIsTruthful(slots);
    forall s, c, t | Truthful(s) && NextOrderly()(s, c, t)
      ensures Truthful(t)
    {
      TruthIsKeptUnlessMiscounted(s, c);
    }
    HoldsAlong(NextOrderly(), s => Truthful(s), r, 0, n);
  }

  /** On any run at all the counters are true in every state exactly when no command miscounts. */
  lemma {:induction false} RunsCountUnlessMiscounted(slots: nat, r: Run<State, Command>, n: nat)
    requires IsRun(Next(), r) && n < |r.states| && r.states[0] == Empty(slots)
    ensures (forall k :: 0 <= k <= n ==> Truthful(r.states[k]))
        <==> (forall k {:trigger r.steps[k]} :: 0 <= k < n ==> !Miscounts(r.states[k], r.steps[k]))
  {
    EmptyIsTruthful(slots);
    if n > 0 {
      RunsCountUnlessMiscounted(slots, r, n - 1);
      assert Next()(r.states[n - 1], r.steps[n - 1], r.states[n]);
      if Truthful(r.states[n - 1]) {
        TruthIsKeptUnlessMiscounted(r.states[n - 1], r.steps[n - 1]);
      }
    }
  }

  /** A client connects, joins and quits: the channel still counts it. */
  lemma QuitLeavesTheCounter() returns (r: Run<State, Command>)
    ensures IsRun(Next(), r) && r.states[0] == Empty(1) && r.steps == [Accept(4), Join(0, "a"), Quit(0)]
    ensures !Truthful(Last(r))
  {
    var s := Empty(1);
    var a := Apply(s, Accept(4));
    var b := Apply(a, Join(0, "a"));
    var c := Apply(b, Quit(0));
    r := Run([s, a, b, c], [Accept(4), Join(0, "a"), Quit(0)]);
    forall i | 0 <= i < |r.steps|
      ensures Next()(r.states[i], r.steps[i], r.states[i + 1])
    {
      assert i == 0 || i == 1 || i == 2;
    }
    assert "a" in b.clients[0].joined;
    assert Miscounts(r.states[2], r.steps[2]);
    RunsCountUnlessMiscounted(1, r, 2);
    RunsCountUnlessMiscounted(1, r, 3);
    assert forall k {:trigger r.steps[k]} :: 0 <= k < 2 ==> !Miscounts(r.states[k], r.steps[k]);
  }

  /** JOIN makes the client a member unless the channel exists and is the slot's current one
      without being held: then it only answers "Already in channel". */
  lemma JoinTakesEffect(s: State, i: nat, channel: string)
    requires i < |s.clients|
    ensures channel in AfterJoin(s, i, channel).clients[i].joined
        <==> channel in s.clients[i].joined || !Exists(s, channel) || s.clients[i].curCh != channel
  {
  }

  ghost predicate CurrentIsHeld(s: State) {
    forall k :: 0 <= k < |s.clients| ==> s.clients[k].curCh == "" || s.clients[k].curCh in s.clients[k].joined
  }

  lemma CurrentStaysHeld(s: State, c: Command)
    requires CurrentIsHeld(s) && Enabled(s, c) && IsOrderly(s, c)
    ensures CurrentIsHeld(Apply(s, c))
  {
  }

  /** On orderly runs the current channel is a held one, also in a slot used again, so that every
      JOIN of a named channel takes effect. */
  lemma OrderlyJoinTakesEffect(slots: nat, r: Run<State, Command>, n: nat, i: nat, channel: string)
    requires IsRun(NextOrderly(), r) && n < |r.steps| && r.states[0] == Empty(slots)
    requires r.steps[n] == Join(i, channel) && channel != ""
    ensures i < |r.states[n + 1].clients| && channel in r.states[n + 1].clients[i].joined
  {
    forall s, c, t | CurrentIsHeld(s) && NextOrderly()(s, c, t)
      ensures CurrentIsHeld(t)
    {
      CurrentStaysHeld(s, c);
    }
    HoldsAlong(NextOrderly(), s => CurrentIsHeld(s), r, 0, n);
    assert NextOrderly()(r.states[n], r.steps[n], r.states[n + 1]);
    JoinTakesEffect(r.states[n], i, channel);
  }

  // ---------------------------------------------------------------------------------------
  // A message to a channel
  // ---------------------------------------------------------------------------------------

  /** The slots a message of client i to the channel is written to, among the first n. */
  function Receivers(clients: seq<Client>, i: nat, channel: string, n: nat): seq<nat>
    requires n <= |clients|
  {
    if n == 0 then []
    else
      Receivers(clients, i, channel, n - 1)
        + if IsMember(clients[n - 1], channel) && clients[n - 1].id != i then [n - 1] else []
  }

  /** Every other client that is online and in the channel gets the message exactly once, and
      nobody else does. */
  lemma {:induction false} EachOtherMemberOnce(clients: seq<Client>, i: nat, channel: string, n: nat)
    requires SlotsAgree(clients) && n <= |clients|
    ensures var to := Receivers(clients, i, channel, n);
            && (forall j :: j in to <==> 0 <= j < n && j != i && IsMember(clients[j], channel))
            && (forall a, b :: 0 <= a < b < |to| ==> to[a] < to[b])
  {
    if n > 0 {
      EachOtherMemberOnce(clients, i, channel, n - 1);
      var to := Receivers(clients, i, channel, n - 1);
      forall a | 0 <= a < |to|
        ensures to[a] < n - 1
      {
        assert to[a] in to;
      }
    }
  }

  /** Whatever the clients have sent before, slots, ids, lists and the number online agree. */
  lemma StructureAlong(slots: nat, r: Run<State, Command>, n: nat)
    requires IsRun(Next(), r) && n < |r.states| && r.states[0] == Empty(slots)
    ensures Structured(r.states[n])
  {
    EmptyIsTruthful(slots);
    forall s, c, t | Structured(s) && Next()(s, c, t)
      ensures Structured(t)
    {
      StructureIsKept(s, c);
    }
    HoldsAlong(Next(), s => Structured(s), r, 0, n);
  }

  /** So on any run a message reaches every other member once and nobody else. */
  lemma MessagesReachOnce(slots: nat, r: Run<State, Command>, n: nat, i: nat, channel: string)
    requires IsRun(Next(), r) && n < |r.steps| && r.states[0] == Empty(slots) && r.steps[n] == Message(i, channel)
    ensures var clients := r.states[n].clients;
            var to := Receivers(clients, i, channel, |clients|);
            && (forall j :: j in to <==> 0 <= j < |clients| && j != i && IsMember(clients[j], channel))
            && (forall a, b :: 0 <= a < b < |to| ==> to[a] < to[b])
  {
    StructureAlong(slots, r, n);
    EachOtherMemberOnce(r.states[n].clients, i, channel, |r.states[n].clients|);
  }

  // ---------------------------------------------------------------------------------------
  // What a slot and a channel hold, by the commands alone
  // ---------------------------------------------------------------------------------------

  lemma StepOfRun(r: Run<State, Command>, n: nat)
    requires IsRun(Next(), r) && n < |r.steps|
    ensures Enabled(r.states[n], r.steps[n]) && r.states[n + 1] == Apply(r.states[n], r.steps[n])
  {
    assert Next()(r.states[n], r.steps[n], r.states[n + 1]);
  }

  /** The nickname last taken in slot i since its last QUIT. */
  function NickIn(commands: seq<Command>, i: nat, n: nat): string
    requires n <= |commands|
  {
    if n == 0 then ""
    else if commands[n - 1].Nick? && commands[n - 1].i == i then commands[n - 1].name
    else if commands[n - 1] == Quit(i) then ""
    else NickIn(commands, i, n - 1)
  }

  /** The channel last joined in slot i and not parted since. */
  function CurrentIn(commands: seq<Command>, i: nat, n: nat): string
    requires n <= |commands|
  {
    if n == 0 then ""
    else
      var before := CurrentIn(commands, i, n - 1);
      match commands[n - 1]
      case Join(j, channel) => if j == i then channel else before
      case Part(j, channel) => if j == i && before == channel then "" else before
      case _ => before
  }

  lemma SlotInStep(s: State, c: Command, i: nat)
    requires Enabled(s, c) && i < |s.clients|
    ensures |Apply(s, c).clients| == |s.clients|
    ensures Apply(s, c).clients[i].name
         == if c.Nick? && c.i == i then c.name else if c == Quit(i) then "" else s.clients[i].name
    ensures Apply(s, c).clients[i].fd
         == if c.Accept? && s.clients[i].fd < 0 && (forall k :: 0 <= k < i ==> s.clients[k].fd >= 0) then c.fd
            else if c == Quit(i) then -1 else s.clients[i].fd
    ensures Apply(s, c).clients[i].curCh
         == if c.Join? && c.i == i then c.channel
            else if c.Part? && c.i == i && c.channel == s.clients[i].curCh then "" else s.clients[i].curCh
  {
  }

  /** On any run a slot's name and current channel are these. */
  lemma {:induction false} SlotFollowsCommands(slots: nat, r: Run<State, Command>, i: nat, n: nat)
    requires IsRun(Next(), r) && n < |r.states| && r.states[0] == Empty(slots) && i < slots
    ensures i < |r.states[n].clients|
    ensures r.states[n].clients[i].name == NickIn(r.steps, i, n)
    ensures r.states[n].clients[i].curCh == CurrentIn(r.steps, i, n)
  {
    if n > 0 {
      SlotFollowsCommands(slots, r, i, n - 1);
      StepOfRun(r, n - 1);
      SlotInStep(r.states[n - 1], r.steps[n - 1], i);
    }
  }

  /** The topic of a channel: none before its first JOIN, then the one last set. */
  function TopicIn(commands: seq<Command>, channel: string, n: nat): Option<string>
    requires n <= |commands|
  {
    if n == 0 then None
    else
      var before := TopicIn(commands, channel, n - 1);
      match commands[n - 1]
      case Join(_, ch) => if ch == channel && before == None then Some("") else before
      case Topic(_, ch, topic) => if ch == channel && before.Some? then Some(topic) else before
      case _ => before
  }

  ghost predicate HasTopic(s: State, channel: string, topic: Option<string>) {
    && (topic.Some? <==> Exists(s, channel))
    && forall k :: 0 <= k < |s.channels| && s.channels[k].name == channel ==> topic == Some(s.channels[k].topic)
  }

  lemma JoinedTopic(s: State, i: nat, ch: string, channel: string, topic: Option<string>)
    requires i < |s.clients| && HasTopic(s, channel, topic)
    ensures HasTopic(AfterJoin(s, i, ch), channel, if ch == channel && topic == None then Some("") else topic)
  {
    var t := AfterJoin(s, i, ch);
    if Find(s.channels, ch) == |s.channels| {
      assert t.channels[|s.channels|] == Channel(ch, 1, "");
      assert forall k :: 0 <= k < |s.channels| ==> t.channels[k] == s.channels[k];
    }
    SameNamesExist(s, t, channel);
  }

  lemma SameNamesExist(s: State, t: State, channel: string)
    requires |s.channels| <= |t.channels|
    requires forall k :: 0 <= k < |s.channels| ==> t.channels[k].name == s.channels[k].name
    ensures Exists(t, channel) <==>
      Exists(s, channel) || exists k :: |s.channels| <= k < |t.channels| && t.channels[k].name == channel
  {
    var j := Find(t.channels, channel);
    if Exists(s, channel) {
      FoundByName(s, t, channel);
    }
    if k :| |s.channels| <= k < |t.channels| && t.channels[k].name == channel {
      assert j <= k;
    }
  }

  lemma SetTopic(s: State, ch: string, text: string, channel: string, topic: Option<string>)
    requires DistinctNames(s.channels) && HasTopic(s, channel, topic)
    ensures HasTopic(AfterTopic(s, ch, text), channel, if ch == channel && topic.Some? then Some(text) else topic)
  {
    SameNamesExist(s, AfterTopic(s, ch, text), channel);
  }

  lemma PartedTopic(s: State, i: nat, ch: string, channel: string, topic: Option<string>)
    requires i < |s.clients| && HasTopic(s, channel, topic)
    ensures HasTopic(AfterPart(s, i, ch), channel, topic)
  {
    SameNamesExist(s, AfterPart(s, i, ch), channel);
  }

  lemma TopicInStep(s: State, c: Command, channel: string, topic: Option<string>)
    requires Enabled(s, c) && DistinctNames(s.channels) && HasTopic(s, channel, topic)
    ensures HasTopic(Apply(s, c), channel,
                     match c
                     case Join(_, ch) => if ch == channel && topic == None then Some("") else topic
                     case Topic(_, ch, text) => if ch == channel && topic.Some? then Some(text) else topic
                     case _ => topic)
  {
    match c
    case Join(i, ch) => JoinedTopic(s, i, ch, channel, topic);
    case Part(i, ch) => PartedTopic(s, i, ch, channel, topic);
    case Topic(_, ch, text) => SetTopic(s, ch, text, channel, topic);
    case _ =>
  }

  /** On any run a channel is in the list exactly since its first JOIN, with the topic last set. */
  lemma {:induction false} TopicFollowsCommands(slots: nat, r: Run<State, Command>, channel: string, n: nat)
    requires IsRun(Next(), r) && n < |r.states| && r.states[0] == Empty(slots)
    ensures HasTopic(r.states[n], channel, TopicIn(r.steps, channel, n))
  {
    if n > 0 {
      TopicFollowsCommands(slots, r, channel, n - 1);
      StructureAlong(slots, r, n - 1);
      StepOfRun(r, n - 1);
      TopicInStep(r.states[n - 1], r.steps[n - 1], channel, TopicIn(r.steps, channel, n - 1));
    }
  }

  /** Slot i has joined the channel and not parted from it since. */
  function HeldIn(commands: seq<Command>, i: nat, channel: string, n: nat): bool
    requires n <= |commands|
  {
    if n == 0 then false
    else if commands[n - 1] == Join(i, channel) then true
    else if commands[n - 1] == Part(i, channel) then false
    else HeldIn(commands, i, channel, n - 1)
  }

  lemma HeldInStep(s: State, c: Command, i: nat, channel: string)
    requires Enabled(s, c) && IsOrderly(s, c) && CurrentIsHeld(s) && i < |s.clients| && channel != ""
    ensures |Apply(s, c).clients| == |s.clients|
    ensures channel in Apply(s, c).clients[i].joined
       <==> c == Join(i, channel) || (channel in s.clients[i].joined && c != Part(i, channel))
  {
    if c.Join? {
      JoinTakesEffect(s, c.i, c.channel);
    }
  }

  /** On orderly runs the channels a slot holds are these, for every channel with a name. */
  lemma {:induction false} MembershipFollowsCommands(slots: nat, r: Run<State, Command>, i: nat, channel: string, n: nat)
    requires IsRun(NextOrderly(), r) && n < |r.states| && r.states[0] == Empty(slots) && i < slots && channel != ""
    ensures i < |r.states[n].clients| && CurrentIsHeld(r.states[n])
    ensures channel in r.states[n].clients[i].joined <==> HeldIn(r.steps, i, channel, n)
  {
    if n > 0 {
      MembershipFollowsCommands(slots, r, i, channel, n - 1);
      assert NextOrderly()(r.states[n - 1], r.steps[n - 1], r.states[n]);
      CurrentStaysHeld(r.states[n - 1], r.steps[n - 1]);
      HeldInStep(r.states[n - 1], r.steps[n - 1], i, channel);
    }
  }
}
