/**
Client, server and a network that loses, duplicates and reorders datagrams, as one state
machine, and what every run of it keeps.
*/
module TransferNetwork {
  import opened Octets
  import opened Transfer
  import opened Runs

  /** held is the packet the server has acknowledged but not yet looked at: the program sends
      the acknowledgement before it checks for duplicates and stores. */
  datatype State = State(client: Client, server: Server, held: Option<Packet>,
                         data: multiset<Packet>, acks: multiset<Ack>)

  datatype Step =
    | ClientMove
    | ClientReply(a: Ack)
    | ClientTimeout
    | LosePacket(p: Packet)
    | CopyPacket(p: Packet)
    | LoseAck(a: Ack)
    | CopyAck(a: Ack)
    | ServerReceive(p: Packet)
    | ServerHandle(opens: bool)

  ghost predicate Shape(files: seq<Text>, s: State) {
    && SendableFiles(files)
    && GoodClient(files, s.client)
    && WellSized(s.server)
    && (s.held.Some? ==> Addressable(s.held.value))
    && (forall p :: p in s.data ==> Addressable(p))
    && (forall a :: a in s.acks ==> a.file < MAX_FILES && a.seg < SLOTS)
  }

  ghost predicate Enabled(s: State, step: Step) {
    match step
    case ClientMove => !s.client.awaiting
    case ClientReply(a) => s.client.awaiting && a in s.acks
    case ClientTimeout => s.client.awaiting
    case LosePacket(p) => p in s.data
    case CopyPacket(p) => p in s.data
    case LoseAck(a) => a in s.acks
    case CopyAck(a) => a in s.acks
    case ServerReceive(p) => s.held.None? && p in s.data
    case ServerHandle(_) => s.held.Some?
  }

  ghost function Apply(files: seq<Text>, s: State, step: Step): State
    requires Shape(files, s) && Enabled(s, step)
  {
    match step
    case ClientMove =>
      var (c, sent) := Advance(files, s.client);
      s.(client := c, data := s.data + (if sent.Some? then multiset{sent.value} else multiset{}))
    case ClientReply(a) => s.(client := Acknowledge(s.client, a), acks := s.acks - multiset{a})
    case ClientTimeout => s.(client := TimeOut(s.client))
    case LosePacket(p) => s.(data := s.data - multiset{p})
    case CopyPacket(p) => s.(data := s.data + multiset{p})
    case LoseAck(a) => s.(acks := s.acks - multiset{a})
    case CopyAck(a) => s.(acks := s.acks + multiset{a})
    case ServerReceive(p) =>
      s.(held := Some(p), data := s.data - multiset{p}, acks := s.acks + multiset{AckOf(p)})
    case ServerHandle(opens) =>
      var p := s.held.value;
      // a duplicate is acknowledged a second time
      s.(server := Handle(s.server, p, opens), held := None,
      acks := s.acks + (if Stored(s.server, p.file, p.seg) then multiset{AckOf(p)} else multiset{}))
  }

  /** A packet the client sends for one of its segments. */
  ghost predicate Honest(files: seq<Text>, p: Packet)
    requires SendableFiles(files)
  {
    p.file < |files| && HasSegment(files[p.file], p.seg) && p == PacketOf(files, p.file, p.seg)
  }

  lemma AdvanceIsGood(files: seq<Text>, c: Client)
    requires SendableFiles(files) && GoodClient(files, c) && !c.awaiting
    ensures GoodClient(files, Advance(files, c).0)
    ensures var sent := Advance(files, c).1; sent.Some? ==> Addressable(sent.value) && Honest(files, sent.value)
  {
    if Advance(files, c).1.Some? {
      assert Payload(files[c.file], c.seg)[1024] == 0;
    }
  }

  predicate IsNetworkStep(step: Step) {
    step.LosePacket? || step.CopyPacket? || step.LoseAck? || step.CopyAck? || step.ServerReceive?
  }

  lemma NetworkKeepsShape(files: seq<Text>, s: State, step: Step)
    requires Shape(files, s) && Enabled(s, step) && IsNetworkStep(step)
    ensures Shape(files, Apply(files, s, step))
  {
  }

  lemma ShapeKept(files: seq<Text>, s: State, step: Step)
    requires Shape(files, s) && Enabled(s, step)
    ensures Shape(files, Apply(files, s, step))
  {
    match step
    case ClientMove => AdvanceIsGood(files, s.client);
    case ClientReply(a) => AcknowledgeIsGood(files, s.client, a);
    case ClientTimeout =>
    case ServerHandle(opens) => HandleIsWellSized(s.server, s.held.value, opens);
    case _ => NetworkKeepsShape(files, s, step);
  }

  lemma AcknowledgeIsGood(files: seq<Text>, c: Client, a: Ack)
    requires GoodClient(files, c) && c.awaiting && a.file < MAX_FILES && a.seg < SLOTS
    ensures GoodClient(files, Acknowledge(c, a))
  {
  }

  lemma HandleIsWellSized(sv: Server, p: Packet, opens: bool)
    requires WellSized(sv) && Addressable(p)
    ensures WellSized(Handle(sv, p, opens))
  {
  }

  ghost predicate Takes(files: seq<Text>, s: State, step: Step, t: State) {
    Shape(files, s) && Enabled(s, step) && t == Apply(files, s, step)
  }

  ghost function Next(files: seq<Text>): (State, Step, State) -> bool {
    (s, step, t) => Takes(files, s, step, t)
  }

  lemma StepOfRun(files: seq<Text>, r: Run<State, Step>, i: nat)
    requires IsRun(Next(files), r) && i < |r.steps|
    ensures Takes(files, r.states[i], r.steps[i], r.states[i + 1])
  {
    assert Next(files)(r.states[i], r.steps[i], r.states[i + 1]);
  }

  /** The steps in which no completed file fails to open. */
  ghost function NextOpening(files: seq<Text>): (State, Step, State) -> bool {
    (s, step, t) => Takes(files, s, step, t) && (step.ServerHandle? ==> step.opens)
  }

  // ---------------------------------------------------------------------------------------
  // Counting bytes: the sum of the slots and the file they spell
  // ---------------------------------------------------------------------------------------

  ghost function SumOfLengths(tmp: seq<Text>, n: nat): nat
    requires n <= |tmp|
  {
    if n == 0 then 0 else SumOfLengths(tmp, n - 1) + |tmp[n - 1]|
  }

  lemma {:induction false} SumAfterUpdate(tmp: seq<Text>, n: nat, g: nat, text: Text)
    requires n <= |tmp| && g < |tmp| && tmp[g] == []
    ensures SumOfLengths(tmp[g := text], n) == SumOfLengths(tmp, n) + if g < n then |text| else 0
  {
    if n > 0 {
      SumAfterUpdate(tmp, n - 1, g, text);
    }
  }

  lemma {:induction false} SumOfEmpty(tmp: seq<Text>, n: nat)
    requires n <= |tmp| && forall g :: 0 <= g < |tmp| ==> tmp[g] == []
    ensures SumOfLengths(tmp, n) == 0
  {
    if n > 0 {
      SumOfEmpty(tmp, n - 1);
    }
  }

  /** The slots of a file hold nothing or the right segment, and the counter is their total. */
  ghost predicate EntryFits(file: Text, e: Entry) {
    && |e.check| == |e.tmp| == SLOTS
    && (forall g {:trigger e.check[g]} {:trigger e.tmp[g]} :: 0 <= g < SLOTS ==>
                      if e.check[g] then HasSegment(file, g) && e.tmp[g] == Segment(file, g) else e.tmp[g] == [])
    && e.len == SumOfLengths(e.tmp, |e.tmp|)
  }

  ghost predicate AllStored(file: Text, e: Entry, n: nat)
    requires n <= |e.check|
  {
    forall g: nat :: g < n && HasSegment(file, g) ==> e.check[g]
  }

  lemma {:induction false} BytesOfSlots(file: Text, e: Entry, n: nat)
    requires EntryFits(file, e) && n <= SLOTS
    ensures SumOfLengths(e.tmp, n) <= Clip(file, Offset(n))
    ensures SumOfLengths(e.tmp, n) == Clip(file, Offset(n)) <==> AllStored(file, e, n)
    ensures AllStored(file, e, n) ==> Flatten(e.tmp, n) == file[..Clip(file, Offset(n))]
  {
    if n > 0 {
      var g := n - 1;
      BytesOfSlots(file, e, g);
      assert |Segment(file, g)| == Clip(file, Offset(n)) - Clip(file, Offset(g));
      assert AllStored(file, e, n) <==> AllStored(file, e, g) && (HasSegment(file, g) ==> e.check[g]);
      assert file[..Clip(file, Offset(g))] + Segment(file, g) == file[..Clip(file, Offset(n))];
    }
  }

  /** Completion by byte count: the counter never exceeds the file's size, reaches it exactly
      when every segment is stored, and then the slots in order are the file. */
  lemma CompletionByByteCount(file: Text, e: Entry)
    requires Sendable(file) && EntryFits(file, e)
    ensures e.len <= |file|
    ensures e.len == |file| <==> AllStored(file, e, |e.check|)
    ensures e.len == |file| ==> Flatten(e.tmp, |e.tmp|) == file
  {
    BytesOfSlots(file, e, |e.tmp|);
    assert Clip(file, Offset(SLOTS)) == |file| && file[..|file|] == file;
  }

  lemma StoringFits(file: Text, e: Entry, g: nat)
    requires Sendable(file) && EntryFits(file, e) && g < SLOTS && HasSegment(file, g) && !e.check[g]
    ensures EntryFits(file, StoreSegment(e, g, Segment(file, g)))
  {
    SumAfterUpdate(e.tmp, |e.tmp|, g, Segment(file, g));
  }

  // ---------------------------------------------------------------------------------------
  // The invariant
  // ---------------------------------------------------------------------------------------

  ghost predicate Holding(s: State, a: Ack) {
    s.held.Some? && AckOf(s.held.value) == a
  }

  /** The directory holds exactly the finished files, each with the client's bytes. */
  ghost predicate DiskFits(files: seq<Text>, sv: Server)
    requires SendableFiles(files) && WellSized(sv)
  {
    && (forall f {:trigger sv.entries[f]} :: 0 <= f < |files| ==> (Name(f) in sv.disk <==> sv.entries[f].fin))
    && (forall name :: name in sv.disk ==> exists f: nat :: f < |files| && name == Name(f) && sv.disk[name] == files[f])
  }

  ghost predicate ServerFits(files: seq<Text>, sv: Server)
    requires SendableFiles(files)
  {
    EntriesFit(files, sv) && DiskFits(files, sv)
  }

  /** An acknowledgement, in flight or recorded, is for a segment the server has or is about to store. */
  ghost predicate AckSound(s: State, a: Ack) {
    Stored(s.server, a.file, a.seg) || Holding(s, a)
  }

  ghost predicate AcksFit(s: State)
    requires |s.client.done| == MAX_FILES && forall f :: 0 <= f < MAX_FILES ==> |s.client.done[f]| == SLOTS
  {
    && (forall a :: a in s.acks ==> AckSound(s, a))
    && (forall f: nat, g: nat :: f < MAX_FILES && g < SLOTS && s.client.done[f][g] ==> AckSound(s, Ack(f, g)))
  }

  ghost predicate Invariant(files: seq<Text>, s: State) {
    && Shape(files, s)
    && ServerFits(files, s.server)
    && (s.held.Some? ==> Honest(files, s.held.value))
    && (forall p :: p in s.data ==> Honest(files, p))
    && AcksFit(s)
  }

  ghost predicate EntriesFit(files: seq<Text>, sv: Server)
    requires SendableFiles(files)
  {
    && WellSized(sv)
    && (forall f {:trigger sv.entries[f]} :: 0 <= f < |files| ==> EntryFits(files[f], sv.entries[f]))
    && (forall f {:trigger sv.entries[f]} :: 0 <= f < |files| && sv.entries[f].fin ==> sv.entries[f].len == |files[f]|)
  }

  lemma EntryKept(file: Text, e: Entry, g: nat, text: Text)
    requires Sendable(file) && EntryFits(file, e) && g < SLOTS && HasSegment(file, g) && !e.check[g]
    requires text == Segment(file, g)
    ensures EntryFits(file, StoreSegment(e, g, text))
    ensures !e.fin || e.len != |file|
  {
    StoringFits(file, e, g);
    CompletionByByteCount(file, e);
  }

  lemma EntriesKept(files: seq<Text>, sv: Server, p: Packet, opens: bool)
    requires SendableFiles(files) && EntriesFit(files, sv) && Honest(files, p) && Addressable(p)
    requires !Stored(sv, p.file, p.seg)
    ensures EntriesFit(files, Handle(sv, p, opens))
  {
    var e, file := sv.entries[p.file], files[p.file];
    PayloadIsSegment(file, p.seg);
    EntryKept(file, e, p.seg, CString(p.content));
    var e' := StoreSegment(e, p.seg, CString(p.content));
    assert EntryFits(file, e'.(fin := true));
    var kept := Handle(sv, p, opens).entries;
    assert kept[p.file] == e' || (kept[p.file] == e'.(fin := true) && e'.len == |file|);
    assert forall f :: 0 <= f < MAX_FILES && f != p.file ==> kept[f] == sv.entries[f];
  }

  lemma AppendFits(files: seq<Text>, sv: Server, f: nat, e: Entry)
    requires SendableFiles(files) && WellSized(sv) && DiskFits(files, sv)
    requires f < |files| && !sv.entries[f].fin && |e.check| == |e.tmp| == SLOTS && e.fin
    ensures DiskFits(files, Server(sv.entries[f := e], Append(sv.disk, Name(f), files[f])))
  {
    assert Name(f) !in sv.disk;
    assert [] + files[f] == files[f];
    forall h | 0 <= h < |files| && h != f
      ensures Name(h) != Name(f)
    {
      if Name(h) == Name(f) {
        NamesDiffer(h, f);
      }
    }
  }

  lemma HandleKeeps(files: seq<Text>, sv: Server, p: Packet, opens: bool)
    requires SendableFiles(files) && ServerFits(files, sv) && Honest(files, p) && Addressable(p)
    ensures ServerFits(files, Handle(sv, p, opens))
  {
    if !Stored(sv, p.file, p.seg) {
      EntriesKept(files, sv, p, opens);
      var e, file := sv.entries[p.file], files[p.file];
      var e' := StoreSegment(e, p.seg, CString(p.content));
      if e'.len == p.total && !e.fin && opens {
        assert EntryFits(file, e') by {
          PayloadIsSegment(file, p.seg);
          StoringFits(file, e, p.seg);
        }
        CompletionByByteCount(file, e');
        AppendFits(files, sv, p.file, e'.(fin := true));
      }
    }
  }

  lemma HandleStores(sv: Server, p: Packet, opens: bool)
    requires WellSized(sv) && Addressable(p)
    ensures Stored(Handle(sv, p, opens), p.file, p.seg)
    ensures forall f, g :: Stored(sv, f, g) ==> Stored(Handle(sv, p, opens), f, g)
  {
  }

  lemma AckSoundKept(files: seq<Text>, s: State, step: Step, a: Ack)
    requires Shape(files, s) && Enabled(s, step) && AckSound(s, a)
    ensures AckSound(Apply(files, s, step), a)
  {
    if step.ServerHandle? {
      HandleStores(s.server, s.held.value, step.opens);
    }
  }

  lemma AcksInFlightKept(files: seq<Text>, s: State, step: Step, a: Ack)
    requires Shape(files, s) && Enabled(s, step) && AcksFit(s) && a in Apply(files, s, step).acks
    ensures AckSound(Apply(files, s, step), a)
  {
    if a in s.acks {
      AckSoundKept(files, s, step, a);
    } else if step.ServerHandle? {
      AckSoundKept(files, s, step, AckOf(s.held.value));
    }
  }

  lemma AckRecordedKept(files: seq<Text>, s: State, step: Step, f: nat, g: nat)
    requires Shape(files, s) && Enabled(s, step) && AcksFit(s) && f < MAX_FILES && g < SLOTS
    requires Shape(files, Apply(files, s, step)) && Apply(files, s, step).client.done[f][g]
    ensures AckSound(Apply(files, s, step), Ack(f, g))
  {
    assert s.client.done[f][g] || (step.ClientReply? && step.a == Ack(f, g));
    AckSoundKept(files, s, step, Ack(f, g));
  }

  lemma AcksKept(files: seq<Text>, s: State, step: Step)
    requires Shape(files, s) && Enabled(s, step) && AcksFit(s)
    ensures Shape(files, Apply(files, s, step)) && AcksFit(Apply(files, s, step))
  {
    ShapeKept(files, s, step);
    var s' := Apply(files, s, step);
    forall a | a in s'.acks
      ensures AckSound(s', a)
    {
      AcksInFlightKept(files, s, step, a);
    }
    forall f: nat, g: nat | f < MAX_FILES && g < SLOTS && s'.client.done[f][g]
      ensures AckSound(s', Ack(f, g))
    {
      AckRecordedKept(files, s, step, f, g);
    }
  }

  lemma InvariantKept(files: seq<Text>, s: State, step: Step)
    requires Invariant(files, s) && Enabled(s, step)
    ensures Invariant(files, Apply(files, s, step))
  {
    ShapeKept(files, s, step);
    AcksKept(files, s, step);
    match step
    case ClientMove => AdvanceIsGood(files, s.client);
    case ServerHandle(opens) => HandleKeeps(files, s.server, s.held.value, opens);
    case _ =>
  }

  /** Nothing sent, nothing stored, an empty directory. */
  ghost function Start(files: seq<Text>): (s: State)
    requires SendableFiles(files)
    ensures Invariant(files, s)
  {
    var e := Entry(seq(SLOTS, _ => false), seq(SLOTS, _ => []), 0, false);
    SumOfEmpty(e.tmp, |e.tmp|);
    State(Client(seq(MAX_FILES, _ => seq(SLOTS, _ => false)), 0, 0, false),
          Server(seq(MAX_FILES, _ => e), map[]), None, multiset{}, multiset{})
  }

  lemma InvariantIsPreserved(files: seq<Text>)
    ensures Preserves(Next(files), s => Invariant(files, s))
  {
    forall s, step, t | Invariant(files, s) && Takes(files, s, step, t)
      ensures Invariant(files, t)
    {
      InvariantKept(files, s, step);
    }
  }
}
