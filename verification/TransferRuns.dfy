/** The promises of the file transfer, over whole runs and every interleaving. */
module TransferRuns {
  import opened Octets
  import opened Transfer
  import opened TransferNetwork
  import opened Runs

  /** A run of the program: it starts with nothing sent and an empty directory. */
  ghost predicate Execution(files: seq<Text>, r: Run<State, Step>) {
    SendableFiles(files) && IsRun(Next(files), r) && r.states[0] == Start(files)
  }

  lemma InvariantAlong(files: seq<Text>, r: Run<State, Step>)
    requires IsRun(Next(files), r) && Invariant(files, r.states[0])
    ensures Invariant(files, Last(r))
  {
    InvariantIsPreserved(files);
    HoldsAlong(Next(files), s => Invariant(files, s), r, 0, |r.steps|);
  }

  /** End-to-end safety: whatever was lost, duplicated or reordered, the directory holds only
      files of the client, each under its own name and with exactly the client's bytes. */
  lemma FilesArriveIntact(files: seq<Text>, r: Run<State, Step>)
    requires Execution(files, r)
    ensures var disk := Last(r).server.disk;
            forall name :: name in disk ==> exists f: nat :: f < |files| && name == Name(f) && disk[name] == files[f]
  {
    InvariantAlong(files, r);
  }

  /** In every reachable state the counter of a file is the sum of its stored segments, and it
      equals the size exactly when all segments are stored. */
  lemma CounterTellsCompletion(files: seq<Text>, r: Run<State, Step>, f: nat)
    requires Execution(files, r) && f < |files|
    ensures var sv := Last(r).server;
            && f < |sv.entries|
            && sv.entries[f].len == SumOfLengths(sv.entries[f].tmp, |sv.entries[f].tmp|)
            && (sv.entries[f].len == |files[f]| <==> forall g: nat :: HasSegment(files[f], g) ==> Stored(sv, f, g))
  {
    InvariantAlong(files, r);
    CompletionByByteCount(files[f], Last(r).server.entries[f]);
    assert forall g: nat :: HasSegment(files[f], g) ==> g < SLOTS;
  }

  /** Ack soundness: a segment the client has ticked off is stored, or held for storing. */
  lemma TickedIsStored(files: seq<Text>, r: Run<State, Step>, f: nat, g: nat)
    requires Execution(files, r) && f < MAX_FILES && g < SLOTS
    ensures var s := Last(r);
            && f < |s.client.done| && g < |s.client.done[f]|
            && (s.client.done[f][g] ==>
                  Stored(s.server, f, g) || (s.held.Some? && AckOf(s.held.value) == Ack(f, g)))
  {
    InvariantAlong(files, r);
  }

  // ---------------------------------------------------------------------------------------
  // What is recorded: the acknowledgements received, the packets handled
  // ---------------------------------------------------------------------------------------

  lemma {:induction false} ShapeAlong(files: seq<Text>, r: Run<State, Step>, n: nat)
    requires IsRun(Next(files), r) && Shape(files, r.states[0]) && n < |r.states|
    ensures Shape(files, r.states[n])
  {
    if n > 0 {
      StepOfRun(files, r, n - 1);
      ShapeKept(files, r.states[n - 1], r.steps[n - 1]);
    }
  }

  /** The client has been told in the first n steps that segment g of file f has come. */
  ghost predicate WasAcknowledged(r: Run<State, Step>, f: nat, g: nat, n: nat)
    requires n <= |r.steps|
  {
    exists i :: 0 <= i < n && r.steps[i] == ClientReply(Ack(f, g))
  }

  lemma AcknowledgedMore(r: Run<State, Step>, f: nat, g: nat, i: nat)
    requires i < |r.steps|
    ensures WasAcknowledged(r, f, g, i + 1) <==> WasAcknowledged(r, f, g, i) || r.steps[i] == ClientReply(Ack(f, g))
  {
  }

  lemma TickedByStep(files: seq<Text>, s: State, step: Step, f: nat, g: nat)
    requires Shape(files, s) && Enabled(s, step) && f < MAX_FILES && g < SLOTS
    ensures Shape(files, Apply(files, s, step))
    ensures Apply(files, s, step).client.done[f][g] <==> s.client.done[f][g] || step == ClientReply(Ack(f, g))
  {
    ShapeKept(files, s, step);
  }

  /** A segment is marked done exactly when it was at the start or its acknowledgement has been
      received since. */
  lemma {:induction false} TickedIffAcknowledged(files: seq<Text>, r: Run<State, Step>, f: nat, g: nat, n: nat)
    requires IsRun(Next(files), r) && Shape(files, r.states[0]) && n < |r.states| && f < MAX_FILES && g < SLOTS
    ensures Shape(files, r.states[n])
    ensures r.states[n].client.done[f][g] <==> r.states[0].client.done[f][g] || WasAcknowledged(r, f, g, n)
  {
    if n > 0 {
      TickedIffAcknowledged(files, r, f, g, n - 1);
      StepOfRun(files, r, n - 1);
      TickedByStep(files, r.states[n - 1], r.steps[n - 1], f, g);
      AcknowledgedMore(r, f, g, n - 1);
    }
  }

  /** After its acknowledgement a segment is never sent again. */
  lemma AcknowledgedIsNotSentAgain(files: seq<Text>, r: Run<State, Step>, f: nat, g: nat, n: nat)
    requires IsRun(Next(files), r) && Shape(files, r.states[0]) && n < |r.steps|
    requires f < |files| && HasSegment(files[f], g) && WasAcknowledged(r, f, g, n)
    ensures !Sends(files, r.states[n], r.steps[n], PacketOf(files, f, g))
  {
    TickedIffAcknowledged(files, r, f, g, n);
  }

  ghost predicate Serves(s: State, step: Step, f: nat, g: nat) {
    step.ServerHandle? && s.held.Some? && s.held.value.file == f && s.held.value.seg == g
  }

  /** A packet for segment g of file f was handled in the first n steps. */
  ghost predicate WasServed(r: Run<State, Step>, f: nat, g: nat, n: nat)
    requires n <= |r.steps| <= |r.states|
  {
    exists i :: 0 <= i < n && Serves(r.states[i], r.steps[i], f, g)
  }

  lemma ServedMore(r: Run<State, Step>, f: nat, g: nat, i: nat)
    requires i < |r.steps| <= |r.states|
    ensures WasServed(r, f, g, i + 1) <==> WasServed(r, f, g, i) || Serves(r.states[i], r.steps[i], f, g)
  {
  }

  lemma StoredByStep(files: seq<Text>, s: State, step: Step, f: nat, g: nat)
    requires Shape(files, s) && Enabled(s, step) && f < MAX_FILES && g < SLOTS
    ensures Stored(Apply(files, s, step).server, f, g) <==> Stored(s.server, f, g) || Serves(s, step, f, g)
  {
    if step.ServerHandle? {
      HandleStores(s.server, s.held.value, step.opens);
    }
  }

  lemma StoredInStep(files: seq<Text>, r: Run<State, Step>, f: nat, g: nat, i: nat)
    requires IsRun(Next(files), r) && Shape(files, r.states[0]) && i < |r.steps| && f < MAX_FILES && g < SLOTS
    ensures Stored(r.states[i + 1].server, f, g)
       <==> Stored(r.states[i].server, f, g) || Serves(r.states[i], r.steps[i], f, g)
  {
    ShapeAlong(files, r, i);
    StepOfRun(files, r, i);
    StoredByStep(files, r.states[i], r.steps[i], f, g);
  }

  /** A segment is stored exactly when it was at the start or a packet for it has been handled. */
  lemma {:induction false} StoredIffServed(files: seq<Text>, r: Run<State, Step>, f: nat, g: nat, n: nat)
    requires IsRun(Next(files), r) && Shape(files, r.states[0]) && n < |r.states| && f < MAX_FILES && g < SLOTS
    ensures Stored(r.states[n].server, f, g) <==> Stored(r.states[0].server, f, g) || WasServed(r, f, g, n)
  {
    if n > 0 {
      StoredIffServed(files, r, f, g, n - 1);
      StoredInStep(files, r, f, g, n - 1);
      ServedMore(r, f, g, n - 1);
    }
  }

  // ---------------------------------------------------------------------------------------
  // Sweeps
  // ---------------------------------------------------------------------------------------

  ghost predicate Sends(files: seq<Text>, s: State, step: Step, p: Packet) {
    step.ClientMove? && Shape(files, s) && Enabled(s, step) && Advance(files, s.client).1 == Some(p)
  }

  ghost predicate WasSent(files: seq<Text>, r: Run<State, Step>, p: Packet)
    requires |r.states| == |r.steps| + 1
  {
    exists i :: 0 <= i < |r.steps| && Sends(files, r.states[i], r.steps[i], p)
  }

  /** p is among the packets the server looks at in the run. */
  ghost predicate WasHandled(r: Run<State, Step>, p: Packet)
    requires |r.states| == |r.steps| + 1
  {
    exists i :: 0 <= i < |r.steps| && r.steps[i].ServerHandle? && r.states[i].held == Some(p)
  }

  ghost predicate Passed(c: Client, f: nat, g: nat) {
    f < c.file || (f == c.file && g < c.seg)
  }

  ghost predicate SweepStart(s: State) {
    s.client.file == s.client.seg == 0 && !s.client.awaiting
  }

  ghost predicate PassedOrAt(c: Client, f: nat, g: nat) {
    Passed(c, f, g) || (c.awaiting && c.file == f && c.seg == g)
  }

  ghost predicate TickedIfPassed(files: seq<Text>, s: State, f: nat, g: nat) {
    Shape(files, s) && f < MAX_FILES && g < SLOTS && (PassedOrAt(s.client, f, g) ==> s.client.done[f][g])
  }

  lemma AdvanceTicks(files: seq<Text>, c: Client, f: nat, g: nat)
    requires SendableFiles(files) && GoodClient(files, c) && !c.awaiting
    requires f < |files| && HasSegment(files[f], g) && g < SLOTS
    requires PassedOrAt(c, f, g) ==> c.done[f][g]
    requires Advance(files, c).1 != Some(PacketOf(files, f, g))
    ensures PassedOrAt(Advance(files, c).0, f, g) ==> c.done[f][g]
  {
  }

  lemma TickedIfPassedKept(files: seq<Text>, s: State, step: Step, f: nat, g: nat)
    requires TickedIfPassed(files, s, f, g) && Enabled(s, step) && f < |files| && HasSegment(files[f], g)
    requires !Sends(files, s, step, PacketOf(files, f, g))
    ensures TickedIfPassed(files, Apply(files, s, step), f, g)
  {
    ShapeKept(files, s, step);
    match step
    case ClientMove => AdvanceTicks(files, s.client, f, g);
    case ClientReply(a) => assert Acknowledge(s.client, a).done[f][g] || !s.client.done[f][g];
    case _ =>
  }

  /** A run from the start of a sweep that never sends a segment has it ticked off once past it. */
  lemma SweepCovers(files: seq<Text>, r: Run<State, Step>, f: nat, g: nat)
    requires IsRun(Next(files), r) && Shape(files, r.states[0]) && SweepStart(r.states[0])
    requires f < |files| && HasSegment(files[f], g)
    requires !WasSent(files, r, PacketOf(files, f, g))
    ensures TickedIfPassed(files, Last(r), f, g)
  {
    var p := PacketOf(files, f, g);
    var quiet := (s, step, t) => Takes(files, s, step, t) && !Sends(files, s, step, p);
    forall s, step, t | TickedIfPassed(files, s, f, g) && quiet(s, step, t)
      ensures TickedIfPassed(files, t, f, g)
    {
      TickedIfPassedKept(files, s, step, f, g);
    }
    HoldsAlong(quiet, s => TickedIfPassed(files, s, f, g), r, 0, |r.steps|);
  }

  /** No premature stop: a full sweep sends every segment the server still lacks at its end. */
  lemma SweepSendsWhatIsMissing(files: seq<Text>, r: Run<State, Step>, f: nat, g: nat)
    requires IsRun(Next(files), r) && Invariant(files, r.states[0]) && SweepStart(r.states[0])
    requires Last(r).client.file == |files| && f < |files| && HasSegment(files[f], g)
    requires !Stored(Last(r).server, f, g) && !Holding(Last(r), Ack(f, g))
    ensures WasSent(files, r, PacketOf(files, f, g))
  {
    InvariantAlong(files, r);
    if !WasSent(files, r, PacketOf(files, f, g)) {
      SweepCovers(files, r, f, g);
    }
  }

  lemma StoredIsKept(files: seq<Text>, s: State, step: Step, t: State, f: nat, g: nat)
    requires Takes(files, s, step, t)
    requires Stored(s.server, f, g) || (step.ServerHandle? && AckOf(s.held.value) == Ack(f, g))
    ensures Stored(t.server, f, g)
  {
    if step.ServerHandle? {
      HandleStores(s.server, s.held.value, step.opens);
    }
  }

  ghost function Stores(f: nat, g: nat): State -> bool {
    (s: State) => Stored(s.server, f, g)
  }

  lemma StoredIsPreserved(files: seq<Text>, f: nat, g: nat)
    ensures Preserves(Next(files), Stores(f, g))
  {
    forall s, step, t | Stores(f, g)(s) && Next(files)(s, step, t)
      ensures Stores(f, g)(t)
    {
      StoredIsKept(files, s, step, t, f, g);
    }
  }

  lemma HandledIsStored(files: seq<Text>, r: Run<State, Step>, p: Packet)
    requires IsRun(Next(files), r) && WasHandled(r, p)
    ensures Stored(Last(r).server, p.file, p.seg)
  {
    var i :| 0 <= i < |r.steps| && r.steps[i].ServerHandle? && r.states[i].held == Some(p);
    HandledAt(files, r, p, i);
    StoredEverAfter(files, r, p.file, p.seg, i + 1);
  }

  lemma HandledAt(files: seq<Text>, r: Run<State, Step>, p: Packet, i: nat)
    requires IsRun(Next(files), r) && i < |r.steps| && r.steps[i].ServerHandle? && r.states[i].held == Some(p)
    ensures Stores(p.file, p.seg)(r.states[i + 1])
  {
    HandledStep(files, r.states[i], r.steps[i], r.states[i + 1], p);
  }

  lemma StoredEverAfter(files: seq<Text>, r: Run<State, Step>, f: nat, g: nat, i: nat)
    requires IsRun(Next(files), r) && i < |r.states| && Stores(f, g)(r.states[i])
    ensures Stored(Last(r).server, f, g)
  {
    StoredIsPreserved(files, f, g);
    HoldsAlong(Next(files), Stores(f, g), r, i, |r.steps|);
    assert Stores(f, g)(Last(r));
  }

  lemma HandledStep(files: seq<Text>, s: State, step: Step, t: State, p: Packet)
    requires Next(files)(s, step, t) && step.ServerHandle? && s.held == Some(p)
    ensures Stores(p.file, p.seg)(t)
  {
    StoredIsKept(files, s, step, t, p.file, p.seg);
  }

  lemma FullSweepStores(files: seq<Text>, r: Run<State, Step>, f: nat, g: nat)
    requires IsRun(Next(files), r) && Invariant(files, r.states[0]) && SweepStart(r.states[0])
    requires Last(r).client.file == |files| && Last(r).held.None?
    requires forall p :: WasSent(files, r, p) ==> WasHandled(r, p)
    requires f < |files| && HasSegment(files[f], g)
    ensures Stored(Last(r).server, f, g)
  {
    if !Stored(Last(r).server, f, g) {
      SweepSendsWhatIsMissing(files, r, f, g);
      HandledIsStored(files, r, PacketOf(files, f, g));
    }
  }

  // ---------------------------------------------------------------------------------------
  // What a failing open costs: exactly the files it failed for
  // ---------------------------------------------------------------------------------------

  /** In this step the file is complete, the server tries to open it, and cannot. */
  ghost predicate OpenFails(s: State, step: Step, f: nat) {
    && step == ServerHandle(false) && s.held.Some? && s.held.value.file == f < |s.server.entries|
    && !Stored(s.server, f, s.held.value.seg) && !s.server.entries[f].fin
    && s.server.entries[f].len + |CString(s.held.value.content)| == s.held.value.total
  }

  /** In one of the first n steps. */
  ghost predicate OpenFailed(r: Run<State, Step>, f: nat, n: nat)
    requires n <= |r.steps| <= |r.states|
  {
    exists i :: 0 <= i < n && OpenFails(r.states[i], r.steps[i], f)
  }

  /** All octets are there, and the file is not written. */
  ghost predicate Abandoned(files: seq<Text>, sv: Server, f: nat) {
    && f < |files| && |files[f]| > 0 && f < |sv.entries|
    && sv.entries[f].len == |files[f]| && !sv.entries[f].fin
  }

  ghost predicate Written(files: seq<Text>, sv: Server, f: nat)
    requires f < |files|
  {
    Name(f) in sv.disk && sv.disk[Name(f)] == files[f]
  }

  ghost predicate Complete(files: seq<Text>, sv: Server, f: nat)
    requires f < |files|
  {
    forall g: nat :: HasSegment(files[f], g) ==> Stored(sv, f, g)
  }

  lemma HandleAbandons(files: seq<Text>, s: State, opens: bool)
    requires Invariant(files, s) && Enabled(s, ServerHandle(opens))
    ensures var f, step := s.held.value.file, ServerHandle(opens);
            Abandoned(files, Apply(files, s, step).server, f) <==> Abandoned(files, s.server, f) || OpenFails(s, step, f)
  {
    var p := s.held.value;
    var e := s.server.entries[p.file];
    CompletionByByteCount(files[p.file], e);
    if !e.check[p.seg] {
      assert !e.fin && e.len != |files[p.file]|;
    }
  }

  /** A file becomes abandoned in exactly the steps in which its open fails, and stays so. */
  lemma AbandonedAtFailedOpen(files: seq<Text>, s: State, step: Step, f: nat)
    requires Invariant(files, s) && Enabled(s, step) && f < |files|
    requires |files[f]| > 0
    ensures Abandoned(files, Apply(files, s, step).server, f) <==> Abandoned(files, s.server, f) || OpenFails(s, step, f)
  {
    if step.ServerHandle? {
      if s.held.value.file == f {
        HandleAbandons(files, s, step.opens);
      } else {
        OtherEntryKept(s.server, s.held.value, step.opens, f);
      }
    }
  }

  lemma OtherEntryKept(sv: Server, p: Packet, opens: bool, f: nat)
    requires WellSized(sv) && Addressable(p) && f < MAX_FILES && p.file != f
    ensures |Handle(sv, p, opens).entries| == MAX_FILES && Handle(sv, p, opens).entries[f] == sv.entries[f]
  {
  }

  lemma InvariantAt(files: seq<Text>, r: Run<State, Step>, n: nat)
    requires IsRun(Next(files), r) && Invariant(files, r.states[0]) && n < |r.states|
    ensures Invariant(files, r.states[n])
  {
    InvariantIsPreserved(files);
    HoldsAlong(Next(files), s => Invariant(files, s), r, 0, n);
  }

  lemma AbandonedInStep(files: seq<Text>, r: Run<State, Step>, f: nat, i: nat)
    requires IsRun(Next(files), r) && Invariant(files, r.states[0]) && i < |r.steps|
    requires f < |files| && |files[f]| > 0
    ensures Abandoned(files, r.states[i + 1].server, f)
       <==> Abandoned(files, r.states[i].server, f) || OpenFails(r.states[i], r.steps[i], f)
  {
    InvariantAt(files, r, i);
    StepOfRun(files, r, i);
    AbandonedAtFailedOpen(files, r.states[i], r.steps[i], f);
  }

  lemma OpenFailedMore(r: Run<State, Step>, f: nat, i: nat)
    requires i < |r.steps| <= |r.states|
    ensures OpenFailed(r, f, i + 1) <==> OpenFailed(r, f, i) || OpenFails(r.states[i], r.steps[i], f)
  {
  }

  lemma {:induction false} AbandonedAlong(files: seq<Text>, r: Run<State, Step>, f: nat, n: nat)
    requires IsRun(Next(files), r) && Invariant(files, r.states[0]) && n < |r.states|
    requires f < |files| && |files[f]| > 0
    ensures Abandoned(files, r.states[n].server, f) <==> Abandoned(files, r.states[0].server, f) || OpenFailed(r, f, n)
    decreases n
  {
    if n > 0 {
      AbandonedAlong(files, r, f, n - 1);
      AbandonedInStep(files, r, f, n - 1);
      OpenFailedMore(r, f, n - 1);
    }
  }

  lemma NameTellsFile(files: seq<Text>, sv: Server, f: nat)
    requires SendableFiles(files) && WellSized(sv) && DiskFits(files, sv) && f < |files| && Name(f) in sv.disk
    ensures sv.disk[Name(f)] == files[f]
  {
    var h: nat :| h < |files| && Name(f) == Name(h) && sv.disk[Name(f)] == files[h];
    NamesDiffer(f, h);
  }

  /** A non-empty file is in the directory when it is complete and not abandoned, and with all
      its bytes. */
  lemma WrittenOrAbandoned(files: seq<Text>, sv: Server, f: nat)
    requires SendableFiles(files) && ServerFits(files, sv) && f < |files| && |files[f]| > 0
    ensures Name(f) in sv.disk <==> Written(files, sv, f)
    ensures Written(files, sv, f) <==> Complete(files, sv, f) && !Abandoned(files, sv, f)
  {
    var e := sv.entries[f];
    CompletionByByteCount(files[f], e);
    assert forall g: nat :: HasSegment(files[f], g) ==> g < SLOTS;
    if Name(f) in sv.disk {
      NameTellsFile(files, sv, f);
    }
    assert Name(f) in sv.disk <==> e.fin;
  }

  /** When a file is written: on any run, exactly if all its segments have been stored and no open
      of it has failed; and then with the client's bytes. */
  lemma WrittenUnlessOpenFailed(files: seq<Text>, r: Run<State, Step>, f: nat)
    requires Execution(files, r) && f < |files| && |files[f]| > 0
    ensures var sv := Last(r).server;
            && (Name(f) in sv.disk <==> Complete(files, sv, f) && !OpenFailed(r, f, |r.steps|))
            && (Name(f) in sv.disk ==> sv.disk[Name(f)] == files[f])
  {
    InvariantAlong(files, r);
    AbandonedAlong(files, r, f, |r.steps|);
    WrittenOrAbandoned(files, Last(r).server, f);
  }

  /** After one full sweep whose packets are all handled a file is written, whole, exactly if it
      was not abandoned before and no open of it failed meanwhile - whatever befell the others. */
  lemma SweepWritesUnlessOpenFails(files: seq<Text>, r: Run<State, Step>, f: nat)
    requires IsRun(Next(files), r) && Invariant(files, r.states[0]) && SweepStart(r.states[0])
    requires Last(r).client.file == |files| && Last(r).held.None?
    requires forall p :: WasSent(files, r, p) ==> WasHandled(r, p)
    requires f < |files| && |files[f]| > 0
    ensures var sv := Last(r).server;
            && (Name(f) in sv.disk <==> !Abandoned(files, r.states[0].server, f) && !OpenFailed(r, f, |r.steps|))
            && (Name(f) in sv.disk ==> sv.disk[Name(f)] == files[f])
  {
    InvariantAlong(files, r);
    forall g: nat | HasSegment(files[f], g)
      ensures Stored(Last(r).server, f, g)
    {
      FullSweepStores(files, r, f, g);
    }
    AbandonedAlong(files, r, f, |r.steps|);
    WrittenOrAbandoned(files, Last(r).server, f);
  }

  ghost predicate EveryFileWritten(files: seq<Text>, sv: Server) {
    forall f :: 0 <= f < |files| && |files[f]| > 0 ==> Written(files, sv, f)
  }

  ghost predicate NoneAbandoned(files: seq<Text>, sv: Server) {
    forall f: nat :: f < |files| ==> !Abandoned(files, sv, f)
  }

  lemma NoOpenFails(files: seq<Text>, r: Run<State, Step>, f: nat)
    requires IsRun(NextOpening(files), r)
    ensures IsRun(Next(files), r) && !OpenFailed(r, f, |r.steps|)
  {
    forall i | 0 <= i < |r.steps|
      ensures Next(files)(r.states[i], r.steps[i], r.states[i + 1]) && !OpenFails(r.states[i], r.steps[i], f)
    {
      assert NextOpening(files)(r.states[i], r.steps[i], r.states[i + 1]);
    }
  }

  /** So when no open fails such a sweep completes every non-empty file. */
  lemma LossFreeSweepCompletes(files: seq<Text>, r: Run<State, Step>)
    requires IsRun(NextOpening(files), r) && Invariant(files, r.states[0]) && NoneAbandoned(files, r.states[0].server)
    requires SweepStart(r.states[0]) && Last(r).client.file == |files| && Last(r).held.None?
    requires forall p :: WasSent(files, r, p) ==> WasHandled(r, p)
    ensures EveryFileWritten(files, Last(r).server)
  {
    forall f | 0 <= f < |files| && |files[f]| > 0
      ensures Written(files, Last(r).server, f)
    {
      NoOpenFails(files, r, f);
      SweepWritesUnlessOpenFails(files, r, f);
    }
  }

  /** A file that could not be opened when its last segment came is never written, whatever comes
      after: every further packet of it is a duplicate. */
  lemma FailedOpenIsFinal(files: seq<Text>, r: Run<State, Step>, f: nat)
    requires IsRun(Next(files), r) && Invariant(files, r.states[0]) && f < |files| && |files[f]| > 0
    requires Abandoned(files, r.states[0].server, f) || OpenFailed(r, f, |r.steps|)
    ensures Abandoned(files, Last(r).server, f) && Name(f) !in Last(r).server.disk
  {
    InvariantAlong(files, r);
    AbandonedAlong(files, r, f, |r.steps|);
    WrittenOrAbandoned(files, Last(r).server, f);
  }

  /** One octet to transfer, its packet just received. */
  lemma OneOctetHeld() returns (r: Run<State, Step>, p: Packet)
    ensures Execution([[97]], r) && |r.steps| == 2
    ensures Last(r) == Start([[97]]).(client := Last(r).client, held := Some(p), acks := Last(r).acks)
    ensures Honest([[97]], p) && p.file == p.seg == 0
  {
    var files: seq<Text> := [[97]];
    var s := Start(files);
    p := PacketOf(files, 0, 0);
    var a := Apply(files, s, ClientMove);
    ShapeKept(files, s, ClientMove);
    var b := Apply(files, a, ServerReceive(p));
    r := Run([s, a, b], [ClientMove, ServerReceive(p)]);
  }

  lemma OneOctet(p: Packet)
    requires Honest([[97]], p)
    ensures p.file == p.seg == 0 && CString(p.content) == [97] && p.total == 1
    ensures forall g: nat :: HasSegment([97], g) ==> g == 0
  {
    PayloadIsSegment([97], p.seg);
  }

  /** One file of one octet, its only packet handled when the file cannot be opened. */
  lemma LostAtItsOnlyOpen() returns (r: Run<State, Step>)
    ensures Execution([[97]], r) && OpenFailed(r, 0, |r.steps|)
    ensures Complete([[97]], Last(r).server, 0) && Name(0) !in Last(r).server.disk
  {
    var files: seq<Text> := [[97]];
    var before, p := OneOctetHeld();
    OneOctet(p);
    InvariantAlong(files, before);
    var after := Apply(files, Last(before), ServerHandle(false));
    r := Extended(before, ServerHandle(false), after);
    ExtendedIsRun(Next(files), before, ServerHandle(false), after);
    assert OpenFails(r.states[2], r.steps[2], 0);
    FailedOpenIsFinal(files, r, 0);
    HandleStores(Last(before).server, p, false);
  }

  // ---------------------------------------------------------------------------------------
  // From every reachable state the transfer can still be completed
  // ---------------------------------------------------------------------------------------

  lemma Go(files: seq<Text>, s: State, step: Step) returns (t: State)
    requires Invariant(files, s) && Enabled(s, step) && (step.ServerHandle? ==> step.opens)
    ensures t == Apply(files, s, step) && Reaches(NextOpening(files), s, t) && Invariant(files, t)
  {
    InvariantKept(files, s, step);
    t := Apply(files, s, step);
    ReachedByStep(files, s, step, t);
  }

  lemma ReachedByStep(files: seq<Text>, s: State, step: Step, t: State)
    requires Takes(files, s, step, t) && (step.ServerHandle? ==> step.opens)
    ensures Reaches(NextOpening(files), s, t)
  {
    OneStep(NextOpening(files), s, step, t);
  }

  ghost predicate Calm(s: State) {
    !s.client.awaiting && s.held.None?
  }

  ghost predicate PassedIsStored(files: seq<Text>, s: State) {
    forall f: nat, g: nat :: f < |files| && HasSegment(files[f], g) && Passed(s.client, f, g) ==> Stored(s.server, f, g)
  }

  ghost predicate AtUnsent(files: seq<Text>, s: State) {
    && Shape(files, s) && Calm(s) && s.client.file < |files|
    && HasSegment(files[s.client.file], s.client.seg)
    && !s.client.done[s.client.file][s.client.seg]
  }

  /** The server's half of a delivery. */
  lemma Deliver(files: seq<Text>, s: State, p: Packet) returns (t: State)
    requires Invariant(files, s) && s.held.None? && p in s.data
    ensures Reaches(NextOpening(files), s, t) && Invariant(files, t)
    ensures t.client == s.client && t.held.None? && Stored(t.server, p.file, p.seg)
    ensures forall f, g :: Stored(s.server, f, g) ==> Stored(t.server, f, g)
  {
    var u := Go(files, s, ServerReceive(p));
    t := Go(files, u, ServerHandle(true));
    Compose(NextOpening(files), s, u, t);
    HandleStores(u.server, p, true);
  }

  /** Sending the segment the client is at, delivering it and missing the reply. */
  lemma SendAndDeliver(files: seq<Text>, s: State) returns (t: State)
    requires Invariant(files, s) && AtUnsent(files, s)
    ensures Reaches(NextOpening(files), s, t) && Invariant(files, t) && Calm(t)
    ensures t.client == s.client.(seg := s.client.seg + 1)
    ensures PassedIsStored(files, s) ==> PassedIsStored(files, t)
  {
    var p := PacketOf(files, s.client.file, s.client.seg);
    var a := Go(files, s, ClientMove);
    var b := Deliver(files, a, p);
    Compose(NextOpening(files), s, a, b);
    t := Go(files, b, ClientTimeout);
    Compose(NextOpening(files), s, b, t);
    PassedOneMore(files, s, t);
  }

  lemma PassedOneMore(files: seq<Text>, s: State, t: State)
    requires t.client == s.client.(seg := s.client.seg + 1)
    requires Stored(t.server, s.client.file, s.client.seg)
    requires forall f, g :: Stored(s.server, f, g) ==> Stored(t.server, f, g)
    ensures PassedIsStored(files, s) ==> PassedIsStored(files, t)
  {
  }

  /** Passing a segment that is ticked off, or going on to the next file. */
  lemma SkipOne(files: seq<Text>, s: State) returns (t: State)
    requires Invariant(files, s) && Calm(s) && s.client.file < |files| && !AtUnsent(files, s)
    ensures Reaches(NextOpening(files), s, t) && Invariant(files, t) && Calm(t)
    ensures Left(files, t.client) < Left(files, s.client)
    ensures PassedIsStored(files, s) ==> PassedIsStored(files, t)
  {
    t := Go(files, s, ClientMove);
    if HasSegment(files[s.client.file], s.client.seg) {
      assert AckSound(s, Ack(s.client.file, s.client.seg));
      PassedOneMore(files, s, t);
    } else {
      PassedFile(files, s, t);
    }
  }

  lemma PassedFile(files: seq<Text>, s: State, t: State)
    requires s.client.file < |files| && !HasSegment(files[s.client.file], s.client.seg)
    requires t.client == s.client.(file := s.client.file + 1, seg := 0) && t.server == s.server
    ensures PassedIsStored(files, s) ==> PassedIsStored(files, t)
  {
  }

  /** How many moves are left in a sweep, at most. */
  ghost function Left(files: seq<Text>, c: Client): int {
    if c.file < |files| then 100 * (|files| - c.file) - (if c.seg < 50 then c.seg else 50) else 0
  }

  /** The rest of a sweep can be run so that everything it passes is stored. */
  lemma FinishSweep(files: seq<Text>, s: State) returns (t: State)
    requires Invariant(files, s) && Calm(s)
    ensures Reaches(NextOpening(files), s, t) && Invariant(files, t) && Calm(t) && t.client.file == |files|
    ensures PassedIsStored(files, s) ==> PassedIsStored(files, t)
    decreases Left(files, s.client)
  {
    if s.client.file == |files| {
      t := s;
      StayPut(NextOpening(files), s);
    } else {
      var next;
      if AtUnsent(files, s) {
        next := SendAndDeliver(files, s);
      } else {
        next := SkipOne(files, s);
      }
      t := FinishSweep(files, next);
      Compose(NextOpening(files), s, next, t);
    }
  }

  lemma CalmDown(files: seq<Text>, s: State) returns (t: State)
    requires Invariant(files, s)
    ensures Reaches(NextOpening(files), s, t) && Invariant(files, t) && Calm(t)
  {
    t := s;
    StayPut(NextOpening(files), s);
    if t.held.Some? {
      var u := Go(files, t, ServerHandle(true));
      Compose(NextOpening(files), s, t, u);
      t := u;
    }
    if t.client.awaiting {
      var u := Go(files, t, ClientTimeout);
      Compose(NextOpening(files), s, t, u);
      t := u;
    }
  }

  lemma AbandonedByReaching(files: seq<Text>, s: State, t: State, f: nat)
    requires Reaches(NextOpening(files), s, t) && Invariant(files, s) && f < |files| && |files[f]| > 0
    ensures Invariant(files, t) && (Abandoned(files, t.server, f) <==> Abandoned(files, s.server, f))
  {
    var r :| Joins(NextOpening(files), r, s, t);
    NoOpenFails(files, r, f);
    InvariantAlong(files, r);
    AbandonedAlong(files, r, f, |r.steps|);
  }

  /** Whatever has happened so far, there is a continuation after which exactly the non-empty files
      not abandoned by now are written, whole. */
  lemma CanAlwaysFinish(files: seq<Text>, s: State) returns (t: State)
    requires Invariant(files, s)
    ensures Reaches(NextOpening(files), s, t)
    ensures forall f :: 0 <= f < |files| && |files[f]| > 0 ==>
                          (Written(files, t.server, f) <==> !Abandoned(files, s.server, f))
  {
    var a := CalmDown(files, s);
    var b := FinishSweep(files, a);
    var c := Go(files, b, ClientMove);
    t := FinishSweep(files, c);
    Compose(NextOpening(files), s, a, b);
    Compose(NextOpening(files), s, b, c);
    Compose(NextOpening(files), s, c, t);
    assert PassedIsStored(files, t);
    forall f | 0 <= f < |files| && |files[f]| > 0
      ensures Written(files, t.server, f) <==> !Abandoned(files, s.server, f)
    {
      AbandonedByReaching(files, s, t, f);
      WrittenOrAbandoned(files, t.server, f);
    }
  }
}
