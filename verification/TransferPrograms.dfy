/**
The two programs of Lab 8 as they run: the server's tables updated in place, packet by packet,
and the client's loop over the segments of a file.  Each is proved against the functions the
state machine is built from.
*/
module TransferPrograms {
  import opened Octets
  import opened Sequences
  import opened Transfer
  import opened TransferNetwork

  /** A packet received, and whether the file could be opened if it completes one. */
  datatype Arrival = Arrival(packet: Packet, opens: bool)

  ghost predicate AllAddressable(arrivals: seq<Arrival>) {
    forall i :: 0 <= i < |arrivals| ==> Addressable(arrivals[i].packet)
  }

  function AcksFor(sv: Server, p: Packet): seq<Ack> {
    if Stored(sv, p.file, p.seg) then [AckOf(p), AckOf(p)] else [AckOf(p)]
  }

  /** What the server becomes by these packets, one after the other, and the acknowledgements it
      sends for them. */
  ghost function Served(sv: Server, arrivals: seq<Arrival>): (r: (Server, seq<Ack>))
    requires WellSized(sv) && AllAddressable(arrivals)
    ensures WellSized(r.0)
    decreases |arrivals|
  {
    if arrivals == [] then (sv, [])
    else
      var p := arrivals[0].packet;
      HandleIsWellSized(sv, p, arrivals[0].opens);
      var rest := Served(Handle(sv, p, arrivals[0].opens), arrivals[1..]);
      (rest.0, AcksFor(sv, p) + rest.1)
  }

  /** One row of a bit table. */
  ghost function BitRow(table: array2<bool>, f: nat): (row: seq<bool>)
    requires f < table.Length0
    reads table
    ensures |row| == table.Length1
  {
    seq(table.Length1, g requires 0 <= g < table.Length1 reads table => table[f, g])
  }

  class FileServer {
    const checkList: array2<bool>
    const fileTmp: array2<Text>
    const fileLen: array<nat>
    const fileFin: array<bool>
    var disk: map<string, Text>

    ghost predicate Valid() {
      && checkList.Length0 == fileTmp.Length0 == fileLen.Length == fileFin.Length == MAX_FILES
      && checkList.Length1 == fileTmp.Length1 == SLOTS
    }

    ghost function Slots(f: nat): (t: seq<Text>)
      requires Valid() && f < MAX_FILES
      reads fileTmp
      ensures |t| == SLOTS
    {
      seq(SLOTS, g requires 0 <= g < SLOTS reads fileTmp => fileTmp[f, g])
    }

    ghost function EntryAt(f: nat): Entry
      requires Valid() && f < MAX_FILES
      reads checkList, fileTmp, fileLen, fileFin
    {
      Entry(BitRow(checkList, f), Slots(f), fileLen[f], fileFin[f])
    }

    ghost function View(): (sv: Server)
      requires Valid()
      reads this, checkList, fileTmp, fileLen, fileFin
      ensures WellSized(sv)
    {
      Server(seq(MAX_FILES, f requires 0 <= f < MAX_FILES reads checkList, fileTmp, fileLen, fileFin => EntryAt(f)), disk)
    }

    constructor ()
      ensures Valid() && fresh(checkList) && fresh(fileTmp) && fresh(fileLen) && fresh(fileFin)
      ensures View() == Start([]).server
    {
      checkList := new bool[MAX_FILES, SLOTS]((f, g) => false);
      fileTmp := new Text[MAX_FILES, SLOTS]((f, g) => []);
      fileLen := new nat[MAX_FILES](f => 0);
      fileFin := new bool[MAX_FILES](f => false);
      disk := map[];
      new;
      forall f: nat | f < MAX_FILES
        ensures EntryAt(f) == Entry(seq(SLOTS, _ => false), seq(SLOTS, _ => []), 0, false)
      {
        assert BitRow(checkList, f) == seq(SLOTS, _ => false);
        assert Slots(f) == seq(SLOTS, _ => []);
      }
      assert View().entries == Start([]).server.entries;
    }

    /** One turn of the receive loop. */
    method Receive(p: Packet, opens: bool) returns (acks: seq<Ack>)
      requires Valid() && Addressable(p)
      modifies this, checkList, fileTmp, fileLen, fileFin
      ensures View() == Handle(old(View()), p, opens)
      ensures acks == AcksFor(old(View()), p)
    {
      ghost var before := View();
      var f, g := p.file, p.seg;
      acks := [Ack(f, g)];
      if checkList[f, g] {
        acks := acks + [Ack(f, g)];
        return;
      }
      var text := CString(p.content);
      Store(f, g, text);
      ghost var e := StoreSegment(before.entries[f], g, text);
      assert EntryAt(f) == View().entries[f] == e;
      if fileLen[f] == p.total && !fileFin[f] {
        if !opens {
          return;
        }
        WriteOut(f, p.name);
        Finish(f);
        assert View().entries == before.entries[f := e.(fin := true)];
      }
    }

    /** The receive loop, for as many packets as come. */
    method ReceiveAll(arrivals: seq<Arrival>) returns (acks: seq<Ack>)
      requires Valid() && AllAddressable(arrivals)
      modifies this, checkList, fileTmp, fileLen, fileFin
      ensures (View(), acks) == Served(old(View()), arrivals)
    {
      ghost var all := Served(View(), arrivals);
      acks := [];
      assert arrivals[0..] == arrivals;
      for k := 0 to |arrivals|
        invariant Served(View(), arrivals[k..]).0 == all.0
        invariant acks + Served(View(), arrivals[k..]).1 == all.1
      {
        ghost var before, rest := View(), arrivals[k + 1..];
        assert arrivals[k..][1..] == rest;
        var more := Receive(arrivals[k].packet, arrivals[k].opens);
        Assoc(acks, AcksFor(before, arrivals[k].packet), Served(View(), rest).1);
        acks := acks + more;
      }
      assert arrivals[|arrivals|..] == [];
      assert acks + [] == acks;
    }

    method Finish(f: nat)
      requires Valid() && f < MAX_FILES
      modifies fileFin
      ensures View() == old(View()).(entries := old(View()).entries[f := old(EntryAt(f)).(fin := true)])
    {
      ghost var before := View();
      fileFin[f] := true;
      forall h: nat | h < MAX_FILES
        ensures EntryAt(h) == if h == f then old(EntryAt(f)).(fin := true) else before.entries[h]
      {
        assert before.entries[h] == old(EntryAt(h));
      }
      assert View().entries == before.entries[f := old(EntryAt(f)).(fin := true)];
    }

    method Store(f: nat, g: nat, text: Text)
      requires Valid() && f < MAX_FILES && g < SLOTS
      modifies checkList, fileTmp, fileLen
      ensures View() == old(View()).(entries := old(View()).entries[f := StoreSegment(old(View()).entries[f], g, text)])
    {
      ghost var before := View();
      fileTmp[f, g] := text;
      fileLen[f] := fileLen[f] + |text|;
      checkList[f, g] := true;
      assert BitRow(checkList, f) == before.entries[f].check[g := true];
      assert Slots(f) == before.entries[f].tmp[g := text];
      forall h: nat | h < MAX_FILES && h != f
        ensures EntryAt(h) == before.entries[h]
      {
        assert before.entries[h] == old(EntryAt(h));
        assert BitRow(checkList, h) == old(BitRow(checkList, h)) && Slots(h) == old(Slots(h));
      }
      assert View().entries == before.entries[f := StoreSegment(before.entries[f], g, text)];
    }

    /** Opens the file for appending and writes the slots in order. */
    method WriteOut(f: nat, name: string)
      requires Valid() && f < MAX_FILES
      modifies this`disk
      ensures disk == Append(old(disk), name, Flatten(Slots(f), |Slots(f)|))
      ensures View().entries == old(View()).entries
    {
      ghost var slots := Slots(f);
      disk := Append(disk, name, []);
      for j := 0 to SLOTS
        invariant disk == Append(old(disk), name, Flatten(slots, j))
      {
        AppendTwice(old(disk), name, Flatten(slots, j), slots[j]);
        disk := Append(disk, name, fileTmp[f, j]);
      }
    }
  }

  lemma AppendTwice(disk: map<string, Text>, name: string, a: Text, b: Text)
    ensures Append(Append(disk, name, a), name, b) == Append(disk, name, a + b)
  {
    var was := if name in disk then disk[name] else [];
    assert (was + a) + b == was + (a + b);
  }

  // ---------------------------------------------------------------------------------------
  // The client
  // ---------------------------------------------------------------------------------------

  /** Copies n octets from s[m..] to t and terminates them. */
  method Strmncpy(s: array<Octet>, m: nat, n: nat, t: array<Octet>)
    requires m + n <= s.Length && n < t.Length && s != t
    modifies t
    ensures t[..n + 1] == s[m..m + n] + [0]
    ensures t[n + 1..] == old(t[n + 1..])
  {
    var a := 0;
    while a < n
      invariant a <= n
      invariant t[..a] == s[m..m + a]
      invariant t[n + 1..] == old(t[n + 1..])
    {
      t[a] := s[m + a];
      a := a + 1;
    }
    t[n] := 0;
    assert t[..n + 1] == t[..n] + [0];
  }

  predicate AckFits(a: Ack) {
    a.file < MAX_FILES && a.seg < SLOTS
  }

  ghost predicate GoodReplies(replies: seq<Option<Ack>>) {
    forall i :: 0 <= i < |replies| && replies[i].Some? ==> AckFits(replies[i].value)
  }

  /** What the client does at one file when every send is answered by the next reply, or by a
      time-out: where it ends and what it has sent. */
  ghost function AtFile(files: seq<Text>, c: Client, replies: seq<Option<Ack>>): (r: (Client, seq<Packet>))
    requires SendableFiles(files) && GoodClient(files, c) && c.file < |files| && GoodReplies(replies)
    ensures GoodClient(files, r.0)
    decreases if HasSegment(files[c.file], c.seg) then SLOTS + 1 - c.seg else 0, if c.awaiting then 0 else 1
  {
    if c.awaiting then
      if replies == [] then (c, [])
      else if replies[0].Some? then
        AcknowledgeIsGood(files, c, replies[0].value);
        AtFile(files, Acknowledge(c, replies[0].value), replies[1..])
      else
        AtFile(files, TimeOut(c), replies[1..])
    else if !HasSegment(files[c.file], c.seg) then (c, [])
    else
      AdvanceIsGood(files, c);
      var (next, sent) := Advance(files, c);
      var (end, packets) := AtFile(files, next, replies);
      (end, (if sent.Some? then [sent.value] else []) + packets)
  }

  function AfterReply(c: Client, reply: Option<Ack>): Client
    requires |c.done| == MAX_FILES && (forall f :: 0 <= f < MAX_FILES ==> |c.done[f]| == SLOTS)
    requires reply.Some? ==> AckFits(reply.value)
  {
    if reply.Some? then Acknowledge(c, reply.value) else TimeOut(c)
  }

  lemma AtSend(files: seq<Text>, c: Client, replies: seq<Option<Ack>>)
    requires SendableFiles(files) && GoodClient(files, c) && c.file < |files| && GoodReplies(replies)
    requires !c.awaiting && HasSegment(files[c.file], c.seg) && !c.done[c.file][c.seg]
    ensures GoodClient(files, c.(awaiting := true))
    ensures var rest := AtFile(files, c.(awaiting := true), replies);
            AtFile(files, c, replies) == (rest.0, [PacketOf(files, c.file, c.seg)] + rest.1)
  {
    assert Advance(files, c) == (c.(awaiting := true), Some(PacketOf(files, c.file, c.seg)));
  }

  lemma AtReply(files: seq<Text>, c: Client, replies: seq<Option<Ack>>)
    requires SendableFiles(files) && GoodClient(files, c) && c.file < |files| && GoodReplies(replies)
    requires c.awaiting && replies != []
    ensures GoodClient(files, AfterReply(c, replies[0]))
    ensures AtFile(files, c, replies) == AtFile(files, AfterReply(c, replies[0]), replies[1..])
  {
    if replies[0].Some? {
      AcknowledgeIsGood(files, c, replies[0].value);
    }
  }

  /** One turn of the client's loop at a segment it sends. */
  lemma AtUnticked(files: seq<Text>, c: Client, replies: seq<Option<Ack>>)
    requires SendableFiles(files) && GoodClient(files, c) && c.file < |files| && GoodReplies(replies)
    requires !c.awaiting && HasSegment(files[c.file], c.seg) && !c.done[c.file][c.seg] && replies != []
    ensures GoodClient(files, AfterReply(c, replies[0]))
    ensures var rest := AtFile(files, AfterReply(c, replies[0]), replies[1..]);
            AtFile(files, c, replies) == (rest.0, [PacketOf(files, c.file, c.seg)] + rest.1)
  {
    AtSend(files, c, replies);
    AtReply(files, c.(awaiting := true), replies);
    assert AfterReply(c.(awaiting := true), replies[0]) == AfterReply(c, replies[0]);
  }

  lemma AtTicked(files: seq<Text>, c: Client, replies: seq<Option<Ack>>)
    requires SendableFiles(files) && GoodClient(files, c) && c.file < |files| && GoodReplies(replies)
    requires !c.awaiting && HasSegment(files[c.file], c.seg) && c.done[c.file][c.seg]
    ensures GoodClient(files, c.(seg := c.seg + 1))
    ensures AtFile(files, c, replies) == AtFile(files, c.(seg := c.seg + 1), replies)
  {
    AdvanceIsGood(files, c);
    var next := c.(seg := c.seg + 1);
    assert Advance(files, c) == (next, None);
    var rest := AtFile(files, next, replies);
    assert [] + rest.1 == rest.1;
    assert AtFile(files, c, replies) == (rest.0, [] + rest.1);
  }

  /** Between two sends: the pass has come to the file's end, or to a segment it sends. */
  ghost predicate InPass(files: seq<Text>, c: Client) {
    SendableFiles(files) && GoodClient(files, c) && c.file < |files| && !c.awaiting
  }

  lemma TickedByReply(c: Client, reply: Option<Ack>, f: nat, g: nat)
    requires |c.done| == MAX_FILES && (forall h :: 0 <= h < MAX_FILES ==> |c.done[h]| == SLOTS)
    requires (reply.Some? ==> AckFits(reply.value)) && f < MAX_FILES && g < SLOTS
    ensures |AfterReply(c, reply).done| == MAX_FILES && |AfterReply(c, reply).done[f]| == SLOTS
    ensures AfterReply(c, reply).done[f][g] <==> c.done[f][g] || reply == Some(Ack(f, g))
  {
  }

  /** A pass marks what it was told of in its receives, one for each packet, and nothing else. */
  lemma {:induction false} PassTicks(files: seq<Text>, c: Client, replies: seq<Option<Ack>>, f: nat, g: nat)
    requires InPass(files, c) && GoodReplies(replies) && |replies| + c.seg >= SLOTS && f < MAX_FILES && g < SLOTS
    ensures var (end, sent) := AtFile(files, c, replies);
            && |sent| <= |replies|
            && (end.done[f][g] <==> c.done[f][g] || Some(Ack(f, g)) in replies[..|sent|])
    decreases SLOTS + 1 - c.seg
  {
    if HasSegment(files[c.file], c.seg) {
      assert c.seg < SLOTS;
      if c.done[c.file][c.seg] {
        AtTicked(files, c, replies);
        PassTicks(files, c.(seg := c.seg + 1), replies, f, g);
      } else {
        AtUnticked(files, c, replies);
        TickedByReply(c, replies[0], f, g);
        PassTicks(files, AfterReply(c, replies[0]), replies[1..], f, g);
        var n := |AtFile(files, AfterReply(c, replies[0]), replies[1..]).1|;
        assert replies[..n + 1] == [replies[0]] + replies[1..][..n];
      }
    }
  }

  class FileClient {
    const checkList: array2<bool>
    const fileData: array<Octet>

    ghost predicate Valid() {
      checkList.Length0 == MAX_FILES && checkList.Length1 == SLOTS && fileData.Length == READ_BUFFER
    }

    ghost function Done(): (d: seq<seq<bool>>)
      requires Valid()
      reads checkList
      ensures |d| == MAX_FILES && forall f :: 0 <= f < MAX_FILES ==> d[f] == BitRow(checkList, f)
    {
      seq(MAX_FILES, f requires 0 <= f < MAX_FILES reads checkList => BitRow(checkList, f))
    }

    constructor ()
      ensures Valid() && fresh(checkList) && fresh(fileData)
      ensures Done() == Start([]).client.done
    {
      checkList := new bool[MAX_FILES, SLOTS]((f, g) => false);
      fileData := new Octet[READ_BUFFER](i => 0);
      new;
      assert forall f: nat :: f < MAX_FILES ==> BitRow(checkList, f) == Start([]).client.done[f];
    }

    /** Clears the buffer and reads the file into it. */
    method ReadFile(file: Text)
      requires Valid() && |file| <= READ_BUFFER
      modifies fileData
      ensures fileData[..] == ReadIn(file)
    {
      for i := 0 to READ_BUFFER
        invariant forall k :: 0 <= k < i ==> fileData[k] == 0
      {
        fileData[i] := 0;
      }
      for i := 0 to |file|
        invariant forall k :: 0 <= k < i ==> fileData[k] == file[k]
        invariant forall k :: i <= k < READ_BUFFER ==> fileData[k] == 0
      {
        fileData[i] := file[i];
      }
    }

    method Tick(a: Ack)
      requires Valid() && AckFits(a)
      modifies checkList
      ensures Done() == old(Done())[a.file := old(Done())[a.file][a.seg := true]]
    {
      checkList[a.file, a.seg] := true;
      forall f: nat | f < MAX_FILES
        ensures Done()[f] == if f == a.file then old(Done())[a.file][a.seg := true] else old(Done())[f]
      {
        assert old(Done())[f] == old(BitRow(checkList, f));
      }
    }

    method MakePacket(i: nat, j: nat, file: Text) returns (p: Packet)
      requires Valid() && |file| <= Offset(SLOTS) && j == Offset(j / 1024) && HasSegment(file, j / 1024)
      requires fileData[..] == ReadIn(file)
      ensures p == Packet(Name(i), Payload(file, j / 1024), j / 1024, i, |file|)
    {
      var content := new Octet[1025];
      Strmncpy(fileData, j, 1024, content);
      p := Packet(Name(i), content[..], j / 1024, i, |file|);
    }

    /** One turn of the loop at an unticked segment: send it, and record the reply if there is one. */
    method SendSegment(ghost files: seq<Text>, i: nat, j: nat, file: Text, reply: Option<Ack>) returns (p: Packet)
      requires Valid() && SendableFiles(files) && i < |files| && files[i] == file
      requires j == Offset(j / 1024) && HasSegment(file, j / 1024) && fileData[..] == ReadIn(file)
      requires reply.Some? ==> AckFits(reply.value)
      modifies checkList
      ensures p == PacketOf(files, i, j / 1024)
      ensures Done() == AfterReply(Client(old(Done()), i, j / 1024, false), reply).done
    {
      p := MakePacket(i, j, file);
      if reply.Some? {
        Tick(reply.value);
      }
    }

    /** One pass over the segments of file i, given the replies its receives will return. */
    method SweepFile(ghost files: seq<Text>, i: nat, file: Text, replies: seq<Option<Ack>>)
      returns (sent: seq<Packet>)
      requires Valid() && SendableFiles(files) && i < |files| && files[i] == file
      requires GoodReplies(replies) && |replies| >= SLOTS
      modifies checkList, fileData
      ensures sent == AtFile(files, Client(old(Done()), i, 0, false), replies).1
      ensures Done() == AtFile(files, Client(old(Done()), i, 0, false), replies).0.done
      ensures |sent| <= |replies|
      ensures forall f: nat, g: nat :: f < MAX_FILES && g < SLOTS ==>
                (Done()[f][g] <==> old(Done())[f][g] || Some(Ack(f, g)) in replies[..|sent|])
    {
      ghost var c, left := Client(Done(), i, 0, false), replies;
      ghost var all := AtFile(files, c, left);
      ReadFile(file);
      sent := [];
      var j, used := 0, 0;
      while j < |file|
        invariant j == Offset(c.seg) && used <= c.seg <= SLOTS
        invariant fileData[..] == ReadIn(file)
        invariant c == Client(Done(), i, c.seg, false) && left == replies[used..]
        invariant all.0 == AtFile(files, c, left).0
        invariant all.1 == sent + AtFile(files, c, left).1
        decreases |file| - j
      {
        if checkList[i, j / 1024] {
          AtTicked(files, c, left);
          c := c.(seg := c.seg + 1);
        } else {
          AtUnticked(files, c, left);
          var p := SendSegment(files, i, j, file, replies[used]);
          c, left := AfterReply(c, left[0]), left[1..];
          Assoc(sent, [p], AtFile(files, c, left).1);
          sent := sent + [p];
          used := used + 1;
        }
        j := j + 1024;
      }
      PassTicks(files, Client(old(Done()), i, 0, false), replies, 0, 0);
      forall f: nat, g: nat | f < MAX_FILES && g < SLOTS
        ensures Done()[f][g] <==> old(Done())[f][g] || Some(Ack(f, g)) in replies[..|sent|]
      {
        PassTicks(files, Client(old(Done()), i, 0, false), replies, f, g);
      }
    }
  }
}
