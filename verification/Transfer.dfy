/**
The file transfer of Lab 8 over a datagram network: what a packet holds, what the server does
with one, and how the client walks over the segments it has no acknowledgement for.
*/
module Transfer {
  import opened Octets

  const SLOTS: nat := 32
  const MAX_FILES: nat := 1005
  const READ_BUFFER: nat := 35000

  datatype Packet = Packet(name: string, content: seq<Octet>, seg: nat, file: nat, total: nat)

  datatype Ack = Ack(file: nat, seg: nat)

  // ---------------------------------------------------------------------------------------
  // Files and their segments
  // ---------------------------------------------------------------------------------------

  /** What the client can transfer: text without NULs, in at most 32 segments. */
  ghost predicate Sendable(file: Text) {
    0 !in file && |file| <= Offset(SLOTS)
  }

  ghost predicate SendableFiles(files: seq<Text>) {
    |files| <= MAX_FILES && forall f :: 0 <= f < |files| ==> Sendable(files[f])
  }

  function Clip(file: Text, n: nat): (m: nat)
    ensures m <= |file| && m <= n
  {
    if n <= |file| then n else |file|
  }

  /** Where segment g starts. */
  function Offset(g: nat): nat {
    1024 * g
  }

  /** Up to 1005 files, each of up to 32768 octets, none of them NUL. */
  lemma WhatIsSendable(files: seq<Text>)
    ensures SendableFiles(files) <==>
      |files| <= 1005 && forall f :: 0 <= f < |files| ==> |files[f]| <= 32768 && 0 !in files[f]
  {
  }

  predicate HasSegment(file: Text, g: nat) {
    Offset(g) < |file|
  }

  function Segment(file: Text, g: nat): Text {
    file[Clip(file, Offset(g))..Clip(file, Offset(g + 1))]
  }

  /** The file as the client reads it: into a zeroed buffer. */
  function ReadIn(file: Text): seq<Octet>
    requires |file| <= READ_BUFFER
  {
    file + Zeros(READ_BUFFER - |file|)
  }

  /** The payload of a segment: 1024 octets of the read buffer and a terminator. */
  function Payload(file: Text, g: nat): seq<Octet>
    requires |file| <= Offset(SLOTS) && HasSegment(file, g)
  {
    ReadIn(file)[Offset(g)..Offset(g + 1)] + [0]
  }

  lemma PayloadIsSegment(file: Text, g: nat)
    requires Sendable(file) && HasSegment(file, g)
    ensures CString(Payload(file, g)) == Segment(file, g) && |Segment(file, g)| > 0
  {
    var text := Segment(file, g);
    var rest := Zeros(1024 - |text|) + [0];
    assert Payload(file, g) == text + rest;
    CStringStopsAt(text, rest);
  }

  /** The file name "%06d": its i-th character is the digit worth UnitOf(i). */
  function Name(f: nat): string {
    seq(6, i requires 0 <= i < 6 => Digit(f / UnitOf(i)))
  }

  function UnitOf(i: nat): (u: nat)
    ensures u > 0
  {
    if i == 0 then 100000 else if i == 1 then 10000 else if i == 2 then 1000
    else if i == 3 then 100 else if i == 4 then 10 else 1
  }

  function Digit(n: nat): char {
    '0' + (n % 10) as char
  }

  lemma DigitIs(n: nat)
    ensures Digit(n) == "0123456789"[n % 10]
  {
    assert "0123456789"[n % 10] as int == 48 + n % 10;
  }

  /** The six characters, one by one. */
  lemma NameIsSixDigits(f: nat)
    ensures |Name(f)| == 6
    ensures Name(f)[0] == "0123456789"[f / 100000 % 10] && Name(f)[1] == "0123456789"[f / 10000 % 10]
    ensures Name(f)[2] == "0123456789"[f / 1000 % 10] && Name(f)[3] == "0123456789"[f / 100 % 10]
    ensures Name(f)[4] == "0123456789"[f / 10 % 10] && Name(f)[5] == "0123456789"[f % 10]
  {
    DigitIs(f / 100000);
    DigitIs(f / 10000);
    DigitIs(f / 1000);
    DigitIs(f / 100);
    DigitIs(f / 10);
    DigitIs(f);
  }

  lemma NamesDiffer(f: nat, h: nat)
    requires f < MAX_FILES && h < MAX_FILES && Name(f) == Name(h)
    ensures f == h
  {
    SplitDecimal(f);
    SplitDecimal(h);
    SameDigit(f, h, 2);
    SameDigit(f, h, 3);
    SameDigit(f, h, 4);
    SameDigit(f, h, 5);
  }

  lemma SameDigit(f: nat, h: nat, i: nat)
    requires Name(f) == Name(h) && i < 6
    ensures f / UnitOf(i) % 10 == h / UnitOf(i) % 10
  {
    assert Name(f)[i] == Name(h)[i];
  }

  lemma SplitDecimal(f: nat)
    requires f < 10000
    ensures f == 1000 * (f / 1000 % 10) + 100 * (f / 100 % 10) + 10 * (f / 10 % 10) + f % 10
  {
    assert f / 10 == 10 * (f / 100) + f / 10 % 10;
    assert f / 100 == 10 * (f / 1000) + f / 100 % 10;
  }

  function PacketOf(files: seq<Text>, f: nat, g: nat): Packet
    requires f < |files| && |files[f]| <= Offset(SLOTS) && HasSegment(files[f], g)
  {
    Packet(Name(f), Payload(files[f], g), g, f, |files[f]|)
  }

  // ---------------------------------------------------------------------------------------
  // The server: one record a file, and the directory it appends to
  // ---------------------------------------------------------------------------------------

  datatype Entry = Entry(check: seq<bool>, tmp: seq<Text>, len: nat, fin: bool)

  datatype Server = Server(entries: seq<Entry>, disk: map<string, Text>)

  ghost predicate WellSized(sv: Server) {
    |sv.entries| == MAX_FILES &&
    forall f :: 0 <= f < MAX_FILES ==> |sv.entries[f].check| == |sv.entries[f].tmp| == SLOTS
  }

  /** The array sizes of the program: what a packet's indices must respect. */
  predicate Addressable(p: Packet) {
    p.file < MAX_FILES && p.seg < SLOTS && 0 in p.content
  }

  function Flatten(tmp: seq<Text>, n: nat): Text
    requires n <= |tmp|
  {
    if n == 0 then [] else Flatten(tmp, n - 1) + tmp[n - 1]
  }

  predicate Stored(sv: Server, f: nat, g: nat) {
    f < |sv.entries| && g < |sv.entries[f].check| && sv.entries[f].check[g]
  }

  function StoreSegment(e: Entry, g: nat, text: Text): Entry
    requires g < |e.check| && g < |e.tmp|
  {
    e.(check := e.check[g := true], tmp := e.tmp[g := text], len := e.len + |text|)
  }

  function Append(disk: map<string, Text>, name: string, text: Text): map<string, Text> {
    disk[name := (if name in disk then disk[name] else []) + text]
  }

  /** One packet, after its acknowledgement: dropped as a duplicate, or stored, and when the
      bytes stored reach the announced total the slots are appended to the file (opens tells
      whether the file could be opened). */
  function Handle(sv: Server, p: Packet, opens: bool): Server
    requires WellSized(sv) && Addressable(p)
  {
    if Stored(sv, p.file, p.seg) then sv
    else
      var e := StoreSegment(sv.entries[p.file], p.seg, CString(p.content));
      if e.len == p.total && !e.fin && opens then
        Server(sv.entries[p.file := e.(fin := true)], Append(sv.disk, p.name, Flatten(e.tmp, |e.tmp|)))
      else
        sv.(entries := sv.entries[p.file := e])
  }

  function AckOf(p: Packet): Ack {
    Ack(p.file, p.seg)
  }

  // ---------------------------------------------------------------------------------------
  // The client
  // ---------------------------------------------------------------------------------------

  /** The client's bit table, the segment it is at, and whether it waits for a reply. */
  datatype Client = Client(done: seq<seq<bool>>, file: nat, seg: nat, awaiting: bool)

  ghost predicate GoodClient(files: seq<Text>, c: Client) {
    && |c.done| == MAX_FILES
    && (forall f :: 0 <= f < MAX_FILES ==> |c.done[f]| == SLOTS)
    && c.file <= |files|
    && (c.awaiting ==> c.file < |files| && HasSegment(files[c.file], c.seg))
  }

  /** Up to the next send: the next sweep, the next file, the next segment, or a send. */
  function Advance(files: seq<Text>, c: Client): (Client, Option<Packet>)
    requires SendableFiles(files) && GoodClient(files, c) && !c.awaiting
  {
    if c.file == |files| then (c.(file := 0, seg := 0), None)
    else if !HasSegment(files[c.file], c.seg) then (c.(file := c.file + 1, seg := 0), None)
    else if c.done[c.file][c.seg] then (c.(seg := c.seg + 1), None)
    else (c.(awaiting := true), Some(PacketOf(files, c.file, c.seg)))
  }

  function TimeOut(c: Client): Client {
    c.(awaiting := false, seg := c.seg + 1)
  }

  function Acknowledge(c: Client, a: Ack): Client
    requires a.file < |c.done| && a.seg < |c.done[a.file]|
  {
    TimeOut(c.(done := c.done[a.file := c.done[a.file][a.seg := true]]))
  }
}
