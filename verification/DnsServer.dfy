/**
The DNS server of hw2 between its sockets: taking the question out of a query, and building the
four kinds of response in the 1024-octet send buffer.
*/
module DnsServer {
  import opened Octets
  import opened Sequences
  import opened DnsNames
  import opened DnsEncoding
  import opened DnsMessages

  const AUTHORITATIVE: U16 := 0x8500

  /** A name of the configuration, a zone file or a query that the server can answer about. */
  ghost predicate Usable(name: Text) {
    WellFormed(name) && LegalName(Labels(name)) && |name| < 50
  }

  lemma LegalLengths(labels: Name)
    requires LegalName(labels)
    ensures forall l :: l in labels ==> |l| % 256 != 0
  {
    forall l | l in labels
      ensures |l| % 256 != 0
    {
      assert 1 <= |l| <= 63;
    }
  }

  lemma UsableLengths(name: Text)
    requires Usable(name)
    ensures OnlyLastIsZero(Packet(name))
  {
    LegalLengths(Labels(name));
    ZeroLaw(name);
  }

  lemma UsablePacket(name: Text)
    requires Usable(name)
    ensures Packet(name) == PutName(Labels(name)) && |Packet(name)| == |name| + 1
  {
    LengthLaw(name);
  }

  /** strtok(s, "."): the first run of octets that are not dots. */
  function FirstToken(s: Text): Text {
    if s != [] && s[0] == DOT then FirstToken(s[1..]) else s[..FirstDot(s)]
  }

  lemma FirstTokenIsLabel(name: Text)
    requires WellFormed(name)
    ensures FirstToken(name) == Labels(name)[0] && name[0] != DOT
  {
    assert name[..FirstDot(name)] == Labels(name)[0];
    assert Labels(name)[0] in Labels(name);
  }

  // ---------------------------------------------------------------------------------------
  // The messages the server means to send
  // ---------------------------------------------------------------------------------------

  function Rr(name: Text, ttl: U32, data: Data): Record {
    Record(Labels(name), 1, ttl, data)
  }

  function Asked(name: Text, qtype: U16): Question {
    Question(Labels(name), qtype, 1)
  }

  /** What the zone file gives for the server's own records. */
  datatype Zone = Zone(domain: Text, server: Text, serverTtl: U32, mname: Text, rname: Text, soaTtl: U32, timers: seq<U32>)

  ghost predicate UsableZone(z: Zone) {
    Usable(z.domain) && Usable(z.server) && Usable(z.mname) && Usable(z.rname) && |z.timers| == 5
  }

  function NsRecord(z: Zone): Record {
    Rr(z.domain, z.serverTtl, Server(Labels(z.server)))
  }

  function SoaRecord(z: Zone): Record {
    Rr(z.domain, z.soaTtl, Authority(Soa(Labels(z.mname), Labels(z.rname), z.timers)))
  }

  function SubDomain(sub: Text, z: Zone): Text {
    sub + [DOT] + z.domain
  }

  function AddressMessage(id: U16, sub: Text, z: Zone, ttl: U32, address: Text): Message {
    var name := SubDomain(sub, z);
    Message(id, AUTHORITATIVE, [Asked(name, 1)], [Rr(name, ttl, Address(address))], [NsRecord(z)], [])
  }

  function NegativeMessage(id: U16, name: Text, z: Zone): Message {
    Message(id, AUTHORITATIVE, [Asked(name, 1)], [], [SoaRecord(z)], [])
  }

  /** Here the name server is taken to be a host of the zone, whatever domain the zone file
      gives it; the TTL of the NS record is found apart. */
  function ServerMessage(id: U16, z: Zone, nsTtl: U32, ttl: U32, address: Text): Message {
    var host := SubDomain(FirstToken(z.server), z);
    Message(id, AUTHORITATIVE, [Asked(z.domain, 2)],
            [Rr(z.domain, nsTtl, Server(Labels(host)))], [], [Rr(host, ttl, Address(address))])
  }

  function AuthorityMessage(id: U16, z: Zone): Message {
    Message(id, AUTHORITATIVE, [Asked(z.domain, 6)], [SoaRecord(z)], [NsRecord(z)], [])
  }

  // ---------------------------------------------------------------------------------------
  // Building a response
  // ---------------------------------------------------------------------------------------

  /** sprintf(field, "%s", text). */
  method PrintField(field: array<Octet>, text: Text)
    requires |text| <= field.Length && |CString(text)| < field.Length
    modifies field
    ensures field[..] == Printed(text, old(field[..]))
  {
    var t := CString(text);
    ghost var stale := field[..];
    var next := Copy(field, 0, t);
    field[next] := 0;
    assert field[..next] == t;
    assert field[next + 1..] == stale[next + 1..];
    assert field[..] == field[..next] + [field[next]] + field[next + 1..];
  }

  /** A name goes into the buffer through a 50-octet array that starts with anything in it. */
  method WriteName(buf: array<Octet>, at: nat, name: Text) returns (next: nat)
    requires Usable(name) && at + |name| + 1 <= buf.Length
    modifies buf
    ensures next == at + |name| + 1 && buf[..next] == old(buf[..at]) + PutName(Labels(name))
  {
    UsablePacket(name);
    UsableLengths(name);
    var packet := StrToPkt(name);
    var field := new Octet[50];
    ghost var stale := field[..];
    assert packet == packet[..|packet| - 1] + [0];
    CStringStopsAt(packet[..|packet| - 1], [0]);
    PrintField(field, packet);
    assert field[..|packet|] == packet;
    next := Copy(buf, at, field[..|packet|]);
  }

  lemma RegroupSix(p: Text, a: Text, b: Text, c: Text, d: Text, e: Text)
    ensures ((((p + a) + b) + c) + d) + e == p + (a + (b + (c + (d + e))))
  {
    Assoc(p, a, b);
    Assoc(p, a + b, c);
    Assoc(a, b, c);
    Assoc(p, a + (b + c), d);
    Assoc(a, b + c, d);
    Assoc(b, c, d);
    Assoc(p, a + (b + (c + d)), e);
    Assoc(a, b + (c + d), e);
    Assoc(b, c + d, e);
    Assoc(c, d, e);
  }

  method WriteHeader(buf: array<Octet>, id: U16, answers: U16, authority: U16, additional: U16) returns (next: nat)
    requires 12 <= buf.Length
    modifies buf
    ensures next == 12 && buf[..next] == PutWords([id, AUTHORITATIVE, 1, answers, authority, additional])
  {
    var fields: seq<U16> := [id, AUTHORITATIVE, 1, answers, authority, additional];
    next := Copy(buf, 0, PutWords(fields));
    assert buf[..0] == [];
  }

  method WriteQuestion(buf: array<Octet>, at: nat, name: Text, qtype: U16) returns (next: nat)
    requires Usable(name) && at + |name| + 5 <= buf.Length
    modifies buf
    ensures next == at + |name| + 5 && buf[..next] == old(buf[..at]) + PutQuestion(Asked(name, qtype))
  {
    ghost var before := buf[..at];
    next := WriteName(buf, at, name);
    next := Copy(buf, next, Put16(qtype));
    next := Copy(buf, next, Put16(1));
    Assoc(before, PutName(Labels(name)), Put16(qtype));
    Assoc(before, PutName(Labels(name)) + Put16(qtype), Put16(1));
  }

  /** What every record begins with: name, type, class IN, TTL and RDLENGTH. */
  method WriteRecordHead(buf: array<Octet>, at: nat, name: Text, kind: U16, ttl: U32, length: U16) returns (next: nat)
    requires Usable(name) && at + |name| + 11 <= buf.Length
    modifies buf
    ensures next == at + |name| + 11
    ensures buf[..next] == old(buf[..at])
         + (PutName(Labels(name)) + (Put16(kind) + (Put16(1) + (Put32(ttl) + Put16(length)))))
  {
    ghost var before := buf[..at];
    next := WriteName(buf, at, name);
    next := Copy(buf, next, Put16(kind));
    next := Copy(buf, next, Put16(1));
    next := Copy(buf, next, Put32(ttl));
    next := Copy(buf, next, Put16(length));
    RegroupSix(before, PutName(Labels(name)), Put16(kind), Put16(1), Put32(ttl), Put16(length));
  }

  lemma HeadAndData(before: Text, n: Text, kind: Text, class_: Text, ttl: Text, length: Text, data: Text)
    ensures (before + (n + (kind + (class_ + (ttl + length))))) + data
         == before + (n + (kind + (class_ + (ttl + (length + data)))))
  {
    Assoc(before, n + (kind + (class_ + (ttl + length))), data);
    Assoc(n, kind + (class_ + (ttl + length)), data);
    Assoc(kind, class_ + (ttl + length), data);
    Assoc(class_, ttl + length, data);
    Assoc(ttl, length, data);
  }

  method WriteAddress(buf: array<Octet>, at: nat, name: Text, ttl: U32, address: Text) returns (next: nat)
    requires Usable(name) && |address| == 4 && at + |name| + 15 <= buf.Length
    modifies buf
    ensures next == at + |name| + 15
    ensures buf[..next] == old(buf[..at]) + PutRecord(Rr(name, ttl, Address(address)))
  {
    ghost var before := buf[..at];
    next := WriteRecordHead(buf, at, name, 1, ttl, 4);
    next := Copy(buf, next, address);
    HeadAndData(before, PutName(Labels(name)), Put16(1), Put16(1), Put32(ttl), Put16(4), address);
  }

  /** The octets of a record with data d behind the head that WriteRecordHead puts down. */
  lemma RecordIs(before: Text, r: Record, n: U16)
    requires r.class_ == 1 && n == |PutData(r.data)|
    ensures (before + (PutName(r.name) + (Put16(TypeOf(r.data)) + (Put16(1) + (Put32(r.ttl) + Put16(n)))))) + PutData(r.data)
         == before + PutRecord(r)
  {
    HeadAndData(before, PutName(r.name), Put16(TypeOf(r.data)), Put16(1), Put32(r.ttl), Put16(n), PutData(r.data));
  }

  method WriteServer(buf: array<Octet>, at: nat, name: Text, ttl: U32, server: Text) returns (next: nat)
    requires Usable(name) && Usable(server) && at + |name| + 12 + |server| <= buf.Length
    modifies buf
    ensures next == at + |name| + 12 + |server|
    ensures |PutData(Server(Labels(server)))| < 0x1_0000
    ensures buf[..next] == old(buf[..at]) + PutRecord(Rr(name, ttl, Server(Labels(server))))
  {
    ghost var before := buf[..at];
    UsablePacket(server);
    next := WriteRecordHead(buf, at, name, 2, ttl, |server| + 1);
    next := WriteName(buf, next, server);
    RecordIs(before, Rr(name, ttl, Server(Labels(server))), |server| + 1);
  }

  method WriteTimers(buf: array<Octet>, at: nat, timers: seq<U32>) returns (next: nat)
    requires at + 4 * |timers| <= buf.Length
    modifies buf
    ensures next == at + 4 * |timers| && buf[..next] == old(buf[..at]) + PutTimers(timers)
  {
    next := Copy(buf, at, PutTimers(timers));
  }

  method WriteSoaData(buf: array<Octet>, at: nat, z: Zone) returns (next: nat)
    requires UsableZone(z) && at + |z.mname| + |z.rname| + 22 <= buf.Length
    modifies buf
    ensures next == at + |z.mname| + |z.rname| + 22 && buf[..next] == old(buf[..at]) + PutData(SoaRecord(z).data)
  {
    ghost var before := buf[..at];
    ghost var m, r, t := PutName(Labels(z.mname)), PutName(Labels(z.rname)), PutTimers(z.timers);
    next := WriteName(buf, at, z.mname);
    next := WriteName(buf, next, z.rname);
    next := WriteTimers(buf, next, z.timers);
    Assoc(before, m, r);
    Assoc(before, m + r, t);
    Assoc(m, r, t);
  }

  lemma SoaLength(z: Zone)
    requires UsableZone(z)
    ensures |PutData(SoaRecord(z).data)| == |z.mname| + 1 + |z.rname| + 1 + 20 < 0x1_0000
  {
    UsablePacket(z.mname);
    UsablePacket(z.rname);
  }

  method WriteSoa(buf: array<Octet>, at: nat, z: Zone) returns (next: nat)
    requires UsableZone(z) && at + |z.domain| + 33 + |z.mname| + |z.rname| <= buf.Length
    modifies buf
    ensures next == at + |z.domain| + 33 + |z.mname| + |z.rname|
    ensures |PutData(SoaRecord(z).data)| < 0x1_0000
    ensures buf[..next] == old(buf[..at]) + PutRecord(SoaRecord(z))
  {
    ghost var before := buf[..at];
    var rdlength := |z.mname| + 1 + |z.rname| + 1 + 20;
    SoaLength(z);
    next := WriteRecordHead(buf, at, z.domain, 6, z.soaTtl, rdlength);
    next := WriteSoaData(buf, next, z);
    RecordIs(before, SoaRecord(z), rdlength);
  }

  // ---------------------------------------------------------------------------------------
  // The four responses
  // ---------------------------------------------------------------------------------------

  lemma OneRecord(r: Record)
    requires LegalRecord(r)
    ensures LegalRecords([r]) && PutRecords([r]) == PutRecord(r)
  {
    assert [r][1..] == [];
  }

  lemma OneQuestion(q: Question)
    requires LegalName(q.name)
    ensures LegalQuestions([q]) && PutQuestions([q]) == PutQuestion(q)
  {
    assert [q][1..] == [];
  }

  /** The octets are the message's, and the standard's reader takes the message out of them and
      leaves none over. */
  ghost predicate IsMessage(octets: Text, m: Message) {
    Legal(m) && octets == PutMessage(m) && ReadMessage(octets) == Some(Got(m, []))
  }

  /** The sections written one behind the other are the message, and are read as it. */
  lemma SectionsAreRead(m: Message, written: Text, q: Text, a: Text, b: Text, c: Text)
    requires Legal(m) && q == PutQuestions(m.questions)
    requires a == PutRecords(m.answers) && b == PutRecords(m.authority) && c == PutRecords(m.additional)
    requires written == (((PutWords(Header(m)) + q) + a) + b) + c
    ensures IsMessage(written, m)
  {
    var w := PutWords(Header(m));
    Assoc(w, q, a);
    Assoc(w, q + a, b);
    Assoc(q, a, b);
    Assoc(w, q + (a + b), c);
    Assoc(q, a + b, c);
    Assoc(a, b, c);
    assert written + [] == written;
    GetMessage(m, []);
  }

  lemma ServerIsLegal(name: Text, ttl: U32, server: Text)
    requires Usable(name) && Usable(server)
    ensures LegalRecord(Rr(name, ttl, Server(Labels(server))))
  {
    UsablePacket(server);
  }

  lemma SoaIsLegal(z: Zone)
    requires UsableZone(z)
    ensures LegalRecord(SoaRecord(z))
  {
    SoaLength(z);
  }

  // The octets of each response, as they are written, are read as the message meant.

  lemma AnswerAndAuthority(written: Text, id: U16, q: Question, r: Record, s: Record)
    requires LegalName(q.name) && LegalRecord(r) && LegalRecord(s)
    requires written == ((PutWords([id, AUTHORITATIVE, 1, 1, 1, 0]) + PutQuestion(q)) + PutRecord(r)) + PutRecord(s)
    ensures IsMessage(written, Message(id, AUTHORITATIVE, [q], [r], [s], []))
  {
    OneQuestion(q);
    OneRecord(r);
    OneRecord(s);
    assert written + [] == written;
    SectionsAreRead(Message(id, AUTHORITATIVE, [q], [r], [s], []), written, PutQuestion(q), PutRecord(r), PutRecord(s), []);
  }

  lemma AuthorityAlone(written: Text, id: U16, q: Question, s: Record)
    requires LegalName(q.name) && LegalRecord(s)
    requires written == (PutWords([id, AUTHORITATIVE, 1, 0, 1, 0]) + PutQuestion(q)) + PutRecord(s)
    ensures IsMessage(written, Message(id, AUTHORITATIVE, [q], [], [s], []))
  {
    OneQuestion(q);
    OneRecord(s);
    var front := PutWords([id, AUTHORITATIVE, 1, 0, 1, 0]) + PutQuestion(q);
    assert front + [] == front && written + [] == written;
    SectionsAreRead(Message(id, AUTHORITATIVE, [q], [], [s], []), written, PutQuestion(q), [], PutRecord(s), []);
  }

  lemma AnswerAndAdditional(written: Text, id: U16, q: Question, r: Record, e: Record)
    requires LegalName(q.name) && LegalRecord(r) && LegalRecord(e)
    requires written == ((PutWords([id, AUTHORITATIVE, 1, 1, 0, 1]) + PutQuestion(q)) + PutRecord(r)) + PutRecord(e)
    ensures IsMessage(written, Message(id, AUTHORITATIVE, [q], [r], [], [e]))
  {
    OneQuestion(q);
    OneRecord(r);
    OneRecord(e);
    var front := (PutWords([id, AUTHORITATIVE, 1, 1, 0, 1]) + PutQuestion(q)) + PutRecord(r);
    assert front + [] == front;
    SectionsAreRead(Message(id, AUTHORITATIVE, [q], [r], [], [e]), written, PutQuestion(q), PutRecord(r), [], PutRecord(e));
  }

  /** The answer to a type A question about a host the zone file knows. */
  method AddressAnswer(buf: array<Octet>, id: U16, aname: Text, z: Zone, ttl: U32, address: Text) returns (offset: nat)
    requires buf.Length == 1024 && UsableZone(z) && Usable(SubDomain(FirstToken(aname), z)) && |address| == 4
    modifies buf
    ensures offset <= 1024
    ensures IsMessage(buf[..offset], AddressMessage(id, FirstToken(aname), z, ttl, address))
  {
    var name := SubDomain(FirstToken(aname), z);
    offset := WriteHeader(buf, id, 1, 1, 0);
    offset := WriteQuestion(buf, offset, name, 1);
    offset := WriteAddress(buf, offset, name, ttl, address);
    offset := WriteServer(buf, offset, z.domain, z.serverTtl, z.server);
    ServerIsLegal(z.domain, z.serverTtl, z.server);
    AnswerAndAuthority(buf[..offset], id, Asked(name, 1), Rr(name, ttl, Address(address)), NsRecord(z));
  }

  /** The answer to a type A question about a host the zone file does not know: no answer, and
      the zone's SOA record. */
  method NegativeAnswer(buf: array<Octet>, id: U16, aname: Text, qnameLen: nat, z: Zone) returns (offset: nat)
    requires buf.Length == 1024 && UsableZone(z)
    requires qnameLen > |z.domain| ==> Usable(SubDomain(FirstToken(aname), z))
    modifies buf
    ensures offset <= 1024
    ensures var name := if qnameLen > |z.domain| then SubDomain(FirstToken(aname), z) else z.domain;
            IsMessage(buf[..offset], NegativeMessage(id, name, z))
  {
    var name := z.domain;
    if qnameLen > |z.domain| {
      name := SubDomain(FirstToken(aname), z);
    }
    offset := WriteHeader(buf, id, 0, 1, 0);
    offset := WriteQuestion(buf, offset, name, 1);
    offset := WriteSoa(buf, offset, z);
    SoaIsLegal(z);
    AuthorityAlone(buf[..offset], id, Asked(name, 1), SoaRecord(z));
  }

  /** The answer to a type NS question. */
  method ServerAnswer(buf: array<Octet>, id: U16, z: Zone, nsTtl: U32, ttl: U32, address: Text) returns (offset: nat)
    requires buf.Length == 1024 && UsableZone(z) && Usable(SubDomain(FirstToken(z.server), z)) && |address| == 4
    modifies buf
    ensures offset <= 1024
    ensures IsMessage(buf[..offset], ServerMessage(id, z, nsTtl, ttl, address))
  {
    var host := SubDomain(FirstToken(z.server), z);
    offset := WriteHeader(buf, id, 1, 0, 1);
    offset := WriteQuestion(buf, offset, z.domain, 2);
    offset := WriteServer(buf, offset, z.domain, nsTtl, host);
    offset := WriteAddress(buf, offset, host, ttl, address);
    ServerIsLegal(z.domain, nsTtl, host);
    AnswerAndAdditional(buf[..offset], id, Asked(z.domain, 2), Rr(z.domain, nsTtl, Server(Labels(host))),
                        Rr(host, ttl, Address(address)));
  }

  /** The answer to a type SOA question. */
  method AuthorityAnswer(buf: array<Octet>, id: U16, z: Zone) returns (offset: nat)
    requires buf.Length == 1024 && UsableZone(z)
    modifies buf
    ensures offset <= 1024
    ensures IsMessage(buf[..offset], AuthorityMessage(id, z))
  {
    offset := WriteHeader(buf, id, 1, 1, 0);
    offset := WriteQuestion(buf, offset, z.domain, 6);
    offset := WriteSoa(buf, offset, z);
    offset := WriteServer(buf, offset, z.domain, z.serverTtl, z.server);
    SoaIsLegal(z);
    ServerIsLegal(z.domain, z.serverTtl, z.server);
    AnswerAndAuthority(buf[..offset], id, Asked(z.domain, 6), SoaRecord(z), NsRecord(z));
  }

  // ---------------------------------------------------------------------------------------
  // The question of a query
  // ---------------------------------------------------------------------------------------

  /** The 100 octets the name is parsed in: the query behind its header up to the first zero. */
  function Chunk(query: Text): (chunk: Text)
    requires |query| >= 12 && |CString(query[12..])| <= 100
    ensures |chunk| == 100
  {
    var t := CString(query[12..]);
    t + Zeros(100 - |t|)
  }

  ghost predicate Parsable(query: Text) {
    && |query| == 1024
    && |CString(query[12..])| <= 100
    && EndsWithin(Chunk(query), 0, 100)
    && |Spelled(Chunk(query), 0, 100)| < 128
  }

  /** The name a query asks about, as the program has it, with its final dot. */
  ghost function AskedName(query: Text): Text
    requires Parsable(query)
  {
    Spelled(Chunk(query), 0, 100) + [DOT]
  }

  /** The type and the class the program finds: what lies as far behind the header as the name
      with its dot and one octet more. */
  ghost function AskedType(query: Text): U16
    requires Parsable(query)
  {
    var p := 12 + |AskedName(query)| + 1;
    Pair(query[p], query[p + 1])
  }

  ghost function AskedClass(query: Text): U16
    requires Parsable(query)
  {
    var p := 12 + |AskedName(query)| + 1;
    Pair(query[p + 2], query[p + 3])
  }

  lemma CStringReaches(s: Text, j: nat)
    requires j <= |CString(s)| && (j == |s| || s[j] == 0)
    ensures j == |CString(s)|
  {
    assert s[..|CString(s)|] == CString(s);
    NotAmong(s, |CString(s)|, 0);
  }

  lemma ZeroedBehind(tmp: Text, t: Text, j: nat)
    requires j == |t| <= |tmp| && tmp[..j] == t[..j] && forall k :: j <= k < |tmp| ==> tmp[k] == 0
    ensures tmp == t + Zeros(|tmp| - j)
  {
  }

  /** memcpy of the query up to its first zero into a zeroed array. */
  method CopyName(query: array<Octet>, len: nat) returns (tmp: array<Octet>)
    requires query.Length == 1024 && len <= 1024 && |CString(query[12..])| <= 100
    requires forall k :: len <= k < 1024 ==> query[k] == 0
    ensures fresh(tmp) && tmp[..] == Chunk(query[..])
  {
    ghost var s := query[12..];
    ghost var t := CString(s);
    assert query[..][12..] == s;
    tmp := new Octet[100](_ => 0);
    var i, j := 12, 0;
    while i < len && query[i] != 0
      invariant i == 12 + j && j <= |t| && i <= 1024
      invariant tmp[..j] == t[..j] && forall k :: j <= k < 100 ==> tmp[k] == 0
    {
      assert s[j] == query[i];
      tmp[j] := query[i];
      i, j := i + 1, j + 1;
    }
    CStringReaches(s, j);
    ZeroedBehind(tmp[..], t, j);
    assert query[..][12..] == s;
  }

  /** The name spelled out into a zeroed array, and a dot behind it. */
  method SpellName(chunk: Text) returns (name: Text)
    requires EndsWithin(chunk, 0, 100) && |Spelled(chunk, 0, 100)| < 128
    ensures name == Spelled(chunk, 0, 100) + [DOT]
  {
    var aname := new Octet[128](_ => 0);
    var qnameLen := ParseName(chunk, 0, aname, 0, 100);
    assert aname[..0] == [];
    aname[qnameLen] := DOT;
    name := aname[..qnameLen + 1];
    assert name == aname[..qnameLen] + [DOT];
  }

  /** Type and class from p on; a query that ends before them reads as zeros. */
  method TakeTypes(query: array<Octet>, len: nat, p: nat) returns (qtype: U16, qclass: U16)
    requires query.Length == 1024 && len <= 1024 && p + 4 <= 1024 && len <= p + 100
    requires forall k :: len <= k < 1024 ==> query[k] == 0
    ensures qtype == Pair(query[p], query[p + 1]) && qclass == Pair(query[p + 2], query[p + 3])
  {
    var q := new Octet[100](_ => 0);
    var i, j := p, 0;
    while i < len
      invariant i == p + j && 0 <= j <= 100 && (i <= len || j == 0)
      invariant forall k :: 0 <= k < j ==> q[k] == query[p + k]
      invariant forall k :: j <= k < 100 ==> q[k] == 0
    {
      q[j] := query[i];
      i, j := i + 1, j + 1;
    }
    assert q[0] == query[p] && q[1] == query[p + 1] && q[2] == query[p + 2] && q[3] == query[p + 3];
    qtype, qclass := Pair(q[0], q[1]), Pair(q[2], q[3]);
  }

  /** The question as the program reads it: the name, and type and class behind it. */
  method TakeQuestion(query: array<Octet>, len: nat) returns (name: Text, qtype: U16, qclass: U16)
    requires query.Length == 1024 && len <= 1024 && Parsable(query[..])
    requires forall k :: len <= k < 1024 ==> query[k] == 0
    requires len <= 113 + |AskedName(query[..])|
    ensures name == AskedName(query[..])
    ensures qtype == AskedType(query[..]) && qclass == AskedClass(query[..])
  {
    assert query[..][12..] == query[12..];
    var tmp := CopyName(query, len);
    name := SpellName(tmp[..]);
    qtype, qclass := TakeTypes(query, len, 12 + |name| + 1);
  }

  // ---------------------------------------------------------------------------------------
  // Query and response
  // ---------------------------------------------------------------------------------------

  /** A query as a resolver sends it: header, one question, then anything. */
  ghost predicate Asks(query: Text, name: Text, qtype: U16, qclass: U16) {
    |query| == 1024 && PutQuestion(Question(Labels(name), qtype, qclass)) <= query[12..]
  }

  lemma LengthsShow(labels: Name)
    requires forall l :: l in labels ==> 1 <= |l| <= 127
    ensures forall l :: l in labels ==> |l| % 256 != 0
  {
    forall l | l in labels
      ensures |l| % 256 != 0
    {
      assert 1 <= |l| <= 127;
    }
  }

  lemma WellFormedHasNoZero(name: Text)
    requires WellFormed(name)
    ensures |Wire(Labels(name))| == |name| && 0 !in Wire(Labels(name))
  {
    LengthLaw(name);
    LengthsShow(Labels(name));
    ZeroLaw(name);
    assert Packet(name)[..|Packet(name)| - 1] == Wire(Labels(name));
  }

  lemma ZeroEnds(query: Text, w: Text, rest: Text)
    requires |query| >= 12 && query[12..] == w + ([0] + rest) && 0 !in w && |w| < 100
    ensures |CString(query[12..])| <= 100 && Chunk(query) == w + [0] + Zeros(99 - |w|)
  {
    CStringStopsAt(w, [0] + rest);
    assert Zeros(100 - |w|) == [0] + Zeros(99 - |w|);
  }

  lemma BehindTheName(query: Text, w: Text, a: Text, b: Text)
    requires |query| >= 12 && w + [0] + a + b <= query[12..]
    ensures var p := 12 + |w| + 1; p + |a| + |b| <= |query| && query[p..p + |a| + |b|] == a + b
    ensures query[12..] == w + ([0] + query[12 + |w| + 1..])
  {
    var q := w + [0] + a + b;
    assert query[12..][..|q|] == q;
    assert q[|w| + 1..] == a + b;
    assert query[12..][..|q|][|w| + 1..] == query[12 + |w| + 1..12 + |q|];
  }

  lemma BufferFront(labels: Name, post: Text)
    ensures Buffer([], labels, post) == Wire(labels) + [0] + post
  {
    assert [] + Wire(labels) == Wire(labels);
  }

  lemma ChunkHoldsName(query: Text, name: Text, rest: Text)
    requires |query| == 1024 && query[12..] == Wire(Labels(name)) + ([0] + rest) && WellFormed(name) && |name| < 100
    ensures |CString(query[12..])| <= 100 && Chunk(query) == Buffer([], Labels(name), Zeros(99 - |name|))
  {
    WellFormedHasNoZero(name);
    ZeroEnds(query, Wire(Labels(name)), rest);
    BufferFront(Labels(name), Zeros(99 - |name|));
  }

  lemma TypesBehindName(query: Text, name: Text, qtype: U16, qclass: U16)
    requires Asks(query, name, qtype, qclass) && |Wire(Labels(name))| == |name|
    ensures var p := 12 + |name| + 1;
            && p + 4 <= 1024 && query[p..p + 4] == Put16(qtype) + Put16(qclass)
            && query[12..] == Wire(Labels(name)) + ([0] + query[p..])
  {
    var w, a, b := Wire(Labels(name)), Put16(qtype), Put16(qclass);
    assert PutQuestion(Question(Labels(name), qtype, qclass)) == w + [0] + a + b;
    BehindTheName(query, w, a, b);
  }

  lemma NameIsUnderstood(query: Text, name: Text, rest: Text)
    requires |query| == 1024 && query[12..] == Wire(Labels(name)) + ([0] + rest) && WellFormed(name) && |name| < 100
    ensures Parsable(query) && AskedName(query) == name
  {
    var post := Zeros(99 - |name|);
    ChunkHoldsName(query, name, rest);
    AllLegible(Labels(name));
    BufferHolds([], Labels(name), post);
    WireIsRead(Chunk(query), 0, Labels(name), 100);
    RoundTrip(name, post, 100);
    assert |Spelled(Chunk(query), 0, 100) + [DOT]| == |name|;
  }

  /** From a well-formed query the program takes the question that was asked. */
  lemma QueryIsUnderstood(query: Text, name: Text, qtype: U16, qclass: U16)
    requires Asks(query, name, qtype, qclass) && WellFormed(name) && |name| < 100
    ensures Parsable(query) && AskedName(query) == name && AskedType(query) == qtype && AskedClass(query) == qclass
  {
    WellFormedHasNoZero(name);
    TypesBehindName(query, name, qtype, qclass);
    NameIsUnderstood(query, name, query[12 + |name| + 1..]);
    TypesAreUnderstood(query, name, qtype, qclass);
  }

  lemma TypesAreUnderstood(query: Text, name: Text, qtype: U16, qclass: U16)
    requires Parsable(query) && AskedName(query) == name
    requires var p := 12 + |name| + 1; query[p..p + 4] == Put16(qtype) + Put16(qclass)
    ensures AskedType(query) == qtype && AskedClass(query) == qclass
  {
    PairsOf(query, 12 + |name| + 1, qtype, qclass);
  }

  lemma PairsOf(query: Text, p: nat, a: U16, b: U16)
    requires p + 4 <= |query| && query[p..p + 4] == Put16(a) + Put16(b)
    ensures Pair(query[p], query[p + 1]) == a && Pair(query[p + 2], query[p + 3]) == b
  {
    var s := query[p..p + 4];
    assert s[0] == query[p] && s[1] == query[p + 1] && s[2] == query[p + 2] && s[3] == query[p + 3];
  }

  lemma NamesWithTheseLabels(a: Text, b: Text)
    requires WellFormed(a) && WellFormed(b) && Labels(a) == Labels(b)
    ensures a == b
  {
    LabelsAndRest(a);
    LabelsAndRest(b);
  }

  lemma SameQuestion(octets: Text, p: Question, q: Question)
    requires LegalName(p.name) && LegalName(q.name) && PutQuestion(p) <= octets && PutQuestion(q) <= octets
    ensures p == q
  {
    assert octets == PutQuestion(p) + octets[|PutQuestion(p)|..];
    assert octets == PutQuestion(q) + octets[|PutQuestion(q)|..];
    GetQuestion(p, octets[|PutQuestion(p)|..]);
    GetQuestion(q, octets[|PutQuestion(q)|..]);
  }

  lemma QuestionIsAtTwelve(octets: Text, m: Message, q: Question)
    requires Legal(m) && octets == PutMessage(m) && m.questions == [q]
    ensures |octets| >= 12 && PutQuestion(q) <= octets[12..]
  {
    OneQuestion(q);
    assert octets[12..] == PutQuestion(q)
      + (PutRecords(m.answers) + (PutRecords(m.authority) + PutRecords(m.additional)));
  }

  lemma PrefixSlice(q: Text, s: Text, at: nat)
    requires at + |q| <= |s|
    ensures q <= s[at..] <==> s[at..at + |q|] == q
  {
    assert s[at..][..|q|] == s[at..at + |q|];
  }

  /** The question of the query, with its name of so many octets, stands in the response as it
      came. */
  ghost predicate Echoes(query: Text, response: Text, name: Text) {
    var n := |name| + 5;
    12 + n <= |query| && 12 + n <= |response| && response[12..12 + n] == query[12..12 + n]
  }

  lemma EchoedOrNot(query: Text, response: Text, name: Text, asked: Question, answered: Question)
    requires |query| == 1024 && |response| >= 12 && LegalName(asked.name) && LegalName(answered.name)
    requires PutQuestion(asked) <= query[12..] && PutQuestion(answered) <= response[12..]
    requires |PutQuestion(asked)| == |name| + 5
    ensures Echoes(query, response, name) <==> asked == answered
  {
    PrefixSlice(PutQuestion(asked), query, 12);
    if 12 + |PutQuestion(asked)| <= |response| {
      PrefixSlice(PutQuestion(asked), response, 12);
      if PutQuestion(asked) <= response[12..] {
        SameQuestion(response[12..], asked, answered);
      }
    }
  }

  lemma SameAsked(a: Text, b: Text, s: U16, t: U16, qclass: U16)
    requires WellFormed(a) && WellFormed(b)
    ensures Question(Labels(a), s, qclass) == Asked(b, t) <==> a == b && s == t && qclass == 1
  {
    if Labels(a) == Labels(b) {
      NamesWithTheseLabels(a, b);
    }
  }

  lemma AskedLength(name: Text, qtype: U16, qclass: U16)
    requires Usable(name)
    ensures |PutQuestion(Question(Labels(name), qtype, qclass))| == |name| + 5 && LegalName(Labels(name))
  {
    UsablePacket(name);
  }

  /** A response with one question repeats the query's when that is the same question. */
  lemma SameQuestionIsEchoed(query: Text, name: Text, qtype: U16, qclass: U16, m: Message, host: Text, response: Text)
    requires Asks(query, name, qtype, qclass) && Usable(name) && Usable(host)
    requires m.questions == [Asked(host, qtype)] && IsMessage(response, m)
    ensures Echoes(query, response, name) <==> name == host && qclass == 1
  {
    QuestionIsAtTwelve(response, m, Asked(host, qtype));
    AskedLength(host, qtype, 1);
    AskedLength(name, qtype, qclass);
    EchoedOrNot(query, response, name, Question(Labels(name), qtype, qclass), Asked(host, qtype));
    SameAsked(name, host, qtype, qtype, qclass);
  }

  // ---------------------------------------------------------------------------------------
  // From query to response
  // ---------------------------------------------------------------------------------------

  datatype Host = Host(ttl: U32, address: Text)

  /** The name a response is about: for type A the first label of what was asked, put in front of
      the zone, but the zone itself for an unknown host with a name no longer than the zone's. */
  function AnsweredName(name: Text, qtype: U16, z: Zone, hosts: map<Text, Host>): Text {
    if qtype == 1 && (FirstToken(name) in hosts || |name| > |z.domain|) then SubDomain(FirstToken(name), z)
    else z.domain
  }

  /** The three types modelled; the names built fit the arrays, and the zone's server is one of
      its hosts. */
  ghost predicate Servable(name: Text, qtype: U16, z: Zone, hosts: map<Text, Host>) {
    && qtype in {1, 2, 6} && UsableZone(z) && Usable(AnsweredName(name, qtype, z, hosts))
    && (forall l :: l in hosts ==> |hosts[l].address| == 4)
    && (qtype == 2 ==> FirstToken(z.server) in hosts && Usable(SubDomain(FirstToken(z.server), z)))
  }

  function QueryId(query: Text): U16
    requires |query| >= 2
  {
    Pair(query[0], query[1])
  }

  /** What a query of that type about that name is answered with. */
  ghost function ResponseTo(id: U16, name: Text, qtype: U16, z: Zone, hosts: map<Text, Host>, nsTtl: U32): Message
    requires Servable(name, qtype, z, hosts)
  {
    var sub := FirstToken(name);
    if qtype == 1 then
      if sub in hosts then AddressMessage(id, sub, z, hosts[sub].ttl, hosts[sub].address)
      else NegativeMessage(id, AnsweredName(name, 1, z, hosts), z)
    else if qtype == 2 then
      var server := hosts[FirstToken(z.server)];
      ServerMessage(id, z, nsTtl, server.ttl, server.address)
    else AuthorityMessage(id, z)
  }

  /** The answer to a type A question. */
  method HostAnswer(buf: array<Octet>, id: U16, aname: Text, z: Zone, hosts: map<Text, Host>) returns (offset: nat)
    requires buf.Length == 1024 && UsableZone(z) && Usable(AnsweredName(aname, 1, z, hosts))
    requires forall l :: l in hosts ==> |hosts[l].address| == 4
    modifies buf
    ensures offset <= 1024
    ensures var sub := FirstToken(aname);
            IsMessage(buf[..offset], if sub in hosts then AddressMessage(id, sub, z, hosts[sub].ttl, hosts[sub].address)
                                     else NegativeMessage(id, AnsweredName(aname, 1, z, hosts), z))
  {
    var sub := FirstToken(aname);
    if sub in hosts {
      offset := AddressAnswer(buf, id, aname, z, hosts[sub].ttl, hosts[sub].address);
    } else {
      offset := NegativeAnswer(buf, id, aname, |aname|, z);
    }
  }

  method Respond(id: U16, aname: Text, qtype: U16, z: Zone, hosts: map<Text, Host>, nsTtl: U32) returns (sent: Text)
    requires Servable(aname, qtype, z, hosts)
    ensures IsMessage(sent, ResponseTo(id, aname, qtype, z, hosts, nsTtl))
  {
    var sendBuffer := new Octet[1024](_ => 0);
    var offset: nat;
    if qtype == 1 {
      offset := HostAnswer(sendBuffer, id, aname, z, hosts);
    } else if qtype == 2 {
      var server := hosts[FirstToken(z.server)];
      offset := ServerAnswer(sendBuffer, id, z, nsTtl, server.ttl, server.address);
    } else {
      offset := AuthorityAnswer(sendBuffer, id, z);
    }
    sent := sendBuffer[..offset];
  }

  /** One turn of the server: the octets of the query in, those of the response out. */
  method Serve(query: array<Octet>, len: nat, z: Zone, hosts: map<Text, Host>, nsTtl: U32) returns (sent: Text)
    requires query.Length == 1024 && len <= 1024 && Parsable(query[..])
    requires forall k :: len <= k < 1024 ==> query[k] == 0
    requires len <= 113 + |AskedName(query[..])|
    requires Servable(AskedName(query[..]), AskedType(query[..]), z, hosts)
    ensures IsMessage(sent, ResponseTo(QueryId(query[..]), AskedName(query[..]), AskedType(query[..]), z, hosts, nsTtl))
  {
    var aname, qtype, _ := TakeQuestion(query, len);
    sent := Respond(Pair(query[0], query[1]), aname, qtype, z, hosts, nsTtl);
  }

  /** The name is one label in front of the domain. */
  predicate OneLabelInFront(name: Text, domain: Text) {
    FirstDot(name) < |name| && name[FirstDot(name) + 1..] == domain
  }

  lemma FirstTokenInFront(name: Text, z: Zone)
    requires WellFormed(name)
    ensures name == SubDomain(FirstToken(name), z) <==> OneLabelInFront(name, z.domain)
    ensures OneLabelInFront(name, z.domain) ==> |name| > |z.domain|
  {
    var d := FirstDot(name);
    FirstTokenIsLabel(name);
    AtDot(name, d);
    assert FirstToken(name) == name[..d];
    assert SubDomain(FirstToken(name), z)[d + 1..] == z.domain;
  }

  /** The response to a well-formed query repeats its question, octet for octet, exactly when it
      was of class IN and about the zone's own name - for type A, if that is not known as a host -
      or, for type A, about a name one label in front of the zone. */
  lemma QuestionIsEchoed(query: Text, name: Text, qtype: U16, qclass: U16, z: Zone, hosts: map<Text, Host>,
                         nsTtl: U32, response: Text)
    requires Asks(query, name, qtype, qclass) && Usable(name) && Servable(name, qtype, z, hosts)
    requires IsMessage(response, ResponseTo(QueryId(query), name, qtype, z, hosts, nsTtl))
    ensures Echoes(query, response, name) <==>
      qclass == 1
      && if qtype != 1 then name == z.domain
         else OneLabelInFront(name, z.domain) || (name == z.domain && FirstToken(name) !in hosts)
  {
    QuestionAnswered(QueryId(query), name, qtype, z, hosts, nsTtl);
    SameQuestionIsEchoed(query, name, qtype, qclass, ResponseTo(QueryId(query), name, qtype, z, hosts, nsTtl),
                         AnsweredName(name, qtype, z, hosts), response);
    AnsweredAsAsked(name, qtype, z, hosts);
  }

  lemma QuestionAnswered(id: U16, name: Text, qtype: U16, z: Zone, hosts: map<Text, Host>, nsTtl: U32)
    requires Servable(name, qtype, z, hosts)
    ensures ResponseTo(id, name, qtype, z, hosts, nsTtl).questions == [Asked(AnsweredName(name, qtype, z, hosts), qtype)]
  {
  }

  lemma AnsweredAsAsked(name: Text, qtype: U16, z: Zone, hosts: map<Text, Host>)
    requires WellFormed(name)
    ensures AnsweredName(name, qtype, z, hosts) == name <==>
      if qtype != 1 then name == z.domain
      else OneLabelInFront(name, z.domain) || (name == z.domain && FirstToken(name) !in hosts)
  {
    FirstTokenInFront(name, z);
    assert |SubDomain(FirstToken(name), z)| > |z.domain|;
  }

  /** Two labels of one letter, a and b, in front of a domain. */
  function Deep(domain: Text): Text {
    [97] + [DOT] + ([98, DOT] + domain)
  }

  lemma FirstLabelOfDeep(domain: Text)
    ensures FirstToken(Deep(domain)) == [97] && !OneLabelInFront(Deep(domain), domain) && |Deep(domain)| > |domain|
  {
    FirstDotIs([97], [98, DOT] + domain);
    assert Deep(domain)[..1] == [97] && Deep(domain)[2..] == [98, DOT] + domain;
    assert |Deep(domain)[2..]| != |domain|;
  }

  lemma HighAndLow(n: U16, high: Octet, low: Octet)
    requires n == Pair(high, low)
    ensures Put16(n) == [high, low]
  {
  }

  /** The first twelve octets: the query's id, response and authoritative answer bits with recursion
      desired, one question, and the counts of the records. */
  lemma HeaderOfResponse(query: Text, name: Text, qtype: U16, z: Zone, hosts: map<Text, Host>, nsTtl: U32, response: Text)
    requires |query| >= 2 && Servable(name, qtype, z, hosts)
    requires IsMessage(response, ResponseTo(QueryId(query), name, qtype, z, hosts, nsTtl))
    ensures var answers := if qtype == 1 && FirstToken(name) !in hosts then 0 else 1;
            var authority := if qtype == 2 then 0 else 1;
            var additional := if qtype == 2 then 1 else 0;
            |response| >= 12 && response[..12] == query[..2] + [0x85, 0x00, 0, 1, 0, answers, 0, authority, 0, additional]
  {
    CountsOfResponse(QueryId(query), name, qtype, z, hosts, nsTtl);
    HeaderOfMessage(query, ResponseTo(QueryId(query), name, qtype, z, hosts, nsTtl), response);
  }

  lemma TwoAndTen(query: Text, rest: Text)
    requires |query| >= 2
    ensures query[..2] + rest == [query[0], query[1]] + rest
  {
    assert query[..2] == [query[0], query[1]];
  }

  lemma HeaderOfMessage(query: Text, m: Message, response: Text)
    requires |query| >= 2 && Legal(m) && response == PutMessage(m) && m.id == QueryId(query)
    requires m.flags == 0x8500 && |m.questions| == 1
    requires |m.answers| <= 1 && |m.authority| <= 1 && |m.additional| <= 1
    ensures |response| >= 12
    ensures response[..12] == query[..2] + [0x85, 0x00, 0, 1, 0, |m.answers|, 0, |m.authority|, 0, |m.additional|]
  {
    HighAndLow(m.id, query[0], query[1]);
    FrontOfMessage(m, response);
    HeaderOctets(m, query[0], query[1]);
    TwoAndTen(query, [0x85, 0x00, 0, 1, 0, |m.answers|, 0, |m.authority|, 0, |m.additional|]);
  }

  lemma FrontOfMessage(m: Message, octets: Text)
    requires Legal(m) && octets == PutMessage(m)
    ensures |octets| >= 12 && octets[..12] == PutWords(Header(m))
  {
  }

  lemma CountsOfResponse(id: U16, name: Text, qtype: U16, z: Zone, hosts: map<Text, Host>, nsTtl: U32)
    requires Servable(name, qtype, z, hosts)
    ensures var m := ResponseTo(id, name, qtype, z, hosts, nsTtl);
            && m.id == id && m.flags == 0x8500 && |m.questions| == 1
            && |m.answers| == (if qtype == 1 && FirstToken(name) !in hosts then 0 else 1)
            && |m.authority| == (if qtype == 2 then 0 else 1) && |m.additional| == (if qtype == 2 then 1 else 0)
  {
  }

  lemma HeaderOctets(m: Message, high: Octet, low: Octet)
    requires Legal(m) && Put16(m.id) == [high, low] && m.flags == 0x8500 && |m.questions| == 1
    requires |m.answers| <= 1 && |m.authority| <= 1 && |m.additional| <= 1
    ensures PutWords(Header(m))
         == [high, low] + [0x85, 0x00, 0, 1, 0, |m.answers|, 0, |m.authority|, 0, |m.additional|]
  {
    var h := Header(m);
    assert PutWords(h) == Put16(h[0]) + PutWords(h[1..]);
    assert PutWords(h[1..]) == Put16(h[1]) + PutWords(h[2..]) by { assert h[1..][1..] == h[2..]; }
    assert PutWords(h[2..]) == Put16(h[2]) + PutWords(h[3..]) by { assert h[2..][1..] == h[3..]; }
    assert PutWords(h[3..]) == Put16(h[3]) + PutWords(h[4..]) by { assert h[3..][1..] == h[4..]; }
    assert PutWords(h[4..]) == Put16(h[4]) + PutWords(h[5..]) by { assert h[4..][1..] == h[5..]; }
    assert PutWords(h[5..]) == Put16(h[5]) + PutWords([]) by { assert h[5..][1..] == []; }
  }

  /** What a resolver that asks for the address of a host of the zone is told: the name it asked for,
      type A, class IN, the host's TTL and address, and who is the zone's name server. */
  lemma HostIsAnswered(query: Text, name: Text, z: Zone, hosts: map<Text, Host>, nsTtl: U32, response: Text)
    requires Asks(query, name, 1, 1) && Usable(name) && OneLabelInFront(name, z.domain) && name[..FirstDot(name)] in hosts
    requires Servable(name, 1, z, hosts) && IsMessage(response, ResponseTo(QueryId(query), name, 1, z, hosts, nsTtl))
    ensures var host := hosts[name[..FirstDot(name)]];
            ReadMessage(response) == Some(Got(Message(QueryId(query), 0x8500, [Question(Labels(name), 1, 1)],
              [Record(Labels(name), 1, host.ttl, Address(host.address))],
              [Record(Labels(z.domain), 1, z.serverTtl, Server(Labels(z.server)))], []), []))
  {
    FirstTokenInFront(name, z);
    FirstTokenIsLabel(name);
  }

  /** For a host the zone does not have: no answer, and the zone's SOA record. */
  lemma UnknownHostIsAnswered(query: Text, name: Text, z: Zone, hosts: map<Text, Host>, nsTtl: U32, response: Text)
    requires Asks(query, name, 1, 1) && Usable(name) && OneLabelInFront(name, z.domain) && name[..FirstDot(name)] !in hosts
    requires Servable(name, 1, z, hosts) && IsMessage(response, ResponseTo(QueryId(query), name, 1, z, hosts, nsTtl))
    ensures ReadMessage(response) == Some(Got(Message(QueryId(query), 0x8500, [Question(Labels(name), 1, 1)], [],
              [Record(Labels(z.domain), 1, z.soaTtl, Authority(Soa(Labels(z.mname), Labels(z.rname), z.timers)))], []), []))
  {
    FirstTokenInFront(name, z);
    FirstTokenIsLabel(name);
  }

  /** For the zone's name server, when its name is one label in front of the zone: that name, and its
      address along with it. */
  lemma ServerIsAnswered(query: Text, z: Zone, hosts: map<Text, Host>, nsTtl: U32, response: Text)
    requires Asks(query, z.domain, 2, 1) && OneLabelInFront(z.server, z.domain) && Servable(z.domain, 2, z, hosts)
    requires IsMessage(response, ResponseTo(QueryId(query), z.domain, 2, z, hosts, nsTtl))
    ensures z.server[..FirstDot(z.server)] in hosts
    ensures var host := hosts[z.server[..FirstDot(z.server)]];
            ReadMessage(response) == Some(Got(Message(QueryId(query), 0x8500, [Question(Labels(z.domain), 2, 1)],
              [Record(Labels(z.domain), 1, nsTtl, Server(Labels(z.server)))], [],
              [Record(Labels(z.server), 1, host.ttl, Address(host.address))]), []))
  {
    FirstTokenInFront(z.server, z);
    FirstTokenIsLabel(z.server);
  }

  /** For the zone's SOA record: that record, and the zone's name server. */
  lemma AuthorityIsAnswered(query: Text, z: Zone, hosts: map<Text, Host>, nsTtl: U32, response: Text)
    requires Asks(query, z.domain, 6, 1) && Servable(z.domain, 6, z, hosts)
    requires IsMessage(response, ResponseTo(QueryId(query), z.domain, 6, z, hosts, nsTtl))
    ensures ReadMessage(response) == Some(Got(Message(QueryId(query), 0x8500, [Question(Labels(z.domain), 6, 1)],
              [Record(Labels(z.domain), 1, z.soaTtl, Authority(Soa(Labels(z.mname), Labels(z.rname), z.timers)))],
              [Record(Labels(z.domain), 1, z.serverTtl, Server(Labels(z.server)))], []), []))
  {
  }

  /** A host two labels in front of the zone is answered about another. */
  lemma TwoLabelsInFront(query: Text, z: Zone, hosts: map<Text, Host>, nsTtl: U32, response: Text)
    requires Asks(query, Deep(z.domain), 1, 1) && Usable(Deep(z.domain)) && Servable(Deep(z.domain), 1, z, hosts)
    requires IsMessage(response, ResponseTo(QueryId(query), Deep(z.domain), 1, z, hosts, nsTtl))
    ensures !Echoes(query, response, Deep(z.domain))
    ensures ResponseTo(QueryId(query), Deep(z.domain), 1, z, hosts, nsTtl).questions == [Asked([97] + [DOT] + z.domain, 1)]
  {
    FirstLabelOfDeep(z.domain);
    QuestionAnswered(QueryId(query), Deep(z.domain), 1, z, hosts, nsTtl);
    QuestionIsEchoed(query, Deep(z.domain), 1, 1, z, hosts, nsTtl, response);
  }

  // ---------------------------------------------------------------------------------------
  // Queries with pointers
  // ---------------------------------------------------------------------------------------

  lemma ChunkBegins(query: Text, t: Text)
    requires |query| == 1024 && |t| < 100 && 0 !in t && query[12..12 + |t| + 1] == t + [0]
    ensures CString(query[12..]) == t && Chunk(query) == t + Zeros(100 - |t|)
  {
    var q, rest := t + [0], query[12 + |t| + 1..];
    assert query[12..] == query[12..12 + |q|] + rest;
    Assoc(t, [0], rest);
    CStringStopsAt(t, [0] + rest);
  }

  /** Two queries on which the program recurses without end: a name that is a pointer to itself,
      and one with a label in front of a pointer back to it. */
  lemma EndlessQueries(query: Text, n: nat)
    requires |query| == 1024 && (query[12..14] == [192, 0] || query[12..16] == [1, 97, 192, 0])
    ensures |CString(query[12..])| <= 100 && !EndsWithin(Chunk(query), 0, n)
  {
    if query[12..14] == [192, 0] {
      ChunkBegins(query, [192]);
      assert Chunk(query)[..2] == [192, 0];
    } else {
      ChunkBegins(query, [1, 97, 192]);
      assert Chunk(query)[2..4] == [192, 0];
    }
    LoopsNeverEnd(Chunk(query), n);
  }

  /** A query whose pointer leads forward is understood. */
  lemma ForwardPointerIsFollowed(query: Text)
    requires |query| == 1024 && query[12..19] == [1, 97, 192, 4, 1, 98, 0]
    ensures Parsable(query) && AskedName(query) == [97, 46, 98, 46]
  {
    ChunkBegins(query, [1, 97, 192, 4, 1, 98]);
    var chunk := Chunk(query);
    assert chunk[0] == 1 && chunk[2] == 192 && chunk[3] == 4 && chunk[4] == 1 && chunk[6] == 0;
    assert chunk[1..2] == [97] && chunk[5..6] == [98];
    assert EndsWithin(chunk, 6, 99) && Spelled(chunk, 6, 99) == [];
    assert EndsWithin(chunk, 4, 99) && Spelled(chunk, 4, 99) == [98];
    assert EndsWithin(chunk, 2, 100) && Spelled(chunk, 2, 100) == [98];
    assert EndsWithin(chunk, 0, 100) && Spelled(chunk, 0, 100) == [97] + [DOT] + [98];
  }

  // Section 4.1.4 of RFC 1035 counts the offset of a pointer from the start of the message, and gives
  // it 14 bits; the program counts from octet 12, and takes the second octet as a signed char.

  /** The labels a reader of that section finds at p, following so many pointers. */
  function StandardLabels(message: Text, p: nat, jumps: nat): Option<Name>
    decreases jumps, |message| - p
  {
    if p >= |message| then None
    else if message[p] == 0 then Some([])
    else if IsPointer(message[p]) then
      if jumps == 0 || p + 1 >= |message| then None
      else StandardLabels(message, Pair(message[p] - 192, message[p + 1]), jumps - 1)
    else if message[p] > 63 || p + 1 + message[p] > |message| then None
    else
      match StandardLabels(message, p + 1 + message[p], jumps)
      case None => None
      case Some(labels) => Some([message[p + 1..p + 1 + message[p]]] + labels)
  }

  lemma {:induction false} StandardReads(message: Text, p: nat, labels: Name, jumps: nat)
    requires HoldsName(message, p, labels) && LegalName(labels)
    ensures StandardLabels(message, p, jumps) == Some(labels)
    decreases |labels|
  {
    if labels != [] {
      LegalLabels(labels);
      StandardReads(message, p + 1 + |labels[0]|, labels[1..], jumps);
    }
  }

  /** On a well-formed query without pointers the two readings agree. */
  lemma ReadingsAgreeWithoutPointers(query: Text, name: Text, qtype: U16, qclass: U16, jumps: nat)
    requires Asks(query, name, qtype, qclass) && Usable(name)
    ensures Parsable(query) && StandardLabels(query, 12, jumps) == Some(Labels(AskedName(query)))
  {
    QueryIsUnderstood(query, name, qtype, qclass);
    WellFormedHasNoZero(name);
    TypesBehindName(query, name, qtype, qclass);
    var rest := query[12 + |name| + 1..];
    assert query == query[..12] + query[12..];
    Assoc(query[..12], Wire(Labels(name)), [0] + rest);
    Assoc(query[..12] + Wire(Labels(name)), [0], rest);
    BufferHolds(query[..12], Labels(name), rest);
    StandardReads(query, 12, Labels(name), jumps);
  }

  /** On one with a pointer they need not: this query asks, by the standard, for a alone (octet 4 of
      the message, in its header, is zero); the program takes a.b. */
  lemma ReadingsDifferAtPointer(query: Text)
    requires |query| == 1024 && query[4] == 0 && query[12..19] == [1, 97, 192, 4, 1, 98, 0]
    ensures Parsable(query) && AskedName(query) == [97, 46, 98, 46]
    ensures StandardLabels(query, 12, 1) == Some([[97]])
  {
    ForwardPointerIsFollowed(query);
    var q := query[12..19];
    assert query[12] == q[0] && query[13] == q[1] && query[14] == q[2] && query[15] == q[3];
    assert StandardLabels(query, 4, 0) == Some([]);
    assert StandardLabels(query, 14, 1) == Some([]);
    assert query[13..14] == [97] && [query[13..14]] + [] == [[97]];
    assert query[12] == 1 && query[12 + 1..12 + 1 + 1] == query[13..14];
  }
}
