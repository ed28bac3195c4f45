/**
DNS messages as sections 4.1.1 to 4.1.3 and 3.3.13 of RFC 1035 lay them out: how a message is
written, and a reader, written from the standard alone, that takes it apart again.
*/
module DnsMessages {
  import opened Octets
  import opened Sequences
  import opened DnsNames

  type U16 = n: int | 0 <= n < 0x1_0000

  type U32 = n: int | 0 <= n < 0x1_0000_0000

  datatype Question = Question(name: Name, qtype: U16, qclass: U16)

  /** The timers of a zone: serial, refresh, retry, expire and minimum, in this order. */
  datatype Soa = Soa(mname: Name, rname: Name, timers: seq<U32>)

  datatype Data = Address(octets: Text) | Server(name: Name) | Authority(soa: Soa)

  datatype Record = Record(name: Name, class_: U16, ttl: U32, data: Data)

  datatype Message = Message(id: U16, flags: U16, questions: seq<Question>,
                             answers: seq<Record>, authority: seq<Record>, additional: seq<Record>)

  // ---------------------------------------------------------------------------------------
  // Writing
  // ---------------------------------------------------------------------------------------

  function Put16(n: U16): (s: Text)
    ensures |s| == 2
  {
    [n / 256, n % 256]
  }

  function Put32(n: U32): (s: Text)
    ensures |s| == 4
  {
    Put16(n / 0x1_0000) + Put16(n % 0x1_0000)
  }

  function PutName(labels: Name): Text {
    Wire(labels) + [0]
  }

  function PutQuestion(q: Question): Text {
    PutName(q.name) + Put16(q.qtype) + Put16(q.qclass)
  }

  function TypeOf(d: Data): U16 {
    match d
    case Address(_) => 1
    case Server(_) => 2
    case Authority(_) => 6
  }

  function PutWords(ns: seq<U16>): (s: Text)
    ensures |s| == 2 * |ns|
  {
    if ns == [] then [] else Put16(ns[0]) + PutWords(ns[1..])
  }

  function PutTimers(ns: seq<U32>): (s: Text)
    ensures |s| == 4 * |ns|
  {
    if ns == [] then [] else Put32(ns[0]) + PutTimers(ns[1..])
  }

  function PutSoa(a: Soa): Text {
    PutName(a.mname) + (PutName(a.rname) + PutTimers(a.timers))
  }

  function PutData(d: Data): Text {
    match d
    case Address(octets) => octets
    case Server(name) => PutName(name)
    case Authority(soa) => PutSoa(soa)
  }

  function PutRecord(r: Record): Text
    requires |PutData(r.data)| < 0x1_0000
  {
    var data := PutData(r.data);
    PutName(r.name) + (Put16(TypeOf(r.data)) + (Put16(r.class_) + (Put32(r.ttl) + (Put16(|data|) + data))))
  }

  ghost predicate LegalName(labels: Name) {
    forall l :: l in labels ==> 1 <= |l| <= 63
  }

  ghost predicate LegalRecord(r: Record) {
    && LegalName(r.name)
    && |PutData(r.data)| < 0x1_0000
    && match r.data
       case Address(octets) => |octets| == 4
       case Server(name) => LegalName(name)
       case Authority(soa) => LegalName(soa.mname) && LegalName(soa.rname) && |soa.timers| == 5
  }

  ghost predicate LegalRecords(rs: seq<Record>) {
    |rs| < 0x1_0000 && forall r :: r in rs ==> LegalRecord(r)
  }

  ghost predicate LegalQuestions(qs: seq<Question>) {
    |qs| < 0x1_0000 && forall q: Question :: q in qs ==> LegalName(q.name)
  }

  ghost predicate Legal(m: Message) {
    LegalQuestions(m.questions) && LegalRecords(m.answers) && LegalRecords(m.authority) && LegalRecords(m.additional)
  }

  ghost function PutQuestions(qs: seq<Question>): Text {
    if qs == [] then [] else PutQuestion(qs[0]) + PutQuestions(qs[1..])
  }

  ghost function PutRecords(rs: seq<Record>): Text
    requires LegalRecords(rs)
  {
    if rs == [] then []
    else
      assert rs[0] in rs && forall r :: r in rs[1..] ==> r in rs;
      PutRecord(rs[0]) + PutRecords(rs[1..])
  }

  ghost function Header(m: Message): seq<U16>
    requires Legal(m)
  {
    [m.id, m.flags, |m.questions|, |m.answers|, |m.authority|, |m.additional|]
  }

  ghost function PutMessage(m: Message): Text
    requires Legal(m)
  {
    PutWords(Header(m)) + (PutQuestions(m.questions)
      + (PutRecords(m.answers) + (PutRecords(m.authority) + PutRecords(m.additional))))
  }

  // ---------------------------------------------------------------------------------------
  // Reading
  // ---------------------------------------------------------------------------------------

  /** What was read, and the octets behind it. */
  datatype Got<+T> = Got(value: T, rest: Text)

  function Pair(high: Octet, low: Octet): U16 {
    var n: int := high;
    n * 256 + low
  }

  function Read16(s: Text): Option<Got<U16>> {
    if |s| < 2 then None else Some(Got(Pair(s[0], s[1]), s[2..]))
  }

  function Read32(s: Text): Option<Got<U32>> {
    if |s| < 4 then None
    else
      var n: int := Pair(s[0], s[1]);
      Some(Got(n * 0x1_0000 + Pair(s[2], s[3]), s[4..]))
  }

  function ReadWords(s: Text, n: nat): Option<Got<seq<U16>>>
    decreases n
  {
    if n == 0 then Some(Got([], s))
    else
      match Read16(s)
      case None => None
      case Some(Got(w, s1)) =>
        match ReadWords(s1, n - 1)
        case None => None
        case Some(Got(ws, s2)) => Some(Got([w] + ws, s2))
  }

  function ReadTimers(s: Text, n: nat): Option<Got<seq<U32>>>
    decreases n
  {
    if n == 0 then Some(Got([], s))
    else
      match Read32(s)
      case None => None
      case Some(Got(w, s1)) =>
        match ReadTimers(s1, n - 1)
        case None => None
        case Some(Got(ws, s2)) => Some(Got([w] + ws, s2))
  }

  /** Labels of at most 63 octets up to the root; no pointers. */
  function ReadName(s: Text): Option<Got<Name>> {
    if s == [] then None
    else if s[0] == 0 then Some(Got([], s[1..]))
    else if s[0] > 63 || |s| < 1 + s[0] then None
    else
      match ReadName(s[1 + s[0]..])
      case None => None
      case Some(Got(labels, rest)) => Some(Got([s[1..1 + s[0]]] + labels, rest))
  }

  function ReadQuestion(s: Text): Option<Got<Question>> {
    match ReadName(s)
    case None => None
    case Some(Got(name, s1)) =>
      match ReadWords(s1, 2)
      case None => None
      case Some(Got(words, s2)) =>
        if |words| != 2 then None else Some(Got(Question(name, words[0], words[1]), s2))
  }

  function ReadSoa(s: Text): Option<Got<Soa>> {
    match ReadName(s)
    case None => None
    case Some(Got(mname, s1)) =>
      match ReadName(s1)
      case None => None
      case Some(Got(rname, s2)) =>
        match ReadTimers(s2, 5)
        case None => None
        case Some(Got(timers, s3)) => Some(Got(Soa(mname, rname, timers), s3))
  }

  /** The data of a record: exactly RDLENGTH octets, read by type. */
  function ReadData(kind: U16, d: Text): Option<Data> {
    if kind == 1 then
      if |d| == 4 then Some(Address(d)) else None
    else if kind == 2 then
      match ReadName(d)
      case None => None
      case Some(Got(name, rest)) => if rest == [] then Some(Server(name)) else None
    else if kind == 6 then
      match ReadSoa(d)
      case None => None
      case Some(Got(soa, rest)) => if rest == [] then Some(Authority(soa)) else None
    else None
  }

  /** RDLENGTH and the data behind it. */
  function ReadSized(kind: U16, s: Text): Option<Got<Data>> {
    match Read16(s)
    case None => None
    case Some(Got(n, s1)) =>
      if |s1| < n then None
      else
        match ReadData(kind, s1[..n])
        case None => None
        case Some(data) => Some(Got(data, s1[n..]))
  }

  function ReadRecord(s: Text): Option<Got<Record>> {
    match ReadName(s)
    case None => None
    case Some(Got(name, s1)) =>
      match Read16(s1)
      case None => None
      case Some(Got(kind, s2)) =>
        match Read16(s2)
        case None => None
        case Some(Got(class_, s3)) =>
          match Read32(s3)
          case None => None
          case Some(Got(ttl, s4)) =>
            match ReadSized(kind, s4)
            case None => None
            case Some(Got(data, s5)) => Some(Got(Record(name, class_, ttl, data), s5))
  }

  function ReadQuestions(s: Text, n: nat): Option<Got<seq<Question>>>
    decreases n
  {
    if n == 0 then Some(Got([], s))
    else
      match ReadQuestion(s)
      case None => None
      case Some(Got(q, s1)) =>
        match ReadQuestions(s1, n - 1)
        case None => None
        case Some(Got(qs, s2)) => Some(Got([q] + qs, s2))
  }

  function ReadRecords(s: Text, n: nat): Option<Got<seq<Record>>>
    decreases n
  {
    if n == 0 then Some(Got([], s))
    else
      match ReadRecord(s)
      case None => None
      case Some(Got(r, s1)) =>
        match ReadRecords(s1, n - 1)
        case None => None
        case Some(Got(rs, s2)) => Some(Got([r] + rs, s2))
  }

  /** The three sections of records, as long as the header says. */
  function ReadSections(id: U16, flags: U16, questions: seq<Question>, an: nat, ns: nat, ar: nat, s: Text): Option<Got<Message>> {
    match ReadRecords(s, an)
    case None => None
    case Some(Got(answers, s1)) =>
      match ReadRecords(s1, ns)
      case None => None
      case Some(Got(authority, s2)) =>
        match ReadRecords(s2, ar)
        case None => None
        case Some(Got(additional, s3)) =>
          Some(Got(Message(id, flags, questions, answers, authority, additional), s3))
  }

  function ReadMessage(s: Text): Option<Got<Message>> {
    match ReadWords(s, 6)
    case None => None
    case Some(Got(h, s1)) =>
      if |h| != 6 then None
      else
        match ReadQuestions(s1, h[2])
        case None => None
        case Some(Got(questions, s2)) => ReadSections(h[0], h[1], questions, h[3], h[4], h[5], s2)
  }

  // ---------------------------------------------------------------------------------------
  // Reading what was written
  // ---------------------------------------------------------------------------------------

  lemma Get16(n: U16, s: Text)
    ensures Read16(Put16(n) + s) == Some(Got(n, s))
  {
  }

  lemma Get32(n: U32, s: Text)
    ensures Read32(Put32(n) + s) == Some(Got(n, s))
  {
  }

  lemma {:induction false} GetWords(ns: seq<U16>, s: Text)
    ensures ReadWords(PutWords(ns) + s, |ns|) == Some(Got(ns, s))
  {
    if ns == [] {
      assert PutWords(ns) + s == s;
    } else {
      Assoc(Put16(ns[0]), PutWords(ns[1..]), s);
      Get16(ns[0], PutWords(ns[1..]) + s);
      GetWords(ns[1..], s);
      assert [ns[0]] + ns[1..] == ns;
    }
  }

  lemma {:induction false} GetTimers(ns: seq<U32>, s: Text)
    ensures ReadTimers(PutTimers(ns) + s, |ns|) == Some(Got(ns, s))
  {
    if ns == [] {
      assert PutTimers(ns) + s == s;
    } else {
      Assoc(Put32(ns[0]), PutTimers(ns[1..]), s);
      Get32(ns[0], PutTimers(ns[1..]) + s);
      GetTimers(ns[1..], s);
      assert [ns[0]] + ns[1..] == ns;
    }
  }

  lemma NameStep(l: Text, more: Name, s: Text)
    requires 1 <= |l| <= 63
    ensures var t := PutName([l] + more) + s;
            |t| >= 1 + |l| && t[0] == |l| && t[1..1 + |l|] == l && t[1 + |l|..] == PutName(more) + s
  {
    assert ([l] + more)[1..] == more;
    assert PutName([l] + more) + s == [|l|] + l + (PutName(more) + s);
  }

  lemma ReadLabel(t: Text, l: Text, more: Name, rest: Text)
    requires 1 <= |l| <= 63 && |t| >= 1 + |l| && t[0] == |l| && t[1..1 + |l|] == l
    requires ReadName(t[1 + |l|..]) == Some(Got(more, rest))
    ensures ReadName(t) == Some(Got([l] + more, rest))
  {
  }

  lemma LegalLabels(labels: Name)
    requires LegalName(labels) && labels != []
    ensures 1 <= |labels[0]| <= 63 && LegalName(labels[1..]) && labels == [labels[0]] + labels[1..]
  {
    assert labels[0] in labels;
    forall l | l in labels[1..]
      ensures 1 <= |l| <= 63
    {
      assert l in labels;
    }
  }

  lemma {:induction false} GetName(labels: Name, s: Text)
    requires LegalName(labels)
    ensures ReadName(PutName(labels) + s) == Some(Got(labels, s))
  {
    if labels != [] {
      var l, more := labels[0], labels[1..];
      LegalLabels(labels);
      GetName(more, s);
      NameStep(l, more, s);
      ReadLabel(PutName(labels) + s, l, more, s);
    }
  }

  lemma GetQuestion(q: Question, s: Text)
    requires LegalName(q.name)
    ensures ReadQuestion(PutQuestion(q) + s) == Some(Got(q, s))
  {
    var words := [q.qtype, q.qclass];
    assert PutWords(words) == Put16(q.qtype) + Put16(q.qclass);
    assert PutQuestion(q) + s == PutName(q.name) + (PutWords(words) + s);
    GetName(q.name, PutWords(words) + s);
    GetWords(words, s);
  }

  lemma GetSoa(a: Soa, s: Text)
    requires LegalName(a.mname) && LegalName(a.rname) && |a.timers| == 5
    ensures ReadSoa(PutSoa(a) + s) == Some(Got(a, s))
  {
    Assoc(PutName(a.mname), PutName(a.rname) + PutTimers(a.timers), s);
    Assoc(PutName(a.rname), PutTimers(a.timers), s);
    GetName(a.mname, (PutName(a.rname) + PutTimers(a.timers)) + s);
    GetName(a.rname, PutTimers(a.timers) + s);
    GetTimers(a.timers, s);
  }

  lemma GetData(r: Record)
    requires LegalRecord(r)
    ensures ReadData(TypeOf(r.data), PutData(r.data)) == Some(r.data)
  {
    assert PutData(r.data) + [] == PutData(r.data);
    match r.data
    case Address(octets) =>
    case Server(name) => GetName(name, []);
    case Authority(soa) => GetSoa(soa, []);
  }

  lemma GetSized(r: Record, s: Text)
    requires LegalRecord(r)
    ensures var d := PutData(r.data); ReadSized(TypeOf(r.data), (Put16(|d|) + d) + s) == Some(Got(r.data, s))
  {
    var d := PutData(r.data);
    Assoc(Put16(|d|), d, s);
    Get16(|d|, d + s);
    assert (d + s)[..|d|] == d && (d + s)[|d|..] == s;
    GetData(r);
  }

  lemma GetRecord(r: Record, s: Text)
    requires LegalRecord(r)
    ensures ReadRecord(PutRecord(r) + s) == Some(Got(r, s))
  {
    var d := PutData(r.data);
    var s4 := Put16(|d|) + d;
    var s3 := Put32(r.ttl) + s4;
    var s2 := Put16(r.class_) + s3;
    var s1 := Put16(TypeOf(r.data)) + s2;
    Assoc(PutName(r.name), s1, s);
    Assoc(Put16(TypeOf(r.data)), s2, s);
    Assoc(Put16(r.class_), s3, s);
    Assoc(Put32(r.ttl), s4, s);
    GetName(r.name, s1 + s);
    Get16(TypeOf(r.data), s2 + s);
    Get16(r.class_, s3 + s);
    Get32(r.ttl, s4 + s);
    GetSized(r, s);
  }

  lemma LegalTail(qs: seq<Question>)
    requires LegalQuestions(qs) && qs != []
    ensures LegalName(qs[0].name) && LegalQuestions(qs[1..]) && qs == [qs[0]] + qs[1..]
  {
    assert qs[0] in qs && (forall q :: q in qs[1..] ==> q in qs);
  }

  lemma LegalRest(rs: seq<Record>)
    requires LegalRecords(rs) && rs != []
    ensures LegalRecord(rs[0]) && LegalRecords(rs[1..]) && rs == [rs[0]] + rs[1..]
  {
    assert rs[0] in rs;
    forall r | r in rs[1..]
      ensures LegalRecord(r)
    {
      assert r in rs;
    }
  }

  lemma {:induction false} GetQuestions(qs: seq<Question>, s: Text)
    requires LegalQuestions(qs)
    ensures ReadQuestions(PutQuestions(qs) + s, |qs|) == Some(Got(qs, s))
  {
    if qs == [] {
      assert PutQuestions(qs) + s == s;
    } else {
      LegalTail(qs);
      Assoc(PutQuestion(qs[0]), PutQuestions(qs[1..]), s);
      GetQuestion(qs[0], PutQuestions(qs[1..]) + s);
      GetQuestions(qs[1..], s);
    }
  }

  lemma {:induction false} GetRecords(rs: seq<Record>, s: Text)
    requires LegalRecords(rs)
    ensures ReadRecords(PutRecords(rs) + s, |rs|) == Some(Got(rs, s))
  {
    if rs == [] {
      assert PutRecords(rs) + s == s;
    } else {
      LegalRest(rs);
      Assoc(PutRecord(rs[0]), PutRecords(rs[1..]), s);
      GetRecord(rs[0], PutRecords(rs[1..]) + s);
      GetRecords(rs[1..], s);
    }
  }

  lemma GetSections(m: Message, s: Text)
    requires Legal(m)
    ensures var t := PutRecords(m.answers) + (PutRecords(m.authority) + PutRecords(m.additional));
            ReadSections(m.id, m.flags, m.questions, |m.answers|, |m.authority|, |m.additional|, t + s) == Some(Got(m, s))
  {
    Assoc(PutRecords(m.answers), PutRecords(m.authority) + PutRecords(m.additional), s);
    Assoc(PutRecords(m.authority), PutRecords(m.additional), s);
    GetRecords(m.answers, (PutRecords(m.authority) + PutRecords(m.additional)) + s);
    GetRecords(m.authority, PutRecords(m.additional) + s);
    GetRecords(m.additional, s);
  }

  /** The reader takes a message out of its octets, and no octet of what follows. */
  lemma GetMessage(m: Message, s: Text)
    requires Legal(m)
    ensures ReadMessage(PutMessage(m) + s) == Some(Got(m, s))
  {
    var t := PutRecords(m.answers) + (PutRecords(m.authority) + PutRecords(m.additional));
    Assoc(PutWords(Header(m)), PutQuestions(m.questions) + t, s);
    Assoc(PutQuestions(m.questions), t, s);
    GetWords(Header(m), (PutQuestions(m.questions) + t) + s);
    GetQuestions(m.questions, t + s);
    GetSections(m, s);
  }

  /** Numbers go out with the high octet first. */
  lemma HighOctetFirst(a: Octet, b: Octet, c: Octet, d: Octet)
    ensures Put16(256 * a + b) == [a, b]
    ensures Put32(16777216 * a + 65536 * b + 256 * c + d) == [a, b, c, d]
  {
    var high: U16, low: U16 := 256 * a + b, 256 * c + d;
    assert 16777216 * a + 65536 * b + 256 * c + d == 65536 * high + low;
    SplitWord(high, low);
    SplitOctets(a, b);
    SplitOctets(c, d);
  }

  lemma SplitWord(high: U16, low: U16)
    ensures (65536 * high + low) / 0x1_0000 == high && (65536 * high + low) % 0x1_0000 == low
  {
  }

  lemma SplitOctets(a: Octet, b: Octet)
    ensures Put16(256 * a + b) == [a, b]
  {
  }
}
