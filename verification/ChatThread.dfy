/**
The chat thread of one client in the chat server of Lab 5, octet by octet: it greets, receives,
cuts what it receives into messages to broadcast, and says farewell.
*/
module ChatThread {
  import opened Octets
  import opened ChatFraming
  import opened Sequences
  import ChatSender

  datatype Phase = New | Greeted(hello: string) | Gone(hello: string, bye: string)

  /** heard is what the receive loop has looked at, unread the rest of the last chunk, buffer the
      message begun; due is the message it is about to broadcast. */
  datatype Thread = Thread(name: string, phase: Phase, heard: string, unread: string, buffer: string, due: Option<string>)

  datatype Doing = Greet(hello: string) | Recv(chunk: string) | Scan | Bye(bye: string)

  function Begun(name: string): Thread {
    Thread(name, New, "", "", "", None)
  }

  /** Nothing to broadcast and nothing left of the last chunk. */
  predicate IsIdle(th: Thread) {
    th.due == None && th.unread == ""
  }

  predicate MayDo(th: Thread, online: bool, doing: Doing) {
    match doing
    case Greet(_) => th.phase == New
    case Recv(chunk) => th.phase.Greeted? && online && IsIdle(th) && 0 < |chunk| <= ChatSender.BUFFER_LEN
    case Scan => th.due == None && th.unread != ""
    case Bye(_) => th.phase.Greeted? && !online && IsIdle(th)
  }

  /** The loop's body for one octet: at a newline the message is due. */
  function Scanned(th: Thread): Thread
    requires th.unread != ""
  {
    var c := th.unread[0];
    var begun := (if th.buffer == "" then th.name + ":" else th.buffer) + [c];
    th.(heard := th.heard + [c], unread := th.unread[1..],
    buffer := if c == '\n' then "" else begun, due := if c == '\n' then Some(begun) else None)
  }

  function AfterDoing(th: Thread, doing: Doing): Thread
    requires doing.Scan? ==> th.unread != ""
    requires doing.Bye? ==> th.phase.Greeted?
  {
    match doing
    case Greet(hello) => th.(phase := Greeted(hello), due := Some(hello))
    case Recv(chunk) => th.(unread := chunk)
    case Scan => Scanned(th)
    case Bye(bye) => th.(phase := Gone(th.phase.hello, bye), due := Some(bye))
  }

  /** What the thread has to say so far: greeting, every line heard, farewell. */
  function ToSay(th: Thread): seq<string> {
    match th.phase
    case New => []
    case Greeted(hello) => [hello] + Prefixed(th.name, Lines(th.heard))
    case Gone(hello, bye) => [hello] + Prefixed(th.name, Lines(th.heard)) + [bye]
  }

  function DueOf(th: Thread): seq<string> {
    if th.due.Some? then [th.due.value] else []
  }

  /** What it has broadcast and what is due are exactly this, and the message begun is the tail. */
  ghost predicate Speaks(th: Thread, log: seq<string>) {
    && log + DueOf(th) == ToSay(th)
    && th.buffer == Pending(th.name, Tail(th.heard))
    && (th.phase.New? ==> th == Begun(th.name))
    && (th.phase.Gone? ==> th.unread == "")
  }

  lemma NewSpeaks(name: string)
    ensures Speaks(Begun(name), [])
  {
    assert [] + DueOf(Begun(name)) == ToSay(Begun(name));
  }

  lemma ScannedSpeaks(th: Thread, log: seq<string>)
    requires Speaks(th, log) && MayDo(th, true, Scan)
    ensures Speaks(Scanned(th), log)
  {
    var c := th.unread[0];
    OneMore(th.name, th.heard, Prefixed(th.name, Lines(th.heard)), th.buffer, c);
    LinesMore(th.heard, c);
    assert log + [] == log;
    if c == '\n' {
      Assoc([th.phase.hello], Prefixed(th.name, Lines(th.heard)), DueOf(Scanned(th)));
    }
  }

  lemma DoingSpeaks(th: Thread, online: bool, doing: Doing, log: seq<string>)
    requires Speaks(th, log) && MayDo(th, online, doing)
    ensures Speaks(AfterDoing(th, doing), log)
  {
    assert log + [] == log;
    match doing
    case Greet(hello) => assert Prefixed(th.name, Lines("")) == [] && [hello] + [] == [hello];
    case Recv(chunk) =>
    case Scan => ScannedSpeaks(th, log);
    case Bye(bye) =>
  }

  /** Broadcasting what is due. */
  lemma SayingSpeaks(th: Thread, log: seq<string>)
    requires Speaks(th, log) && th.due.Some?
    ensures Speaks(th.(due := None), log + [th.due.value])
  {
    assert log + [th.due.value] + [] == log + [th.due.value];
  }
}
