/**
The receive loop of the chat server with commands (Lab 5): every chunk recv returns is first
looked at as a whole. What that does to framing, and to the name a client asks for.
*/
module ChatCommands {
  import opened ChatFraming
  import opened Octets
  import opened Sequences

  const BUFFER_LEN: nat := 4096

  const NUL: char := '\0'

  datatype Kind = Talk | Rename | Who | Unknown

  /** check_cmd is the chunk without its last octet. */
  function KindOf(chunk: string): Kind
    requires chunk != ""
  {
    var check := chunk[..|chunk| - 1];
    if check == "" || check[0] != '/' then Talk
    else if "/name " <= check then Rename
    else if "/who" <= check then Who
    else Unknown
  }

  predicate IsCommand(chunk: string) {
    |chunk| >= 2 && chunk[0] == '/'
  }

  lemma CommandsAreNotText(chunk: string)
    requires chunk != ""
    ensures IsCommand(chunk) <==> KindOf(chunk) != Talk
  {
    assert chunk[..|chunk| - 1] == "" <==> |chunk| == 1;
  }

  /** The length of the C string at the start of a buffer. */
  function StrLen(buffer: string): (n: nat)
    ensures n <= |buffer| && NUL !in buffer[..n] && (n < |buffer| ==> buffer[n] == NUL)
  {
    if buffer == "" || buffer[0] == NUL then 0 else 1 + StrLen(buffer[1..])
  }

  /** recv overwrites the front of the buffer. */
  function Received(buffer: string, chunk: string): (b: string)
    requires |chunk| <= |buffer|
    ensures |b| == |buffer|
  {
    chunk + buffer[|chunk|..]
  }

  /** The name change_name takes out of the buffer: from the sixth octet to one before the end. */
  function NameIn(buffer: string): string {
    var n := StrLen(buffer);
    if n < 7 then "" else buffer[6..n - 1]
  }

  /** A line as it is queued for the others: who said it, and the line with its newline. */
  datatype Said = Said(name: string, line: string)

  /** What the thread of a client holds: its name, the line begun and the name it began under,
      what it has said, the commands it has answered, the receive buffer. */
  datatype Session = Session(name: string, begunAs: string, tail: string, said: seq<Said>, answered: seq<Kind>, buffer: string)

  function Hear(s: Session, c: char): Session {
    var begunAs := if s.tail == "" then s.name else s.begunAs;
    if c == '\n' then s.(begunAs := begunAs, tail := "", said := s.said + [Said(begunAs, s.tail + [c])])
    else s.(begunAs := begunAs, tail := s.tail + [c])
  }

  function HearAll(s: Session, text: string): Session {
    if text == "" then s else Hear(HearAll(s, text[..|text| - 1]), text[|text| - 1])
  }

  function Blank(n: nat): (b: string)
    ensures |b| == n && forall i :: 0 <= i < n ==> b[i] == NUL
  {
    seq(n, _ => NUL)
  }

  /** One turn of the receive loop. Only text and a rename clear the buffer. */
  function Turn(s: Session, chunk: string): Session
    requires 0 < |chunk| <= |s.buffer|
  {
    var buffer := Received(s.buffer, chunk);
    match KindOf(chunk)
    case Talk => HearAll(s, chunk).(buffer := Blank(|s.buffer|))
    case Rename => s.(name := NameIn(buffer), answered := s.answered + [Rename], buffer := Blank(|s.buffer|))
    case Who => s.(answered := s.answered + [Who], buffer := buffer)
    case Unknown => s.(answered := s.answered + [Unknown], buffer := buffer)
  }

  predicate Receivable(chunks: seq<string>, size: nat) {
    forall k :: 0 <= k < |chunks| ==> 0 < |chunks[k]| <= size
  }

  function Turns(s: Session, chunks: seq<string>): (t: Session)
    requires Receivable(chunks, |s.buffer|)
    ensures |t.buffer| == |s.buffer|
  {
    if chunks == [] then s
    else
      var n := |chunks| - 1;
      HearKeepsBuffer(Turns(s, chunks[..n]), chunks[n]);
      Turn(Turns(s, chunks[..n]), chunks[n])
  }

  lemma {:induction false} HearKeepsBuffer(s: Session, text: string)
    ensures HearAll(s, text).buffer == s.buffer && HearAll(s, text).name == s.name && HearAll(s, text).answered == s.answered
  {
    if text != "" {
      HearKeepsBuffer(s, text[..|text| - 1]);
    }
  }

  lemma {:induction false} HearingIgnoresBuffer(s: Session, b: string, text: string)
    ensures HearAll(s.(buffer := b), text) == HearAll(s, text).(buffer := b)
  {
    if text != "" {
      HearingIgnoresBuffer(s, b, text[..|text| - 1]);
    }
  }

  // ---------------------------------------------------------------------------------------
  // Framing
  // ---------------------------------------------------------------------------------------

  /** The chunks that are text, joined. */
  function TextOf(chunks: seq<string>): string
    requires Receivable(chunks, BUFFER_LEN)
  {
    if chunks == [] then ""
    else
      var n := |chunks| - 1;
      TextOf(chunks[..n]) + if KindOf(chunks[n]) == Talk then chunks[n] else ""
  }

  function LinesSaid(said: seq<Said>): seq<string> {
    seq(|said|, i requires 0 <= i < |said| => said[i].line)
  }

  ghost predicate HasHeard(s: Session, stream: string) {
    LinesSaid(s.said) == Lines(stream) && s.tail == Tail(stream)
  }

  lemma HearMore(s: Session, stream: string, c: char)
    requires HasHeard(s, stream)
    ensures HasHeard(Hear(s, c), stream + [c])
  {
    LinesMore(stream, c);
    if c == '\n' {
      assert LinesSaid(Hear(s, c).said) == LinesSaid(s.said) + [s.tail + [c]];
    }
  }

  lemma {:induction false} HearAllMore(s: Session, stream: string, text: string)
    requires HasHeard(s, stream)
    ensures HasHeard(HearAll(s, text), stream + text)
  {
    if text == "" {
      assert stream + text == stream;
    } else {
      var n := |text| - 1;
      HearAllMore(s, stream, text[..n]);
      HearMore(HearAll(s, text[..n]), stream + text[..n], text[n]);
      assert stream + text[..n] + [text[n]] == stream + text;
    }
  }

  ghost predicate Begins(s: Session) {
    s.said == [] && s.tail == "" && |s.buffer| == BUFFER_LEN + 1
  }

  lemma FitsBuffer(chunks: seq<string>)
    requires Receivable(chunks, BUFFER_LEN)
    ensures Receivable(chunks, BUFFER_LEN + 1)
    ensures chunks != [] ==> Receivable(chunks[..|chunks| - 1], BUFFER_LEN)
  {
  }

  /** Whatever the chunks, what is said and kept is the text chunks cut into lines. */
  lemma {:induction false} TextIsFramed(s: Session, chunks: seq<string>)
    requires Begins(s) && Receivable(chunks, BUFFER_LEN)
    ensures Receivable(chunks, |s.buffer|) && HasHeard(Turns(s, chunks), TextOf(chunks))
  {
    FitsBuffer(chunks);
    if chunks != [] {
      var n := |chunks| - 1;
      TextIsFramed(s, chunks[..n]);
      HearAllMore(Turns(s, chunks[..n]), TextOf(chunks[..n]), chunks[n]);
      assert TextOf(chunks[..n]) + "" == TextOf(chunks[..n]);
    }
  }

  lemma {:induction false} TextIsShorter(chunks: seq<string>)
    requires Receivable(chunks, BUFFER_LEN)
    ensures |TextOf(chunks)| <= |Join(chunks)|
    ensures TextOf(chunks) == Join(chunks) <==> forall k :: 0 <= k < |chunks| ==> !IsCommand(chunks[k])
  {
    if chunks != [] {
      var n := |chunks| - 1;
      TextIsShorter(chunks[..n]);
      CommandsAreNotText(chunks[n]);
      assert TextOf(chunks[..n]) + "" == TextOf(chunks[..n]);
      if KindOf(chunks[n]) == Talk {
        SamePrefix(TextOf(chunks[..n]), Join(chunks[..n]), chunks[n]);
      }
      assert forall k :: 0 <= k < n ==> chunks[..n][k] == chunks[k];
    }
  }

  lemma SamePrefix(a: string, b: string, c: string)
    ensures a + c == b + c <==> a == b
  {
    if a + c == b + c {
      assert |a| == |b| && a == (a + c)[..|a|] && b == (b + c)[..|b|];
    }
  }

  /** The lines of the whole stream are said, and its tail kept, exactly when no chunk begins
      with '/': framing depends on how the stream was cut, for a command is recognised only at
      the start of a chunk, and takes the whole chunk with it. */
  lemma FramingIsKeptWithoutCommands(s: Session, chunks: seq<string>)
    requires Begins(s) && Receivable(chunks, BUFFER_LEN)
    ensures Receivable(chunks, |s.buffer|)
    ensures HasHeard(Turns(s, chunks), Join(chunks)) <==> forall k :: 0 <= k < |chunks| ==> !IsCommand(chunks[k])
  {
    TextIsFramed(s, chunks);
    TextIsShorter(chunks);
    LinesCut(TextOf(chunks));
    LinesCut(Join(chunks));
  }

  /** One stream, cut in two ways: in one the text of the second line is lost. */
  lemma CutsMatter(s: Session)
    requires Begins(s)
    ensures Join(["a\n/b\n"]) == Join(["a\n", "/b\n"])
    ensures HasHeard(Turns(s, ["a\n/b\n"]), "a\n/b\n") && !HasHeard(Turns(s, ["a\n", "/b\n"]), "a\n/b\n")
  {
    var whole, cut := ["a\n/b\n"], ["a\n", "/b\n"];
    assert whole[..0] == [] && cut[..1] == ["a\n"] && cut[..1][..0] == [];
    assert Join(whole) == "a\n/b\n" == Join(cut);
    FramingIsKeptWithoutCommands(s, whole);
    FramingIsKeptWithoutCommands(s, cut);
    assert IsCommand(cut[1]) && !IsCommand(whole[0]);
  }

  // ---------------------------------------------------------------------------------------
  // Names
  // ---------------------------------------------------------------------------------------

  lemma StrLenIs(buffer: string, n: nat)
    requires n <= |buffer| && NUL !in buffer[..n] && (n < |buffer| ==> buffer[n] == NUL)
    ensures StrLen(buffer) == n
  {
    NotAmong(buffer, n, NUL);
    NotAmong(buffer, StrLen(buffer), NUL);
  }

  /** The name becomes what the client sent exactly when the octet behind the chunk was zero. */
  lemma RenameIsExact(s: Session, chunk: string)
    requires 0 < |chunk| < |s.buffer| && KindOf(chunk) == Rename && NUL !in chunk
    ensures Turn(s, chunk).name == chunk[6..|chunk| - 1] <==> s.buffer[|chunk|] == NUL
  {
    var b, n := Received(s.buffer, chunk), |chunk|;
    assert "/name " <= chunk[..n - 1];
    assert b[..n] == chunk && b[n] == s.buffer[n];
    if s.buffer[n] == NUL {
      StrLenIs(b, n);
      assert b[6..n - 1] == chunk[6..n - 1];
    } else {
      NotAmong(b, n, NUL);
      assert StrLen(b) > n;
      assert |NameIn(b)| > |chunk[6..n - 1]|;
    }
  }

  /** For any name, written behind "/name " and ended by one octet more. */
  lemma NameIsTaken(s: Session, name: string)
    requires NUL !in name && |name| + 7 < |s.buffer|
    ensures var chunk := "/name " + name + "\n";
            && Turn(s, chunk).said == s.said && Turn(s, chunk).tail == s.tail
            && Turn(s, chunk).answered == s.answered + [Rename]
            && (Turn(s, chunk).name == name <==> s.buffer[|name| + 7] == NUL)
  {
    var chunk := "/name " + name + "\n";
    var check := chunk[..|chunk| - 1];
    assert check == "/name " + name && check[0] == '/';
    assert "/name " <= check;
    assert chunk[6..|chunk| - 1] == name;
    RenameIsExact(s, chunk);
  }

  /** The command chunks, by kind. */
  function CommandsIn(chunks: seq<string>, size: nat): seq<Kind>
    requires Receivable(chunks, size)
  {
    if chunks == [] then []
    else
      var n := |chunks| - 1;
      CommandsIn(chunks[..n], size) + if KindOf(chunks[n]) != Talk then [KindOf(chunks[n])] else []
  }

  /** Every command is answered, in order, and nothing else is. */
  lemma {:induction false} EveryCommandIsAnswered(s: Session, chunks: seq<string>)
    requires Receivable(chunks, |s.buffer|)
    ensures Turns(s, chunks).answered == s.answered + CommandsIn(chunks, |s.buffer|)
    decreases |chunks|
  {
    if chunks == [] {
      assert s.answered + [] == s.answered;
    } else {
      var n := |chunks| - 1;
      EveryCommandIsAnswered(s, chunks[..n]);
      HearKeepsBuffer(Turns(s, chunks[..n]), chunks[n]);
      var before := CommandsIn(chunks[..n], |s.buffer|);
      Assoc(s.answered, before, [KindOf(chunks[n])]);
      assert before + [] == before;
    }
  }

  /** Three chunks and what they are. */
  lemma KindsOfCommands()
    ensures KindOf("/who\n") == Who && KindOf("/quit\n") == Unknown && KindOf("hi /who\n") == Talk
  {
    assert "/who\n"[..4] == "/who" && "/quit\n"[..5] == "/quit" && "hi /who\n"[..7] == "hi /who";
    assert "/who"[0] == '/' && "/quit"[0] == '/' && "/quit"[1] == 'q' && "/who"[1] == 'w' && "/name "[1] == 'n';
  }

  // Under which name a line is said: the one its client had when the line began.

  /** For every octet of text, the name the client had when it came. */
  function SpeakersOf(s: Session, chunks: seq<string>): (names: seq<string>)
    requires Receivable(chunks, |s.buffer|)
    decreases |chunks|
  {
    if chunks == [] then []
    else
      var n := |chunks| - 1;
      SpeakersOf(s, chunks[..n])
        + if KindOf(chunks[n]) == Talk then seq(|chunks[n]|, _ => Turns(s, chunks[..n]).name) else []
  }

  /** Where line k of a stream begins. */
  function LineStart(stream: string, k: nat): nat
    requires k <= |Lines(stream)|
  {
    |Join(Lines(stream)[..k])|
  }

  ghost predicate SaidUnder(s: Session, stream: string, names: seq<string>) {
    && |names| == |stream| && HasHeard(s, stream)
    && (forall k :: 0 <= k < |s.said| ==> LineStart(stream, k) < |names| && s.said[k].name == names[LineStart(stream, k)])
    && (s.tail != "" ==> |s.tail| <= |stream| && s.begunAs == names[|stream| - |s.tail|])
  }

  lemma TailIsShorter(stream: string)
    ensures |Tail(stream)| + |Join(Lines(stream))| == |stream|
  {
    LinesCut(stream);
  }

  lemma {:induction false} StartsAreKept(stream: string, c: char, k: nat)
    requires k <= |Lines(stream)|
    ensures k <= |Lines(stream + [c])| && LineStart(stream + [c], k) == LineStart(stream, k)
  {
    LinesMore(stream, c);
    assert Lines(stream + [c])[..k] == Lines(stream)[..k];
  }

  lemma HearUnder(s: Session, stream: string, names: seq<string>, c: char)
    requires |s.said| == |Lines(stream)| && SaidUnder(s, stream, names)
    ensures |Hear(s, c).said| == |Lines(stream + [c])|
    ensures SaidUnder(Hear(s, c), stream + [c], names + [s.name])
  {
    HearMore(s, stream, c);
    LinesMore(stream, c);
    TailIsShorter(stream);
    var t, next, more := Hear(s, c), stream + [c], names + [s.name];
    assert LineStart(stream, |Lines(stream)|) == |stream| - |s.tail| by {
      assert Lines(stream)[..|Lines(stream)|] == Lines(stream);
    }
    forall k | 0 <= k < |t.said|
      ensures LineStart(next, k) < |more| && t.said[k].name == more[LineStart(next, k)]
    {
      StartsAreKept(stream, c, k);
    }
  }

  lemma {:induction false} HearAllUnder(s: Session, stream: string, names: seq<string>, text: string)
    requires |s.said| == |Lines(stream)| && SaidUnder(s, stream, names)
    ensures |HearAll(s, text).said| == |Lines(stream + text)|
    ensures SaidUnder(HearAll(s, text), stream + text, names + seq(|text|, _ => s.name))
    decreases |text|
  {
    if text == "" {
      assert stream + text == stream && names + seq(|text|, _ => s.name) == names;
    } else {
      var n := |text| - 1;
      HearAllUnder(s, stream, names, text[..n]);
      HearKeepsBuffer(s, text[..n]);
      HearUnder(HearAll(s, text[..n]), stream + text[..n], names + seq(n, _ => s.name), text[n]);
      assert stream + text[..n] + [text[n]] == stream + text;
      assert names + seq(n, _ => s.name) + [s.name] == names + seq(|text|, _ => s.name);
    }
  }

  lemma NothingHeard(s: Session)
    requires Begins(s)
    ensures |s.said| == |Lines("")| && SaidUnder(s, "", [])
  {
  }

  /** Whatever the chunks and renames, every line is said under the name its client had when the
      line's first octet came. */
  lemma {:induction false} SaidUnderItsName(s: Session, chunks: seq<string>)
    requires Begins(s) && Receivable(chunks, BUFFER_LEN)
    ensures Receivable(chunks, |s.buffer|)
    ensures |Turns(s, chunks).said| == |Lines(TextOf(chunks))|
    ensures SaidUnder(Turns(s, chunks), TextOf(chunks), SpeakersOf(s, chunks))
    decreases |chunks|
  {
    FitsBuffer(chunks);
    if chunks == [] {
      NothingHeard(s);
    } else {
      var n := |chunks| - 1;
      SaidUnderItsName(s, chunks[..n]);
      var t, stream, names := Turns(s, chunks[..n]), TextOf(chunks[..n]), SpeakersOf(s, chunks[..n]);
      assert stream + "" == stream && names + [] == names;
      if KindOf(chunks[n]) == Talk {
        HearAllUnder(t, stream, names, chunks[n]);
      }
    }
  }

  /** Text and renames clear the buffer, other commands do not. */
  predicate Clears(chunk: string)
    requires chunk != ""
  {
    KindOf(chunk) == Talk || KindOf(chunk) == Rename
  }

  predicate NoLonger(chunks: seq<string>, from: nat, n: nat) {
    forall k :: from <= k < |chunks| ==> |chunks[k]| <= n
  }

  /** Every chunk since the last text or rename is no longer than n; or, before the first, every
      chunk is, and octet n of the buffer was zero from the start. */
  ghost predicate ZeroBehind(buffer: string, chunks: seq<string>, n: nat)
    requires n < |buffer| && Receivable(chunks, |buffer|)
  {
    || (buffer[n] == NUL && NoLonger(chunks, 0, n))
    || exists j :: 0 <= j < |chunks| && Clears(chunks[j]) && NoLonger(chunks, j + 1, n)
  }

  lemma ZeroBehindMore(buffer: string, chunks: seq<string>, n: nat)
    requires n < |buffer| && Receivable(chunks, |buffer|) && chunks != []
    ensures var last := chunks[|chunks| - 1];
            ZeroBehind(buffer, chunks, n) <==>
              Clears(last) || (|last| <= n && ZeroBehind(buffer, chunks[..|chunks| - 1], n))
  {
    var m := |chunks| - 1;
    var front := chunks[..m];
    if Clears(chunks[m]) {
      assert NoLonger(chunks, m + 1, n);
    } else if |chunks[m]| <= n {
      forall j | 0 <= j <= m
        ensures NoLonger(chunks, j, n) <==> NoLonger(front, j, n)
      {
        assert forall k :: j <= k < m ==> front[k] == chunks[k];
      }
      if j :| 0 <= j < m && Clears(front[j]) && NoLonger(front, j + 1, n) {
        assert Clears(chunks[j]);
      }
      if j :| 0 <= j < |chunks| && Clears(chunks[j]) && NoLonger(chunks, j + 1, n) {
        assert Clears(front[j]);
      }
    }
  }

  lemma {:induction false} OctetBehind(s: Session, chunks: seq<string>, n: nat)
    requires n < |s.buffer| && Receivable(chunks, |s.buffer|)
    requires forall k :: 0 <= k < |chunks| ==> NUL !in chunks[k]
    ensures Turns(s, chunks).buffer[n] == NUL <==> ZeroBehind(s.buffer, chunks, n)
    decreases |chunks|
  {
    if chunks != [] {
      var m := |chunks| - 1;
      OctetBehind(s, chunks[..m], n);
      ZeroBehindMore(s.buffer, chunks, n);
      HearKeepsBuffer(Turns(s, chunks[..m]), chunks[m]);
      assert n < |chunks[m]| ==> chunks[m][n] in chunks[m];
    }
  }

  /** After any chunks a rename gives the client the name it sent exactly when every chunk since
      the last text or rename was no longer than its own; before the first of them, when also the
      octet behind it was zero from the start. */
  lemma RenameAfterTurns(s: Session, chunks: seq<string>, chunk: string)
    requires Receivable(chunks, |s.buffer|) && forall k :: 0 <= k < |chunks| ==> NUL !in chunks[k]
    requires 0 < |chunk| < |s.buffer| && KindOf(chunk) == Rename && NUL !in chunk
    ensures Turn(Turns(s, chunks), chunk).name == chunk[6..|chunk| - 1] <==> ZeroBehind(s.buffer, chunks, |chunk|)
  {
    RenameIsExact(Turns(s, chunks), chunk);
    OctetBehind(s, chunks, |chunk|);
  }

  /** A rename right after a longer unknown command takes over what that command left behind. */
  lemma LongCommandSpoilsName(s: Session)
    requires Begins(s)
    ensures Turn(Turns(s, ["/unknown command\n"]), "/name a\n").name != "a"
  {
    var chunks := ["/unknown command\n"];
    var check := chunks[0][..|chunks[0]| - 1];
    assert check[0] == '/' && check[1] == 'u';
    assert "/name "[1] == 'n' && "/who"[1] == 'w';
    assert KindOf(chunks[0]) == Unknown;
    assert "/name a\n"[..7] == "/name a" && "/name a"[..6] == "/name ";
    assert "/name a\n"[6..7] == "a";
    assert !ZeroBehind(s.buffer, chunks, 8);
    RenameAfterTurns(s, chunks, "/name a\n");
  }

  // ---------------------------------------------------------------------------------------
  // The thread
  // ---------------------------------------------------------------------------------------

  class Receiver {
    const buffer: array<char>
    var name: string
    var messageBuffer: string
    var begunAs: string
    var said: seq<Said>
    var answered: seq<Kind>

    /** The buffer is on the stack and begins with anything in it. */
    constructor (name: string)
      ensures fresh(buffer) && Current().name == name && Begins(Current())
    {
      buffer := new char[BUFFER_LEN + 1];
      this.name, begunAs, messageBuffer, said, answered := name, name, "", [], [];
    }

    ghost function Current(): (s: Session)
      reads this, buffer
    {
      Session(name, begunAs, messageBuffer, said, answered, buffer[..])
    }

    /** The loop over a chunk of text. */
    method Scan(chunk: string)
      modifies this
      ensures Current() == HearAll(old(Current()), chunk)
    {
      var i := 0;
      while i < |chunk|
        invariant i <= |chunk| && Current() == HearAll(old(Current()), chunk[..i])
      {
        assert chunk[..i + 1][..i] == chunk[..i];
        if messageBuffer == "" {
          begunAs := name;
        }
        messageBuffer := messageBuffer + [chunk[i]];
        if chunk[i] == '\n' {
          said := said + [Said(begunAs, messageBuffer)];
          messageBuffer := "";
        }
        i := i + 1;
      }
      assert chunk[..i] == chunk;
    }

    /** memset(buffer, 0, sizeof(buffer)). */
    method Clear()
      modifies buffer
      ensures buffer[..] == Blank(buffer.Length)
    {
      for i := 0 to buffer.Length
        invariant forall k :: 0 <= k < i ==> buffer[k] == NUL
      {
        buffer[i] := NUL;
      }
    }

    /** recv writes the chunk over the front of the buffer. */
    method Fill(chunk: string)
      requires |chunk| <= buffer.Length
      modifies buffer
      ensures buffer[..] == Received(old(buffer[..]), chunk)
    {
      for i := 0 to |chunk|
        invariant forall k :: 0 <= k < i ==> buffer[k] == chunk[k]
        invariant forall k :: i <= k < buffer.Length ==> buffer[k] == old(buffer[k])
      {
        buffer[i] := chunk[i];
      }
    }

    method OnChunk(chunk: string)
      requires 0 < |chunk| <= buffer.Length
      modifies this, buffer
      ensures Current() == Turn(old(Current()), chunk)
    {
      ghost var before := Current();
      HearKeepsBuffer(before, chunk);
      HearingIgnoresBuffer(before, Received(before.buffer, chunk), chunk);
      Fill(chunk);
      var kind := KindOf(chunk);
      if kind != Talk {
        answered := answered + [kind];
        if kind == Rename {
          name := NameIn(buffer[..]);
          Clear();
        }
        return;
      }
      Scan(chunk);
      Clear();
    }
  }
}
