/**
strtopkt of hw2: dotted text to wire form, in one pass; what it keeps of any text, when parsing
gives the text back, and when its result survives the copies through C strings.
*/
module DnsEncoding {
  import opened Octets
  import opened Sequences
  import opened DnsNames

  predicate Stops(c: Octet) {
    c == 0 || c == 13 || c == 10
  }

  /** The text up to the first NUL, CR or LF. */
  function Visible(name: Text): (v: Text)
    ensures v <= name && (forall c :: c in v ==> !Stops(c))
    ensures |v| < |name| ==> Stops(name[|v|])
  {
    if name == [] || Stops(name[0]) then [] else [name[0]] + Visible(name[1..])
  }

  function FirstDot(s: Text): (d: nat)
    ensures d <= |s| && DOT !in s[..d] && (d < |s| ==> s[d] == DOT)
  {
    if s == [] || s[0] == DOT then 0 else 1 + FirstDot(s[1..])
  }

  /** The labels of a text, each ended by a dot, and what follows the last dot. */
  function Labels(s: Text): Name {
    var d := FirstDot(s);
    if d == |s| then [] else [s[..d]] + Labels(s[d + 1..])
  }

  function Rest(s: Text): Text {
    var d := FirstDot(s);
    if d == |s| then s else Rest(s[d + 1..])
  }

  /** The wire form of a name: what is not ended by a dot is dropped. */
  function Packet(name: Text): Text {
    Wire(Labels(Visible(name))) + [0]
  }

  // ---------------------------------------------------------------------------------------
  // Labels and dots
  // ---------------------------------------------------------------------------------------

  ghost predicate Dotless(labels: Name) {
    forall l :: l in labels ==> DOT !in l
  }

  lemma AtDot(s: Text, d: nat)
    requires d < |s| && s[d] == DOT
    ensures s == s[..d] + [DOT] + s[d + 1..]
  {
  }

  lemma {:induction false} LabelsAndRest(s: Text)
    ensures s == Dotted(Labels(s)) + Rest(s) && Dotless(Labels(s)) && DOT !in Rest(s)
  {
    var d := FirstDot(s);
    if d < |s| {
      var t := s[d + 1..];
      LabelsAndRest(t);
      AtDot(s, d);
      assert Labels(s)[1..] == Labels(t);
      Assoc(s[..d] + [DOT], Dotted(Labels(t)), Rest(t));
    } else {
      assert s[..d] == s && Dotted([]) + s == s;
    }
  }

  lemma {:induction false} FirstDotIs(l: Text, rest: Text)
    requires DOT !in l
    ensures FirstDot(l + [DOT] + rest) == |l|
  {
    var s := l + [DOT] + rest;
    if l != [] {
      assert s[1..] == l[1..] + [DOT] + rest;
      FirstDotIs(l[1..], rest);
    }
  }

  lemma NoDot(s: Text)
    requires DOT !in s
    ensures FirstDot(s) == |s|
  {
    assert s[..|s|] == s;
    NotAmong(s, |s|, DOT);
  }

  lemma LabelsCons(l: Text, rest: Text)
    requires DOT !in l
    ensures Labels(l + [DOT] + rest) == [l] + Labels(rest) && Rest(l + [DOT] + rest) == Rest(rest)
  {
    var s := l + [DOT] + rest;
    FirstDotIs(l, rest);
    assert s[..|l|] == l && s[|l| + 1..] == rest;
  }

  lemma DotlessTail(labels: Name)
    requires Dotless(labels) && labels != []
    ensures DOT !in labels[0] && Dotless(labels[1..]) && labels == [labels[0]] + labels[1..]
  {
    assert labels[0] in labels;
    forall l | l in labels[1..]
      ensures DOT !in l
    {
      assert l in labels;
    }
  }

  /** A text has only one reading as dotted labels and a rest. */
  lemma {:induction false} LabelsOfDotted(labels: Name, rest: Text)
    requires Dotless(labels) && DOT !in rest
    ensures Labels(Dotted(labels) + rest) == labels && Rest(Dotted(labels) + rest) == rest
  {
    if labels == [] {
      assert Dotted(labels) + rest == rest;
      NoDot(rest);
    } else {
      var l, tail := labels[0], labels[1..];
      DotlessTail(labels);
      LabelsOfDotted(tail, rest);
      LabelsCons(l, Dotted(tail) + rest);
      Assoc(l + [DOT], Dotted(tail), rest);
    }
  }

  // ---------------------------------------------------------------------------------------
  // The length and the zeros of a packet
  // ---------------------------------------------------------------------------------------

  lemma {:induction false} WireIsAsLong(labels: Name)
    ensures |Wire(labels)| == |Dotted(labels)|
  {
    if labels != [] {
      WireIsAsLong(labels[1..]);
    }
  }

  lemma VisibleIsShorter(name: Text)
    ensures Visible(name) != name ==> |Visible(name)| < |name|
  {
  }

  /** The packet is one octet longer than the text exactly when the text is all dotted labels. */
  lemma LengthLaw(name: Text)
    ensures |Packet(name)| == |Visible(name)| - |Rest(Visible(name))| + 1
    ensures |Packet(name)| == |name| + 1 <==> Visible(name) == name && Rest(name) == []
  {
    var v := Visible(name);
    LabelsAndRest(v);
    WireIsAsLong(Labels(v));
    VisibleIsShorter(name);
  }

  ghost predicate OnlyLastIsZero(p: Text) {
    p != [] && p[|p| - 1] == 0 && 0 !in p[..|p| - 1]
  }

  lemma {:induction false} ZerosInWire(labels: Name)
    requires forall l :: l in labels ==> 0 !in l
    ensures 0 in Wire(labels) <==> exists l :: l in labels && |l| % 256 == 0
  {
    if labels != [] {
      var l, more := labels[0], labels[1..];
      assert forall m :: m in more ==> m in labels;
      ZerosInWire(more);
      assert Wire(labels) == [|l| % 256] + l + Wire(more);
      if 0 in Wire(labels) {
        if |l| % 256 == 0 {
          assert l in labels;
        } else {
          assert 0 in Wire(more);
        }
      }
      if m :| m in labels && |m| % 256 == 0 {
        if m == l {
          assert Wire(labels)[0] == 0;
        } else {
          assert m in more;
        }
      }
    }
  }

  lemma {:induction false} LabelsAreVisible(s: Text)
    requires forall c :: c in s ==> !Stops(c)
    ensures forall l, c :: l in Labels(s) && c in l ==> !Stops(c)
  {
    var d := FirstDot(s);
    if d < |s| {
      LabelsAreVisible(s[d + 1..]);
      assert forall c :: c in s[d + 1..] ==> c in s;
    }
  }

  /** Its only zero octet is the last unless a label's length is lost in the length octet. */
  lemma ZeroLaw(name: Text)
    ensures OnlyLastIsZero(Packet(name)) <==> forall l :: l in Labels(Visible(name)) ==> |l| % 256 != 0
  {
    var v, p := Visible(name), Packet(name);
    LabelsAreVisible(v);
    ZerosInWire(Labels(v));
    assert p[..|p| - 1] == Wire(Labels(v));
  }

  // ---------------------------------------------------------------------------------------
  // Parsing what was encoded
  // ---------------------------------------------------------------------------------------

  /** A reader takes a length octet of 1 to 127 as a label. */
  predicate Legible(l: Text) {
    1 <= |l| <= 127
  }

  /** The labels before the first that is empty or too long. */
  function BeforeIllegible(labels: Name): (read: Name)
    ensures read <= labels
  {
    if labels == [] || !Legible(labels[0]) then [] else [labels[0]] + BeforeIllegible(labels[1..])
  }

  /** The first label that is not legible is there, and too long. */
  predicate StopsAtLong(labels: Name) {
    var n := |BeforeIllegible(labels)|;
    n < |labels| && |labels[n]| > 127
  }

  /** A buffer that holds a wire form behind pre octets and before others. */
  function Buffer(pre: Text, labels: Name, post: Text): Text {
    pre + Wire(labels) + [0] + post
  }

  /** At p the chunk holds the wire form of these labels and a zero. */
  ghost predicate HoldsName(chunk: Text, p: nat, labels: Name)
    decreases |labels|
  {
    p < |chunk| &&
    if labels == [] then chunk[p] == 0
    else
      var q := p + 1 + |labels[0]|;
      && q < |chunk|
      && chunk[p] == |labels[0]| % 256
      && chunk[p + 1..q] == labels[0]
      && HoldsName(chunk, q, labels[1..])
  }

  lemma InTheMiddle(a: Text, b: Text, c: Text)
    ensures (a + b + c)[|a|..|a| + |b|] == b
  {
  }

  lemma NextLabel(pre: Text, labels: Name, post: Text)
    requires labels != []
    ensures var chunk, p, l := Buffer(pre, labels, post), |pre|, labels[0];
            && chunk == Buffer(pre + ([|l| % 256] + l), labels[1..], post)
            && p + 1 + |l| < |chunk| && chunk[p] == |l| % 256 && chunk[p + 1..p + 1 + |l|] == l
  {
    var l, more, rest := labels[0], [|labels[0]| % 256] + labels[0], Wire(labels[1..]);
    Assoc(pre, more, rest);
    Assoc(pre + more + rest, [0], post);
    Assoc(pre + more, rest, [0] + post);
    Assoc(pre, [|l| % 256], l);
    InTheMiddle(pre + [|l| % 256], l, rest + ([0] + post));
    InTheMiddle(pre, [|l| % 256], l + (rest + ([0] + post)));
    Assoc(pre + [|l| % 256], l, rest + ([0] + post));
  }

  lemma {:induction false} BufferHolds(pre: Text, labels: Name, post: Text)
    ensures HoldsName(Buffer(pre, labels, post), |pre|, labels)
    decreases |labels|
  {
    if labels != [] {
      NextLabel(pre, labels, post);
      BufferHolds(pre + ([|labels[0]| % 256] + labels[0]), labels[1..], post);
    }
  }

  /** Without a label too long the wire form is read up to its first empty label, without a jump. */
  lemma {:induction false} WireIsRead(chunk: Text, p: nat, labels: Name, jumps: nat)
    requires HoldsName(chunk, p, labels) && !StopsAtLong(labels)
    ensures EndsWithin(chunk, p, jumps)
    ensures LabelsAt(chunk, p, jumps) == BeforeIllegible(labels) && !DanglesAt(chunk, p, jumps)
    ensures BeforeIllegible(labels) == [] ==> chunk[p] == 0
    decreases |labels|
  {
    if BeforeIllegible(labels) != [] {
      WireIsRead(chunk, p + 1 + |labels[0]|, labels[1..], jumps);
    }
  }

  ghost predicate PacketEnds(name: Text, post: Text, jumps: nat) {
    EndsWithin(Buffer([], Labels(Visible(name)), post), 0, jumps)
  }

  /** What the program makes of a packet in its zero-filled buffer: the spelled name and a dot. */
  ghost function ReadBack(name: Text, post: Text, jumps: nat): Text
    requires PacketEnds(name, post, jumps)
  {
    Spelled(Buffer([], Labels(Visible(name)), post), 0, jumps) + [DOT]
  }

  ghost predicate WellFormed(name: Text) {
    && Visible(name) == name
    && Rest(name) == []
    && Labels(name) != []
    && forall l :: l in Labels(name) ==> 1 <= |l| <= 127
  }

  lemma ReadBackIs(name: Text, post: Text, jumps: nat)
    requires !StopsAtLong(Labels(Visible(name)))
    ensures PacketEnds(name, post, jumps)
    ensures var ls := BeforeIllegible(Labels(Visible(name)));
            ReadBack(name, post, jumps) == if ls == [] then [DOT] else Dotted(ls)
  {
    var labels := Labels(Visible(name));
    BufferHolds([], labels, post);
    WireIsRead(Buffer([], labels, post), 0, labels, jumps);
    SpelledIsJoined(Buffer([], labels, post), 0, jumps);
    if BeforeIllegible(labels) != [] {
      DottedIsJoined(BeforeIllegible(labels));
    }
  }

  lemma {:induction false} AllLegible(labels: Name)
    ensures (forall l :: l in labels ==> Legible(l)) ==> BeforeIllegible(labels) == labels
    ensures forall l :: l in BeforeIllegible(labels) ==> l in labels && Legible(l)
  {
    if labels != [] {
      AllLegible(labels[1..]);
      assert forall l :: l in labels[1..] ==> l in labels;
      assert labels[0] in labels;
    }
  }

  // A label of 128 octets and more: its length octet is a negative char, a pointer, or what is left
  // of its length, and whatever is then read has a dot too early.

  lemma {:induction false} EarlyDot(chunk: Text, p: nat, jumps: nat)
    requires EndsWithin(chunk, p, jumps)
    ensures FirstDot(Spelled(chunk, p, jumps) + [DOT]) < 128
    decreases jumps, |chunk| - p
  {
    var t := Spelled(chunk, p, jumps) + [DOT];
    if chunk[p] == 0 {
    } else if IsPointer(chunk[p]) {
      EarlyDot(chunk, chunk[p + 1], jumps - 1);
    } else {
      var n: nat := chunk[p];
      assert t[n] == DOT;
      DotComesBy(t, n);
    }
  }

  lemma DotComesBy(t: Text, n: nat)
    requires n < |t| && t[n] == DOT
    ensures FirstDot(t) <= n
  {
    NotAmong(t, FirstDot(t), DOT);
  }

  lemma DottedToLong(labels: Name) returns (more: Text)
    requires StopsAtLong(labels)
    ensures var n := |BeforeIllegible(labels)|;
            Dotted(labels) == Dotted(BeforeIllegible(labels)) + (labels[n] + [DOT] + more)
    decreases |labels|
  {
    if BeforeIllegible(labels) == [] {
      more := Dotted(labels[1..]);
    } else {
      more := DottedToLong(labels[1..]);
      DottedFront(labels[0], BeforeIllegible(labels[1..]));
      Assoc(labels[0] + [DOT], Dotted(BeforeIllegible(labels[1..])), labels[|BeforeIllegible(labels)|] + [DOT] + more);
    }
  }

  lemma DottedFront(l: Text, more: Name)
    ensures Dotted([l] + more) == l + [DOT] + Dotted(more)
  {
    assert ([l] + more)[1..] == more;
  }

  /** What is read of a wire form with a label too long: the labels before it, and then nothing or
      something with a dot among its first 128 octets. */
  lemma {:induction false} LongLabelIsMisread(chunk: Text, p: nat, labels: Name, jumps: nat) returns (u: Text)
    requires StopsAtLong(labels) && HoldsName(chunk, p, labels) && EndsWithin(chunk, p, jumps)
    ensures Spelled(chunk, p, jumps) + [DOT] == Dotted(BeforeIllegible(labels)) + u
    ensures u == [] || FirstDot(u) < 128
    decreases |labels|
  {
    if BeforeIllegible(labels) == [] {
      u := Spelled(chunk, p, jumps) + [DOT];
      EarlyDot(chunk, p, jumps);
    } else {
      var l, tail := labels[0], labels[1..];
      var q := p + 1 + |l|;
      LegibleInFront(chunk, p, labels);
      SpelledInFront(chunk, jumps, p, l);
      if chunk[q] == 0 {
        DottedFront(l, []);
        u := [];
      } else {
        u := LongLabelIsMisread(chunk, q, tail, jumps);
        ShiftDotted(l, Spelled(chunk, q, jumps), BeforeIllegible(tail), u);
      }
    }
  }

  lemma LegibleInFront(chunk: Text, p: nat, labels: Name)
    requires StopsAtLong(labels) && BeforeIllegible(labels) != [] && HoldsName(chunk, p, labels)
    ensures var l, tail := labels[0], labels[1..];
            var q := p + 1 + |l|;
            && Legible(l) && BeforeIllegible(labels) == [l] + BeforeIllegible(tail) && StopsAtLong(tail)
            && q < |chunk| && chunk[p] == |l| && chunk[p + 1..q] == l && HoldsName(chunk, q, tail)
            && (chunk[q] == 0 ==> BeforeIllegible(tail) == [])
  {
    var q := p + 1 + |labels[0]|;
    if Legible(labels[1..][0]) {
      assert chunk[q] == |labels[1..][0]|;
    }
  }

  /** A label in front of what is read from behind it. */
  lemma SpelledInFront(chunk: Text, jumps: nat, p: nat, l: Text)
    requires EndsWithin(chunk, p, jumps)
    requires Legible(l) && p + 1 + |l| < |chunk| && chunk[p] == |l| && chunk[p + 1..p + 1 + |l|] == l
    ensures var q := p + 1 + |l|;
            EndsWithin(chunk, q, jumps) &&
            Spelled(chunk, p, jumps) == if chunk[q] == 0 then l else l + [DOT] + Spelled(chunk, q, jumps)
  {
  }

  lemma ShiftDotted(l: Text, behind: Text, labels: Name, u: Text)
    requires behind + [DOT] == Dotted(labels) + u
    ensures (l + [DOT] + behind) + [DOT] == Dotted([l] + labels) + u
  {
    Assoc(l + [DOT], behind, [DOT]);
    DottedFront(l, labels);
    Assoc(l + [DOT], Dotted(labels), u);
  }

  lemma LateDot(front: Text, long: Text, behind: Text, u: Text)
    requires DOT !in long && |long| >= 128 && (u == [] || FirstDot(u) < 128)
    ensures front + u != front + (long + [DOT] + behind)
  {
    var w := long + [DOT] + behind;
    FirstDotIs(long, behind);
    assert (front + u)[|front|..] == u && (front + w)[|front|..] == w;
  }

  lemma LongLabelStands(name: Text) returns (behind: Text)
    requires StopsAtLong(Labels(Visible(name)))
    ensures var labels := Labels(Visible(name));
            var n := |BeforeIllegible(labels)|;
            name == Dotted(BeforeIllegible(labels)) + (labels[n] + [DOT] + behind) && DOT !in labels[n]
  {
    var v := Visible(name);
    var labels := Labels(v);
    var n := |BeforeIllegible(labels)|;
    var front, long := Dotted(BeforeIllegible(labels)), labels[n];
    var more := DottedToLong(labels);
    LabelsAndRest(v);
    assert long in labels;
    behind := more + (Rest(v) + name[|v|..]);
    assert name == v + name[|v|..];
    Assoc(Dotted(labels), Rest(v), name[|v|..]);
    Assoc(front, long + [DOT] + more, Rest(v) + name[|v|..]);
    Assoc(long + [DOT], more, Rest(v) + name[|v|..]);
  }

  /** So the name is never read back. */
  lemma LongLabelIsNotReadBack(name: Text, post: Text, jumps: nat)
    requires StopsAtLong(Labels(Visible(name))) && PacketEnds(name, post, jumps)
    ensures ReadBack(name, post, jumps) != name
  {
    var labels := Labels(Visible(name));
    var n := |BeforeIllegible(labels)|;
    var behind := LongLabelStands(name);
    BufferHolds([], labels, post);
    var u := LongLabelIsMisread(Buffer([], labels, post), 0, labels, jumps);
    LateDot(Dotted(BeforeIllegible(labels)), labels[n], behind, u);
  }

  lemma {:induction false} DottedIsVisible(labels: Name)
    requires forall l, c :: l in labels && c in l ==> !Stops(c)
    ensures forall c :: c in Dotted(labels) ==> !Stops(c)
  {
    if labels != [] {
      assert labels[0] in labels && (forall m :: m in labels[1..] ==> m in labels);
      DottedIsVisible(labels[1..]);
    }
  }

  lemma AllVisible(s: Text)
    requires forall c :: c in s ==> !Stops(c)
    ensures Visible(s) == s
  {
    forall i | 0 <= i < |s|
      ensures !Stops(s[i])
    {
      assert s[i] in s;
    }
  }

  /** Reading a packet back and appending a dot gives the name again exactly for the names of
      one to 127 octets a label, ended by a dot - and for the dot alone; for every name whose packet
      the parser can finish. */
  lemma RoundTrip(name: Text, post: Text, jumps: nat)
    requires PacketEnds(name, post, jumps)
    ensures ReadBack(name, post, jumps) == name <==> WellFormed(name) || name == [DOT]
  {
    var labels := Labels(Visible(name));
    AllLegible(labels);
    if StopsAtLong(labels) {
      LongLabelIsNotReadBack(name, post, jumps);
      DotAlone();
    } else {
      ShortRoundTrip(name, post, jumps);
    }
  }

  lemma DotAlone()
    ensures Visible([DOT]) == [DOT] && Labels([DOT]) == [[]] && Rest([DOT]) == []
  {
    LabelsCons([], []);
    assert [DOT] == [] + [DOT] + [];
    AllVisible([DOT]);
  }

  /** Only a label of 128 octets or more can keep the parser from ending. */
  lemma ShortRoundTrip(name: Text, post: Text, jumps: nat)
    requires !StopsAtLong(Labels(Visible(name)))
    ensures PacketEnds(name, post, jumps)
    ensures ReadBack(name, post, jumps) == name <==> WellFormed(name) || name == [DOT]
  {
    var labels := Labels(Visible(name));
    var ls := BeforeIllegible(labels);
    ReadBackIs(name, post, jumps);
    AllLegible(labels);
    DotAlone();
    if WellFormed(name) {
      LabelsAndRest(name);
      assert name == Dotted(labels) + [];
    } else if name != [DOT] && ReadBack(name, post, jumps) == name {
      LabelsAndRest(Visible(name));
      LabelsAreVisible(Visible(name));
      DottedIsVisible(ls);
      AllVisible(name);
      LabelsOfDotted(ls, []);
      assert Dotted(ls) + [] == name;
      assert WellFormed(name);
    }
  }

  // ---------------------------------------------------------------------------------------
  // The encoder's loop, and the copies through C strings
  // ---------------------------------------------------------------------------------------

  /** strtopkt on what is left of a text: the octets put out, the label begun, the rest. */
  function Emit(out: Text, run: Text, text: Text): Text
    decreases |text|
  {
    if text == [] || Stops(text[0]) then out + [0]
    else if text[0] != DOT then Emit(out, run + [text[0]], text[1..])
    else Emit(out + ([|run| % 256] + run), [], text[1..])
  }

  lemma VisibleStep(text: Text)
    requires text != [] && !Stops(text[0])
    ensures Visible(text) == [text[0]] + Visible(text[1..])
  {
  }

  lemma WireCons(l: Text, more: Name)
    ensures Wire([l] + more) == ([|l| % 256] + l) + Wire(more)
  {
    assert ([l] + more)[1..] == more;
  }

  lemma LabelsAtDot(run: Text, more: Text)
    requires DOT !in run
    ensures Labels(run + ([DOT] + more)) == [run] + Labels(more)
  {
    Assoc(run, [DOT], more);
    LabelsCons(run, more);
  }

  lemma EmitLabel(out: Text, run: Text, more: Text)
    requires DOT !in run
    ensures out + Wire(Labels(run + ([DOT] + more))) == (out + ([|run| % 256] + run)) + Wire(Labels(more))
  {
    LabelsAtDot(run, more);
    WireCons(run, Labels(more));
    Assoc(out, [|run| % 256] + run, Wire(Labels(more)));
  }

  lemma NothingBefore(s: Text)
    ensures [] + s == s
  {
  }

  lemma EmitRest(out: Text, run: Text)
    requires DOT !in run
    ensures out + Wire(Labels(run + [])) == out
  {
    assert run + [] == run;
    NoDot(run);
  }

  lemma {:induction false} EmitIsWire(out: Text, run: Text, text: Text)
    requires DOT !in run
    ensures Emit(out, run, text) == out + Wire(Labels(run + Visible(text))) + [0]
    decreases |text|
  {
    if text == [] || Stops(text[0]) {
      EmitRest(out, run);
    } else {
      VisibleStep(text);
      if text[0] != DOT {
        EmitIsWire(out, run + [text[0]], text[1..]);
        Assoc(run, [text[0]], Visible(text[1..]));
      } else {
        EmitIsWire(out + ([|run| % 256] + run), [], text[1..]);
        EmitLabel(out, run, Visible(text[1..]));
        NothingBefore(Visible(text[1..]));
      }
    }
  }

  lemma EmitIsPacket(name: Text)
    ensures Emit([], [], name) == Packet(name)
  {
    EmitIsWire([], [], name);
    assert [] + Visible(name) == Visible(name);
    assert [] + Wire(Labels(Visible(name))) == Wire(Labels(Visible(name)));
  }

  lemma EmitStep(out: Text, name: Text, start: nat, end: nat)
    requires start <= end < |name| && !Stops(name[end])
    ensures Emit(out, name[start..end], name[end..])
         == if name[end] != DOT then Emit(out, name[start..end + 1], name[end + 1..])
            else Emit(out + ([(end - start) % 256] + name[start..end]), [], name[end + 1..])
  {
    assert name[end..][1..] == name[end + 1..];
    assert name[start..end] + [name[end]] == name[start..end + 1];
  }

  /** What is encoded ends at the first NUL, line feed or carriage return. */
  lemma EndsAtControl(v: Text, c: Octet, rest: Text)
    requires 0 !in v && 10 !in v && 13 !in v && (c == 0 || c == 10 || c == 13)
    ensures Packet(v + [c] + rest) == Packet(v)
  {
    VisiblePrefix(v, c, rest);
    forall i | 0 <= i < |v|
      ensures !Stops(v[i])
    {
      assert v[i] in v;
    }
  }

  lemma {:induction false} VisiblePrefix(v: Text, c: Octet, rest: Text)
    requires 0 !in v && 10 !in v && 13 !in v && (c == 0 || c == 10 || c == 13)
    ensures Visible(v + [c] + rest) == v && Visible(v) == v
  {
    if v != [] {
      assert (v + [c] + rest)[1..] == v[1..] + [c] + rest;
      VisiblePrefix(v[1..], c, rest);
    }
  }

  /** "a.bc." is 01 61 02 62 63 00. */
  lemma TwoLabels()
    ensures Packet([97, 46, 98, 99, 46]) == [1, 97, 2, 98, 99, 0]
  {
    var name: Text := [97, 46, 98, 99, 46];
    AllVisible(name);
    LabelsOfTwo(97, 98, 99);
    WireOfTwo(97, 98, 99);
  }

  lemma LabelsOfTwo(a: Octet, b: Octet, c: Octet)
    requires a != 46 && b != 46 && c != 46
    ensures Labels([a, 46, b, c, 46]) == [[a], [b, c]]
  {
    assert [a, 46, b, c, 46] == [a] + [DOT] + [b, c, 46] && [b, c, 46] == [b, c] + [DOT] + [];
    LabelsCons([a], [b, c, 46]);
    LabelsCons([b, c], []);
  }

  lemma WireOfTwo(a: Octet, b: Octet, c: Octet)
    ensures Wire([[a], [b, c]]) == [1, a, 2, b, c]
  {
    assert [[a], [b, c]] == [[a]] + [[b, c]] && [[b, c]] == [[b, c]] + [];
    WireCons([a], [[b, c]]);
    WireCons([b, c], []);
  }

  /** strtopkt. */
  method StrToPkt(name: Text) returns (out: Text)
    ensures out == Packet(name)
  {
    out := [];
    var start: nat, end: nat, len: nat := 0, 0, 0;
    EmitIsPacket(name);
    assert name[0..] == name;
    while end < |name| && !Stops(name[end])
      invariant start <= end <= |name| && start + len == end
      invariant Emit(out, name[start..end], name[end..]) == Packet(name)
      decreases |name| - end
    {
      EmitStep(out, name, start, end);
      if name[end] != DOT {
        end, len := end + 1, len + 1;
      } else {
        var charValue: Octet := len % 256;
        out := out + ([charValue] + name[start..start + len]);
        end := end + 1;
        start, len := end, 0;
        assert name[start..end] == [];
      }
    }
    out := out + [0];
  }

  /** A char array after sprintf of "%s": the text up to its first zero, a zero, and whatever
      was there before. */
  function Printed(text: Text, stale: Text): (field: Text)
    requires |text| <= |stale|
  {
    var t := CString(text);
    if |t| < |stale| then t + [0] + stale[|t| + 1..] else t
  }

  /** Copying a packet through such an array keeps it, whatever the array held, exactly when
      its only zero is its last octet. */
  lemma PrintedIsExact(p: Text, size: nat)
    requires p != [] && p[|p| - 1] == 0 && |p| <= size
    ensures OnlyLastIsZero(p) ==> forall stale: Text :: |stale| == size ==> Printed(p, stale)[..|p|] == p
    ensures !OnlyLastIsZero(p) ==> exists stale: Text :: |stale| == size && Printed(p, stale)[..|p|] != p
  {
    var t := CString(p);
    if OnlyLastIsZero(p) {
      assert p == p[..|p| - 1] + [0];
      CStringStopsAt(p[..|p| - 1], [0]);
    } else {
      var k :| 0 <= k < |p| - 1 && p[k] == 0;
      assert p[..|t|] == t;
      NotAmong(p, |t|, 0);
      var stale := seq(size, i requires 0 <= i < size => if i < |p| && p[i] == 7 then 8 else 7);
      assert Printed(p, stale)[|t| + 1] == stale[|t| + 1] != p[|t| + 1];
      assert Printed(p, stale)[..|p|][|t| + 1] != p[|t| + 1];
    }
  }
}
