/**
The two loops of the base64 codec: characters appended one at a time behind a moving output
index, the bits of an unfinished group kept in ch. Each is proved against the definitions of
Base64, the decoder also when it writes over its own input.
*/
module Base64Loops {
  import opened Octets
  import opened Sequences
  import opened Base64

  // ---------------------------------------------------------------------------------------
  // One more octet, one more code
  // ---------------------------------------------------------------------------------------

  /** v with its last element replaced by w. */
  function Relast<T>(v: seq<T>, w: seq<T>): seq<T>
    requires v != []
  {
    v[..|v| - 1] + w
  }

  function Tip<T>(v: seq<T>): T
    requires v != []
  {
    v[|v| - 1]
  }

  lemma RelastBehind<T>(p: seq<T>, v: seq<T>, w: seq<T>)
    requires v != []
    ensures p + v != [] && Relast(p + v, w) == p + Relast(v, w) && Tip(p + v) == Tip(v)
  {
  }

  // The parts of an octet and of a code that fall into one group or octet, as C writes them.

  function TopSix(c: Byte): Byte { Byte(c.bits >> 2) }

  function LowTwo(c: Byte): Byte { Byte((c.bits & 3) << 4) }

  function WithTopFour(ch: Byte, c: Byte): Byte { Byte(ch.bits | (c.bits >> 4)) }

  function LowFour(c: Byte): Byte { Byte((c.bits & 15) << 2) }

  function WithTopTwo(ch: Byte, c: Byte): Byte { Byte(ch.bits | (c.bits >> 6)) }

  function LowSix(c: Byte): Byte { Byte(c.bits & 63) }

  function CodeUp(c: Byte): Byte { Byte(c.bits << 2) }

  function CodeLowFour(c: Byte): Byte { Byte((c.bits & 15) << 4) }

  function WithCodeTop(ch: Byte, c: Byte): Byte { Byte(ch.bits | (c.bits >> 2)) }

  function CodeLowTwo(c: Byte): Byte { Byte((c.bits & 3) << 6) }

  function WithCode(ch: Byte, c: Byte): Byte { Byte(ch.bits | c.bits) }

  /** What one more octet adds: it opens a group, or completes the one begun. */
  function OneMoreOctet(v: Bytes, phase: nat, c: Byte): Bytes
    requires phase == 0 || v != []
  {
    if phase == 0 then v + [TopSix(c), LowTwo(c)]
    else if phase == 1 then Relast(v, [WithTopFour(Tip(v), c), LowFour(c)])
    else Relast(v, [WithTopTwo(Tip(v), c), LowSix(c)])
  }

  lemma OpenGroup(c: Byte)
    ensures GroupOfOne(c) == [TopSix(c), LowTwo(c)]
  {
  }

  lemma SecondInGroup(a: Byte, c: Byte)
    ensures GroupOfTwo(a, c) == OneMoreOctet(GroupOfOne(a), 1, c)
  {
  }

  lemma SameFront(a: Byte, b: Byte, c: Byte)
    ensures First(Group(a, b, c)) == First(Group(a, b, ZERO)) && Second(Group(a, b, c)) == Second(Group(a, b, ZERO))
  {
  }

  lemma NewBack(a: Byte, b: Byte, c: Byte)
    ensures Third(Group(a, b, c)) == WithTopTwo(Third(Group(a, b, ZERO)), c) && Fourth(Group(a, b, c)) == LowSix(c)
  {
  }

  lemma ThirdInGroup(a: Byte, b: Byte, c: Byte)
    ensures GroupOfThree(a, b, c) == OneMoreOctet(GroupOfTwo(a, b), 2, c)
  {
    SameFront(a, b, c);
    NewBack(a, b, c);
  }

  lemma ExtendNone(x: Bytes, c: Byte)
    requires |x| == 0
    ensures Sextets(x + [c]) == OneMoreOctet(Sextets(x), 0, c)
  {
    OpenGroup(c);
  }

  lemma ExtendOne(x: Bytes, c: Byte)
    requires |x| == 1
    ensures Sextets(x + [c]) == OneMoreOctet(Sextets(x), 1, c)
  {
    SecondInGroup(x[0], c);
  }

  lemma ExtendTwo(x: Bytes, c: Byte)
    requires |x| == 2
    ensures Sextets(x + [c]) == OneMoreOctet(Sextets(x), 2, c)
  {
    ThirdInGroup(x[0], x[1], c);
    SextetsOfThree(x[0], x[1], c, []);
    assert x + [c] == [x[0], x[1], c] + [];
  }

  lemma OneMoreBehind(p: Bytes, v: Bytes, phase: nat, c: Byte)
    requires phase == 0 || v != []
    ensures p + OneMoreOctet(v, phase, c) == OneMoreOctet(p + v, phase, c)
  {
    if phase == 0 {
      Assoc(p, v, [TopSix(c), LowTwo(c)]);
    } else if phase == 1 {
      RelastBehind(p, v, [WithTopFour(Tip(v), c), LowFour(c)]);
    } else {
      RelastBehind(p, v, [WithTopTwo(Tip(v), c), LowSix(c)]);
    }
  }

  lemma ExtendBehind(p: Byte, q: Byte, r: Byte, x: Bytes, c: Byte, phase: nat)
    requires phase == 0 || Sextets(x) != []
    requires Sextets(x + [c]) == OneMoreOctet(Sextets(x), phase, c)
    ensures phase == 0 || Sextets([p, q, r] + x) != []
    ensures Sextets([p, q, r] + (x + [c])) == OneMoreOctet(Sextets([p, q, r] + x), phase, c)
  {
    SextetsOfThree(p, q, r, x);
    SextetsOfThree(p, q, r, x + [c]);
    OneMoreBehind(GroupOfThree(p, q, r), Sextets(x), phase, c);
  }

  lemma {:induction false} Extend(x: Bytes, c: Byte, groups: nat, phase: nat)
    requires |x| == 3 * groups + phase && phase < 3
    ensures phase == 0 || Sextets(x) != []
    ensures Sextets(x + [c]) == OneMoreOctet(Sextets(x), phase, c)
  {
    if groups > 0 {
      Extend(x[3..], c, groups - 1, phase);
      ExtendBehind(x[0], x[1], x[2], x[3..], c, phase);
      assert x == [x[0], x[1], x[2]] + x[3..] && x + [c] == [x[0], x[1], x[2]] + (x[3..] + [c]);
    } else if phase == 0 {
      ExtendNone(x, c);
    } else if phase == 1 {
      ExtendOne(x, c);
    } else {
      ExtendTwo(x, c);
    }
  }

  // ---------------------------------------------------------------------------------------
  // One more code
  // ---------------------------------------------------------------------------------------

  /** What one more code adds to the octets: the second of four only completes the first's. */
  function OneMoreCode(u: Bytes, phase: nat, last: Byte, c: Byte): Bytes
    requires phase != 1 || u != []
  {
    if phase == 0 then u + [CodeUp(c)]
    else if phase == 1 then Relast(u, [WithTopFour(Tip(u), c)])
    else if phase == 2 then u + [WithCodeTop(CodeLowFour(last), c)]
    else u + [WithCode(CodeLowTwo(last), c)]
  }

  lemma CodeBehind(p: Bytes, u: Bytes, phase: nat, last: Byte, c: Byte)
    requires phase != 1 || u != []
    ensures p + OneMoreCode(u, phase, last, c) == OneMoreCode(p + u, phase, last, c)
  {
    if phase == 0 {
      Assoc(p, u, [CodeUp(c)]);
    } else if phase == 1 {
      RelastBehind(p, u, [WithTopFour(Tip(u), c)]);
    } else if phase == 2 {
      Assoc(p, u, [WithCodeTop(CodeLowFour(last), c)]);
    } else {
      Assoc(p, u, [WithCode(CodeLowTwo(last), c)]);
    }
  }

  lemma UnpackNone(v: Bytes, c: Byte)
    requires |v| == 0
    ensures Unpack(v + [c]) == OneMoreCode(Unpack(v), 0, ZERO, c)
  {
  }

  lemma UnpackOne(v: Bytes, c: Byte)
    requires |v| == 1
    ensures Unpack(v + [c]) == OneMoreCode(Unpack(v), 1, v[0], c)
  {
  }

  lemma UnpackTwo(v: Bytes, c: Byte)
    requires |v| == 2
    ensures Unpack(v + [c]) == OneMoreCode(Unpack(v), 2, v[1], c)
  {
  }

  lemma UnpackThree(v: Bytes, c: Byte)
    requires |v| == 3
    ensures Unpack(v + [c]) == OneMoreCode(Unpack(v), 3, v[2], c)
  {
    assert v + [c] == [v[0], v[1], v[2], c] + [];
    LastOfFour(v[0], v[1], v[2], c);
    assert Unpack(v) == [Octet1(v[0], v[1]), Octet2(v[1], v[2])];
  }

  lemma LastOfFour(p: Byte, q: Byte, r: Byte, t: Byte)
    ensures Unpack([p, q, r, t] + []) == [Octet1(p, q), Octet2(q, r)] + [WithCode(CodeLowTwo(r), t)]
  {
    UnpackFour(p, q, r, t, []);
  }

  lemma UnpackBehind(p: Byte, q: Byte, r: Byte, t: Byte, v: Bytes, c: Byte, phase: nat, last: Byte)
    requires phase != 1 || Unpack(v) != []
    requires Unpack(v + [c]) == OneMoreCode(Unpack(v), phase, last, c)
    ensures phase != 1 || Unpack([p, q, r, t] + v) != []
    ensures Unpack([p, q, r, t] + (v + [c])) == OneMoreCode(Unpack([p, q, r, t] + v), phase, last, c)
  {
    UnpackFour(p, q, r, t, v);
    UnpackFour(p, q, r, t, v + [c]);
    CodeBehind([Octet1(p, q), Octet2(q, r), Octet3(r, t)], Unpack(v), phase, last, c);
  }

  lemma {:induction false} UnpackMore(v: Bytes, c: Byte, last: Byte, groups: nat, phase: nat)
    requires |v| == 4 * groups + phase && phase < 4
    requires v != [] ==> last == v[|v| - 1]
    ensures phase == 1 ==> Unpack(v) != []
    ensures Unpack(v + [c]) == OneMoreCode(Unpack(v), phase, last, c)
  {
    if groups > 0 {
      UnpackMore(v[4..], c, last, groups - 1, phase);
      var four := [v[0], v[1], v[2], v[3]];
      UnpackBehind(v[0], v[1], v[2], v[3], v[4..], c, phase, last);
      assert v == four + v[4..] && v + [c] == four + (v[4..] + [c]);
    } else if phase == 0 {
      UnpackNone(v, c);
    } else if phase == 1 {
      UnpackOne(v, c);
    } else if phase == 2 {
      UnpackTwo(v, c);
    } else {
      UnpackThree(v, c);
    }
  }

  // ---------------------------------------------------------------------------------------
  // Encoding
  // ---------------------------------------------------------------------------------------

  /** What the loop has written, and holds in ch, after the octets x. */
  ghost predicate Encoding(x: Bytes, phase: nat, written: Bytes, ch: Byte) {
    var v := Sextets(x);
    if phase == 0 then written == Chars(v)
    else v != [] && written + [Alphabet(ch)] == Chars(v) && ch == Tip(v)
  }

  lemma CharsMore(v: Bytes, w: Bytes)
    ensures Chars(v + w) == Chars(v) + Chars(w)
  {
  }

  lemma CharsRelast(v: Bytes, written: Bytes, ch: Byte, w: Bytes)
    requires v != [] && written + [Alphabet(ch)] == Chars(v)
    ensures Chars(Relast(v, w)) == written + Chars(w)
  {
    var u := v[..|v| - 1];
    CharsMore(u, [Tip(v)]);
    CharsMore(u, w);
    assert v == u + [Tip(v)];
    assert written == (written + [Alphabet(ch)])[..|u|] == Chars(v)[..|u|] == Chars(u);
  }

  lemma CharsTwo(written: Bytes, p: Byte, q: Byte)
    ensures written + Chars([p, q]) == (written + [Alphabet(p)]) + [Alphabet(q)]
  {
    assert Chars([p, q]) == [Alphabet(p), Alphabet(q)];
  }

  /** The characters written for the octet c, and the bits kept, in each phase of a group. */
  function Emitted(phase: nat, ch: Byte, c: Byte): Bytes {
    if phase == 0 then [Alphabet(TopSix(c))]
    else if phase == 1 then [Alphabet(WithTopFour(ch, c))]
    else [Alphabet(WithTopTwo(ch, c)), Alphabet(LowSix(c))]
  }

  function Kept(phase: nat, ch: Byte, c: Byte): Byte {
    if phase == 0 then LowTwo(c) else if phase == 1 then LowFour(c) else ch
  }

  lemma Opened(x: Bytes, c: Byte, groups: nat, written: Bytes, ch: Byte)
    requires |x| == 3 * groups && Encoding(x, 0, written, ch)
    ensures Encoding(x + [c], 1, written + Emitted(0, ch, c), Kept(0, ch, c))
  {
    var p, q := TopSix(c), LowTwo(c);
    Extend(x, c, groups, 0);
    CharsMore(Sextets(x), [p, q]);
    CharsTwo(written, p, q);
    assert Tip(Sextets(x) + [p, q]) == q;
  }

  lemma Carried(x: Bytes, c: Byte, groups: nat, written: Bytes, ch: Byte)
    requires |x| == 3 * groups + 1 && Encoding(x, 1, written, ch)
    ensures Encoding(x + [c], 2, written + Emitted(1, ch, c), Kept(1, ch, c))
  {
    var p, q := WithTopFour(ch, c), LowFour(c);
    Extend(x, c, groups, 1);
    CharsRelast(Sextets(x), written, ch, [p, q]);
    CharsTwo(written, p, q);
    assert Tip(Relast(Sextets(x), [p, q])) == q;
  }

  lemma Closed(x: Bytes, c: Byte, groups: nat, written: Bytes, ch: Byte)
    requires |x| == 3 * groups + 2 && Encoding(x, 2, written, ch)
    ensures Encoding(x + [c], 0, written + Emitted(2, ch, c), Kept(2, ch, c))
  {
    var p, q := WithTopTwo(ch, c), LowSix(c);
    Extend(x, c, groups, 2);
    CharsRelast(Sextets(x), written, ch, [p, q]);
    assert Chars([p, q]) == [Alphabet(p), Alphabet(q)];
  }

  function NextPhase(phase: nat): nat {
    if phase == 2 then 0 else phase + 1
  }

  lemma NextPhaseIs(i: nat)
    ensures i == 3 * (i / 3) + i % 3 && (i + 1) % 3 == NextPhase(i % 3)
  {
  }

  lemma EncodingMore(x: Bytes, c: Byte, groups: nat, phase: nat, written: Bytes, ch: Byte)
    requires |x| == 3 * groups + phase && phase < 3 && Encoding(x, phase, written, ch)
    ensures Encoding(x + [c], NextPhase(phase), written + Emitted(phase, ch, c), Kept(phase, ch, c))
  {
    if phase == 0 {
      Opened(x, c, groups, written, ch);
    } else if phase == 1 {
      Carried(x, c, groups, written, ch);
    } else {
      Closed(x, c, groups, written, ch);
    }
  }

  // The encoder as a state machine: one step for each octet read.

  datatype Writer = Writer(written: Bytes, ch: Byte, count: nat)

  const EMPTY: Writer := Writer([], ZERO, 0)

  function TakeOctet(w: Writer, c: Byte): Writer {
    var phase := w.count % 3;
    Writer(w.written + Emitted(phase, w.ch, c), Kept(phase, w.ch, c), w.count + 1)
  }

  function Feed(w: Writer, x: Bytes): Writer
    decreases |x|
  {
    if x == [] then w else Feed(TakeOctet(w, x[0]), x[1..])
  }

  function Closing(ch: Byte, pad: nat): Bytes
    requires pad <= 2
  {
    (if pad == 0 then [] else [Alphabet(ch)]) + [PAD, PAD][..pad]
  }

  function Missing(phase: nat): nat {
    if phase % 3 == 0 then 0 else 3 - phase % 3
  }

  lemma EncodingDone(x: Bytes, written: Bytes, ch: Byte)
    requires Encoding(x, |x| % 3, written, ch)
    ensures Encode(x) == written + Closing(ch, Missing(|x|))
  {
    assert Padding(|x|) == [PAD, PAD][..Missing(|x|)];
  }

  /** w is where the encoder stands after the octets x. */
  ghost predicate StandsBehind(w: Writer, x: Bytes) {
    w.count == |x| && Encoding(x, w.count % 3, w.written, w.ch)
  }

  lemma StandsBehindMore(w: Writer, x: Bytes, c: Byte)
    requires StandsBehind(w, x)
    ensures StandsBehind(TakeOctet(w, c), x + [c])
  {
    NextPhaseIs(|x|);
    EncodingMore(x, c, |x| / 3, |x| % 3, w.written, w.ch);
  }

  lemma {:induction false} FeedEncodes(w: Writer, x: Bytes, seen: Bytes)
    requires StandsBehind(w, seen)
    decreases |x|
    ensures StandsBehind(Feed(w, x), seen + x)
  {
    if x == [] {
      assert seen + x == seen;
    } else {
      StandsBehindMore(w, seen, x[0]);
      FeedEncodes(TakeOctet(w, x[0]), x[1..], seen + [x[0]]);
      assert seen + x == (seen + [x[0]]) + x[1..];
    }
  }

  /** The state machine computes the standard's encoding. */
  lemma FeedIsEncode(x: Bytes)
    ensures var w := Feed(EMPTY, x); w.count == |x| && w.written + Closing(w.ch, Missing(|x|)) == Encode(x)
  {
    assert [] + x == x;
    FeedEncodes(EMPTY, x, []);
    EncodingDone(x, Feed(EMPTY, x).written, Feed(EMPTY, x).ch);
  }

  lemma {:induction false} FeedGrows(w: Writer, x: Bytes)
    decreases |x|
    ensures |w.written| <= |Feed(w, x).written|
  {
    if x != [] {
      FeedGrows(TakeOctet(w, x[0]), x[1..]);
    }
  }

  lemma FeedFrom(w: Writer, x: Bytes, i: nat)
    requires i < |x|
    ensures Feed(w, x[i..]) == Feed(TakeOctet(w, x[i]), x[i + 1..])
    ensures |w.written| <= |TakeOctet(w, x[i]).written| <= |Feed(w, x[i..]).written|
  {
    assert x[i..][1..] == x[i + 1..];
    FeedGrows(TakeOctet(w, x[i]), x[i + 1..]);
  }

  /** The program's *optr++ = c. */
  method PutByte(buf: array<Byte>, at: nat, c: Byte) returns (next: nat)
    requires at < buf.Length
    modifies buf
    ensures next == at + 1 && buf[..next] == old(buf[..at]) + [c]
    ensures forall k :: next <= k < buf.Length ==> buf[k] == old(buf[k])
  {
    buf[at] := c;
    next := at + 1;
  }

  /** The body of b64encode's loop, on the octet c at index i. */
  method EmitOctet(c: Byte, output: array<Byte>, o: nat, ghost w: Writer, ch: Byte, i: nat)
    returns (next: nat, carry: Byte, pad: nat)
    requires o == |w.written| && ch == w.ch && i == w.count
    requires |TakeOctet(w, c).written| <= output.Length
    requires o <= output.Length && output[..o] == w.written
    modifies output
    ensures next == |TakeOctet(w, c).written| && output[..next] == TakeOctet(w, c).written
    ensures carry == TakeOctet(w, c).ch && pad == Missing(i + 1)
    ensures forall k :: next <= k < output.Length ==> output[k] == old(output[k])
  {
    carry := ch;
    if i % 3 == 0 {
      next := PutByte(output, o, Alphabet(TopSix(c)));
      carry, pad := LowTwo(c), 2;
    } else if i % 3 == 1 {
      next := PutByte(output, o, Alphabet(WithTopFour(ch, c)));
      carry, pad := LowFour(c), 1;
    } else {
      next := PutByte(output, o, Alphabet(WithTopTwo(ch, c)));
      next := PutByte(output, next, Alphabet(LowSix(c)));
      pad := 0;
    }
  }

  /** The end of b64encode: the group begun, pad characters '=', and the NUL. */
  method CloseText(output: array<Byte>, o: nat, ch: Byte, pad0: nat) returns (outlen: nat)
    requires pad0 <= 2 && o + |Closing(ch, pad0)| < output.Length
    modifies output
    ensures outlen == o + |Closing(ch, pad0)| && output[outlen] == ZERO
    ensures output[..outlen] == old(output[..o]) + Closing(ch, pad0)
    ensures forall k :: outlen < k < output.Length ==> output[k] == old(output[k])
  {
    var pad := pad0;
    outlen := o;
    if pad > 0 {
      outlen := PutByte(output, outlen, Alphabet(ch));
    }
    ghost var text := output[..outlen];
    while pad > 0
      invariant 0 <= pad <= pad0 && outlen == |text| + pad0 - pad
      invariant output[..outlen] == text + [PAD, PAD][..pad0 - pad]
      invariant forall k :: outlen <= k < output.Length ==> output[k] == old(output[k])
    {
      outlen := PutByte(output, outlen, PAD);
      pad := pad - 1;
    }
    output[outlen] := ZERO;
  }

  /** b64encode: the text is the standard's encoding, closed by a NUL; nothing behind that is
      touched. For an empty input only the NUL is written and *outlen is left alone. */
  method Encode64(inp: array<Byte>, inlen: int, output: array<Byte>, outlen0: nat) returns (outlen: nat)
    requires inp != output && inlen <= inp.Length
    requires output.Length > (if inlen <= 0 then 0 else (inlen + 2) / 3 * 4)
    modifies output
    ensures inlen <= 0 ==> outlen == outlen0 && output[0] == ZERO
    ensures inlen > 0 ==> outlen < output.Length && output[..outlen] == Encode(inp[..inlen]) && output[outlen] == ZERO
    ensures forall k :: (if inlen <= 0 then 0 else outlen) < k < output.Length ==> output[k] == old(output[k])
  {
    if inlen <= 0 {
      output[0] := ZERO;
      return outlen0;
    }
    ghost var x, w := inp[..inlen], EMPTY;
    ghost var end := Feed(w, x);
    FeedIsEncode(x);
    PaddedLength(inlen);
    var i, pad, ch, o := 0, 0, ZERO, 0;
    assert x[0..] == x;
    while i < inlen
      invariant 0 <= i <= inlen && pad == Missing(i) && w == Writer(w.written, ch, i) && Feed(w, x[i..]) == end
      invariant o == |w.written| && o <= output.Length && output[..o] == w.written
      invariant forall k :: o <= k < output.Length ==> output[k] == old(output[k])
    {
      FeedFrom(w, x, i);
      o, ch, pad := EmitOctet(inp[i], output, o, w, ch, i);
      i, w := i + 1, TakeOctet(w, x[i]);
    }
    outlen := CloseText(output, o, ch, pad);
  }

  // ---------------------------------------------------------------------------------------
  // Decoding
  // ---------------------------------------------------------------------------------------

  ghost predicate Decoding(v: Bytes, phase: nat, written: Bytes, ch: Byte) {
    if phase == 1 then Unpack(v) == written + [ch]
    else
      && Unpack(v) == written
      && (phase == 0 ==> ch == ZERO)
      && (phase >= 2 ==> v != [])
      && (phase == 2 ==> ch == CodeLowFour(Tip(v)))
      && (phase == 3 ==> ch == CodeLowTwo(Tip(v)))
  }

  function Produced(phase: nat, ch: Byte, c: Byte): (w: Bytes)
    ensures |w| <= 1
  {
    if phase == 0 then []
    else if phase == 1 then [WithTopFour(ch, c)]
    else if phase == 2 then [WithCodeTop(ch, c)]
    else [WithCode(ch, c)]
  }

  function Saved(phase: nat, c: Byte): Byte {
    if phase == 0 then CodeUp(c)
    else if phase == 1 then CodeLowFour(c)
    else if phase == 2 then CodeLowTwo(c)
    else ZERO
  }

  function PhaseAfter(phase: nat): nat {
    if phase == 3 then 0 else phase + 1
  }

  lemma FirstCode(v: Bytes, c: Byte, groups: nat, written: Bytes, ch: Byte)
    requires |v| == 4 * groups && Decoding(v, 0, written, ch)
    ensures Decoding(v + [c], 1, written + Produced(0, ch, c), Saved(0, c))
  {
    UnpackMore(v, c, if v == [] then ZERO else Tip(v), groups, 0);
    assert written + [] == written;
  }

  lemma SecondCode(v: Bytes, c: Byte, groups: nat, written: Bytes, ch: Byte)
    requires |v| == 4 * groups + 1 && Decoding(v, 1, written, ch)
    ensures Decoding(v + [c], 2, written + Produced(1, ch, c), Saved(1, c))
  {
    UnpackMore(v, c, Tip(v), groups, 1);
    assert Tip(written + [ch]) == ch && (written + [ch])[..|written|] == written;
    assert Tip(v + [c]) == c;
  }

  lemma ThirdCode(v: Bytes, c: Byte, groups: nat, written: Bytes, ch: Byte)
    requires |v| == 4 * groups + 2 && Decoding(v, 2, written, ch)
    ensures Decoding(v + [c], 3, written + Produced(2, ch, c), Saved(2, c))
  {
    UnpackMore(v, c, Tip(v), groups, 2);
    assert Tip(v + [c]) == c;
  }

  lemma FourthCode(v: Bytes, c: Byte, groups: nat, written: Bytes, ch: Byte)
    requires |v| == 4 * groups + 3 && Decoding(v, 3, written, ch)
    ensures Decoding(v + [c], 0, written + Produced(3, ch, c), Saved(3, c))
  {
    UnpackMore(v, c, Tip(v), groups, 3);
  }

  lemma DecodingMore(v: Bytes, c: Byte, groups: nat, phase: nat, written: Bytes, ch: Byte)
    requires |v| == 4 * groups + phase && phase < 4 && Decoding(v, phase, written, ch)
    ensures Decoding(v + [c], PhaseAfter(phase), written + Produced(phase, ch, c), Saved(phase, c))
  {
    if phase == 0 {
      FirstCode(v, c, groups, written, ch);
    } else if phase == 1 {
      SecondCode(v, c, groups, written, ch);
    } else if phase == 2 {
      ThirdCode(v, c, groups, written, ch);
    } else {
      FourthCode(v, c, groups, written, ch);
    }
  }

  // The decoder as a state machine: one step for each character read.

  datatype Reader = Reader(written: Bytes, ch: Byte, coff: nat, flush: bool)

  const START: Reader := Reader([], ZERO, 0, true)

  function TakeCode(r: Reader, c: Byte): Reader {
    var phase := r.coff % 4;
    Reader(r.written + Produced(phase, r.ch, c), Saved(phase, c), r.coff + 1, phase == 0)
  }

  function TakeCharacter(r: Reader, c: Byte): Reader {
    match DecodeCode(c)
    case None => r
    case Some(code) => TakeCode(r, code)
  }

  function Scan(r: Reader, s: Bytes): Reader
    decreases |s|
  {
    if s == [] || s[0] == PAD then r else Scan(TakeCharacter(r, s[0]), s[1..])
  }

  function Result(r: Reader): Bytes {
    if r.flush then r.written + [r.ch] else r.written
  }

  /** r is where the decoder stands after the codes v. */
  ghost predicate StandsAfter(r: Reader, v: Bytes) {
    && r.coff == |v|
    && Decoding(v, r.coff % 4, r.written, r.ch)
    && r.flush == (v == [] || r.coff % 4 == 1)
  }

  lemma PhaseIs(n: nat)
    ensures n == 4 * (n / 4) + n % 4 && (n + 1) % 4 == PhaseAfter(n % 4)
  {
  }

  lemma StandsAfterMore(r: Reader, v: Bytes, c: Byte)
    requires StandsAfter(r, v)
    ensures StandsAfter(TakeCode(r, c), v + [c])
  {
    PhaseIs(|v|);
    DecodingMore(v, c, |v| / 4, |v| % 4, r.written, r.ch);
  }

  lemma {:induction false} CodesBehind(v: Bytes, s: Bytes)
    ensures v + Codes(s) == if s == [] || s[0] == PAD then v
                            else if DecodeCode(s[0]).Some? then (v + [DecodeCode(s[0]).value]) + Codes(s[1..])
                            else v + Codes(s[1..])
  {
    if s != [] && s[0] != PAD && DecodeCode(s[0]).Some? {
      Assoc(v, [DecodeCode(s[0]).value], Codes(s[1..]));
    }
  }

  lemma {:induction false} ScanTakesCodes(r: Reader, s: Bytes, v: Bytes)
    requires StandsAfter(r, v)
    decreases |s|
    ensures StandsAfter(Scan(r, s), v + Codes(s))
  {
    CodesBehind(v, s);
    if s == [] || s[0] == PAD {
    } else if DecodeCode(s[0]).Some? {
      var c := DecodeCode(s[0]).value;
      StandsAfterMore(r, v, c);
      ScanTakesCodes(TakeCode(r, c), s[1..], v + [c]);
    } else {
      ScanTakesCodes(r, s[1..], v);
    }
  }

  lemma ResultOfCodes(r: Reader, v: Bytes)
    requires StandsAfter(r, v)
    ensures Result(r) == if v == [] then [ZERO] else Unpack(v)
  {
  }

  /** The state machine computes what the input stands for. */
  lemma ScanIsDecode(s: Bytes)
    ensures Result(Scan(START, s)) == Decode(s)
  {
    assert [] + Codes(s) == Codes(s);
    ScanTakesCodes(START, s, []);
    ResultOfCodes(Scan(START, s), Codes(s));
  }

  /** Octets written are never taken back. */
  lemma {:induction false} ScanGrows(r: Reader, s: Bytes)
    decreases |s|
    ensures |r.written| <= |Scan(r, s).written|
  {
    if s != [] && s[0] != PAD {
      ScanGrows(TakeCharacter(r, s[0]), s[1..]);
    }
  }

  lemma ScanFrom(r: Reader, s: Bytes, i: nat)
    requires i < |s| && s[i] != PAD
    ensures Scan(r, s[i..]) == Scan(TakeCharacter(r, s[i]), s[i + 1..])
    ensures |TakeCharacter(r, s[i]).written| <= |Scan(r, s[i..]).written|
    ensures |r.written| <= |TakeCharacter(r, s[i]).written| <= |r.written| + 1
  {
    assert s[i..][1..] == s[i + 1..];
    ScanGrows(TakeCharacter(r, s[i]), s[i + 1..]);
  }

  /** The switch in b64decode's loop, on the code of a character. */
  method StoreCode(code: Byte, output: array<Byte>, o: nat, ghost r: Reader, ch: Byte, coff: nat)
    returns (next: nat, carry: Byte, flush: bool)
    requires o == |r.written| && ch == r.ch && coff == r.coff
    requires |TakeCode(r, code).written| <= output.Length
    requires o <= output.Length && output[..o] == r.written
    modifies output
    ensures next == |TakeCode(r, code).written| && output[..next] == TakeCode(r, code).written
    ensures carry == TakeCode(r, code).ch && flush == TakeCode(r, code).flush
    ensures forall k :: next <= k < output.Length ==> output[k] == old(output[k])
  {
    next := o;
    if coff % 4 == 0 {
      carry, flush := CodeUp(code), true;
    } else if coff % 4 == 1 {
      next := PutByte(output, o, WithTopFour(ch, code));
      carry, flush := CodeLowFour(code), false;
    } else if coff % 4 == 2 {
      next := PutByte(output, o, WithCodeTop(ch, code));
      carry, flush := CodeLowTwo(code), false;
    } else {
      next := PutByte(output, o, WithCode(ch, code));
      carry, flush := ZERO, false;
    }
  }

  /** The end of b64decode: the octet begun, when it is to be flushed, and the NUL. */
  method CloseOctets(output: array<Byte>, o: nat, ch: Byte, flush: bool) returns (outlen: nat)
    requires o + (if flush then 1 else 0) < output.Length
    modifies output
    ensures outlen == o + (if flush then 1 else 0) && output[outlen] == ZERO
    ensures output[..outlen] == old(output[..o]) + (if flush then [ch] else [])
    ensures forall k :: outlen < k < output.Length ==> output[k] == old(output[k])
  {
    outlen := o;
    if flush {
      outlen := PutByte(output, o, ch);
    }
    output[outlen] := ZERO;
  }

  /** The loop of b64decode. The output may be the input buffer itself: the write index never
      passes the read index. */
  method DecodeLoop(inp: array<Byte>, inlen: nat, output: array<Byte>)
    returns (o: nat, ch: Byte, flush: bool, ghost r: Reader)
    requires inlen <= inp.Length && |Scan(START, inp[..inlen]).written| <= output.Length
    modifies output
    ensures r == Scan(START, old(inp[..inlen])) && r.ch == ch && r.flush == flush
    ensures o == |r.written| <= output.Length && output[..o] == r.written
    ensures forall k :: o <= k < output.Length ==> output[k] == old(output[k])
  {
    ghost var s := inp[..inlen];
    ghost var end := Scan(START, s);
    var i, coff := 0, 0;
    o, ch, flush, r := 0, ZERO, true, START;
    assert s[0..] == s;
    while i < inlen
      invariant 0 <= i <= inlen && r == Reader(r.written, ch, coff, flush) && Scan(r, s[i..]) == end
      invariant o == |r.written| <= i && o <= output.Length && output[..o] == r.written
      invariant forall k :: i <= k < inlen ==> inp[k] == s[k]
      invariant forall k :: o <= k < output.Length ==> output[k] == old(output[k])
    {
      if inp[i] == PAD {
        break;
      }
      ScanFrom(r, s, i);
      var code := DecodeCode(inp[i]);
      if code.Some? {
        o, ch, flush := StoreCode(code.value, output, o, r, ch, coff);
        coff := coff + 1;
      }
      i, r := i + 1, TakeCharacter(r, s[i]);
    }
  }

  /** b64decode: the octets its input stands for, then a NUL; nothing behind that is touched. */
  method Decode64(inp: array<Byte>, inlen: int, output: array<Byte>, outlen0: nat) returns (outlen: nat)
    requires inlen <= inp.Length
    requires output.Length > (if inlen <= 0 then 0 else |Decode(inp[..inlen])|)
    modifies output
    ensures inlen <= 0 ==> outlen == outlen0 && output[0] == ZERO
    ensures inlen > 0 ==> outlen < output.Length && output[outlen] == ZERO
    ensures inlen > 0 ==> output[..outlen] == Decode(old(inp[..inlen]))
    ensures forall k :: (if inlen <= 0 then 0 else outlen) < k < output.Length ==> output[k] == old(output[k])
  {
    if inlen <= 0 {
      output[0] := ZERO;
      return outlen0;
    }
    ScanIsDecode(inp[..inlen]);
    var o, ch, flush, _ := DecodeLoop(inp, inlen, output);
    outlen := CloseOctets(output, o, ch, flush);
  }
}
