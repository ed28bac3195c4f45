/**
The checksum of a PAKO archive (Lab2/README.md): the XOR of the content's 8-byte little-endian
words, the last one filled with zeros; split into its eight byte lanes, and what it detects.
*/
module PakoChecksum {
  import opened Octets

  datatype Word = Word(bits: bv64)

  const NOTHING: Word := Word(0)

  function At(c: Bytes, i: nat): Byte {
    if i < |c| then c[i] else ZERO
  }

  /** Eight bytes of memory, read as a little-endian uint64_t. */
  function Load(b0: Byte, b1: Byte, b2: Byte, b3: Byte, b4: Byte, b5: Byte, b6: Byte, b7: Byte): Word {
    Word((b0.bits as bv64) | ((b1.bits as bv64) << 8) | ((b2.bits as bv64) << 16) | ((b3.bits as bv64) << 24)
         | ((b4.bits as bv64) << 32) | ((b5.bits as bv64) << 40) | ((b6.bits as bv64) << 48) | ((b7.bits as bv64) << 56))
  }

  function WordAt(c: Bytes, p: nat): Word {
    Load(At(c, p), At(c, p + 1), At(c, p + 2), At(c, p + 3), At(c, p + 4), At(c, p + 5), At(c, p + 6), At(c, p + 7))
  }

  function Xor(v: Word, w: Word): Word {
    Word(v.bits ^ w.bits)
  }

  function XorAll(ws: seq<Word>): Word {
    if ws == [] then NOTHING else Xor(XorAll(ws[..|ws| - 1]), ws[|ws| - 1])
  }

  /** Every eight bytes of the content, the last segment filled with zeros. */
  function Segments(c: Bytes): (ws: seq<Word>)
    ensures |ws| == (|c| + 7) / 8
  {
    seq((|c| + 7) / 8, k requires 0 <= k < (|c| + 7) / 8 => WordAt(c, 8 * k))
  }

  function Checksum(c: Bytes): Word {
    XorAll(Segments(c))
  }

  /** The program's segments: one more, of zeros, when the last is full. */
  function Streamed(c: Bytes): (ws: seq<Word>)
    ensures |ws| == |c| / 8 + 1
  {
    seq(|c| / 8 + 1, k requires 0 <= k < |c| / 8 + 1 => WordAt(c, 8 * k))
  }

  lemma XorNothing(w: Word)
    ensures Xor(w, NOTHING) == w
  {
  }

  lemma BeyondTheEnd(c: Bytes, p: nat)
    requires p >= |c|
    ensures WordAt(c, p) == NOTHING
  {
  }

  lemma StreamedIsChecksum(c: Bytes)
    ensures XorAll(Streamed(c)) == Checksum(c)
  {
    var ws, k := Streamed(c), |c| / 8;
    if |c| % 8 == 0 {
      assert ws[..k] == Segments(c);
      BeyondTheEnd(c, 8 * k);
      XorNothing(Checksum(c));
    } else {
      assert ws == Segments(c);
    }
  }

  // ---------------------------------------------------------------------------------------
  // Lanes
  // ---------------------------------------------------------------------------------------

  type LaneNumber = l: int | 0 <= l < 8

  /** Byte l of a word, counted from the low end. */
  function Lane(w: Word, l: nat): Byte
    decreases l
  {
    if l == 0 then Low(w) else Lane(Shifted(w), l - 1)
  }

  function Low(w: Word): Byte {
    Byte((w.bits & 255) as bv8)
  }

  function Shifted(w: Word): Word {
    Word(w.bits >> 8)
  }

  /** A word moved up one byte, and a byte put behind it. */
  function AppendByte(w: Word, b: Byte): Word {
    Word((w.bits << 8) | (b.bits as bv64))
  }

  function XorByte(a: Byte, b: Byte): Byte {
    Byte(a.bits ^ b.bits)
  }

  lemma LowOfLoad(b0: Byte, b1: Byte, b2: Byte, b3: Byte, b4: Byte, b5: Byte, b6: Byte, b7: Byte)
    ensures Low(Load(b0, b1, b2, b3, b4, b5, b6, b7)) == b0
  {
  }

  lemma ShiftedLoad(b0: Byte, b1: Byte, b2: Byte, b3: Byte, b4: Byte, b5: Byte, b6: Byte, b7: Byte)
    ensures Shifted(Load(b0, b1, b2, b3, b4, b5, b6, b7)) == Load(b1, b2, b3, b4, b5, b6, b7, ZERO)
  {
  }

  lemma {:induction false} LaneOfLoad(b0: Byte, b1: Byte, b2: Byte, b3: Byte, b4: Byte, b5: Byte, b6: Byte, b7: Byte, l: LaneNumber)
    ensures Lane(Load(b0, b1, b2, b3, b4, b5, b6, b7), l) == [b0, b1, b2, b3, b4, b5, b6, b7][l]
    decreases l
  {
    if l == 0 {
      LowOfLoad(b0, b1, b2, b3, b4, b5, b6, b7);
    } else {
      ShiftedLoad(b0, b1, b2, b3, b4, b5, b6, b7);
      LaneOfLoad(b1, b2, b3, b4, b5, b6, b7, ZERO, l - 1);
    }
  }

  lemma LaneOfWord(c: Bytes, p: nat, l: LaneNumber)
    ensures Lane(WordAt(c, p), l) == At(c, p + l)
  {
    LaneOfLoad(At(c, p), At(c, p + 1), At(c, p + 2), At(c, p + 3), At(c, p + 4), At(c, p + 5), At(c, p + 6), At(c, p + 7), l);
  }

  lemma LowOfXor(v: Word, w: Word)
    ensures Low(Xor(v, w)) == XorByte(Low(v), Low(w))
  {
  }

  lemma ShiftedXor(v: Word, w: Word)
    ensures Shifted(Xor(v, w)) == Xor(Shifted(v), Shifted(w))
  {
  }

  lemma {:induction false} LaneOfXor(v: Word, w: Word, l: nat)
    ensures Lane(Xor(v, w), l) == XorByte(Lane(v, l), Lane(w, l))
    decreases l
  {
    if l == 0 {
      LowOfXor(v, w);
    } else {
      ShiftedXor(v, w);
      LaneOfXor(Shifted(v), Shifted(w), l - 1);
    }
  }

  lemma {:induction false} LaneOfNothing(l: nat)
    ensures Lane(NOTHING, l) == ZERO
  {
    assert Shifted(NOTHING) == NOTHING;
    if l > 0 {
      LaneOfNothing(l - 1);
    }
  }

  /** The XOR of the content's bytes at l, 8 + l, 16 + l and so on, k of them. */
  function LaneSum(c: Bytes, l: LaneNumber, k: nat): Byte {
    if k == 0 then ZERO else XorByte(LaneSum(c, l, k - 1), At(c, 8 * (k - 1) + l))
  }

  lemma LaneOfSegment(c: Bytes, k: nat, l: LaneNumber)
    requires k < |Segments(c)|
    ensures Lane(Segments(c)[k], l) == At(c, 8 * k + l)
  {
    LaneOfWord(c, 8 * k, l);
  }

  lemma {:induction false} LaneOfSegments(c: Bytes, l: LaneNumber, k: nat)
    requires k <= |Segments(c)|
    ensures Lane(XorAll(Segments(c)[..k]), l) == LaneSum(c, l, k)
  {
    var ws := Segments(c)[..k];
    if k == 0 {
      LaneOfNothing(l);
    } else {
      assert ws[..k - 1] == Segments(c)[..k - 1];
      LaneOfSegments(c, l, k - 1);
      LaneOfXor(XorAll(ws[..k - 1]), ws[k - 1], l);
      LaneOfSegment(c, k - 1, l);
    }
  }

  /** The checksum, lane by lane: each byte is the XOR of every eighth byte of the content. */
  lemma LaneOfChecksum(c: Bytes, l: LaneNumber)
    ensures Lane(Checksum(c), l) == LaneSum(c, l, (|c| + 7) / 8)
  {
    LaneOfSegments(c, l, |Segments(c)|);
    assert Segments(c)[..|Segments(c)|] == Segments(c);
  }

  // ---------------------------------------------------------------------------------------
  // Detection
  // ---------------------------------------------------------------------------------------

  lemma XorKeepsDifference(x: Byte, y: Byte, a: Byte, b: Byte)
    ensures a == b ==> (XorByte(x, a) == XorByte(y, b) <==> x == y)
    ensures x == y ==> (XorByte(x, a) == XorByte(y, b) <==> a == b)
  {
  }

  /** Contents that differ in one place of a lane have different sums from there on. */
  lemma {:induction false} OneDifferenceShows(a: Bytes, b: Bytes, l: LaneNumber, at: nat, k: nat)
    requires At(a, 8 * at + l) != At(b, 8 * at + l)
    requires forall i :: 0 <= i < k && i != at ==> At(a, 8 * i + l) == At(b, 8 * i + l)
    ensures LaneSum(a, l, k) == LaneSum(b, l, k) <==> k <= at
  {
    if k > 0 {
      OneDifferenceShows(a, b, l, at, k - 1);
      XorKeepsDifference(LaneSum(a, l, k - 1), LaneSum(b, l, k - 1), At(a, 8 * (k - 1) + l), At(b, 8 * (k - 1) + l));
    }
  }

  /** Contents of one length that differ only inside some eight consecutive bytes. */
  ghost predicate DifferWithin(a: Bytes, b: Bytes, p: nat) {
    |a| == |b| && a != b && forall i :: 0 <= i < |a| && !(p <= i < p + 8) ==> a[i] == b[i]
  }

  /** Such contents never have the same checksum. */
  lemma DamageIsDetected(a: Bytes, b: Bytes, p: nat)
    requires DifferWithin(a, b, p)
    ensures Checksum(a) != Checksum(b)
  {
    var d :| 0 <= d < |a| && a[d] != b[d];
    var l: LaneNumber, at, k := d % 8, d / 8, (|a| + 7) / 8;
    forall i | 0 <= i < k && i != at
      ensures At(a, 8 * i + l) == At(b, 8 * i + l)
    {
      assert 8 * i + l != d && (8 * i + l < p || 8 * i + l >= p + 8);
    }
    OneDifferenceShows(a, b, l, at, k);
    LaneOfChecksum(a, l);
    LaneOfChecksum(b, l);
  }

  // ---------------------------------------------------------------------------------------
  // The loop over the content
  // ---------------------------------------------------------------------------------------

  function LoadFrom(tmp: array<Byte>): Word
    requires tmp.Length == 8
    reads tmp
  {
    Load(tmp[0], tmp[1], tmp[2], tmp[3], tmp[4], tmp[5], tmp[6], tmp[7])
  }

  /** memset(tmp, 0, 8). */
  method Clear(tmp: array<Byte>)
    modifies tmp
    ensures forall m :: 0 <= m < tmp.Length ==> tmp[m] == ZERO
  {
    for m := 0 to tmp.Length
      invariant forall i :: 0 <= i < m ==> tmp[i] == ZERO
    {
      tmp[m] := ZERO;
    }
  }

  lemma GatheredWord(content: Bytes, p: nat, n: nat, tmp: Bytes)
    requires |tmp| == 8 && n <= 8 && p + n <= |content| && (n == 8 || p + n == |content|)
    requires forall m :: 0 <= m < n ==> tmp[m] == content[p + m]
    requires forall m :: n <= m < 8 ==> tmp[m] == ZERO
    ensures Load(tmp[0], tmp[1], tmp[2], tmp[3], tmp[4], tmp[5], tmp[6], tmp[7]) == WordAt(content, p)
  {
    assert forall m :: 0 <= m < 8 ==> tmp[m] == At(content, p + m);
  }

  /** The program's segments of a content: eight bytes are gathered, read as one word, and
      cleared; what is gathered at the end is pushed too, even when it is nothing. */
  method GatherSegments(content: Bytes) returns (segment: seq<Word>)
    ensures segment == Streamed(content)
  {
    segment := [];
    var tmp := new Byte[8](_ => ZERO);
    var counter := 0;
    for j := 0 to |content|
      invariant j == 8 * |segment| + counter && 0 <= counter < 8
      invariant forall k :: 0 <= k < |segment| ==> segment[k] == WordAt(content, 8 * k)
      invariant forall m :: 0 <= m < counter ==> tmp[m] == content[8 * |segment| + m]
      invariant forall m :: counter <= m < 8 ==> tmp[m] == ZERO
    {
      tmp[counter] := content[j];
      counter := counter + 1;
      if counter == 8 {
        GatheredWord(content, 8 * |segment|, 8, tmp[..]);
        segment := segment + [LoadFrom(tmp)];
        Clear(tmp);
        counter := 0;
      }
    }
    GatheredWord(content, 8 * |segment|, counter, tmp[..]);
    segment := segment + [LoadFrom(tmp)];
  }

  /** The whole test: the XOR of the program's segments is the checksum of the format. */
  method XorOfContent(content: Bytes) returns (segment_xor: Word)
    ensures segment_xor == Checksum(content)
  {
    var segment := GatherSegments(content);
    segment_xor := NOTHING;
    for k := 0 to |segment|
      invariant segment_xor == XorAll(segment[..k])
    {
      segment_xor := Xor(segment_xor, segment[k]);
      assert segment[..k + 1][..k] == segment[..k];
    }
    assert segment[..|segment|] == segment;
    StreamedIsChecksum(content);
  }

  function Raw(octets: seq<bv8>): (b: Bytes)
    ensures |b| == |octets| && forall i :: 0 <= i < |b| ==> b[i] == Byte(octets[i])
  {
    seq(|octets|, i requires 0 <= i < |octets| => Byte(octets[i]))
  }

  lemma XorOfFour(a: Word, b: Word, c: Word, d: Word)
    ensures XorAll([a, b, c, d]) == Xor(Xor(Xor(a, b), c), d)
  {
    assert [a][..0] == [] && [a, b][..1] == [a] && [a, b, c][..2] == [a, b] && [a, b, c, d][..3] == [a, b, c];
    assert XorAll([a]) == Xor(NOTHING, a) == a;
    assert XorAll([a, b]) == Xor(a, b);
    assert XorAll([a, b, c]) == Xor(Xor(a, b), c);
  }

  lemma SegmentsOfSample(c: Bytes)
    requires |c| == 28
    ensures Segments(c) == [WordAt(c, 0), WordAt(c, 8), WordAt(c, 16), WordAt(c, 24)]
  {
    var ws := Segments(c);
    assert |ws| == 4;
    assert ws[0] == WordAt(c, 8 * 0) && ws[1] == WordAt(c, 8 * 1) && ws[2] == WordAt(c, 8 * 2) && ws[3] == WordAt(c, 8 * 3);
  }

  lemma FirstWord(c: Bytes)
    requires |c| == 28 && c[..8] == Raw([0x66, 0x32, 0x0a, 0x0a, 0x66, 0x32, 0x63, 0x6f])
    ensures WordAt(c, 0) == Word(0x6f6332660a0a3266)
  {
    var s := c[..8];
    assert WordAt(c, 0) == Load(s[0], s[1], s[2], s[3], s[4], s[5], s[6], s[7]);
  }

  lemma SecondWord(c: Bytes)
    requires |c| == 28 && c[8..16] == Raw([0x6e, 0x74, 0x65, 0x6e, 0x74, 0x2e, 0x2e, 0x2e])
    ensures WordAt(c, 8) == Word(0x2e2e2e746e65746e)
  {
    var s := c[8..16];
    assert WordAt(c, 8) == Load(s[0], s[1], s[2], s[3], s[4], s[5], s[6], s[7]);
  }

  lemma ThirdWord(c: Bytes)
    requires |c| == 28 && c[16..24] == Raw([0x2e, 0x2e, 0x0a, 0x61, 0x61, 0x61, 0x61, 0x62])
    ensures WordAt(c, 16) == Word(0x62616161610a2e2e)
  {
    var s := c[16..24];
    assert WordAt(c, 16) == Load(s[0], s[1], s[2], s[3], s[4], s[5], s[6], s[7]);
  }

  lemma LastWord(c: Bytes)
    requires |c| == 28 && c[24..] == Raw([0x62, 0x62, 0x62, 0x0a])
    ensures WordAt(c, 24) == Word(0x000000000a626262)
  {
    var s := c[24..];
    assert WordAt(c, 24) == Load(s[0], s[1], s[2], s[3], ZERO, ZERO, ZERO, ZERO);
  }

  /** The content and the checksum of the file f2 in the format's own sample archive. */
  lemma SampleChecksum(c: Bytes)
    requires |c| == 28 && c[..8] == Raw([0x66, 0x32, 0x0a, 0x0a, 0x66, 0x32, 0x63, 0x6f])
    requires c[8..16] == Raw([0x6e, 0x74, 0x65, 0x6e, 0x74, 0x2e, 0x2e, 0x2e])
    requires c[16..24] == Raw([0x2e, 0x2e, 0x0a, 0x61, 0x61, 0x61, 0x61, 0x62])
    requires c[24..] == Raw([0x62, 0x62, 0x62, 0x0a])
    ensures Checksum(c) == Word(0x232c7d730f070a44)
  {
    SegmentsOfSample(c);
    FirstWord(c);
    SecondWord(c);
    ThirdWord(c);
    LastWord(c);
    var w0, w1, w2, w3 := WordAt(c, 0), WordAt(c, 8), WordAt(c, 16), WordAt(c, 24);
    XorOfFour(w0, w1, w2, w3);
    XorOfSample(w0, w1, w2, w3);
  }

  lemma XorOfSample(w0: Word, w1: Word, w2: Word, w3: Word)
    requires w0 == Word(0x6f6332660a0a3266) && w1 == Word(0x2e2e2e746e65746e)
    requires w2 == Word(0x62616161610a2e2e) && w3 == Word(0x000000000a626262)
    ensures Xor(Xor(Xor(w0, w1), w2), w3) == Word(0x232c7d730f070a44)
  {
  }
}
