/**
The base64 codec of Labs 7 and 8, on octets as bit vectors: the definition of section 4 of
RFC 4648 (three octets are 24 bits, cut into four 6-bit groups), the decoder's meaning on any
input at all, and the laws that tie the two together.
*/
module Base64 {
  import opened Octets

  const PAD: Byte := Byte(61)

  /** The character of a 6-bit group: A-Z, a-z, 0-9, plus and slash. */
  function Alphabet(v: Byte): Byte {
    if v.bits < 26 then Byte(v.bits + 65)
    else if v.bits < 52 then Byte(v.bits - 26 + 97)
    else if v.bits < 62 then Byte(v.bits - 52 + 48)
    else if v.bits == 62 then Byte(43)
    else Byte(47)
  }

  function DecodeCode(c: Byte): Option<Byte> {
    if 97 <= c.bits <= 122 then Some(Byte(26 + c.bits - 97))
    else if 65 <= c.bits <= 90 then Some(Byte(c.bits - 65))
    else if 48 <= c.bits <= 57 then Some(Byte(52 + c.bits - 48))
    else if c.bits == 43 then Some(Byte(62))
    else if c.bits == 47 then Some(Byte(63))
    else None
  }

  predicate IsSextet(v: Byte) {
    v.bits < 64
  }

  lemma CodeOfAlphabet(v: Byte)
    requires IsSextet(v)
    ensures DecodeCode(Alphabet(v)) == Some(v) && Alphabet(v) != PAD
  {
  }

  lemma AlphabetOfCode(c: Byte)
    ensures DecodeCode(c).Some? ==> IsSextet(DecodeCode(c).value) && Alphabet(DecodeCode(c).value) == c && c != PAD
  {
  }

  // ---------------------------------------------------------------------------------------
  // Encoding, as the standard defines it
  // ---------------------------------------------------------------------------------------

  function Group(a: Byte, b: Byte, c: Byte): bv24 {
    ((a.bits as bv24) << 16) | ((b.bits as bv24) << 8) | (c.bits as bv24)
  }

  function First(g: bv24): Byte { Byte((g >> 18) as bv8) }

  function Second(g: bv24): Byte { Byte(((g >> 12) & 63) as bv8) }

  function Third(g: bv24): Byte { Byte(((g >> 6) & 63) as bv8) }

  function Fourth(g: bv24): Byte { Byte((g & 63) as bv8) }

  function GroupOfOne(a: Byte): (v: Bytes)
    ensures |v| == 2
  {
    var g := Group(a, ZERO, ZERO);
    [First(g), Second(g)]
  }

  function GroupOfTwo(a: Byte, b: Byte): (v: Bytes)
    ensures |v| == 3
  {
    var g := Group(a, b, ZERO);
    [First(g), Second(g), Third(g)]
  }

  function GroupOfThree(a: Byte, b: Byte, c: Byte): (v: Bytes)
    ensures |v| == 4
  {
    var g := Group(a, b, c);
    [First(g), Second(g), Third(g), Fourth(g)]
  }

  /** How many 6-bit groups hold n octets. */
  function SextetCount(n: nat): nat {
    if n == 0 then 0 else if n < 3 then n + 1 else 4 + SextetCount(n - 3)
  }

  /** The 6-bit groups of an octet string; a short last group is filled with zero bits. */
  function Sextets(x: Bytes): (v: Bytes)
    ensures |v| == SextetCount(|x|)
  {
    if |x| == 0 then []
    else if |x| == 1 then GroupOfOne(x[0])
    else if |x| == 2 then GroupOfTwo(x[0], x[1])
    else GroupOfThree(x[0], x[1], x[2]) + Sextets(x[3..])
  }

  function Chars(v: Bytes): (s: Bytes)
    ensures |s| == |v| && forall i :: 0 <= i < |v| ==> s[i] == Alphabet(v[i])
  {
    seq(|v|, i requires 0 <= i < |v| => Alphabet(v[i]))
  }

  /** The padding that completes the last group of four characters. */
  function Padding(n: nat): Bytes {
    if n % 3 == 1 then [PAD, PAD] else if n % 3 == 2 then [PAD] else []
  }

  lemma CountOfGroups(groups: nat, phase: nat)
    requires phase < 3
    ensures SextetCount(3 * groups + phase) == 4 * groups + (if phase == 0 then 0 else phase + 1)
  {
    if groups > 0 {
      CountOfGroups(groups - 1, phase);
    }
  }

  lemma PaddedLength(n: nat)
    ensures SextetCount(n) + |Padding(n)| == 4 * ((n + 2) / 3)
    ensures n % 3 == 0 ==> SextetCount(n) % 4 == 0
    ensures n % 3 == 1 ==> SextetCount(n) % 4 == 2
    ensures n % 3 == 2 ==> SextetCount(n) % 4 == 3
  {
    CountOfGroups(n / 3, n % 3);
  }

  function Encode(x: Bytes): Bytes {
    Chars(Sextets(x)) + Padding(|x|)
  }

  // ---------------------------------------------------------------------------------------
  // Decoding: what the program makes of any input
  // ---------------------------------------------------------------------------------------

  /** The codes of the characters before the first '='; others are passed over. */
  function Codes(s: Bytes): (v: Bytes)
    ensures |v| <= |s|
  {
    if s == [] || s[0] == PAD then []
    else (if DecodeCode(s[0]).Some? then [DecodeCode(s[0]).value] else []) + Codes(s[1..])
  }

  /** How many octets n 6-bit groups give: one left over still gives one. */
  function OctetCount(n: nat): nat {
    if n == 0 then 0 else if n < 3 then 1 else if n == 3 then 2 else 3 + OctetCount(n - 4)
  }

  function Octet1(p: Byte, q: Byte): Byte { Byte((p.bits << 2) | (q.bits >> 4)) }

  function Octet2(q: Byte, r: Byte): Byte { Byte(((q.bits & 15) << 4) | (r.bits >> 2)) }

  function Octet3(r: Byte, t: Byte): Byte { Byte(((r.bits & 3) << 6) | t.bits) }

  function Unpack(v: Bytes): (x: Bytes)
    ensures |x| == OctetCount(|v|)
  {
    if |v| == 0 then []
    else if |v| == 1 then [Octet1(v[0], ZERO)]
    else if |v| == 2 then [Octet1(v[0], v[1])]
    else if |v| == 3 then [Octet1(v[0], v[1]), Octet2(v[1], v[2])]
    else [Octet1(v[0], v[1]), Octet2(v[1], v[2]), Octet3(v[2], v[3])] + Unpack(v[4..])
  }

  /** The result for a non-empty input: without a single code it is one zero octet. */
  function Decode(s: Bytes): Bytes {
    if Codes(s) == [] then [ZERO] else Unpack(Codes(s))
  }

  // ---------------------------------------------------------------------------------------
  // Round trips
  // ---------------------------------------------------------------------------------------

  ghost predicate AreSextets(v: Bytes) {
    forall i :: 0 <= i < |v| ==> IsSextet(v[i])
  }

  lemma GroupIsSextets(g: bv24)
    ensures IsSextet(First(g)) && IsSextet(Second(g)) && IsSextet(Third(g)) && IsSextet(Fourth(g))
  {
  }

  lemma {:induction false} SextetsAreSextets(x: Bytes)
    ensures AreSextets(Sextets(x))
  {
    if |x| == 1 {
      GroupIsSextets(Group(x[0], ZERO, ZERO));
    } else if |x| == 2 {
      GroupIsSextets(Group(x[0], x[1], ZERO));
    } else if |x| >= 3 {
      GroupIsSextets(Group(x[0], x[1], x[2]));
      SextetsAreSextets(x[3..]);
    }
  }

  lemma {:induction false} CodesOfChars(v: Bytes, rest: Bytes)
    requires AreSextets(v) && (rest == [] || rest[0] == PAD)
    ensures Codes(Chars(v) + rest) == v
  {
    var s := Chars(v) + rest;
    if v == [] {
      assert s == rest;
    } else {
      CodeOfAlphabet(v[0]);
      CodesOfChars(v[1..], rest);
      assert s[0] == Alphabet(v[0]);
      assert s[1..] == Chars(v[1..]) + rest;
    }
  }

  lemma FirstOctet(a: Byte, b: Byte, c: Byte)
    ensures Octet1(First(Group(a, b, c)), Second(Group(a, b, c))) == a
  {
  }

  lemma SecondOctet(a: Byte, b: Byte, c: Byte)
    ensures Octet2(Second(Group(a, b, c)), Third(Group(a, b, c))) == b
  {
  }

  lemma ThirdOctet(a: Byte, b: Byte, c: Byte)
    ensures Octet3(Third(Group(a, b, c)), Fourth(Group(a, b, c))) == c
  {
  }

  lemma UnpackFour(p: Byte, q: Byte, r: Byte, t: Byte, rest: Bytes)
    ensures Unpack([p, q, r, t] + rest) == [Octet1(p, q), Octet2(q, r), Octet3(r, t)] + Unpack(rest)
  {
    var v := [p, q, r, t] + rest;
    assert v[4..] == rest;
  }

  lemma UnpackGroup(a: Byte, b: Byte, c: Byte, rest: Bytes)
    ensures Unpack(GroupOfThree(a, b, c) + rest) == [a, b, c] + Unpack(rest)
  {
    var g := Group(a, b, c);
    UnpackFour(First(g), Second(g), Third(g), Fourth(g), rest);
    FirstOctet(a, b, c);
    SecondOctet(a, b, c);
    ThirdOctet(a, b, c);
  }

  lemma UnpackShort(x: Bytes)
    requires |x| < 3
    ensures Unpack(Sextets(x)) == x
  {
    if |x| == 1 {
      FirstOctet(x[0], ZERO, ZERO);
    } else if |x| == 2 {
      FirstOctet(x[0], x[1], ZERO);
      SecondOctet(x[0], x[1], ZERO);
    }
  }

  lemma {:induction false} UnpackSextets(x: Bytes)
    ensures Unpack(Sextets(x)) == x
  {
    if |x| < 3 {
      UnpackShort(x);
    } else {
      UnpackGroup(x[0], x[1], x[2], Sextets(x[3..]));
      UnpackSextets(x[3..]);
      assert x == [x[0], x[1], x[2]] + x[3..];
    }
  }

  /** Decoding undoes encoding, and the encoding has the standard's length. */
  lemma RoundTrip(x: Bytes)
    requires x != []
    ensures Decode(Encode(x)) == x
    ensures |Encode(x)| == 4 * ((|x| + 2) / 3)
  {
    SextetsAreSextets(x);
    CodesOfChars(Sextets(x), Padding(|x|));
    UnpackSextets(x);
    PaddedLength(|x|);
  }

  /** Characters outside the alphabet (and before any '=') change nothing. */
  lemma {:induction false} JunkIsIgnored(a: Bytes, junk: Bytes, b: Bytes)
    requires PAD !in a && forall c :: c in junk ==> c != PAD && DecodeCode(c).None?
    ensures Codes(a + junk + b) == Codes(a + b)
    ensures Decode(a + junk + b) == Decode(a + b)
  {
    if a == [] {
      assert a + junk + b == junk + b && a + b == b;
      JunkFirst(junk, b);
    } else {
      assert (a + junk + b)[0] == (a + b)[0] == a[0];
      assert (a + junk + b)[1..] == a[1..] + junk + b && (a + b)[1..] == a[1..] + b;
      assert forall c :: c in a[1..] ==> c in a;
      JunkIsIgnored(a[1..], junk, b);
    }
  }

  lemma {:induction false} JunkFirst(junk: Bytes, b: Bytes)
    requires forall c :: c in junk ==> c != PAD && DecodeCode(c).None?
    ensures Codes(junk + b) == Codes(b)
  {
    if junk == [] {
      assert junk + b == b;
    } else {
      assert junk[0] in junk && (junk + b)[0] == junk[0];
      assert (junk + b)[1..] == junk[1..] + b;
      assert forall c :: c in junk[1..] ==> c in junk;
      JunkFirst(junk[1..], b);
      assert [] + Codes(b) == Codes(b);
    }
  }

  // ---------------------------------------------------------------------------------------
  // Canonical encodings
  // ---------------------------------------------------------------------------------------

  /** A string of alphabet characters and the padding that completes it, with zero bits where
      the last group was filled. */
  ghost predicate Canonical(s: Bytes) {
    exists body: Bytes, n: nat :: CanonicalAs(s, body, n)
  }

  predicate LowClear(v: Byte, mask: bv8) {
    v.bits & mask == 0
  }

  ghost predicate CanonicalAs(s: Bytes, body: Bytes, n: nat) {
    && s == body + Padding(n)
    && |s| % 4 == 0
    && (forall c :: c in body ==> DecodeCode(c).Some?)
    && (n % 3 == 1 ==> body != [] && LowClear(DecodeCode(body[|body| - 1]).value, 15))
    && (n % 3 == 2 ==> body != [] && LowClear(DecodeCode(body[|body| - 1]).value, 3))
  }

  /** The bits of the last group that no octet uses. */
  ghost predicate ZeroFilled(v: Bytes) {
    && |v| % 4 != 1
    && (|v| % 4 == 2 ==> LowClear(v[|v| - 1], 15))
    && (|v| % 4 == 3 ==> LowClear(v[|v| - 1], 3))
  }

  lemma FillOne(a: Byte)
    ensures LowClear(Second(Group(a, ZERO, ZERO)), 15)
  {
  }

  lemma FillTwo(a: Byte, b: Byte)
    ensures LowClear(Third(Group(a, b, ZERO)), 3)
  {
  }

  lemma ZeroFilledFromFour(p: Bytes, w: Bytes)
    requires |p| == 4
    ensures ZeroFilled(p + w) <==> ZeroFilled(w)
  {
    var v := p + w;
    assert |v| % 4 == |w| % 4;
    if w != [] {
      assert v[|v| - 1] == w[|w| - 1];
    }
  }

  lemma {:induction false} SextetsAreZeroFilled(x: Bytes)
    ensures ZeroFilled(Sextets(x))
  {
    if |x| == 1 {
      FillOne(x[0]);
    } else if |x| == 2 {
      FillTwo(x[0], x[1]);
    } else if |x| >= 3 {
      SextetsAreZeroFilled(x[3..]);
      SextetsFromThree(x);
      ZeroFilledFromFour(GroupOfThree(x[0], x[1], x[2]), Sextets(x[3..]));
    }
  }

  lemma {:induction false} SextetsFromThree(x: Bytes)
    requires |x| >= 3
    ensures Sextets(x) == GroupOfThree(x[0], x[1], x[2]) + Sextets(x[3..])
  {
  }

  lemma RegroupOne(p: Byte, q: Byte)
    requires IsSextet(p) && IsSextet(q) && LowClear(q, 15)
    ensures GroupOfOne(Octet1(p, q)) == [p, q]
  {
  }

  lemma RegroupTwo(p: Byte, q: Byte, r: Byte)
    requires IsSextet(p) && IsSextet(q) && IsSextet(r) && LowClear(r, 3)
    ensures GroupOfTwo(Octet1(p, q), Octet2(q, r)) == [p, q, r]
  {
  }

  lemma RegroupThree(p: Byte, q: Byte, r: Byte, t: Byte)
    requires IsSextet(p) && IsSextet(q) && IsSextet(r) && IsSextet(t)
    ensures GroupOfThree(Octet1(p, q), Octet2(q, r), Octet3(r, t)) == [p, q, r, t]
  {
  }

  lemma {:induction false} SextetsOfThree(a: Byte, b: Byte, c: Byte, rest: Bytes)
    ensures Sextets([a, b, c] + rest) == GroupOfThree(a, b, c) + Sextets(rest)
  {
    assert ([a, b, c] + rest)[3..] == rest;
  }

  lemma {:induction false} SextetsOfUnpacked(v: Bytes)
    requires AreSextets(v) && ZeroFilled(v)
    decreases |v|, 1
    ensures Sextets(Unpack(v)) == v
  {
    if |v| == 2 {
      RegroupOne(v[0], v[1]);
    } else if |v| == 3 {
      RegroupTwo(v[0], v[1], v[2]);
    } else if |v| >= 4 {
      SextetsOfUnpackedFour(v);
    }
  }

  lemma SextetsOfUnpackedFour(v: Bytes)
    requires AreSextets(v) && ZeroFilled(v) && |v| >= 4
    decreases |v|, 0
    ensures Sextets(Unpack(v)) == v
  {
    var p, q, r, t := v[0], v[1], v[2], v[3];
    assert v == [p, q, r, t] + v[4..];
    ZeroFilledFromFour([p, q, r, t], v[4..]);
    SextetsOfUnpacked(v[4..]);
    UnpackFour(p, q, r, t, v[4..]);
    RegroupThree(p, q, r, t);
    SextetsOfThree(Octet1(p, q), Octet2(q, r), Octet3(r, t), Unpack(v[4..]));
  }

  lemma CodesAreSextets(s: Bytes)
    ensures AreSextets(Codes(s))
  {
    if s != [] && s[0] != PAD {
      AlphabetOfCode(s[0]);
      CodesAreSextets(s[1..]);
    }
  }

  lemma {:induction false} CharsOfCodes(body: Bytes, pad: Bytes)
    requires (forall c :: c in body ==> DecodeCode(c).Some?) && (pad == [] || pad[0] == PAD)
    ensures Chars(Codes(body + pad)) == body
  {
    if body == [] {
      assert body + pad == pad;
    } else {
      assert body[0] in body && forall c :: c in body[1..] ==> c in body;
      AlphabetOfCode(body[0]);
      CharsOfCodes(body[1..], pad);
      assert (body + pad)[0] == body[0] && (body + pad)[1..] == body[1..] + pad;
      CharsCons(DecodeCode(body[0]).value, Codes(body[1..] + pad));
    }
  }

  lemma {:induction false} CharsCons(v: Byte, vs: Bytes)
    ensures Chars([v] + vs) == [Alphabet(v)] + Chars(vs)
  {
  }

  lemma LastIsAlphabet(v: Bytes, body: Bytes)
    requires AreSextets(v) && body == Chars(v) && body != []
    ensures DecodeCode(body[|body| - 1]) == Some(v[|v| - 1])
  {
    CodeOfAlphabet(v[|v| - 1]);
  }

  lemma CharsAreCodes(v: Bytes)
    requires AreSextets(v)
    ensures forall c :: c in Chars(v) ==> DecodeCode(c).Some?
  {
    forall c | c in Chars(v)
      ensures DecodeCode(c).Some?
    {
      var i :| 0 <= i < |v| && Chars(v)[i] == c;
      CodeOfAlphabet(v[i]);
    }
  }

  lemma PaddedText(v: Bytes, n: nat)
    requires |v| == SextetCount(n)
    ensures |Chars(v) + Padding(n)| % 4 == 0
    ensures n % 3 == 1 ==> |v| % 4 == 2
    ensures n % 3 == 2 ==> |v| % 4 == 3
  {
    PaddedLength(n);
  }

  lemma CharsAreCanonical(v: Bytes, n: nat)
    requires AreSextets(v) && ZeroFilled(v) && |v| == SextetCount(n)
    ensures CanonicalAs(Chars(v) + Padding(n), Chars(v), n)
  {
    CharsAreCodes(v);
    PaddedText(v, n);
    if v != [] {
      LastIsAlphabet(v, Chars(v));
    }
  }

  lemma EncodedIsCanonical(x: Bytes)
    ensures Canonical(Encode(x))
  {
    SextetsAreZeroFilled(x);
    SextetsAreSextets(x);
    CharsAreCanonical(Sextets(x), |x|);
  }

  lemma CanonicalIsZeroFilled(s: Bytes, body: Bytes, n: nat)
    requires CanonicalAs(s, body, n)
    ensures AreSextets(Codes(s)) && ZeroFilled(Codes(s)) && Chars(Codes(s)) == body
  {
    var v := Codes(s);
    CharsOfCodes(body, Padding(n));
    CodesAreSextets(s);
    if body != [] {
      LastIsAlphabet(v, body);
    }
  }

  lemma OctetsOfGroups(m: nat)
    ensures m % 4 != 1 ==> OctetCount(m) % 3 == (if m % 4 == 0 then 0 else m % 4 - 1)
  {
    if m >= 4 {
      OctetsOfGroups(m - 4);
    }
  }

  lemma SamePadding(m: nat, n: nat)
    requires (m + |Padding(n)|) % 4 == 0
    ensures Padding(OctetCount(m)) == Padding(n)
  {
    OctetsOfGroups(m);
  }

  lemma CanonicalIsEncoded(s: Bytes)
    requires s != [] && Canonical(s)
    ensures Encode(Decode(s)) == s
  {
    var body, n :| CanonicalAs(s, body, n);
    CanonicalIsZeroFilled(s, body, n);
    SextetsOfUnpacked(Codes(s));
    SamePadding(|body|, n);
  }

  /** Encoding undoes decoding exactly on the canonical strings. */
  lemma CanonicalRoundTrip(s: Bytes)
    requires s != []
    ensures Encode(Decode(s)) == s <==> Canonical(s)
  {
    EncodedIsCanonical(Decode(s));
    if Canonical(s) {
      CanonicalIsEncoded(s);
    }
  }

  lemma {:induction false} FewerOctets(n: nat)
    ensures n >= 2 ==> OctetCount(n) < n
    ensures OctetCount(n) <= n
  {
    if n >= 4 {
      FewerOctets(n - 4);
    }
  }

  /** Decoding two characters or more gives fewer octets than characters, whatever they are: in
      place there is room for the result and its NUL. */
  lemma DecodedIsShorter(s: Bytes)
    requires s != []
    ensures |Decode(s)| < |s| <==> |s| >= 2
    ensures |Decode(s)| >= 1
  {
    FewerOctets(|Codes(s)|);
  }
}
