/**
What the base64 text of Labs 7 and 8 looks like, character by character: table 1 and section 4 of
RFC 4648, by arithmetic on the octets alone.
*/
module Base64Standard {
  import opened Octets
  import opened Base64

  /** Table 1: the character of n is the n-th. */
  function Table(): (t: string)
    ensures |t| == 64
  {
    "ABCDEFGHIJKLMNOPQRSTUVWXYZ" + "abcdefghijklmnopqrstuvwxyz" + "0123456789+/"
  }

  lemma UpperAt(n: nat)
    requires n < 26
    ensures "ABCDEFGHIJKLMNOPQRSTUVWXYZ"[n] as int == n + 65
  {
  }

  lemma LowerAt(n: nat)
    requires n < 26
    ensures "abcdefghijklmnopqrstuvwxyz"[n] as int == n + 97
  {
  }

  lemma DigitAt(n: nat)
    requires n < 12
    ensures "0123456789+/"[n] as int == if n < 10 then n + 48 else if n == 10 then 43 else 47
  {
  }

  lemma TableAt(n: nat)
    requires n < 64
    ensures Table()[n] as int
         == if n < 26 then n + 65 else if n < 52 then n + 71 else if n < 62 then n - 4 else if n == 62 then 43 else 47
  {
    if n < 26 {
      UpperAt(n);
    } else if n < 52 {
      LowerAt(n - 26);
    } else {
      DigitAt(n - 52);
    }
  }

  function IntOf(b: Byte): (n: nat)
    ensures n < 256
  {
    b.bits as int
  }

  /** The character of a 6-bit group is the one at its place in the table. */
  lemma AlphabetIsTable(v: Byte)
    requires IsSextet(v)
    ensures IntOf(v) < 64 && IntOf(Alphabet(v)) == Table()[IntOf(v)] as int
  {
    TableAt(IntOf(v));
  }

  /** The decoder takes a character for n exactly if it is the n-th of the table. */
  lemma CodeIsPlaceInTable(c: Byte, n: nat)
    requires n < 64
    ensures DecodeCode(c).Some? && IntOf(DecodeCode(c).value) == n <==> IntOf(c) == Table()[n] as int
  {
    TableAt(n);
  }

  // ---------------------------------------------------------------------------------------
  // The 24 bits of a group, as a number
  // ---------------------------------------------------------------------------------------

  lemma FirstOf(a: Byte, b: Byte, c: Byte)
    ensures IntOf(First(Group(a, b, c))) == IntOf(a) / 4
  {
    assert First(Group(a, b, c)).bits == a.bits >> 2;
    HighSix(a.bits);
  }

  lemma HighSix(a: bv8)
    ensures (a >> 2) as int == a as int / 4
  {
  }

  lemma JoinTwoFour(a: bv8, b: bv8)
    ensures (((a & 3) << 4) | (b >> 4)) as int == a as int % 4 * 16 + b as int / 16
  {
    LowTwoOf(a);
    HighFour(b);
    JoinedTwoFour(a & 3, b >> 4);
  }

  lemma LowTwoOf(a: bv8)
    ensures (a & 3) as int == a as int % 4
  {
  }

  lemma HighFour(b: bv8)
    ensures (b >> 4) as int == b as int / 16
  {
  }

  lemma JoinedTwoFour(p: bv8, q: bv8)
    requires p < 4 && q < 16
    ensures ((p << 4) | q) as int == 16 * (p as int) + q as int
  {
  }

  lemma LowFourOf(b: bv8)
    ensures (b & 15) as int == b as int % 16
  {
  }

  lemma HighTwo(c: bv8)
    ensures (c >> 6) as int == c as int / 64
  {
  }

  lemma JoinedFourTwo(p: bv8, q: bv8)
    requires p < 16 && q < 4
    ensures ((p << 2) | q) as int == 4 * (p as int) + q as int
  {
  }

  lemma JoinFourTwo(b: bv8, c: bv8)
    ensures (((b & 15) << 2) | (c >> 6)) as int == b as int % 16 * 4 + c as int / 64
  {
    LowFourOf(b);
    HighTwo(c);
    JoinedFourTwo(b & 15, c >> 6);
  }

  lemma LowSixOf(c: bv8)
    ensures (c & 63) as int == c as int % 64
  {
  }

  lemma SecondOf(a: Byte, b: Byte, c: Byte)
    ensures IntOf(Second(Group(a, b, c))) == IntOf(a) % 4 * 16 + IntOf(b) / 16
  {
    assert Second(Group(a, b, c)).bits == ((a.bits & 3) << 4) | (b.bits >> 4);
    JoinTwoFour(a.bits, b.bits);
  }

  lemma ThirdOf(a: Byte, b: Byte, c: Byte)
    ensures IntOf(Third(Group(a, b, c))) == IntOf(b) % 16 * 4 + IntOf(c) / 64
  {
    assert Third(Group(a, b, c)).bits == ((b.bits & 15) << 2) | (c.bits >> 6);
    JoinFourTwo(b.bits, c.bits);
  }

  lemma FourthOf(a: Byte, b: Byte, c: Byte)
    ensures IntOf(Fourth(Group(a, b, c))) == IntOf(c) % 64
  {
    assert Fourth(Group(a, b, c)).bits == c.bits & 63;
    LowSixOf(c.bits);
  }

  function OctetAt(x: Bytes, i: nat): (n: nat)
    ensures n < 256
  {
    if i < |x| then IntOf(x[i]) else 0
  }

  /** The three octets of group k as one number, zeros behind the end. */
  function GroupNumber(x: Bytes, k: nat): nat {
    65536 * OctetAt(x, 3 * k) + 256 * OctetAt(x, 3 * k + 1) + OctetAt(x, 3 * k + 2)
  }

  /** The m-th of the four base-64 digits of a number below 2^24. */
  function Base64Digit(n: nat, m: nat): (d: nat)
    ensures d < 64
  {
    if m == 0 then n / 262144 % 64 else if m == 1 then n / 4096 % 64 else if m == 2 then n / 64 % 64 else n % 64
  }

  lemma By64(q: nat, r: nat)
    requires r < 64
    ensures (64 * q + r) / 64 == q && (64 * q + r) % 64 == r
  {
  }

  lemma By4096(q: nat, r: nat)
    requires r < 4096
    ensures (4096 * q + r) / 4096 == q
  {
  }

  lemma By262144(q: nat, r: nat)
    requires r < 262144
    ensures (262144 * q + r) / 262144 == q
  {
  }

  lemma SplitBy16(b: nat)
    ensures b == 16 * (b / 16) + b % 16
  {
  }

  lemma SplitBy64(c: nat)
    ensures c == 64 * (c / 64) + c % 64
  {
  }

  lemma SplitBy4(a: nat)
    ensures a == 4 * (a / 4) + a % 4
  {
  }

  /** Where the four digits of a group come from. */
  function GroupDigit(a: nat, b: nat, c: nat, m: nat): nat {
    if m == 0 then a / 4
    else if m == 1 then a % 4 * 16 + b / 16
    else if m == 2 then b % 16 * 4 + c / 64
    else c % 64
  }

  lemma TopDigit(a: nat, b: nat, c: nat)
    requires a < 256 && b < 256 && c < 256
    ensures Base64Digit(65536 * a + 256 * b + c, 0) == GroupDigit(a, b, c, 0)
  {
    SplitBy4(a);
    By262144(a / 4, 65536 * (a % 4) + 256 * b + c);
    By64(0, a / 4);
  }

  lemma SecondDigit(a: nat, b: nat, c: nat)
    requires a < 256 && b < 256 && c < 256
    ensures Base64Digit(65536 * a + 256 * b + c, 1) == GroupDigit(a, b, c, 1)
  {
    SplitBy4(a);
    SplitBy16(b);
    By4096(16 * a + b / 16, 256 * (b % 16) + c);
    By64(a / 4, a % 4 * 16 + b / 16);
  }

  lemma ThirdDigit(a: nat, b: nat, c: nat)
    requires a < 256 && b < 256 && c < 256
    ensures Base64Digit(65536 * a + 256 * b + c, 2) == GroupDigit(a, b, c, 2)
  {
    SplitBy16(b);
    SplitBy64(c);
    By64(1024 * a + 4 * b + c / 64, c % 64);
    By64(16 * a + b / 16, b % 16 * 4 + c / 64);
  }

  lemma FourthDigit(a: nat, b: nat, c: nat)
    requires a < 256 && b < 256 && c < 256
    ensures Base64Digit(65536 * a + 256 * b + c, 3) == GroupDigit(a, b, c, 3)
  {
    SplitBy64(c);
    By64(1024 * a + 4 * b + c / 64, c % 64);
  }

  lemma DigitsOfGroup(a: nat, b: nat, c: nat, m: nat)
    requires a < 256 && b < 256 && c < 256 && m < 4
    ensures Base64Digit(65536 * a + 256 * b + c, m) == GroupDigit(a, b, c, m)
  {
    if m == 0 {
      TopDigit(a, b, c);
    } else if m == 1 {
      SecondDigit(a, b, c);
    } else if m == 2 {
      ThirdDigit(a, b, c);
    } else {
      FourthDigit(a, b, c);
    }
  }

  lemma BitsOfGroup(a: Byte, b: Byte, c: Byte, m: nat)
    requires m < 4
    ensures IntOf(GroupOfThree(a, b, c)[m]) == GroupDigit(IntOf(a), IntOf(b), IntOf(c), m)
  {
    if m == 0 {
      FirstOf(a, b, c);
    } else if m == 1 {
      SecondOf(a, b, c);
    } else if m == 2 {
      ThirdOf(a, b, c);
    } else {
      FourthOf(a, b, c);
    }
  }

  /** A short group is a whole one cut off. */
  lemma {:induction false} FirstGroup(x: Bytes, m: nat)
    requires m < 4 && m < |Sextets(x)|
    ensures var a, b, c := x[0], if |x| > 1 then x[1] else ZERO, if |x| > 2 then x[2] else ZERO;
            Sextets(x)[m] == GroupOfThree(a, b, c)[m]
            && GroupNumber(x, 0) == 65536 * IntOf(a) + 256 * IntOf(b) + IntOf(c)
  {
  }

  lemma BehindFirstGroup(x: Bytes, i: nat)
    requires 4 <= i < |Sextets(x)|
    ensures |x| >= 3 && |Sextets(x[3..])| == |Sextets(x)| - 4 && Sextets(x)[i] == Sextets(x[3..])[i - 4]
  {
    SextetsFromThree(x);
  }

  lemma PlaceBehind(i: nat)
    requires i >= 4
    ensures (i - 4) / 4 == i / 4 - 1 && (i - 4) % 4 == i % 4
  {
  }

  lemma {:induction false} SextetIsDigit(x: Bytes, i: nat)
    requires i < |Sextets(x)|
    ensures IntOf(Sextets(x)[i]) == Base64Digit(GroupNumber(x, i / 4), i % 4)
  {
    if i >= 4 {
      BehindFirstGroup(x, i);
      SextetIsDigit(x[3..], i - 4);
      PlaceBehind(i);
      GroupBehind(x, i / 4);
    } else {
      FirstSextetIsDigit(x, i);
    }
  }

  lemma FirstSextetIsDigit(x: Bytes, m: nat)
    requires m < 4 && m < |Sextets(x)|
    ensures IntOf(Sextets(x)[m]) == Base64Digit(GroupNumber(x, 0), m)
  {
    var a, b, c := x[0], if |x| > 1 then x[1] else ZERO, if |x| > 2 then x[2] else ZERO;
    FirstGroup(x, m);
    BitsOfGroup(a, b, c, m);
    DigitsOfGroup(IntOf(a), IntOf(b), IntOf(c), m);
  }

  lemma GroupBehind(x: Bytes, k: nat)
    requires |x| >= 3 && k > 0
    ensures GroupNumber(x, k) == GroupNumber(x[3..], k - 1)
  {
  }

  lemma {:induction false} CountIsRoundedUp(n: nat)
    ensures SextetCount(n) == (8 * n + 5) / 6
  {
    if n >= 3 {
      CountIsRoundedUp(n - 3);
    }
  }

  /** Every character of an encoding: as long as there are bits, the character at the place in the
      table that the next base-64 digit gives; then '=' up to a multiple of four characters. */
  lemma EncodingIsTheStandards(x: Bytes)
    ensures |Encode(x)| == 4 * ((|x| + 2) / 3)
    ensures forall i :: 0 <= i < |Encode(x)| ==>
              IntOf(Encode(x)[i]) == if 6 * i < 8 * |x| then Table()[Base64Digit(GroupNumber(x, i / 4), i % 4)] as int
                                     else '=' as int
  {
    PaddedLength(|x|);
    CountIsRoundedUp(|x|);
    SextetsAreSextets(x);
    forall i | 0 <= i < |Encode(x)|
      ensures IntOf(Encode(x)[i]) == if 6 * i < 8 * |x| then Table()[Base64Digit(GroupNumber(x, i / 4), i % 4)] as int
                                     else '=' as int
    {
      if i < |Sextets(x)| {
        SextetIsDigit(x, i);
        AlphabetIsTable(Sextets(x)[i]);
      }
    }
  }

  /** Decoding ends at the first '=', whatever is behind it. */
  lemma {:induction false} EndsAtPad(s: Bytes, pad: Byte, rest: Bytes)
    requires IntOf(pad) == '=' as int
    ensures Codes(s + [pad] + rest) == Codes(s)
  {
    if s != [] {
      assert (s + [pad] + rest)[1..] == s[1..] + [pad] + rest;
      EndsAtPad(s[1..], pad, rest);
    }
  }
}
