/**
Packing files by the format of Lab2/README.md, and the round trip: unpacking gives them back.
*/
module PakoPack {
  import opened Octets
  import opened PakoChecksum
  import opened Pako

  // ---------------------------------------------------------------------------------------
  // Numbers
  // ---------------------------------------------------------------------------------------

  /** The byte that holds m, counted up from zero. */
  function ByteOf(m: Octet): Byte {
    if m == 0 then ZERO else NextByte(ByteOf(m - 1))
  }

  function NextByte(b: Byte): Byte {
    Byte(b.bits + 1)
  }

  lemma {:induction false} NextIsOneMore(b: bv8)
    requires b != 255
    ensures (b + 1) as int == (b as int) + 1
  {
  }

  lemma {:induction false} ValueOfByte(m: Octet)
    ensures Value(ByteOf(m)) == m
  {
    if m > 0 {
      ValueOfByte(m - 1);
      NextIsOneMore(ByteOf(m - 1).bits);
    }
  }

  /** The last digit, base 256, of n. */
  function LowByte(n: nat): Byte {
    ByteOf(n % 256)
  }

  function PutLittle(n: nat, k: nat): (s: Bytes)
    ensures |s| == k
  {
    if k == 0 then [] else [LowByte(n)] + PutLittle(n / 256, k - 1)
  }

  function PutBig(n: nat, k: nat): (s: Bytes)
    ensures |s| == k
  {
    if k == 0 then [] else PutBig(n / 256, k - 1) + [LowByte(n)]
  }

  function PutWord(w: Word, k: nat): (s: Bytes)
    ensures |s| == k
    decreases k
  {
    if k == 0 then [] else PutWord(Shifted(w), k - 1) + [Low(w)]
  }

  /** n has at most k digits. */
  predicate IsShort(n: nat, k: nat) {
    if k == 0 then n == 0 else IsShort(n / 256, k - 1)
  }

  lemma U32IsShort(n: nat, k: nat)
    requires n < 0x1_0000_0000 && k == 4
    ensures IsShort(n, k)
  {
    var n1 := n / 256;
    var n2 := n1 / 256;
    var n3 := n2 / 256;
    assert n3 / 256 == 0;
    assert IsShort(n3 / 256, 0);
    assert IsShort(n3, 1);
    assert IsShort(n2, 2);
    assert IsShort(n1, 3);
  }

  lemma HeldAt(a: Bytes, p: nat, s: Bytes, i: nat)
    requires Holds(a, p, s) && i < |s|
    ensures At(a, p + i) == s[i]
  {
    assert a[p..p + |s|][i] == a[p + i];
  }

  lemma HeldPart(a: Bytes, p: nat, s: Bytes, t: Bytes)
    requires Holds(a, p, s + t)
    ensures Holds(a, p, s) && Holds(a, p + |s|, t)
  {
    var whole := a[p..p + |s + t|];
    assert a[p..p + |s|] == whole[..|s|] == s;
    assert a[p + |s|..p + |s| + |t|] == whole[|s|..] == t;
  }

  lemma LastDigit(n: nat, b: Byte)
    requires Value(b) == n % 256
    ensures Value(b) + 256 * (n / 256) == n
  {
  }

  lemma {:induction false} LittleIsRead(a: Bytes, p: nat, n: nat, k: nat)
    requires Holds(a, p, PutLittle(n, k)) && IsShort(n, k)
    ensures Little(a, p, k) == n
    decreases k
  {
    if k > 0 {
      HeldPart(a, p, [LowByte(n)], PutLittle(n / 256, k - 1));
      HeldAt(a, p, [LowByte(n)], 0);
      LittleIsRead(a, p + 1, n / 256, k - 1);
      ValueOfByte(n % 256);
      LastDigit(n, At(a, p));
    }
  }

  lemma {:induction false} BigIsRead(a: Bytes, p: nat, n: nat, k: nat)
    requires Holds(a, p, PutBig(n, k)) && IsShort(n, k)
    ensures Big(a, p, k) == n
    decreases k
  {
    if k > 0 {
      HeldPart(a, p, PutBig(n / 256, k - 1), [LowByte(n)]);
      HeldAt(a, p + (k - 1), [LowByte(n)], 0);
      BigIsRead(a, p, n / 256, k - 1);
      ValueOfByte(n % 256);
      LastDigit(n, At(a, p + k - 1));
    }
  }

  /** The low k bytes of a word. */
  function KeptBytes(w: Word, k: nat): Word
    decreases k
  {
    if k == 0 then NOTHING else AppendByte(KeptBytes(Shifted(w), k - 1), Low(w))
  }

  lemma WordStep(a: Bytes, p: nat, k: nat)
    requires k > 0
    ensures BigWord(a, p, k) == AppendByte(BigWord(a, p, k - 1), At(a, p + (k - 1)))
  {
  }

  lemma PutWordStep(a: Bytes, p: nat, w: Word, k: nat)
    requires k > 0 && Holds(a, p, PutWord(w, k))
    ensures Holds(a, p, PutWord(Shifted(w), k - 1)) && At(a, p + (k - 1)) == Low(w)
  {
    HeldPart(a, p, PutWord(Shifted(w), k - 1), [Low(w)]);
    HeldAt(a, p + (k - 1), [Low(w)], 0);
  }

  lemma {:induction false} WordIsRead(a: Bytes, p: nat, w: Word, k: nat)
    requires Holds(a, p, PutWord(w, k))
    ensures BigWord(a, p, k) == KeptBytes(w, k)
    decreases k
  {
    if k > 0 {
      PutWordStep(a, p, w, k);
      WordIsRead(a, p, Shifted(w), k - 1);
      WordStep(a, p, k);
    }
  }

  lemma AppendBack(w: Word)
    ensures AppendByte(Shifted(w), Low(w)) == w
  {
  }

  lemma {:induction false} AllKept(w: Word, k: nat)
    requires Gone(w, k) == NOTHING
    ensures KeptBytes(w, k) == w
    decreases k
  {
    if k > 0 {
      AllKept(Shifted(w), k - 1);
      AppendBack(w);
    }
  }

  function Gone(w: Word, k: nat): Word
    decreases k
  {
    if k == 0 then w else Gone(Shifted(w), k - 1)
  }

  lemma EightBytesGone(w: Word, k: nat)
    requires k == 8
    ensures Gone(w, k) == NOTHING
  {
    var w1 := Shifted(w);
    var w2 := Shifted(w1);
    var w3 := Shifted(w2);
    var w4 := Shifted(w3);
    var w5 := Shifted(w4);
    var w6 := Shifted(w5);
    var w7 := Shifted(w6);
    AllShiftedOut(w);
    assert Gone(Shifted(w7), k - 8) == NOTHING;
    assert Gone(w7, k - 7) == NOTHING;
    assert Gone(w6, k - 6) == NOTHING;
    assert Gone(w5, k - 5) == NOTHING;
    assert Gone(w4, k - 4) == NOTHING;
    assert Gone(w3, k - 3) == NOTHING;
    assert Gone(w2, k - 2) == NOTHING;
    assert Gone(w1, k - 1) == NOTHING;
  }

  lemma AllShiftedOut(w: Word)
    ensures Shifted(Shifted(Shifted(Shifted(Shifted(Shifted(Shifted(Shifted(w)))))))) == NOTHING
  {
  }

  // ---------------------------------------------------------------------------------------
  // The sections of an archive
  // ---------------------------------------------------------------------------------------

  /** The names of the first k files, each ended by a NUL. */
  function Strings(files: seq<File>, k: nat): Bytes
    requires k <= |files|
  {
    if k == 0 then [] else Strings(files, k - 1) + (files[k - 1].name + [ZERO])
  }

  function Contents(files: seq<File>, k: nat): Bytes
    requires k <= |files|
  {
    if k == 0 then [] else Contents(files, k - 1) + files[k - 1].content
  }

  function PutEntry(stringAt: nat, size: nat, contentAt: nat, stored: Word): (s: Bytes)
    ensures |s| == 20
  {
    PutLittle(stringAt, SHORT) + (PutBig(size, SHORT) + (PutLittle(contentAt, SHORT) + PutWord(stored, LONG)))
  }

  function EntryOf(files: seq<File>, i: nat): (s: Bytes)
    requires i < |files|
    ensures |s| == 20
  {
    PutEntry(|Strings(files, i)|, |files[i].content|, |Contents(files, i)|, files[i].stored)
  }

  function Entries(files: seq<File>, k: nat): (s: Bytes)
    requires k <= |files|
    ensures |s| == 20 * k
  {
    if k == 0 then [] else Entries(files, k - 1) + EntryOf(files, k - 1)
  }

  const MAGIC: Bytes := [Byte(80), Byte(65), Byte(75), Byte(79)]

  function PutHeader(stringsAt: nat, contentsAt: nat, n: nat): (s: Bytes)
    ensures |s| == 16
  {
    MAGIC + (PutLittle(stringsAt, SHORT) + (PutLittle(contentsAt, SHORT) + PutLittle(n, SHORT)))
  }

  function StringsAt(files: seq<File>): nat {
    16 + 20 * |files|
  }

  function ContentsAt(files: seq<File>): nat {
    StringsAt(files) + |Strings(files, |files|)|
  }

  function Pack(files: seq<File>): Bytes {
    PutHeader(StringsAt(files), ContentsAt(files), |files|)
      + (Entries(files, |files|) + (Strings(files, |files|) + Contents(files, |files|)))
  }

  /** Files the format can hold: names of C strings that fit the unpacker's buffer, sizes that are
      an int, an archive with 32-bit offsets. */
  ghost predicate Packable(files: seq<File>) {
    && |Pack(files)| < 0x1_0000_0000
    && forall i {:trigger files[i]} :: 0 <= i < |files| ==>
         ZERO !in files[i].name && |files[i].name| < 100 && |files[i].content| < 0x8000_0000
  }

  lemma HeldInside(a: Bytes, p: nat, s: Bytes, q: nat, t: Bytes)
    requires Holds(a, p, s) && Holds(s, q, t)
    ensures Holds(a, p + q, t)
  {
    forall i | 0 <= i < |t|
      ensures a[p + q + i] == t[i]
    {
      assert a[p..p + |s|][q + i] == s[q..q + |t|][i];
    }
  }

  lemma {:induction false} StringIsThere(files: seq<File>, i: nat, k: nat)
    requires i < k <= |files|
    ensures Holds(Strings(files, k), |Strings(files, i)|, files[i].name + [ZERO])
  {
    if i < k - 1 {
      StringIsThere(files, i, k - 1);
      HeldInFront(Strings(files, k - 1), files[k - 1].name + [ZERO], |Strings(files, i)|, files[i].name + [ZERO]);
    }
  }

  lemma {:induction false} ContentIsThere(files: seq<File>, i: nat, k: nat)
    requires i < k <= |files|
    ensures Holds(Contents(files, k), |Contents(files, i)|, files[i].content)
  {
    if i < k - 1 {
      ContentIsThere(files, i, k - 1);
      HeldInFront(Contents(files, k - 1), files[k - 1].content, |Contents(files, i)|, files[i].content);
    }
  }

  lemma {:induction false} EntryIsThere(files: seq<File>, i: nat, k: nat)
    requires i < k <= |files|
    ensures Holds(Entries(files, k), 20 * i, EntryOf(files, i))
  {
    if i < k - 1 {
      EntryIsThere(files, i, k - 1);
      HeldInFront(Entries(files, k - 1), EntryOf(files, k - 1), 20 * i, EntryOf(files, i));
    } else {
      HeldBehind(Entries(files, i), EntryOf(files, i));
    }
  }

  lemma HeldBehind(s: Bytes, t: Bytes)
    ensures Holds(s + t, |s|, t)
  {
  }

  lemma HeldInFront(s: Bytes, more: Bytes, q: nat, t: Bytes)
    requires Holds(s, q, t)
    ensures Holds(s + more, q, t)
  {
    assert (s + more)[q..q + |t|] == s[q..q + |t|];
  }

  lemma {:induction false} SectionsAreThere(files: seq<File>)
    ensures var a := Pack(files);
            && Holds(a, 0, PutHeader(StringsAt(files), ContentsAt(files), |files|))
            && Holds(a, 16, Entries(files, |files|))
            && Holds(a, StringsAt(files), Strings(files, |files|))
            && Holds(a, ContentsAt(files), Contents(files, |files|))
            && |a| == ContentsAt(files) + |Contents(files, |files|)|
  {
    var a := Pack(files);
    var h, e, s, c := PutHeader(StringsAt(files), ContentsAt(files), |files|), Entries(files, |files|),
                      Strings(files, |files|), Contents(files, |files|);
    assert a[0..|a|] == a;
    HeldPart(a, 0, h, e + (s + c));
    HeldPart(a, 16, e, s + c);
    HeldPart(a, StringsAt(files), s, c);
  }

  lemma HeaderIsRead(a: Bytes, stringsAt: nat, contentsAt: nat, n: nat)
    requires Holds(a, 0, PutHeader(stringsAt, contentsAt, n))
    requires stringsAt < 0x1_0000_0000 && contentsAt < 0x1_0000_0000 && n < 0x1_0000_0000
    ensures HeaderOf(a) == Header(stringsAt, contentsAt, n)
  {
    var s, c, k := PutLittle(stringsAt, SHORT), PutLittle(contentsAt, SHORT), PutLittle(n, SHORT);
    HeldPart(a, 0, MAGIC, s + (c + k));
    HeldPart(a, 4, s, c + k);
    HeldPart(a, 8, c, k);
    U32IsShort(stringsAt, 4);
    U32IsShort(contentsAt, 4);
    U32IsShort(n, 4);
    LittleIsRead(a, 4, stringsAt, 4);
    LittleIsRead(a, 8, contentsAt, 4);
    LittleIsRead(a, 12, n, 4);
  }

  lemma EntryIsRead(a: Bytes, p: nat, stringAt: nat, size: nat, contentAt: nat, stored: Word)
    requires Holds(a, p, PutEntry(stringAt, size, contentAt, stored))
    requires stringAt < 0x1_0000_0000 && size < 0x1_0000_0000 && contentAt < 0x1_0000_0000
    ensures EntryAt(a, p) == Entry(stringAt, size, contentAt, stored)
  {
    var s, z, c, w := PutLittle(stringAt, SHORT), PutBig(size, SHORT), PutLittle(contentAt, SHORT), PutWord(stored, LONG);
    HeldPart(a, p, s, z + (c + w));
    HeldPart(a, p + 4, z, c + w);
    HeldPart(a, p + 8, c, w);
    U32IsShort(stringAt, 4);
    U32IsShort(size, 4);
    U32IsShort(contentAt, 4);
    LittleIsRead(a, p, stringAt, 4);
    BigIsRead(a, p + 4, size, 4);
    LittleIsRead(a, p + 8, contentAt, 4);
    WordIsRead(a, p + 12, stored, 8);
    EightBytesGone(stored, 8);
    AllKept(stored, 8);
  }

  lemma {:induction false} PartsAreShorter(files: seq<File>, i: nat, k: nat)
    requires i <= k <= |files|
    ensures |Strings(files, i)| <= |Strings(files, k)| && |Contents(files, i)| <= |Contents(files, k)|
  {
    if i < k {
      PartsAreShorter(files, i, k - 1);
    }
  }

  lemma {:induction false} EntryIsPacked(files: seq<File>, i: nat)
    requires Packable(files) && i < |files|
    ensures EntryAt(Pack(files), EntryPlace(i + 1))
         == Entry(|Strings(files, i)|, |files[i].content|, |Contents(files, i)|, files[i].stored)
  {
    SectionsAreThere(files);
    PartsAreShorter(files, i, |files|);
    EntryIsThere(files, i, |files|);
    HeldInside(Pack(files), 16, Entries(files, |files|), 20 * i, EntryOf(files, i));
    EntryIsRead(Pack(files), EntryPlace(i + 1), |Strings(files, i)|, |files[i].content|, |Contents(files, i)|, files[i].stored);
  }

  lemma {:induction false} NameIsPacked(files: seq<File>, i: nat)
    requires i < |files|
    ensures Holds(Pack(files), StringsAt(files) + |Strings(files, i)|, files[i].name + [ZERO])
  {
    SectionsAreThere(files);
    StringIsThere(files, i, |files|);
    HeldInside(Pack(files), StringsAt(files), Strings(files, |files|), |Strings(files, i)|, files[i].name + [ZERO]);
  }

  lemma {:induction false} ContentIsPacked(files: seq<File>, i: nat)
    requires i < |files|
    ensures Holds(Pack(files), ContentsAt(files) + |Contents(files, i)|, files[i].content)
  {
    SectionsAreThere(files);
    ContentIsThere(files, i, |files|);
    HeldInside(Pack(files), ContentsAt(files), Contents(files, |files|), |Contents(files, i)|, files[i].content);
  }

  /** What is packed is an archive of the format. */
  lemma {:induction false} PackPacks(files: seq<File>)
    requires Packable(files)
    ensures Packs(Pack(files), files)
  {
    var a := Pack(files);
    SectionsAreThere(files);
    HeaderIsRead(a, StringsAt(files), ContentsAt(files), |files|);
    forall i {:trigger files[i]} | 0 <= i < |files|
      ensures Describes(a, HeaderOf(a), EntryAt(a, EntryPlace(i + 1)), files[i])
    {
      EntryIsPacked(files, i);
      NameIsPacked(files, i);
      ContentIsPacked(files, i);
    }
  }

  /** Unpacking finds in what was packed these files, in this order, and no others; it writes the
      intact ones. */
  lemma {:induction false} UnpackedPack(files: seq<File>)
    requires Packable(files)
    ensures Readable(Pack(files))
    ensures var a := Pack(files); FilesIn(a, HeaderOf(a), HeaderOf(a).files) == files
  {
    PackPacks(files);
    PackedIsReadable(Pack(files), files);
    PackedIsExtracted(Pack(files), files, |files|);
    assert files[..|files|] == files;
  }

  /** An archive begins with the letters P, A, K and O. */
  lemma {:induction false} BeginsWithPako(files: seq<File>)
    ensures |Pack(files)| >= 4 && Pack(files)[..4] == [Byte(0x50), Byte(0x41), Byte(0x4b), Byte(0x4f)]
  {
  }
}
