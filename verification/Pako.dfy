/**
The PAKO unpacker of Lab 2: a cursor that moves over the archive by offsets, and the files it
writes; against the format as Lab2/README.md describes it.
*/
module Pako {
  import opened Octets
  import opened Sequences
  import opened PakoChecksum

  // ---------------------------------------------------------------------------------------
  // Numbers and windows of the archive
  // ---------------------------------------------------------------------------------------

  /** The widths of int32_t and uint64_t. */
  const SHORT: nat := 4
  const LONG: nat := 8

  function Value(b: Byte): Octet {
    b.bits as int
  }

  /** n bytes from p on as an unsigned number, the low byte first. */
  function Little(c: Bytes, p: nat, n: nat): nat
    decreases |c|, n
  {
    if n == 0 then 0 else Value(At(c, p)) + 256 * Little(c, p + 1, n - 1)
  }

  /** The high byte first. */
  function Big(c: Bytes, p: nat, n: nat): nat {
    if n == 0 then 0 else 256 * Big(c, p, n - 1) + Value(At(c, p + n - 1))
  }

  /** be64toh of the first n of eight bytes. */
  function BigWord(c: Bytes, p: nat, n: nat): Word {
    if n == 0 then NOTHING else AppendByte(BigWord(c, p, n - 1), At(c, p + n - 1))
  }

  /** n bytes from p on; beyond the end of the archive a zeroed buffer stays as it was. */
  function Window(c: Bytes, p: nat, n: nat): (w: Bytes)
    ensures |w| == n
  {
    seq(n, i requires 0 <= i < n => At(c, p + i))
  }

  /** A buffer up to its first NUL. */
  function NameIn(b: Bytes): (t: Bytes)
    ensures |t| <= |b| && t == b[..|t|] && ZERO !in t && (|t| < |b| ==> b[|t|] == ZERO)
  {
    if b == [] || b[0] == ZERO then [] else [b[0]] + NameIn(b[1..])
  }

  // ---------------------------------------------------------------------------------------
  // What the program takes from an archive
  // ---------------------------------------------------------------------------------------

  datatype Header = Header(offsetString: nat, offsetContent: nat, files: nat)

  datatype Entry = Entry(offsetString: nat, fileSize: nat, offsetContent: nat, checksum: Word)

  function HeaderOf(a: Bytes): Header {
    Header(Little(a, 4, SHORT), Little(a, 8, SHORT), Little(a, 12, SHORT))
  }

  function EntryAt(a: Bytes, p: nat): Entry {
    Entry(Little(a, p, SHORT), Big(a, p + 4, SHORT), Little(a, p + 8, SHORT), BigWord(a, p + 12, LONG))
  }

  function Place(base: nat, offset: nat): nat {
    (base + offset) % 0x1_0000_0000
  }

  function NameOf(a: Bytes, h: Header, e: Entry): Bytes {
    NameIn(Window(a, Place(h.offsetString, e.offsetString), 100))
  }

  function ContentOf(a: Bytes, h: Header, e: Entry): Bytes {
    Window(a, Place(h.offsetContent, e.offsetContent), e.fileSize)
  }

  /** A packed file: its name and content, and the checksum its entry gives. */
  datatype File = File(name: Bytes, content: Bytes, stored: Word)

  function FileOf(a: Bytes, h: Header, e: Entry): File {
    File(NameOf(a, h, e), ContentOf(a, h, e), e.checksum)
  }

  predicate Intact(f: File) {
    f.stored == Checksum(f.content)
  }

  /** The files of the destination after one more: a damaged one is left out. */
  function PutFile(f: File, dst: Bytes, disk: map<Bytes, Bytes>): map<Bytes, Bytes> {
    if Intact(f) then disk[dst + f.name := f.content] else disk
  }

  /** Where entry i is, counted from one. */
  function EntryPlace(i: nat): nat
    requires i > 0
  {
    16 + 20 * (i - 1)
  }

  /** What the first n entries give. */
  function FilesIn(a: Bytes, h: Header, n: nat): (files: seq<File>)
    ensures |files| == n
  {
    if n == 0 then [] else FilesIn(a, h, n - 1) + [FileOf(a, h, EntryAt(a, EntryPlace(n)))]
  }

  /** The destination after the files are put there in order, the damaged ones left out. */
  function Extracted(files: seq<File>, dst: Bytes, disk: map<Bytes, Bytes>): map<Bytes, Bytes> {
    if files == [] then disk
    else
      var n := |files| - 1;
      PutFile(files[n], dst, Extracted(files[..n], dst, disk))
  }

  lemma {:induction false} OneMoreExtracted(files: seq<File>, f: File, dst: Bytes, disk: map<Bytes, Bytes>)
    ensures Extracted(files + [f], dst, disk) == PutFile(f, dst, Extracted(files, dst, disk))
  {
    assert (files + [f])[..|files|] == files;
  }

  /** What the program needs of its buffers: whole entries, sizes that are an int, names that
      end inside 100 bytes. */
  ghost predicate Readable(a: Bytes) {
    var h := HeaderOf(a);
    && |a| >= 16 + 20 * h.files
    && forall i :: 1 <= i <= h.files ==>
         var e := EntryAt(a, EntryPlace(i));
         e.fileSize < 0x8000_0000 && |NameOf(a, h, e)| < 100
  }

  lemma LittleIs(c: Bytes, p: nat)
    ensures Little(c, p, 4)
         == Value(At(c, p)) + 256 * Value(At(c, p + 1)) + 65536 * Value(At(c, p + 2)) + 16777216 * Value(At(c, p + 3))
  {
    assert Little(c, p + 4, 0) == 0;
    assert Little(c, p + 3, 1) == Value(At(c, p + 3));
    assert Little(c, p + 2, 2) == Value(At(c, p + 2)) + 256 * Value(At(c, p + 3));
  }

  lemma BigIs(c: Bytes, p: nat)
    ensures Big(c, p, 4)
         == 16777216 * Value(At(c, p)) + 65536 * Value(At(c, p + 1)) + 256 * Value(At(c, p + 2)) + Value(At(c, p + 3))
  {
    assert Big(c, p, 1) == Value(At(c, p));
    assert Big(c, p, 2) == 256 * Value(At(c, p)) + Value(At(c, p + 1));
  }

  /** The fields of the header, byte by byte: string section, content section, number of files. */
  lemma FieldsOfHeader(a: Bytes)
    requires |a| >= 16
    ensures var h := HeaderOf(a);
            && h.offsetString == Value(a[4]) + 256 * Value(a[5]) + 65536 * Value(a[6]) + 16777216 * Value(a[7])
            && h.offsetContent == Value(a[8]) + 256 * Value(a[9]) + 65536 * Value(a[10]) + 16777216 * Value(a[11])
            && h.files == Value(a[12]) + 256 * Value(a[13]) + 65536 * Value(a[14]) + 16777216 * Value(a[15])
  {
    LittleIs(a, 4);
    LittleIs(a, 8);
    LittleIs(a, 12);
  }

  /** The fields of an entry: the size alone has its high byte first, as has the checksum. */
  lemma FieldsOfEntry(a: Bytes, p: nat)
    requires p + 20 <= |a|
    ensures var e := EntryAt(a, p);
            && e.offsetString == Value(a[p]) + 256 * Value(a[p + 1]) + 65536 * Value(a[p + 2]) + 16777216 * Value(a[p + 3])
            && e.fileSize == 16777216 * Value(a[p + 4]) + 65536 * Value(a[p + 5]) + 256 * Value(a[p + 6]) + Value(a[p + 7])
            && e.offsetContent == Value(a[p + 8]) + 256 * Value(a[p + 9]) + 65536 * Value(a[p + 10]) + 16777216 * Value(a[p + 11])
            && e.checksum == Load(a[p + 19], a[p + 18], a[p + 17], a[p + 16], a[p + 15], a[p + 14], a[p + 13], a[p + 12])
  {
    LittleIs(a, p);
    BigIs(a, p + 4);
    LittleIs(a, p + 8);
    WordIsLoad(a, p + 12);
  }

  lemma AppendedLoad(b1: Byte, b2: Byte, b3: Byte, b4: Byte, b5: Byte, b6: Byte, b7: Byte, b: Byte)
    ensures AppendByte(Load(b1, b2, b3, b4, b5, b6, b7, ZERO), b) == Load(b, b1, b2, b3, b4, b5, b6, b7)
  {
  }

  lemma BigWordMore(a: Bytes, p: nat, k: nat)
    requires p + k < |a|
    ensures BigWord(a, p, k + 1) == AppendByte(BigWord(a, p, k), a[p + k])
  {
  }

  lemma HalfWordIsLoad(a: Bytes, p: nat)
    requires p + 8 <= |a|
    ensures BigWord(a, p, 4) == Load(a[p + 3], a[p + 2], a[p + 1], a[p], ZERO, ZERO, ZERO, ZERO)
  {
    assert BigWord(a, p, 0) == Load(ZERO, ZERO, ZERO, ZERO, ZERO, ZERO, ZERO, ZERO);
    BigWordMore(a, p, 0);
    AppendedLoad(ZERO, ZERO, ZERO, ZERO, ZERO, ZERO, ZERO, a[p]);
    BigWordMore(a, p, 1);
    AppendedLoad(a[p], ZERO, ZERO, ZERO, ZERO, ZERO, ZERO, a[p + 1]);
    BigWordMore(a, p, 2);
    AppendedLoad(a[p + 1], a[p], ZERO, ZERO, ZERO, ZERO, ZERO, a[p + 2]);
    BigWordMore(a, p, 3);
    AppendedLoad(a[p + 2], a[p + 1], a[p], ZERO, ZERO, ZERO, ZERO, a[p + 3]);
  }

  lemma WordIsLoad(a: Bytes, p: nat)
    requires p + 8 <= |a|
    ensures BigWord(a, p, LONG) == Load(a[p + 7], a[p + 6], a[p + 5], a[p + 4], a[p + 3], a[p + 2], a[p + 1], a[p])
  {
    HalfWordIsLoad(a, p);
    BigWordMore(a, p, 4);
    AppendedLoad(a[p + 3], a[p + 2], a[p + 1], a[p], ZERO, ZERO, ZERO, a[p + 4]);
    BigWordMore(a, p, 5);
    AppendedLoad(a[p + 4], a[p + 3], a[p + 2], a[p + 1], a[p], ZERO, ZERO, a[p + 5]);
    BigWordMore(a, p, 6);
    AppendedLoad(a[p + 5], a[p + 4], a[p + 3], a[p + 2], a[p + 1], a[p], ZERO, a[p + 6]);
    BigWordMore(a, p, 7);
    AppendedLoad(a[p + 6], a[p + 5], a[p + 4], a[p + 3], a[p + 2], a[p + 1], a[p], a[p + 7]);
  }

  // ---------------------------------------------------------------------------------------
  // The program
  // ---------------------------------------------------------------------------------------

  /** A FILE opened for reading. */
  class Stream {
    const data: Bytes
    var pos: nat

    constructor (data: Bytes)
      ensures this.data == data && pos == 0
    {
      this.data := data;
      pos := 0;
    }

    method Seek(p: nat)
      modifies this
      ensures pos == p
    {
      pos := p;
    }

    /** fread into a zeroed buffer of n bytes. */
    method Read(n: nat) returns (buffer: Bytes)
      modifies this
      ensures buffer == Window(data, old(pos), n)
      ensures pos == if old(pos) + n <= |data| then old(pos) + n else if old(pos) <= |data| then |data| else old(pos)
    {
      buffer := Window(data, pos, n);
      if pos + n <= |data| {
        pos := pos + n;
      } else if pos <= |data| {
        pos := |data|;
      }
    }
  }

  lemma {:induction false} LittleInWindow(c: Bytes, q: nat, size: nat, p: nat, n: nat)
    requires p + n <= size
    decreases n
    ensures Little(Window(c, q, size), p, n) == Little(c, q + p, n)
  {
    if n > 0 {
      LittleInWindow(c, q, size, p + 1, n - 1);
      assert q + (p + 1) == q + p + 1;
      WindowAt(c, q, size, p);
    }
  }

  lemma {:induction false} BigInWindow(c: Bytes, q: nat, size: nat, p: nat, n: nat)
    requires p + n <= size
    ensures Big(Window(c, q, size), p, n) == Big(c, q + p, n)
  {
    if n > 0 {
      BigInWindow(c, q, size, p, n - 1);
      WindowAt(c, q, size, p + n - 1);
    }
  }

  lemma {:induction false} WordInWindow(c: Bytes, q: nat, size: nat, p: nat, n: nat)
    requires p + n <= size
    ensures BigWord(Window(c, q, size), p, n) == BigWord(c, q + p, n)
  {
    if n > 0 {
      WordInWindow(c, q, size, p, n - 1);
      WindowAt(c, q, size, p + n - 1);
    }
  }

  lemma WindowAt(c: Bytes, p: nat, n: nat, i: nat)
    requires i < n
    ensures At(Window(c, p, n), i) == At(c, p + i)
  {
  }

  lemma HeaderInWindow(a: Bytes)
    ensures HeaderOf(Window(a, 0, 16)) == HeaderOf(a)
  {
    LittleInWindow(a, 0, 16, 4, 4);
    LittleInWindow(a, 0, 16, 8, 4);
    LittleInWindow(a, 0, 16, 12, 4);
  }

  lemma EntryInWindow(a: Bytes, p: nat)
    ensures EntryAt(Window(a, p, 20), 0) == EntryAt(a, p)
  {
    LittleInWindow(a, p, 20, 0, 4);
    BigInWindow(a, p, 20, 4, 4);
    LittleInWindow(a, p, 20, 8, 4);
    WordInWindow(a, p, 20, 12, 8);
  }

  /** fread into the header structure, at the start of the archive. */
  method ReadHeader(fp: Stream) returns (header: Header)
    requires fp.pos == 0
    modifies fp
    ensures header == HeaderOf(fp.data)
    ensures 16 <= |fp.data| ==> fp.pos == 16
  {
    var buffer := fp.Read(16);
    HeaderInWindow(fp.data);
    header := HeaderOf(buffer);
  }

  /** fread into the entry structure, wherever the cursor is. */
  method ReadEntry(fp: Stream) returns (file: Entry)
    modifies fp
    ensures file == EntryAt(fp.data, old(fp.pos))
  {
    EntryInWindow(fp.data, fp.pos);
    var buffer := fp.Read(20);
    file := EntryAt(buffer, 0);
  }

  /** One round of the loop: the entry under the cursor, its name, its content, its test. */
  method TakeEntry(fp: Stream, header: Header, dst: Bytes, disk0: map<Bytes, Bytes>, i: nat)
    returns (disk: map<Bytes, Bytes>)
    modifies fp
    ensures disk == PutFile(FileOf(fp.data, header, EntryAt(fp.data, old(fp.pos))), dst, disk0)
    ensures fp.pos == EntryPlace(i + 1)
  {
    var file := ReadEntry(fp);
    fp.Seek(Place(header.offsetString, file.offsetString));
    var buffer := fp.Read(100);
    fp.Seek(Place(header.offsetContent, file.offsetContent));
    var content := fp.Read(file.fileSize);
    var segment_xor := XorOfContent(content);
    disk := disk0;
    if file.checksum == segment_xor {
      disk := disk[dst + NameIn(buffer) := content];
    }
    fp.Seek(16 + i * 20);
  }

  /** The rounds: at the end of each the cursor goes to the next entry. */
  method TakeEntries(fp: Stream, header: Header, dst: Bytes, disk0: map<Bytes, Bytes>) returns (disk: map<Bytes, Bytes>)
    requires fp.pos == 16
    modifies fp
    ensures disk == Extracted(FilesIn(fp.data, header, header.files), dst, disk0)
  {
    disk := disk0;
    var i := 1;
    while i <= header.files
      invariant 1 <= i <= header.files + 1 && fp.pos == EntryPlace(i)
      invariant disk == Extracted(FilesIn(fp.data, header, i - 1), dst, disk0)
    {
      OneMoreExtracted(FilesIn(fp.data, header, i - 1), FileOf(fp.data, header, EntryAt(fp.data, fp.pos)), dst, disk0);
      disk := TakeEntry(fp, header, dst, disk, i);
      i := i + 1;
    }
    assert i - 1 == header.files;
  }

  /** main. */
  method Unpack(fp: Stream, dst: Bytes, disk0: map<Bytes, Bytes>) returns (disk: map<Bytes, Bytes>)
    requires fp.pos == 0 && Readable(fp.data)
    modifies fp
    ensures disk == Extracted(FilesIn(fp.data, HeaderOf(fp.data), HeaderOf(fp.data).files), dst, disk0)
  {
    var header := ReadHeader(fp);
    disk := TakeEntries(fp, header, dst, disk0);
  }

  // ---------------------------------------------------------------------------------------
  // Archives as the format describes them
  // ---------------------------------------------------------------------------------------

  /** The octets at p are s. */
  ghost predicate Holds(a: Bytes, p: nat, s: Bytes) {
    p + |s| <= |a| && a[p..p + |s|] == s
  }

  /** The entry at p describes the file: where its name is in the string section, ended by a
      NUL, and where its content is in the content section. */
  ghost predicate Describes(a: Bytes, h: Header, e: Entry, f: File) {
    && Holds(a, h.offsetString + e.offsetString, f.name + [ZERO])
    && Holds(a, h.offsetContent + e.offsetContent, f.content)
    && ZERO !in f.name && |f.name| < 100
    && e.fileSize == |f.content| < 0x8000_0000
    && e.checksum == f.stored
  }

  /** The archive packs these files, in this order. */
  ghost predicate Packs(a: Bytes, files: seq<File>) {
    var h := HeaderOf(a);
    && |a| < 0x1_0000_0000 && h.files == |files| && |a| >= 16 + 20 * |files|
    && forall i {:trigger files[i]} :: 0 <= i < |files| ==> Describes(a, h, EntryAt(a, EntryPlace(i + 1)), files[i])
  }

  lemma NameEnds(b: Bytes, name: Bytes)
    requires |name| < |b| && b[..|name|] == name && b[|name|] == ZERO && ZERO !in name
    ensures NameIn(b) == name
  {
    NotAmong(b, |NameIn(b)|, ZERO);
    NotAmong(b, |name|, ZERO);
    assert NameIn(b) == b[..|NameIn(b)|];
  }

  lemma HeldContent(a: Bytes, p: nat, s: Bytes)
    requires Holds(a, p, s)
    ensures Window(a, p, |s|) == s
  {
    forall i | 0 <= i < |s|
      ensures At(a, p + i) == s[i]
    {
      assert a[p..p + |s|][i] == a[p + i];
    }
  }

  lemma HeldName(a: Bytes, p: nat, name: Bytes)
    requires Holds(a, p, name + [ZERO]) && ZERO !in name && |name| < 100
    ensures NameIn(Window(a, p, 100)) == name
  {
    var b, s := Window(a, p, 100), name + [ZERO];
    forall i | 0 <= i < |s|
      ensures b[i] == s[i]
    {
      assert b[i] == At(a, p + i) == a[p..p + |s|][i];
    }
    assert b[..|name|] == name;
    NameEnds(b, name);
  }

  lemma DescribedIsTaken(a: Bytes, h: Header, e: Entry, f: File)
    requires |a| < 0x1_0000_0000 && Describes(a, h, e, f)
    ensures FileOf(a, h, e) == f
  {
    NameIsTaken(a, h, e, f.name);
    ContentIsTaken(a, h, e, f.content);
  }

  lemma NameIsTaken(a: Bytes, h: Header, e: Entry, name: Bytes)
    requires |a| < 0x1_0000_0000 && Holds(a, h.offsetString + e.offsetString, name + [ZERO])
    requires ZERO !in name && |name| < 100
    ensures NameOf(a, h, e) == name
  {
    HeldName(a, h.offsetString + e.offsetString, name);
  }

  lemma ContentIsTaken(a: Bytes, h: Header, e: Entry, content: Bytes)
    requires |a| < 0x1_0000_0000 && Holds(a, h.offsetContent + e.offsetContent, content) && e.fileSize == |content|
    ensures ContentOf(a, h, e) == content
  {
    var p := h.offsetContent + e.offsetContent;
    HeldContent(a, p, content);
    assert content != [] ==> Place(h.offsetContent, e.offsetContent) == p;
  }

  lemma PackedIsTaken(a: Bytes, files: seq<File>, i: nat, e: Entry)
    requires Packs(a, files) && i < |files| && e == EntryAt(a, EntryPlace(i + 1))
    ensures FileOf(a, HeaderOf(a), e) == files[i] && e.fileSize < 0x8000_0000 && |files[i].name| < 100
  {
    assert Describes(a, HeaderOf(a), e, files[i]);
    DescribedIsTaken(a, HeaderOf(a), e, files[i]);
  }

  /** The entries of an archive give the files it packs, in order: unpacking puts these into the
      destination, except those whose stored checksum is not that of their content. */
  lemma {:induction false} PackedIsExtracted(a: Bytes, files: seq<File>, n: nat)
    requires Packs(a, files) && n <= |files|
    ensures FilesIn(a, HeaderOf(a), n) == files[..n]
  {
    if n > 0 {
      PackedIsExtracted(a, files, n - 1);
      PackedIsTaken(a, files, n - 1, EntryAt(a, EntryPlace(n)));
      assert files[..n] == files[..n - 1] + [files[n - 1]];
    }
  }

  lemma PackedIsReadable(a: Bytes, files: seq<File>)
    requires Packs(a, files)
    ensures Readable(a)
  {
    var h := HeaderOf(a);
    forall i | 1 <= i <= h.files
      ensures EntryAt(a, EntryPlace(i)).fileSize < 0x8000_0000 && |NameOf(a, h, EntryAt(a, EntryPlace(i)))| < 100
    {
      PackedIsTaken(a, files, i - 1, EntryAt(a, EntryPlace(i)));
    }
  }

  // ---------------------------------------------------------------------------------------
  // What is in the destination afterwards
  // ---------------------------------------------------------------------------------------

  ghost predicate DistinctNames(files: seq<File>) {
    forall i, j :: 0 <= i < j < |files| ==> files[i].name != files[j].name
  }

  /** At this path the destination holds the content of the intact file that goes there, or
      nothing when there is none. */
  ghost predicate HoldsIntact(disk: map<Bytes, Bytes>, files: seq<File>, dst: Bytes, path: Bytes) {
    && (path in disk <==> exists i :: 0 <= i < |files| && Intact(files[i]) && path == dst + files[i].name)
    && forall i :: 0 <= i < |files| && Intact(files[i]) && path == dst + files[i].name ==>
                     path in disk && disk[path] == files[i].content
  }

  lemma {:induction false} PutIntact(disk: map<Bytes, Bytes>, files: seq<File>, f: File, dst: Bytes, path: Bytes)
    requires HoldsIntact(disk, files, dst, path) && DistinctNames(files + [f])
    ensures HoldsIntact(PutFile(f, dst, disk), files + [f], dst, path)
  {
    var all, n := files + [f], |files|;
    assert all[n] == f && forall i :: 0 <= i < n ==> all[i] == files[i];
    if path == dst + f.name {
      forall i | 0 <= i < n
        ensures path != dst + files[i].name
      {
        assert all[i].name != all[n].name;
        SamePath(dst, files[i].name, f.name);
      }
    }
  }

  /** A destination that began empty holds exactly the intact files, each with its content. */
  lemma {:induction false} ExactlyTheIntactFiles(files: seq<File>, dst: Bytes, path: Bytes)
    requires DistinctNames(files)
    ensures HoldsIntact(Extracted(files, dst, map[]), files, dst, path)
  {
    if files != [] {
      var n := |files| - 1;
      assert files == files[..n] + [files[n]];
      ExactlyTheIntactFiles(files[..n], dst, path);
      PutIntact(Extracted(files[..n], dst, map[]), files[..n], files[n], dst, path);
    }
  }

  lemma SamePath(dst: Bytes, a: Bytes, b: Bytes)
    ensures dst + a == dst + b <==> a == b
  {
    assert (dst + a)[|dst|..] == a && (dst + b)[|dst|..] == b;
  }

  /** A file whose content was damaged inside eight consecutive bytes after it was packed is not
      written. */
  lemma DamagedFileIsLeftOut(files: seq<File>, k: nat, original: Bytes, p: nat, dst: Bytes)
    requires DistinctNames(files) && k < |files|
    requires files[k].stored == Checksum(original) && DifferWithin(original, files[k].content, p)
    ensures dst + files[k].name !in Extracted(files, dst, map[])
  {
    DamageIsDetected(original, files[k].content, p);
    ExactlyTheIntactFiles(files, dst, dst + files[k].name);
    forall i | 0 <= i < |files| && dst + files[k].name == dst + files[i].name
      ensures i == k
    {
      SamePath(dst, files[k].name, files[i].name);
    }
  }
}
