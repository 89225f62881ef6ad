/** Where everything is on the disk, byte by byte, in the terms of the FAT32 File System
    Specification: these statements use none of the definitions they are about. */
module FatLayout {
  import opened FiniteSets
  import opened FatGeometry
  import opened FatTable
  import opened FatChain
  import opened FatDirectory
  import opened FatFile
  import opened FatFrame
  import opened FatWrite

  // ----- the FAT

  /** The bytes of a FAT entry: entry e of copy k is x bytes from the start of that copy, at
      offset o of its sector q; it has two or four bytes, least significant first; the top
      four bits of a FAT32 entry do not count. */
  lemma EntryBytes(g: Geometry, S: Sectors, k: nat, e: nat, x: nat, q: nat, o: nat, lba: nat)
    requires Formatted(g, S) && k < g.numFats && e < g.maxCluster
    requires x == if g.fatType.Fat16? then 2 * e else 4 * e
    requires x == q * g.bytesPerSector + o && o < g.bytesPerSector && lba == g.fatStartLba + k * g.sectorsPerFat + q
    ensures lba < |S| && o + (if g.fatType.Fat16? then 2 else 4) <= |S[lba]|
    ensures var s := S[lba];
      Low(g, Raw(g, S, k, e)) ==
        if g.fatType.Fat16? then s[o] as int + 0x100 * s[o + 1] as int
        else s[o] as int + 0x100 * s[o + 1] as int + 0x1_0000 * s[o + 2] as int + 0x100_0000 * (s[o + 3] as int % 0x10)
  {
    hide Times, Quotient, Remainder;
    PlaceOfEntry(g, k, e, x, q, o);
    FatSectorExists(g, S, k, e);
    LowBytes(g, S[lba], o);
  }

  lemma PlaceOfEntry(g: Geometry, k: nat, e: nat, x: nat, q: nat, o: nat)
    requires x == EntryStart(g, e) == q * g.bytesPerSector + o && o < g.bytesPerSector
    ensures EntryLba(g, k, e) == g.fatStartLba + k * g.sectorsPerFat + q
    ensures EntryOffset(g, e) == o
  {
    hide Times, Quotient, Remainder;
    TimesIsProduct(k, g.sectorsPerFat);
    QuotientIsDivision(x, g.bytesPerSector);
    QuotientUnique(x, g.bytesPerSector, q, o);
  }

  lemma LowBytes(g: Geometry, s: Sector, i: nat)
    requires i + Width(g) <= |s|
    ensures g.fatType.Fat16? ==> Low(g, Load(g, s, i)) == s[i] as int + 0x100 * s[i + 1] as int
    ensures g.fatType.Fat32? ==> Low(g, Load(g, s, i)) == s[i] as int + 0x100 * s[i + 1] as int + 0x1_0000 * s[i + 2] as int + 0x100_0000 * (s[i + 3] as int % 0x10)
  {
  }

  /** In 512-byte sectors with the FAT at sector 1, entry 300 is 88 bytes into the second
      sector of a FAT16, and 176 bytes into the third of a FAT32. */
  lemma EntryExample(g: Geometry)
    requires g.bytesPerSector == 512 && g.fatStartLba == 1
    ensures g.fatType.Fat16? ==> EntryLba(g, 0, 300) == 2 && EntryOffset(g, 300) == 88
    ensures g.fatType.Fat32? ==> EntryLba(g, 0, 300) == 3 && EntryOffset(g, 300) == 176
  {
    hide Quotient, Remainder;
    QuotientIsDivision(EntryStart(g, 300), 512);
  }

  /** A stored chain, entry by entry, in every copy: each cluster holds the number of the
      next, the last the highest of the end marks. */
  lemma ChainOnDisk(g: Geometry, S: Sectors, cl: seq<nat>, k: nat, i: nat)
    requires Formatted(g, S) && ChainStored(g, S, cl) && k < g.numFats && i < |cl|
    ensures 2 <= cl[i] < g.maxCluster
    ensures Low(g, Raw(g, S, k, cl[i])) == if i < |cl| - 1 then cl[i + 1] else if g.fatType.Fat16? then 0xFFFF else 0xFFF_FFFF
  {
    assert InAllCopies(g, S, cl[i], NextIn(g, cl, i));
  }

  // ----- the root directory

  /** The sectors of the root directory in the order of the scans: those of the fixed area
      in FAT16, in FAT32 sector t of the m-th cluster of its chain. */
  lemma DirSectors(g: Geometry, F: seq<nat>, cl: seq<nat>, end: nat, m: nat, t: nat, v: nat)
    requires |F| == g.maxCluster
    requires g.fatType.Fat32? ==> Linked(F, cl, end) && !IsLink(F, end) && cl != [] && cl[0] == g.rootCluster
    requires g.fatType.Fat32? ==> m < |cl| && t < g.sectorsPerCluster && v == m * g.sectorsPerCluster + t
    ensures g.fatType.Fat16? ==> |DirLbas(g, F)| == g.rootDirSectors && forall i :: 0 <= i < g.rootDirSectors ==> DirLbas(g, F)[i] == g.rootDirLba + i
    ensures g.fatType.Fat32? ==> |DirLbas(g, F)| == |cl| * g.sectorsPerCluster && v < |DirLbas(g, F)|
    ensures g.fatType.Fat32? ==> 2 <= cl[m] && DirLbas(g, F)[v] == g.dataStartLba + (cl[m] - 2) * g.sectorsPerCluster + t
  {
    hide Times;
    if g.fatType.Fat32? {
      RangeSize(SetOf(cl), 2, |F|);
      SetOfSize(cl);
      LbasOfChain(g, F, cl, end, g.maxCluster, m, t);
      TimesIsProduct(m, g.sectorsPerCluster);
      TimesIsProduct(|cl|, g.sectorsPerCluster);
      TimesIsProduct(cl[m] - 2, g.sectorsPerCluster);
    }
  }

  lemma {:induction false} LbasOfChain(g: Geometry, F: seq<nat>, cl: seq<nat>, end: nat, n: nat, m: nat, t: nat)
    requires |F| == g.maxCluster && Linked(F, cl, end) && !IsLink(F, end) && 0 < |cl| <= n && m < |cl| && t < g.sectorsPerCluster
    ensures var lbas := ChainLbas(g, F, cl[0], n); var v := Times(m, g.sectorsPerCluster) + t;
      |lbas| == Times(|cl|, g.sectorsPerCluster) && v < |lbas| && lbas[v] == ClusterToLba(g, cl[m]) + t
  {
    if |cl| > 1 {
      LbasOfChain(g, F, cl[1..], end, n - 1, if m > 0 then m - 1 else 0, t);
    }
  }

  // ----- data

  lemma {:induction false} SectorByte(g: Geometry, S: Sectors, lba: nat, n: nat, t: nat, o: nat)
    requires Formatted(g, S) && lba + n <= |S| && t < n && o < g.bytesPerSector
    ensures Times(t, g.bytesPerSector) + o < |SectorBytes(g, S, lba, n)|
    ensures SectorBytes(g, S, lba, n)[Times(t, g.bytesPerSector) + o] == S[lba + t][o]
  {
    if t < n - 1 {
      SectorByte(g, S, lba, n - 1, t, o);
    }
  }

  lemma {:induction false} ChainByte(g: Geometry, S: Sectors, cl: seq<nat>, m: nat, t: nat, o: nat)
    requires Formatted(g, S) && AllClusters(g, cl) && m < |cl| && t < g.sectorsPerCluster && o < g.bytesPerSector
    ensures ClusterToLba(g, cl[m]) + t < |S|
    ensures var j := Times(m, ClusterSize(g)) + Times(t, g.bytesPerSector) + o;
      j < |Content(g, S, cl)| && Content(g, S, cl)[j] == S[ClusterToLba(g, cl[m]) + t][o]
  {
    hide Times, SectorBytes;
    var n := |cl| - 1;
    if m < n {
      ChainByte(g, S, cl[..n], m, t, o);
    } else {
      ClusterOnDisk(g, S, cl[n]);
      ContentLength(g, S, cl[..n]);
      SectorByte(g, S, ClusterToLba(g, cl[n]), g.sectorsPerCluster, t, o);
    }
  }

  /** Byte j of the content of a chain is byte o of its v-th sector, sector t of its
      m-th cluster. */
  lemma ContentByte(g: Geometry, S: Sectors, cl: seq<nat>, m: nat, t: nat, v: nat, o: nat, j: nat, lba: nat)
    requires Formatted(g, S) && AllClusters(g, cl) && m < |cl| && t < g.sectorsPerCluster && o < g.bytesPerSector
    requires v == m * g.sectorsPerCluster + t && j == v * g.bytesPerSector + o
    requires lba == g.dataStartLba + (cl[m] - 2) * g.sectorsPerCluster + t
    ensures j < |Content(g, S, cl)| && lba < |S| && Content(g, S, cl)[j] == S[lba][o]
  {
    hide Times, Content;
    ChainByte(g, S, cl, m, t, o);
    PlaceInContent(g, m, t);
    TimesIsProduct(cl[m] - 2, g.sectorsPerCluster);
  }

  lemma PlaceInContent(g: Geometry, m: nat, t: nat)
    ensures Times(m, ClusterSize(g)) + Times(t, g.bytesPerSector) == (m * g.sectorsPerCluster + t) * g.bytesPerSector
  {
    hide Times;
    TimesIsProduct(m, ClusterSize(g));
    TimesIsProduct(t, g.bytesPerSector);
    TimesIsProduct(g.sectorsPerCluster, g.bytesPerSector);
    Regroup(m, g.sectorsPerCluster, t, g.bytesPerSector);
  }

  lemma Regroup(m: nat, a: nat, t: nat, b: nat)
    ensures (m * a + t) * b == m * (a * b) + t * b
  {
    assert (m * a) * b == m * (a * b);
    assert (m * a + t) * b == (m * a) * b + t * b;
  }

  /** Byte o of a sector of a new file that has some of its data: the data, then zeros. */
  lemma WrittenByte(g: Geometry, S: Sectors, S': Sectors, name: Name, data: seq<byte>, cl: seq<nat>, slot: Slot,
                    m: nat, t: nat, v: nat, o: nat, j: nat, lba: nat)
    requires Written(g, S, S', name, data, cl, slot)
    requires m < |cl| && t < g.sectorsPerCluster && o < g.bytesPerSector && 2 <= cl[m]
    requires v == m * g.sectorsPerCluster + t && j == v * g.bytesPerSector + o && j - o < |data|
    requires lba == g.dataStartLba + (cl[m] - 2) * g.sectorsPerCluster + t
    ensures lba < |S'| && o < |S'[lba]| && S'[lba][o] == if j < |data| then data[j] else 0
  {
    hide Times, Content, AllFree, SlotFrame, FreeSlot, Links, TailZero;
    ContentByte(g, S', cl, m, t, v, o, j, lba);
    if j >= |data| {
      ByteAfter(g, Content(g, S', cl), |data|, v, o, j);
    }
  }

  lemma ByteAfter(g: Geometry, b: seq<byte>, n: nat, v: nat, o: nat, j: nat)
    requires TailZero(g, b, n) && o < g.bytesPerSector && j == v * g.bytesPerSector + o && j - o < n <= j < |b|
    ensures b[j] == 0
  {
    hide Times;
    var q: nat :| TailAt(g, b, n, q);
    BelowMultiple(v, q, g.bytesPerSector, n);
  }

  lemma BelowMultiple(v: nat, q: nat, n: nat, size: nat)
    requires v * n < size <= Times(q, n)
    ensures v * n + n <= Times(q, n)
  {
    TimesIsProduct(q, n);
    if v < q {
      MulOrder(v, q, n);
    } else if q < v {
      MulOrder(q, v, n);
    }
  }

  // ----- directory entries

  /** A slot as the specification lays it out: name at 0, attributes at 11 (archive), the
      first cluster in the words at 26 and, its upper half, at 20, the size at 28, all least
      significant byte first; everything else is zero. */
  ghost predicate RawEntry(s: Sector, i: nat, name: Name, first: nat, size: nat)
    requires i + 32 <= |s|
  {
    && s[i..i + 11] == name && s[i + 11] == 0x20
    && (forall j :: i + 12 <= j < i + 20 || i + 22 <= j < i + 26 ==> s[j] == 0)
    && first == s[i + 26] as int + 0x100 * s[i + 27] as int + 0x1_0000 * s[i + 20] as int + 0x100_0000 * s[i + 21] as int
    && size == s[i + 28] as int + 0x100 * s[i + 29] as int + 0x1_0000 * s[i + 30] as int + 0x100_0000 * s[i + 31] as int
  }

  lemma NewEntryIsRaw(name: Name, first: nat, size: nat)
    requires first < 0x1_0000_0000 && size < 0x1_0000_0000
    ensures RawEntry(DirEntry(name, first, size), 0, name, first, size)
  {
    var b := DirEntry(name, first, size);
    assert b[..11] == name;
    assert Le32(b, 28) == size;
  }

  lemma RawEntryInPlace(s: Sector, i: nat, b: seq<byte>, name: Name, first: nat, size: nat)
    requires i + 32 <= |s| && |b| == 32 && RawEntry(b, 0, name, first, size)
    ensures RawEntry(Splice(s, i, b), i, name, first, size)
  {
    var t := Splice(s, i, b);
    assert forall j :: 0 <= j < 32 ==> t[i + j] == b[j];
    assert t[i..i + 11] == b[0..11];
  }

  /** The slot of a new file. */
  lemma WrittenEntry(g: Geometry, S: Sectors, S': Sectors, name: Name, data: seq<byte>, cl: seq<nat>, slot: Slot)
    requires Written(g, S, S', name, data, cl, slot)
    ensures slot.lba < |S'| && slot.offset + 32 <= |S'[slot.lba]| && RawEntry(S'[slot.lba], slot.offset, name, cl[0], |data|)
  {
    hide Times, Content, AllFree, ChainStored, Links, Frame, FreeSlot;
    NewEntryIsRaw(name, cl[0], |data|);
    RawEntryInPlace(S[slot.lba], slot.offset, DirEntry(name, cl[0], |data|), name, cl[0], |data|);
  }

  /** The slot of a deleted file: one byte of its sector is different. */
  lemma DeletedSector(g: Geometry, S: Sectors, S': Sectors, freed: set<nat>, slot: Slot)
    requires slot.lba < |S| && slot.offset + 32 <= |S[slot.lba]|
    requires SlotFrame(g, S, S', freed, slot, DeletedEntry(S[slot.lba], slot.offset))
    ensures S'[slot.lba] == S[slot.lba][slot.offset := 0xE5]
  {
    hide Times, Frame;
    var (s, i) := (S[slot.lba], slot.offset);
    assert forall j :: i < j < i + 32 ==> DeletedEntry(s, i)[j - i] == s[j];
  }

  lemma FieldsDecoded(s: Sector, i: nat)
    requires i + 32 <= |s|
    ensures FirstClusterAt(s, i) == s[i + 26] as int + 0x100 * s[i + 27] as int + 0x1_0000 * s[i + 20] as int + 0x100_0000 * s[i + 21] as int
    ensures FileSizeAt(s, i) == s[i + 28] as int + 0x100 * s[i + 29] as int + 0x1_0000 * s[i + 30] as int + 0x100_0000 * s[i + 31] as int
  {
  }

  /** What reading takes from a slot, whoever wrote it: first cluster and size; and of the 256
      attribute bytes those of a volume label (0x08) or directory (0x10) are skipped. */
  lemma EntryDecoded(s: Sector, i: nat, a: bv8)
    requires i + 32 <= |s| && s[i + 11] == a as int
    ensures FirstClusterAt(s, i) == s[i + 26] as int + 0x100 * s[i + 27] as int + 0x1_0000 * s[i + 20] as int + 0x100_0000 * s[i + 21] as int
    ensures FileSizeAt(s, i) == s[i + 28] as int + 0x100 * s[i + 29] as int + 0x1_0000 * s[i + 30] as int + 0x100_0000 * s[i + 31] as int
    ensures IsFileSlot(s, i, s[i..i + 11]) <==> a & 0x18 == 0
  {
    FieldsDecoded(s, i);
    AttributeBits(a);
  }

  /** What a reader gets of a file that any system has written: the bytes of the disk. */
  lemma FileByte(g: Geometry, S: Sectors, name: Name, slot: Slot, cl: seq<nat>, end: nat, size: nat, limit: nat,
                 m: nat, t: nat, v: nat, o: nat, j: nat, lba: nat)
    requires Formatted(g, S) && SlotOf(g, S, name) == Found(slot)
    requires Linked(Links(g, S), cl, end) && |cl| > 0 && (|cl| - 1) * ClusterSize(g) < size <= |cl| * ClusterSize(g)
    requires var (s, i) := (S[slot.lba], slot.offset);
      && cl[0] == s[i + 26] as int + 0x100 * s[i + 27] as int + 0x1_0000 * s[i + 20] as int + 0x100_0000 * s[i + 21] as int
      && size == s[i + 28] as int + 0x100 * s[i + 29] as int + 0x1_0000 * s[i + 30] as int + 0x100_0000 * s[i + 31] as int
    requires m < |cl| && t < g.sectorsPerCluster && o < g.bytesPerSector && 2 <= cl[m]
    requires v == m * g.sectorsPerCluster + t && j == v * g.bytesPerSector + o && j < size <= limit
    requires lba == g.dataStartLba + (cl[m] - 2) * g.sectorsPerCluster + t
    ensures SizeOf(g, S, name) == size && |FirstBytes(g, S, name, limit)| == size
    ensures lba < |S| && o < |S[lba]| && FirstBytes(g, S, name, limit)[j] == S[lba][o]
  {
    hide Times, Content, Links, SlotOf, ChainFor, FirstClusterAt, FileSizeAt;
    FieldsDecoded(S[slot.lba], slot.offset);
    TimesIsProduct(|cl| - 1, ClusterSize(g));
    TimesIsProduct(|cl|, ClusterSize(g));
    ChainForLinked(g, Links(g, S), cl, end, size);
    ContentLength(g, S, cl);
    ContentByte(g, S, cl, m, t, v, o, j, lba);
  }

  lemma AttributeBits(a: bv8)
    ensures ((a as int) / 8) % 4 == 0 <==> a & 0x18 == 0
  {
    assert (a as int) / 8 == (a >> 3) as int;
    assert ((a >> 3) as int) % 4 == ((a >> 3) & 3) as int;
  }

  const NAME: Name := [0x4D, 0x45, 0x4D, 0x20, 0x20, 0x20, 0x20, 0x20, 0x54, 0x58, 0x54]

  /** MEM.TXT, with attribute byte `a`, first cluster 5 and 700 bytes, as another system
      writes it. */
  function Example(a: byte): seq<byte> {
    [0x4D, 0x45, 0x4D, 0x20, 0x20, 0x20, 0x20, 0x20, 0x54, 0x58, 0x54, a, 0, 0, 0, 0,
     0, 0, 0, 0, 0, 0, 0, 0, 0, 0, 0x05, 0x00, 0xBC, 0x02, 0, 0]
  }

  lemma SlotIn(p: seq<byte>, e: seq<byte>, q: seq<byte>, i: nat)
    requires |e| == 32 && i == |p|
    ensures var s := p + e + q; s[i] == e[0] && s[i + 11] == e[11] && s[i..i + 11] == e[..11]
    ensures FirstClusterAt(p + e + q, i) == FirstClusterAt(e, 0) && FileSizeAt(p + e + q, i) == FileSizeAt(e, 0)
  {
    var s := p + e + q;
    assert forall j :: 0 <= j < 32 ==> s[i + j] == e[j];
    assert s[i..i + 11] == e[..11];
  }

  lemma PassedOver(s: Sector, i: nat)
    requires i + 32 <= |s| && s[i] != 0x00 && s[i] != 0xE5 && (s[i + 11] / 8) % 4 != 0
    ensures Look(s, NAME, i) == Look(s, NAME, i + 32) && FirstFree(s, i) == FirstFree(s, i + 32)
  {
  }

  /** A directory sector with a volume label, a directory, a slot x and a file, all of the
      same name. If x is deleted (0xE5), the search finds the file, with its cluster and
      size, and x is the first free slot; if x is an end mark (0x00), it hides the file. */
  lemma SearchExample(x: seq<byte>)
    requires |x| == 32
    ensures var s := Example(0x08) + Example(0x10) + x + Example(0x20);
      && (x[0] == 0xE5 ==> Look(s, NAME, 0) == Found(96) && FirstClusterAt(s, 96) == 5 && FileSizeAt(s, 96) == 700)
      && (x[0] == 0x00 ==> Look(s, NAME, 0) == EndMark)
      && (x[0] == 0xE5 || x[0] == 0x00 ==> FirstFree(s, 0) == Found(64))
  {
    hide FirstClusterAt, FileSizeAt, Look, FirstFree;
    var (a, b, c) := (Example(0x08), Example(0x10), Example(0x20));
    var s := a + b + x + c;
    ExampleParts(0x08);
    ExampleParts(0x10);
    ExampleParts(0x20);
    hide Example;
    assert s == [] + a + (b + x + c);
    SlotIn([], a, b + x + c, 0);
    assert s == a + b + (x + c);
    SlotIn(a, b, x + c, 32);
    assert s[64] == x[0];
    assert s == (a + b + x) + c + [];
    SlotIn(a + b + x, c, [], 96);
    SearchFourSlots(s);
  }

  lemma SearchFourSlots(s: Sector)
    requires |s| == 128 && s[0] == s[32] == s[96] == 0x4D && s[11] == 0x08 && s[43] == 0x10 && s[107] == 0x20
    requires s[96..107] == NAME
    ensures s[64] == 0xE5 ==> Look(s, NAME, 0) == Found(96)
    ensures s[64] == 0x00 ==> Look(s, NAME, 0) == EndMark
    ensures s[64] == 0xE5 || s[64] == 0x00 ==> FirstFree(s, 0) == Found(64)
  {
    PassedOver(s, 0);
    PassedOver(s, 32);
    assert Look(s, NAME, 96) == Found(96);
  }

  lemma ExampleParts(a: byte)
    ensures |Example(a)| == 32 && Example(a)[0] == 0x4D && Example(a)[11] == a && Example(a)[..11] == NAME
    ensures FirstClusterAt(Example(a), 0) == 5 && FileSizeAt(Example(a), 0) == 700
  {
  }
}
