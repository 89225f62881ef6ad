/** Mounting: what the boot sector of a volume says about its layout. */
module FatBoot {
  import opened FatGeometry
  import opened FatTable

  function Wrap32(x: nat): nat {
    x % 0x1_0000_0000
  }

  // The fields of the boot sector.

  function SectorsPerFat(b: Sector): nat
    requires |b| >= 512
  {
    if Le16(b, 22) != 0 then Le16(b, 22) else Le32(b, 36)
  }

  function TotalSectors(b: Sector): nat
    requires |b| >= 512
  {
    if Le16(b, 19) != 0 then Le16(b, 19) else Le32(b, 32)
  }

  function RootDirSectors(b: Sector): nat
    requires |b| >= 512 && Le16(b, 11) > 0
  {
    Quotient(Le16(b, 17) * DIR_ENTRY_SIZE + (Le16(b, 11) - 1), Le16(b, 11)) % 0x1_0000
  }

  /** First sector after the FATs and the fixed root directory, without wrapping. */
  function DataStart(b: Sector): nat
    requires |b| >= 512 && Le16(b, 11) > 0
  {
    Le16(b, 14) + Times(b[16], SectorsPerFat(b)) + RootDirSectors(b)
  }

  /** How many whole clusters the volume has, its data starting where the code, in 32 bits,
      believes it to start. */
  function Clusters(b: Sector): nat
    requires |b| >= 512 && Le16(b, 11) > 0 && b[13] > 0 && DataStart(b) % 0x1_0000_0000 <= TotalSectors(b)
  {
    Quotient(TotalSectors(b) - DataStart(b) % 0x1_0000_0000, b[13])
  }

  /** A boot sector with a FAT16 or FAT32 volume the code accepts: one whose sectors are the
      device's blocks, and which has a fixed root directory exactly when its cluster count
      makes it FAT16. */
  predicate Mountable(b: Sector, blockSize: nat)
    requires |b| >= 512
  {
    && b[510] == 0x55 && b[511] == 0xAA
    && 0 < Le16(b, 11) == blockSize && b[13] > 0 && SectorsPerFat(b) > 0
    && DataStart(b) % 0x1_0000_0000 < TotalSectors(b)
    && 4085 <= Clusters(b) && (Clusters(b) < 65525 <==> Le16(b, 17) != 0)
  }

  /** What a mounted layout still has to satisfy: the code takes it on trust. */
  ghost predicate Trusted(b: Sector, g: Geometry)
    requires |b| >= 512 && Le16(b, 11) > 0
  {
    && Le16(b, 11) % DIR_ENTRY_SIZE == 0
    && b[16] > 0
    && DataStart(b) < 0x1_0000_0000
    && g.maxCluster <= Eoc(g)
    && EntryStart(g, g.maxCluster) <= Times(g.sectorsPerFat, g.bytesPerSector)
  }

  lemma {:induction false} ClustersFit(data: nat, spc: nat)
    requires spc > 0
    ensures Times(Quotient(data, spc), spc) <= data
  {
    hide Quotient, Times;
    QuotientIsDivision(data, spc);
    TimesIsProduct(data / spc, spc);
    assert data == spc * (data / spc) + data % spc;
  }

  lemma {:induction false} TimesBound(a: nat, b: nat, m: nat, n: nat)
    requires a <= m && b <= n
    ensures Times(a, b) <= m * n
  {
    hide Times;
    TimesIsProduct(a, b);
    assert a * b <= m * b;
    assert m * b <= m * n;
  }

  /** The layout a boot sector describes. */
  function Layout(b: Sector): Geometry
    requires |b| >= 512 && Le16(b, 11) > 0 && b[13] > 0 && DataStart(b) % 0x1_0000_0000 <= TotalSectors(b)
  {
    var fatType := if Clusters(b) < 65525 then Fat16 else Fat32;
    Geometry(Le16(b, 11), b[13], b[16], fatType, SectorsPerFat(b), if fatType.Fat32? then Le32(b, 44) else 0,
             Wrap32(Le16(b, 14) + Times(b[16], SectorsPerFat(b))), RootDirSectors(b), Clusters(b) + 2, Le16(b, 14),
             DataStart(b) % 0x1_0000_0000)
  }

  /** All clusters of an accepted layout lie inside the volume, the FAT width follows from
      the number of clusters, and the layout is well formed exactly when what the code does
      not check is true. */
  lemma LayoutFacts(b: Sector, blockSize: nat)
    requires |b| >= 512 && Mountable(b, blockSize)
    ensures var g := Layout(b);
      && 0 < g.bytesPerSector == blockSize && g.dataStartLba < TotalSectors(b)
      && 2 <= g.maxCluster && VolumeSectors(g) <= TotalSectors(b)
      && 4085 <= g.maxCluster - 2 && (g.fatType.Fat16? <==> g.maxCluster - 2 < 65525) && (g.fatType.Fat16? <==> Le16(b, 17) != 0)
      && (WellFormed(g) <==> Trusted(b, g))
  {
    hide Quotient, Times, Le16, Le32, EntryStart, SectorsPerFat, RootDirSectors, TotalSectors;
    FieldBounds(b);
    ClustersFit(TotalSectors(b) - DataStart(b) % 0x1_0000_0000, b[13]);
    TimesBound(b[13], Le16(b, 11), 0x100, 0x1_0000);
  }

  lemma FieldBounds(b: Sector)
    requires |b| >= 512
    ensures Le16(b, 11) < 0x1_0000 && TotalSectors(b) < 0x1_0000_0000
  {
  }

  lemma WrapTwice(x: nat, r: nat)
    ensures Wrap32(Wrap32(x) + r) == (x + r) % 0x1_0000_0000
  {
  }

  predicate Accepted(b: Sector, blockSize: nat, g: Geometry)
    requires |b| >= 512
  {
    Mountable(b, blockSize) && g == Layout(b)
  }

  /** A boot sector written by the book, field by field: `bps` bytes in a sector, `spc`
      sectors in a cluster, `reserved` sectors in front of `fats` copies of `spf` sectors (`area`), a
      root directory of `entries` slots (none in FAT32) that fill `dir` sectors, `n` clusters
      from sector `start` on, `total` sectors in all, `root` the first cluster of a FAT32
      root directory. It is accepted, and the layout is the one that was written. */
  lemma WrittenLayout(b: Sector, bps: nat, spc: nat, reserved: nat, fats: nat, spf: nat, entries: nat, dir: nat, area: nat, start: nat, n: nat,
                      total: nat, root: nat)
    requires |b| >= 512 && b[510] == 0x55 && b[511] == 0xAA
    requires b[11] as int + 0x100 * b[12] as int == bps && b[13] == spc && b[16] == fats
    requires b[14] as int + 0x100 * b[15] as int == reserved && b[17] as int + 0x100 * b[18] as int == entries
    requires if b[19] == 0 && b[20] == 0 then Number(b, 32, total) else b[19] as int + 0x100 * b[20] as int == total
    requires if b[22] == 0 && b[23] == 0 then Number(b, 36, spf) else b[22] as int + 0x100 * b[23] as int == spf
    requires n < 65525 || Number(b, 44, root)
    requires bps > 0 && spc > 0 && spf > 0 && dir < 0x1_0000 && area == fats * spf && start == reserved + area + dir && total > start
    requires Fits(entries * 32 + (bps - 1), bps, dir) && Fits(total - start, spc, n)
    requires 4085 <= n && (n < 65525 <==> entries != 0)
    ensures Accepted(b, bps, Geometry(bps, spc, fats, if n < 65525 then Fat16 else Fat32, spf, if n < 65525 then 0 else root,
                                      reserved + area, dir, n + 2, reserved, start))
  {
    hide Quotient, Times, Le16, Le32, TotalSectors, SectorsPerFat, Number, Fits, Clusters, DataStart, RootDirSectors, Accepted;
    FieldsRead(b, total, spf, root);
    WordRead(b, 11);
    WordRead(b, 14);
    WordRead(b, 17);
    assert DataStart(b) == start && RootDirSectors(b) == dir by {
      StartRead(b, bps, spf, area, entries, dir);
    }
    assert total < 0x1_0000_0000 by {
      FieldBounds(b);
    }
    ClustersRead(b, spc, start, n, total);
    AcceptedIs(b, bps, spc, spf, area, entries, dir, start, n, total);
  }

  lemma StartRead(b: Sector, bps: nat, spf: nat, area: nat, entries: nat, dir: nat)
    requires |b| >= 512 && 0 < bps == Le16(b, 11) && entries == Le16(b, 17) && spf == SectorsPerFat(b)
    requires area == b[16] * spf && dir < 0x1_0000 && Fits(entries * 32 + (bps - 1), bps, dir)
    ensures DataStart(b) == Le16(b, 14) + area + dir && RootDirSectors(b) == dir
  {
    hide Quotient, Times, Le16, SectorsPerFat, Fits;
    SharedOut(entries * 32 + (bps - 1), bps, dir);
    TimesIsProduct(b[16], spf);
  }

  lemma ClustersRead(b: Sector, spc: nat, start: nat, n: nat, total: nat)
    requires |b| >= 512 && Le16(b, 11) > 0 && b[13] == spc > 0 && DataStart(b) == start < total == TotalSectors(b) < 0x1_0000_0000
    requires Fits(total - start, spc, n)
    ensures Clusters(b) == n
  {
    hide Quotient, Le16, DataStart, TotalSectors, Fits;
    SharedOut(total - start, spc, n);
  }

  lemma AcceptedIs(b: Sector, bps: nat, spc: nat, spf: nat, area: nat, entries: nat, dir: nat, start: nat, n: nat, total: nat)
    requires |b| >= 512 && b[510] == 0x55 && b[511] == 0xAA
    requires 0 < bps == Le16(b, 11) && b[13] == spc > 0 && 0 < spf == SectorsPerFat(b) && entries == Le16(b, 17)
    requires DataStart(b) == start == Le16(b, 14) + area + dir < total == TotalSectors(b) < 0x1_0000_0000
    requires RootDirSectors(b) == dir && Clusters(b) == n && area == b[16] * spf
    requires 4085 <= n && (n < 65525 <==> entries != 0)
    ensures Accepted(b, bps, Geometry(bps, spc, b[16], if n < 65525 then Fat16 else Fat32, spf, if n < 65525 then 0 else Le32(b, 44),
                                      Le16(b, 14) + area, dir, n + 2, Le16(b, 14), start))
  {
    hide Times, Le16, Le32, DataStart, TotalSectors, SectorsPerFat, RootDirSectors, Clusters;
    TimesIsProduct(b[16], spf);
  }

  lemma WordRead(b: Sector, i: nat)
    requires i + 2 <= |b|
    ensures Le16(b, i) == b[i] as int + 0x100 * b[i + 1] as int
  {
  }

  lemma FieldsRead(b: Sector, total: nat, spf: nat, root: nat)
    requires |b| >= 512
    ensures (if b[19] == 0 && b[20] == 0 then Number(b, 32, total) else b[19] as int + 0x100 * b[20] as int == total) <==> TotalSectors(b) == total
    ensures (if b[22] == 0 && b[23] == 0 then Number(b, 36, spf) else b[22] as int + 0x100 * b[23] as int == spf) <==> SectorsPerFat(b) == spf
    ensures Number(b, 44, root) <==> Le32(b, 44) == root
  {
  }

  /** Four bytes, least significant first. */
  predicate Number(b: Sector, i: nat, v: nat)
    requires i + 4 <= |b|
  {
    v == b[i] as int + 0x100 * b[i + 1] as int + 0x1_0000 * b[i + 2] as int + 0x100_0000 * b[i + 3] as int
  }

  /** x has room for n q times, and no more. */
  predicate Fits(x: nat, n: nat, q: nat) {
    q * n <= x < (q + 1) * n
  }

  lemma SharedOut(x: nat, n: nat, q: nat)
    requires n > 0 && Fits(x, n, q)
    ensures Quotient(x, n) == q
  {
    hide Quotient;
    QuotientIsDivision(x, n);
    assert (q + 1) * n == q * n + n;
    QuotientUnique(x, n, q, x - q * n);
  }

  /** Reads the layout from a boot sector, if it is one the code accepts. */
  method ParseFatBpb(buf: array<byte>, blockSize: nat) returns (ok: bool, g: Geometry)
    requires buf.Length >= 512
    ensures ok <==> Mountable(buf[..], blockSize)
    ensures ok ==> g == Layout(buf[..])
    ensures ok ==> VolumeSectors(g) <= TotalSectors(buf[..]) && (g.fatType.Fat16? <==> g.maxCluster - 2 < 65525)
    ensures ok ==> (WellFormed(g) <==> Trusted(buf[..], g))
  {
    hide Quotient, Times, Le16, Le32, WellFormed, Trusted, VolumeSectors;
    g := Geometry(0, 0, 0, Fat16, 0, 0, 0, 0, 0, 0, 0);
    if buf[510] != 0x55 || buf[511] != 0xAA {
      return false, g;
    }
    var bps, spc, reserved, numFats: nat := Le16(buf[..], 11), buf[13], Le16(buf[..], 14), buf[16];
    if bps == 0 || spc == 0 || bps != blockSize {
      return false, g;
    }
    var rootEntries := Le16(buf[..], 17);
    var spf := if Le16(buf[..], 22) != 0 then Le16(buf[..], 22) else Le32(buf[..], 36);
    if spf == 0 {
      return false, g;
    }
    var rootSectors := Quotient(rootEntries * DIR_ENTRY_SIZE + (bps - 1), bps) % 0x1_0000;
    var rootLba := Wrap32(reserved + Times(numFats, spf));
    var dataLba := Wrap32(rootLba + rootSectors);
    WrapTwice(reserved + Times(numFats, spf), rootSectors);
    var total := if Le16(buf[..], 19) != 0 then Le16(buf[..], 19) else Le32(buf[..], 32);
    if total == 0 || total <= dataLba {
      return false, g;
    }
    var clusters := Quotient(total - dataLba, spc);
    if clusters < 4085 {
      return false, g;
    }
    var fatType := if clusters < 65525 then Fat16 else Fat32;
    if (fatType.Fat32? && rootEntries != 0) || (fatType.Fat16? && rootEntries == 0) {
      return false, g;
    }
    var rootCluster := if fatType.Fat32? then Le32(buf[..], 44) else 0;
    g := Geometry(bps, spc, numFats, fatType, spf, rootCluster, rootLba, rootSectors, clusters + 2, reserved, dataLba);
    ok := true;
    LayoutFacts(buf[..], blockSize);
  }
}
