/** The layout of a mounted FAT16/FAT32 volume and the place of everything on it.
    Sector numbers are relative to the partition. */
module FatGeometry {
  type byte = x: int | 0 <= x < 256
  type Sector = seq<byte>

  datatype FatType = Fat16 | Fat32

  /** The fields of `fat32_fs_t` that describe the layout. */
  datatype Geometry = Geometry(
    bytesPerSector: nat,
    sectorsPerCluster: nat,
    numFats: nat,
    fatType: FatType,
    sectorsPerFat: nat,
    rootCluster: nat,
    rootDirLba: nat,
    rootDirSectors: nat,
    maxCluster: nat,
    fatStartLba: nat,
    dataStartLba: nat)

  const DIR_ENTRY_SIZE := 32

  /** The end-of-chain mark. */
  function Eoc(g: Geometry): nat {
    if g.fatType.Fat16? then 0xFFFF else 0x0FFFFFFF
  }

  predicate IsValidCluster(g: Geometry, cluster: nat) {
    2 <= cluster < g.maxCluster
  }

  /** Bytes of one FAT entry. */
  function Width(g: Geometry): (w: nat)
    ensures w == 2 || w == 4
  {
    if g.fatType.Fat16? then 2 else 4
  }

  /** Multiplication, spelled out so that a product of two layout fields stays a plain
      term in proofs that do not depend on its value. */
  function Times(a: nat, b: nat): (p: nat)
  {
    if a == 0 then 0 else b + Times(a - 1, b)
  }

  lemma {:induction false} TimesIsProduct(a: nat, b: nat)
    ensures Times(a, b) == a * b
  {
    if a > 0 {
      TimesIsProduct(a - 1, b);
      assert a * b == (a - 1) * b + b;
    }
  }

  /** Division likewise. */
  function Quotient(x: nat, n: nat): (q: nat)
    requires n > 0
  {
    if x < n then 0 else 1 + Quotient(x - n, n)
  }

  function Remainder(x: nat, n: nat): (r: nat)
    requires n > 0
    ensures r < n
  {
    if x < n then x else Remainder(x - n, n)
  }

  lemma {:induction false} QuotientIsDivision(x: nat, n: nat)
    requires n > 0
    ensures Quotient(x, n) == x / n && Remainder(x, n) == x % n
  {
    if x < n {
      QuotientUnique(x, n, 0, x);
    } else {
      QuotientIsDivision(x - n, n);
      var q, r := (x - n) / n, (x - n) % n;
      assert n * (q + 1) == n * q + n;
      QuotientUnique(x, n, q + 1, r);
    }
  }

  /** Where entry e starts in its FAT. */
  function EntryStart(g: Geometry, e: nat): nat {
    if g.fatType.Fat16? then 2 * e else 4 * e
  }

  function ClusterToLba(g: Geometry, cluster: nat): (lba: nat)
    requires 2 <= cluster
    ensures lba >= g.dataStartLba
  {
    g.dataStartLba + Times(cluster - 2, g.sectorsPerCluster)
  }

  function ClusterSize(g: Geometry): nat {
    Times(g.sectorsPerCluster, g.bytesPerSector)
  }

  /** Where entry e of FAT copy k is: sector and byte offset. */
  function EntrySector(g: Geometry, e: nat): nat
    requires g.bytesPerSector > 0
  {
    Quotient(EntryStart(g, e), g.bytesPerSector)
  }

  function EntryLba(g: Geometry, k: nat, e: nat): nat
    requires g.bytesPerSector > 0
  {
    g.fatStartLba + Times(k, g.sectorsPerFat) + EntrySector(g, e)
  }

  function EntryOffset(g: Geometry, e: nat): nat
    requires g.bytesPerSector > 0
  {
    Remainder(EntryStart(g, e), g.bytesPerSector)
  }

  /** Sectors the volume needs up to the end of its last cluster. */
  function VolumeSectors(g: Geometry): nat
    requires 2 <= g.maxCluster
  {
    ClusterToLba(g, g.maxCluster)
  }

  /** What a mounted volume has to satisfy. The first two lines always hold after a
      successful mount (see FatBoot); the rest is not checked by the code. */
  ghost predicate WellFormed(g: Geometry) {
    && g.bytesPerSector > 0 && g.bytesPerSector % DIR_ENTRY_SIZE == 0 && g.sectorsPerCluster > 0
    && g.rootDirLba == g.fatStartLba + Times(g.numFats, g.sectorsPerFat)
    && g.dataStartLba == g.rootDirLba + g.rootDirSectors
    && g.numFats > 0
    && 2 <= g.maxCluster <= Eoc(g)
    && EntryStart(g, g.maxCluster) <= Times(g.sectorsPerFat, g.bytesPerSector)
    && ClusterSize(g) <= 0x1_0000_0000 && VolumeSectors(g) <= 0x1_0000_0000
  }

  lemma {:induction false} MulOrder(a: nat, b: nat, c: nat)
    requires a < b
    ensures a * c + c <= b * c
  {
    assert (a + 1) * c <= b * c by {
      assert (b - (a + 1)) * c >= 0;
      assert b * c == (a + 1) * c + (b - (a + 1)) * c;
    }
  }

  /** Two places a*n+i and b*n+j (i, j < n) coincide only when a == b and i == j. */
  lemma {:induction false} MixedRadix(a: nat, i: nat, b: nat, j: nat, n: nat)
    requires i < n && j < n
    requires a * n + i == b * n + j
    ensures a == b && i == j
  {
    if a < b {
      MulOrder(a, b, n);
    } else if b < a {
      MulOrder(b, a, n);
    }
  }

  /** Byte e*w of a table cut into n-byte pieces, when w divides n. */
  lemma {:induction false} PieceOffset(e: nat, w: nat, m: nat, n: nat)
    requires w > 0 && m > 0 && n == w * m
    ensures (e * w) % n == w * (e % m)
    ensures w * (e % m) + w <= n
    ensures (e * w) / n == e / m
  {
    var q, r := e / m, e % m;
    assert e == m * q + r;
    assert e * w == n * q + w * r by {
      assert (m * q + r) * w == (w * m) * q + w * r;
    }
    MulOrder(r, m, w);
    assert 0 <= w * r < n;
    QuotientUnique(e * w, n, q, w * r);
  }

  lemma {:induction false} QuotientUnique(x: nat, n: nat, q: nat, r: nat)
    requires n > 0 && r < n && x == n * q + r
    ensures x / n == q && x % n == r
  {
    assert x == n * (x / n) + x % n;
    assert q * n + r == (x / n) * n + x % n;
    MixedRadix(q, r, x / n, x % n, n);
  }

  lemma {:induction false} QuotientBound(x: nat, n: nat, limit: nat)
    requires n > 0 && x < limit * n
    ensures x / n < limit
  {
    assert x == n * (x / n) + x % n;
    if x / n > limit {
      MulOrder(limit, x / n, n);
    }
  }

  lemma {:induction false} PiecePlace(e: nat, count: nat, w: nat, m: nat, n: nat, pieces: nat)
    requires w > 0 && m > 0 && n == w * m && e < count && count * w <= pieces * n
    ensures Remainder(e * w, n) + w <= n && Quotient(e * w, n) < pieces
  {
    hide Quotient, Remainder;
    QuotientIsDivision(e * w, n);
    PieceOffset(e, w, m, n);
    MulOrder(e, count, w);
    QuotientBound(e * w, n, pieces);
  }

  lemma EntriesFillSector(n: nat)
    requires n > 0 && n % DIR_ENTRY_SIZE == 0
    ensures n / 2 > 0 && n == 2 * (n / 2)
    ensures n / 4 > 0 && n == 4 * (n / 4)
  {
    var k := n / DIR_ENTRY_SIZE;
    assert n == 32 * k;
    assert n / 2 == 16 * k;
    assert n / 4 == 8 * k;
  }

  /** An entry lies inside one sector, and inside its FAT. */
  lemma {:induction false} EntryPlace(g: Geometry, e: nat)
    requires WellFormed(g) && e < g.maxCluster
    ensures EntryOffset(g, e) + Width(g) <= g.bytesPerSector
    ensures EntrySector(g, e) < g.sectorsPerFat
  {
    hide Times, Quotient, Remainder;
    var n := g.bytesPerSector;
    TimesIsProduct(g.sectorsPerFat, n);
    EntriesFillSector(n);
    if g.fatType.Fat16? {
      PiecePlace(e, g.maxCluster, 2, n / 2, n, g.sectorsPerFat);
    } else {
      PiecePlace(e, g.maxCluster, 4, n / 4, n, g.sectorsPerFat);
    }
  }

  /** Pieces with the same quotient are the same piece or do not overlap. */
  lemma {:induction false} PiecesApart(e: nat, e': nat, w: nat, m: nat, n: nat)
    requires w > 0 && m > 0 && n == w * m
    requires (e * w) / n == (e' * w) / n
    ensures e == e' || (e * w) % n + w <= (e' * w) % n || (e' * w) % n + w <= (e * w) % n
  {
    PieceOffset(e, w, m, n);
    PieceOffset(e', w, m, n);
    var r, r' := e % m, e' % m;
    assert e == m * (e / m) + r;
    assert e' == m * (e' / m) + r';
    if r < r' {
      MulOrder(r, r', w);
    } else if r' < r {
      MulOrder(r', r, w);
    }
  }

  lemma {:induction false} InTable(start: nat, k: nat, copies: nat, s: nat, n: nat)
    requires k < copies && s < n
    ensures start <= start + k * n + s < start + copies * n
  {
    MulOrder(k, copies, n);
  }

  lemma {:induction false} EntriesApart(g: Geometry, e: nat, e': nat)
    requires g.bytesPerSector > 0 && g.bytesPerSector % DIR_ENTRY_SIZE == 0
    requires EntrySector(g, e) == EntrySector(g, e')
    ensures e == e' || EntryOffset(g, e) + Width(g) <= EntryOffset(g, e') || EntryOffset(g, e') + Width(g) <= EntryOffset(g, e)
  {
    var n := g.bytesPerSector;
    QuotientIsDivision(EntryStart(g, e), n);
    QuotientIsDivision(EntryStart(g, e'), n);
    EntriesFillSector(n);
    if g.fatType.Fat16? {
      PiecesApart(e, e', 2, n / 2, n);
    } else {
      PiecesApart(e, e', 4, n / 4, n);
    }
  }

  lemma {:induction false} EntryLbaInFat(g: Geometry, k: nat, e: nat)
    requires WellFormed(g) && e < g.maxCluster && k < g.numFats
    ensures g.fatStartLba <= EntryLba(g, k, e) < g.rootDirLba
  {
    EntryPlace(g, e);
    TimesIsProduct(k, g.sectorsPerFat);
    TimesIsProduct(g.numFats, g.sectorsPerFat);
    InTable(g.fatStartLba, k, g.numFats, EntrySector(g, e), g.sectorsPerFat);
  }

  /** Entries that share a sector are in the same copy, and are the same entry or
      do not overlap. */
  lemma {:induction false} EntryPlaceInjective(g: Geometry, k: nat, e: nat, k': nat, e': nat)
    requires WellFormed(g) && e < g.maxCluster && k < g.numFats && e' < g.maxCluster && k' < g.numFats
    requires EntryLba(g, k, e) == EntryLba(g, k', e')
    ensures k == k'
    ensures e == e' || EntryOffset(g, e) + Width(g) <= EntryOffset(g, e') || EntryOffset(g, e') + Width(g) <= EntryOffset(g, e)
  {
    EntryPlace(g, e);
    EntryPlace(g, e');
    TimesIsProduct(k, g.sectorsPerFat);
    TimesIsProduct(k', g.sectorsPerFat);
    MixedRadix(k, EntrySector(g, e), k', EntrySector(g, e'), g.sectorsPerFat);
    EntriesApart(g, e, e');
  }

  /** Sector s of a cluster lies in the data area, and no two clusters share one. */
  lemma {:induction false} ClusterPlace(g: Geometry, c: nat, s: nat)
    requires WellFormed(g) && IsValidCluster(g, c) && s < g.sectorsPerCluster
    ensures g.dataStartLba <= ClusterToLba(g, c) + s < VolumeSectors(g)
  {
    MulOrder(c - 2, g.maxCluster - 2, g.sectorsPerCluster);
    TimesIsProduct(c - 2, g.sectorsPerCluster);
    TimesIsProduct(g.maxCluster - 2, g.sectorsPerCluster);
  }

  lemma {:induction false} ClusterPlaceInjective(g: Geometry, c: nat, s: nat, c': nat, s': nat)
    requires WellFormed(g) && IsValidCluster(g, c) && IsValidCluster(g, c')
    requires s < g.sectorsPerCluster && s' < g.sectorsPerCluster
    requires ClusterToLba(g, c) + s == ClusterToLba(g, c') + s'
    ensures c == c' && s == s'
  {
    TimesIsProduct(c - 2, g.sectorsPerCluster);
    TimesIsProduct(c' - 2, g.sectorsPerCluster);
    MixedRadix(c - 2, s, c' - 2, s', g.sectorsPerCluster);
  }
}
