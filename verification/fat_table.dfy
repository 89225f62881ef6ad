/** The file allocation table as bytes in sectors, and as a table of numbers. */
module FatTable {
  import opened FatGeometry

  type Sectors = seq<Sector>

  // ----- little-endian numbers in a sector

  function Le16(s: Sector, i: nat): (v: nat)
    requires i + 2 <= |s|
    ensures v < 0x1_0000
  {
    s[i] as int + 0x100 * s[i + 1] as int
  }

  function Le32(s: Sector, i: nat): (v: nat)
    requires i + 4 <= |s|
    ensures v < 0x1_0000_0000
  {
    Le16(s, i) + 0x1_0000 * Le16(s, i + 2)
  }

  function Bytes16(v: nat): (b: seq<byte>)
    requires v < 0x1_0000
    ensures |b| == 2 && Le16(b, 0) == v
  {
    [v % 0x100, v / 0x100]
  }

  function Bytes32(v: nat): (b: seq<byte>)
    requires v < 0x1_0000_0000
    ensures |b| == 4 && Le32(b, 0) == v
  {
    var lo, hi := Bytes16(v % 0x1_0000), Bytes16(v / 0x1_0000);
    assert Le16(lo + hi, 0) == Le16(lo, 0) && Le16(lo + hi, 2) == Le16(hi, 0);
    lo + hi
  }

  /** The sector with b copied over the bytes from i on. */
  function Splice(s: Sector, i: nat, b: seq<byte>): (t: Sector)
    requires i + |b| <= |s|
    ensures |t| == |s|
    ensures forall j :: 0 <= j < |s| && !(i <= j < i + |b|) ==> t[j] == s[j]
    ensures forall j :: i <= j < i + |b| ==> t[j] == b[j - i]
  {
    s[..i] + b + s[i + |b|..]
  }

  lemma SpliceNothing(s: Sector, i: nat)
    requires i <= |s|
    ensures Splice(s, i, []) == s
  {
  }

  // ----- entries

  /** A number stored in an entry of the volume's width. */
  function Load(g: Geometry, s: Sector, i: nat): (v: nat)
    requires i + Width(g) <= |s|
    ensures v < 0x1_0000_0000
  {
    if g.fatType.Fat16? then Le16(s, i) else Le32(s, i)
  }

  /** The cluster value in a raw entry: FAT32 keeps four reserved bits on top. */
  function Low(g: Geometry, raw: nat): nat {
    if g.fatType.Fat16? then raw else raw % 0x1000_0000
  }

  /** The reserved bits of a raw entry. */
  function Reserved(g: Geometry, raw: nat): nat {
    if g.fatType.Fat16? then 0 else raw / 0x1000_0000
  }

  /** A raw entry is its value and its reserved bits. */
  lemma RawParts(g: Geometry, r: nat, r': nat)
    requires Low(g, r) == Low(g, r') && Reserved(g, r) == Reserved(g, r')
    ensures r == r'
  {
  }

  /** All sectors are there and have the right size. */
  ghost predicate Formatted(g: Geometry, S: Sectors) {
    && WellFormed(g)
    && VolumeSectors(g) <= |S|
    && forall i :: 0 <= i < |S| ==> |S[i]| == g.bytesPerSector
  }

  lemma FatSectorExists(g: Geometry, S: Sectors, k: nat, e: nat)
    requires Formatted(g, S) && k < g.numFats && e < g.maxCluster
    ensures EntryLba(g, k, e) < g.rootDirLba <= g.dataStartLba <= VolumeSectors(g) <= |S|
    ensures EntryOffset(g, e) + Width(g) <= |S[EntryLba(g, k, e)]|
  {
    EntryLbaInFat(g, k, e);
    EntryPlace(g, e);
  }

  /** Entry e of FAT copy k. */
  ghost function Raw(g: Geometry, S: Sectors, k: nat, e: nat): (v: nat)
    requires Formatted(g, S) && k < g.numFats && e < g.maxCluster
  {
    FatSectorExists(g, S, k, e);
    Load(g, S[EntryLba(g, k, e)], EntryOffset(g, e))
  }

  /** The table the code reads: the values in the first copy. */
  ghost function Links(g: Geometry, S: Sectors): (F: seq<nat>)
    requires Formatted(g, S)
    ensures |F| == g.maxCluster
    ensures forall e :: 0 <= e < g.maxCluster ==> F[e] == Low(g, Raw(g, S, 0, e))
  {
    seq(g.maxCluster, e requires 0 <= e < g.maxCluster => Low(g, Raw(g, S, 0, e)))
  }

  // ----- writing one entry

  /** Reserved bits over a 28-bit value. */
  function WithReserved(top: nat, value: nat): (v: nat)
    requires top < 0x10
    ensures v < 0x1_0000_0000 && v / 0x1000_0000 == top && v % 0x1000_0000 == value % 0x1000_0000
  {
    0x1000_0000 * top + value % 0x1000_0000
  }

  /** The bytes that replace a raw entry when `value` is stored in it. */
  function Merged(g: Geometry, raw: nat, value: nat): (b: seq<byte>)
    requires raw < 0x1_0000_0000
    ensures |b| == Width(g)
  {
    if g.fatType.Fat16? then Bytes16(value % 0x1_0000)
    else Bytes32(WithReserved(raw / 0x1000_0000, value))
  }

  lemma MergedParts(g: Geometry, raw: nat, value: nat)
    requires raw < 0x1_0000_0000 && value <= Eoc(g)
    ensures Low(g, Load(g, Merged(g, raw, value), 0)) == value
    ensures Reserved(g, Load(g, Merged(g, raw, value), 0)) == Reserved(g, raw)
  {
    if g.fatType.Fat32? {
      var v := WithReserved(raw / 0x1000_0000, value);
      assert Load(g, Merged(g, raw, value), 0) == v;
    }
  }

  ghost function Stored(g: Geometry, S: Sectors, k: nat, e: nat, value: nat): Sectors
    requires Formatted(g, S) && k < g.numFats && e < g.maxCluster
  {
    FatSectorExists(g, S, k, e);
    var lba, i := EntryLba(g, k, e), EntryOffset(g, e);
    S[lba := Splice(S[lba], i, Merged(g, Load(g, S[lba], i), value))]
  }

  lemma LoadSpliced(g: Geometry, s: Sector, i: nat, b: seq<byte>)
    requires |b| == Width(g) && i + |b| <= |s|
    ensures Load(g, Splice(s, i, b), i) == Load(g, b, 0)
  {
    var t := Splice(s, i, b);
    assert forall j :: 0 <= j < |b| ==> t[i + j] == b[j];
  }

  lemma LoadBeside(g: Geometry, s: Sector, i: nat, b: seq<byte>, j: nat)
    requires |b| == Width(g) && i + |b| <= |s| && j + Width(g) <= |s|
    requires i + |b| <= j || j + Width(g) <= i
    ensures Load(g, Splice(s, i, b), j) == Load(g, s, j)
  {
  }

  /** Storing an entry changes that entry of that copy and nothing else. */
  lemma {:induction false} StoredEffect(g: Geometry, S: Sectors, k: nat, e: nat, value: nat)
    requires Formatted(g, S) && k < g.numFats && e < g.maxCluster && value <= Eoc(g)
    ensures var S' := Stored(g, S, k, e, value);
      && Formatted(g, S') && |S'| == |S|
      && Low(g, Raw(g, S', k, e)) == value
      && Reserved(g, Raw(g, S', k, e)) == Reserved(g, Raw(g, S, k, e))
      && (forall k', e' {:trigger Raw(g, S', k', e')} :: 0 <= k' < g.numFats && 0 <= e' < g.maxCluster && (k' != k || e' != e) ==>
            Raw(g, S', k', e') == Raw(g, S, k', e'))
      && (forall i :: 0 <= i < |S| && !(g.fatStartLba <= i < g.rootDirLba) ==> S'[i] == S[i])
  {
    FatSectorExists(g, S, k, e);
    EntryLbaInFat(g, k, e);
    var S' := Stored(g, S, k, e, value);
    var lba, i := EntryLba(g, k, e), EntryOffset(g, e);
    var b := Merged(g, Load(g, S[lba], i), value);
    LoadSpliced(g, S[lba], i, b);
    MergedParts(g, Load(g, S[lba], i), value);
    forall k', e' | 0 <= k' < g.numFats && 0 <= e' < g.maxCluster && (k' != k || e' != e)
      ensures Raw(g, S', k', e') == Raw(g, S, k', e')
    {
      FatSectorExists(g, S, k', e');
      if EntryLba(g, k', e') == lba {
        EntryPlaceInjective(g, k, e, k', e');
        LoadBeside(g, S[lba], i, b, EntryOffset(g, e'));
      }
    }
  }
}
