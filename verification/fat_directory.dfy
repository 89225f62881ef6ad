/** The root directory: which sectors it has, and what the scans over its 32-byte
    slots find. */
module FatDirectory {
  import opened FatGeometry
  import opened FatTable
  import opened FatChain

  datatype Slot = Slot(lba: nat, offset: nat)

  /** What a search for a name ends with. */
  datatype Search<T> = Found(at: T) | EndMark | Missing

  type Name = s: seq<byte> | |s| == 11 witness seq(11, _ => 0x20)

  // ----- slots

  predicate IsFreeSlot(s: Sector, i: nat)
    requires i < |s|
  {
    s[i] == 0x00 || s[i] == 0xE5
  }

  /** A name that does not read as a free slot. */
  predicate IsFileName(name: Name) {
    name[0] != 0x00 && name[0] != 0xE5
  }

  /** The slot describes a plain file (neither volume label, 0x08, nor directory, 0x10)
      of this name. */
  predicate IsFileSlot(s: Sector, i: nat, name: Name)
    requires i + DIR_ENTRY_SIZE <= |s|
  {
    (s[i + 11] / 8) % 4 == 0 && s[i..i + 11] == name
  }

  function FirstClusterAt(s: Sector, i: nat): (c: nat)
    requires i + DIR_ENTRY_SIZE <= |s|
  {
    Le16(s, i + 26) + 0x1_0000 * Le16(s, i + 20)
  }

  function FileSizeAt(s: Sector, i: nat): (n: nat)
    requires i + DIR_ENTRY_SIZE <= |s|
  {
    Le32(s, i + 28)
  }

  /** The slot of a new file: archive attribute, no dates. */
  function DirEntry(name: Name, firstCluster: nat, size: nat): (b: seq<byte>)
    requires firstCluster < 0x1_0000_0000 && size < 0x1_0000_0000
    ensures |b| == DIR_ENTRY_SIZE
    ensures IsFileSlot(b, 0, name) && b[0] == name[0]
    ensures FirstClusterAt(b, 0) == firstCluster && FileSizeAt(b, 0) == size
  {
    var hi, lo, len := Bytes16(firstCluster / 0x1_0000), Bytes16(firstCluster % 0x1_0000), Bytes32(size);
    var b := name + [0x20, 0, 0, 0, 0, 0, 0, 0, 0] + hi + [0, 0, 0, 0] + lo + len;
    assert b[0..11] == name;
    assert Le16(b, 20) == Le16(hi, 0) && Le16(b, 26) == Le16(lo, 0);
    assert Le32(b, 28) == Le32(len, 0);
    b
  }

  // ----- one sector

  function FirstFree(s: Sector, i: nat): (r: Search<nat>)
    ensures !r.EndMark?
    ensures r.Found? ==> r.at + DIR_ENTRY_SIZE <= |s|
    decreases |s| - i
  {
    if i + DIR_ENTRY_SIZE > |s| then Missing
    else if IsFreeSlot(s, i) then Found(i)
    else FirstFree(s, i + DIR_ENTRY_SIZE)
  }

  /** What the scan stops at is a free slot. */
  lemma {:induction false} FirstFreeIsFree(s: Sector, i: nat)
    requires i % DIR_ENTRY_SIZE == 0 && FirstFree(s, i).Found?
    ensures i <= FirstFree(s, i).at && IsFreeSlot(s, FirstFree(s, i).at) && FirstFree(s, i).at % DIR_ENTRY_SIZE == 0
    decreases |s| - i
  {
    if !IsFreeSlot(s, i) {
      FirstFreeIsFree(s, i + DIR_ENTRY_SIZE);
    }
  }

  function Look(s: Sector, name: Name, i: nat): (r: Search<nat>)
    ensures r.Found? ==> r.at + DIR_ENTRY_SIZE <= |s|
    decreases |s| - i
  {
    if i + DIR_ENTRY_SIZE > |s| then Missing
    else if s[i] == 0x00 then EndMark
    else if s[i] != 0xE5 && IsFileSlot(s, i, name) then Found(i)
    else Look(s, name, i + DIR_ENTRY_SIZE)
  }

  lemma {:induction false} LookFindsFile(s: Sector, name: Name, i: nat)
    requires i % DIR_ENTRY_SIZE == 0 && Look(s, name, i).Found?
    ensures var at := Look(s, name, i).at;
      i <= at && IsFileSlot(s, at, name) && !IsFreeSlot(s, at) && at % DIR_ENTRY_SIZE == 0
    decreases |s| - i
  {
    if s[i] == 0xE5 || !IsFileSlot(s, i, name) {
      hide IsFileSlot;
      LookFindsFile(s, name, i + DIR_ENTRY_SIZE);
    }
  }

  /** In a sector whose first free slot takes a new entry, the entry is what a search for
      its name finds, unless an older file of that name comes before it. */
  lemma {:induction false} LookForNew(s: Sector, i: nat, b: seq<byte>, name: Name)
    requires |b| == DIR_ENTRY_SIZE && IsFileSlot(b, 0, name) && b[0] == name[0] && IsFileName(name)
    requires i % DIR_ENTRY_SIZE == 0 && FirstFree(s, i).Found?
    ensures var (f, r) := (FirstFree(s, i).at, Look(s, name, i));
      Look(Splice(s, f, b), name, i) == if r.Found? && r.at < f then r else Found(f)
    decreases |s| - i
  {
    var f := FirstFree(s, i).at;
    FirstFreeIsFree(s, i);
    var t := Splice(s, f, b);
    if i == f {
      assert t[i + 11] == b[11];
      assert t[i..i + 11] == b[0..11];
      if Look(s, name, i).Found? {
        LookFindsFile(s, name, i);
      }
    } else {
      assert !IsFreeSlot(s, i);
      assert t[i..i + 11] == s[i..i + 11];
      if !IsFileSlot(s, i, name) {
        LookForNew(s, i + DIR_ENTRY_SIZE, b, name);
      }
    }
  }

  lemma SlotsApart(i: nat, j: nat)
    requires i % DIR_ENTRY_SIZE == 0 && j % DIR_ENTRY_SIZE == 0 && i != j
    ensures i + DIR_ENTRY_SIZE <= j || j + DIR_ENTRY_SIZE <= i
  {
  }

  /** Filling a free slot, or emptying a used one, does not change what a search for
      another name finds. */
  lemma {:induction false} LookForOther(s: Sector, f: nat, b: seq<byte>, name: Name, i: nat)
    requires |b| == DIR_ENTRY_SIZE && f + DIR_ENTRY_SIZE <= |s| && b[0] != 0x00
    requires f % DIR_ENTRY_SIZE == 0 && i % DIR_ENTRY_SIZE == 0
    requires s[f] == 0x00 || s[f] == 0xE5 || !IsFileSlot(s, f, name)
    requires b[0] == 0xE5 || !IsFileSlot(b, 0, name)
    requires Look(s, name, i) != EndMark
    ensures Look(Splice(s, f, b), name, i) == Look(s, name, i)
    decreases |s| - i
  {
    var t := Splice(s, f, b);
    if i + DIR_ENTRY_SIZE <= |s| {
      if i == f {
        assert t[i + 11] == b[11];
        assert t[i..i + 11] == b[0..11];
        LookForOther(s, f, b, name, i + DIR_ENTRY_SIZE);
      } else {
        SlotsApart(i, f);
        assert t[i..i + 11] == s[i..i + 11];
        if s[i] != 0x00 && (s[i] == 0xE5 || !IsFileSlot(s, i, name)) {
          LookForOther(s, f, b, name, i + DIR_ENTRY_SIZE);
        }
      }
    }
  }

  // ----- the whole directory

  /** n sectors from lba on. */
  function Run(lba: nat, n: nat): (lbas: seq<nat>)
    ensures |lbas| == n && forall i :: 0 <= i < n ==> lbas[i] == lba + i
    decreases n
  {
    if n == 0 then [] else [lba] + Run(lba + 1, n - 1)
  }

  /** The sectors of the clusters met from c on, at most n clusters. */
  ghost function ChainLbas(g: Geometry, F: seq<nat>, c: nat, n: nat): (lbas: seq<nat>)
    requires |F| == g.maxCluster
    decreases n
  {
    if n == 0 || !IsValidCluster(g, c) then []
    else Run(ClusterToLba(g, c), g.sectorsPerCluster) + ChainLbas(g, F, F[c], n - 1)
  }

  /** The directory's sectors in scan order. */
  ghost function DirLbas(g: Geometry, F: seq<nat>): (lbas: seq<nat>)
    requires |F| == g.maxCluster
  {
    if g.fatType.Fat16? then Run(g.rootDirLba, g.rootDirSectors)
    else ChainLbas(g, F, g.rootCluster, g.maxCluster)
  }

  /** All these sectors are on the disk. */
  ghost predicate OnDisk(S: Sectors, lbas: seq<nat>) {
    forall i :: 0 <= i < |lbas| ==> lbas[i] < |S|
  }

  ghost function FindFree(S: Sectors, lbas: seq<nat>): (r: Search<Slot>)
    requires OnDisk(S, lbas)
    ensures !r.EndMark?
    ensures r.Found? ==> r.at.lba < |S| && r.at.offset + DIR_ENTRY_SIZE <= |S[r.at.lba]|
  {
    if lbas == [] then Missing
    else
      var r := FirstFree(S[lbas[0]], 0);
      if r.Found? then Found(Slot(lbas[0], r.at)) else FindFree(S, lbas[1..])
  }

  ghost function FindName(S: Sectors, lbas: seq<nat>, name: Name): (r: Search<Slot>)
    requires OnDisk(S, lbas)
    ensures r.Found? ==> r.at.lba < |S| && r.at.offset + DIR_ENTRY_SIZE <= |S[r.at.lba]|
  {
    if lbas == [] then Missing
    else
      var r := Look(S[lbas[0]], name, 0);
      if r.Found? then Found(Slot(lbas[0], r.at))
      else if r.EndMark? then EndMark
      else FindName(S, lbas[1..], name)
  }

  lemma {:induction false} FindFreeIn(S: Sectors, lbas: seq<nat>)
    requires OnDisk(S, lbas) && FindFree(S, lbas).Found?
    ensures var slot := FindFree(S, lbas).at;
      slot.lba in lbas && FirstFree(S[slot.lba], 0) == Found(slot.offset)
  {
    if !FirstFree(S[lbas[0]], 0).Found? {
      FindFreeIn(S, lbas[1..]);
    }
  }

  lemma {:induction false} FindNameIn(S: Sectors, lbas: seq<nat>, name: Name)
    requires OnDisk(S, lbas) && FindName(S, lbas, name).Found?
    ensures var slot := FindName(S, lbas, name).at;
      slot.lba in lbas && Look(S[slot.lba], name, 0) == Found(slot.offset)
  {
    if !Look(S[lbas[0]], name, 0).Found? {
      FindNameIn(S, lbas[1..], name);
    }
  }

  lemma {:induction false} FindFreeAppend(S: Sectors, a: seq<nat>, b: seq<nat>)
    requires OnDisk(S, a) && OnDisk(S, b)
    ensures OnDisk(S, a + b)
    ensures FindFree(S, a + b) == if FindFree(S, a).Found? then FindFree(S, a) else FindFree(S, b)
  {
    if a == [] {
      assert a + b == b;
    } else {
      assert (a + b)[1..] == a[1..] + b;
      FindFreeAppend(S, a[1..], b);
    }
  }

  lemma {:induction false} FindNameAppend(S: Sectors, a: seq<nat>, b: seq<nat>, name: Name)
    requires OnDisk(S, a) && OnDisk(S, b)
    ensures OnDisk(S, a + b)
    ensures FindName(S, a + b, name) == if FindName(S, a, name).Missing? then FindName(S, b, name) else FindName(S, a, name)
  {
    if a == [] {
      assert a + b == b;
    } else {
      assert (a + b)[1..] == a[1..] + b;
      FindNameAppend(S, a[1..], b, name);
    }
  }

  /** The searches over n consecutive sectors, sector by sector. */
  ghost function FreeInRun(S: Sectors, lba: nat, n: nat): (r: Search<Slot>)
    requires lba + n <= |S|
    decreases n
  {
    if n == 0 then Missing
    else
      var r := FirstFree(S[lba], 0);
      if r.Found? then Found(Slot(lba, r.at)) else FreeInRun(S, lba + 1, n - 1)
  }

  ghost function NameInRun(S: Sectors, lba: nat, n: nat, name: Name): (r: Search<Slot>)
    requires lba + n <= |S|
    decreases n
  {
    if n == 0 then Missing
    else
      var r := Look(S[lba], name, 0);
      if r.Found? then Found(Slot(lba, r.at))
      else if r.EndMark? then EndMark
      else NameInRun(S, lba + 1, n - 1, name)
  }

  lemma {:induction false} RunSearches(S: Sectors, lba: nat, n: nat, name: Name)
    requires lba + n <= |S|
    ensures FindFree(S, Run(lba, n)) == FreeInRun(S, lba, n)
    ensures FindName(S, Run(lba, n), name) == NameInRun(S, lba, n, name)
    decreases n
  {
    hide Look, FirstFree;
    if n > 0 {
      RunSearches(S, lba + 1, n - 1, name);
      assert Run(lba, n)[1..] == Run(lba + 1, n - 1);
    }
  }

  /** The first free slot comes before any file of this name that a search finds. */
  ghost predicate NewFirst(S: Sectors, lbas: seq<nat>, name: Name)
    requires OnDisk(S, lbas)
  {
    lbas == [] ||
    var (f, r) := (FirstFree(S[lbas[0]], 0), Look(S[lbas[0]], name, 0));
    if r.Found? then f.Found? && f.at < r.at else f.Found? || NewFirst(S, lbas[1..], name)
  }

  /** If no such file is found, it does. */
  lemma {:induction false} FreshIsFirst(S: Sectors, lbas: seq<nat>, name: Name)
    requires OnDisk(S, lbas) && !NewFirst(S, lbas, name)
    ensures FindName(S, lbas, name).Found?
  {
    if !Look(S[lbas[0]], name, 0).Found? {
      NotFreeNotEnd(S[lbas[0]], 0, name);
      FreshIsFirst(S, lbas[1..], name);
    }
  }

  /** A new entry in the first free slot is found under its name iff it comes before any
      older file of that name; otherwise the older one is found. The directory may even be
      cyclic. */
  lemma {:induction false} FindNew(S: Sectors, lbas: seq<nat>, b: seq<byte>, name: Name)
    requires OnDisk(S, lbas) && FindFree(S, lbas).Found?
    requires |b| == DIR_ENTRY_SIZE && IsFileSlot(b, 0, name) && b[0] == name[0] && IsFileName(name)
    ensures var slot := FindFree(S, lbas).at;
      FindName(S[slot.lba := Splice(S[slot.lba], slot.offset, b)], lbas, name) ==
        if NewFirst(S, lbas, name) then Found(slot) else FindName(S, lbas, name)
  {
    var slot := FindFree(S, lbas).at;
    if FirstFree(S[lbas[0]], 0).Found? {
      LookForNew(S[lbas[0]], 0, b, name);
    } else {
      FindFreeIn(S, lbas[1..]);
      NotFreeNotEnd(S[lbas[0]], 0, name);
      if !Look(S[lbas[0]], name, 0).Found? {
        FindNew(S, lbas[1..], b, name);
      }
    }
  }

  lemma {:induction false} NotFreeNotEnd(s: Sector, i: nat, name: Name)
    requires !FirstFree(s, i).Found?
    ensures Look(s, name, i) != EndMark
    decreases |s| - i
  {
    if i + DIR_ENTRY_SIZE <= |s| {
      NotFreeNotEnd(s, i + DIR_ENTRY_SIZE, name);
    }
  }

  /** Filling a free slot (or emptying the slot of another file) leaves every file that
      could be found where it was. */
  lemma {:induction false} FindOther(S: Sectors, lbas: seq<nat>, slot: Slot, b: seq<byte>, name: Name)
    requires OnDisk(S, lbas) && FindName(S, lbas, name).Found?
    requires slot.lba < |S| && slot.offset + DIR_ENTRY_SIZE <= |S[slot.lba]| && slot.offset % DIR_ENTRY_SIZE == 0
    requires |b| == DIR_ENTRY_SIZE && b[0] != 0x00 && (b[0] == 0xE5 || !IsFileSlot(b, 0, name))
    requires IsFreeSlot(S[slot.lba], slot.offset) || !IsFileSlot(S[slot.lba], slot.offset, name)
    ensures FindName(S[slot.lba := Splice(S[slot.lba], slot.offset, b)], lbas, name) == FindName(S, lbas, name)
  {
    if lbas[0] == slot.lba {
      LookForOther(S[slot.lba], slot.offset, b, name, 0);
    }
    if !Look(S[lbas[0]], name, 0).Found? {
      FindOther(S, lbas[1..], slot, b, name);
    }
  }
}
