/** What writing and deleting a file mean for the volume, and what follows from it. */
module FatWrite {
  import opened FiniteSets
  import opened FatGeometry
  import opened FatTable
  import opened FatChain
  import opened FatDirectory
  import opened FatFile
  import opened FatFrame

  /** The slot is new: it holds `b`, the rest of its sector is as before, and apart from
      that sector S' differs from S only in the clusters C. */
  ghost predicate SlotFrame(g: Geometry, S: Sectors, S': Sectors, C: set<nat>, slot: Slot, b: seq<byte>) {
    && Formatted(g, S) && Formatted(g, S') && |S'| == |S|
    && slot.lba < |S| && slot.offset + |b| <= |S[slot.lba]|
    && S'[slot.lba] == Splice(S[slot.lba], slot.offset, b)
    && Frame(g, S, S'[slot.lba := S[slot.lba]], C)
  }

  /** The file is on the volume: `cl` are clusters that were free, now chained in every
      FAT copy; they hold the data, and zeros up to the end of its last sector; the first free slot of
      the directory describes them; nothing else is different. */
  ghost predicate Written(g: Geometry, S: Sectors, S': Sectors, name: Name, data: seq<byte>, cl: seq<nat>, slot: Slot) {
    && Formatted(g, S) && Formatted(g, S')
    && 0 < |data| < 0x1_0000_0000
    && AllFree(Links(g, S), SetOf(cl)) && ChainStored(g, S', cl)
    && |cl| > 0 && Times(|cl| - 1, ClusterSize(g)) < |data| <= Times(|cl|, ClusterSize(g))
    && cl[0] < 0x1_0000_0000
    && data <= Content(g, S', cl) && TailZero(g, Content(g, S', cl), |data|)
    && FreeSlot(g, S) == Found(slot)
    && SlotFrame(g, S, S', SetOf(cl), slot, DirEntry(name, cl[0], |data|))
  }

  // ----- chains in the FAT copies

  /** What entry cl[i] of a chain holds. */
  ghost function NextIn(g: Geometry, cl: seq<nat>, i: nat): nat
    requires i < |cl|
  {
    if i < |cl| - 1 then cl[i + 1] else Eoc(g)
  }

  /** Every copy of the FAT holds this value for the cluster. */
  ghost predicate InAllCopies(g: Geometry, S: Sectors, e: nat, value: nat)
    requires Formatted(g, S) && e < g.maxCluster
  {
    forall k :: 0 <= k < g.numFats ==> Low(g, Raw(g, S, k, e)) == value
  }

  /** A chain of distinct clusters as every copy of the FAT stores it. */
  ghost predicate ChainStored(g: Geometry, S: Sectors, cl: seq<nat>)
    requires Formatted(g, S)
  {
    && AllClusters(g, cl)
    && (forall i, j :: 0 <= i < j < |cl| ==> cl[i] != cl[j])
    && forall i :: 0 <= i < |cl| ==> InAllCopies(g, S, cl[i], NextIn(g, cl, i))
  }

  /** The i-th cluster of a chain, as a walk meets it. */
  ghost function LinkAt(g: Geometry, cl: seq<nat>, i: nat): nat {
    if i < |cl| then cl[i] else if cl == [] then 0 else Eoc(g)
  }

  lemma LinkInAllCopies(g: Geometry, S: Sectors, e: nat, value: nat)
    requires Formatted(g, S) && e < g.maxCluster && InAllCopies(g, S, e, value)
    ensures Links(g, S)[e] == value
  {
    NumFatsPositive(g);
  }

  lemma SameInAllCopies(g: Geometry, S: Sectors, S': Sectors, C: set<nat>, e: nat, value: nat)
    requires Frame(g, S, S', C) && e < g.maxCluster && e !in C && InAllCopies(g, S, e, value)
    ensures InAllCopies(g, S', e, value)
  {
    forall k | 0 <= k < g.numFats
      ensures Low(g, Raw(g, S', k, e)) == value
    {
      assert Raw(g, S', k, e) == Raw(g, S, k, e);
    }
  }

  lemma StoredIsLinked(g: Geometry, S: Sectors, cl: seq<nat>)
    requires Formatted(g, S) && ChainStored(g, S, cl)
    ensures Linked(Links(g, S), cl, Eoc(g))
  {
    forall i | 0 <= i < |cl|
      ensures Links(g, S)[cl[i]] == NextIn(g, cl, i)
    {
      LinkInAllCopies(g, S, cl[i], NextIn(g, cl, i));
    }
  }

  lemma StoredNotFree(g: Geometry, S: Sectors, cl: seq<nat>, c: nat)
    requires Formatted(g, S) && ChainStored(g, S, cl) && c < g.maxCluster && Links(g, S)[c] == 0
    ensures c !in cl
  {
    forall i | 0 <= i < |cl|
      ensures cl[i] != c
    {
      LinkInAllCopies(g, S, cl[i], NextIn(g, cl, i));
    }
  }

  /** Taking a free cluster and then linking the last cluster to it extends a chain. */
  lemma ChainExtended(g: Geometry, S0: Sectors, S1: Sectors, S2: Sectors, cl: seq<nat>, c: nat)
    requires Formatted(g, S0) && ChainStored(g, S0, cl)
    requires IsValidCluster(g, c) && Links(g, S0)[c] == 0
    requires Frame(g, S0, S1, {c}) && InAllCopies(g, S1, c, Eoc(g))
    requires if cl == [] then S2 == S1 else Frame(g, S1, S2, {cl[|cl| - 1]}) && InAllCopies(g, S2, cl[|cl| - 1], c)
    ensures ChainStored(g, S2, cl + [c])
  {
    var n, cl' := |cl|, cl + [c];
    StoredNotFree(g, S0, cl, c);
    forall i | 0 <= i < n + 1
      ensures InAllCopies(g, S2, cl'[i], NextIn(g, cl', i))
    {
      if i < n - 1 {
        assert NextIn(g, cl', i) == NextIn(g, cl, i);
        SameInAllCopies(g, S0, S1, {c}, cl[i], NextIn(g, cl, i));
        SameInAllCopies(g, S1, S2, {cl[n - 1]}, cl[i], NextIn(g, cl, i));
      } else if i == n && cl != [] {
        SameInAllCopies(g, S1, S2, {cl[n - 1]}, c, Eoc(g));
      }
    }
  }

  /** A valid cluster met on the walk along a chain is the i-th one, and leads to the next. */
  lemma ValidLink(g: Geometry, F: seq<nat>, cl: seq<nat>, i: nat)
    requires WellFormed(g) && |F| == g.maxCluster && Linked(F, cl, Eoc(g)) && i <= |cl|
    requires IsValidCluster(g, LinkAt(g, cl, i))
    ensures i < |cl| && cl[i] in SetOf(cl) && F[cl[i]] == LinkAt(g, cl, i + 1)
    ensures AllClusters(g, cl) && forall i, j :: 0 <= i < j < |cl| ==> cl[i] != cl[j]
  {
  }

  lemma NothingYet(g: Geometry, S: Sectors, cl: seq<nat>)
    requires Formatted(g, S) && ChainStored(g, S, cl)
    ensures AllClusters(g, cl) && cl[..|cl|] == cl && cl[..0] == [] && Content(g, S, []) == []
    ensures DataOnlyFrame(g, S, S, SetOf(cl))
  {
  }

  lemma EmptyChain(g: Geometry, S: Sectors)
    requires Formatted(g, S)
    ensures ChainStored(g, S, []) && SetOf([]) == {}
    ensures FatOnlyFrame(g, S, S, {}) && AllFree(Links(g, S), {}) && Closed(Links(g, S), {})
  {
  }

  /** What was free before and is untouched so far is still free. */
  lemma FreeMore(g: Geometry, S: Sectors, S': Sectors, C: set<nat>, t: set<nat>)
    requires Frame(g, S, S', C) && AllFree(Links(g, S), C) && AllFree(Links(g, S'), t)
    requires forall c :: c in C ==> Links(g, S')[c] != 0
    ensures AllFree(Links(g, S), C + t)
  {
    forall c | c in t
      ensures Links(g, S)[c] == 0
    {
      LinkSame(g, S, S', C, c);
    }
  }

  lemma StoredNoneFree(g: Geometry, S: Sectors, cl: seq<nat>)
    requires Formatted(g, S) && ChainStored(g, S, cl)
    ensures forall c :: c in SetOf(cl) ==> c < g.maxCluster && Links(g, S)[c] != 0
  {
    forall c | c in SetOf(cl)
      ensures c < g.maxCluster && Links(g, S)[c] != 0
    {
      if c < g.maxCluster && Links(g, S)[c] == 0 {
        StoredNotFree(g, S, cl, c);
      }
    }
  }

  lemma ClosedMore(g: Geometry, S: Sectors, S': Sectors, C: set<nat>, t: set<nat>)
    requires Frame(g, S, S', t) && Closed(Links(g, S), C) && Closed(Links(g, S'), t)
    ensures Closed(Links(g, S'), C + t)
  {
    NumFatsPositive(g);
    forall c | c in C && c !in t
      ensures Links(g, S')[c] == Links(g, S)[c]
    {
      assert Raw(g, S', 0, c) == Raw(g, S, 0, c);
    }
  }

  lemma ClosedAfterLink(g: Geometry, S: Sectors, S': Sectors, C: set<nat>, p: nat, value: nat)
    requires Frame(g, S, S', {p}) && Closed(Links(g, S), C) && p in C && value in C
    requires Links(g, S')[p] == value || Links(g, S')[p] == Links(g, S)[p]
    ensures Closed(Links(g, S'), C)
  {
    NumFatsPositive(g);
    forall c | c in C && c != p
      ensures Links(g, S')[c] == Links(g, S)[c]
    {
      assert Raw(g, S', 0, c) == Raw(g, S, 0, c);
    }
  }

  // ----- what a written or deleted slot means

  lemma DecodeSpliced(s: Sector, i: nat, b: seq<byte>)
    requires |b| == DIR_ENTRY_SIZE && i + |b| <= |s|
    ensures FirstClusterAt(Splice(s, i, b), i) == FirstClusterAt(b, 0)
    ensures FileSizeAt(Splice(s, i, b), i) == FileSizeAt(b, 0)
  {
  }

  lemma DecodeBeside(s: Sector, i: nat, b: seq<byte>, j: nat)
    requires |b| <= DIR_ENTRY_SIZE && i + DIR_ENTRY_SIZE <= |s| && j + DIR_ENTRY_SIZE <= |s|
    requires i + DIR_ENTRY_SIZE <= j || j + DIR_ENTRY_SIZE <= i
    ensures FirstClusterAt(Splice(s, i, b), j) == FirstClusterAt(s, j)
    ensures FileSizeAt(Splice(s, i, b), j) == FileSizeAt(s, j)
  {
  }

  /** Changing one sector of the directory leaves the FAT alone. */
  lemma SlotKeepsFat(g: Geometry, S: Sectors, S': Sectors, C: set<nat>, slot: Slot, b: seq<byte>)
    requires SlotFrame(g, S, S', C, slot, b) && !IsFatSector(g, slot.lba)
    ensures Links(g, S'[slot.lba := S[slot.lba]]) == Links(g, S')
    ensures forall k, e {:trigger Raw(g, S', k, e)} :: 0 <= k < g.numFats && 0 <= e < g.maxCluster ==>
              Raw(g, S'[slot.lba := S[slot.lba]], k, e) == Raw(g, S', k, e)
  {
    var S0 := S'[slot.lba := S[slot.lba]];
    LinksSame(g, S', S0);
    forall k, e | 0 <= k < g.numFats && 0 <= e < g.maxCluster
      ensures Raw(g, S0, k, e) == Raw(g, S', k, e)
    {
      RawSame(g, S', S0, k, e);
    }
  }

  lemma SlotOutside(g: Geometry, S: Sectors, C: set<nat>, lba: nat)
    requires Formatted(g, S) && ApartFromDir(g, Links(g, S), C) && lba in DirLbas(g, Links(g, S))
    ensures !IsFatSector(g, lba) && !InClusters(g, C, lba)
  {
    hide DirLbas, ApartFromDir, InClusters;
    DirOutside(g, Links(g, S), C);
  }

  /** A search of the directory after a slot was changed is a search of the old directory
      with that slot changed. */
  lemma SearchAfterSlot(g: Geometry, S: Sectors, S': Sectors, C: set<nat>, slot: Slot, b: seq<byte>, name: Name)
    requires |b| == DIR_ENTRY_SIZE && SlotFrame(g, S, S', C, slot, b)
    requires ApartFromDir(g, Links(g, S), C) && slot.lba in DirLbas(g, Links(g, S))
    ensures OnDisk(S, DirLbas(g, Links(g, S)))
    ensures SlotOf(g, S', name) == FindName(S[slot.lba := Splice(S[slot.lba], slot.offset, b)], DirLbas(g, Links(g, S)), name)
  {
    hide DirLbas, FindFree, FindName, ApartFromDir, FreeSlot;
    var S0 := S'[slot.lba := S[slot.lba]];
    var T := S[slot.lba := S'[slot.lba]];
    var lbas := DirLbas(g, Links(g, S));
    SlotOutside(g, S, C, slot.lba);
    SlotKeepsFat(g, S, S', C, slot, b);
    DirSame(g, S, S0, C);
    assert OnDisk(T, lbas);
    forall i | i in lbas
      ensures S'[i] == T[i]
    {
      assert S0[i] == S[i];
    }
    FindNameSame(T, S', lbas, name);
  }

  lemma NewSlotIsFree(g: Geometry, S: Sectors, slot: Slot)
    requires Formatted(g, S) && FreeSlot(g, S) == Found(slot)
    ensures slot.lba in DirLbas(g, Links(g, S))
    ensures slot.offset % DIR_ENTRY_SIZE == 0 && IsFreeSlot(S[slot.lba], slot.offset)
  {
    DirOnDisk(g, S);
    FindFreeIn(S, DirLbas(g, Links(g, S)));
    FirstFreeIsFree(S[slot.lba], 0);
  }

  lemma FileSlotIsUsed(g: Geometry, S: Sectors, slot: Slot, name: Name)
    requires Formatted(g, S) && SlotOf(g, S, name) == Found(slot)
    ensures slot.lba in DirLbas(g, Links(g, S))
    ensures slot.offset % DIR_ENTRY_SIZE == 0 && !IsFreeSlot(S[slot.lba], slot.offset) && IsFileSlot(S[slot.lba], slot.offset, name)
  {
    DirOnDisk(g, S);
    FindNameIn(S, DirLbas(g, Links(g, S)), name);
    LookFindsFile(S[slot.lba], name, 0);
  }

  // ----- the new file

  /** The new slot is what a search for the name finds. */
  lemma WrittenSlot(g: Geometry, S: Sectors, S': Sectors, name: Name, data: seq<byte>, cl: seq<nat>, slot: Slot)
    requires Written(g, S, S', name, data, cl, slot) && RootInUse(g, Links(g, S))
    requires IsFileName(name) && NewComesFirst(g, S, name)
    ensures SlotOf(g, S', name) == Found(slot)
    ensures FirstClusterAt(S'[slot.lba], slot.offset) == cl[0] && FileSizeAt(S'[slot.lba], slot.offset) == |data|
  {
    hide DirLbas, FindFree, FindName, RootInUse, AllFree, ApartFromDir, Times, IsFileSlot, FirstClusterAt, FileSizeAt, ChainStored, Frame;
    var b := DirEntry(name, cl[0], |data|);
    FreeApart(g, Links(g, S), SetOf(cl));
    NewSlotIsFree(g, S, slot);
    SearchAfterSlot(g, S, S', SetOf(cl), slot, b, name);
    FindNew(S, DirLbas(g, Links(g, S)), b, name);
    DecodeSpliced(S[slot.lba], slot.offset, b);
  }

  /** The chain of the new file holds the data. */
  lemma WrittenBytes(g: Geometry, S: Sectors, S': Sectors, name: Name, data: seq<byte>, cl: seq<nat>, slot: Slot)
    requires Written(g, S, S', name, data, cl, slot)
    ensures FileBytes(g, S', cl[0], |data|) == data
  {
    hide SlotFrame, FreeSlot, Links, Times, AllFree;
    StoredIsLinked(g, S', cl);
    ChainForLinked(g, Links(g, S'), cl, Eoc(g), |data|);
  }

  /** ROUND TRIP: after a successful write, the file of that name holds the data. */
  lemma WrittenFile(g: Geometry, S: Sectors, S': Sectors, name: Name, data: seq<byte>, cl: seq<nat>, slot: Slot)
    requires Written(g, S, S', name, data, cl, slot) && RootInUse(g, Links(g, S))
    requires IsFileName(name) && NewComesFirst(g, S, name)
    ensures File(g, S', name) == Found(data)
  {
    hide SlotOf, FirstClusterAt, FileSizeAt, FileBytes;
    WrittenSlot(g, S, S', name, data, cl, slot);
    WrittenBytes(g, S, S', name, data, cl, slot);
  }

  // ----- the other files

  /** These clusters are not among C and not part of the root directory. */
  ghost predicate SoundChain(g: Geometry, F: seq<nat>, C: set<nat>, cl: seq<nat>)
    requires |F| == g.maxCluster
  {
    && AllClusters(g, cl)
    && (forall i :: 0 <= i < |cl| ==> cl[i] !in C)
    && (g.fatType.Fat32? ==> forall i :: 0 <= i < |cl| ==> !Reachable(F, g.rootCluster, cl[i]))
  }

  /** The clusters of the file in this slot. */
  ghost function FileChain(g: Geometry, S: Sectors, slot: Slot): (cl: seq<nat>)
    requires Formatted(g, S) && slot.lba < |S| && slot.offset + DIR_ENTRY_SIZE <= |S[slot.lba]|
  {
    ChainFor(g, Links(g, S), FirstClusterAt(S[slot.lba], slot.offset), FileSizeAt(S[slot.lba], slot.offset))
  }

  lemma {:induction false} ChainForSame(g: Geometry, F: seq<nat>, F': seq<nat>, c: nat, need: nat)
    requires WellFormed(g) && |F| == |F'| == g.maxCluster
    requires forall i :: 0 <= i < |ChainFor(g, F, c, need)| ==> F'[ChainFor(g, F, c, need)[i]] == F[ChainFor(g, F, c, need)[i]]
    ensures ChainFor(g, F', c, need) == ChainFor(g, F, c, need)
    decreases need
  {
    ClusterSizePositive(g);
    if need > 0 && IsValidCluster(g, c) {
      var need' := if need <= ClusterSize(g) then 0 else need - ClusterSize(g);
      var rest := ChainFor(g, F, F[c], need');
      assert ChainFor(g, F, c, need) == [c] + rest;
      assert ChainFor(g, F, c, need)[0] == c;
      forall i | 0 <= i < |rest|
        ensures F'[rest[i]] == F[rest[i]]
      {
        assert ChainFor(g, F, c, need)[i + 1] == rest[i];
      }
      ChainForSame(g, F, F', F[c], need');
    }
  }

  lemma {:induction false} ChainLbaCluster(g: Geometry, F: seq<nat>, c: nat, n: nat, lba: nat) returns (r: nat)
    requires WellFormed(g) && |F| == g.maxCluster && lba in ChainLbas(g, F, c, n)
    requires IsValidCluster(g, c) ==> Reachable(F, g.rootCluster, c)
    ensures IsValidCluster(g, r) && Reachable(F, g.rootCluster, r) && InClusters(g, {r}, lba)
    decreases n
  {
    if lba in Run(ClusterToLba(g, c), g.sectorsPerCluster) {
      r := c;
    } else {
      if IsValidCluster(g, F[c]) {
        ReachesNext(F, g.rootCluster, c);
      }
      r := ChainLbaCluster(g, F, F[c], n - 1, lba);
    }
  }

  /** A change in a directory sector does not show in clusters outside the directory. */
  lemma {:induction false} DirChangeHidden(g: Geometry, F: seq<nat>, S: Sectors, S': Sectors, lba: nat, C: set<nat>, cl: seq<nat>)
    requires Formatted(g, S) && Formatted(g, S') && |S'| == |S| && |F| == g.maxCluster
    requires SoundChain(g, F, C, cl)
    requires lba in DirLbas(g, F) && forall i :: 0 <= i < |S| && i != lba ==> S'[i] == S[i]
    ensures Content(g, S', cl) == Content(g, S, cl)
  {
    hide Times;
    var R := {};
    if g.fatType.Fat32? {
      if IsLink(F, g.rootCluster) {
        ReachesItself(F, g.rootCluster);
      }
      var r := ChainLbaCluster(g, F, g.rootCluster, g.maxCluster, lba);
      R := {r};
    }
    ContentSame(g, S, S', R, cl);
  }

  lemma DataFrameOnly(g: Geometry, S: Sectors, S': Sectors, C: set<nat>)
    requires Frame(g, S, S', C)
    ensures forall i :: g.dataStartLba <= i < |S| && !InClusters(g, C, i) ==> S'[i] == S[i]
  {
    hide InClusters, Times;
  }

  /** A chain and its bytes stay when only other clusters are touched. */
  lemma ChainKept(g: Geometry, S: Sectors, S': Sectors, C: set<nat>, first: nat, size: nat)
    requires Frame(g, S, S', C) && SoundChain(g, Links(g, S), C, ChainFor(g, Links(g, S), first, size))
    ensures ChainFor(g, Links(g, S'), first, size) == ChainFor(g, Links(g, S), first, size)
    ensures Content(g, S', ChainFor(g, Links(g, S), first, size)) == Content(g, S, ChainFor(g, Links(g, S), first, size))
  {
    hide Times, InClusters;
    var F := Links(g, S);
    var used := ChainFor(g, F, first, size);
    forall i | 0 <= i < |used|
      ensures Links(g, S')[used[i]] == F[used[i]]
    {
      LinkSame(g, S, S', C, used[i]);
    }
    ChainForSame(g, F, Links(g, S'), first, size);
    DataFrameOnly(g, S, S', C);
    ContentSame(g, S, S', C, used);
  }

  lemma FileBytesKept(g: Geometry, S: Sectors, S': Sectors, C: set<nat>, slot: Slot, b: seq<byte>, first: nat, size: nat)
    requires SlotFrame(g, S, S', C, slot, b)
    requires ApartFromDir(g, Links(g, S), C) && slot.lba in DirLbas(g, Links(g, S))
    requires SoundChain(g, Links(g, S), C, ChainFor(g, Links(g, S), first, size))
    ensures FileBytes(g, S', first, size) == FileBytes(g, S, first, size)
  {
    hide DirLbas, FreeSlot, Times, ApartFromDir, InClusters, ChainFor, Links, Content, Frame, SoundChain;
    var S0 := S'[slot.lba := S[slot.lba]];
    SlotOutside(g, S, C, slot.lba);
    SlotKeepsFat(g, S, S', C, slot, b);
    ChainKept(g, S, S0, C, first, size);
    DirChangeHidden(g, Links(g, S), S0, S', slot.lba, C, ChainFor(g, Links(g, S), first, size));
  }

  /** The slot of another file stays and describes the same chain. */
  lemma OtherSlotKept(g: Geometry, S: Sectors, S': Sectors, C: set<nat>, slot: Slot, b: seq<byte>, other: Name)
    requires |b| == DIR_ENTRY_SIZE && SlotFrame(g, S, S', C, slot, b)
    requires ApartFromDir(g, Links(g, S), C) && slot.lba in DirLbas(g, Links(g, S)) && slot.offset % DIR_ENTRY_SIZE == 0
    requires IsFreeSlot(S[slot.lba], slot.offset) || !IsFileSlot(S[slot.lba], slot.offset, other)
    requires b[0] != 0x00 && (b[0] == 0xE5 || !IsFileSlot(b, 0, other))
    requires SlotOf(g, S, other).Found?
    ensures SlotOf(g, S', other) == SlotOf(g, S, other)
    ensures var at := SlotOf(g, S, other).at;
      && FirstClusterAt(S'[at.lba], at.offset) == FirstClusterAt(S[at.lba], at.offset)
      && FileSizeAt(S'[at.lba], at.offset) == FileSizeAt(S[at.lba], at.offset)
  {
    hide DirLbas, FindFree, FindName, ApartFromDir, Times, FirstClusterAt, FileSizeAt, InClusters;
    var at := SlotOf(g, S, other).at;
    FileSlotIsUsed(g, S, at, other);
    SearchAfterSlot(g, S, S', C, slot, b, other);
    FindOther(S, DirLbas(g, Links(g, S)), slot, b, other);
    if at.lba == slot.lba {
      SlotsApart(at.offset, slot.offset);
      DecodeBeside(S[slot.lba], slot.offset, b, at.offset);
    } else {
      DirSame(g, S, S'[slot.lba := S[slot.lba]], C);
    }
  }

  /** No other file is changed by a write. */
  lemma OtherFileKept(g: Geometry, S: Sectors, S': Sectors, name: Name, data: seq<byte>, cl: seq<nat>, slot: Slot, other: Name)
    requires Written(g, S, S', name, data, cl, slot) && RootInUse(g, Links(g, S))
    requires IsFileName(name) && other != name && SlotOf(g, S, other).Found?
    requires SoundChain(g, Links(g, S), FreeSet(Links(g, S)), FileChain(g, S, SlotOf(g, S, other).at))
    ensures File(g, S', other) == File(g, S, other)
  {
    hide SlotOf, FirstClusterAt, FileSizeAt, FileBytes, ChainFor, RootInUse, ApartFromDir, Links, ChainStored, Frame;
    var at, C, b := SlotOf(g, S, other).at, SetOf(cl), DirEntry(name, cl[0], |data|);
    FreeApart(g, Links(g, S), C);
    assert C <= FreeSet(Links(g, S));
    NewSlotIsFree(g, S, slot);
    OtherSlotKept(g, S, S', C, slot, b, other);
    FileBytesKept(g, S, S', C, slot, b, FirstClusterAt(S[at.lba], at.offset), FileSizeAt(S[at.lba], at.offset));
  }

  /** An older file that comes before the new one of the same name stays what is found. */
  lemma OlderFileKept(g: Geometry, S: Sectors, S': Sectors, name: Name, data: seq<byte>, cl: seq<nat>, slot: Slot)
    requires Written(g, S, S', name, data, cl, slot) && RootInUse(g, Links(g, S))
    requires IsFileName(name) && !NewComesFirst(g, S, name)
    ensures SlotOf(g, S, name).Found? && SlotOf(g, S', name) == SlotOf(g, S, name)
    ensures var at := SlotOf(g, S, name).at;
      && FirstClusterAt(S'[at.lba], at.offset) == FirstClusterAt(S[at.lba], at.offset)
      && FileSizeAt(S'[at.lba], at.offset) == FileSizeAt(S[at.lba], at.offset)
  {
    hide DirLbas, FindFree, FindName, RootInUse, AllFree, ApartFromDir, Times, FirstClusterAt, FileSizeAt, ChainStored, InClusters;
    var (C, b) := (SetOf(cl), DirEntry(name, cl[0], |data|));
    FreeApart(g, Links(g, S), C);
    NewSlotIsFree(g, S, slot);
    SearchAfterSlot(g, S, S', C, slot, b, name);
    FreshIsFirst(S, DirLbas(g, Links(g, S)), name);
    FindNew(S, DirLbas(g, Links(g, S)), b, name);
    var at := SlotOf(g, S, name).at;
    FileSlotIsUsed(g, S, at, name);
    if at.lba == slot.lba {
      SlotsApart(at.offset, slot.offset);
      DecodeBeside(S[slot.lba], slot.offset, b, at.offset);
    } else {
      DirSame(g, S, S'[slot.lba := S[slot.lba]], C);
    }
  }

  /** A reader then gets what he got before. */
  lemma OlderReadsBack(g: Geometry, S: Sectors, S': Sectors, name: Name, data: seq<byte>, cl: seq<nat>, slot: Slot, limit: nat)
    requires Written(g, S, S', name, data, cl, slot) && RootInUse(g, Links(g, S))
    requires IsFileName(name) && !NewComesFirst(g, S, name) && SoundFile(g, S, name)
    ensures SlotOf(g, S', name) == SlotOf(g, S, name) && SizeOf(g, S', name) == SizeOf(g, S, name)
    ensures FirstBytes(g, S', name, limit) == FirstBytes(g, S, name, limit)
  {
    hide SlotOf, FirstClusterAt, FileSizeAt, FileBytes, ChainFor, RootInUse, ApartFromDir, Links, ChainStored, Frame, SoundChain, NewComesFirst;
    var (at, C, b) := (SlotOf(g, S, name).at, SetOf(cl), DirEntry(name, cl[0], |data|));
    var (first, size) := (FirstClusterAt(S[at.lba], at.offset), FileSizeAt(S[at.lba], at.offset));
    OlderFileKept(g, S, S', name, data, cl, slot);
    FreeApart(g, Links(g, S), C);
    NewSlotIsFree(g, S, slot);
    ChainForPrefix(g, Links(g, S), first, if size > limit then limit else size, size);
    FewerClusters(g, Links(g, S), FreeSet(Links(g, S)), C, FileChain(g, S, at), ChainFor(g, Links(g, S), first, if size > limit then limit else size));
    FileBytesKept(g, S, S', C, slot, b, first, if size > limit then limit else size);
  }

  /** Fewer bytes need a prefix of the chain. */
  lemma {:induction false} ChainForPrefix(g: Geometry, F: seq<nat>, c: nat, few: nat, many: nat)
    requires WellFormed(g) && |F| == g.maxCluster && few <= many
    ensures ChainFor(g, F, c, few) <= ChainFor(g, F, c, many)
    decreases few
  {
    ClusterSizePositive(g);
    if few > 0 && IsValidCluster(g, c) {
      var n := ClusterSize(g);
      ChainForPrefix(g, F, F[c], if few <= n then 0 else few - n, if many <= n then 0 else many - n);
    }
  }

  lemma FewerClusters(g: Geometry, F: seq<nat>, C: set<nat>, D: set<nat>, cl: seq<nat>, few: seq<nat>)
    requires |F| == g.maxCluster && SoundChain(g, F, C, cl) && D <= C && few <= cl
    ensures SoundChain(g, F, D, few)
  {
    assert forall i :: 0 <= i < |few| ==> few[i] == cl[i];
  }

  // ----- what a write keeps

  /** The table entries outside C are the same. */
  ghost predicate LinksKept(g: Geometry, S: Sectors, S': Sectors, C: set<nat>) {
    && Formatted(g, S) && Formatted(g, S')
    && forall e: nat :: e < g.maxCluster && e !in C ==> Links(g, S')[e] == Links(g, S)[e]
  }

  lemma TouchedLinks(g: Geometry, S: Sectors, S': Sectors, C: set<nat>, slot: Slot, b: seq<byte>)
    requires OnlyFreeTouched(g, S, S', C, slot, b) && RootInUse(g, Links(g, S))
    ensures LinksKept(g, S, S', C)
  {
    hide RootInUse, FreeSlot, ApartFromDir, InClusters, Links, Frame;
    FreeApart(g, Links(g, S), C);
    var T := S';
    if !Frame(g, S, S', C) {
      T := S'[slot.lba := S[slot.lba]];
      NewSlotIsFree(g, S, slot);
      SlotOutside(g, S, C, slot.lba);
      SlotKeepsFat(g, S, S', C, slot, b);
    }
    FrameFormatted(g, S, T, C);
    forall e: nat | e < g.maxCluster && e !in C
      ensures Links(g, T)[e] == Links(g, S)[e]
    {
      LinkSame(g, S, T, C, e);
    }
  }

  lemma FrameFormatted(g: Geometry, S: Sectors, S': Sectors, C: set<nat>)
    requires Frame(g, S, S', C)
    ensures Formatted(g, S) && Formatted(g, S')
  {
  }

  /** What the directory reaches afterwards it reached before. */
  lemma ReachStays(g: Geometry, S: Sectors, S': Sectors, C: set<nat>, c: nat)
    requires LinksKept(g, S, S', C) && ApartFromDir(g, Links(g, S), C) && g.fatType.Fat32?
    requires Reachable(Links(g, S'), g.rootCluster, c)
    ensures Reachable(Links(g, S), g.rootCluster, c) && c !in C
  {
    hide Links, Reachable;
    var (F, F') := (Links(g, S), Links(g, S'));
    var Z := set d: nat | d < |F| && Reachable(F, g.rootCluster, d);
    if IsLink(F, g.rootCluster) {
      ReachesItself(F, g.rootCluster);
    }
    forall z | z in Z && IsLink(F', F'[z])
      ensures F'[z] in Z
    {
      ReachesNext(F, g.rootCluster, z);
    }
    ReachableIn(F', g.rootCluster, Z, c);
  }

  /** The root directory stays in use. */
  lemma RootStays(g: Geometry, S: Sectors, S': Sectors, C: set<nat>)
    requires LinksKept(g, S, S', C) && RootInUse(g, Links(g, S)) && AllFree(Links(g, S), C)
    ensures RootInUse(g, Links(g, S'))
  {
    hide Links, AllFree, Reachable;
    FreeApart(g, Links(g, S), C);
    if g.fatType.Fat32? {
      forall c: nat | Reachable(Links(g, S'), g.rootCluster, c)
        ensures c < g.maxCluster && Links(g, S')[c] != 0
      {
        ReachStays(g, S, S', C, c);
        ReachableIsLink(Links(g, S'), g.rootCluster, c);
      }
    }
  }

  lemma RootAfterTouch(g: Geometry, S: Sectors, S': Sectors, C: set<nat>, slot: Slot, b: seq<byte>)
    requires OnlyFreeTouched(g, S, S', C, slot, b) && RootInUse(g, Links(g, S))
    ensures Formatted(g, S') && RootInUse(g, Links(g, S'))
  {
    hide RootInUse, FreeSlot, Frame, SlotFrame;
    TouchedLinks(g, S, S', C, slot, b);
    RootStays(g, S, S', C);
  }

  lemma RootAfterWrite(g: Geometry, S: Sectors, S': Sectors, name: Name, data: seq<byte>, cl: seq<nat>, slot: Slot)
    requires Written(g, S, S', name, data, cl, slot) && RootInUse(g, Links(g, S))
    ensures RootInUse(g, Links(g, S'))
  {
    hide RootInUse, FreeSlot, SlotFrame, ChainStored, Times;
    RootAfterTouch(g, S, S', SetOf(cl), slot, DirEntry(name, cl[0], |data|));
  }

  lemma ReachableIsLink(F: seq<nat>, c: nat, d: nat)
    requires Reachable(F, c, d)
    ensures IsLink(F, d)
  {
  }

  /** A file can be found, and its chain has no free cluster and none of the directory. */
  ghost predicate SoundFile(g: Geometry, S: Sectors, name: Name)
    requires Formatted(g, S)
  {
    && SlotOf(g, S, name).Found?
    && SoundChain(g, Links(g, S), FreeSet(Links(g, S)), FileChain(g, S, SlotOf(g, S, name).at))
  }

  lemma SoundStays(g: Geometry, S: Sectors, S': Sectors, C: set<nat>, cl: seq<nat>)
    requires LinksKept(g, S, S', C) && RootInUse(g, Links(g, S)) && AllFree(Links(g, S), C)
    requires SoundChain(g, Links(g, S), FreeSet(Links(g, S)), cl)
    ensures SoundChain(g, Links(g, S'), FreeSet(Links(g, S')), cl)
  {
    hide Links, Reachable, RootInUse;
    FreeApart(g, Links(g, S), C);
    forall i | 0 <= i < |cl|
      ensures cl[i] !in FreeSet(Links(g, S'))
      ensures g.fatType.Fat32? ==> !Reachable(Links(g, S'), g.rootCluster, cl[i])
    {
      assert cl[i] !in C;
      if g.fatType.Fat32? && Reachable(Links(g, S'), g.rootCluster, cl[i]) {
        ReachStays(g, S, S', C, cl[i]);
      }
    }
  }

  /** A new file is sound. */
  lemma NewFileSound(g: Geometry, S: Sectors, S': Sectors, name: Name, data: seq<byte>, cl: seq<nat>, slot: Slot)
    requires Written(g, S, S', name, data, cl, slot) && RootInUse(g, Links(g, S))
    requires IsFileName(name) && NewComesFirst(g, S, name)
    ensures SoundFile(g, S', name)
  {
    hide SlotOf, FirstClusterAt, FileSizeAt, RootInUse, ApartFromDir, Links, ChainStored, SlotFrame, Times, NewComesFirst, Reachable, Linked;
    WrittenSlot(g, S, S', name, data, cl, slot);
    StoredIsLinked(g, S', cl);
    ChainForLinked(g, Links(g, S'), cl, Eoc(g), |data|);
    StoredNoneFree(g, S', cl);
    FreeApart(g, Links(g, S), SetOf(cl));
    TouchedLinks(g, S, S', SetOf(cl), slot, DirEntry(name, cl[0], |data|));
    StoredClusters(g, S', cl);
    forall i | 0 <= i < |cl|
      ensures g.fatType.Fat32? ==> !Reachable(Links(g, S'), g.rootCluster, cl[i])
    {
      assert cl[i] in SetOf(cl);
      if g.fatType.Fat32? && Reachable(Links(g, S'), g.rootCluster, cl[i]) {
        ReachStays(g, S, S', SetOf(cl), cl[i]);
      }
    }
  }

  lemma StoredClusters(g: Geometry, S: Sectors, cl: seq<nat>)
    requires Formatted(g, S) && ChainStored(g, S, cl)
    ensures AllClusters(g, cl)
  {
  }

  /** Another file that was sound stays so. */
  lemma OtherFileSound(g: Geometry, S: Sectors, S': Sectors, name: Name, data: seq<byte>, cl: seq<nat>, slot: Slot, other: Name)
    requires Written(g, S, S', name, data, cl, slot) && RootInUse(g, Links(g, S))
    requires IsFileName(name) && other != name && SoundFile(g, S, other)
    ensures SoundFile(g, S', other)
  {
    hide SlotOf, FirstClusterAt, FileSizeAt, RootInUse, ApartFromDir, Links, ChainStored, SlotFrame, SoundChain, Frame;
    var (at, C, b) := (SlotOf(g, S, other).at, SetOf(cl), DirEntry(name, cl[0], |data|));
    FreeApart(g, Links(g, S), C);
    NewSlotIsFree(g, S, slot);
    OtherSlotKept(g, S, S', C, slot, b, other);
    TouchedLinks(g, S, S', C, slot, b);
    SoundStays(g, S, S', C, FileChain(g, S, at));
    SameChain(g, S, S', C, FirstClusterAt(S[at.lba], at.offset), FileSizeAt(S[at.lba], at.offset));
  }

  lemma SameChain(g: Geometry, S: Sectors, S': Sectors, C: set<nat>, first: nat, size: nat)
    requires LinksKept(g, S, S', C) && AllFree(Links(g, S), C)
    requires SoundChain(g, Links(g, S), FreeSet(Links(g, S)), ChainFor(g, Links(g, S), first, size))
    ensures ChainFor(g, Links(g, S'), first, size) == ChainFor(g, Links(g, S), first, size)
  {
    hide Links, ChainFor, Reachable;
    var cl := ChainFor(g, Links(g, S), first, size);
    forall i | 0 <= i < |cl|
      ensures Links(g, S')[cl[i]] == Links(g, S)[cl[i]]
    {
      assert cl[i] !in C;
    }
    ChainForSame(g, Links(g, S), Links(g, S'), first, size);
  }

  /** A failed write that leaves the directory alone keeps every sound file. */
  lemma FileKeptByFrame(g: Geometry, S: Sectors, S': Sectors, C: set<nat>, name: Name)
    requires Frame(g, S, S', C) && RootInUse(g, Links(g, S)) && AllFree(Links(g, S), C) && SoundFile(g, S, name)
    ensures SoundFile(g, S', name) && File(g, S', name) == File(g, S, name) && SizeOf(g, S', name) == SizeOf(g, S, name)
  {
    hide FirstClusterAt, FileSizeAt, RootInUse, ApartFromDir, Links, Frame, SoundChain, DirLbas, FindName, InClusters, ChainFor, Content;
    FrameFormatted(g, S, S', C);
    var (F, at) := (Links(g, S), SlotOf(g, S, name).at);
    var (first, size) := (FirstClusterAt(S[at.lba], at.offset), FileSizeAt(S[at.lba], at.offset));
    FreeApart(g, F, C);
    SearchesSame(g, S, S', C, name);
    DirSame(g, S, S', C);
    FileSlotIsUsed(g, S, at, name);
    FrameLinks(g, S, S', C);
    SoundStays(g, S, S', C, FileChain(g, S, at));
    SameChain(g, S, S', C, first, size);
    FewerClusters(g, F, FreeSet(F), C, FileChain(g, S, at), FileChain(g, S, at));
    ChainKept(g, S, S', C, first, size);
  }

  lemma FrameLinks(g: Geometry, S: Sectors, S': Sectors, C: set<nat>)
    requires Frame(g, S, S', C)
    ensures LinksKept(g, S, S', C)
  {
    hide Links;
    forall e: nat | e < g.maxCluster && e !in C
      ensures Links(g, S')[e] == Links(g, S)[e]
    {
      LinkSame(g, S, S', C, e);
    }
  }

  // ----- deleting

  /** The entry of a deleted file: the first byte of the name is overwritten. */
  function DeletedEntry(s: Sector, i: nat): (b: seq<byte>)
    requires i + DIR_ENTRY_SIZE <= |s|
    ensures |b| == DIR_ENTRY_SIZE && b[0] == 0xE5
  {
    [0xE5] + s[i + 1..i + DIR_ENTRY_SIZE]
  }

  /** The file is gone: its slot is marked, the clusters reachable from its first cluster
      are free in every FAT copy, and nothing else is different. */
  ghost predicate Deleted(g: Geometry, S: Sectors, S': Sectors, name: Name, freed: set<nat>, slot: Slot) {
    && Formatted(g, S) && SlotOf(g, S, name) == Found(slot)
    && SlotFrame(g, S, S', freed, slot, DeletedEntry(S[slot.lba], slot.offset))
    && (forall i :: 0 <= i < |S| && !IsFatSector(g, i) && i != slot.lba ==> S'[i] == S[i])
    && (forall c: nat :: c in freed <==> Reachable(Links(g, S), FirstClusterAt(S[slot.lba], slot.offset), c))
    && (forall c: nat :: c in freed ==> c < g.maxCluster && InAllCopies(g, S', c, 0))
  }

  /** No other file is changed by a delete, unless their chains are cross-linked. */
  lemma OtherFileKeptByDelete(g: Geometry, S: Sectors, S': Sectors, name: Name, freed: set<nat>, slot: Slot, other: Name)
    requires Deleted(g, S, S', name, freed, slot) && ApartFromDir(g, Links(g, S), freed)
    requires other != name && SlotOf(g, S, other).Found?
    requires SoundChain(g, Links(g, S), freed, FileChain(g, S, SlotOf(g, S, other).at))
    ensures File(g, S', other) == File(g, S, other)
  {
    hide SlotOf, FirstClusterAt, FileSizeAt, FileBytes, ChainFor, ApartFromDir, Links, Frame, SoundChain;
    var at, b := SlotOf(g, S, other).at, DeletedEntry(S[slot.lba], slot.offset);
    FileSlotIsUsed(g, S, slot, name);
    OtherSlotKept(g, S, S', freed, slot, b, other);
    FileBytesKept(g, S, S', freed, slot, b, FirstClusterAt(S[at.lba], at.offset), FileSizeAt(S[at.lba], at.offset));
  }

  // ----- undoing

  /** Clusters that are free in the first FAT copy are free in every copy. */
  ghost predicate FreeMirrored(g: Geometry, S: Sectors, C: set<nat>)
    requires Formatted(g, S)
  {
    forall c: nat :: c in C ==> c < g.maxCluster && InAllCopies(g, S, c, 0)
  }

  /** Every FAT entry, in every copy, reserved bits included, is the same. */
  ghost predicate SameFat(g: Geometry, S: Sectors, S': Sectors) {
    && Formatted(g, S) && Formatted(g, S') && |S'| == |S|
    && forall k, e {:trigger Raw(g, S', k, e)} :: 0 <= k < g.numFats && 0 <= e < g.maxCluster ==> Raw(g, S', k, e) == Raw(g, S, k, e)
  }

  /** Freeing all the clusters that were taken gives the old FAT back. */
  lemma FreedIsUntouched(g: Geometry, S: Sectors, S': Sectors, C: set<nat>)
    requires Frame(g, S, S', C) && FreeMirrored(g, S, C)
    requires forall c: nat :: c in C ==> InAllCopies(g, S', c, 0)
    ensures SameFat(g, S, S')
  {
    forall k, e | 0 <= k < g.numFats && 0 <= e < g.maxCluster
      ensures Raw(g, S', k, e) == Raw(g, S, k, e)
    {
      if e in C {
        assert InAllCopies(g, S', e, 0) && InAllCopies(g, S, e, 0);
        RawParts(g, Raw(g, S', k, e), Raw(g, S, k, e));
      }
    }
  }

  lemma {:induction false} LinkedReachSet(F: seq<nat>, cl: seq<nat>, end: nat, freed: set<nat>)
    requires Linked(F, cl, end) && |cl| > 0 && !IsLink(F, end)
    requires forall c: nat :: c in freed <==> Reachable(F, cl[0], c)
    ensures freed == SetOf(cl)
  {
    forall c: nat
      ensures c in freed <==> c in cl
    {
      LinkedReaches(F, cl, end, c);
    }
  }

  /** Deleting a file that was just written gives the old FAT back. */
  lemma DeleteUndoesWrite(g: Geometry, S: Sectors, S': Sectors, S'': Sectors, name: Name, data: seq<byte>, cl: seq<nat>, slot: Slot, freed: set<nat>, slot': Slot)
    requires Written(g, S, S', name, data, cl, slot) && RootInUse(g, Links(g, S))
    requires IsFileName(name) && NewComesFirst(g, S, name)
    requires FreeMirrored(g, S, SetOf(cl))
    requires Deleted(g, S', S'', name, freed, slot')
    ensures slot' == slot && freed == SetOf(cl) && SameFat(g, S, S'')
  {
    hide SlotOf, FirstClusterAt, FileSizeAt, RootInUse, Links, AllFree, Times, InClusters;
    WrittenSlot(g, S, S', name, data, cl, slot);
    StoredIsLinked(g, S', cl);
    LinkedReachSet(Links(g, S'), cl, Eoc(g), freed);
    FreeApart(g, Links(g, S), SetOf(cl));
    NewSlotIsFree(g, S, slot);
    SlotOutside(g, S, SetOf(cl), slot.lba);
    var S1 := S'[slot.lba := S[slot.lba]];
    var S2 := S''[slot.lba := S'[slot.lba]];
    SlotKeepsFat(g, S, S', SetOf(cl), slot, DirEntry(name, cl[0], |data|));
    SlotKeepsFat(g, S', S'', freed, slot, DeletedEntry(S'[slot.lba], slot.offset));
    forall k, e | 0 <= k < g.numFats && 0 <= e < g.maxCluster
      ensures Raw(g, S'', k, e) == Raw(g, S, k, e)
    {
      assert Raw(g, S'', k, e) == Raw(g, S2, k, e) && Raw(g, S', k, e) == Raw(g, S1, k, e);
      if e in SetOf(cl) {
        assert InAllCopies(g, S'', e, 0) && InAllCopies(g, S, e, 0);
        RawParts(g, Raw(g, S'', k, e), Raw(g, S, k, e));
      }
    }
  }

  // ----- free space

  /** A chain of free clusters is no longer than the free space. */
  lemma ChainFitsFreeSpace(F: seq<nat>, cl: seq<nat>)
    requires AllFree(F, SetOf(cl)) && forall i, j :: 0 <= i < j < |cl| ==> cl[i] != cl[j]
    ensures |cl| <= |FreeSet(F)|
  {
    SetOfSize(cl);
    SubsetSize(SetOf(cl), FreeSet(F));
  }

  /** When a chain has taken everything that was free, it is as long as the free space. */
  lemma ChainTookFreeSpace(g: Geometry, S: Sectors, S': Sectors, cl: seq<nat>)
    requires Frame(g, S, S', SetOf(cl)) && NoneFree(Links(g, S'), g.maxCluster)
    ensures |FreeSet(Links(g, S))| <= |cl|
  {
    forall c | c in FreeSet(Links(g, S))
      ensures c in SetOf(cl)
    {
      if c !in SetOf(cl) {
        LinkSame(g, S, S', SetOf(cl), c);
      }
    }
    SetOfSize(cl);
    SubsetSize(FreeSet(Links(g, S)), SetOf(cl));
  }

  // ----- the steps of a write

  /** The first free slot has been filled. */
  ghost predicate SlotFilled(g: Geometry, S: Sectors, S': Sectors, slot: Slot, b: seq<byte>)
    requires Formatted(g, S)
  {
    && FreeSlot(g, S) == Found(slot) && slot.offset + |b| <= |S[slot.lba]|
    && S' == S[slot.lba := Splice(S[slot.lba], slot.offset, b)]
  }

  /** Nothing has changed but clusters that were free, their FAT entries, and perhaps the
      first free slot of the directory. */
  ghost predicate OnlyFreeTouched(g: Geometry, S: Sectors, S': Sectors, C: set<nat>, slot: Slot, b: seq<byte>) {
    && Formatted(g, S) && AllFree(Links(g, S), C)
    && (Frame(g, S, S', C) || (FreeSlot(g, S) == Found(slot) && SlotFrame(g, S, S', C, slot, b)))
  }

  lemma AllCopiesSame(g: Geometry, S: Sectors, S': Sectors, cl: seq<nat>)
    requires Formatted(g, S) && Formatted(g, S') && |S'| == |S| && ChainStored(g, S, cl)
    requires forall i :: 0 <= i < |S| && IsFatSector(g, i) ==> S'[i] == S[i]
    ensures ChainStored(g, S', cl)
  {
    hide Raw, Times;
    forall i | 0 <= i < |cl|
      ensures InAllCopies(g, S', cl[i], NextIn(g, cl, i))
    {
      assert InAllCopies(g, S, cl[i], NextIn(g, cl, i));
      forall k | 0 <= k < g.numFats
        ensures Low(g, Raw(g, S', k, cl[i])) == NextIn(g, cl, i)
      {
        RawSame(g, S, S', k, cl[i]);
      }
    }
  }

  /** Allocating the chain and writing the data leaves directory and chain what they are. */
  lemma DataStep(g: Geometry, S0: Sectors, S1: Sectors, S2: Sectors, cl: seq<nat>)
    requires FatOnlyFrame(g, S0, S1, SetOf(cl)) && AllFree(Links(g, S0), SetOf(cl)) && ChainStored(g, S1, cl)
    requires DataOnlyFrame(g, S1, S2, SetOf(cl)) && RootInUse(g, Links(g, S0))
    ensures Frame(g, S0, S2, SetOf(cl)) && AllClusters(g, cl) && ChainStored(g, S2, cl) && Links(g, S2) == Links(g, S1)
    ensures ApartFromDir(g, Links(g, S0), SetOf(cl)) && FreeSlot(g, S2) == FreeSlot(g, S0)
    ensures |cl| <= |FreeSet(Links(g, S0))| && |Content(g, S2, cl)| == Times(|cl|, ClusterSize(g))
  {
    hide Times, Links, Raw, RootInUse, AllFree, FreeSlot, SlotOf, InClusters, ApartFromDir;
    var T := SetOf(cl);
    DataFrameIsFrame(g, S1, S2, T);
    FrameTransitive(g, S0, S1, S2, T, T);
    assert T + T == T;
    forall i | 0 <= i < |S1| && IsFatSector(g, i)
      ensures S2[i] == S1[i]
    {
      FatNotInClusters(g, T, i);
    }
    AllCopiesSame(g, S1, S2, cl);
    FreeApart(g, Links(g, S0), T);
    SearchesSame(g, S0, S2, T, seq(11, _ => 0));
    ChainFitsFreeSpace(Links(g, S0), cl);
    ContentLength(g, S2, cl);
  }

  /** Filling the slot keeps everything else. */
  lemma SlotStep(g: Geometry, S0: Sectors, S2: Sectors, S3: Sectors, C: set<nat>, slot: Slot, b: seq<byte>)
    requires Frame(g, S0, S2, C) && ApartFromDir(g, Links(g, S0), C)
    requires FreeSlot(g, S2) == FreeSlot(g, S0) && SlotFilled(g, S2, S3, slot, b)
    ensures FreeSlot(g, S0) == Found(slot) && SlotFrame(g, S0, S3, C, slot, b) && slot.lba in DirLbas(g, Links(g, S0))
    ensures Formatted(g, S0) && Formatted(g, S2) && Formatted(g, S3) && |S3| == |S2| && Links(g, S3) == Links(g, S2)
    ensures forall i :: 0 <= i < |S2| && (i != slot.lba || IsFatSector(g, i)) ==> S3[i] == S2[i]
  {
    hide Times, Links, Raw, DirLbas, ApartFromDir, FreeSlot, InClusters;
    NewSlotIsFree(g, S0, slot);
    DirSame(g, S0, S2, C);
    SlotOutside(g, S0, C, slot.lba);
    assert S3[slot.lba := S0[slot.lba]] == S2;
    LinksSame(g, S2, S3);
  }

  /** The three steps together write the file. */
  lemma WriteSteps(g: Geometry, S0: Sectors, S2: Sectors, S3: Sectors, name: Name, data: seq<byte>, cl: seq<nat>, slot: Slot)
    requires Frame(g, S0, S2, SetOf(cl)) && AllFree(Links(g, S0), SetOf(cl)) && ChainStored(g, S2, cl)
    requires ApartFromDir(g, Links(g, S0), SetOf(cl)) && FreeSlot(g, S2) == FreeSlot(g, S0)
    requires 0 < |data| < 0x1_0000_0000 && |cl| > 0 && cl[0] < 0x1_0000_0000
    requires Times(|cl| - 1, ClusterSize(g)) < |data| <= Times(|cl|, ClusterSize(g))
    requires data <= Content(g, S2, cl) && TailZero(g, Content(g, S2, cl), |data|) && SlotFilled(g, S2, S3, slot, DirEntry(name, cl[0], |data|))
    ensures FreeSlot(g, S0) == Found(slot) && Written(g, S0, S3, name, data, cl, slot)
  {
    hide Times, Links, Raw, DirLbas, FreeSlot, Content, Frame, InClusters, SlotFrame, SlotFilled, InAllCopies, Formatted, AllFree, TailZero;
    SlotStep(g, S0, S2, S3, SetOf(cl), slot, DirEntry(name, cl[0], |data|));
    AllCopiesSame(g, S2, S3, cl);
    DirChangeHidden(g, Links(g, S0), S2, S3, slot.lba, {}, cl);
  }

  lemma NotYetInSlot(g: Geometry, S: Sectors, S': Sectors, C: set<nat>, slot: Slot)
    requires Frame(g, S, S', C) && AllFree(Links(g, S), C)
    ensures exists b: seq<byte> :: |b| == DIR_ENTRY_SIZE && OnlyFreeTouched(g, S, S', C, slot, b)
  {
    var b: seq<byte> := seq(DIR_ENTRY_SIZE, _ => 0);
    assert OnlyFreeTouched(g, S, S', C, slot, b);
  }

  /** A chain that holds some data starts with a cluster. */
  lemma FirstOfChain(g: Geometry, S: Sectors, cl: seq<nat>, size: nat)
    requires Formatted(g, S) && ChainStored(g, S, cl) && 0 < size <= |Content(g, S, cl)|
    ensures |cl| > 0 && LinkAt(g, cl, 0) == cl[0] < 0x1_0000_0000
  {
  }

  /** Freeing clusters of C afterwards stays within what is allowed. */
  lemma UndoStep(g: Geometry, S0: Sectors, S: Sectors, S': Sectors, C: set<nat>, D: set<nat>, slot: Slot, b: seq<byte>)
    requires OnlyFreeTouched(g, S0, S, C, slot, b) && ApartFromDir(g, Links(g, S0), C)
    requires FatOnlyFrame(g, S, S', D) && D <= C
    ensures OnlyFreeTouched(g, S0, S', C, slot, b)
  {
    hide Times, Links, Raw, DirLbas, FreeSlot, InClusters, ApartFromDir, AllFree;
    if Frame(g, S0, S, C) {
      FrameTransitive(g, S0, S, S', C, D);
      assert C + D == C;
    } else {
      NewSlotIsFree(g, S0, slot);
      SlotOutside(g, S0, C, slot.lba);
      var (T, T') := (S[slot.lba := S0[slot.lba]], S'[slot.lba := S0[slot.lba]]);
      SlotKeepsFat(g, S0, S, C, slot, b);
      forall k, e | 0 <= k < g.numFats && 0 <= e < g.maxCluster
        ensures Raw(g, T', k, e) == Raw(g, S', k, e)
      {
        RawSame(g, S', T', k, e);
      }
      assert FatOnlyFrame(g, T, T', D);
      FrameTransitive(g, S0, T, T', C, D);
      assert C + D == C;
    }
  }

  /** A set of clusters that no link leaves holds what a walk from inside it frees. */
  lemma FreedInside(F: seq<nat>, first: nat, C: set<nat>, freed: set<nat>)
    requires Closed(F, C) && (IsLink(F, first) ==> first in C)
    requires forall c :: c in freed ==> Reachable(F, first, c)
    ensures freed <= C
  {
    forall c | c in freed
      ensures c in C
    {
      ReachableIn(F, first, C, c);
    }
  }

  lemma NothingTouched(g: Geometry, S: Sectors)
    requires Formatted(g, S)
    ensures AllFree(Links(g, S), {}) && Frame(g, S, S, {}) && SameFat(g, S, S)
    ensures exists b: seq<byte> :: |b| == DIR_ENTRY_SIZE && OnlyFreeTouched(g, S, S, {}, Slot(0, 0), b)
  {
    NotYetInSlot(g, S, S, {}, Slot(0, 0));
  }

  /** A walk along a stored chain frees all of it. */
  lemma ChainFreed(g: Geometry, S: Sectors, cl: seq<nat>, freed: set<nat>)
    requires Formatted(g, S) && ChainStored(g, S, cl)
    requires cl != [] && cl[0] != 0 ==> forall c: nat :: Reachable(Links(g, S), cl[0], c) ==> c in freed
    ensures SetOf(cl) <= freed
  {
    StoredIsLinked(g, S, cl);
    forall c | c in SetOf(cl)
      ensures c in freed
    {
      LinkedReaches(Links(g, S), cl, Eoc(g), c);
    }
  }

  // ----- the steps of a delete

  lemma DeletedBytes(s: Sector, i: nat)
    requires i + DIR_ENTRY_SIZE <= |s|
    ensures Splice(s, i, [0xE5]) == Splice(s, i, DeletedEntry(s, i))
  {
  }

  /** The directory has no sector in the FAT, however corrupt it is. */
  lemma DirNotInFat(g: Geometry, S: Sectors, lba: nat)
    requires Formatted(g, S) && lba in DirLbas(g, Links(g, S))
    ensures !IsFatSector(g, lba)
  {
    hide Times;
    if g.fatType.Fat32? {
      DirOutside(g, Links(g, S), {});
    }
  }

  /** Marking the slot keeps everything else. */
  lemma DeleteStep(g: Geometry, S: Sectors, name: Name, slot: Slot)
    requires Formatted(g, S) && SlotOf(g, S, name) == Found(slot)
    ensures var b := DeletedEntry(S[slot.lba], slot.offset);
      var S' := S[slot.lba := Splice(S[slot.lba], slot.offset, b)];
      && SlotFrame(g, S, S', {}, slot, b) && !IsFatSector(g, slot.lba) && Links(g, S') == Links(g, S)
  {
    hide Times, Links, Raw, DirLbas, SlotOf;
    FileSlotIsUsed(g, S, slot, name);
    DirNotInFat(g, S, slot.lba);
    var S' := S[slot.lba := Splice(S[slot.lba], slot.offset, DeletedEntry(S[slot.lba], slot.offset))];
    assert S'[slot.lba := S[slot.lba]] == S;
    LinksSame(g, S, S');
  }

  lemma NothingFreed(g: Geometry, S: Sectors)
    requires Formatted(g, S)
    ensures FatOnlyFrame(g, S, S, {}) && forall c: nat :: !Reachable(Links(g, S), 0, c)
  {
    forall c: nat
      ensures !Reachable(Links(g, S), 0, c)
    {
      if Reachable(Links(g, S), 0, c) {
        ReachableIn(Links(g, S), 0, {}, c);
      }
    }
  }

  /** Freeing the chain afterwards completes the delete. */
  lemma FreeStep(g: Geometry, S: Sectors, S1: Sectors, S2: Sectors, name: Name, slot: Slot, freed: set<nat>)
    requires Formatted(g, S) && SlotOf(g, S, name) == Found(slot) && !IsFatSector(g, slot.lba)
    requires S1 == S[slot.lba := Splice(S[slot.lba], slot.offset, DeletedEntry(S[slot.lba], slot.offset))]
    requires SlotFrame(g, S, S1, {}, slot, DeletedEntry(S[slot.lba], slot.offset)) && FatOnlyFrame(g, S1, S2, freed)
    ensures SlotFrame(g, S, S2, freed, slot, DeletedEntry(S[slot.lba], slot.offset))
    ensures forall i :: 0 <= i < |S| && !IsFatSector(g, i) && i != slot.lba ==> S2[i] == S[i]
  {
    hide Times, Links, Raw, SlotOf, InClusters;
    var (T, T') := (S, S2[slot.lba := S[slot.lba]]);
    SlotKeepsFat(g, S, S1, {}, slot, DeletedEntry(S[slot.lba], slot.offset));
    forall k, e | 0 <= k < g.numFats && 0 <= e < g.maxCluster
      ensures Raw(g, T', k, e) == Raw(g, S2, k, e)
    {
      RawSame(g, S2, T', k, e);
    }
    assert S1[slot.lba := S[slot.lba]] == S;
    assert Frame(g, S, T', freed);
  }

  lemma DeleteDone(g: Geometry, S: Sectors, S1: Sectors, S2: Sectors, name: Name, slot: Slot, freed: set<nat>, first: nat)
    requires Formatted(g, S) && Formatted(g, S1) && SlotOf(g, S, name) == Found(slot) && first == FirstClusterAt(S[slot.lba], slot.offset)
    requires SlotFrame(g, S, S2, freed, slot, DeletedEntry(S[slot.lba], slot.offset)) && Links(g, S1) == Links(g, S)
    requires forall i :: 0 <= i < |S| && !IsFatSector(g, i) && i != slot.lba ==> S2[i] == S[i]
    requires forall c: nat :: c in freed ==> Reachable(Links(g, S1), first, c)
    requires forall c: nat :: Reachable(Links(g, S1), first, c) ==> c in freed && InAllCopies(g, S2, c, 0)
    ensures Deleted(g, S, S2, name, freed, slot)
  {
    hide Times, SlotOf, FirstClusterAt, InAllCopies, SlotFrame;
  }

  // ----- the steps of a read

  /** The size the directory gives for a file. */
  ghost function SizeOf(g: Geometry, S: Sectors, name: Name): nat
    requires Formatted(g, S) && SlotOf(g, S, name).Found?
  {
    var at := SlotOf(g, S, name).at;
    FileSizeAt(S[at.lba], at.offset)
  }

  /** The bytes of a file that a buffer of this size can take. */
  ghost function FirstBytes(g: Geometry, S: Sectors, name: Name, limit: nat): (b: seq<byte>)
    requires Formatted(g, S) && SlotOf(g, S, name).Found?
    ensures |b| <= limit
  {
    var at := SlotOf(g, S, name).at;
    var size := FileSizeAt(S[at.lba], at.offset);
    FileBytes(g, S, FirstClusterAt(S[at.lba], at.offset), if size > limit then limit else size)
  }

  lemma NothingRead(g: Geometry, S: Sectors, d: seq<byte>)
    requires Formatted(g, S)
    ensures Content(g, S, []) == [] && Splice(d, 0, Content(g, S, [])[..0]) == d
  {
    SpliceNothing(d, 0);
  }

  lemma NoBytes(g: Geometry, S: Sectors, first: nat, d: seq<byte>)
    requires Formatted(g, S)
    ensures Splice(d, 0, FileBytes(g, S, first, 0)) == d
  {
    SpliceNothing(d, 0);
  }

  /** One more cluster has been copied to a buffer. */
  lemma ClusterRead(g: Geometry, S: Sectors, d: seq<byte>, cl: seq<nat>, c: nat, at: nat, end: nat)
    requires Formatted(g, S) && AllClusters(g, cl) && IsValidCluster(g, c)
    requires at == |Content(g, S, cl)| && at <= end <= |d| && end - at <= ClusterSize(g)
    ensures AllClusters(g, cl + [c]) && |Content(g, S, cl + [c])| == at + ClusterSize(g)
    ensures Splice(Splice(d, 0, Content(g, S, cl)[..at]), at, ClusterBytes(g, S, c)[..end - at]) == Splice(d, 0, Content(g, S, cl + [c])[..end])
  {
    hide Times, ClusterBytes;
    assert (cl + [c])[..|cl|] == cl;
    assert Content(g, S, cl + [c]) == Content(g, S, cl) + ClusterBytes(g, S, c);
  }

  lemma ChainForStep(g: Geometry, F: seq<nat>, c: nat, need: nat)
    requires |F| == g.maxCluster && WellFormed(g) && need > 0 && IsValidCluster(g, c)
    ensures ChainFor(g, F, c, need) == [c] + ChainFor(g, F, F[c], if need <= ClusterSize(g) then 0 else need - ClusterSize(g))
  {
  }

  lemma ChainForEnd(g: Geometry, F: seq<nat>, c: nat, need: nat)
    requires |F| == g.maxCluster && WellFormed(g) && (need == 0 || !IsValidCluster(g, c))
    ensures ChainFor(g, F, c, need) == []
  {
  }

  /** The clusters that were read hold the file's bytes. */
  lemma ChainRead(g: Geometry, S: Sectors, first: nat, limit: nat, cl: seq<nat>, at: nat)
    requires Formatted(g, S) && cl == ChainFor(g, Links(g, S), first, limit)
    requires at <= limit && at <= |Content(g, S, cl)| && (at < limit ==> at == |Content(g, S, cl)|)
    ensures FileBytes(g, S, first, limit) == Content(g, S, cl)[..at]
  {
    hide Times, Links, Content, ChainFor;
  }

  /** What a written file gives back to a reader with a large enough buffer. */
  lemma ReadsBack(g: Geometry, S: Sectors, S': Sectors, name: Name, data: seq<byte>, cl: seq<nat>, slot: Slot, limit: nat)
    requires Written(g, S, S', name, data, cl, slot) && RootInUse(g, Links(g, S))
    requires IsFileName(name) && NewComesFirst(g, S, name) && |data| <= limit
    ensures SlotOf(g, S', name).Found? && SizeOf(g, S', name) == |data| && FirstBytes(g, S', name, limit) == data
  {
    hide SlotOf, FirstClusterAt, FileSizeAt, FileBytes;
    WrittenSlot(g, S, S', name, data, cl, slot);
    WrittenBytes(g, S, S', name, data, cl, slot);
  }
}
