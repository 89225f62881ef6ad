/** A mounted volume: the disk, the shared sector buffer, and the FAT operations. */
module FatVolume {
  import opened FiniteSets
  import opened FatGeometry
  import opened FatTable
  import opened FatChain
  import opened FatDirectory
  import opened FatFile
  import opened FatFrame
  import opened FatWrite
  import opened FatLayout

  /** The walk of FatFreeChain after n steps: what it has not reached yet, it reaches
      through `cluster`; and either it has freed n clusters or it has met one again. */
  ghost predicate FreedSoFar(F: seq<nat>, first: nat, cluster: nat, freed: set<nat>, n: nat) {
    && (IsLink(F, first) ==> first in freed + {cluster})
    && (forall c :: c in freed ==> IsLink(F, c) && (IsLink(F, F[c]) ==> F[c] in freed + {cluster}))
    && (|freed| == n || cluster == 0)
  }

  lemma FreedStep(F: seq<nat>, first: nat, cluster: nat, freed: set<nat>, n: nat)
    requires FreedSoFar(F, first, cluster, freed, n) && IsLink(F, cluster)
    ensures FreedSoFar(F, first, if cluster in freed then 0 else F[cluster], freed + {cluster}, n + 1)
  {
    if cluster in freed {
      assert freed + {cluster} == freed;
    }
  }

  lemma {:induction false} FreedAll(F: seq<nat>, first: nat, cluster: nat, freed: set<nat>, n: nat)
    requires FreedSoFar(F, first, cluster, freed, n) && (n >= |F| || !IsLink(F, cluster))
    requires |F| >= 2
    ensures forall c :: Reachable(F, first, c) ==> c in freed
  {
    if IsLink(F, cluster) {
      RangeSize(freed, 2, |F|);
    }
    forall c | Reachable(F, first, c)
      ensures c in freed
    {
      ReachableIn(F, first, freed, c);
    }
  }

  /** The first n copies of the FAT hold this value for the cluster. */
  ghost predicate CopiesWritten(g: Geometry, S: Sectors, e: nat, value: nat, n: nat)
    requires Formatted(g, S) && e < g.maxCluster && n <= g.numFats
  {
    forall k :: 0 <= k < n ==> Low(g, Raw(g, S, k, e)) == value
  }

  lemma NoCopyYet(g: Geometry, S: Sectors, e: nat, value: nat)
    requires Formatted(g, S) && e < g.maxCluster
    ensures FatOnlyFrame(g, S, S, {e}) && CopiesWritten(g, S, e, value, 0)
  {
  }

  lemma AllCopiesWritten(g: Geometry, S: Sectors, e: nat, value: nat)
    requires Formatted(g, S) && e < g.maxCluster && CopiesWritten(g, S, e, value, g.numFats)
    ensures InAllCopies(g, S, e, value)
  {
    hide Raw;
  }

  lemma CopyWritten(g: Geometry, S0: Sectors, S: Sectors, k: nat, e: nat, value: nat)
    requires FatOnlyFrame(g, S0, S, {e}) && k < g.numFats && e < g.maxCluster && value <= Eoc(g) && CopiesWritten(g, S, e, value, k)
    ensures var S' := Stored(g, S, k, e, value);
      && FatOnlyFrame(g, S0, S', {e}) && CopiesWritten(g, S', e, value, k + 1)
      && (Links(g, S')[e] == value || Links(g, S')[e] == Links(g, S)[e])
  {
    hide Stored, Raw, InClusters;
    NumFatsPositive(g);
    StoredEffect(g, S, k, e, value);
  }

  /** Every copy of the FAT has these clusters free. */
  ghost predicate Cleared(g: Geometry, S: Sectors, freed: set<nat>)
    requires Formatted(g, S)
  {
    forall c :: c in freed ==> c < g.maxCluster && InAllCopies(g, S, c, 0)
  }

  lemma NothingCleared(g: Geometry, S: Sectors, first: nat)
    requires Formatted(g, S)
    ensures FatOnlyFrame(g, S, S, {}) && Cleared(g, S, {}) && FreedSoFar(Links(g, S), first, first, {}, 0)
  {
    hide Links;
  }

  /** On the way a cluster has its old link, or none when it has been freed. */
  lemma LinkOrCleared(g: Geometry, S0: Sectors, S: Sectors, freed: set<nat>, c: nat)
    requires FatOnlyFrame(g, S0, S, freed) && Cleared(g, S, freed) && c < g.maxCluster
    ensures Links(g, S)[c] == if c in freed then 0 else Links(g, S0)[c]
  {
    hide InClusters, InAllCopies, Links;
    if c in freed {
      LinkInAllCopies(g, S, c, 0);
    } else {
      LinkSame(g, S0, S, freed, c);
    }
  }

  lemma ClearedMore(g: Geometry, S1: Sectors, S2: Sectors, freed: set<nat>, cluster: nat)
    requires FatOnlyFrame(g, S1, S2, {cluster}) && Cleared(g, S1, freed) && cluster < g.maxCluster && InAllCopies(g, S2, cluster, 0)
    ensures Cleared(g, S2, freed + {cluster})
  {
    hide InClusters, InAllCopies, Raw;
    forall c | c in freed + {cluster}
      ensures c < g.maxCluster && InAllCopies(g, S2, c, 0)
    {
      if c != cluster {
        SameInAllCopies(g, S1, S2, {cluster}, c, 0);
      }
    }
  }

  ghost predicate ReachedAll(F: seq<nat>, first: nat, freed: set<nat>) {
    forall c :: c in freed ==> Reachable(F, first, c)
  }

  lemma FirstReached(g: Geometry, S: Sectors, first: nat)
    requires Formatted(g, S)
    ensures 2 <= g.maxCluster <= Eoc(g) && ReachedAll(Links(g, S), first, {})
    ensures IsLink(Links(g, S), first) ==> Reachable(Links(g, S), first, first)
  {
    hide Links, Reachable;
    if IsLink(Links(g, S), first) {
      ReachesItself(Links(g, S), first);
    }
  }

  lemma NextReached(g: Geometry, F: seq<nat>, first: nat, freed: set<nat>, cluster: nat, next: nat)
    requires |F| == g.maxCluster <= Eoc(g) && IsLink(F, cluster) && Reachable(F, first, cluster) && ReachedAll(F, first, freed)
    requires next == (if cluster in freed then 0 else F[cluster]) || next == Eoc(g)
    ensures IsLink(F, next) ==> Reachable(F, first, next)
    ensures ReachedAll(F, first, freed + {cluster})
  {
    hide Reachable;
    if IsLink(F, F[cluster]) {
      ReachesNext(F, first, cluster);
    }
  }

  lemma ReachedEach(F: seq<nat>, first: nat, freed: set<nat>)
    requires ReachedAll(F, first, freed)
    ensures forall c :: c in freed ==> Reachable(F, first, c)
  {
    hide Reachable;
  }

  lemma ClearedEach(g: Geometry, S: Sectors, freed: set<nat>)
    requires Formatted(g, S) && Cleared(g, S, freed)
    ensures forall c :: c in freed ==> c < g.maxCluster && InAllCopies(g, S, c, 0)
  {
  }

  class Volume {
    const g: Geometry
    const buf: array<byte>       // the one sector buffer
    var sectors: Sectors
    var ioError: bool            // some transfer has failed

    ghost predicate Valid()
      reads this
    {
      && Formatted(g, sectors)
      && buf.Length == g.bytesPerSector
    }

    ghost function Fat(): (F: seq<nat>)
      reads this
      requires Valid()
      ensures |F| == g.maxCluster
    {
      Links(g, sectors)
    }

    constructor (geometry: Geometry, disk: Sectors)
      requires Formatted(geometry, disk)
      ensures Valid() && g == geometry && sectors == disk && !ioError && fresh(buf)
    {
      g, sectors, ioError := geometry, disk, false;
      buf := new byte[geometry.bytesPerSector](_ => 0);
    }

    // ----- transfers, which may fail at any time

    method ReadSector(lba: nat) returns (ok: bool)
      requires Valid() && lba < |sectors|
      modifies this`ioError, buf
      ensures Valid()
      ensures ok ==> buf[..] == sectors[lba] && ioError == old(ioError)
      ensures !ok ==> ioError
    {
      ok := *;
      if !ok {
        ioError := true;
        return;
      }
      forall i | 0 <= i < buf.Length {
        buf[i] := sectors[lba][i];
      }
      assert buf[..] == sectors[lba];
    }

    /** A transfer that is reported as failed may or may not have reached the disk. */
    method WriteSector(lba: nat) returns (ok: bool)
      requires Valid() && lba < |sectors|
      modifies this`ioError, this`sectors
      ensures Valid()
      ensures ok ==> sectors == old(sectors)[lba := buf[..]] && ioError == old(ioError)
      ensures !ok ==> ioError && (sectors == old(sectors) || sectors == old(sectors)[lba := buf[..]])
    {
      ok := *;
      var landed: bool := *;
      if ok || landed {
        sectors := sectors[lba := buf[..]];
      }
      if !ok {
        ioError := true;
      }
    }

    /** Copies bytes into the buffer. */
    method Store(i: nat, b: seq<byte>)
      requires Valid() && i + |b| <= buf.Length
      modifies buf
      ensures buf[..] == Splice(old(buf[..]), i, b)
    {
      forall j | i <= j < i + |b| {
        buf[j] := b[j - i];
      }
      assert buf[..] == Splice(old(buf[..]), i, b);
    }

    /** Copies one sector of data, or the last piece of it, padded with zeros. */
    method FillBuffer(b: seq<byte>)
      requires Valid() && |b| <= buf.Length
      modifies buf
      ensures buf[..|b|] == b && forall j :: |b| <= j < buf.Length ==> buf[j] == 0
    {
      if |b| < g.bytesPerSector {
        Store(0, seq(g.bytesPerSector, _ => 0));
      }
      ghost var s := buf[..];
      Store(0, b);
      assert forall j :: 0 <= j < buf.Length ==> buf[..][j] == Splice(s, 0, b)[j];
    }

    /** Copies the first n bytes of the buffer out. */
    method CopyOut(dst: array<byte>, at: nat, n: nat)
      requires at + n <= dst.Length && n <= buf.Length && dst != buf
      modifies dst
      ensures dst[..] == Splice(old(dst[..]), at, buf[..n])
    {
      forall j | at <= j < at + n {
        dst[j] := buf[j - at];
      }
      assert dst[..] == Splice(old(dst[..]), at, buf[..n]);
    }

    // ----- FAT entries

    /** An entry that cannot be read is taken for the end of a chain. */
    method FatReadEntry(cluster: nat) returns (value: nat)
      requires Valid() && cluster < g.maxCluster
      modifies this`ioError, buf
      ensures Valid()
      ensures old(ioError) ==> ioError
      ensures value == Fat()[cluster] || (ioError && value == Eoc(g))
    {
      FatSectorExists(g, sectors, 0, cluster);
      var ok := ReadSector(EntryLba(g, 0, cluster));
      if !ok {
        return Eoc(g);
      }
      value := Low(g, Load(g, buf[..], EntryOffset(g, cluster)));
    }

    /** Stores an entry in one copy of the FAT. */
    method FatWriteCopy(k: nat, cluster: nat, value: nat) returns (ok: bool)
      requires Valid() && k < g.numFats && cluster < g.maxCluster && value <= Eoc(g)
      modifies this`ioError, this`sectors, buf
      ensures Valid() && (old(ioError) ==> ioError) && (!ok ==> ioError)
      ensures sectors == Stored(g, old(sectors), k, cluster, value) || (!ok && sectors == old(sectors))
    {
      FatSectorExists(g, sectors, k, cluster);
      var lba, i := EntryLba(g, k, cluster), EntryOffset(g, cluster);
      ok := ReadSector(lba);
      if ok {
        Store(i, Merged(g, Load(g, buf[..], i), value));
        ok := WriteSector(lba);
      }
    }

    method FatWriteEntry(cluster: nat, value: nat) returns (ok: bool)
      requires Valid() && cluster < g.maxCluster && value <= Eoc(g)
      modifies this`ioError, this`sectors, buf
      ensures Valid() && (old(ioError) ==> ioError)
      ensures FatOnlyFrame(g, old(sectors), sectors, {cluster})
      ensures Fat()[cluster] == value || Fat()[cluster] == old(Fat())[cluster]
      ensures if ok then InAllCopies(g, sectors, cluster, value) else ioError
    {
      hide FatOnlyFrame, CopiesWritten, Stored, Links, InAllCopies, WellFormed;
      var k := 0;
      NoCopyYet(g, sectors, cluster, value);
      while k < g.numFats
        invariant 0 <= k <= g.numFats
        invariant Valid() && (old(ioError) ==> ioError)
        invariant FatOnlyFrame(g, old(sectors), sectors, {cluster}) && CopiesWritten(g, sectors, cluster, value, k)
        invariant Fat()[cluster] == value || Fat()[cluster] == old(Fat())[cluster]
      {
        CopyWritten(g, old(sectors), sectors, k, cluster, value);
        ok := FatWriteCopy(k, cluster, value);
        if !ok {
          return;
        }
        k := k + 1;
      }
      ok := true;
      AllCopiesWritten(g, sectors, cluster, value);
    }

    /** Takes the first free cluster. Only a free cluster is ever touched, and 0 means
        that there is none unless a transfer failed. */
    method FatAllocCluster() returns (cluster: nat, ghost touched: set<nat>)
      requires Valid()
      modifies this`ioError, this`sectors, buf
      ensures Valid() && (old(ioError) ==> ioError)
      ensures AllFree(old(Fat()), touched) && Closed(Fat(), touched)
      ensures FatOnlyFrame(g, old(sectors), sectors, touched)
      ensures cluster != 0 ==>
        && IsValidCluster(g, cluster) && touched == {cluster}
        && InAllCopies(g, sectors, cluster, Eoc(g))
        && (!ioError ==> NoneFree(old(Fat()), cluster))
      ensures cluster == 0 && !ioError ==> touched == {} && sectors == old(sectors) && NoneFree(Fat(), g.maxCluster)
    {
      cluster := 2;
      while cluster < g.maxCluster
        invariant 2 <= cluster <= g.maxCluster
        invariant Valid() && (old(ioError) ==> ioError)
        invariant sectors == old(sectors)
        invariant !ioError ==> NoneFree(Fat(), cluster)
      {
        var entry := FatReadEntry(cluster);
        if entry == 0 {
          touched := {cluster};
          var ok := FatWriteEntry(cluster, Eoc(g));
          if !ok {
            cluster := 0;
          }
          return;
        }
        cluster := cluster + 1;
      }
      cluster, touched := 0, {};
    }

    /** Frees a chain, whatever the table holds: cycles, cross links and garbage
        included. Without a failed transfer the freed clusters are exactly those
        reachable from the first one; the cap on the walk never cuts it short. */
    method FatFreeChain(firstCluster: nat) returns (ghost freed: set<nat>)
      requires Valid()
      modifies this`ioError, this`sectors, buf
      ensures Valid() && (old(ioError) ==> ioError)
      ensures FatOnlyFrame(g, old(sectors), sectors, freed)
      ensures forall c :: c in freed ==> Reachable(old(Fat()), firstCluster, c)
      ensures !ioError ==> forall c :: Reachable(old(Fat()), firstCluster, c) ==> c in freed && InAllCopies(g, sectors, c, 0)
    {
      hide FatOnlyFrame, Links, InAllCopies, Reachable, FreedSoFar, Formatted, Cleared, ReachedAll, Eoc;
      ghost var (S0, F) := (sectors, Fat());
      var cluster, n := firstCluster, 0;
      freed := {};
      NothingCleared(g, sectors, firstCluster);
      FirstReached(g, sectors, firstCluster);
      while n < g.maxCluster && IsValidCluster(g, cluster)
        invariant Valid() && (old(ioError) ==> ioError)
        invariant FatOnlyFrame(g, S0, sectors, freed) && Cleared(g, sectors, freed)
        invariant ReachedAll(F, firstCluster, freed)
        invariant IsLink(F, cluster) ==> Reachable(F, firstCluster, cluster)
        invariant !ioError ==> FreedSoFar(F, firstCluster, cluster, freed, n)
        decreases g.maxCluster - n
      {
        ghost var S1 := sectors;
        LinkOrCleared(g, S0, S1, freed, cluster);
        var next := FatReadEntry(cluster);
        if !ioError {
          FreedStep(F, firstCluster, cluster, freed, n);
        }
        NextReached(g, F, firstCluster, freed, cluster, next);
        var ok := FatWriteEntry(cluster, 0);
        FatOnlyTransitive(g, S0, S1, sectors, freed, {cluster});
        if !ok {
          freed := freed + {cluster};
          ReachedEach(F, firstCluster, freed);
          return;
        }
        ClearedMore(g, S1, sectors, freed, cluster);
        freed := freed + {cluster};
        cluster := next;
        n := n + 1;
      }
      ReachedEach(F, firstCluster, freed);
      if !ioError {
        FreedAll(F, firstCluster, cluster, freed, n);
        ClearedEach(g, sectors, freed);
      }
    }

    // ----- directory scans

    /** Looks for a free slot in the buffered sector. */
    method FirstFreeInBuffer(lba: nat) returns (r: Search<Slot>)
      ensures r == match FirstFree(buf[..], 0) case Found(i) => Found(Slot(lba, i)) case EndMark => EndMark case Missing => Missing
    {
      var i := 0;
      while i + DIR_ENTRY_SIZE <= buf.Length
        invariant FirstFree(buf[..], 0) == FirstFree(buf[..], i)
        decreases buf.Length - i
      {
        if buf[i] == 0x00 || buf[i] == 0xE5 {
          return Found(Slot(lba, i));
        }
        i := i + DIR_ENTRY_SIZE;
      }
      return Missing;
    }

    /** Looks for a file in the buffered sector. */
    method LookInBuffer(lba: nat, name: Name) returns (r: Search<Slot>)
      ensures r == match Look(buf[..], name, 0) case Found(i) => Found(Slot(lba, i)) case EndMark => EndMark case Missing => Missing
    {
      var i := 0;
      while i + DIR_ENTRY_SIZE <= buf.Length
        invariant Look(buf[..], name, 0) == Look(buf[..], name, i)
        decreases buf.Length - i
      {
        assert buf[..][i..i + 11] == buf[i..i + 11];
        if buf[i] == 0x00 {
          return EndMark;
        }
        if buf[i] != 0xE5 && (buf[i + 11] / 8) % 4 == 0 && buf[i..i + 11] == name {
          return Found(Slot(lba, i));
        }
        i := i + DIR_ENTRY_SIZE;
      }
      return Missing;
    }

    /** Looks for a free slot in n consecutive sectors. */
    method FindFreeInRun(lba: nat, n: nat) returns (ok: bool, r: Search<Slot>)
      requires Valid() && lba + n <= |sectors|
      modifies this`ioError, buf
      ensures Valid() && (old(ioError) ==> ioError)
      ensures if ok then r == FreeInRun(sectors, lba, n) else ioError
    {
      var s := 0;
      while s < n
        invariant 0 <= s <= n
        invariant Valid() && (old(ioError) ==> ioError)
        invariant FreeInRun(sectors, lba, n) == FreeInRun(sectors, lba + s, n - s)
      {
        ok := ReadSector(lba + s);
        if !ok {
          return false, Missing;
        }
        r := FirstFreeInBuffer(lba + s);
        if r.Found? {
          return;
        }
        s := s + 1;
      }
      return true, Missing;
    }

    /** Looks for a free slot in the cluster chain of a FAT32 root directory. The walk
        validates each link and is capped, so a cyclic directory ends it. */
    method FindFreeInChain() returns (found: bool, slot: Slot)
      requires Valid() && g.fatType.Fat32?
      modifies this`ioError, buf
      ensures Valid() && (old(ioError) ==> ioError)
      ensures found ==> FreeSlot(g, sectors) == Found(slot)
      ensures !found && !ioError ==> FreeSlot(g, sectors).Missing?
    {
      hide FreeInRun, Run, FindFree, Links, Times, ChainLbas, FreeSlot;
      found, slot := false, Slot(0, 0);
      ghost var F, S, n0 := Fat(), sectors, g.maxCluster;
      ghost var all := FindFreeFrom(g, S, F, g.rootCluster, n0);
      SearchesByCluster(g, S, seq(11, _ => 0));
      var cluster, n := g.rootCluster, 0;
      while n < g.maxCluster && IsValidCluster(g, cluster)
        invariant 0 <= n <= g.maxCluster
        invariant Valid() && sectors == S && (old(ioError) ==> ioError)
        invariant (ioError && cluster == Eoc(g)) || all == FindFreeFrom(g, S, F, cluster, n0 - n)
        decreases g.maxCluster - n
      {
        ClusterOnDisk(g, sectors, cluster);
        var ok, r := FindFreeInRun(ClusterToLba(g, cluster), g.sectorsPerCluster);
        if !ok {
          return;
        }
        if r.Found? {
          return true, r.at;
        }
        cluster := FatReadEntry(cluster);
        n := n + 1;
      }
    }

    method FindFreeDirEntry() returns (found: bool, slot: Slot)
      requires Valid()
      modifies this`ioError, buf
      ensures Valid() && (old(ioError) ==> ioError)
      ensures found ==> FreeSlot(g, sectors) == Found(slot)
      ensures !found && !ioError ==> FreeSlot(g, sectors).Missing?
    {
      if g.fatType.Fat16? {
        RunSearches(sectors, g.rootDirLba, g.rootDirSectors, seq(11, _ => 0));
        var ok, r := FindFreeInRun(g.rootDirLba, g.rootDirSectors);
        found := ok && r.Found?;
        slot := if r.Found? then r.at else Slot(0, 0);
      } else {
        found, slot := FindFreeInChain();
      }
    }

    /** Looks for a file in n consecutive sectors; the buffer keeps the sector it is in. */
    method FindNameInRun(name: Name, lba: nat, n: nat) returns (ok: bool, r: Search<Slot>)
      requires Valid() && lba + n <= |sectors|
      modifies this`ioError, buf
      ensures Valid() && (old(ioError) ==> ioError)
      ensures if ok then r == NameInRun(sectors, lba, n, name) else ioError
      ensures ok && r.Found? ==> r.at.lba < |sectors| && buf[..] == sectors[r.at.lba]
    {
      var s := 0;
      while s < n
        invariant 0 <= s <= n
        invariant Valid() && (old(ioError) ==> ioError)
        invariant NameInRun(sectors, lba, n, name) == NameInRun(sectors, lba + s, n - s, name)
      {
        ok := ReadSector(lba + s);
        if !ok {
          return false, Missing;
        }
        r := LookInBuffer(lba + s, name);
        if !r.Missing? {
          return;
        }
        s := s + 1;
      }
      return true, Missing;
    }

    method FindNameInChain(name: Name) returns (found: bool, slot: Slot)
      requires Valid() && g.fatType.Fat32?
      modifies this`ioError, buf
      ensures Valid() && (old(ioError) ==> ioError)
      ensures found ==> SlotOf(g, sectors, name) == Found(slot) && buf[..] == sectors[slot.lba]
      ensures !found && !ioError ==> !SlotOf(g, sectors, name).Found?
    {
      hide NameInRun, Run, FindName, Links, Times, ChainLbas, SlotOf;
      found, slot := false, Slot(0, 0);
      ghost var F, S, n0 := Fat(), sectors, g.maxCluster;
      ghost var all := FindNameFrom(g, S, F, g.rootCluster, n0, name);
      SearchesByCluster(g, S, name);
      var cluster, n := g.rootCluster, 0;
      while n < g.maxCluster && IsValidCluster(g, cluster)
        invariant 0 <= n <= g.maxCluster
        invariant Valid() && sectors == S && (old(ioError) ==> ioError)
        invariant (ioError && cluster == Eoc(g)) || all == FindNameFrom(g, S, F, cluster, n0 - n, name)
        decreases g.maxCluster - n
      {
        ClusterOnDisk(g, sectors, cluster);
        var ok, r := FindNameInRun(name, ClusterToLba(g, cluster), g.sectorsPerCluster);
        if !ok || r.EndMark? {
          return;
        }
        if r.Found? {
          return true, r.at;
        }
        cluster := FatReadEntry(cluster);
        n := n + 1;
      }
    }

    /** The search of the read and delete operations; the buffer keeps the sector. */
    method FindFileDirEntry(name: Name) returns (found: bool, slot: Slot)
      requires Valid()
      modifies this`ioError, buf
      ensures Valid() && (old(ioError) ==> ioError)
      ensures found ==> SlotOf(g, sectors, name) == Found(slot) && buf[..] == sectors[slot.lba]
      ensures !found && !ioError ==> !SlotOf(g, sectors, name).Found?
    {
      if g.fatType.Fat16? {
        RunSearches(sectors, g.rootDirLba, g.rootDirSectors, name);
        var ok, r := FindNameInRun(name, g.rootDirLba, g.rootDirSectors);
        found := ok && r.Found?;
        slot := if r.Found? then r.at else Slot(0, 0);
      } else {
        found, slot := FindNameInChain(name);
      }
    }

    // ----- files

    /** Takes n free clusters and chains them. Whatever fails, only free clusters are
        touched and no link leads from them to another cluster. */
    method AllocateChain(n: nat) returns (ok: bool, first: nat, ghost touched: set<nat>, ghost cl: seq<nat>)
      requires Valid()
      modifies this`ioError, this`sectors, buf
      ensures Valid() && (old(ioError) ==> ioError)
      ensures AllFree(old(Fat()), touched) && Closed(Fat(), touched)
      ensures FatOnlyFrame(g, old(sectors), sectors, touched)
      ensures first != 0 ==> first in touched
      ensures ok || !ioError ==> ChainStored(g, sectors, cl) && touched == SetOf(cl)
      ensures ok || !ioError ==> first == if cl == [] then 0 else cl[0]
      ensures ok ==> |cl| == n
      ensures !ok && !ioError ==> |cl| < n && NoneFree(Fat(), g.maxCluster)
    {
      hide Links, Raw, ChainStored, Closed, Frame, InAllCopies, AllFree;
      touched, cl, first := {}, [], 0;
      var prev, i := 0, 0;
      EmptyChain(g, sectors);
      while i < n
        invariant 0 <= i <= n && |cl| == i
        invariant Valid() && (old(ioError) ==> ioError)
        invariant FatOnlyFrame(g, old(sectors), sectors, touched)
        invariant AllFree(old(Fat()), touched) && Closed(Fat(), touched)
        invariant AllClusters(g, cl) && ChainStored(g, sectors, cl) && touched == SetOf(cl)
        invariant if cl == [] then first == prev == 0 else first == cl[0] && prev == cl[|cl| - 1]
      {
        ghost var S0 := sectors;
        StoredNoneFree(g, S0, cl);
        var cluster, t := FatAllocCluster();
        ghost var S1 := sectors;
        FatOnlyTransitive(g, old(sectors), S0, S1, touched, t);
        FreeMore(g, old(sectors), S0, touched, t);
        ClosedMore(g, S0, S1, touched, t);
        touched := touched + t;
        if cluster == 0 {
          return false, first, touched, cl;
        }
        if first == 0 {
          first := cluster;
        }
        if prev != 0 {
          ok := FatWriteEntry(prev, cluster);
          FatOnlyTransitive(g, old(sectors), S1, sectors, touched, {prev});
          ClosedAfterLink(g, S1, sectors, touched, prev, cluster);
          assert touched + {prev} == touched;
          if !ok {
            return;
          }
        }
        ChainExtended(g, S0, S1, sectors, cl, cluster);
        cl := cl + [cluster];
        prev := cluster;
        i := i + 1;
      }
      ok := true;
    }

    /** Writes the data from `at` on to one cluster, the last sector padded with zeros. */
    method WriteCluster(c: nat, data: seq<byte>, at: nat) returns (ok: bool, end: nat)
      requires Valid() && IsValidCluster(g, c) && at < |data|
      modifies this`ioError, this`sectors, buf
      ensures Valid() && (old(ioError) ==> ioError)
      ensures DataOnlyFrame(g, old(sectors), sectors, {c})
      ensures !ok ==> ioError
      ensures ok ==> at <= end <= |data| && end - at <= ClusterSize(g) && (end < |data| ==> end - at == ClusterSize(g))
      ensures ok ==> ClusterBytes(g, sectors, c)[..end - at] == data[at..end] && TailZero(g, ClusterBytes(g, sectors, c), end - at)
    {
      hide Times, SectorBytes, InClusters, TailAt, TailZero, DataOnlyFrame;
      ClusterOnDisk(g, sectors, c);
      var lba := ClusterToLba(g, c);
      var s := 0;
      NoSectorYet(g, sectors, lba);
      NoTail(g);
      DataUntouched(g, sectors, {c});
      end := at;
      while s < g.sectorsPerCluster && end < |data|
        invariant 0 <= s <= g.sectorsPerCluster && at <= end <= |data|
        invariant Valid() && (old(ioError) ==> ioError)
        invariant DataOnlyFrame(g, old(sectors), sectors, {c})
        invariant end - at <= Times(s, g.bytesPerSector) && (end < |data| ==> end - at == Times(s, g.bytesPerSector))
        invariant SectorBytes(g, sectors, lba, s)[..end - at] == data[at..end]
        invariant TailAt(g, SectorBytes(g, sectors, lba, s), end - at, s)
      {
        var n := if |data| - end < g.bytesPerSector then |data| - end else g.bytesPerSector;
        FillBuffer(data[end..end + n]);
        SectorInCluster(g, old(sectors), sectors, c, s, buf[..]);
        SectorAppended(g, sectors, c, s, buf[..], data, at, end, n);
        ok := WriteSector(lba + s);
        if !ok {
          return;
        }
        end := end + n;
        s := s + 1;
      }
      SectorBytesPrefix(g, sectors, lba, s, g.sectorsPerCluster);
      TailFound(g, SectorBytes(g, sectors, lba, s), end - at, s);
      TailInMore(g, SectorBytes(g, sectors, lba, s), ClusterBytes(g, sectors, c), end - at);
      ok := true;
    }

    /** Writes the data to the clusters of a chain. It fails only on a failed transfer or a
        chain that is too short. */
    method WriteData(first: nat, data: seq<byte>, ghost cl: seq<nat>) returns (ok: bool)
      requires Valid() && ChainStored(g, sectors, cl)
      requires first == if cl == [] then 0 else cl[0]
      modifies this`ioError, this`sectors, buf
      ensures Valid() && (old(ioError) ==> ioError)
      ensures DataOnlyFrame(g, old(sectors), sectors, SetOf(cl))
      ensures ok ==> data <= Content(g, sectors, cl) && TailZero(g, Content(g, sectors, cl), |data|)
      ensures !ok && !ioError ==> |Content(g, sectors, cl)| < |data|
    {
      hide Times, InClusters, Links, Raw, Content, ClusterBytes, ChainStored, Linked, SetOf, TailZero;
      ghost var F, S := Fat(), sectors;
      StoredIsLinked(g, sectors, cl);
      ghost var i := 0;
      var cluster, at := first, 0;
      NothingYet(g, sectors, cl);
      NoTail(g);
      ClusterSizePositive(g);
      while at < |data| && IsValidCluster(g, cluster)
        invariant at <= |data| && 0 <= i <= |cl|
        invariant Valid() && (old(ioError) ==> ioError)
        invariant DataOnlyFrame(g, S, sectors, SetOf(cl)) && Fat() == F
        invariant cluster == LinkAt(g, cl, i) || (ioError && cluster == Eoc(g))
        invariant at <= |Content(g, sectors, cl[..i])| && Content(g, sectors, cl[..i])[..at] == data[..at]
        invariant at < |data| ==> at == |Content(g, sectors, cl[..i])|
        invariant TailZero(g, Content(g, sectors, cl[..i]), at)
        decreases |data| - at
      {
        ghost var S1 := sectors;
        ValidLink(g, F, cl, i);
        var ok', end := WriteCluster(cluster, data, at);
        DataOnlyTransitive(g, S, S1, sectors, SetOf(cl), {cluster}, SetOf(cl));
        DataFrameIsFrame(g, S, sectors, SetOf(cl));
        if !ok' {
          return false;
        }
        ClusterAppended(g, S1, sectors, cl, i, data, at, end);
        at := end;
        i := i + 1;
        cluster := FatReadEntry(cluster);
      }
      ContentPrefix(g, sectors, cl, i);
      TailInMore(g, Content(g, sectors, cl[..i]), Content(g, sectors, cl), at);
      return at == |data|;
    }

    /** Fills the first free slot of the directory. */
    method AddDirEntry(b: seq<byte>) returns (ok: bool, ghost slot: Slot)
      requires Valid() && |b| == DIR_ENTRY_SIZE
      modifies this`ioError, this`sectors, buf
      ensures Valid() && (old(ioError) ==> ioError)
      ensures if ok then SlotFilled(g, old(sectors), sectors, slot, b)
              else sectors == old(sectors) || (ioError && SlotFilled(g, old(sectors), sectors, slot, b))
      ensures !ok && !ioError ==> FreeSlot(g, sectors).Missing?
    {
      hide Times, Links;
      var at;
      ok, at := FindFreeDirEntry();
      slot := at;
      if ok {
        ok := ReadSector(at.lba);
        if ok {
          Store(at.offset, b);
          ok := WriteSector(at.lba);
        }
      }
    }

    /** Everything a write does before it reports success or undoes its allocations. */
    method TryWrite(name: Name, data: seq<byte>) returns (ok: bool, first: nat, ghost touched: set<nat>, ghost cl: seq<nat>, ghost slot: Slot)
      requires Valid() && 0 < |data| < 0x1_0000_0000 && RootInUse(g, Fat())
      modifies this`ioError, this`sectors, buf
      ensures Valid() && (old(ioError) ==> ioError)
      ensures AllFree(old(Fat()), touched) && ClusterSize(g) > 0
      ensures ok ==> touched == SetOf(cl) && Written(g, old(sectors), sectors, name, data, cl, slot)
      ensures !ok ==> Closed(Fat(), touched) && (first != 0 ==> first in touched)
      ensures !ok && !ioError ==> touched == SetOf(cl) && ChainStored(g, sectors, cl) && first == LinkAt(g, cl, 0)
      ensures !ok ==> exists b :: |b| == DIR_ENTRY_SIZE && OnlyFreeTouched(g, old(sectors), sectors, touched, slot, b)
      ensures !ok && !ioError ==> Frame(g, old(sectors), sectors, touched)
      ensures !ioError ==> (ok <==>
        SizeFits(g, |data|) && NumClusters(g, |data|) <= |FreeSet(old(Fat()))| && FreeSlot(g, old(sectors)).Found?)
    {
      hide Times, Links, Raw, ChainStored, Closed, Frame, AllFree, RootInUse, FreeSlot, Content, Written, InClusters, ApartFromDir, SlotFrame, FreeSet, NoneFree, DataOnlyFrame, SlotFilled, WellFormed, AllClusters, DirEntry, TailZero;
      ghost var S0, F0 := sectors, Fat();
      slot := Slot(0, 0);
      ClusterSizePositive(g);
      NumClustersCovers(g, |data|);
      ok, first, touched, cl := AllocateChain(NumClusters(g, |data|));
      ghost var S1 := sectors;
      FreeApart(g, F0, touched);
      if !ok {
        NotYetInSlot(g, S0, S1, touched, slot);
        if !ioError {
          ChainTookFreeSpace(g, S0, S1, cl);
        }
        return;
      }
      ok := WriteData(first, data, cl);
      ghost var S2 := sectors;
      DataStep(g, S0, S1, S2, cl);
      if !ok {
        NotYetInSlot(g, S0, S2, touched, slot);
        return;
      }
      FirstOfChain(g, S2, cl, |data|);
      ok, slot := AddDirEntry(DirEntry(name, first, |data|));
      if ok {
        WriteSteps(g, S0, S2, sectors, name, data, cl, slot);
      } else if sectors == S2 {
        NotYetInSlot(g, S0, S2, touched, slot);
      } else {
        SlotStep(g, S0, S2, sectors, touched, slot, DirEntry(name, first, |data|));
      }
    }

    /** Creates a file. Whatever transfers fail, nothing changes but free clusters, their
        FAT entries and one free slot; if it reports success the file is on the volume; if
        nothing failed, it succeeds exactly when there is room, and otherwise it leaves
        the FAT as it was and the directory untouched. */
    method WriteFile(name: Name, data: seq<byte>) returns (ok: bool, ghost touched: set<nat>, ghost cl: seq<nat>, ghost slot: Slot)
      requires Valid() && |data| < 0x1_0000_0000 && RootInUse(g, Fat())
      modifies this`ioError, this`sectors, buf
      ensures Valid() && (old(ioError) ==> ioError) && RootInUse(g, Fat())
      ensures AllFree(old(Fat()), touched) && ClusterSize(g) > 0
      ensures ok ==> touched == SetOf(cl) && Written(g, old(sectors), sectors, name, data, cl, slot)
      ensures ok ==> RawEntry(sectors[slot.lba], slot.offset, name, cl[0], |data|)
      ensures !ok ==> exists b: seq<byte> :: |b| == DIR_ENTRY_SIZE && OnlyFreeTouched(g, old(sectors), sectors, touched, slot, b)
      ensures !ok && !ioError ==> Frame(g, old(sectors), sectors, touched)
      ensures !ok && !ioError && FreeMirrored(g, old(sectors), touched) ==> SameFat(g, old(sectors), sectors)
      ensures !ioError ==> (ok <==>
        0 < |data| && SizeFits(g, |data|) && NumClusters(g, |data|) <= |FreeSet(old(Fat()))| && FreeSlot(g, old(sectors)).Found?)
    {
      hide Times, Links, Raw, ChainStored, Closed, Frame, AllFree, RootInUse, FreeSlot, Content, Written, InClusters, ApartFromDir, FreeSet, WellFormed, FreeMirrored, OnlyFreeTouched, InAllCopies, RawEntry;
      ClusterSizePositive(g);
      ghost var S0, F0 := sectors, Fat();
      if |data| == 0 {
        NothingTouched(g, S0);
        return false, {}, [], Slot(0, 0);
      }
      var first;
      ok, first, touched, cl, slot := TryWrite(name, data);
      if ok {
        RootAfterWrite(g, S0, sectors, name, data, cl, slot);
        WrittenEntry(g, S0, sectors, name, data, cl, slot);
        return;
      }
      ghost var S3, F3 := sectors, Fat();
      ghost var freed := {};
      if first != 0 {
        freed := FatFreeChain(first);
        FreedInside(F3, first, touched, freed);
      } else {
        EmptyChain(g, S3);
      }
      ghost var b :| |b| == DIR_ENTRY_SIZE && OnlyFreeTouched(g, S0, S3, touched, slot, b);
      FreeApart(g, F0, touched);
      UndoStep(g, S0, S3, sectors, touched, freed, slot, b);
      RootAfterTouch(g, S0, sectors, touched, slot, b);
      if !ioError {
        FrameTransitive(g, S0, S3, sectors, touched, freed);
        assert touched + freed == touched;
        ChainFreed(g, S3, cl, freed);
        if FreeMirrored(g, S0, touched) {
          FreedIsUntouched(g, S0, sectors, touched);
        }
      }
    }

    /** Reads one cluster into dst[at..], up to dst[limit]. */
    method ReadCluster(c: nat, dst: array<byte>, at: nat, limit: nat) returns (ok: bool, end: nat)
      requires Valid() && IsValidCluster(g, c) && at < limit <= dst.Length && dst != buf
      modifies this`ioError, buf, dst
      ensures Valid() && (old(ioError) ==> ioError)
      ensures !ok ==> ioError
      ensures ok ==> at <= end <= limit && end - at <= ClusterSize(g) && (end < limit ==> end - at == ClusterSize(g))
      ensures ok ==> dst[..] == Splice(old(dst[..]), at, ClusterBytes(g, sectors, c)[..end - at])
    {
      hide Times, SectorBytes, InClusters, Splice;
      ClusterOnDisk(g, sectors, c);
      var lba := ClusterToLba(g, c);
      var s := 0;
      end := at;
      ghost var d := dst[..];
      NoSectorYet(g, sectors, lba);
      assert dst[..] == Splice(d, at, []) by {
        SpliceNothing(d, at);
      }
      while s < g.sectorsPerCluster && end < limit
        invariant 0 <= s <= g.sectorsPerCluster && at <= end <= limit
        invariant Valid() && (old(ioError) ==> ioError)
        invariant end - at <= Times(s, g.bytesPerSector) && (end < limit ==> end - at == Times(s, g.bytesPerSector))
        invariant dst[..] == Splice(d, at, SectorBytes(g, sectors, lba, s)[..end - at])
      {
        ok := ReadSector(lba + s);
        if !ok {
          return;
        }
        var n := if limit - end < g.bytesPerSector then limit - end else g.bytesPerSector;
        CopyOut(dst, end, n);
        SectorRead(g, sectors, lba, s, d, at, end, n);
        end := end + n;
        s := s + 1;
      }
      SectorBytesPrefix(g, sectors, lba, s, g.sectorsPerCluster);
      ok := true;
    }

    /** Reads `limit` bytes of a chain, or as many as it has. A FAT entry that cannot be
        read ends the chain without an error. */
    method ReadChain(first: nat, dst: array<byte>, limit: nat) returns (ok: bool)
      requires Valid() && dst != buf && limit <= dst.Length
      modifies this`ioError, buf, dst
      ensures Valid() && (old(ioError) ==> ioError) && (!ok ==> ioError)
      ensures !ioError ==> dst[..] == Splice(old(dst[..]), 0, FileBytes(g, sectors, first, limit))
    {
      hide Times, Links, Splice, Content, ClusterBytes, ChainFor, FileBytes;
      ghost var F, d, cl := Fat(), dst[..], [];
      var cluster, at := first, 0;
      ClusterSizePositive(g);
      NothingRead(g, sectors, d);
      while at < limit && IsValidCluster(g, cluster)
        invariant at <= limit && |dst[..]| == |d|
        invariant Valid() && (old(ioError) ==> ioError)
        invariant AllClusters(g, cl) && at <= |Content(g, sectors, cl)| && (at < limit ==> at == |Content(g, sectors, cl)|)
        invariant cl + ChainFor(g, F, cluster, limit - at) == ChainFor(g, F, first, limit) || (ioError && cluster == Eoc(g))
        invariant dst[..] == Splice(d, 0, Content(g, sectors, cl)[..at])
        decreases limit - at
      {
        ghost var c := cluster;
        ChainForStep(g, F, c, limit - at);
        var end;
        ok, end := ReadCluster(cluster, dst, at, limit);
        if !ok {
          return;
        }
        ClusterRead(g, sectors, d, cl, c, at, end);
        cl := cl + [c];
        cluster := FatReadEntry(cluster);
        at := end;
      }
      ok := true;
      ChainForEnd(g, F, cluster, limit - at);
      if !ioError {
        ChainRead(g, sectors, first, limit, cl, at);
      }
    }

    /** Reads a file into dst, as much as fits. Without a failed transfer the buffer gets
        exactly the bytes of the file. */
    method ReadFile(name: Name, dst: array<byte>) returns (ok: bool, size: nat)
      requires Valid() && dst != buf
      modifies this`ioError, buf, dst
      ensures Valid() && (old(ioError) ==> ioError)
      ensures ok ==> SlotOf(g, sectors, name).Found?
      ensures !ioError && SlotOf(g, sectors, name).Found? ==> size == SizeOf(g, sectors, name) && (ok <==> size == 0 || dst.Length > 0)
      ensures !ioError && ok ==> dst[..] == Splice(old(dst[..]), 0, FirstBytes(g, sectors, name, dst.Length))
    {
      hide Times, Links, FileBytes, FirstClusterAt, FileSizeAt, SlotOf, Splice;
      size := 0;
      var slot;
      ok, slot := FindFileDirEntry(name);
      if !ok {
        return;
      }
      size := FileSizeAt(buf[..], slot.offset);
      var first := FirstClusterAt(buf[..], slot.offset);
      if size == 0 {
        NoBytes(g, sectors, first, dst[..]);
        return;
      }
      if dst.Length == 0 {
        return false, size;
      }
      ok := ReadChain(first, dst, if size > dst.Length then dst.Length else size);
    }

    /** Deletes a file: marks its slot and frees its chain. */
    method DeleteFile(name: Name) returns (ok: bool, ghost freed: set<nat>, ghost slot: Slot)
      requires Valid()
      modifies this`ioError, this`sectors, buf
      ensures Valid() && (old(ioError) ==> ioError)
      ensures !ioError ==> (ok <==> SlotOf(g, old(sectors), name).Found?)
      ensures !ioError && ok ==> Deleted(g, old(sectors), sectors, name, freed, slot)
      ensures ok ==> SlotOf(g, old(sectors), name) == Found(slot)
      ensures ok ==> SlotFrame(g, old(sectors), sectors, freed, slot, DeletedEntry(old(sectors)[slot.lba], slot.offset))
      ensures ok ==> sectors[slot.lba] == old(sectors)[slot.lba][slot.offset := 0xE5]
      ensures !ok && sectors != old(sectors) ==> ioError
      ensures !ok && sectors != old(sectors) ==> SlotOf(g, old(sectors), name) == Found(slot)
      ensures !ok && sectors != old(sectors) ==>
        SlotFrame(g, old(sectors), sectors, {}, slot, DeletedEntry(old(sectors)[slot.lba], slot.offset))
    {
      hide Times, Links, Raw, FirstClusterAt, SlotOf, Frame, SlotFrame, Reachable, WellFormed;
      ghost var S0 := sectors;
      var at;
      freed := {};
      ok, at := FindFileDirEntry(name);
      slot := at;
      if !ok {
        return;
      }
      var first := FirstClusterAt(buf[..], at.offset);
      DeletedBytes(buf[..], at.offset);
      Store(at.offset, [0xE5]);
      DeleteStep(g, S0, name, at);
      ok := WriteSector(at.lba);
      ghost var S1 := sectors;
      if !ok {
        return;
      }
      if first != 0 {
        freed := FatFreeChain(first);
      } else {
        NothingFreed(g, S1);
      }
      FreeStep(g, S0, S1, sectors, name, at, freed);
      DeletedSector(g, S0, sectors, freed, at);
      if !ioError {
        DeleteDone(g, S0, S1, sectors, name, at, freed, first);
      }
    }
  }

  /** Writing a file and reading it back, on a volume without transfer errors: the buffer
      gets the data, whatever the sizes of clusters and sectors, wherever there was room,
      unless an older file of the same name comes before the first free slot; then it gets
      what that file held. */
  method WriteThenRead(v: Volume, name: Name, data: seq<byte>, dst: array<byte>) returns (written: bool, ok: bool, size: nat)
    requires v.Valid() && |data| < 0x1_0000_0000 && RootInUse(v.g, v.Fat())
    requires IsFileName(name) && dst != v.buf && |data| <= dst.Length
    modifies v`ioError, v`sectors, v.buf, dst
    ensures v.Valid() && RootInUse(v.g, v.Fat())
    ensures written && !v.ioError && old(NewComesFirst(v.g, v.sectors, name)) ==>
      ok && size == |data| && dst[..size] == data && dst[size..] == old(dst[size..])
    ensures written && !v.ioError && old(!NewComesFirst(v.g, v.sectors, name) && SoundFile(v.g, v.sectors, name)) ==>
      ok && size == old(SizeOf(v.g, v.sectors, name)) && dst[..] == Splice(old(dst[..]), 0, old(FirstBytes(v.g, v.sectors, name, dst.Length)))
  {
    hide Times, Links, Raw, RootInUse, SlotOf, Written, SizeOf, FirstBytes, AllFree, Frame, WellFormed, FreeSlot, NewComesFirst, SoundFile;
    ok, size := false, 0;
    ghost var touched, cl, slot;
    ghost var S, d := v.sectors, dst[..];
    written, touched, cl, slot := v.WriteFile(name, data);
    if written {
      SomeData(v.g, S, v.sectors, name, data, cl, slot);
      if NewComesFirst(v.g, S, name) {
        ReadsBack(v.g, S, v.sectors, name, data, cl, slot, dst.Length);
      } else if SoundFile(v.g, S, name) {
        OlderReadsBack(v.g, S, v.sectors, name, data, cl, slot, dst.Length);
        SoundIsFound(v.g, S, name);
      }
      ok, size := v.ReadFile(name, dst);
      assert ok && !v.ioError && NewComesFirst(v.g, S, name) ==> dst[..] == Splice(d, 0, data);
    }
  }

  lemma SomeData(g: Geometry, S: Sectors, S': Sectors, name: Name, data: seq<byte>, cl: seq<nat>, slot: Slot)
    requires Written(g, S, S', name, data, cl, slot)
    ensures |data| > 0
  {
    hide Times, Links, Raw, AllFree, SlotFrame, ChainStored;
  }

  lemma SoundIsFound(g: Geometry, S: Sectors, name: Name)
    requires Formatted(g, S) && SoundFile(g, S, name)
    ensures SlotOf(g, S, name).Found?
  {
    hide SlotOf, SoundChain;
  }
}
