/** What a change of the volume leaves alone. */
module FatFrame {
  import opened FatGeometry
  import opened FatTable
  import opened FatChain
  import opened FatDirectory
  import opened FatFile

  predicate IsFatSector(g: Geometry, lba: int) {
    g.fatStartLba <= lba < g.rootDirLba
  }

  /** S' differs from S at most in the FAT entries of the clusters C, whose reserved bits
      stay, and in the sectors of the clusters C. */
  ghost predicate Frame(g: Geometry, S: Sectors, S': Sectors, C: set<nat>) {
    && Formatted(g, S) && Formatted(g, S') && |S'| == |S|
    && (forall i :: 0 <= i < |S| && !IsFatSector(g, i) && !InClusters(g, C, i) ==> S'[i] == S[i])
    && (forall k, e {:trigger Raw(g, S', k, e)} :: 0 <= k < g.numFats && 0 <= e < g.maxCluster ==>
          && Reserved(g, Raw(g, S', k, e)) == Reserved(g, Raw(g, S, k, e))
          && (e !in C ==> Raw(g, S', k, e) == Raw(g, S, k, e)))
  }

  /** The same, and no sector outside the FAT has changed. */
  ghost predicate FatOnlyFrame(g: Geometry, S: Sectors, S': Sectors, C: set<nat>) {
    Frame(g, S, S', C) && forall i :: 0 <= i < |S| && !IsFatSector(g, i) ==> S'[i] == S[i]
  }

  /** The same, and no sector of the FAT has changed. */
  ghost predicate DataOnlyFrame(g: Geometry, S: Sectors, S': Sectors, C: set<nat>) {
    && Formatted(g, S) && Formatted(g, S') && |S'| == |S|
    && forall i :: 0 <= i < |S| && !InClusters(g, C, i) ==> S'[i] == S[i]
  }

  lemma FrameTransitive(g: Geometry, S0: Sectors, S1: Sectors, S2: Sectors, C: set<nat>, D: set<nat>)
    requires Frame(g, S0, S1, C) && Frame(g, S1, S2, D)
    ensures Frame(g, S0, S2, C + D)
  {
    forall k, e | 0 <= k < g.numFats && 0 <= e < g.maxCluster
      ensures Reserved(g, Raw(g, S2, k, e)) == Reserved(g, Raw(g, S0, k, e))
      ensures e !in C + D ==> Raw(g, S2, k, e) == Raw(g, S0, k, e)
    {
      assert Reserved(g, Raw(g, S1, k, e)) == Reserved(g, Raw(g, S0, k, e));
    }
    forall i | 0 <= i < |S0| && !IsFatSector(g, i) && !InClusters(g, C + D, i)
      ensures S2[i] == S0[i]
    {
      InMoreClusters(g, C, C + D, i);
      InMoreClusters(g, D, C + D, i);
    }
  }

  lemma FatOnlyTransitive(g: Geometry, S0: Sectors, S1: Sectors, S2: Sectors, C: set<nat>, D: set<nat>)
    requires FatOnlyFrame(g, S0, S1, C) && FatOnlyFrame(g, S1, S2, D)
    ensures FatOnlyFrame(g, S0, S2, C + D)
  {
    FrameTransitive(g, S0, S1, S2, C, D);
  }

  lemma InMoreClusters(g: Geometry, C: set<nat>, D: set<nat>, i: int)
    requires C <= D && !InClusters(g, D, i)
    ensures !InClusters(g, C, i)
  {
  }

  lemma RawSame(g: Geometry, S: Sectors, S': Sectors, k: nat, e: nat)
    requires Formatted(g, S) && Formatted(g, S') && |S'| == |S| && k < g.numFats && e < g.maxCluster
    requires forall i :: 0 <= i < |S| && IsFatSector(g, i) ==> S'[i] == S[i]
    ensures Raw(g, S', k, e) == Raw(g, S, k, e)
  {
    FatSectorExists(g, S, k, e);
    EntryLbaInFat(g, k, e);
  }

  lemma LinksSame(g: Geometry, S: Sectors, S': Sectors)
    requires Formatted(g, S) && Formatted(g, S') && |S'| == |S|
    requires forall i :: 0 <= i < |S| && IsFatSector(g, i) ==> S'[i] == S[i]
    ensures Links(g, S') == Links(g, S)
  {
    forall e | 0 <= e < g.maxCluster
      ensures Links(g, S')[e] == Links(g, S)[e]
    {
      NumFatsPositive(g);
      RawSame(g, S, S', 0, e);
    }
  }

  lemma NumFatsPositive(g: Geometry)
    requires WellFormed(g)
    ensures g.numFats > 0
  {
  }

  lemma DataFrameIsFrame(g: Geometry, S: Sectors, S': Sectors, C: set<nat>)
    requires DataOnlyFrame(g, S, S', C)
    ensures Frame(g, S, S', C) && Links(g, S') == Links(g, S)
  {
    forall i | 0 <= i < |S| && IsFatSector(g, i)
      ensures S'[i] == S[i]
    {
      FatNotInClusters(g, C, i);
    }
    LinksSame(g, S, S');
    forall k, e | 0 <= k < g.numFats && 0 <= e < g.maxCluster
      ensures Raw(g, S', k, e) == Raw(g, S, k, e)
    {
      RawSame(g, S, S', k, e);
    }
  }

  lemma FatNotInClusters(g: Geometry, C: set<nat>, i: int)
    requires WellFormed(g) && i < g.dataStartLba
    ensures !InClusters(g, C, i)
  {
  }

  // ----- the directory

  /** The clusters of the root directory (FAT32) are in use. */
  ghost predicate RootInUse(g: Geometry, F: seq<nat>)
    requires |F| == g.maxCluster
  {
    g.fatType.Fat32? ==> forall c: nat :: Reachable(F, g.rootCluster, c) ==> F[c] != 0
  }

  /** None of these clusters belongs to the root directory. */
  ghost predicate ApartFromDir(g: Geometry, F: seq<nat>, C: set<nat>)
    requires |F| == g.maxCluster
  {
    g.fatType.Fat32? ==> forall d: nat :: d in C ==> !Reachable(F, g.rootCluster, d)
  }

  lemma FreeApart(g: Geometry, F: seq<nat>, C: set<nat>)
    requires |F| == g.maxCluster && RootInUse(g, F) && AllFree(F, C)
    ensures ApartFromDir(g, F, C)
  {
  }

  /** The sectors of a chain of directory clusters are data sectors of other clusters
      than C. */
  lemma {:induction false} ChainOutside(g: Geometry, F: seq<nat>, C: set<nat>, c: nat, n: nat)
    requires WellFormed(g) && |F| == g.maxCluster
    requires IsValidCluster(g, c) ==> Reachable(F, g.rootCluster, c)
    requires forall d :: d in C ==> !Reachable(F, g.rootCluster, d)
    ensures forall i :: i in ChainLbas(g, F, c, n) ==> g.dataStartLba <= i && !InClusters(g, C, i)
    decreases n
  {
    if n > 0 && IsValidCluster(g, c) {
      if IsValidCluster(g, F[c]) {
        ReachesNext(F, g.rootCluster, c);
      }
      ChainOutside(g, F, C, F[c], n - 1);
      forall i | i in Run(ClusterToLba(g, c), g.sectorsPerCluster)
        ensures g.dataStartLba <= i && !InClusters(g, C, i)
      {
        NotInClusters(g, C, c, i - ClusterToLba(g, c));
      }
    }
  }

  /** The directory has no sector in the FAT or in a cluster apart from it. */
  lemma {:induction false} DirOutside(g: Geometry, F: seq<nat>, C: set<nat>)
    requires WellFormed(g) && |F| == g.maxCluster && ApartFromDir(g, F, C)
    ensures forall i :: i in DirLbas(g, F) ==> !IsFatSector(g, i) && !InClusters(g, C, i)
  {
    hide Times;
    if g.fatType.Fat32? {
      if IsLink(F, g.rootCluster) {
        ReachesItself(F, g.rootCluster);
      }
      ChainOutside(g, F, C, g.rootCluster, g.maxCluster);
    } else {
      forall i | i in DirLbas(g, F)
        ensures !InClusters(g, C, i)
      {
        FatNotInClusters(g, C, i);
      }
    }
  }

  lemma {:induction false} ChainLbasSame(g: Geometry, F: seq<nat>, F': seq<nat>, c: nat, n: nat)
    requires WellFormed(g) && |F| == |F'| == g.maxCluster
    requires IsValidCluster(g, c) ==> Reachable(F, g.rootCluster, c)
    requires forall d: nat :: Reachable(F, g.rootCluster, d) ==> F'[d] == F[d]
    ensures ChainLbas(g, F', c, n) == ChainLbas(g, F, c, n)
    decreases n
  {
    if n > 0 && IsValidCluster(g, c) {
      if IsValidCluster(g, F[c]) {
        ReachesNext(F, g.rootCluster, c);
      }
      ChainLbasSame(g, F, F', F[c], n - 1);
    }
  }

  lemma LinkSame(g: Geometry, S: Sectors, S': Sectors, C: set<nat>, e: nat)
    requires Frame(g, S, S', C) && e < g.maxCluster && e !in C
    ensures Links(g, S')[e] == Links(g, S)[e]
  {
    NumFatsPositive(g);
    assert Raw(g, S', 0, e) == Raw(g, S, 0, e);
  }

  /** The directory stays what it is when only clusters apart from it are touched. */
  lemma {:induction false} DirSame(g: Geometry, S: Sectors, S': Sectors, C: set<nat>)
    requires Frame(g, S, S', C) && ApartFromDir(g, Links(g, S), C)
    ensures DirLbas(g, Links(g, S')) == DirLbas(g, Links(g, S))
    ensures OnDisk(S, DirLbas(g, Links(g, S)))
    ensures forall i :: i in DirLbas(g, Links(g, S)) ==> S'[i] == S[i]
  {
    var F, F' := Links(g, S), Links(g, S');
    DirOnDisk(g, S);
    DirOutside(g, F, C);
    if g.fatType.Fat32? {
      forall d: nat | Reachable(F, g.rootCluster, d)
        ensures F'[d] == F[d]
      {
        LinkSame(g, S, S', C, d);
      }
      if IsLink(F, g.rootCluster) {
        ReachesItself(F, g.rootCluster);
      }
      ChainLbasSame(g, F, F', g.rootCluster, g.maxCluster);
    }
  }

  lemma {:induction false} FindFreeSame(S: Sectors, S': Sectors, lbas: seq<nat>)
    requires OnDisk(S, lbas) && |S'| == |S| && forall i :: i in lbas ==> S'[i] == S[i]
    ensures FindFree(S', lbas) == FindFree(S, lbas)
  {
    if lbas != [] {
      assert forall i :: i in lbas[1..] ==> i in lbas;
      FindFreeSame(S, S', lbas[1..]);
    }
  }

  lemma {:induction false} FindNameSame(S: Sectors, S': Sectors, lbas: seq<nat>, name: Name)
    requires OnDisk(S, lbas) && |S'| == |S| && forall i :: i in lbas ==> S'[i] == S[i]
    ensures FindName(S', lbas, name) == FindName(S, lbas, name)
  {
    if lbas != [] {
      assert forall i :: i in lbas[1..] ==> i in lbas;
      FindNameSame(S, S', lbas[1..], name);
    }
  }

  /** So do the free slot and the files that a search finds. */
  lemma SearchesSame(g: Geometry, S: Sectors, S': Sectors, C: set<nat>, name: Name)
    requires Frame(g, S, S', C) && ApartFromDir(g, Links(g, S), C)
    ensures FreeSlot(g, S') == FreeSlot(g, S)
    ensures SlotOf(g, S', name) == SlotOf(g, S, name)
  {
    hide FindFree, FindName, DirLbas, ApartFromDir;
    DirSame(g, S, S', C);
    FindFreeSame(S, S', DirLbas(g, Links(g, S)));
    FindNameSame(S, S', DirLbas(g, Links(g, S)), name);
  }

  // ----- writing data

  lemma DataUntouched(g: Geometry, S: Sectors, C: set<nat>)
    requires Formatted(g, S)
    ensures DataOnlyFrame(g, S, S, C)
  {
  }

  /** A sector of a cluster may be replaced within the frame of that cluster. */
  lemma SectorInCluster(g: Geometry, S0: Sectors, S: Sectors, c: nat, s: nat, sec: Sector)
    requires DataOnlyFrame(g, S0, S, {c}) && IsValidCluster(g, c) && s < g.sectorsPerCluster && |sec| == g.bytesPerSector
    ensures ClusterToLba(g, c) + s < |S| && DataOnlyFrame(g, S0, S[ClusterToLba(g, c) + s := sec], {c})
  {
    hide Times;
    ClusterOnDisk(g, S, c);
    assert InClusters(g, {c}, ClusterToLba(g, c) + s);
  }

  lemma NoSectorYet(g: Geometry, S: Sectors, lba: nat)
    requires Formatted(g, S) && lba <= |S|
    ensures Times(0, g.bytesPerSector) == 0 && SectorBytes(g, S, lba, 0) == []
  {
  }

  /** One more sector of a cluster holds one more piece of the data. */
  lemma SectorAppended(g: Geometry, S: Sectors, c: nat, s: nat, sec: Sector, data: seq<byte>, at: nat, end: nat, n: nat)
    requires Formatted(g, S) && IsValidCluster(g, c) && s < g.sectorsPerCluster && |sec| == g.bytesPerSector
    requires at <= end < end + n <= |data| && n <= |sec| && sec[..n] == data[end..end + n] && forall j :: n <= j < |sec| ==> sec[j] == 0
    requires end - at == Times(s, g.bytesPerSector)
    requires ClusterToLba(g, c) + s < |S| && SectorBytes(g, S, ClusterToLba(g, c), s)[..end - at] == data[at..end]
    ensures var S' := S[ClusterToLba(g, c) + s := sec];
      && Formatted(g, S') && ClusterToLba(g, c) + s + 1 <= |S'|
      && end + n - at <= Times(s + 1, g.bytesPerSector) && (n == g.bytesPerSector ==> end + n - at == Times(s + 1, g.bytesPerSector))
      && SectorBytes(g, S', ClusterToLba(g, c), s + 1)[..end + n - at] == data[at..end + n]
      && TailAt(g, SectorBytes(g, S', ClusterToLba(g, c), s + 1), end + n - at, s + 1)
  {
    var lba := ClusterToLba(g, c);
    var S' := S[lba + s := sec];
    SectorBytesSame(g, S, S', lba, s);
    assert SectorBytes(g, S', lba, s + 1) == SectorBytes(g, S, lba, s) + sec;
    assert data[at..end + n] == data[at..end] + data[end..end + n];
  }

  lemma DataOnlyTransitive(g: Geometry, S0: Sectors, S1: Sectors, S2: Sectors, C: set<nat>, D: set<nat>, E: set<nat>)
    requires DataOnlyFrame(g, S0, S1, C) && DataOnlyFrame(g, S1, S2, D) && C <= E && D <= E
    ensures DataOnlyFrame(g, S0, S2, E)
  {
    hide Times;
    forall i | 0 <= i < |S0| && !InClusters(g, E, i)
      ensures S2[i] == S0[i]
    {
      InMoreClusters(g, C, E, i);
      InMoreClusters(g, D, E, i);
    }
  }

  /** One more cluster of a chain holds one more piece of the data. */
  lemma ClusterAppended(g: Geometry, S: Sectors, S': Sectors, cl: seq<nat>, i: nat, data: seq<byte>, at: nat, end: nat)
    requires i < |cl| && AllClusters(g, cl) && (forall i, j :: 0 <= i < j < |cl| ==> cl[i] != cl[j])
    requires DataOnlyFrame(g, S, S', {cl[i]})
    requires at <= end <= |data| && at == |Content(g, S, cl[..i])| && Content(g, S, cl[..i]) == data[..at]
    requires end - at <= ClusterSize(g) && ClusterBytes(g, S', cl[i])[..end - at] == data[at..end]
    requires TailZero(g, ClusterBytes(g, S', cl[i]), end - at)
    ensures end <= |Content(g, S', cl[..i + 1])| == at + ClusterSize(g)
    ensures Content(g, S', cl[..i + 1])[..end] == data[..end] && TailZero(g, Content(g, S', cl[..i + 1]), end)
  {
    hide Times, InClusters, ClusterBytes, ClusterSize, TailZero;
    ContentSame(g, S, S', {cl[i]}, cl[..i]);
    assert cl[..i + 1][..i] == cl[..i];
    assert Content(g, S', cl[..i + 1]) == Content(g, S, cl[..i]) + ClusterBytes(g, S', cl[i]);
    assert data[..end] == data[..at] + data[at..end];
    ContentLength(g, S, cl[..i]);
    TailBehind(g, i, Content(g, S, cl[..i]), ClusterBytes(g, S', cl[i]), end - at);
  }

  // ----- reading data

  /** One more sector has been copied to a buffer. */
  lemma SectorRead(g: Geometry, S: Sectors, lba: nat, s: nat, d: seq<byte>, at: nat, end: nat, n: nat)
    requires Formatted(g, S) && lba + s < |S| && n <= g.bytesPerSector
    requires at <= end && end + n <= |d| && end - at == Times(s, g.bytesPerSector)
    ensures end + n - at <= Times(s + 1, g.bytesPerSector) && (n == g.bytesPerSector ==> end + n - at == Times(s + 1, g.bytesPerSector))
    ensures Splice(Splice(d, at, SectorBytes(g, S, lba, s)[..end - at]), end, S[lba + s][..n])
         == Splice(d, at, SectorBytes(g, S, lba, s + 1)[..end + n - at])
  {
    assert SectorBytes(g, S, lba, s + 1) == SectorBytes(g, S, lba, s) + S[lba + s];
  }
}
