/** What a file on the volume is: the first `size` bytes of the clusters of its chain. */
module FatFile {
  import opened FatGeometry
  import opened FatTable
  import opened FatChain
  import opened FatDirectory

  // ----- bytes of clusters

  ghost function SectorBytes(g: Geometry, S: Sectors, lba: nat, n: nat): (b: seq<byte>)
    requires Formatted(g, S) && lba + n <= |S|
    ensures |b| == Times(n, g.bytesPerSector)
  {
    if n == 0 then [] else
      SectorBytes(g, S, lba, n - 1) + S[lba + n - 1]
  }

  ghost predicate AllClusters(g: Geometry, cl: seq<nat>) {
    forall i :: 0 <= i < |cl| ==> IsValidCluster(g, cl[i])
  }

  ghost function ClusterBytes(g: Geometry, S: Sectors, c: nat): (b: seq<byte>)
    requires Formatted(g, S) && IsValidCluster(g, c)
    ensures |b| == ClusterSize(g)
  {
    ClusterOnDisk(g, S, c);
    SectorBytes(g, S, ClusterToLba(g, c), g.sectorsPerCluster)
  }

  lemma ClusterOnDisk(g: Geometry, S: Sectors, c: nat)
    requires Formatted(g, S) && IsValidCluster(g, c)
    ensures g.dataStartLba <= ClusterToLba(g, c)
    ensures ClusterToLba(g, c) + g.sectorsPerCluster <= VolumeSectors(g) <= |S|
  {
    ClusterPlace(g, c, g.sectorsPerCluster - 1);
  }

  /** The clusters of a chain one after the other. */
  ghost function Content(g: Geometry, S: Sectors, cl: seq<nat>): (b: seq<byte>)
    requires Formatted(g, S) && AllClusters(g, cl)
  {
    if cl == [] then [] else Content(g, S, cl[..|cl| - 1]) + ClusterBytes(g, S, cl[|cl| - 1])
  }

  /** After the first n bytes the rest of their last sector, the q-th, is zero. */
  ghost predicate TailAt(g: Geometry, b: seq<byte>, n: nat, q: nat) {
    && n <= Times(q, g.bytesPerSector) < n + g.bytesPerSector && Times(q, g.bytesPerSector) <= |b|
    && forall j :: n <= j < Times(q, g.bytesPerSector) ==> b[j] == 0
  }

  ghost predicate TailZero(g: Geometry, b: seq<byte>, n: nat) {
    exists q: nat :: TailAt(g, b, n, q)
  }

  lemma NoTail(g: Geometry)
    requires g.bytesPerSector > 0
    ensures TailAt(g, [], 0, 0) && TailZero(g, [], 0)
  {
    assert TailAt(g, [], 0, 0);
  }

  lemma {:induction false} TimesAdds(a: nat, b: nat, n: nat)
    ensures Times(a + b, n) == Times(a, n) + Times(b, n)
  {
    if a > 0 {
      TimesAdds(a - 1, b, n);
    }
  }

  lemma {:induction false} TimesNests(a: nat, b: nat, n: nat)
    ensures Times(a, Times(b, n)) == Times(Times(a, b), n)
  {
    if a > 0 {
      TimesNests(a - 1, b, n);
      TimesAdds(b, Times(a - 1, b), n);
    }
  }

  /** Whole clusters in front of it do not change the end of the data. */
  lemma TailBehind(g: Geometry, m: nat, a: seq<byte>, b: seq<byte>, n: nat)
    requires |a| == Times(m, ClusterSize(g)) && TailZero(g, b, n)
    ensures TailZero(g, a + b, |a| + n)
  {
    hide Times;
    var q: nat :| TailAt(g, b, n, q);
    TimesNests(m, g.sectorsPerCluster, g.bytesPerSector);
    TimesAdds(Times(m, g.sectorsPerCluster), q, g.bytesPerSector);
    assert TailAt(g, a + b, |a| + n, Times(m, g.sectorsPerCluster) + q);
  }

  lemma TailFound(g: Geometry, b: seq<byte>, n: nat, q: nat)
    requires TailAt(g, b, n, q)
    ensures TailZero(g, b, n)
  {
    hide TailAt;
  }

  lemma TailInMore(g: Geometry, a: seq<byte>, b: seq<byte>, n: nat)
    requires a <= b && TailZero(g, a, n)
    ensures TailZero(g, b, n)
  {
    hide Times;
    var q: nat :| TailAt(g, a, n, q);
    assert TailAt(g, b, n, q);
  }

  // ----- what a write to a sector leaves alone

  /** The sector belongs to one of these clusters. */
  ghost predicate InClusters(g: Geometry, C: set<nat>, lba: int) {
    exists c: nat :: c in C && IsValidCluster(g, c) && ClusterToLba(g, c) <= lba < ClusterToLba(g, c) + g.sectorsPerCluster
  }

  lemma {:induction false} SectorBytesSame(g: Geometry, S: Sectors, S': Sectors, lba: nat, n: nat)
    requires Formatted(g, S) && Formatted(g, S') && lba + n <= |S| == |S'|
    requires forall i :: lba <= i < lba + n ==> S'[i] == S[i]
    ensures SectorBytes(g, S', lba, n) == SectorBytes(g, S, lba, n)
  {
    if n > 0 {
      SectorBytesSame(g, S, S', lba, n - 1);
    }
  }

  /** Clusters outside C keep their bytes when only sectors of C, or sectors outside the
      data area, change. */
  lemma {:induction false} ContentSame(g: Geometry, S: Sectors, S': Sectors, C: set<nat>, cl: seq<nat>)
    requires Formatted(g, S) && Formatted(g, S') && |S| == |S'| && AllClusters(g, cl)
    requires forall i :: g.dataStartLba <= i < |S| && !InClusters(g, C, i) ==> S'[i] == S[i]
    requires forall i :: 0 <= i < |cl| ==> cl[i] !in C
    ensures Content(g, S', cl) == Content(g, S, cl)
  {
    if cl != [] {
      var c := cl[|cl| - 1];
      ContentSame(g, S, S', C, cl[..|cl| - 1]);
      ClusterOnDisk(g, S, c);
      forall i | ClusterToLba(g, c) <= i < ClusterToLba(g, c) + g.sectorsPerCluster
        ensures S'[i] == S[i]
      {
        NotInClusters(g, C, c, i - ClusterToLba(g, c));
      }
      SectorBytesSame(g, S, S', ClusterToLba(g, c), g.sectorsPerCluster);
    }
  }

  lemma NotInClusters(g: Geometry, C: set<nat>, c: nat, s: nat)
    requires WellFormed(g) && IsValidCluster(g, c) && c !in C && s < g.sectorsPerCluster
    ensures !InClusters(g, C, ClusterToLba(g, c) + s)
  {
    if InClusters(g, C, ClusterToLba(g, c) + s) {
      var d :| d in C && IsValidCluster(g, d) && ClusterToLba(g, d) <= ClusterToLba(g, c) + s < ClusterToLba(g, d) + g.sectorsPerCluster;
      ClusterPlaceInjective(g, c, s, d, ClusterToLba(g, c) + s - ClusterToLba(g, d));
    }
  }

  lemma {:induction false} SectorBytesPrefix(g: Geometry, S: Sectors, lba: nat, m: nat, n: nat)
    requires Formatted(g, S) && m <= n && lba + n <= |S|
    ensures SectorBytes(g, S, lba, m) <= SectorBytes(g, S, lba, n)
  {
    if m < n {
      SectorBytesPrefix(g, S, lba, m, n - 1);
    }
  }

  lemma {:induction false} ContentPrefix(g: Geometry, S: Sectors, cl: seq<nat>, m: nat)
    requires Formatted(g, S) && AllClusters(g, cl) && m <= |cl|
    ensures Content(g, S, cl[..m]) <= Content(g, S, cl)
  {
    if m == |cl| {
      assert cl[..m] == cl;
    } else {
      assert cl[..|cl| - 1][..m] == cl[..m];
      ContentPrefix(g, S, cl[..|cl| - 1], m);
    }
  }

  lemma {:induction false} ContentLength(g: Geometry, S: Sectors, cl: seq<nat>)
    requires Formatted(g, S) && AllClusters(g, cl)
    ensures |Content(g, S, cl)| == Times(|cl|, ClusterSize(g))
  {
    if cl != [] {
      ContentLength(g, S, cl[..|cl| - 1]);
    }
  }

  // ----- files

  /** The clusters that hold `need` bytes of a chain that starts at c. */
  ghost function ChainFor(g: Geometry, F: seq<nat>, c: nat, need: nat): (cl: seq<nat>)
    requires |F| == g.maxCluster && WellFormed(g)
    ensures AllClusters(g, cl)
    decreases need
  {
    ClusterSizePositive(g);
    if need == 0 || !IsValidCluster(g, c) then []
    else [c] + ChainFor(g, F, F[c], if need <= ClusterSize(g) then 0 else need - ClusterSize(g))
  }

  lemma ClusterSizePositive(g: Geometry)
    requires WellFormed(g)
    ensures ClusterSize(g) > 0
  {
  }

  ghost function FileBytes(g: Geometry, S: Sectors, first: nat, size: nat): (b: seq<byte>)
    requires Formatted(g, S)
    ensures |b| <= size
  {
    var b := Content(g, S, ChainFor(g, Links(g, S), first, size));
    if |b| <= size then b else b[..size]
  }

  lemma {:induction false} ChainOnDisk(g: Geometry, S: Sectors, F: seq<nat>, c: nat, n: nat)
    requires Formatted(g, S) && |F| == g.maxCluster
    ensures OnDisk(S, ChainLbas(g, F, c, n))
    decreases n
  {
    if n > 0 && IsValidCluster(g, c) {
      ClusterOnDisk(g, S, c);
      ChainOnDisk(g, S, F, F[c], n - 1);
    }
  }

  lemma DirOnDisk(g: Geometry, S: Sectors)
    requires Formatted(g, S)
    ensures OnDisk(S, DirLbas(g, Links(g, S)))
  {
    ChainOnDisk(g, S, Links(g, S), g.rootCluster, g.maxCluster);
  }

  /** The search for a free slot, cluster by cluster. */
  ghost function FindFreeFrom(g: Geometry, S: Sectors, F: seq<nat>, c: nat, n: nat): (r: Search<Slot>)
    requires Formatted(g, S) && |F| == g.maxCluster
    decreases n
  {
    if n == 0 || !IsValidCluster(g, c) then Missing
    else
      ClusterOnDisk(g, S, c);
      var here := FreeInRun(S, ClusterToLba(g, c), g.sectorsPerCluster);
      if here.Found? then here else FindFreeFrom(g, S, F, F[c], n - 1)
  }

  lemma {:induction false} FindFreeInChain(g: Geometry, S: Sectors, F: seq<nat>, c: nat, n: nat)
    requires Formatted(g, S) && |F| == g.maxCluster
    ensures OnDisk(S, ChainLbas(g, F, c, n))
    ensures FindFreeFrom(g, S, F, c, n) == FindFree(S, ChainLbas(g, F, c, n))
    decreases n
  {
    if n > 0 && IsValidCluster(g, c) {
      hide FindFree, FreeInRun, FindName, NameInRun;
      ClusterOnDisk(g, S, c);
      FindFreeInChain(g, S, F, F[c], n - 1);
      RunSearches(S, ClusterToLba(g, c), g.sectorsPerCluster, seq(11, _ => 0));
      FindFreeAppend(S, Run(ClusterToLba(g, c), g.sectorsPerCluster), ChainLbas(g, F, F[c], n - 1));
    }
  }

  ghost function FindNameFrom(g: Geometry, S: Sectors, F: seq<nat>, c: nat, n: nat, name: Name): (r: Search<Slot>)
    requires Formatted(g, S) && |F| == g.maxCluster
    decreases n
  {
    if n == 0 || !IsValidCluster(g, c) then Missing
    else
      ClusterOnDisk(g, S, c);
      var here := NameInRun(S, ClusterToLba(g, c), g.sectorsPerCluster, name);
      if here.Missing? then FindNameFrom(g, S, F, F[c], n - 1, name) else here
  }

  lemma {:induction false} FindNameInChain(g: Geometry, S: Sectors, F: seq<nat>, c: nat, n: nat, name: Name)
    requires Formatted(g, S) && |F| == g.maxCluster
    ensures OnDisk(S, ChainLbas(g, F, c, n))
    ensures FindNameFrom(g, S, F, c, n, name) == FindName(S, ChainLbas(g, F, c, n), name)
    decreases n
  {
    if n > 0 && IsValidCluster(g, c) {
      hide FindFree, FreeInRun, FindName, NameInRun;
      ClusterOnDisk(g, S, c);
      FindNameInChain(g, S, F, F[c], n - 1, name);
      RunSearches(S, ClusterToLba(g, c), g.sectorsPerCluster, name);
      FindNameAppend(S, Run(ClusterToLba(g, c), g.sectorsPerCluster), ChainLbas(g, F, F[c], n - 1), name);
    }
  }

  /** The first free slot of the root directory. */
  ghost function FreeSlot(g: Geometry, S: Sectors): (r: Search<Slot>)
    requires Formatted(g, S)
    ensures r.Found? ==> r.at.lba < |S| && r.at.offset + DIR_ENTRY_SIZE <= |S[r.at.lba]|
  {
    DirOnDisk(g, S);
    FindFree(S, DirLbas(g, Links(g, S)))
  }

  /** The slot of the file of this name. */
  ghost function SlotOf(g: Geometry, S: Sectors, name: Name): (r: Search<Slot>)
    requires Formatted(g, S)
    ensures r.Found? ==> r.at.lba < |S| && r.at.offset + DIR_ENTRY_SIZE <= |S[r.at.lba]|
  {
    DirOnDisk(g, S);
    FindName(S, DirLbas(g, Links(g, S)), name)
  }

  /** A new file of this name would be found, not an older one. */
  ghost predicate NewComesFirst(g: Geometry, S: Sectors, name: Name)
    requires Formatted(g, S)
  {
    DirOnDisk(g, S);
    NewFirst(S, DirLbas(g, Links(g, S)), name)
  }

  lemma FreshComesFirst(g: Geometry, S: Sectors, name: Name)
    requires Formatted(g, S) && !SlotOf(g, S, name).Found?
    ensures NewComesFirst(g, S, name)
  {
    DirOnDisk(g, S);
    if !NewFirst(S, DirLbas(g, Links(g, S)), name) {
      FreshIsFirst(S, DirLbas(g, Links(g, S)), name);
    }
  }

  /** A FAT32 root directory is searched cluster by cluster. */
  lemma SearchesByCluster(g: Geometry, S: Sectors, name: Name)
    requires Formatted(g, S) && g.fatType.Fat32?
    ensures FreeSlot(g, S) == FindFreeFrom(g, S, Links(g, S), g.rootCluster, g.maxCluster)
    ensures SlotOf(g, S, name) == FindNameFrom(g, S, Links(g, S), g.rootCluster, g.maxCluster, name)
  {
    hide FindFree, FindName, FindFreeFrom, FindNameFrom, ChainLbas;
    FindFreeInChain(g, S, Links(g, S), g.rootCluster, g.maxCluster);
    FindNameInChain(g, S, Links(g, S), g.rootCluster, g.maxCluster, name);
  }

  /** What the file of this name holds, if there is one. */
  ghost function File(g: Geometry, S: Sectors, name: Name): (r: Search<seq<byte>>)
    requires Formatted(g, S)
  {
    var r := SlotOf(g, S, name);
    if r.Found? then
      var (s, i) := (S[r.at.lba], r.at.offset);
      Found(FileBytes(g, S, FirstClusterAt(s, i), FileSizeAt(s, i)))
    else if r.EndMark? then EndMark else Missing
  }

  /** The chain a file of `size` bytes gets is the chain reading it follows. */
  lemma {:induction false} ChainForLinked(g: Geometry, F: seq<nat>, cl: seq<nat>, end: nat, size: nat)
    requires |F| == g.maxCluster && WellFormed(g) && Linked(F, cl, end) && |cl| > 0
    requires Times(|cl| - 1, ClusterSize(g)) < size <= Times(|cl|, ClusterSize(g))
    ensures ChainFor(g, F, cl[0], size) == cl
  {
    ClusterSizePositive(g);
    if |cl| > 1 {
      ChainForLinked(g, F, cl[1..], end, size - ClusterSize(g));
    }
    assert cl == [cl[0]] + cl[1..];
  }

  // ----- sizes

  /** The number of clusters for `size` bytes, computed in 32 bits. */
  function NumClusters(g: Geometry, size: nat): nat
    requires ClusterSize(g) > 0
  {
    ((size + ClusterSize(g) - 1) % 0x1_0000_0000) / ClusterSize(g)
  }

  /** The computation wraps for sizes close to 4 GiB. */
  predicate SizeFits(g: Geometry, size: nat) {
    size + ClusterSize(g) <= 0x1_0000_0000
  }

  lemma {:induction false} NumClustersCovers(g: Geometry, size: nat)
    requires WellFormed(g) && 0 < size < 0x1_0000_0000
    ensures ClusterSize(g) > 0
    ensures !SizeFits(g, size) ==> NumClusters(g, size) == 0
    ensures SizeFits(g, size) ==> NumClusters(g, size) > 0
    ensures SizeFits(g, size) ==> Times(NumClusters(g, size) - 1, ClusterSize(g)) < size <= Times(NumClusters(g, size), ClusterSize(g))
  {
    ClusterSizePositive(g);
    CeilingDivision(size, ClusterSize(g));
  }

  lemma {:induction false} QuotientPositive(x: nat, n: nat)
    requires n > 0 && x >= n
    ensures x / n > 0
  {
    assert x == n * (x / n) + x % n;
  }

  lemma {:induction false} CeilingDivision(size: nat, cs: nat)
    requires 0 < size < 0x1_0000_0000 && 0 < cs <= 0x1_0000_0000
    ensures var n := ((size + cs - 1) % 0x1_0000_0000) / cs;
      if size + cs <= 0x1_0000_0000 then n > 0 && Times(n - 1, cs) < size <= Times(n, cs) else n == 0
  {
    hide Times, Quotient, Remainder;
    var x := size + cs - 1;
    if size + cs <= 0x1_0000_0000 {
      assert x % 0x1_0000_0000 == x;
      var n := x / cs;
      assert x == cs * n + x % cs;
      QuotientPositive(x, cs);
      assert n * cs == (n - 1) * cs + cs;
      TimesIsProduct(n - 1, cs);
      TimesIsProduct(n, cs);
    } else {
      assert x % 0x1_0000_0000 == x - 0x1_0000_0000 < cs;
      QuotientUnique(x - 0x1_0000_0000, cs, 0, x - 0x1_0000_0000);
    }
  }
}
