/** Several files written one after the other. */
module FatSeries {
  import opened FiniteSets
  import opened FatGeometry
  import opened FatTable
  import opened FatChain
  import opened FatDirectory
  import opened FatFile
  import opened FatFrame
  import opened FatWrite
  import opened FatVolume

  /** No slot of the directory, used or not, bears this name: not even behind the end mark,
      from where filling slots could bring it back. */
  ghost predicate Absent(g: Geometry, S: Sectors, name: Name)
    requires Formatted(g, S)
  {
    forall lba: nat, i: nat :: lba in DirLbas(g, Links(g, S)) && lba < |S| && i % DIR_ENTRY_SIZE == 0 && i + DIR_ENTRY_SIZE <= |S[lba]| ==>
      !IsFileSlot(S[lba], i, name)
  }

  lemma AbsentNotFound(g: Geometry, S: Sectors, name: Name)
    requires Formatted(g, S) && Absent(g, S, name)
    ensures !SlotOf(g, S, name).Found?
  {
    hide DirLbas, Links, IsFileSlot;
    DirOnDisk(g, S);
    var r := SlotOf(g, S, name);
    if r.Found? {
      FindNameIn(S, DirLbas(g, Links(g, S)), name);
      LookFindsFile(S[r.at.lba], name, 0);
    }
  }

  /** A slot beside the one that is filled reads as before; the filled one reads as what was
      put in. */
  lemma SlotReads(s: Sector, f: nat, b: seq<byte>, i: nat, name: Name)
    requires |b| == DIR_ENTRY_SIZE && f + DIR_ENTRY_SIZE <= |s| && i + DIR_ENTRY_SIZE <= |s|
    requires f % DIR_ENTRY_SIZE == 0 && i % DIR_ENTRY_SIZE == 0
    ensures IsFileSlot(Splice(s, f, b), i, name) == if i == f then IsFileSlot(b, 0, name) else IsFileSlot(s, i, name)
  {
    var t := Splice(s, f, b);
    if i == f {
      assert t[i + 11] == b[11];
      assert t[i..i + 11] == b[0..11];
    } else {
      SlotsApart(i, f);
      assert t[i..i + 11] == s[i..i + 11];
    }
  }

  /** The directory after a write: the same sectors, one slot filled. */
  lemma DirAfterWrite(g: Geometry, S: Sectors, S': Sectors, name: Name, data: seq<byte>, cl: seq<nat>, slot: Slot)
    requires Written(g, S, S', name, data, cl, slot) && RootInUse(g, Links(g, S))
    ensures DirLbas(g, Links(g, S')) == DirLbas(g, Links(g, S)) && slot.offset % DIR_ENTRY_SIZE == 0
    ensures forall lba: nat :: lba in DirLbas(g, Links(g, S)) ==>
      lba < |S| == |S'| && S'[lba] == if lba == slot.lba then Splice(S[lba], slot.offset, DirEntry(name, cl[0], |data|)) else S[lba]
  {
    hide DirLbas, Links, RootInUse, ApartFromDir, FreeSlot, Frame, ChainStored, AllFree, Times;
    var C := SetOf(cl);
    FreeApart(g, Links(g, S), C);
    NewSlotIsFree(g, S, slot);
    SlotOutside(g, S, C, slot.lba);
    SlotKeepsFat(g, S, S', C, slot, DirEntry(name, cl[0], |data|));
    DirSame(g, S, S'[slot.lba := S[slot.lba]], C);
  }

  lemma AbsentStays(g: Geometry, S: Sectors, S': Sectors, name: Name, data: seq<byte>, cl: seq<nat>, slot: Slot, other: Name)
    requires Written(g, S, S', name, data, cl, slot) && RootInUse(g, Links(g, S)) && other != name && Absent(g, S, other)
    ensures Absent(g, S', other)
  {
    hide DirLbas, Links, RootInUse, FreeSlot, ChainStored, AllFree, Times, IsFileSlot, Splice;
    DirAfterWrite(g, S, S', name, data, cl, slot);
    var b := DirEntry(name, cl[0], |data|);
    OneName(b, name, other);
    forall lba: nat, i: nat | lba in DirLbas(g, Links(g, S')) && lba < |S'| && i % DIR_ENTRY_SIZE == 0 && i + DIR_ENTRY_SIZE <= |S'[lba]|
      ensures !IsFileSlot(S'[lba], i, other)
    {
      if lba == slot.lba {
        SlotReads(S[lba], slot.offset, b, i, other);
      }
    }
  }

  lemma OneName(b: seq<byte>, name: Name, other: Name)
    requires |b| == DIR_ENTRY_SIZE && IsFileSlot(b, 0, name) && other != name
    ensures !IsFileSlot(b, 0, other)
  {
  }

  /** The file holds this data, and nothing endangers it. */
  ghost predicate Holds(g: Geometry, S: Sectors, name: Name, data: seq<byte>)
    requires Formatted(g, S)
  {
    SoundFile(g, S, name) && File(g, S, name) == Found(data) && SizeOf(g, S, name) == |data|
  }

  lemma HoldsNew(g: Geometry, S: Sectors, S': Sectors, name: Name, data: seq<byte>, cl: seq<nat>, slot: Slot)
    requires Written(g, S, S', name, data, cl, slot) && RootInUse(g, Links(g, S)) && IsFileName(name) && Absent(g, S, name)
    ensures Holds(g, S', name, data)
  {
    hide RootInUse, Written, SlotOf, File, Links, Absent, NewComesFirst, SoundChain;
    WrittenFormatted(g, S, S', name, data, cl, slot);
    AbsentNotFound(g, S, name);
    FreshComesFirst(g, S, name);
    WrittenFile(g, S, S', name, data, cl, slot);
    NewFileSound(g, S, S', name, data, cl, slot);
    ReadsBack(g, S, S', name, data, cl, slot, |data|);
  }

  lemma WrittenFormatted(g: Geometry, S: Sectors, S': Sectors, name: Name, data: seq<byte>, cl: seq<nat>, slot: Slot)
    requires Written(g, S, S', name, data, cl, slot)
    ensures Formatted(g, S) && Formatted(g, S')
  {
    hide Links, Times, AllFree, ChainStored, SlotFrame, FreeSlot;
  }

  lemma HoldsOther(g: Geometry, S: Sectors, S': Sectors, name: Name, data: seq<byte>, cl: seq<nat>, slot: Slot, other: Name, held: seq<byte>)
    requires Written(g, S, S', name, data, cl, slot) && RootInUse(g, Links(g, S)) && IsFileName(name)
    requires other != name && Holds(g, S, other, held)
    ensures Holds(g, S', other, held)
  {
    hide RootInUse, Written, File, Links, SoundChain, FileSizeAt, SlotOf;
    OtherFileKept(g, S, S', name, data, cl, slot, other);
    OtherFileSound(g, S, S', name, data, cl, slot, other);
    OtherSize(g, S, S', name, data, cl, slot, other);
  }

  lemma OtherSize(g: Geometry, S: Sectors, S': Sectors, name: Name, data: seq<byte>, cl: seq<nat>, slot: Slot, other: Name)
    requires Written(g, S, S', name, data, cl, slot) && RootInUse(g, Links(g, S)) && IsFileName(name)
    requires other != name && SlotOf(g, S, other).Found?
    ensures SlotOf(g, S', other).Found? && SizeOf(g, S', other) == SizeOf(g, S, other)
  {
    hide SlotOf, RootInUse, ApartFromDir, Links, ChainStored, Frame, Times;
    FreeApart(g, Links(g, S), SetOf(cl));
    NewSlotIsFree(g, S, slot);
    OtherSlotKept(g, S, S', SetOf(cl), slot, DirEntry(name, cl[0], |data|), other);
  }

  /** The first n files are on the volume; the names of the others are not in use. */
  ghost predicate Progress(g: Geometry, S: Sectors, names: seq<Name>, datas: seq<seq<byte>>, n: nat)
    requires Formatted(g, S) && n <= |names| == |datas|
  {
    && (forall i :: 0 <= i < n ==> Holds(g, S, names[i], datas[i]))
    && forall i :: n <= i < |names| ==> Absent(g, S, names[i])
  }

  lemma ProgressMade(g: Geometry, S: Sectors, S': Sectors, names: seq<Name>, datas: seq<seq<byte>>, n: nat, cl: seq<nat>, slot: Slot)
    requires Formatted(g, S) && n < |names| == |datas| && Progress(g, S, names, datas, n) && RootInUse(g, Links(g, S))
    requires (forall i, j :: 0 <= i < j < |names| ==> names[i] != names[j]) && IsFileName(names[n])
    requires Written(g, S, S', names[n], datas[n], cl, slot)
    ensures Formatted(g, S') && Progress(g, S', names, datas, n + 1)
  {
    hide RootInUse, Written, Links, Holds, Absent;
    WrittenFormatted(g, S, S', names[n], datas[n], cl, slot);
    HoldsNew(g, S, S', names[n], datas[n], cl, slot);
    forall i | 0 <= i < n
      ensures Holds(g, S', names[i], datas[i])
    {
      HoldsOther(g, S, S', names[n], datas[n], cl, slot, names[i], datas[i]);
    }
    forall i | n < i < |names|
      ensures Absent(g, S', names[i])
    {
      AbsentStays(g, S, S', names[n], datas[n], cl, slot, names[i]);
    }
  }

  lemma FilesKept(g: Geometry, S: Sectors, S': Sectors, C: set<nat>, names: seq<Name>, datas: seq<seq<byte>>, n: nat)
    requires Formatted(g, S) && n <= |names| == |datas| && Progress(g, S, names, datas, n) && RootInUse(g, Links(g, S))
    requires Frame(g, S, S', C) && AllFree(Links(g, S), C)
    ensures Formatted(g, S') && forall i :: 0 <= i < n ==> Holds(g, S', names[i], datas[i])
  {
    hide RootInUse, Frame, Links, AllFree, Absent, File, SoundFile, SizeOf;
    FrameFormatted(g, S, S', C);
    forall i | 0 <= i < n
      ensures Holds(g, S', names[i], datas[i])
    {
      FileKeptByFrame(g, S, S', C, names[i]);
    }
  }

  /** Writes files of distinct names that no slot bears, until one is refused: the ones
      before it are all on the volume, each with its data, whatever came after it. */
  method WriteAll(v: Volume, names: seq<Name>, datas: seq<seq<byte>>) returns (n: nat)
    requires v.Valid() && RootInUse(v.g, v.Fat()) && |names| == |datas|
    requires forall i, j :: 0 <= i < j < |names| ==> names[i] != names[j]
    requires forall i :: 0 <= i < |names| ==> IsFileName(names[i]) && Absent(v.g, v.sectors, names[i]) && |datas[i]| < 0x1_0000_0000
    modifies v`ioError, v`sectors, v.buf
    ensures v.Valid() && RootInUse(v.g, v.Fat()) && n <= |names|
    ensures n == |names| || !v.ioError ==> forall i :: 0 <= i < n ==> Holds(v.g, v.sectors, names[i], datas[i])
  {
    hide RootInUse, Written, Links, Holds, Absent, Frame, AllFree, FreeSlot, Times, WellFormed, OnlyFreeTouched, FreeMirrored, SameFat;
    n := 0;
    while n < |names|
      invariant n <= |names| && v.Valid() && RootInUse(v.g, v.Fat())
      invariant Progress(v.g, v.sectors, names, datas, n)
    {
      ghost var S := v.sectors;
      ghost var touched, cl, slot;
      var ok;
      ok, touched, cl, slot := v.WriteFile(names[n], datas[n]);
      if !ok {
        if !v.ioError {
          FilesKept(v.g, S, v.sectors, touched, names, datas, n);
        }
        return;
      }
      ProgressMade(v.g, S, v.sectors, names, datas, n, cl, slot);
      n := n + 1;
    }
  }

  /** Each of them reads back. */
  method ReadHeld(v: Volume, name: Name, ghost data: seq<byte>, dst: array<byte>) returns (ok: bool, size: nat)
    requires v.Valid() && Holds(v.g, v.sectors, name, data) && dst != v.buf && |data| <= dst.Length
    modifies v`ioError, v.buf, dst
    ensures v.Valid() && v.sectors == old(v.sectors)
    ensures !v.ioError ==> ok && size == |data| && dst[..] == Splice(old(dst[..]), 0, data)
  {
    hide Links, Times, SlotOf, FileBytes, SoundChain, Splice;
    ok, size := v.ReadFile(name, dst);
  }
}
