/** Relocating the running program, every time it has moved itself. */
module Relocation {
  import opened MachineWord

  const DT_NULL := 0
  const DT_PLTRELSZ := 2
  const DT_RELA := 7
  const DT_RELASZ := 8
  const DT_RELAENT := 9
  const DT_PLTREL := 20
  const DT_JMPREL := 23
  const DT_NUM := 34
  const RELA_SIZE: nat := 24

  /** An entry of the dynamic section. */
  datatype Dyn = Dyn(tag: int, val: nat)

  /** A relocation entry. Offsets count bytes from the start of the image. */
  datatype Rela = Rela(offset: nat, info: nat, addend: int)

  function Kind(r: Rela): nat {
    r.info % 0x1_0000_0000
  }

  predicate Relative(r: Rela) {
    Kind(r) == 8 || Kind(r) == 3 || Kind(r) == 1027
  }

  // ----- the effect of relocation entries

  /** The new value of a slot: set on the first move, adjusted by the distance later. */
  function SlotValue(was: nat, addr: nat, offs: nat, addend: int): nat {
    if offs == addr then (addr + addend) % WORD else (was + offs) % WORD
  }

  ghost predicate InImage(slots: seq<nat>, r: Rela) {
    Relative(r) ==> r.offset % 8 == 0 && r.offset / 8 < |slots|
  }

  ghost predicate AllInImage(slots: seq<nat>, rels: seq<Rela>) {
    forall k :: 0 <= k < |rels| ==> InImage(slots, rels[k])
  }

  ghost function ApplyOne(slots: seq<nat>, r: Rela, addr: nat, offs: nat): (t: seq<nat>)
    requires InImage(slots, r)
    ensures |t| == |slots|
  {
    if Relative(r) then slots[r.offset / 8 := SlotValue(slots[r.offset / 8], addr, offs, r.addend)] else slots
  }

  ghost function Apply(slots: seq<nat>, rels: seq<Rela>, addr: nat, offs: nat): (t: seq<nat>)
    requires AllInImage(slots, rels)
    ensures |t| == |slots|
  {
    if rels == [] then slots
    else ApplyOne(Apply(slots, rels[..|rels| - 1], addr, offs), rels[|rels| - 1], addr, offs)
  }

  /** No slot is relocated by two entries. */
  ghost predicate DistinctSlots(rels: seq<Rela>) {
    forall j, k :: 0 <= j < k < |rels| && Relative(rels[j]) && Relative(rels[k]) ==> rels[j].offset / 8 != rels[k].offset / 8
  }

  /** The kinds the code knows: relative and none. */
  ghost predicate KnownKinds(rels: seq<Rela>) {
    forall k :: 0 <= k < |rels| ==> Relative(rels[k]) || Kind(rels[k]) == 0
  }

  ghost predicate Untouched(rels: seq<Rela>, i: nat) {
    forall k :: 0 <= k < |rels| && Relative(rels[k]) ==> rels[k].offset / 8 != i
  }

  lemma {:induction false} ApplyOther(slots: seq<nat>, rels: seq<Rela>, addr: nat, offs: nat, i: nat)
    requires AllInImage(slots, rels) && i < |slots| && Untouched(rels, i)
    ensures Apply(slots, rels, addr, offs)[i] == slots[i]
  {
    hide Relative, SlotValue;
    if rels != [] {
      ApplyOther(slots, rels[..|rels| - 1], addr, offs, i);
    }
  }

  lemma {:induction false} ApplyAt(slots: seq<nat>, rels: seq<Rela>, addr: nat, offs: nat, k: nat)
    requires AllInImage(slots, rels) && DistinctSlots(rels) && k < |rels| && Relative(rels[k])
    ensures var i := rels[k].offset / 8;
      i < |slots| && Apply(slots, rels, addr, offs)[i] == SlotValue(slots[i], addr, offs, rels[k].addend)
  {
    hide Relative, SlotValue;
    var n := |rels| - 1;
    if k < n {
      ApplyAt(slots, rels[..n], addr, offs, k);
    } else {
      ApplyOther(slots, rels[..n], addr, offs, rels[k].offset / 8);
    }
  }

  lemma {:induction false} ApplyBoth(slots: seq<nat>, a: seq<Rela>, b: seq<Rela>, addr: nat, offs: nat)
    requires AllInImage(slots, a) && AllInImage(slots, b)
    ensures AllInImage(slots, a + b) && Apply(Apply(slots, a, addr, offs), b, addr, offs) == Apply(slots, a + b, addr, offs)
  {
    hide Relative, SlotValue;
    if b == [] {
      assert a + b == a;
    } else {
      ApplyBoth(slots, a, b[..|b| - 1], addr, offs);
      assert (a + b)[..|a + b| - 1] == a + b[..|b| - 1];
    }
  }

  /** All slots are as the load address demands. */
  ghost predicate Settled(slots: seq<nat>, rels: seq<Rela>, addr: nat) {
    forall k :: 0 <= k < |rels| && Relative(rels[k]) ==>
      rels[k].offset / 8 < |slots| && slots[rels[k].offset / 8] == (addr + rels[k].addend) % WORD
  }

  /** Moving from one address to another settles the slots for the new one, if they were
      settled for the old one or the old one is zero, the mark of a first move. */
  lemma MoveSettles(slots: seq<nat>, rels: seq<Rela>, last: nat, addr: nat)
    requires AllInImage(slots, rels) && DistinctSlots(rels) && last < WORD && addr < WORD
    requires last == 0 || Settled(slots, rels, last)
    ensures Settled(Apply(slots, rels, addr, (addr - last) % WORD), rels, addr)
  {
    hide Relative, Apply;
    var offs := (addr - last) % WORD;
    forall k | 0 <= k < |rels| && Relative(rels[k])
      ensures rels[k].offset / 8 < |slots| && Apply(slots, rels, addr, offs)[rels[k].offset / 8] == (addr + rels[k].addend) % WORD
    {
      ApplyAt(slots, rels, addr, offs, k);
      DistanceAdds(last, addr, rels[k].addend);
    }
  }

  lemma DistanceAdds(last: nat, addr: nat, addend: int)
    requires last < WORD && addr < WORD
    ensures (addr - last) % WORD == addr <==> last == 0
    ensures ((last + addend) % WORD + (addr - last) % WORD) % WORD == (addr + addend) % WORD
  {
  }

  /** A slot with two entries is adjusted twice: here it ends 4096 past its place. */
  lemma RepeatedSlot()
    ensures var rels := [Rela(0, 8, 16), Rela(0, 8, 16)];
      var first := Apply([0], rels, 0x1000, 0x1000);
      first == [0x1010] && Apply(first, rels, 0x2000, 0x1000) == [0x3010]
  {
    var rels := [Rela(0, 8, 16), Rela(0, 8, 16)];
    assert rels[..1] == [Rela(0, 8, 16)] && rels[..1][..0] == [];
    assert Apply([0], rels[..1], 0x1000, 0x1000) == [0x1010];
    assert Apply([0x1010], rels[..1], 0x2000, 0x1000) == [0x2010];
  }

  // ----- the dynamic section

  /** A table pointer moves along by a distance; other entries stay. */
  function Moved(d: Dyn, pointer: bool, offs: nat): Dyn {
    if pointer then Dyn(d.tag, (d.val + offs) % WORD) else d
  }

  /** The last of the first n entries with this tag, or -1. */
  function Find(dyn: seq<Dyn>, tag: int, n: nat): (i: int)
    requires n <= |dyn|
    ensures -1 <= i < n && (i >= 0 ==> dyn[i].tag == tag)
  {
    if n == 0 then -1 else if dyn[n - 1].tag == tag then n - 1 else Find(dyn, tag, n - 1)
  }

  /** The place of the terminating entry. */
  ghost predicate EndsAt(dyn: seq<Dyn>, n: nat) {
    n < |dyn| && dyn[n].tag == DT_NULL && forall i :: 0 <= i < n ==> dyn[i].tag > DT_NULL
  }

  /** Tags decide what is found. */
  lemma {:induction false} FindSame(a: seq<Dyn>, b: seq<Dyn>, tag: int, n: nat)
    requires |a| == |b| && n <= |a| && forall i :: 0 <= i < |a| ==> a[i].tag == b[i].tag
    ensures Find(a, tag, n) == Find(b, tag, n)
  {
    if n > 0 {
      FindSame(a, b, tag, n - 1);
    }
  }

  /** The last entry with this tag, told from the section alone. */
  ghost predicate LastOf(dyn: seq<Dyn>, n: nat, tag: int, i: nat)
    requires n <= |dyn|
  {
    i < n && dyn[i].tag == tag && forall j :: i < j < n ==> dyn[j].tag != tag
  }

  lemma {:induction false} FindIsLast(dyn: seq<Dyn>, tag: int, n: nat, i: nat)
    requires n <= |dyn| && LastOf(dyn, n, tag, i)
    ensures Find(dyn, tag, n) == i
  {
    if n - 1 > i {
      FindIsLast(dyn, tag, n - 1, i);
    }
  }

  // ----- the image

  class Image {
    const slots: array<nat>
    const dyn: array<Dyn>
    /** The relocation entries, by their offset in the image. */
    const relas: map<nat, Rela>
    const size: nat
    var lastLoadAddr: nat
    /** The dynamic section as linked, and the number of its entries. */
    ghost const linked: seq<Dyn>
    ghost const entries: nat

    constructor (slots: array<nat>, dyn: array<Dyn>, relas: map<nat, Rela>, size: nat, ghost entries: nat)
      ensures this.slots == slots && this.dyn == dyn && this.relas == relas && this.size == size
      ensures lastLoadAddr == 0 && linked == dyn[..] && this.entries == entries
    {
      this.slots, this.dyn, this.relas, this.size, lastLoadAddr := slots, dyn, relas, size, 0;
      this.linked, this.entries := dyn[..], entries;
    }

    ghost function Value(tag: int): nat
      requires entries <= |linked|
    {
      var i := Find(linked, tag, entries);
      if i < 0 then 0 else linked[i].val
    }

    ghost predicate Has(tag: int)
      requires entries <= |linked|
    {
      Find(linked, tag, entries) >= 0
    }

    /** The table at this offset lies in the image. */
    ghost predicate HasTable(offset: nat, bytes: nat) {
      bytes % RELA_SIZE == 0 && offset + bytes <= size && forall k: nat :: k < bytes / RELA_SIZE ==> offset + RELA_SIZE * k in relas
    }

    ghost function Table(offset: nat, bytes: nat): (t: seq<Rela>)
      requires HasTable(offset, bytes)
      ensures |t| == bytes / RELA_SIZE
    {
      seq(bytes / RELA_SIZE, k requires 0 <= k < bytes / RELA_SIZE => relas[offset + RELA_SIZE * k])
    }

    /** What the linker guarantees. */
    ghost predicate WellLinked() {
      && EndsAt(linked, entries) && size < WORD
      && Has(DT_RELA) && Has(DT_RELASZ) && Has(DT_RELAENT) && Value(DT_RELAENT) == RELA_SIZE
      && HasTable(Value(DT_RELA), Value(DT_RELASZ))
      && (Has(DT_PLTREL) ==> Value(DT_PLTREL) == DT_RELA && Has(DT_JMPREL) && Has(DT_PLTRELSZ) && HasTable(Value(DT_JMPREL), Value(DT_PLTRELSZ)))
    }

    /** All relocation entries. */
    ghost function Entries(): seq<Rela>
      requires WellLinked()
    {
      Table(Value(DT_RELA), Value(DT_RELASZ)) + (if Has(DT_PLTREL) then Table(Value(DT_JMPREL), Value(DT_PLTRELSZ)) else [])
    }

    ghost predicate GoodEntries()
      requires WellLinked()
    {
      && DistinctSlots(Entries()) && KnownKinds(Entries())
      && forall k :: 0 <= k < |Entries()| && Relative(Entries()[k]) ==>
           Entries()[k].offset % 8 == 0 && Entries()[k].offset / 8 < slots.Length
    }

    /** The dynamic section at a load address: the two table pointers moved along. */
    ghost function DynAt(addr: nat): seq<Dyn>
      requires entries <= |linked|
    {
      seq(|linked|, i requires 0 <= i < |linked| => Moved(linked[i], IsTablePointer(i), addr))
    }

    ghost predicate IsTablePointer(i: int)
      requires entries <= |linked|
    {
      i == Find(linked, DT_RELA, entries) || i == Find(linked, DT_JMPREL, entries)
    }

    ghost predicate Valid()
      reads this, dyn, slots
    {
      && WellLinked() && GoodEntries() && lastLoadAddr < WORD
      && (forall i :: 0 <= i < |linked| ==> linked[i].val < WORD)
      && dyn[..] == DynAt(lastLoadAddr)
      && (lastLoadAddr == 0 || Settled(slots[..], Entries(), lastLoadAddr))
    }

    /** Looks up the entries by tag: the last of each. */
    method FindInfo() returns (info: array<int>)
      requires EndsAt(dyn[..], entries)
      ensures fresh(info) && info.Length == DT_NUM && forall t :: 0 < t < DT_NUM ==> info[t] == Find(dyn[..], t, entries)
    {
      info := new int[DT_NUM](_ => -1);
      var i := 0;
      while dyn[i].tag != DT_NULL
        invariant 0 <= i <= entries
        invariant forall t :: 0 < t < DT_NUM ==> info[t] == Find(dyn[..], t, i)
        decreases entries - i
      {
        if dyn[i].tag < DT_NUM {
          info[dyn[i].tag] := i;
        }
        i := i + 1;
      }
    }

    /** Looks up the entries by tag and moves the table pointers. */
    method GetDynamicInfo(offs: nat) returns (info: array<int>)
      requires EndsAt(dyn[..], entries) && offs < WORD
      requires Find(dyn[..], DT_RELA, entries) >= 0 ==>
        Find(dyn[..], DT_RELAENT, entries) >= 0 && dyn[Find(dyn[..], DT_RELAENT, entries)].val == RELA_SIZE
      requires Find(dyn[..], DT_PLTREL, entries) >= 0 ==> dyn[Find(dyn[..], DT_PLTREL, entries)].val == DT_RELA
      modifies dyn
      ensures fresh(info) && info.Length == DT_NUM && forall t :: 0 < t < DT_NUM ==> info[t] == Find(old(dyn[..]), t, entries)
      ensures forall i :: 0 <= i < dyn.Length ==> dyn[i] == Moved(old(dyn[i]), i == info[DT_RELA] || i == info[DT_JMPREL], offs)
    {
      info := FindInfo();
      if info[DT_RELA] != -1 {
        assert dyn[info[DT_RELAENT]].val == RELA_SIZE;
        dyn[info[DT_RELA]] := dyn[info[DT_RELA]].(val := (dyn[info[DT_RELA]].val + offs) % WORD);
      }
      if info[DT_JMPREL] != -1 {
        dyn[info[DT_JMPREL]] := dyn[info[DT_JMPREL]].(val := (dyn[info[DT_JMPREL]].val + offs) % WORD);
      }
    }

    method DoRelocation(addr: nat, offs: nat, r: Rela)
      requires InImage(slots[..], r) && (Relative(r) || Kind(r) == 0)
      modifies slots
      ensures slots[..] == ApplyOne(old(slots[..]), r, addr, offs)
    {
      if Kind(r) == 8 || Kind(r) == 3 || Kind(r) == 1027 {
        var i := r.offset / 8;
        if offs == addr {
          slots[i] := (addr + r.addend) % WORD;
        } else {
          slots[i] := (slots[i] + offs) % WORD;
        }
        return;
      }
      if Kind(r) == 0 {
        return;
      }
      assert false;
    }

    /** Works through a table, given by its run-time address. */
    method DoRelocations(addr: nat, offs: nat, relAddr: nat, relSize: nat)
      requires addr <= relAddr && HasTable(relAddr - addr, relSize) && AllInImage(slots[..], Table(relAddr - addr, relSize))
      requires KnownKinds(Table(relAddr - addr, relSize))
      modifies slots
      ensures slots[..] == Apply(old(slots[..]), Table(relAddr - addr, relSize), addr, offs)
    {
      hide Relative, ApplyOne, InImage;
      ghost var t := Table(relAddr - addr, relSize);
      ghost var k := 0;
      var rel := relAddr;
      while rel < relAddr + relSize
        invariant 0 <= k <= |t| && rel == relAddr + RELA_SIZE * k
        invariant slots[..] == Apply(old(slots[..]), t[..k], addr, offs)
        invariant AllInImage(slots[..], t)
      {
        assert t[k] == relas[rel - addr];
        ghost var was := slots[..];
        DoRelocation(addr, offs, relas[rel - addr]);
        StillInImage(was, slots[..], t);
        assert t[..k + 1][..k] == t[..k];
        rel := rel + RELA_SIZE;
        k := k + 1;
      }
      assert t[..k] == t;
    }

    /** Every relative entry of the table of `bytes` bytes at this offset has its slot as the
        load address demands: the 24-byte entries are read one by one. */
    ghost predicate TableSettled(offset: nat, bytes: nat, addr: nat)
      reads slots
    {
      forall k: nat :: 24 * k < bytes && offset + 24 * k in relas && relas[offset + 24 * k].info % 0x1_0000_0000 in {3, 8, 1027} ==>
        var e := relas[offset + 24 * k]; e.offset / 8 < slots.Length && slots[e.offset / 8] == (addr + e.addend) % 0x1_0000_0000_0000_0000
    }

    lemma TableIsSettled(offset: nat, bytes: nat, addr: nat)
      requires HasTable(offset, bytes) && Settled(slots[..], Table(offset, bytes), addr)
      ensures TableSettled(offset, bytes, addr)
    {
      var t := Table(offset, bytes);
      forall k: nat | 24 * k < bytes && offset + 24 * k in relas && relas[offset + 24 * k].info % 0x1_0000_0000 in {3, 8, 1027}
        ensures var e := relas[offset + 24 * k]; e.offset / 8 < slots.Length && slots[e.offset / 8] == (addr + e.addend) % 0x1_0000_0000_0000_0000
      {
        assert t[k] == relas[offset + 24 * k];
      }
    }

    /** Both tables are settled: that of DT_RELA (7, its size under 8), and that of DT_JMPREL
        (23, its size under 2), if the section has DT_PLTREL (20). */
    ghost predicate BothSettled(addr: nat)
      requires entries <= |linked|
      reads slots
    {
      && (forall i: nat, j: nat :: LastOf(linked, entries, 7, i) && LastOf(linked, entries, 8, j) ==>
            TableSettled(linked[i].val, linked[j].val, addr))
      && forall i: nat, j: nat, k: nat :: LastOf(linked, entries, 23, i) && LastOf(linked, entries, 2, j) && LastOf(linked, entries, 20, k) ==>
           TableSettled(linked[i].val, linked[j].val, addr)
    }

    lemma TablesAreSettled(addr: nat)
      requires WellLinked() && Settled(slots[..], Entries(), addr)
      ensures BothSettled(addr)
    {
      hide Relative, TableSettled, HasTable;
      var a := Table(Value(DT_RELA), Value(DT_RELASZ));
      var b := if Has(DT_PLTREL) then Table(Value(DT_JMPREL), Value(DT_PLTRELSZ)) else [];
      PartSettled(slots[..], a, b, addr);
      TableIsSettled(Value(DT_RELA), Value(DT_RELASZ), addr);
      if Has(DT_PLTREL) {
        TableIsSettled(Value(DT_JMPREL), Value(DT_PLTRELSZ), addr);
      }
      forall t, i: nat | LastOf(linked, entries, t, i)
        ensures Has(t) && Value(t) == linked[i].val
      {
        FindIsLast(linked, t, entries, i);
      }
    }

    /** A slot that no relative entry names is in neither table. */
    lemma NotNamed(i: nat)
      requires WellLinked() && forall o :: o in relas && relas[o].info % 0x1_0000_0000 in {3, 8, 1027} ==> relas[o].offset / 8 != i
      ensures Untouched(Entries(), i)
    {
    }

    /** Relocates the program for its present load address; does nothing when that is the
        address of the last call. */
    method Reloc(addr: nat)
      requires Valid() && addr + size < WORD
      modifies this`lastLoadAddr, dyn, slots
      ensures Valid() && lastLoadAddr == addr
      ensures addr == old(lastLoadAddr) ==> slots[..] == old(slots[..]) && dyn[..] == old(dyn[..])
      ensures addr != old(lastLoadAddr) ==> Settled(slots[..], Entries(), addr)
      ensures dyn[..] == DynAt(addr)
      ensures forall i :: 0 <= i < slots.Length && Untouched(Entries(), i) ==> slots[i] == old(slots[i])
      ensures addr != old(lastLoadAddr) ==> BothSettled(addr)
      ensures forall i :: 0 <= i < slots.Length && (forall o :: o in relas && relas[o].info % 0x1_0000_0000 in {3, 8, 1027} ==> relas[o].offset / 8 != i) ==>
        slots[i] == old(slots[i])
    {
      hide Relative, Kind, Apply, InImage, DistinctSlots, Settled, Untouched, EndsAt, LastOf, TableSettled, BothSettled;
      ghost var was := slots[..];
      var offs := (addr - lastLoadAddr) % WORD;
      if addr == lastLoadAddr {
        return;
      }
      ghost var last := lastLoadAddr;
      lastLoadAddr := addr;
      DynFound(last);
      var info := GetDynamicInfo(offs);
      DynMoved(last, addr, old(dyn[..]), dyn[..]);
      RelocTables(addr, offs, info);
      MoveSettles(was, Entries(), last, addr);
      forall i | 0 <= i < slots.Length && Untouched(Entries(), i)
        ensures slots[i] == was[i]
      {
        ApplyOther(was, Entries(), addr, offs, i);
      }
      TablesAreSettled(addr);
      forall i | 0 <= i < slots.Length && forall o :: o in relas && relas[o].info % 0x1_0000_0000 in {3, 8, 1027} ==> relas[o].offset / 8 != i
        ensures slots[i] == was[i]
      {
        NotNamed(i);
      }
    }

    /** The two passes over the tables. */
    method RelocTables(addr: nat, offs: nat, info: array<int>)
      requires WellLinked() && GoodEntries() && addr + size < WORD && dyn[..] == DynAt(addr)
      requires info.Length == DT_NUM && forall t :: 0 < t < DT_NUM ==> info[t] == Find(linked, t, entries)
      modifies slots
      ensures AllInImage(old(slots[..]), Entries()) && slots[..] == Apply(old(slots[..]), Entries(), addr, offs)
    {
      hide Relative, Kind, Apply, DistinctSlots;
      ghost var was := slots[..];
      ghost var a := Table(Value(DT_RELA), Value(DT_RELASZ));
      EntriesSplit(was);
      var rela := dyn[info[DT_RELA]];
      assert rela.val == Value(DT_RELA) + addr;
      DoRelocations(addr, offs, rela.val, dyn[info[DT_RELASZ]].val);
      if info[DT_PLTREL] != -1 && dyn[info[DT_PLTREL]].val == DT_RELA {
        ghost var b := Table(Value(DT_JMPREL), Value(DT_PLTRELSZ));
        assert dyn[info[DT_JMPREL]].val == Value(DT_JMPREL) + addr;
        StillInImage(was, slots[..], b);
        DoRelocations(addr, offs, dyn[info[DT_JMPREL]].val, dyn[info[DT_PLTRELSZ]].val);
        ApplyBoth(was, a, b, addr, offs);
      } else {
        assert Entries() == a;
      }
    }

    lemma EntriesSplit(was: seq<nat>)
      requires WellLinked() && GoodEntries() && |was| == slots.Length
      ensures AllInImage(was, Entries()) && AllInImage(was, Table(Value(DT_RELA), Value(DT_RELASZ)))
      ensures KnownKinds(Table(Value(DT_RELA), Value(DT_RELASZ)))
      ensures Has(DT_PLTREL) ==> AllInImage(was, Table(Value(DT_JMPREL), Value(DT_PLTRELSZ)))
      ensures Has(DT_PLTREL) ==> KnownKinds(Table(Value(DT_JMPREL), Value(DT_PLTRELSZ)))
    {
      hide Relative, Kind, DistinctSlots, Table;
      PartFine(was, Table(Value(DT_RELA), Value(DT_RELASZ)), if Has(DT_PLTREL) then Table(Value(DT_JMPREL), Value(DT_PLTRELSZ)) else []);
    }

    lemma DynFound(addr: nat)
      requires WellLinked()
      ensures EndsAt(DynAt(addr), entries) && forall t :: Find(DynAt(addr), t, entries) == Find(linked, t, entries)
    {
      forall t
        ensures Find(DynAt(addr), t, entries) == Find(linked, t, entries)
      {
        FindSame(DynAt(addr), linked, t, entries);
      }
    }

    lemma DynMoved(last: nat, addr: nat, was: seq<Dyn>, now: seq<Dyn>)
      requires entries <= |linked| && last < WORD && addr < WORD && was == DynAt(last) && |now| == |was|
      requires forall i :: 0 <= i < |now| ==> now[i] == Moved(was[i], IsTablePointer(i), (addr - last) % WORD)
      ensures now == DynAt(addr)
    {
      forall i | 0 <= i < |now|
        ensures now[i] == DynAt(addr)[i]
      {
        DistanceAdds(last, addr, linked[i].val);
      }
    }
  }

  lemma PartFine(slots: seq<nat>, a: seq<Rela>, b: seq<Rela>)
    requires AllInImage(slots, a + b) && KnownKinds(a + b)
    ensures AllInImage(slots, a) && KnownKinds(a) && AllInImage(slots, b) && KnownKinds(b)
  {
    hide Relative, Kind, InImage;
    assert forall k :: 0 <= k < |a| ==> (a + b)[k] == a[k];
    assert forall k :: 0 <= k < |b| ==> (a + b)[|a| + k] == b[k];
  }

  lemma PartSettled(slots: seq<nat>, a: seq<Rela>, b: seq<Rela>, addr: nat)
    requires Settled(slots, a + b, addr)
    ensures Settled(slots, a, addr) && Settled(slots, b, addr)
  {
    hide Relative;
    assert forall k :: 0 <= k < |a| ==> (a + b)[k] == a[k];
    assert forall k :: 0 <= k < |b| ==> (a + b)[|a| + k] == b[k];
  }

  lemma StillInImage(a: seq<nat>, b: seq<nat>, rels: seq<Rela>)
    requires AllInImage(a, rels) && |a| == |b|
    ensures AllInImage(b, rels)
  {
  }

  /** Two copies of the program, one moved many times, one moved straight to the last
      address, end up the same: in every slot, every table pointer and everything else. */
  method ManyMovesAreOne(m: Image, d: Image, addrs: seq<nat>)
    requires m.Valid() && d.Valid() && m.slots != d.slots && m.dyn != d.dyn && m != d
    requires m.lastLoadAddr == 0 == d.lastLoadAddr && m.slots[..] == d.slots[..]
    requires m.relas == d.relas && m.size == d.size && m.linked == d.linked && m.entries == d.entries
    requires addrs != [] && addrs[|addrs| - 1] != 0 && forall k :: 0 <= k < |addrs| ==> addrs[k] + m.size < WORD
    modifies m`lastLoadAddr, m.dyn, m.slots, d`lastLoadAddr, d.dyn, d.slots
    ensures m.slots[..] == d.slots[..] && m.dyn[..] == d.dyn[..]
    ensures Settled(m.slots[..], m.Entries(), addrs[|addrs| - 1])
  {
    hide Settled, Untouched, DistinctSlots, InImage, Image.BothSettled, Relative;
    ghost var was := m.slots[..];
    var i := 0;
    while i < |addrs|
      invariant 0 <= i <= |addrs| && m.Valid() && m.lastLoadAddr == if i == 0 then 0 else addrs[i - 1]
      invariant forall k :: 0 <= k < m.slots.Length && Untouched(m.Entries(), k) ==> m.slots[k] == was[k]
      invariant i > 0 && addrs[i - 1] != 0 ==> Settled(m.slots[..], m.Entries(), addrs[i - 1])
      invariant d.Valid() && d.lastLoadAddr == 0 && d.slots[..] == was
    {
      m.Reloc(addrs[i]);
      i := i + 1;
    }
    d.Reloc(addrs[|addrs| - 1]);
    assert m.Entries() == d.Entries();
    SettledSame(m.slots[..], d.slots[..], m.Entries(), addrs[|addrs| - 1], was);
  }

  lemma SettledSame(a: seq<nat>, b: seq<nat>, rels: seq<Rela>, addr: nat, was: seq<nat>)
    requires Settled(a, rels, addr) && Settled(b, rels, addr) && |a| == |b| == |was|
    requires forall i :: 0 <= i < |a| && Untouched(rels, i) ==> a[i] == was[i] && b[i] == was[i]
    ensures a == b
  {
    forall i | 0 <= i < |a|
      ensures a[i] == b[i]
    {
      if !Untouched(rels, i) {
        var k :| 0 <= k < |rels| && Relative(rels[k]) && rels[k].offset / 8 == i;
      }
    }
  }
}
