/** The record in its array of twenty-one slots. */
module FaultStore {
  import opened MachineWord
  import opened Bits
  import opened FaultRecord
  import FaultInsert
  import FaultBounds

  const PATTERNS_SIZE: nat := MAX_PATTERNS + 1

  class Store {
    const c: Config
    const patterns: array<Pattern>
    var num: nat

    ghost predicate Shape()
      reads this
    {
      ValidConfig(c) && patterns.Length == PATTERNS_SIZE && num <= PATTERNS_SIZE
    }

    ghost function Contents(): seq<Pattern>
      requires Shape()
      reads this, patterns
    {
      patterns[..num]
    }

    ghost predicate Valid()
      reads this, patterns
    {
      Shape() && FaultInsert.Good(c, Contents())
    }

    constructor (c: Config)
      requires ValidConfig(c)
      ensures this.c == c && Valid() && Contents() == [] && fresh(patterns)
    {
      this.c, patterns, num := c, new Pattern[PATTERNS_SIZE](_ => Pattern(0, 0)), 0;
    }

    /** Empties the record. */
    method Init()
      requires Shape()
      modifies this, patterns
      ensures Valid() && Contents() == []
    {
      num := 0;
      var i := 0;
      while i < PATTERNS_SIZE
        invariant 0 <= i <= PATTERNS_SIZE && num == 0
      {
        patterns[i] := Pattern(0, 0);
        i := i + 1;
      }
    }

    /** Index of the cheapest pair of neighbours, the last such. */
    method CheapestPair() returns (k: nat)
      requires Shape() && num > 1
      ensures k == FaultInsert.CheapestPair(c.mode, Contents(), num - 1)
    {
      hide Cost;
      ghost var s := Contents();
      k := 0;
      var minCost: nat := WORD - 1;
      var i := 0;
      while i < num - 1
        invariant 0 <= i <= num - 1
        invariant if i == 0 then minCost == WORD - 1
                  else k == FaultInsert.CheapestPair(c.mode, s, i) && minCost == FaultInsert.PairCost(c.mode, s, k)
      {
        var cost := CombiCost(c.mode, patterns[i], patterns[i + 1]);
        assert cost == FaultInsert.PairCost(c.mode, s, i);
        if cost <= minCost {
          minCost, k := cost, i;
        }
        i := i + 1;
      }
    }

    /** Takes out the entries at idx and idx + 1. */
    method RemovePair(idx: nat)
      requires Shape() && idx + 1 < num
      modifies this`num, patterns
      ensures Shape() && num == old(num) - 2 && Contents() == FaultInsert.RemovePair(old(Contents()), idx)
    {
      ghost var s := Contents();
      var i := idx;
      while i < num - 2
        invariant idx <= i <= num - 2 && num == |s| <= PATTERNS_SIZE
        invariant forall k :: 0 <= k < idx || i <= k < num ==> patterns[k] == s[k]
        invariant forall k :: idx <= k < i ==> patterns[k] == s[k + 2]
      {
        patterns[i] := patterns[i + 2];
        i := i + 1;
      }
      patterns[num - 1] := Pattern(0, 0);
      patterns[num - 2] := Pattern(0, 0);
      num := num - 2;
    }

    /** Puts a pattern at idx; the entries from there on move up. */
    method InsertAt(p: Pattern, idx: nat)
      requires Shape() && idx <= num < PATTERNS_SIZE
      modifies this`num, patterns
      ensures Shape() && num == old(num) + 1 && Contents() == FaultInsert.InsertAt(old(Contents()), p, idx)
    {
      ghost var s := Contents();
      var i := num;
      while i > idx
        invariant idx <= i <= num == |s| < PATTERNS_SIZE
        invariant forall k :: 0 <= k < i ==> patterns[k] == s[k]
        invariant forall k :: i < k <= num ==> patterns[k] == s[k - 1]
      {
        patterns[i] := patterns[i - 1];
        i := i - 1;
      }
      patterns[idx] := p;
      num := num + 1;
    }

    /** Puts a pattern before the first larger address. */
    method InsertSorted(p: Pattern)
      requires Shape() && num < PATTERNS_SIZE
      modifies this`num, patterns
      ensures Shape() && num == old(num) + 1 && Contents() == FaultInsert.InsertSorted(c.mode, old(Contents()), p)
    {
      hide FaultInsert.InsertAt, And;
      ghost var s := Contents();
      var q := FaultInsert.Normal(c.mode, p);
      var idx := 0;
      while idx < num && q.addr >= patterns[idx].addr
        invariant 0 <= idx <= num && FaultInsert.PlaceFor(s, q.addr) == idx + FaultInsert.PlaceFor(s[idx..], q.addr)
      {
        assert s[idx..][1..] == s[idx + 1..];
        idx := idx + 1;
      }
      InsertAt(q, idx);
    }

    /** Adds a pattern, and merges the cheapest pair when that is one too many. */
    method AddPattern(q: Pattern)
      requires Shape() && num <= MAX_PATTERNS
      modifies this`num, patterns
      ensures Shape() && Contents() == FaultInsert.ForceMerge(c.mode, FaultInsert.InsertSorted(c.mode, old(Contents()), q))
    {
      hide Cost, Combine, FaultInsert.InsertSorted, FaultInsert.RemovePair, ValidConfig;
      InsertSorted(q);
      if num > MAX_PATTERNS {
        var k := CheapestPair();
        var r := Combine(c.mode, patterns[k], patterns[k + 1]);
        RemovePair(k);
        InsertSorted(r);
      }
    }

    /** Inserts a faulty address. Nothing that was matched is lost, the address is matched
        afterwards, and the result tells whether the record changed. While the record has
        room, nothing else is matched but the word of the address. */
    method Insert(page: nat, offset: nat) returns (changed: bool)
      requires Valid() && page < WORD && offset < WORD
      modifies this`num, patterns
      ensures Valid()
      ensures var a := (page * 4096 + offset) % WORD;
        && FaultInsert.Outcome(Contents(), changed) == FaultInsert.Insert(c, old(Contents()), a)
        && (changed <==> Contents() != old(Contents()))
        && forall x: nat :: FaultInsert.Covers(c.mode, old(Contents()), x) || x == a ==> FaultInsert.Covers(c.mode, Contents(), x)
      ensures var a := (page * 4096 + offset) % WORD;
        old(num) < 20 && FaultBounds.Reportable(c, old(Contents()), a) ==>
          forall x: nat :: FaultBounds.Reportable(c, old(Contents()), x) ==>
            (FaultInsert.Covers(c.mode, Contents(), x) <==>
             FaultInsert.Covers(c.mode, old(Contents()), x) || if c.mode == BadRam then x / c.ws == a / c.ws else x == a)
    {
      hide Cost, Combine, FaultInsert.InsertSorted, FaultInsert.ForceMerge, FaultInsert.Covers, FaultInsert.Sound, FaultInsert.NewPattern, ValidConfig, FaultBounds.Reportable;
      var a := (page * 4096 + offset) % WORD;
      var q := FaultInsert.NewPattern(c, a);
      ghost var s := Contents();
      FaultInsert.InsertGood(c, s, a);
      FaultInsert.InsertReports(c, s, a);
      forall x: nat | FaultInsert.Covers(c.mode, s, x) || x == a
        ensures FaultInsert.Covers(c.mode, FaultInsert.Insert(c, s, a).s, x)
      {
        FaultInsert.InsertKeeps(c, s, a, x);
      }
      forall x: nat | num < 20 && FaultBounds.Reportable(c, s, a) && FaultBounds.Reportable(c, s, x)
        ensures FaultInsert.Covers(c.mode, FaultInsert.Insert(c, s, a).s, x) <==> FaultInsert.Covers(c.mode, s, x) || FaultBounds.IsNew(c, a, x)
      {
        FaultBounds.InsertExact(c, s, a, x);
      }
      var i := 0;
      while i < num
        invariant 0 <= i <= num && Shape() && Contents() == s
        invariant FaultInsert.FirstHit(c, s, q, 0) == FaultInsert.FirstHit(c, s, q, i)
      {
        var cost := CombiCost(c.mode, patterns[i], q);
        if cost == 0 {
          return false;
        }
        if cost == c.ws {
          patterns[i] := Combine(c.mode, patterns[i], q);
          assert Contents() == s[i := Combine(c.mode, s[i], q)];
          return true;
        }
        i := i + 1;
      }
      AddPattern(q);
      changed := true;
    }
  }
}
