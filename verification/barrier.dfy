/** The barrier as a state machine: every step is one access to shared memory, one
    signal, or a return, and any participant may take the next one. */
module Barrier {
  import opened FiniteSets

  datatype Mode = Spin | Halt

  /** n threads on the CPUs in `members`, out of m available CPUs. */
  datatype Config = Config(mode: Mode, n: int, m: nat, members: set<nat>)

  ghost predicate ValidConfig(c: Config) {
    |c.members| == c.n && forall p :: p in c.members ==> p < c.m
  }

  /** Where a CPU is in the wait. Scan(i), Mark(i) and Send(i) are the steps of the release
      loop for CPU i: look at its flag, clear it, signal it. */
  datatype Pc = Outside | Armed | Waiting | Resetting | ClearOwn | Scan(i: nat) | Mark(i: nat) | Send(i: nat)

  /** What belongs to one CPU: the program counter, the waiting flag, a pending wake-up,
      and a history: how often it called the wait, decremented the count, returned, started
      to wait, and was sent a wake-up. */
  datatype Cpu = Cpu(pc: Pc, flag: bool, wake: bool, entered: nat, arrived: nat, left: nat, halts: nat, signals: nat)

  /** The shared count, and a history: the number of completed rounds and the last CPU to
      complete one. */
  datatype State = State(count: int, round: nat, last: nat, cpus: seq<Cpu>)

  const NEW_CPU := Cpu(Outside, false, false, 0, 0, 0, 0, 0)

  function Init(c: Config): State {
    State(c.n, 0, 0, seq(c.m, _ => NEW_CPU))
  }

  // ----- steps

  /** The call: with fewer than two threads it returns at once, else it sets the flag. */
  function Enter(c: Config, s: State, p: nat): State
    requires p < |s.cpus|
  {
    var u := s.cpus[p];
    if c.n < 2 then
      s.(round := s.round + 1, cpus := s.cpus[p := u.(entered := u.entered + 1, arrived := u.arrived + 1, left := u.left + 1)])
    else
      s.(cpus := s.cpus[p := u.(pc := Armed, flag := true, entered := u.entered + 1)])
  }

  /** The atomic decrement: the last CPU to arrive goes on to release the others. */
  function Decrement(s: State, p: nat): State
    requires p < |s.cpus|
  {
    var u := s.cpus[p];
    if s.count - 1 != 0 then
      s.(count := s.count - 1, cpus := s.cpus[p := u.(pc := Waiting, arrived := u.arrived + 1, halts := u.halts + 1)])
    else
      State(s.count - 1, s.round + 1, p, s.cpus[p := u.(pc := Resetting, arrived := u.arrived + 1)])
  }

  /** What ends the wait: the flag cleared, or a wake-up. */
  predicate Released(c: Config, u: Cpu) {
    if c.mode == Spin then !u.flag else u.wake
  }

  /** A waiting CPU looks, and returns when it is released. */
  function Look(c: Config, s: State, p: nat): State
    requires p < |s.cpus|
  {
    var u := s.cpus[p];
    if Released(c, u) then s.(cpus := s.cpus[p := u.(pc := Outside, wake := false, left := u.left + 1)]) else s
  }

  function GoTo(s: State, p: nat, pc: Pc): State
    requires p < |s.cpus|
  {
    s.(cpus := s.cpus[p := s.cpus[p].(pc := pc)])
  }

  function ClearFlag(s: State, i: nat): State
    requires i < |s.cpus|
  {
    s.(cpus := s.cpus[i := s.cpus[i].(flag := false)])
  }

  function Signal(s: State, i: nat): State
    requires i < |s.cpus|
  {
    s.(cpus := s.cpus[i := s.cpus[i].(wake := true, signals := s.cpus[i].signals + 1)])
  }

  /** The release loop at CPU i. */
  function ScanFlag(c: Config, s: State, p: nat, i: nat): State
    requires p < |s.cpus|
  {
    if i >= |s.cpus| then
      s.(cpus := s.cpus[p := s.cpus[p].(pc := Outside, left := s.cpus[p].left + 1)])
    else if c.mode == Spin then
      GoTo(ClearFlag(s, i), p, Scan(i + 1))
    else
      GoTo(s, p, if s.cpus[i].flag then Mark(i) else Scan(i + 1))
  }

  /** The next step of CPU p. A CPU that does not take part does nothing. */
  function Step(c: Config, s: State, p: nat): (t: State)
    requires |s.cpus| == c.m
    ensures |t.cpus| == c.m
  {
    if p !in c.members || p >= |s.cpus| then s else
    match s.cpus[p].pc
    case Outside => Enter(c, s, p)
    case Armed => Decrement(s, p)
    case Waiting => Look(c, s, p)
    case Resetting => GoTo(s.(count := c.n), p, if c.mode == Spin then Scan(0) else ClearOwn)
    case ClearOwn => GoTo(ClearFlag(s, p), p, Scan(0))
    case Scan(i) => ScanFlag(c, s, p, i)
    case Mark(i) => if i < |s.cpus| then GoTo(ClearFlag(s, i), p, Send(i)) else s
    case Send(i) => if i < |s.cpus| then GoTo(Signal(s, i), p, Scan(i + 1)) else s
  }

  /** The state after a schedule. */
  function Run(c: Config, w: seq<nat>): (s: State)
    ensures |s.cpus| == c.m
  {
    if w == [] then Init(c) else Step(c, Run(c, w[..|w| - 1]), w[|w| - 1])
  }

  // ----- the invariant

  predicate Clearing(pc: Pc) {
    pc.Resetting? || pc.ClearOwn? || pc.Scan? || pc.Mark? || pc.Send?
  }

  /** A release loop at pc has still to come to CPU p. */
  predicate Ahead(pc: Pc, p: nat) {
    match pc
    case Resetting => true
    case ClearOwn => true
    case Scan(i) => i <= p
    case Mark(i) => i <= p
    case Send(i) => i <= p
    case _ => false
  }

  /** CPU p is waiting for the release that the last CPU is carrying out. */
  predicate Pending(s: State, p: nat) {
    s.last < |s.cpus| && s.last != p && Ahead(s.cpus[s.last].pc, p)
  }

  /** The CPU that carries out the release. */
  ghost predicate ClearerFine(c: Config, s: State, p: nat)
    requires p < |s.cpus|
  {
    var u := s.cpus[p];
    && p == s.last && u.arrived == s.round == u.left + 1 && !u.wake
    && (c.mode == Spin ==> u.pc.Resetting? || u.pc.Scan?)
    && (c.mode == Halt && !u.pc.Resetting? && !u.pc.ClearOwn? ==> !u.flag)
    && (u.pc.Mark? || u.pc.Send? ==> u.pc.i in c.members && u.pc.i != p)
  }

  ghost predicate PendingFine(s: State, p: nat)
    requires p < |s.cpus| && s.last < |s.cpus|
  {
    var u := s.cpus[p];
    && u.pc == Waiting && u.arrived == s.round == u.left + 1 && !u.wake
    && u.flag == (s.cpus[s.last].pc != Send(p))
  }

  /** A CPU that the release does not concern: before its next arrival, in the next round
      already, or free to go. */
  ghost predicate OtherFine(c: Config, s: State, p: nat)
    requires p < |s.cpus|
  {
    var u := s.cpus[p];
    match u.pc
    case Outside => u.arrived == u.left == s.round && !u.wake
    case Armed => u.arrived == u.left == s.round && u.flag && !u.wake
    case Waiting => if Released(c, u) then u.arrived == s.round == u.left + 1 && !u.flag
                    else u.arrived == s.round + 1 && u.left == s.round && u.flag && !u.wake
    case _ => false
  }

  ghost predicate MemberFine(c: Config, s: State, p: nat)
    requires p < |s.cpus|
  {
    var u := s.cpus[p];
    && u.entered == u.arrived + (if u.pc == Armed then 1 else 0)
    && if Clearing(u.pc) then ClearerFine(c, s, p)
       else if Pending(s, p) then PendingFine(s, p)
       else OtherFine(c, s, p)
  }

  /** The CPUs that have arrived in the round under way. */
  ghost function Early(c: Config, s: State): set<nat> {
    set p | p in c.members && p < |s.cpus| && s.cpus[p].arrived == s.round + 1
  }

  predicate IsResetting(s: State) {
    s.last < |s.cpus| && s.cpus[s.last].pc == Resetting
  }

  ghost predicate CountFine(c: Config, s: State) {
    && s.count == (if IsResetting(s) then 0 else c.n - |Early(c, s)|)
    && (c.n > 0 ==> |Early(c, s)| < c.n)
  }

  ghost predicate Inv(c: Config, s: State) {
    && |s.cpus| == c.m
    && (forall p :: p in c.members ==> p < c.m && MemberFine(c, s, p))
    && (forall p :: 0 <= p < c.m && p !in c.members ==> s.cpus[p] == NEW_CPU)
    && CountFine(c, s)
  }

  lemma InitInv(c: Config)
    requires ValidConfig(c)
    ensures Inv(c, Init(c))
  {
    assert Early(c, Init(c)) == {};
  }

  /** The set of early CPUs depends on the arrivals only. */
  lemma EarlySame(c: Config, s: State, t: State)
    requires |s.cpus| == |t.cpus| && s.round == t.round
    requires forall q :: 0 <= q < |s.cpus| ==> t.cpus[q].arrived == s.cpus[q].arrived
    ensures Early(c, t) == Early(c, s)
  {
  }

  lemma EnterInv(c: Config, s: State, p: nat)
    requires ValidConfig(c) && Inv(c, s) && p in c.members && s.cpus[p].pc == Outside
    ensures Inv(c, Step(c, s, p))
  {
    var t := Step(c, s, p);
    if c.n < 2 {
      OnlyMember(c.members, p);
      assert Early(c, s) == {} && Early(c, t) == {};
    } else {
      EarlySame(c, s, t);
    }
  }

  lemma OnlyMember(members: set<nat>, p: nat)
    requires p in members && |members| < 2
    ensures members == {p}
  {
    assert |members - {p}| == |members| - 1;
    assert members == {p} + (members - {p});
  }

  /** The last of the others. */
  lemma AllButOne(members: set<nat>, early: set<nat>, p: nat)
    requires early <= members && p in members && p !in early && |early| == |members| - 1
    ensures early == members - {p}
  {
    SubsetFills(early, members - {p});
  }

  lemma {:induction false} SubsetFills<T>(A: set<T>, B: set<T>)
    requires A <= B && |A| == |B|
    ensures A == B
  {
    if b :| b in B && b !in A {
      SubsetSize(A + {b}, B);
    }
  }

  lemma DecrementEarlyInv(c: Config, s: State, p: nat)
    requires ValidConfig(c) && Inv(c, s) && p in c.members && s.cpus[p].pc == Armed && s.count != 1
    ensures Inv(c, Decrement(s, p))
  {
    hide CountFine;
    DecrementEarlyCount(c, s, p);
  }

  lemma DecrementEarlyCount(c: Config, s: State, p: nat)
    requires ValidConfig(c) && Inv(c, s) && p in c.members && s.cpus[p].pc == Armed && s.count != 1
    ensures CountFine(c, Decrement(s, p))
  {
    assert MemberFine(c, s, p) && p !in Early(c, s);
    assert Early(c, Decrement(s, p)) == Early(c, s) + {p};
  }

  /** When the count reaches zero every other CPU waits in the round that ends. */
  lemma OthersArrived(c: Config, s: State, p: nat)
    requires ValidConfig(c) && Inv(c, s) && p in c.members && s.cpus[p].pc == Armed && s.count == 1
    ensures forall q :: q in c.members && q != p ==> s.cpus[q].arrived == s.round + 1
  {
    assert p !in Early(c, s);
    assert !IsResetting(s);
    AllButOne(c.members, Early(c, s), p);
    assert forall q :: q in c.members && q != p ==> q in Early(c, s);
  }

  lemma DecrementLastInv(c: Config, s: State, p: nat)
    requires ValidConfig(c) && Inv(c, s) && p in c.members && s.cpus[p].pc == Armed && s.count == 1
    ensures Inv(c, Decrement(s, p))
  {
    OthersArrived(c, s, p);
    assert Early(c, Decrement(s, p)) == {};
  }

  lemma LookInv(c: Config, s: State, p: nat)
    requires ValidConfig(c) && Inv(c, s) && p in c.members && s.cpus[p].pc == Waiting
    ensures Inv(c, Step(c, s, p))
  {
    EarlySame(c, s, Step(c, s, p));
  }

  lemma ResettingInv(c: Config, s: State, p: nat)
    requires ValidConfig(c) && Inv(c, s) && p in c.members && (s.cpus[p].pc == Resetting || s.cpus[p].pc == ClearOwn)
    ensures Inv(c, Step(c, s, p))
  {
    EarlySame(c, s, Step(c, s, p));
    if s.cpus[p].pc == Resetting {
      assert Early(c, s) == {};
    }
  }

  lemma ScanInv(c: Config, s: State, p: nat)
    requires ValidConfig(c) && Inv(c, s) && p in c.members && s.cpus[p].pc.Scan? && s.cpus[p].pc.i < c.m
    ensures Inv(c, Step(c, s, p))
  {
    EarlySame(c, s, Step(c, s, p));
  }

  lemma ScanEndInv(c: Config, s: State, p: nat)
    requires ValidConfig(c) && Inv(c, s) && p in c.members && s.cpus[p].pc.Scan? && s.cpus[p].pc.i >= c.m
    ensures Inv(c, Step(c, s, p))
  {
    EarlySame(c, s, Step(c, s, p));
  }

  lemma MarkInv(c: Config, s: State, p: nat)
    requires ValidConfig(c) && Inv(c, s) && p in c.members && s.cpus[p].pc.Mark?
    ensures Inv(c, Step(c, s, p))
  {
    EarlySame(c, s, Step(c, s, p));
  }

  lemma SendInv(c: Config, s: State, p: nat)
    requires ValidConfig(c) && Inv(c, s) && p in c.members && s.cpus[p].pc.Send?
    ensures Inv(c, Step(c, s, p))
  {
    EarlySame(c, s, Step(c, s, p));
  }

  /** Every step of every CPU keeps the invariant. */
  lemma StepInv(c: Config, s: State, p: nat)
    requires ValidConfig(c) && Inv(c, s)
    ensures Inv(c, Step(c, s, p))
  {
    hide MemberFine, CountFine, Enter, Decrement, Look, ScanFlag, GoTo;
    if p in c.members {
      match s.cpus[p].pc
      case Outside => EnterInv(c, s, p);
      case Armed => if s.count == 1 { DecrementLastInv(c, s, p); } else { DecrementEarlyInv(c, s, p); }
      case Waiting => LookInv(c, s, p);
      case Resetting => ResettingInv(c, s, p);
      case ClearOwn => ResettingInv(c, s, p);
      case Scan(i) => if i < c.m { ScanInv(c, s, p); } else { ScanEndInv(c, s, p); }
      case Mark(_) => MarkInv(c, s, p);
      case Send(_) => SendInv(c, s, p);
    }
  }

  lemma {:induction false} RunInv(c: Config, w: seq<nat>)
    requires ValidConfig(c)
    ensures Inv(c, Run(c, w))
  {
    hide Inv, Step, Init;
    if w == [] {
      InitInv(c);
    } else {
      RunInv(c, w[..|w| - 1]);
      StepInv(c, Run(c, w[..|w| - 1]), w[|w| - 1]);
    }
  }

  // ----- safety

  /** Whatever the schedule, no CPU has returned from its k-th wait before every CPU has
      arrived at its own k-th wait, and at most one CPU is releasing the others. */
  lemma Safety(c: Config, w: seq<nat>, p: nat, q: nat)
    requires ValidConfig(c) && p in c.members && q in c.members
    ensures Run(c, w).cpus[p].left <= Run(c, w).cpus[q].arrived <= Run(c, w).cpus[q].entered
    ensures Clearing(Run(c, w).cpus[p].pc) && Clearing(Run(c, w).cpus[q].pc) ==> p == q
  {
    hide CountFine, Run;
    RunInv(c, w);
    assert MemberFine(c, Run(c, w), p) && MemberFine(c, Run(c, w), q);
  }

  /** When every CPU is outside the barrier is as it was before the first round. */
  lemma AtRest(c: Config, w: seq<nat>)
    requires ValidConfig(c) && forall p :: p in c.members ==> Run(c, w).cpus[p].pc == Outside
    ensures Run(c, w).count == c.n
    ensures forall p :: p in c.members ==> Run(c, w).cpus[p].left == Run(c, w).cpus[p].arrived == Run(c, w).round
  {
    hide Run;
    RunInv(c, w);
    assert Early(c, Run(c, w)) == {};
  }

  // ----- wake-ups

  /** A halted CPU was sent one wake-up for every time it halted, but for the one it still
      waits for; a spinning CPU is sent none. */
  ghost predicate SignalFine(c: Config, u: Cpu) {
    u.signals == (if c.mode == Spin then 0 else u.halts - (if u.pc == Waiting && !u.wake then 1 else 0))
  }

  ghost predicate SignalsFine(c: Config, s: State) {
    forall p :: 0 <= p < |s.cpus| ==> SignalFine(c, s.cpus[p])
  }

  /** A step changes nothing of another CPU but its flag and, when it is signalled, its
      wake-ups. */
  lemma StepOthers(c: Config, s: State, p: nat, q: nat)
    requires |s.cpus| == c.m && q < c.m && q != p
    ensures var (u, v) := (s.cpus[q], Step(c, s, p).cpus[q]);
      && v.(flag := u.flag, wake := u.wake, signals := u.signals) == u
      && (v == u.(flag := v.flag) || (p in c.members && p < c.m && s.cpus[p].pc == Send(q) && v == u.(wake := true, signals := u.signals + 1)))
  {
  }

  /** A CPU that is signalled is halted and has no wake-up yet. */
  lemma SignalledWaits(c: Config, s: State, p: nat, q: nat)
    requires ValidConfig(c) && Inv(c, s) && p in c.members && s.cpus[p].pc == Send(q)
    ensures c.mode == Halt && q < c.m && q != p && s.cpus[q].pc == Waiting && !s.cpus[q].wake
  {
    hide CountFine;
    assert MemberFine(c, s, p);
    assert MemberFine(c, s, q);
  }

  lemma OwnSignal(c: Config, s: State, p: nat)
    requires ValidConfig(c) && Inv(c, s) && p in c.members && SignalFine(c, s.cpus[p])
    ensures SignalFine(c, Step(c, s, p).cpus[p])
  {
    hide CountFine;
    assert MemberFine(c, s, p);
  }

  lemma StepSignals(c: Config, s: State, p: nat)
    requires ValidConfig(c) && Inv(c, s) && SignalsFine(c, s)
    ensures SignalsFine(c, Step(c, s, p))
  {
    hide Inv, Step;
    InvLength(c, s);
    forall q: nat | q < c.m
      ensures SignalFine(c, Step(c, s, p).cpus[q])
    {
      if q != p {
        StepOthers(c, s, p, q);
        if p in c.members && s.cpus[p].pc == Send(q) {
          SignalledWaits(c, s, p, q);
        }
      } else if p in c.members {
        OwnSignal(c, s, p);
      } else {
        NoStep(c, s, p);
      }
    }
  }

  lemma NoStep(c: Config, s: State, p: nat)
    requires |s.cpus| == c.m && p !in c.members
    ensures Step(c, s, p) == s
  {
  }

  lemma {:induction false} RunSignals(c: Config, w: seq<nat>)
    requires ValidConfig(c)
    ensures SignalsFine(c, Run(c, w))
  {
    hide Inv, Step, SignalsFine;
    if w == [] {
      InitSignals(c);
    } else {
      RunInv(c, w[..|w| - 1]);
      RunSignals(c, w[..|w| - 1]);
      StepSignals(c, Run(c, w[..|w| - 1]), w[|w| - 1]);
    }
  }

  lemma InitSignals(c: Config)
    ensures SignalsFine(c, Init(c))
  {
  }

  /** In the halt form every wait is ended by exactly one wake-up: none is lost, none is
      sent to a CPU that does not wait. */
  lemma OneWakePerWait(c: Config, w: seq<nat>, p: nat)
    requires ValidConfig(c) && c.mode == Halt && p < c.m
    ensures var u := Run(c, w).cpus[p];
      u.signals + (if u.pc == Waiting && !u.wake then 1 else 0) == u.halts && (u.wake ==> u.pc == Waiting)
  {
    hide CountFine, Run;
    RunInv(c, w);
    RunSignals(c, w);
    if p in c.members {
      assert MemberFine(c, Run(c, w), p);
    }
  }

  // ----- progress

  /** How many steps a CPU still has to take in its k-th wait. */
  function Rank(m: nat, k: nat, u: Cpu): nat {
    if u.left >= k then 0 else
    match u.pc
    case Outside => 0
    case Armed => 3 * m + 4
    case Waiting => 1
    case Resetting => 3 * m + 3
    case ClearOwn => 3 * m + 2
    case Scan(i) => if i >= m then 1 else 3 * (m - i) + 1
    case Mark(i) => if i >= m then 0 else 3 * (m - i)
    case Send(i) => if i >= m then 0 else 3 * (m - i) - 1
  }

  function Measure(m: nat, k: nat, cpus: seq<Cpu>): nat {
    if cpus == [] then 0 else Rank(m, k, cpus[0]) + Measure(m, k, cpus[1..])
  }

  lemma {:induction false} MeasureOrder(m: nat, k: nat, a: seq<Cpu>, b: seq<Cpu>, p: nat)
    requires |a| == |b| && forall q :: 0 <= q < |a| ==> Rank(m, k, b[q]) <= Rank(m, k, a[q])
    ensures Measure(m, k, b) <= Measure(m, k, a)
    ensures p < |a| && Rank(m, k, b[p]) < Rank(m, k, a[p]) ==> Measure(m, k, b) < Measure(m, k, a)
  {
    hide Rank;
    if a != [] {
      MeasureOrder(m, k, a[1..], b[1..], if p > 0 then p - 1 else |a|);
    }
  }

  ghost predicate AllEntered(c: Config, s: State, k: nat) {
    forall p :: p in c.members ==> p < |s.cpus| && s.cpus[p].entered >= k
  }

  ghost predicate AllLeft(c: Config, s: State, k: nat) {
    forall p :: p in c.members ==> p < |s.cpus| && s.cpus[p].left >= k
  }

  /** CPU p has not left its k-th wait, and can take a step in it. */
  ghost predicate Helpful(c: Config, s: State, k: nat, p: nat) {
    && p in c.members && p < |s.cpus| && s.cpus[p].left < k
    && s.cpus[p].pc != Outside && (s.cpus[p].pc == Waiting ==> Released(c, s.cpus[p]))
  }

  lemma OwnRank(c: Config, s: State, k: nat, p: nat)
    requires ValidConfig(c) && Inv(c, s) && p in c.members && s.cpus[p].entered >= k
    ensures var (u, v) := (s.cpus[p], Step(c, s, p).cpus[p]);
      v.entered >= k && Rank(c.m, k, v) <= Rank(c.m, k, u) && (Helpful(c, s, k, p) ==> Rank(c.m, k, v) < Rank(c.m, k, u))
  {
    hide CountFine;
    assert MemberFine(c, s, p);
  }

  lemma StepRanks(c: Config, s: State, k: nat, p: nat)
    requires ValidConfig(c) && Inv(c, s) && AllEntered(c, s, k)
    ensures AllEntered(c, Step(c, s, p), k)
    ensures forall q :: 0 <= q < c.m ==> Rank(c.m, k, Step(c, s, p).cpus[q]) <= Rank(c.m, k, s.cpus[q])
    ensures Helpful(c, s, k, p) ==> Rank(c.m, k, Step(c, s, p).cpus[p]) < Rank(c.m, k, s.cpus[p])
  {
    hide Inv, Step;
    InvLength(c, s);
    if p in c.members {
      OwnRank(c, s, k, p);
    } else {
      NoStep(c, s, p);
    }
    forall q: nat | q < c.m && q != p
      ensures Rank(c.m, k, Step(c, s, p).cpus[q]) == Rank(c.m, k, s.cpus[q]) && Step(c, s, p).cpus[q].entered == s.cpus[q].entered
    {
      StepOthers(c, s, p, q);
    }
  }

  /** No step adds to what is left to do, and a helpful one takes away from it. */
  lemma StepMeasure(c: Config, s: State, k: nat, p: nat)
    requires ValidConfig(c) && Inv(c, s) && AllEntered(c, s, k)
    ensures AllEntered(c, Step(c, s, p), k)
    ensures Measure(c.m, k, Step(c, s, p).cpus) <= Measure(c.m, k, s.cpus)
    ensures Helpful(c, s, k, p) ==> Measure(c.m, k, Step(c, s, p).cpus) < Measure(c.m, k, s.cpus)
  {
    hide Inv, Step, Rank;
    InvLength(c, s);
    StepRanks(c, s, k, p);
    MeasureOrder(c.m, k, s.cpus, Step(c, s, p).cpus, p);
  }

  lemma InvLength(c: Config, s: State)
    requires Inv(c, s)
    ensures |s.cpus| == c.m && forall p :: p in c.members ==> p < c.m
  {
  }

  /** There is never a deadlock: once all have entered their k-th wait, as long as one of
      them has not left it some CPU can take a step in it. */
  lemma SomeHelpful(c: Config, s: State, k: nat) returns (q: nat)
    requires ValidConfig(c) && Inv(c, s) && AllEntered(c, s, k) && !AllLeft(c, s, k)
    ensures Helpful(c, s, k, q)
  {
    var p :| p in c.members && s.cpus[p].left < k;
    q := p;
    if s.cpus[p].pc == Waiting && !Released(c, s.cpus[p]) {
      if Pending(s, p) {
        assert s.last in c.members;
        q := s.last;
      } else {
        q := NotEarly(c, s);
        assert MemberFine(c, s, q);
      }
    }
  }

  lemma NotEarly(c: Config, s: State) returns (q: nat)
    requires ValidConfig(c) && Inv(c, s) && c.n > 0
    ensures q in c.members && s.cpus[q].arrived != s.round + 1
  {
    var early := Early(c, s);
    assert c.members * early == early;
    assert |c.members - early| > 0;
    q :| q in c.members - early;
  }

  /** A CPU that can take a step keeps that ability whatever the others do. */
  lemma HelpfulStays(c: Config, s: State, k: nat, p: nat, q: nat)
    requires |s.cpus| == c.m && Helpful(c, s, k, q) && p != q
    ensures Helpful(c, Step(c, s, p), k, q)
  {
  }

  // ----- infinite runs

  ghost predicate IsRun(c: Config, b: nat -> State, who: nat -> nat) {
    b(0) == Init(c) && forall t: nat :: |b(t).cpus| == c.m && b(t + 1) == Step(c, b(t), who(t))
  }

  /** At time t CPU p takes its step, or is outside the barrier. */
  ghost predicate Turn(b: nat -> State, who: nat -> nat, p: nat, t: nat) {
    who(t) == p || (p < |b(t).cpus| && b(t).cpus[p].pc == Outside)
  }

  /** A CPU inside the wait goes on executing. */
  ghost predicate Fair(c: Config, b: nat -> State, who: nat -> nat) {
    forall p, t: nat :: p in c.members ==> TurnComes(b, who, p, t)
  }

  ghost predicate TurnComes(b: nat -> State, who: nat -> nat, p: nat, t: nat) {
    exists u: nat :: u >= t && Turn(b, who, p, u)
  }

  lemma {:induction false} AlongRun(c: Config, b: nat -> State, who: nat -> nat, t: nat)
    requires ValidConfig(c) && IsRun(c, b, who)
    ensures Inv(c, b(t))
  {
    hide Inv, Step, Init;
    if t == 0 {
      InitInv(c);
    } else {
      AlongRun(c, b, who, t - 1);
      assert b(t - 1 + 1) == Step(c, b(t - 1), who(t - 1));
      StepInv(c, b(t - 1), who(t - 1));
    }
  }

  /** A helpful CPU takes its step in the end, and something is done. */
  lemma {:induction false} HelpComes(c: Config, b: nat -> State, who: nat -> nat, k: nat, q: nat, t: nat, u: nat) returns (v: nat)
    requires ValidConfig(c) && IsRun(c, b, who) && AllEntered(c, b(t), k)
    requires Helpful(c, b(t), k, q) && t <= u && Turn(b, who, q, u)
    ensures v > t && AllEntered(c, b(v), k) && Measure(c.m, k, b(v).cpus) < Measure(c.m, k, b(t).cpus)
    decreases u - t
  {
    hide Inv, Step, Init, Measure, AllEntered;
    AlongRun(c, b, who, t);
    InvLength(c, b(t));
    StepMeasure(c, b(t), k, who(t));
    assert b(t + 1) == Step(c, b(t), who(t));
    if who(t) == q {
      v := t + 1;
    } else {
      HelpfulStays(c, b(t), k, who(t), q);
      v := HelpComes(c, b, who, k, q, t + 1, u);
    }
  }

  /** Liveness: in every fair run, once all have entered their k-th wait there comes a time
      at which all have left it. */
  lemma {:induction false} AllReleased(c: Config, b: nat -> State, who: nat -> nat, k: nat, t: nat) returns (v: nat)
    requires ValidConfig(c) && IsRun(c, b, who) && Fair(c, b, who) && AllEntered(c, b(t), k)
    ensures v >= t && AllLeft(c, b(v), k)
    decreases Measure(c.m, k, b(t).cpus)
  {
    hide Inv, Step, Init, Measure, AllEntered, AllLeft, IsRun;
    AlongRun(c, b, who, t);
    if AllLeft(c, b(t), k) {
      v := t;
    } else {
      var q := SomeHelpful(c, b(t), k);
      assert TurnComes(b, who, q, t);
      var u: nat :| u >= t && Turn(b, who, q, u);
      v := HelpComes(c, b, who, k, q, t, u);
      v := AllReleased(c, b, who, k, v);
    }
  }

  // ----- the barrier in memory

  /** The barrier structure, the CPUs' flags, and where each CPU is. */
  class Machine {
    const mode: Mode
    const cpus: array<Cpu>
    var numThreads: int
    var count: int
    ghost var members: set<nat>
    ghost var round: nat
    ghost var last: nat

    constructor (mode: Mode, m: nat)
      ensures fresh(cpus) && cpus.Length == m && this.mode == mode && Quiet()
    {
      this.mode, cpus, numThreads, count := mode, new Cpu[m](_ => NEW_CPU), 0, 0;
    }

    ghost function Threads(): Config
      reads this
    {
      Config(mode, numThreads, cpus.Length, members)
    }

    ghost function View(): State
      reads this, cpus
    {
      State(count, round, last, cpus[..])
    }

    /** No CPU is in the wait. */
    ghost predicate Quiet()
      reads this, cpus
    {
      forall p :: 0 <= p < cpus.Length ==> cpus[p].pc == Outside && !cpus[p].wake
    }

    ghost predicate Valid()
      reads this, cpus
    {
      ValidConfig(Threads()) && Inv(Threads(), View())
    }

    /** Prepares the barrier for n threads; the history starts again. */
    method Reset(n: int, ghost participants: set<nat>)
      requires Quiet() && |participants| == n && forall p :: p in participants ==> p < cpus.Length
      modifies this, cpus
      ensures Threads() == Config(mode, n, cpus.Length, participants)
      ensures View() == Init(Threads()) && Valid()
    {
      numThreads, count := n, n;
      members, round, last := participants, 0, 0;
      var i := 0;
      while i < cpus.Length
        invariant 0 <= i <= cpus.Length && numThreads == count == n && members == participants && round == last == 0
        invariant forall p :: 0 <= p < i ==> cpus[p] == NEW_CPU
        invariant Quiet()
      {
        cpus[i] := cpus[i].(flag := false, entered := 0, arrived := 0, left := 0, halts := 0, signals := 0);
        i := i + 1;
      }
      assert View().cpus == Init(Threads()).cpus;
      InitInv(Threads());
    }

    /** The next step of CPU p, in place. */
    method Advance(p: nat)
      requires Valid() && p in members
      modifies this`count, this`round, this`last, cpus
      ensures View() == Step(Threads(), old(View()), p) && Valid()
    {
      hide MemberFine, CountFine;
      StepInv(Threads(), View(), p);
      var u := cpus[p];
      match u.pc {
        case Outside =>
          if numThreads < 2 {
            cpus[p] := u.(entered := u.entered + 1, arrived := u.arrived + 1, left := u.left + 1);
            round := round + 1;
          } else {
            cpus[p] := u.(pc := Armed, flag := true, entered := u.entered + 1);
          }
        case Armed =>
          count := count - 1;
          if count != 0 {
            cpus[p] := u.(pc := Waiting, arrived := u.arrived + 1, halts := u.halts + 1);
          } else {
            cpus[p] := u.(pc := Resetting, arrived := u.arrived + 1);
            round, last := round + 1, p;
          }
        case Waiting =>
          if Released(Config(mode, numThreads, cpus.Length, {}), u) {
            cpus[p] := u.(pc := Outside, wake := false, left := u.left + 1);
          }
        case Resetting =>
          count := numThreads;
          cpus[p] := u.(pc := if mode == Spin then Scan(0) else ClearOwn);
        case ClearOwn =>
          cpus[p] := u.(flag := false, pc := Scan(0));
        case Scan(i) =>
          if i >= cpus.Length {
            cpus[p] := u.(pc := Outside, left := u.left + 1);
          } else if mode == Spin {
            cpus[i] := cpus[i].(flag := false);
            cpus[p] := cpus[p].(pc := Scan(i + 1));
          } else {
            cpus[p] := u.(pc := if cpus[i].flag then Mark(i) else Scan(i + 1));
          }
        case Mark(i) =>
          if i < cpus.Length {
            cpus[i] := cpus[i].(flag := false);
            cpus[p] := cpus[p].(pc := Send(i));
          }
        case Send(i) =>
          if i < cpus.Length {
            cpus[i] := cpus[i].(wake := true, signals := cpus[i].signals + 1);
            cpus[p] := cpus[p].(pc := Scan(i + 1));
          }
      }
    }

    /** The CPUs take their steps in the order of a schedule. */
    method Execute(w: seq<nat>)
      requires View() == Init(Threads()) && Valid() && forall i :: 0 <= i < |w| ==> w[i] in members
      modifies this`count, this`round, this`last, cpus
      ensures View() == Run(Threads(), w) && Valid()
      ensures forall p, q :: p in members && q in members ==> cpus[p].left <= cpus[q].arrived
    {
      hide Inv, Step, Init;
      var i := 0;
      while i < |w|
        invariant 0 <= i <= |w| && Valid() && View() == Run(Threads(), w[..i])
      {
        Advance(w[i]);
        assert w[..i + 1][..i] == w[..i];
        i := i + 1;
      }
      assert w[..i] == w;
      forall p, q | p in members && q in members
        ensures cpus[p].left <= cpus[q].arrived
      {
        Safety(Threads(), w, p, q);
        InvLength(Threads(), View());
      }
    }
  }
}
