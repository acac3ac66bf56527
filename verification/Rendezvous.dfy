/**
 Any number of CPUs enter each_cpu_main at once and share one atomic counter, which first counts arrivals and then,
 set back to 0 by CPU 0, releases the others. One step is one access to the counter or to the interrupt flag.
 */
module Rendezvous {

  /** Where a CPU is. Main is CPU 0 inside jpenguin_main; Waiting is another CPU in the second spin. */
  datatype Pc = Enter | Arrive | Spin | Main | Waiting | Restore | Done

  datatype State = State(pc: seq<Pc>, irq: seq<bool>, saved: seq<bool>, count: int, released: bool)

  /** `irq0` is the interrupt flag of each CPU before the call; module_main has set the counter to 0. */
  predicate Init(irq0: seq<bool>, s: State) {
    && |irq0| > 0
    && s == State(seq(|irq0|, _ => Enter), irq0, irq0, 0, false)
  }

  predicate Sized(n: nat, s: State) {
    |s.pc| == |s.irq| == |s.saved| == n && n > 0
  }

  /** One step of CPU `c`; a spinning CPU that reads the wrong value stays where it is. */
  function Next(n: nat, s: State, c: nat): (t: State)
    requires Sized(n, s) && c < n
    ensures Sized(n, t)
  {
    match s.pc[c]
    case Enter => s.(pc := s.pc[c := Arrive], saved := s.saved[c := s.irq[c]], irq := s.irq[c := false])
    case Arrive => s.(pc := s.pc[c := Spin], count := s.count + 1)
    case Spin => if s.count == n then s.(pc := s.pc[c := if c == 0 then Main else Waiting]) else s
    case Main => s.(pc := s.pc[c := Restore], count := 0, released := true)
    case Waiting => if s.count == 0 then s.(pc := s.pc[c := Restore]) else s
    case Restore => s.(pc := s.pc[c := Done], irq := s.irq[c := s.saved[c]])
    case Done => s
  }

  /** The states after each step of the schedule. */
  function Exec(n: nat, s: State, sched: seq<nat>): (t: State)
    requires Sized(n, s) && forall i | 0 <= i < |sched| :: sched[i] < n
    ensures Sized(n, t)
    decreases |sched|
  {
    if sched == [] then s else Exec(n, Next(n, s, sched[0]), sched[1..])
  }

  ghost predicate Reachable(irq0: seq<bool>, s: State) {
    exists s0: State, sched: seq<nat> ::
      Init(irq0, s0) && (forall i | 0 <= i < |sched| :: sched[i] < |irq0|) && Exec(|irq0|, s0, sched) == s
  }

  // ---- Counting ----

  predicate Arrived(p: Pc) {
    p != Enter && p != Arrive
  }

  ghost function ArrivedCount(pc: seq<Pc>): nat {
    if pc == [] then 0
    else ArrivedCount(pc[..|pc| - 1]) + (if Arrived(pc[|pc| - 1]) then 1 else 0)
  }

  lemma {:induction false} CountBound(pc: seq<Pc>)
    ensures ArrivedCount(pc) <= |pc|
    ensures ArrivedCount(pc) == |pc| <==> forall c | 0 <= c < |pc| :: Arrived(pc[c])
  {
    if pc == [] {
    } else {
      CountBound(pc[..|pc| - 1]);
    }
  }

  lemma {:induction false} CountPositive(pc: seq<Pc>, c: nat)
    requires c < |pc| && Arrived(pc[c])
    ensures ArrivedCount(pc) > 0
  {
    if c == |pc| - 1 {
    } else {
      CountPositive(pc[..|pc| - 1], c);
    }
  }

  lemma {:induction false} CountUpdate(pc: seq<Pc>, c: nat, p: Pc)
    requires c < |pc|
    ensures ArrivedCount(pc[c := p]) ==
              ArrivedCount(pc) + (if Arrived(p) then 1 else 0) - (if Arrived(pc[c]) then 1 else 0)
  {
    var n := |pc| - 1;
    if c < n {
      CountUpdate(pc[..n], c, p);
      assert pc[c := p][..n] == pc[..n][c := p];
    } else {
      assert pc[c := p][..n] == pc[..n];
    }
  }

  // ---- The invariant ----

  /** Main is CPU 0's place and Waiting is everyone else's. */
  predicate PlaceOk(c: nat, p: Pc) {
    (p == Main ==> c == 0) && (p == Waiting ==> c != 0)
  }

  /** Interrupts: untouched before Enter, off from there to Restore, put back at Done. */
  predicate FlagOk(was: bool, p: Pc, irq: bool, saved: bool) {
    && irq == (if p == Enter || p == Done then was else false)
    && (p != Enter ==> saved == was)
  }

  ghost predicate FlagsInv(irq0: seq<bool>, s: State) {
    && Sized(|irq0|, s)
    && forall c | 0 <= c < |s.pc| :: PlaceOk(c, s.pc[c]) && FlagOk(irq0[c], s.pc[c], s.irq[c], s.saved[c])
  }

  ghost predicate CountInv(s: State)
    requires |s.pc| > 0
  {
    // before the release the counter counts arrivals, and nobody is past Waiting
    && (!s.released ==> s.count == ArrivedCount(s.pc))
    && (!s.released ==> forall c | 0 <= c < |s.pc| :: s.pc[c] != Restore && s.pc[c] != Done)
    && (!s.released ==> (exists c :: 0 <= c < |s.pc| && (s.pc[c] == Main || s.pc[c] == Waiting)) ==> s.count == |s.pc|)
    // after the release it is 0 for good, and everyone has arrived
    && (s.released ==> s.count == 0 && forall c | 0 <= c < |s.pc| :: Arrived(s.pc[c]))
    && (s.released <==> s.pc[0] == Restore || s.pc[0] == Done)
  }

  ghost predicate Inv(irq0: seq<bool>, s: State) {
    FlagsInv(irq0, s) && CountInv(s)
  }

  lemma InitInv(irq0: seq<bool>, s: State)
    requires Init(irq0, s)
    ensures Inv(irq0, s)
  {
    CountNone(s.pc);
  }

  lemma {:induction false} CountNone(pc: seq<Pc>)
    requires forall c | 0 <= c < |pc| :: pc[c] == Enter
    ensures ArrivedCount(pc) == 0
  {
    if pc == [] {
    } else {
      CountNone(pc[..|pc| - 1]);
    }
  }

  lemma StepFlags(irq0: seq<bool>, s: State, c: nat)
    requires FlagsInv(irq0, s) && c < |irq0|
    ensures FlagsInv(irq0, Next(|irq0|, s, c))
  {
    assert PlaceOk(c, s.pc[c]) && FlagOk(irq0[c], s.pc[c], s.irq[c], s.saved[c]);
  }

  lemma StepCount(irq0: seq<bool>, s: State, c: nat)
    requires Inv(irq0, s) && c < |irq0|
    ensures CountInv(Next(|irq0|, s, c))
  {
    hide ArrivedCount;
    var t := Next(|irq0|, s, c);
    assert PlaceOk(c, s.pc[c]);
    CountUpdate(s.pc, c, t.pc[c]);
    CountBound(s.pc);
    assert t.pc == s.pc[c := t.pc[c]];
    if s.pc[c] == Waiting && !s.released {
      CountPositive(s.pc, c);
    }
  }

  lemma StepInv(irq0: seq<bool>, s: State, c: nat)
    requires Inv(irq0, s) && c < |irq0|
    ensures Inv(irq0, Next(|irq0|, s, c))
  {
    hide FlagsInv, CountInv, Next;
    StepSized(irq0, s);
    StepFlags(irq0, s, c);
    StepCount(irq0, s, c);
  }

  lemma StepSized(irq0: seq<bool>, s: State)
    requires FlagsInv(irq0, s)
    ensures Sized(|irq0|, s)
  {
  }

  lemma {:induction false} RunInv(irq0: seq<bool>, s: State, sched: seq<nat>)
    requires Inv(irq0, s) && forall i | 0 <= i < |sched| :: sched[i] < |irq0|
    ensures Inv(irq0, Exec(|irq0|, s, sched))
    decreases |sched|
  {
    if sched == [] {
    } else {
      StepInv(irq0, s, sched[0]);
      RunInv(irq0, Next(|irq0|, s, sched[0]), sched[1..]);
    }
  }

  lemma ReachableInv(irq0: seq<bool>, s: State)
    requires Reachable(irq0, s)
    ensures Inv(irq0, s)
  {
    var s0: State, sched: seq<nat> :|
      Init(irq0, s0) && (forall i | 0 <= i < |sched| :: sched[i] < |irq0|) && Exec(|irq0|, s0, sched) == s;
    InitInv(irq0, s0);
    RunInv(irq0, s0, sched);
  }

  // ---- Safety ----

  /** While CPU 0 is in jpenguin_main every CPU has arrived with interrupts off, and none has left. */
  lemma MainRunsAlone(irq0: seq<bool>, s: State, c: nat)
    requires Reachable(irq0, s) && s.pc[0] == Main && c < |s.pc|
    ensures !s.irq[c] && (s.pc[c] == Spin || s.pc[c] == (if c == 0 then Main else Waiting))
  {
    ReachableInv(irq0, s);
    CountBound(s.pc);
  }

  /** No CPU has its interrupts back before CPU 0's reset, and each one that finishes has exactly its own flag back. */
  lemma NoEarlyRestore(irq0: seq<bool>, s: State, c: nat)
    requires Reachable(irq0, s) && c < |s.pc|
    ensures s.pc[c] == Restore || s.pc[c] == Done ==> s.released
    ensures s.pc[c] == Done ==> s.irq[c] == irq0[c]
    ensures s.pc[c] != Enter && s.pc[c] != Done ==> !s.irq[c]
  {
    ReachableInv(irq0, s);
  }

  // ---- Who can finish ----

  predicate AllDone(s: State) {
    forall c | 0 <= c < |s.pc| :: s.pc[c] == Done
  }

  ghost predicate CanFinish(n: nat, s: State)
    requires Sized(n, s)
  {
    exists sched: seq<nat> :: (forall i | 0 <= i < |sched| :: sched[i] < n) && AllDone(Exec(n, s, sched))
  }

  /** A CPU that the reset overtook in its first spin. */
  predicate Stranded(s: State) {
    s.released && exists c :: 0 <= c < |s.pc| && s.pc[c] == Spin
  }

  /** The counter never reads `cpus` again after the reset, so a stranded CPU spins for ever. */
  lemma {:induction false} StrandedForever(irq0: seq<bool>, s: State, c: nat, sched: seq<nat>)
    requires Inv(irq0, s) && s.released && c < |s.pc| && s.pc[c] == Spin
    requires forall i | 0 <= i < |sched| :: sched[i] < |irq0|
    ensures Exec(|irq0|, s, sched).pc[c] == Spin
    decreases |sched|
  {
    if sched == [] {
    } else {
      StepInv(irq0, s, sched[0]);
      StrandedForever(irq0, Next(|irq0|, s, sched[0]), c, sched[1..]);
    }
  }

  // ---- A schedule that finishes ----

  function Rank(p: Pc): nat {
    match p
    case Enter => 5
    case Arrive => 4
    case Spin => 3
    case Main => 2
    case Waiting => 2
    case Restore => 1
    case Done => 0
  }

  ghost function TotalRank(pc: seq<Pc>): nat {
    if pc == [] then 0 else TotalRank(pc[..|pc| - 1]) + Rank(pc[|pc| - 1])
  }

  lemma {:induction false} RankUpdate(pc: seq<Pc>, c: nat, p: Pc)
    requires c < |pc|
    ensures TotalRank(pc[c := p]) == TotalRank(pc) + Rank(p) - Rank(pc[c])
  {
    var n := |pc| - 1;
    if c < n {
      RankUpdate(pc[..n], c, p);
      assert pc[c := p][..n] == pc[..n][c := p];
    } else {
      assert pc[c := p][..n] == pc[..n];
    }
  }

  /** Arrivals first, then the first spins with CPU 0 last, then the reset, then the rest. */
  lemma GoodChoice(irq0: seq<bool>, s: State) returns (c: nat)
    requires Inv(irq0, s) && !Stranded(s) && !AllDone(s)
    ensures c < |irq0| && Next(|irq0|, s, c).pc[c] != s.pc[c]
    ensures s.pc[c] == Main ==> forall d | 0 <= d < |s.pc| :: s.pc[d] != Spin
  {
    CountBound(s.pc);
    if d :| 0 <= d < |s.pc| && !Arrived(s.pc[d]) {
      c := d;
    } else if s.released {
      var d :| 0 <= d < |s.pc| && s.pc[d] != Done;
      c := d;
    } else if d :| 0 < d < |s.pc| && s.pc[d] == Spin {
      c := d;
    } else {
      c := 0;
    }
  }

  lemma GoodStep(irq0: seq<bool>, s: State) returns (c: nat)
    requires Inv(irq0, s) && !Stranded(s) && !AllDone(s)
    ensures c < |irq0|
    ensures
      var t := Next(|irq0|, s, c);
      Inv(irq0, t) && !Stranded(t) && TotalRank(t.pc) < TotalRank(s.pc)
  {
    hide ArrivedCount;
    c := GoodChoice(irq0, s);
    StepInv(irq0, s, c);
    var t := Next(|irq0|, s, c);
    RankUpdate(s.pc, c, t.pc[c]);
    assert t.pc == s.pc[c := t.pc[c]];
  }

  lemma {:induction false} Finish(irq0: seq<bool>, s: State) returns (sched: seq<nat>)
    requires Inv(irq0, s) && !Stranded(s)
    ensures forall i | 0 <= i < |sched| :: sched[i] < |irq0|
    ensures AllDone(Exec(|irq0|, s, sched))
    decreases TotalRank(s.pc)
  {
    hide Inv, Stranded, AllDone;
    InvSized(irq0, s);
    if AllDone(s) {
      sched := [];
    } else {
      var c := GoodStep(irq0, s);
      var rest := Finish(irq0, Next(|irq0|, s, c));
      sched := [c] + rest;
      assert sched[1..] == rest;
    }
  }

  /** From a reachable state all CPUs can finish exactly when the reset has left no CPU behind in its first spin. */
  lemma FinishIffNotStranded(irq0: seq<bool>, s: State)
    requires Reachable(irq0, s)
    ensures Sized(|irq0|, s) && (CanFinish(|irq0|, s) <==> !Stranded(s))
  {
    ReachableInv(irq0, s);
    hide Inv;
    assert Sized(|irq0|, s) by { InvSized(irq0, s); }
    if !Stranded(s) {
      var sched := Finish(irq0, s);
    } else {
      var c :| 0 <= c < |s.pc| && s.pc[c] == Spin;
      forall sched: seq<nat> | forall i | 0 <= i < |sched| :: sched[i] < |irq0|
        ensures !AllDone(Exec(|irq0|, s, sched))
      {
        StrandedForever(irq0, s, c, sched);
      }
    }
  }

  lemma InvSized(irq0: seq<bool>, s: State)
    requires Inv(irq0, s)
    ensures Sized(|irq0|, s)
  {
  }

  // ---- Every fair schedule finishes ----

  /** After the release, a CPU that is not stranded moves at each of its own steps, and only at those. */
  lemma OwnSteps(irq0: seq<bool>, s: State, c: nat, d: nat)
    requires Inv(irq0, s) && s.released && !Stranded(s) && c < |irq0| && d < |irq0|
    ensures
      var t := Next(|irq0|, s, c);
      && Inv(irq0, t) && t.released && !Stranded(t)
      && Rank(t.pc[d]) == if c == d && s.pc[d] != Done then Rank(s.pc[d]) - 1 else Rank(s.pc[d])
  {
    hide ArrivedCount;
    StepInv(irq0, s, c);
    assert s.pc[c] != Spin;
  }

  /** Each CPU ends up as many places further as it had turns, or done. */
  lemma {:induction false} TurnsCount(irq0: seq<bool>, s: State, sched: seq<nat>, d: nat)
    requires Inv(irq0, s) && s.released && !Stranded(s) && d < |irq0|
    requires forall i | 0 <= i < |sched| :: sched[i] < |irq0|
    ensures Sized(|irq0|, s)
    ensures Rank(Exec(|irq0|, s, sched).pc[d]) ==
              if multiset(sched)[d] < Rank(s.pc[d]) then Rank(s.pc[d]) - multiset(sched)[d] else 0
    decreases |sched|
  {
    InvSized(irq0, s);
    hide Inv, Stranded;
    if sched == [] {
    } else {
      OwnSteps(irq0, s, sched[0], d);
      TurnsCount(irq0, Next(|irq0|, s, sched[0]), sched[1..], d);
      assert sched == [sched[0]] + sched[1..];
    }
  }

  /** After a release that strands nobody, exactly the schedules that give every CPU the turns it needs finish. */
  lemma FairScheduleFinishes(irq0: seq<bool>, s: State, sched: seq<nat>)
    requires Reachable(irq0, s) && s.released && !Stranded(s)
    requires forall i | 0 <= i < |sched| :: sched[i] < |irq0|
    ensures Sized(|irq0|, s)
    ensures AllDone(Exec(|irq0|, s, sched)) <==> forall d: nat | d < |irq0| :: multiset(sched)[d] >= Rank(s.pc[d])
    ensures forall d: nat | d < |irq0| :: Rank(s.pc[d]) <= 2
  {
    hide Inv, Reachable, Stranded, Exec, Rank;
    ReachableInv(irq0, s);
    InvSized(irq0, s);
    var t := Exec(|irq0|, s, sched);
    forall d: nat | d < |irq0|
      ensures t.pc[d] == Done <==> multiset(sched)[d] >= Rank(s.pc[d])
      ensures Rank(s.pc[d]) <= 2
    {
      TurnsCount(irq0, s, sched, d);
      LateRank(irq0, s, d);
      RankDone(t.pc[d]);
    }
    assert AllDone(t) <==> forall d: nat | d < |irq0| :: t.pc[d] == Done;
  }

  lemma RankDone(p: Pc)
    ensures Rank(p) == 0 <==> p == Done
  {
  }

  lemma LateRank(irq0: seq<bool>, s: State, d: nat)
    requires Inv(irq0, s) && s.released && !Stranded(s) && d < |irq0|
    ensures Rank(s.pc[d]) <= 2
  {
    hide ArrivedCount;
    assert s.pc[d] != Spin && Arrived(s.pc[d]);
  }

  // ---- Every fair schedule gets to the release ----

  /** A schedule of `n` CPUs. */
  ghost predicate Sched(n: nat, sched: seq<nat>) {
    forall i | 0 <= i < |sched| :: sched[i] < n
  }

  /** Every CPU has at least two turns. */
  ghost predicate TwoTurns(n: nat, sched: seq<nat>) {
    forall d: nat | d < n :: multiset(sched)[d] >= 2
  }

  lemma {:induction false} ExecConcat(n: nat, s: State, a: seq<nat>, b: seq<nat>)
    requires Sized(n, s) && (forall i | 0 <= i < |a| :: a[i] < n) && (forall i | 0 <= i < |b| :: b[i] < n)
    ensures Exec(n, s, a + b) == Exec(n, Exec(n, s, a), b)
    decreases |a|
  {
    if a == [] {
      assert a + b == b;
    } else {
      assert (a + b)[1..] == a[1..] + b;
      ExecConcat(n, Next(n, s, a[0]), a[1..], b);
    }
  }

  /** Own steps that a CPU still needs to arrive. */
  function ToArrive(p: Pc): nat {
    if p == Enter then 2 else if p == Arrive then 1 else 0
  }

  /** A CPU that had the turns it needed has arrived, whatever the others did. */
  lemma {:induction false} TurnsArrive(n: nat, s: State, sched: seq<nat>, d: nat)
    requires Sized(n, s) && Sched(n, sched) && d < n && multiset(sched)[d] >= ToArrive(s.pc[d])
    ensures Arrived(Exec(n, s, sched).pc[d])
    decreases |sched|
  {
    if sched == [] {
    } else {
      var t := Next(n, s, sched[0]);
      assert sched == [sched[0]] + sched[1..];
      assert ToArrive(t.pc[d]) == if sched[0] == d && ToArrive(s.pc[d]) > 0 then ToArrive(s.pc[d]) - 1
                                  else ToArrive(s.pc[d]);
      TurnsArrive(n, t, sched[1..], d);
    }
  }

  predicate AllArrived(s: State) {
    forall c | 0 <= c < |s.pc| :: Arrived(s.pc[c])
  }

  /** Steps of CPU 0 that the release still takes once everyone has arrived. */
  function ToRelease(s: State): nat
    requires |s.pc| > 0
  {
    if s.released then 0 else if s.pc[0] == Main then 1 else 2
  }

  lemma ReleaseStep(irq0: seq<bool>, s: State, c: nat)
    requires Inv(irq0, s) && AllArrived(s) && c < |irq0|
    ensures
      var t := Next(|irq0|, s, c);
      && Inv(irq0, t) && AllArrived(t)
      && ToRelease(t) == if c == 0 && ToRelease(s) > 0 then ToRelease(s) - 1 else ToRelease(s)
  {
    hide ArrivedCount;
    StepInv(irq0, s, c);
    CountBound(s.pc);
    assert Arrived(s.pc[0]) && PlaceOk(0, s.pc[0]);
  }

  lemma {:induction false} TurnsRelease(irq0: seq<bool>, s: State, sched: seq<nat>)
    requires Inv(irq0, s) && AllArrived(s) && Sched(|irq0|, sched)
    requires Sized(|irq0|, s) && multiset(sched)[0] >= ToRelease(s)
    ensures Exec(|irq0|, s, sched).released
    decreases |sched|
  {
    hide Inv, AllArrived;
    if sched == [] {
    } else {
      ReleaseStep(irq0, s, sched[0]);
      assert sched == [sched[0]] + sched[1..];
      TurnsRelease(irq0, Next(|irq0|, s, sched[0]), sched[1..]);
    }
  }

  /** From every reachable state, two turns for every CPU and then two more for CPU 0 get to the release. */
  lemma FairScheduleReleases(irq0: seq<bool>, s: State, a: seq<nat>, b: seq<nat>)
    requires Reachable(irq0, s) && Sched(|irq0|, a) && Sched(|irq0|, b)
    requires TwoTurns(|irq0|, a) && multiset(b)[0] >= 2
    ensures Sized(|irq0|, s) && Sched(|irq0|, a + b) && Exec(|irq0|, s, a + b).released
  {
    hide Inv, Reachable, Exec, AllArrived;
    ReachableInv(irq0, s);
    InvSized(irq0, s);
    ExecConcat(|irq0|, s, a, b);
    var t := Exec(|irq0|, s, a);
    RunInv(irq0, s, a);
    assert AllArrived(t) by { TurnsArriveAll(|irq0|, s, a); }
    TurnsRelease(irq0, t, b);
  }

  lemma TurnsArriveAll(n: nat, s: State, a: seq<nat>)
    requires Sized(n, s) && Sched(n, a) && TwoTurns(n, a)
    ensures AllArrived(Exec(n, s, a))
  {
    hide Exec;
    forall d: nat | d < n
      ensures Arrived(Exec(n, s, a).pc[d])
    {
      TurnsArrive(n, s, a, d);
    }
  }

  /**
   So every fair schedule comes to an end: with two turns for every CPU, then two for CPU 0, then two for every CPU, all
   are done or the reset has stranded one.
   */
  lemma FairScheduleEnds(irq0: seq<bool>, s: State, a: seq<nat>, b: seq<nat>, c: seq<nat>)
    requires Reachable(irq0, s) && Sched(|irq0|, a) && Sched(|irq0|, b) && Sched(|irq0|, c)
    requires TwoTurns(|irq0|, a) && multiset(b)[0] >= 2 && TwoTurns(|irq0|, c)
    ensures Sized(|irq0|, s) && Sched(|irq0|, a + b + c)
    ensures
      var u := Exec(|irq0|, s, a + b + c);
      u.released && (AllDone(u) <==> !Stranded(u))
  {
    hide Inv, Exec, AllDone, Stranded;
    ReachableInv(irq0, s);
    InvSized(irq0, s);
    FairScheduleReleases(irq0, s, a, b);
    ExecConcat(|irq0|, s, a + b, c);
    var t := Exec(|irq0|, s, a + b);
    ReachableOn(irq0, s, a + b);
    ReachableInv(irq0, t);
    if Stranded(t) {
      StrandedStays(irq0, t, c);
    } else {
      FairScheduleFinishes(irq0, t, c);
      DoneNotStranded(irq0, t, c);
    }
  }

  lemma ReachableOn(irq0: seq<bool>, s: State, sched: seq<nat>)
    requires Reachable(irq0, s) && Sized(|irq0|, s) && Sched(|irq0|, sched)
    ensures Reachable(irq0, Exec(|irq0|, s, sched))
  {
    hide Exec, Init, Reachable;
    var s0, first := ReachedFrom(irq0, s);
    ExecConcat(|irq0|, s0, first, sched);
    ReachedBy(irq0, s0, first + sched, Exec(|irq0|, s, sched));
  }

  lemma ReachedFrom(irq0: seq<bool>, s: State) returns (s0: State, sched: seq<nat>)
    requires Reachable(irq0, s)
    ensures Init(irq0, s0) && Sized(|irq0|, s0) && Sched(|irq0|, sched) && Exec(|irq0|, s0, sched) == s
  {
    hide Exec;
    s0, sched :|
      Init(irq0, s0) && (forall i | 0 <= i < |sched| :: sched[i] < |irq0|) && Exec(|irq0|, s0, sched) == s;
  }

  lemma ReachedBy(irq0: seq<bool>, s0: State, sched: seq<nat>, s: State)
    requires Init(irq0, s0) && Sched(|irq0|, sched) && Exec(|irq0|, s0, sched) == s
    ensures Reachable(irq0, s)
  {
  }

  /** A CPU stranded once is stranded for good. */
  lemma StrandedStays(irq0: seq<bool>, s: State, sched: seq<nat>)
    requires Inv(irq0, s) && Stranded(s) && Sched(|irq0|, sched)
    ensures
      var u := Exec(|irq0|, s, sched);
      u.released && Stranded(u) && !AllDone(u)
  {
    hide Exec, Inv;
    InvSized(irq0, s);
    var c :| 0 <= c < |s.pc| && s.pc[c] == Spin;
    StrandedForever(irq0, s, c, sched);
    ReleasedStays(irq0, s, sched);
  }

  lemma {:induction false} ReleasedStays(irq0: seq<bool>, s: State, sched: seq<nat>)
    requires Inv(irq0, s) && s.released && Sched(|irq0|, sched)
    ensures Sized(|irq0|, s) && Exec(|irq0|, s, sched).released
    decreases |sched|
  {
    InvSized(irq0, s);
    hide Inv;
    if sched == [] {
    } else {
      StepInv(irq0, s, sched[0]);
      ReleasedStays(irq0, Next(|irq0|, s, sched[0]), sched[1..]);
    }
  }

  /** With nobody stranded at the release, two turns for every CPU are enough. */
  lemma DoneNotStranded(irq0: seq<bool>, s: State, sched: seq<nat>)
    requires Reachable(irq0, s) && s.released && !Stranded(s) && Sched(|irq0|, sched) && TwoTurns(|irq0|, sched)
    ensures Sized(|irq0|, s)
    ensures
      var u := Exec(|irq0|, s, sched);
      u.released && AllDone(u) && !Stranded(u)
  {
    hide Exec, Inv, Reachable, Rank;
    ReachableInv(irq0, s);
    FairScheduleFinishes(irq0, s, sched);
    ReleasedStays(irq0, s, sched);
  }

  // ---- The race ----

  /** The first `k` CPUs have arrived and spin, the others have not started. */
  function SpinUpTo(irq0: seq<bool>, k: nat): State
    requires k <= |irq0|
  {
    State(seq(|irq0|, i => if i < k then Spin else Enter), seq(|irq0|, i requires 0 <= i < |irq0| => i >= k && irq0[i]),
          irq0, k, false)
  }

  lemma TwoSteps(n: nat, s: State, c: nat)
    requires Sized(n, s) && c < n
    ensures Exec(n, s, [c, c]) == Next(n, Next(n, s, c), c)
  {
    var t := Next(n, s, c);
    assert [c, c][1..] == [c] && [c][1..] == [];
    assert Exec(n, t, [c]) == Exec(n, Next(n, t, c), [c][1..]);
  }

  lemma NextArrival(irq0: seq<bool>, k: nat)
    requires k < |irq0|
    ensures Exec(|irq0|, SpinUpTo(irq0, k), [k, k]) == SpinUpTo(irq0, k + 1)
  {
    hide Exec;
    var n, s, t := |irq0|, SpinUpTo(irq0, k), SpinUpTo(irq0, k + 1);
    TwoSteps(n, s, k);
    assert s.irq[k] == irq0[k] && irq0[k := irq0[k]] == irq0;
    assert s.pc[k := Arrive][k := Spin] == t.pc;
    assert s.irq[k := false] == t.irq;
  }

  lemma {:induction false} Arrivals(irq0: seq<bool>, k: nat) returns (sched: seq<nat>)
    requires k <= |irq0| && |irq0| > 0
    ensures forall i | 0 <= i < |sched| :: sched[i] < |irq0|
    ensures Exec(|irq0|, SpinUpTo(irq0, 0), sched) == SpinUpTo(irq0, k)
  {
    if k == 0 {
      sched := [];
    } else {
      var before := Arrivals(irq0, k - 1);
      sched := before + [k - 1, k - 1];
      ExecConcat(|irq0|, SpinUpTo(irq0, 0), before, [k - 1, k - 1]);
      NextArrival(irq0, k - 1);
    }
  }

  /** CPU 0 reads the full count and resets it before any other CPU has looked. */
  lemma RaceReachable(irq0: seq<bool>) returns (s: State)
    requires |irq0| >= 2
    ensures Reachable(irq0, s) && Stranded(s)
  {
    hide Reachable;
    var n := |irq0|;
    var s0, full := SpinUpTo(irq0, 0), SpinUpTo(irq0, n);
    var arrivals := Arrivals(irq0, n);
    var sched := arrivals + [0, 0];
    ExecConcat(n, s0, arrivals, [0, 0]);
    TwoSteps(n, full, 0);
    s := Next(n, Next(n, full, 0), 0);
    assert s.released && s.pc[1] == Spin;
    StartState(irq0);
    ReachedBy(irq0, s0, sched, s);
  }

  lemma StartState(irq0: seq<bool>)
    requires |irq0| > 0
    ensures Init(irq0, SpinUpTo(irq0, 0))
  {
    var s := SpinUpTo(irq0, 0);
    assert s.pc == seq(|irq0|, _ => Enter) && s.irq == irq0;
  }

  /** A CPU can be lost exactly when there are at least two. */
  lemma RaceIffMany(irq0: seq<bool>)
    ensures (exists s: State :: Reachable(irq0, s) && Stranded(s)) <==> |irq0| >= 2
  {
    if |irq0| >= 2 {
      var s := RaceReachable(irq0);
    } else {
      forall s: State | Reachable(irq0, s)
        ensures !Stranded(s)
      {
        ReachableInv(irq0, s);
      }
    }
  }
}
