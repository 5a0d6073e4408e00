/**
 * Progress of the migration protocol: from which states a CPU can still leave it under some
 * schedule, and that every CPU always can as long as no running count looks busy over an empty
 * run queue.
 */
module MigrationProgress {
  import opened TaskMigration

  // A schedule that the CPUs can follow from s, and where it leads.
  ghost predicate Legal(s: State, steps: seq<Step>)
    decreases |steps|
  {
    steps == [] || (|s.cpus| < U32 && Enabled(s, steps[0]) && Legal(Apply(s, steps[0]), steps[1..]))
  }

  ghost function After(s: State, steps: seq<Step>): State
    requires Legal(s, steps)
    decreases |steps|
  {
    if steps == [] then s else After(Apply(s, steps[0]), steps[1..])
  }

  // The CPUs of w spin with interrupts off, each for a busy slot of another one of them.
  ghost predicate Trapped(s: State, w: set<int>) {
    forall d :: d in w ==> 0 <= d < |s.cpus| && SpinsIn(s, w, d)
  }

  ghost predicate SpinsIn(s: State, w: set<int>, d: int)
    requires 0 <= d < |s.cpus|
  {
    var k := s.cpus[d].control;
    k.Waiting? && k.target in w && 0 <= k.target < |s.cpus| && Active(s.cpus[k.target].slot)
  }

  // A step of another CPU leaves the control point of d alone, and its slot if that is busy.
  lemma OthersLeave(s: State, step: Step, d: int)
    requires |s.cpus| < U32 && Enabled(s, step) && 0 <= d < |s.cpus| && step.c != d
    ensures |Apply(s, step).cpus| == |s.cpus| && Apply(s, step).cpus[d].control == s.cpus[d].control
    ensures Active(s.cpus[d].slot) ==> Apply(s, step).cpus[d].slot == s.cpus[d].slot
  {
    hide OwnMove, Enqueued, Dequeued, Released;
  }

  // No step of any CPU ever opens a trap.
  lemma TrapLasts(s: State, step: Step, w: set<int>)
    requires |s.cpus| < U32 && Enabled(s, step) && Trapped(s, w)
    ensures |Apply(s, step).cpus| == |s.cpus| && Trapped(Apply(s, step), w)
  {
    hide Apply;
    if step.c in w {
      assert SpinsIn(s, w, step.c);
      SpinStays(s, step);
    } else {
      hide Enabled, Active;
      SameCount(s, step);
      forall d | d in w
        ensures 0 <= d < |Apply(s, step).cpus| && SpinsIn(Apply(s, step), w, d)
      {
        assert SpinsIn(s, w, d);
        OthersLeave(s, step, d);
        OthersLeave(s, step, s.cpus[d].control.target);
      }
    }
  }

  lemma SpinStays(s: State, step: Step)
    requires |s.cpus| < U32 && Enabled(s, step) && s.cpus[step.c].control.Waiting?
    requires var t := s.cpus[step.c].control.target; 0 <= t < |s.cpus| && Active(s.cpus[t].slot)
    ensures Apply(s, step) == s
  {
    assert step.Poll?;
    assert s.cpus[step.c := s.cpus[step.c]] == s.cpus;
  }

  lemma {:induction false} TrappedForever(s: State, steps: seq<Step>, w: set<int>)
    requires Trapped(s, w) && Legal(s, steps)
    ensures |After(s, steps).cpus| == |s.cpus| && Trapped(After(s, steps), w)
    decreases |steps|
  {
    hide Trapped, Apply, Enabled;
    if steps != [] {
      TrapLasts(s, steps[0], w);
      TrappedForever(Apply(s, steps[0]), steps[1..], w);
    }
  }

  lemma {:induction false} ScheduleInv(s: State, steps: seq<Step>)
    requires Inv(s) && Legal(s, steps)
    ensures Inv(After(s, steps)) && |After(s, steps).cpus| == |s.cpus|
    decreases |steps|
  {
    hide Inv, Apply, Enabled;
    if steps != [] {
      SameCount(s, steps[0]);
      StepInv(s, steps[0]);
      ScheduleInv(Apply(s, steps[0]), steps[1..]);
    }
  }

  lemma {:induction false} Joined(s: State, first: seq<Step>, second: seq<Step>)
    requires Legal(s, first) && Legal(After(s, first), second)
    ensures Legal(s, first + second) && After(s, first + second) == After(After(s, first), second)
    decreases |first|
  {
    hide Apply, Enabled;
    if first == [] {
      assert first + second == second;
    } else {
      Joined(Apply(s, first[0]), first[1..], second);
      assert (first + second)[1..] == first[1..] + second;
    }
  }

  // One step in front of a schedule.
  lemma Prefixed(s: State, step: Step, rest: seq<Step>)
    requires |s.cpus| < U32 && Enabled(s, step) && Legal(Apply(s, step), rest)
    ensures Legal(s, [step] + rest) && After(s, [step] + rest) == After(Apply(s, step), rest)
  {
    hide Apply, Enabled;
    assert ([step] + rest)[1..] == rest;
  }

  // No CPU of v takes a step.
  ghost predicate Avoids(steps: seq<Step>, v: set<int>) {
    forall i :: 0 <= i < |steps| ==> steps[i].c !in v
  }

  lemma {:induction false} AvoidedStays(s: State, steps: seq<Step>, v: set<int>, d: int)
    requires Legal(s, steps) && Avoids(steps, v) && d in v && 0 <= d < |s.cpus|
    ensures |After(s, steps).cpus| == |s.cpus| && After(s, steps).cpus[d].control == s.cpus[d].control
    decreases |steps|
  {
    hide Apply, Enabled;
    if steps != [] {
      OthersLeave(s, steps[0], d);
      AvoidedStays(Apply(s, steps[0]), steps[1..], v, d);
    }
  }

  // Only CPU c takes steps.
  ghost predicate Only(steps: seq<Step>, c: int) {
    forall i :: 0 <= i < |steps| ==> steps[i].c == c
  }

  // No task ends.
  ghost predicate NoExits(steps: seq<Step>) {
    forall i :: 0 <= i < |steps| ==> !steps[i].Exit?
  }

  // No count looks busy over an empty queue; with one CPU there is nobody to look.
  ghost predicate Steady(s: State) {
    |s.cpus| < 2 || forall c :: 0 <= c < |s.cpus| ==> Sober(s.cpus[c])
  }

  lemma StepSteady(s: State, step: Step)
    requires |s.cpus| < U32 && Enabled(s, step) && !step.Exit?
    ensures |Apply(s, step).cpus| == |s.cpus|
    ensures forall c :: 0 <= c < |s.cpus| ==> (Sober(Apply(s, step).cpus[c]) <==> Sober(s.cpus[c]))
    ensures Steady(Apply(s, step)) <==> Steady(s)
  {
    hide Apply, Enabled, Drift;
    SameCount(s, step);
    forall c | 0 <= c < |s.cpus|
      ensures Sober(Apply(s, step).cpus[c]) <==> Sober(s.cpus[c])
    {
      DriftStep(s, step, c);
    }
  }

  lemma {:induction false} ScheduleSteady(s: State, steps: seq<Step>)
    requires Legal(s, steps) && NoExits(steps)
    ensures Steady(After(s, steps)) <==> Steady(s)
    decreases |steps|
  {
    hide Apply, Enabled, Steady;
    if steps != [] {
      StepSteady(s, steps[0]);
      ScheduleSteady(Apply(s, steps[0]), steps[1..]);
    }
  }

  // The handler has used a task that is not there, or is bound to.
  predicate Wrecked(x: Cpu) {
    match x.control
    case Faulted(_, _) => true
    case Loaded(_) => Share(x.nrRunning % U32) > |x.queue|
    case Taking(_, whole, take, _) => take > |whole|
    case _ => false
  }

  lemma SteadyServes(s: State, c: int)
    requires Inv(s) && Steady(s) && 0 <= c < |s.cpus| && Serving(s.cpus[c].control)
    ensures !Wrecked(s.cpus[c])
  {
    var x := s.cpus[c];
    assert LocalOk(x, c, |s.cpus|) && SlotOk(s.cpus, c);
    CountLow(x);
    hide Share, Drift, Kept, Due;
    SoberShare(|x.queue|, Drift(x));
    if x.control.Taking? {
      SoberShare(|x.control.whole|, Drift(x));
    }
  }

  // How far a CPU is from the end of its drain.
  ghost function DrainWork(x: Cpu): nat {
    2 * |x.migration| + if x.control.InHand? then 1 else 0
  }

  // A CPU that drains gets outside by its own steps.
  lemma {:induction false} DrainOut(s: State, c: int) returns (steps: seq<Step>)
    requires Inv(s) && 0 <= c < |s.cpus| && Drains(s.cpus[c])
    ensures Legal(s, steps) && Only(steps, c) && NoExits(steps)
    ensures c < |After(s, steps).cpus| && After(s, steps).cpus[c].control.Outside?
    decreases DrainWork(s.cpus[c])
  {
    hide Inv;
    var x := s.cpus[c];
    var step := if x.control.InHand? then EnqueueMigrated(c) else if x.migration != [] then PopMigration(c) else Leave(c);
    SmallWorld(s);
    StepInv(s, step);
    var rest := [];
    if step.Leave? {
      assert Legal(Apply(s, step), rest);
    } else {
      rest := DrainOut(Apply(s, step), c);
    }
    Prefixed(s, step, rest);
    steps := [step] + rest;
  }

  lemma SmallWorld(s: State)
    requires Inv(s)
    ensures |s.cpus| < U32
  {}

  // How far a serving CPU is from its release: the phase, and what is left of it.
  ghost function ServePhase(k: Control): nat {
    match k
    case Loaded(_) => 4
    case Taking(_, _, _, _) => 3
    case Pushing(_, _, _, _) => 2
    case Releasing(_, _, _) => 1
    case _ => 0
  }

  ghost function ServeWork(k: Control): nat {
    match k
    case Taking(_, _, take, tasks) => if |tasks| <= take then take - |tasks| else 0
    case Pushing(_, _, _, tasks) => |tasks|
    case _ => 0
  }

  ghost function ServeStep(c: int, k: Control): Step
    requires Serving(k) && !k.Faulted?
  {
    match k
    case Loaded(_) => Measure(c)
    case Taking(_, _, take, tasks) => if |tasks| < take then TakeTail(c) else StartPush(c)
    case Pushing(_, _, _, tasks) => if tasks != [] then PushOne(c) else FinishPush(c)
    case Releasing(_, _, _) => Release(c)
  }

  // One step of the handler brings it closer to its release, which frees the slot.
  lemma ServeProgress(s: State, c: int)
    requires Inv(s) && 0 <= c < |s.cpus| && Serving(s.cpus[c].control) && !Wrecked(s.cpus[c])
    ensures var step := ServeStep(c, s.cpus[c].control);
      && |s.cpus| < U32 && Enabled(s, step) && |Apply(s, step).cpus| == |s.cpus|
      && var k, x := s.cpus[c].control, Apply(s, step).cpus[c];
      && (k.Releasing? ==> x.control.Outside? && x.slot == FREE)
      && (!k.Releasing? ==> Serving(x.control) && !Wrecked(x))
      && (ServePhase(x.control) < ServePhase(k)
          || (ServePhase(x.control) == ServePhase(k) && ServeWork(x.control) < ServeWork(k)))
  {
    assert LocalOk(s.cpus[c], c, |s.cpus|) && SlotOk(s.cpus, c);
  }

  lemma {:induction false} ServeOut(s: State, c: int) returns (steps: seq<Step>)
    requires Inv(s) && 0 <= c < |s.cpus| && Serving(s.cpus[c].control) && !Wrecked(s.cpus[c])
    ensures Legal(s, steps) && Only(steps, c) && NoExits(steps) && c < |After(s, steps).cpus|
    ensures After(s, steps).cpus[c].control.Outside? && After(s, steps).cpus[c].slot == FREE
    decreases ServePhase(s.cpus[c].control), ServeWork(s.cpus[c].control)
  {
    hide Inv, Apply, Enabled;
    var step := ServeStep(c, s.cpus[c].control);
    ServeProgress(s, c);
    StepInv(s, step);
    var rest := [];
    if step.Release? {
      assert Legal(Apply(s, step), rest);
    } else {
      rest := ServeOut(Apply(s, step), c);
    }
    Prefixed(s, step, rest);
    steps := [step] + rest;
  }

  // A CPU outside the protocol can serve its slot, if that is busy.
  lemma FreeSlot(s: State, t: int) returns (steps: seq<Step>)
    requires Inv(s) && Steady(s) && 0 <= t < |s.cpus| && s.cpus[t].control.Outside?
    ensures Legal(s, steps) && Only(steps, t) && NoExits(steps)
    ensures t < |After(s, steps).cpus| && !Active(After(s, steps).cpus[t].slot)
  {
    hide Inv;
    steps := [];
    if Active(s.cpus[t].slot) {
      SmallWorld(s);
      StepInv(s, Interrupt(t));
      StepSteady(s, Interrupt(t));
      SteadyServes(Apply(s, Interrupt(t)), t);
      var rest := ServeOut(Apply(s, Interrupt(t)), t);
      Prefixed(s, Interrupt(t), rest);
      steps := [Interrupt(t)] + rest;
    }
  }

  // A CPU that waits for a slot that is no longer busy gets outside.
  lemma PollOut(s: State, d: int) returns (steps: seq<Step>)
    requires Inv(s) && 0 <= d < |s.cpus| && s.cpus[d].control.Waiting?
    requires var t := s.cpus[d].control.target; 0 <= t < |s.cpus| && !Active(s.cpus[t].slot)
    ensures Legal(s, steps) && Only(steps, d) && NoExits(steps)
    ensures d < |After(s, steps).cpus| && After(s, steps).cpus[d].control.Outside?
  {
    hide Inv;
    SmallWorld(s);
    StepInv(s, Poll(d));
    var rest := DrainOut(Apply(s, Poll(d)), d);
    Prefixed(s, Poll(d), rest);
    steps := [Poll(d)] + rest;
  }

  // No CPU is on its way to a claim.
  ghost predicate Settled(s: State) {
    forall d :: 0 <= d < |s.cpus| ==> !Claiming(s.cpus[d].control)
  }

  predicate Claiming(k: Control) {
    k.Scanning? || k.Choosing? || k.Retrying?
  }

  ghost predicate InTrap(s: State, c: int) {
    exists w :: Trapped(s, w) && c in w
  }

  predicate IsCpu(s: State, d: int) {
    0 <= d < |s.cpus|
  }

  ghost function AllCpus(s: State): set<int> {
    set d | 0 <= d < |s.cpus| && IsCpu(s, d)
  }

  // The CPUs of behind spin, each for one of them or for d.
  ghost predicate Behind(s: State, behind: set<int>, d: int) {
    && d !in behind && behind <= AllCpus(s)
    && forall v :: v in behind ==> 0 <= v < |s.cpus| && SpinsIn(s, behind + {d}, v)
  }

  // Along the chain of targets: a CPU gets outside once the CPU it waits for has got outside and
  // has served its slot. A chain that closes is a trap.
  lemma {:induction false} GetOut(s: State, d: int, behind: set<int>, c: int) returns (steps: seq<Step>)
    requires Inv(s) && Steady(s) && Settled(s) && 0 <= d < |s.cpus| && Behind(s, behind, d)
    requires c in behind + {d} && !InTrap(s, c)
    ensures Legal(s, steps) && Avoids(steps, behind) && NoExits(steps)
    ensures d < |After(s, steps).cpus| && After(s, steps).cpus[d].control.Outside?
    decreases AllCpus(s) - behind
  {
    hide Inv, Legal, After, InTrap, Steady, Wrecked;
    var k := s.cpus[d].control;
    if k.Outside? {
      steps := [];
      EmptySchedule(s);
    } else if Drains(s.cpus[d]) {
      steps := DrainOut(s, d);
    } else if Serving(k) {
      SteadyServes(s, d);
      steps := ServeOut(s, d);
    } else {
      assert k.Waiting?;
      TargetInRange(s, d);
      if !Active(s.cpus[k.target].slot) {
        steps := PollOut(s, d);
      } else {
        ChainOpen(s, d, behind, c);
        steps := BehindTarget(s, d, behind, c);
      }
    }
  }

  lemma EmptySchedule(s: State)
    ensures Legal(s, []) && After(s, []) == s
  {}

  lemma TargetInRange(s: State, d: int)
    requires Inv(s) && 0 <= d < |s.cpus| && s.cpus[d].control.Waiting?
    ensures 0 <= s.cpus[d].control.target < |s.cpus| && s.cpus[d].control.target != d
  {
    assert LocalOk(s.cpus[d], d, |s.cpus|);
  }

  lemma ChainCloses(s: State, d: int, behind: set<int>)
    requires 0 <= d < |s.cpus| && Behind(s, behind, d) && SpinsIn(s, behind + {d}, d)
    ensures Trapped(s, behind + {d})
  {}

  // The target of d is not behind d, and d is behind its target.
  lemma ChainOpen(s: State, d: int, behind: set<int>, c: int)
    requires 0 <= d < |s.cpus| && Behind(s, behind, d) && c in behind + {d} && !InTrap(s, c) && s.cpus[d].control.Waiting?
    requires var t := s.cpus[d].control.target; 0 <= t < |s.cpus| && t != d && Active(s.cpus[t].slot)
    ensures Behind(s, behind + {d}, s.cpus[d].control.target)
  {
    hide Behind, Trapped, Active;
    if s.cpus[d].control.target in behind + {d} {
      ChainCloses(s, d, behind);
      assert false;
    }
    ChainGrows(s, d, behind);
  }

  lemma ChainGrows(s: State, d: int, behind: set<int>)
    requires 0 <= d < |s.cpus| && Behind(s, behind, d) && s.cpus[d].control.Waiting?
    requires var t := s.cpus[d].control.target; 0 <= t < |s.cpus| && t !in behind + {d} && Active(s.cpus[t].slot)
    ensures Behind(s, behind + {d}, s.cpus[d].control.target)
  {
    hide Active;
    var t, w := s.cpus[d].control.target, behind + {d};
    forall v | v in w
      ensures 0 <= v < |s.cpus| && SpinsIn(s, w + {t}, v)
    {
      assert v != d ==> SpinsIn(s, w, v);
    }
  }

  lemma {:induction false} BehindTarget(s: State, d: int, behind: set<int>, c: int) returns (steps: seq<Step>)
    requires Inv(s) && Steady(s) && Settled(s) && 0 <= d < |s.cpus| && s.cpus[d].control.Waiting? && Behind(s, behind, d)
    requires var t := s.cpus[d].control.target; 0 <= t < |s.cpus| && Behind(s, behind + {d}, t)
    requires c in behind + {d} && !InTrap(s, c)
    ensures Legal(s, steps) && Avoids(steps, behind) && NoExits(steps)
    ensures d < |After(s, steps).cpus| && After(s, steps).cpus[d].control.Outside?
    decreases AllCpus(s) - behind, 0
  {
    hide Inv, Legal, After, InTrap, Settled, SpinsIn, Steady;
    var t := s.cpus[d].control.target;
    var first := GetOut(s, t, behind + {d}, c);
    var s1 := After(s, first);
    ScheduleInv(s, first);
    ScheduleSteady(s, first);
    AvoidedStays(s, first, behind + {d}, d);
    var second := FreeSlot(s1, t);
    var s2 := After(s1, second);
    ScheduleInv(s1, second);
    AvoidedStays(s1, second, {d}, d);
    var third := PollOut(s2, d);
    Joined(s1, second, third);
    Joined(s, first, second + third);
    steps := first + (second + third);
  }

  // CPU c gets outside under some schedule.
  ghost predicate CanLeave(s: State, c: int) {
    exists steps :: Legal(s, steps) && IsCpu(After(s, steps), c) && After(s, steps).cpus[c].control.Outside?
  }

  // A CPU in a trap cannot leave.
  lemma TrappedStays(s: State, c: int)
    requires InTrap(s, c)
    ensures !CanLeave(s, c)
  {
    hide Legal, After;
    var w :| Trapped(s, w) && c in w;
    forall steps | Legal(s, steps)
      ensures IsCpu(After(s, steps), c) && After(s, steps).cpus[c].control.Waiting?
    {
      TrappedForever(s, steps, w);
      assert SpinsIn(After(s, steps), w, c);
    }
  }

  // With steady counts and no claim pending, a CPU can still leave exactly when it is in no trap.
  lemma LeavesIff(s: State, c: int)
    requires Inv(s) && Steady(s) && Settled(s) && IsCpu(s, c)
    ensures CanLeave(s, c) <==> !InTrap(s, c)
  {
    hide Inv, Legal, After, Settled, Steady, InTrap;
    if !InTrap(s, c) {
      var steps := GetOut(s, c, {}, c);
      assert CanLeave(s, c);
    } else {
      TrappedStays(s, c);
    }
  }

  // Neither can one whose handler is wrecked; any other handler ends.
  lemma WreckedStays(s: State, c: int)
    requires Inv(s) && IsCpu(s, c) && Wrecked(s.cpus[c])
    ensures !CanLeave(s, c)
  {
    hide Inv, Legal, After, Wrecked;
    forall steps | Legal(s, steps)
      ensures IsCpu(After(s, steps), c) && !After(s, steps).cpus[c].control.Outside?
    {
      WreckedForever(s, steps, c);
      WreckedInside(After(s, steps).cpus[c]);
    }
  }

  lemma WreckedInside(x: Cpu)
    requires Wrecked(x)
    ensures Serving(x.control)
  {}

  lemma {:induction false} WreckedForever(s: State, steps: seq<Step>, c: int)
    requires Inv(s) && IsCpu(s, c) && Wrecked(s.cpus[c]) && Legal(s, steps)
    ensures IsCpu(After(s, steps), c) && Wrecked(After(s, steps).cpus[c])
    decreases |steps|
  {
    hide Inv, Apply, Enabled, Wrecked;
    if steps != [] {
      WreckedStep(s, steps[0], c);
      StepInv(s, steps[0]);
      WreckedForever(Apply(s, steps[0]), steps[1..], c);
    }
  }

  lemma WreckedStep(s: State, step: Step, c: int)
    requires Inv(s) && |s.cpus| < U32 && Enabled(s, step) && IsCpu(s, c) && Wrecked(s.cpus[c])
    ensures |Apply(s, step).cpus| == |s.cpus| && Wrecked(Apply(s, step).cpus[c])
  {
    SameCount(s, step);
    if step.c == c {
      hide Enqueued;
      assert LocalOk(s.cpus[c], c, |s.cpus|);
    } else {
      hide Inv, OwnMove, Enqueued, Dequeued, Released, Share;
    }
  }

  lemma ServesIff(s: State, c: int)
    requires Inv(s) && IsCpu(s, c) && Serving(s.cpus[c].control)
    ensures CanLeave(s, c) <==> !Wrecked(s.cpus[c])
  {
    hide Inv, Legal, After, Wrecked;
    if Wrecked(s.cpus[c]) {
      WreckedStays(s, c);
    } else {
      var steps := ServeOut(s, c);
      assert IsCpu(After(s, steps), c);
    }
  }

  // ---------------------------------------------------------------- settling the claims

  // The busiest CPU of a scan exists.
  lemma {:induction false} PickBusiest(count: seq<int>, local: int, n: nat, besides: int) returns (best: int)
    requires n <= |count| < NONE
    ensures Busiest(count, local, n, best, besides)
  {
    best := NONE;
    if n > 0 {
      var before := PickBusiest(count, local, n - 1, besides);
      var i := n - 1;
      if i != besides && Candidate(count, local, i) && (before == NONE || count[i] % U32 > count[before] % U32) {
        best := i;
      } else {
        best := before;
      }
    }
  }

  // How far a CPU is from having made its claim.
  ghost function Undecided(k: Control, n: int): nat {
    match k
    case Scanning(counts) => 3 + if |counts| <= n then n - |counts| else 0
    case Choosing(_, _) => 2
    case Retrying(_) => 1
    case _ => 0
  }

  lemma DecideStep(s: State, i: nat) returns (step: Step)
    requires Inv(s) && i < |s.cpus| && Claiming(s.cpus[i].control)
    ensures |s.cpus| < U32 && Enabled(s, step) && step.c == i && !step.Exit? && |Apply(s, step).cpus| == |s.cpus|
    ensures Undecided(Apply(s, step).cpus[i].control, |s.cpus|) < Undecided(s.cpus[i].control, |s.cpus|)
  {
    var k := s.cpus[i].control;
    assert LocalOk(s.cpus[i], i, |s.cpus|);
    hide Inv, LocalOk;
    if k.Scanning? && |k.counts| < |s.cpus| {
      step := ReadCount(i);
    } else if k.Scanning? {
      var best := PickBusiest(k.counts, i, |s.cpus|, -1);
      var second := PickBusiest(k.counts, i, |s.cpus|, best);
      step := Choose(i, best, second);
    } else if k.Choosing? {
      step := ClaimBest(i);
    } else {
      step := ClaimSecond(i);
    }
    SameCount(s, step);
  }

  // A CPU on its way to a claim makes it, with its second choice when the first is taken.
  lemma {:induction false} Decide(s: State, i: nat) returns (steps: seq<Step>)
    requires Inv(s) && i < |s.cpus|
    ensures Legal(s, steps) && Only(steps, i) && NoExits(steps)
    ensures IsCpu(After(s, steps), i) && !Claiming(After(s, steps).cpus[i].control)
    ensures !Claiming(s.cpus[i].control) ==> steps == []
    decreases Undecided(s.cpus[i].control, |s.cpus|)
  {
    hide Inv, Apply, Enabled;
    if !Claiming(s.cpus[i].control) {
      steps := [];
    } else {
      hide Undecided;
      var step := DecideStep(s, i);
      StepInv(s, step);
      var rest := Decide(Apply(s, step), i);
      Prefixed(s, step, rest);
      steps := [step] + rest;
    }
  }

  // The claims of the CPUs from i on are made, in turn.
  lemma {:induction false} SettleFrom(s: State, i: nat) returns (steps: seq<Step>)
    requires Inv(s) && i <= |s.cpus| && forall d :: 0 <= d < i ==> !Claiming(s.cpus[d].control)
    ensures Legal(s, steps) && NoExits(steps) && |After(s, steps).cpus| == |s.cpus| && Settled(After(s, steps))
    decreases |s.cpus| - i
  {
    hide Inv, Legal, After;
    if i == |s.cpus| {
      steps := [];
      EmptySchedule(s);
    } else {
      var first := Decide(s, i);
      ScheduleInv(s, first);
      var s1 := After(s, first);
      forall d | 0 <= d < |s.cpus| && d != i
        ensures s1.cpus[d].control == s.cpus[d].control
      {
        AvoidedStays(s, first, {d}, d);
      }
      var rest := SettleFrom(s1, i + 1);
      Joined(s, first, rest);
      steps := first + rest;
    }
  }

  lemma LeavesLater(s: State, steps: seq<Step>, c: int)
    requires Legal(s, steps) && CanLeave(After(s, steps), c)
    ensures CanLeave(s, c)
  {
    hide Legal, After;
    var s1 := After(s, steps);
    var rest :| Legal(s1, rest) && IsCpu(After(s1, rest), c) && After(s1, rest).cpus[c].control.Outside?;
    Joined(s, steps, rest);
    assert Legal(s, steps + rest);
  }

  // ---------------------------------------------------------------- the order of entry

  // CPU c, at k, has found t busy and may claim it or has.
  predicate Found(k: Control, c: int, t: int) {
    match k
    case Scanning(counts) => Candidate(counts, c, t)
    case Choosing(best, second) => t == best || t == second
    case Retrying(second) => t == second
    case Waiting(target) => t == target
    case _ => false
  }

  // When each CPU entered: one that another has found busy, and that is in the protocol by now,
  // entered later than that other.
  ghost predicate Ordered(s: State, entry: seq<nat>, clock: nat) {
    && |entry| == |s.cpus|
    && (forall c :: IsCpu(s, c) && Early(s.cpus[c].control) ==> entry[c] < clock)
    && (forall c, t :: IsCpu(s, c) && IsCpu(s, t) && Before(s.cpus, c, t) ==> entry[c] < entry[t])
  }

  predicate Before(cpus: seq<Cpu>, c: int, t: int)
    requires 0 <= c < |cpus| && 0 <= t < |cpus|
  {
    Early(cpus[c].control) && Early(cpus[t].control) && Found(cpus[c].control, c, t)
  }

  ghost predicate Orderly(s: State) {
    exists entry, clock :: Ordered(s, entry, clock)
  }

  // A CPU that has not entered is not found busy with an empty queue: only a nonempty queue counts
  // above two, and a CPU in the protocol has an empty one.
  lemma FoundBefore(s: State, step: Step, t: int)
    requires Inv(s) && Steady(s) && Enabled(s, step) && !step.StartScan? && IsCpu(s, t) && t != step.c
    requires Found(Apply(s, step).cpus[step.c].control, step.c, t) && Early(s.cpus[t].control)
    ensures Found(s.cpus[step.c].control, step.c, t)
  {
    if step.ReadCount? {
      var k := s.cpus[step.c].control;
      assert LocalOk(s.cpus[t], t, |s.cpus|);
      if t == |k.counts| {
        SoberEmpty(s.cpus[t]);
      }
    } else {
      hide Inv, Steady;
      FoundKept(s, step, t);
    }
  }

  lemma FoundKept(s: State, step: Step, t: int)
    requires |s.cpus| < U32 && Enabled(s, step) && !step.StartScan? && !step.ReadCount? && IsCpu(s, t)
    requires step.c < |Apply(s, step).cpus| && Found(Apply(s, step).cpus[step.c].control, step.c, t)
    ensures Found(s.cpus[step.c].control, step.c, t)
  {
    hide Dequeued, Exchange, Share;
    if Traffic(step) {
      OutsideAfter(s, step);
    }
  }

  lemma OutsideAfter(s: State, step: Step)
    requires |s.cpus| < U32 && Enabled(s, step) && Traffic(step)
    ensures |Apply(s, step).cpus| == |s.cpus| && Apply(s, step).cpus[step.c].control.Outside?
  {}

  lemma SoberEmpty(x: Cpu)
    requires x.nrRunning < U64 && x.queue == [] && Sober(x)
    ensures x.nrRunning % U32 <= 2
  {
    CountLow(x);
  }

  // Only the start of a scan takes a CPU into the protocol.
  lemma EarlyBefore(s: State, step: Step, c: int)
    requires |s.cpus| < U32 && Enabled(s, step) && !step.StartScan? && IsCpu(s, c)
    ensures |Apply(s, step).cpus| == |s.cpus| && (Early(Apply(s, step).cpus[c].control) ==> Early(s.cpus[c].control))
    ensures step.c != c ==> Apply(s, step).cpus[c].control == s.cpus[c].control
  {
    SameCount(s, step);
    if step.c != c {
      OthersLeave(s, step, c);
    } else {
      hide Enqueued, Dequeued, Drift, Share;
    }
  }

  lemma NotSelf(s: State, c: int)
    requires Inv(s) && IsCpu(s, c)
    ensures !Found(s.cpus[c].control, c, c)
  {
    assert LocalOk(s.cpus[c], c, |s.cpus|);
  }

  lemma StepOrdered(s: State, step: Step, entry: seq<nat>, clock: nat)
    requires Inv(s) && Steady(s) && Enabled(s, step) && Ordered(s, entry, clock)
    ensures Orderly(Apply(s, step))
  {
    SmallWorld(s);
    StepInv(s, step);
    var s1 := Apply(s, step);
    if step.StartScan? {
      EntersLast(s, step.c, s1, entry, clock);
    } else {
      hide Apply, Enabled, Inv, Steady;
      SameCount(s, step);
      forall c | IsCpu(s, c)
        ensures Early(s1.cpus[c].control) ==> Early(s.cpus[c].control)
        ensures c != step.c ==> s1.cpus[c].control == s.cpus[c].control
      {
        EarlyBefore(s, step, c);
      }
      forall c, t | IsCpu(s1, c) && IsCpu(s1, t) && Before(s1.cpus, c, t)
        ensures entry[c] < entry[t]
      {
        if c == step.c {
          if t == c {
            NotSelf(s1, c);
          } else {
            FoundBefore(s, step, t);
          }
        }
        assert Before(s.cpus, c, t);
      }
      assert Ordered(s1, entry, clock);
    }
  }

  // A CPU that starts its scan has found nobody yet, and is later than all who found it.
  lemma EntersLast(s: State, c: int, s1: State, entry: seq<nat>, clock: nat)
    requires Ordered(s, entry, clock) && IsCpu(s, c)
    requires s1.cpus == s.cpus[c := s.cpus[c].(control := Scanning([]))]
    ensures Orderly(s1)
  {
    var entry' := entry[c := clock];
    forall d, t | IsCpu(s1, d) && IsCpu(s1, t) && Before(s1.cpus, d, t)
      ensures entry'[d] < entry'[t]
    {
      if t != c {
        assert Before(s.cpus, d, t);
      }
    }
    assert Ordered(s1, entry', clock + 1);
  }

  // Climbing the targets of a trap leads to later and later CPUs, without end.
  lemma {:induction false} Climb(s: State, w: set<int>, entry: seq<nat>, clock: nat, d: int)
    requires Ordered(s, entry, clock) && Trapped(s, w) && d in w
    ensures false
    decreases clock - entry[d]
  {
    assert SpinsIn(s, w, d);
    var t := s.cpus[d].control.target;
    assert SpinsIn(s, w, t);
    assert Before(s.cpus, d, t);
    Climb(s, w, entry, clock, t);
  }

  lemma NoTrap(s: State, w: set<int>)
    requires Orderly(s) && Trapped(s, w)
    ensures w == {}
  {
    hide Ordered, Trapped;
    var entry, clock :| Ordered(s, entry, clock);
    forall d | d in w
      ensures false
    {
      Climb(s, w, entry, clock, d);
    }
  }

  lemma {:induction false} ScheduleOrderly(s: State, steps: seq<Step>)
    requires Inv(s) && Steady(s) && Orderly(s) && Legal(s, steps) && NoExits(steps)
    ensures Orderly(After(s, steps))
    decreases |steps|
  {
    hide Inv, Apply, Enabled, Steady, Ordered;
    if steps != [] {
      var entry, clock :| Ordered(s, entry, clock);
      StepOrdered(s, steps[0], entry, clock);
      StepInv(s, steps[0]);
      StepSteady(s, steps[0]);
      ScheduleOrderly(Apply(s, steps[0]), steps[1..]);
    }
  }

  // Where the counts are steady and the entries in order, every CPU can leave.
  lemma OrderlyLeaves(s: State, c: int)
    requires Inv(s) && Steady(s) && Orderly(s) && IsCpu(s, c)
    ensures CanLeave(s, c) && !InTrap(s, c)
  {
    hide Inv, Steady, Orderly, Legal, After, CanLeave, Trapped, Settled;
    var steps := SettleFrom(s, 0);
    var s1 := After(s, steps);
    ScheduleInv(s, steps);
    ScheduleSteady(s, steps);
    ScheduleOrderly(s, steps);
    NotInTrap(s1, c);
    LeavesIff(s1, c);
    LeavesLater(s, steps, c);
    NotInTrap(s, c);
  }

  lemma NotInTrap(s: State, c: int)
    requires Orderly(s)
    ensures !InTrap(s, c)
  {
    hide Orderly, Trapped;
    forall w | Trapped(s, w)
      ensures c !in w
    {
      NoTrap(s, w);
    }
  }

  // ---------------------------------------------------------------- whole runs

  // Nobody is in the protocol.
  ghost predicate Quiet(s: State) {
    forall c :: 0 <= c < |s.cpus| ==> s.cpus[c].control.Outside?
  }

  lemma QuietOrderly(s: State)
    requires Quiet(s)
    ensures Orderly(s)
  {
    assert Ordered(s, seq(|s.cpus|, _ => 0), 0);
  }

  lemma {:induction false} RunOrderly(run: seq<State>, steps: seq<Step>, i: nat)
    requires Run(run, steps) && i < |run| && forall j :: 0 <= j < i ==> Steady(run[j])
    ensures Orderly(run[i])
  {
    hide Inv, Enabled, Apply, Steady, Everything, Ordered;
    if i == 0 {
      QuietOrderly(run[0]);
    } else {
      RunOrderly(run, steps, i - 1);
      RunInv(run, steps, i - 1);
      var entry, clock :| Ordered(run[i - 1], entry, clock);
      StepOrdered(run[i - 1], steps[i - 1], entry, clock);
      assert run[i - 1 + 1] == Apply(run[i - 1], steps[i - 1]);
    }
  }

  // In every run with steady counts, every CPU can leave from every state, and there are no traps.
  lemma EveryoneLeaves(run: seq<State>, steps: seq<Step>, i: nat, c: int)
    requires Run(run, steps) && i < |run| && IsCpu(run[i], c) && forall j :: 0 <= j <= i ==> Steady(run[j])
    ensures CanLeave(run[i], c) && !InTrap(run[i], c)
  {
    hide Inv, Steady, Orderly, CanLeave, InTrap, Everything, Run;
    RunInv(run, steps, i);
    RunOrderly(run, steps, i);
    OrderlyLeaves(run[i], c);
  }

  lemma {:induction false} SteadyUntilExit(run: seq<State>, steps: seq<Step>, i: nat)
    requires Run(run, steps) && i < |run| && forall j :: 0 <= j < i ==> !steps[j].Exit?
    ensures Steady(run[i])
  {
    hide Init, Enabled, Apply, Steady, Inv;
    if i == 0 {
      InitSteady(run[0]);
    } else {
      SteadyUntilExit(run, steps, i - 1);
      StepSteady(run[i - 1], steps[i - 1]);
      assert run[i - 1 + 1] == Apply(run[i - 1], steps[i - 1]);
    }
  }

  // In particular, as long as no task has ended.
  lemma EveryoneLeavesUntilExit(run: seq<State>, steps: seq<Step>, i: nat, c: int)
    requires Run(run, steps) && i < |run| && IsCpu(run[i], c) && forall j :: 0 <= j < i ==> !steps[j].Exit?
    ensures CanLeave(run[i], c) && !InTrap(run[i], c)
  {
    hide Run, Steady, CanLeave, InTrap;
    forall j | 0 <= j <= i
      ensures Steady(run[j])
    {
      SteadyUntilExit(run, steps, j);
    }
    EveryoneLeaves(run, steps, i, c);
  }

  lemma InitSteady(s: State)
    requires Init(s)
    ensures Steady(s)
  {}

  // ---------------------------------------------------------------- counts that look busy

  // No continuation without the end of a task takes away any CPU's way out.
  ghost predicate Safe(s: State) {
    forall steps, c :: Legal(s, steps) && NoExits(steps) && IsCpu(After(s, steps), c) ==> CanLeave(After(s, steps), c)
  }

  // From a state with nobody in the protocol, every CPU will always be able to leave exactly when
  // no count looks busy over an empty queue.
  lemma SafeIff(s: State)
    requires Inv(s) && Quiet(s)
    ensures Safe(s) <==> Steady(s)
  {
    hide Inv, Legal, After, Steady, Quiet, CanLeave;
    if Steady(s) {
      QuietOrderly(s);
      hide Orderly;
      forall steps, c | Legal(s, steps) && NoExits(steps) && IsCpu(After(s, steps), c)
        ensures CanLeave(After(s, steps), c)
      {
        ScheduleInv(s, steps);
        ScheduleSteady(s, steps);
        ScheduleOrderly(s, steps);
        OrderlyLeaves(After(s, steps), c);
      }
    } else {
      var steps, z := WreckingRun(s);
      ScheduleInv(s, steps);
      WreckedStays(After(s, steps), z);
    }
  }

  predicate Resting(x: Cpu) {
    x.control.Outside? && x.current.Idle? && x.queue == []
  }

  ghost function RestWork(x: Cpu): nat {
    2 * |x.queue| + if x.current.Running? then 1 else 0
  }

  lemma RestStep(s: State, v: int) returns (step: Step)
    requires |s.cpus| < U32 && IsCpu(s, v) && s.cpus[v].control.Outside? && !Resting(s.cpus[v])
    ensures Enabled(s, step) && step.c == v && !step.Exit? && Traffic(step) && |Apply(s, step).cpus| == |s.cpus|
    ensures Apply(s, step).cpus[v].control.Outside? && RestWork(Apply(s, step).cpus[v]) < RestWork(s.cpus[v])
  {
    step := if s.cpus[v].current.Running? then Sleep(v) else PickNext(v);
  }

  // A CPU runs its tasks until they sleep, and its queue is empty.
  lemma {:induction false} Rest(s: State, v: int) returns (steps: seq<Step>)
    requires |s.cpus| < U32 && IsCpu(s, v) && s.cpus[v].control.Outside?
    ensures Legal(s, steps) && Only(steps, v) && NoExits(steps) && AllTraffic(steps)
    ensures IsCpu(After(s, steps), v) && Resting(After(s, steps).cpus[v])
    decreases RestWork(s.cpus[v])
  {
    if Resting(s.cpus[v]) {
      steps := [];
    } else {
      hide Apply, Enabled, RestWork;
      var step := RestStep(s, v);
      var rest := Rest(Apply(s, step), v);
      Prefixed(s, step, rest);
      steps := [step] + rest;
    }
  }

  // Outside the protocol a CPU keeps to itself.
  lemma {:induction false} RestKeeps(s: State, steps: seq<Step>, v: int, c: int)
    requires Legal(s, steps) && Only(steps, v) && IsCpu(s, v) && IsCpu(s, c) && c != v && AllTraffic(steps)
    ensures |After(s, steps).cpus| == |s.cpus| && After(s, steps).cpus[c] == s.cpus[c]
    decreases |steps|
  {
    if steps != [] {
      hide Enqueued, Dequeued;
      RestKeeps(Apply(s, steps[0]), steps[1..], v, c);
    }
  }

  ghost predicate AllTraffic(steps: seq<Step>) {
    forall i :: 0 <= i < |steps| ==> Traffic(steps[i])
  }

  lemma {:induction false} RestAll(s: State, i: nat) returns (steps: seq<Step>)
    requires Inv(s) && i <= |s.cpus| && Quiet(s) && forall c :: 0 <= c < i ==> Resting(s.cpus[c])
    ensures Legal(s, steps) && NoExits(steps) && |After(s, steps).cpus| == |s.cpus|
    ensures forall c :: 0 <= c < |s.cpus| ==> Resting(After(s, steps).cpus[c])
    decreases |s.cpus| - i
  {
    hide Inv, Legal, After;
    SmallWorld(s);
    if i == |s.cpus| {
      steps := [];
      EmptySchedule(s);
    } else {
      var first := Rest(s, i);
      ScheduleInv(s, first);
      var s1 := After(s, first);
      forall c | 0 <= c < |s.cpus| && c != i
        ensures s1.cpus[c] == s.cpus[c]
      {
        RestKeeps(s, first, i, c);
      }
      var rest := RestAll(s1, i + 1);
      Joined(s, first, rest);
      steps := first + rest;
    }
  }

  function CountsOf(cpus: seq<Cpu>): (r: seq<int>)
    ensures |r| == |cpus|
  {
    seq(|cpus|, i requires 0 <= i < |cpus| => cpus[i].nrRunning)
  }

  // The scan reads all counts while nobody else moves.
  lemma {:induction false} ReadAll(s: State, y: int, m: nat) returns (steps: seq<Step>)
    requires |s.cpus| < U32 && IsCpu(s, y) && m <= |s.cpus| && s.cpus[y].control == Scanning(CountsOf(s.cpus)[..m])
    ensures Legal(s, steps) && NoExits(steps)
    ensures After(s, steps) == s.(cpus := s.cpus[y := s.cpus[y].(control := Scanning(CountsOf(s.cpus)))])
    decreases |s.cpus| - m
  {
    var counts := CountsOf(s.cpus);
    if m == |s.cpus| {
      steps := [];
      assert counts[..m] == counts;
      assert s.cpus[y := s.cpus[y].(control := Scanning(counts))] == s.cpus;
    } else {
      var s1 := Apply(s, ReadCount(y));
      assert counts[..m] + [counts[m]] == counts[..m + 1];
      assert s1.cpus == s.cpus[y := s.cpus[y].(control := Scanning(counts[..m + 1]))];
      assert CountsOf(s1.cpus) == counts;
      var rest := ReadAll(s1, y, m + 1);
      Prefixed(s, ReadCount(y), rest);
      steps := [ReadCount(y)] + rest;
    }
  }

  lemma ScanFinds(s: State, y: int, x: int) returns (best: int, second: int)
    requires Inv(s) && IsCpu(s, x) && IsCpu(s, y) && x != y && s.cpus[x].queue == [] && !Sober(s.cpus[x])
    ensures Chosen(CountsOf(s.cpus), |s.cpus|, Choose(y, best, second))
    ensures IsCpu(s, best) && best != y && s.cpus[best].nrRunning % U32 > 2
  {
    var counts := CountsOf(s.cpus);
    CountAt(s, x);
    best := PickBusiest(counts, y, |s.cpus|, -1);
    second := PickBusiest(counts, y, |s.cpus|, best);
    assert Candidate(counts, y, x);
  }

  lemma ScanRun(s: State, y: int) returns (steps: seq<Step>)
    requires |s.cpus| < U32 && IsCpu(s, y) && Resting(s.cpus[y])
    ensures Legal(s, steps) && NoExits(steps) && After(s, steps) == Scanner(s, y, Scanning(CountsOf(s.cpus)))
  {
    var counts := CountsOf(s.cpus);
    var sa := Apply(s, StartScan(y));
    assert sa == Scanner(s, y, Scanning([]));
    assert CountsOf(sa.cpus) == counts && counts[..0] == [];
    hide Legal, After, CountsOf;
    var loads := ReadAll(sa, y, 0);
    assert sa.cpus[y := sa.cpus[y].(control := Scanning(counts))] == s.cpus[y := s.cpus[y].(control := Scanning(counts))];
    Prefixed(s, StartScan(y), loads);
    steps := [StartScan(y)] + loads;
  }

  // A resting CPU finds one whose count looks busy, claims it, and its handler is wrecked.
  lemma ClaimWrecks(s: State, y: int, x: int) returns (steps: seq<Step>, z: int)
    requires Inv(s) && (forall c :: 0 <= c < |s.cpus| ==> Resting(s.cpus[c]))
    requires IsCpu(s, x) && IsCpu(s, y) && x != y && !Sober(s.cpus[x])
    ensures Legal(s, steps) && NoExits(steps) && IsCpu(After(s, steps), z) && Wrecked(After(s, steps).cpus[z])
  {
    hide Inv, Sober, Legal, After, Chosen, CountsOf, Wrecked;
    SmallWorld(s);
    var second;
    z, second := ScanFinds(s, y, x);
    FreeWhenQuiet(s, z);
    var first := ScanRun(s, y);
    var rest := ClaimAndServe(Scanner(s, y, Scanning(CountsOf(s.cpus))), y, z, second);
    Joined(s, first, rest);
    steps := first + rest;
  }

  function Scanner(s: State, y: int, k: Control): State
    requires IsCpu(s, y)
  {
    s.(cpus := s.cpus[y := s.cpus[y].(control := k)])
  }

  lemma CountAt(s: State, c: int)
    requires Inv(s) && IsCpu(s, c) && s.cpus[c].queue == []
    ensures s.cpus[c].nrRunning % U32 > 2 <==> !Sober(s.cpus[c])
  {
    assert LocalOk(s.cpus[c], c, |s.cpus|);
    CountLow(s.cpus[c]);
  }

  lemma FreeWhenQuiet(s: State, c: int)
    requires Inv(s) && Quiet(s) && IsCpu(s, c)
    ensures s.cpus[c].slot == FREE
  {
    assert SlotOk(s.cpus, c);
  }

  lemma ClaimAndServe(s: State, y: int, z: int, second: int) returns (steps: seq<Step>)
    requires |s.cpus| < U32 && IsCpu(s, y) && IsCpu(s, z) && y != z && z != NONE
    requires s.cpus[y].control.Scanning? && Chosen(s.cpus[y].control.counts, |s.cpus|, Choose(y, z, second))
    requires s.cpus[z].control.Outside? && s.cpus[z].queue == [] && s.cpus[z].slot == FREE && s.cpus[z].nrRunning % U32 > 2
    ensures Legal(s, steps) && NoExits(steps) && IsCpu(After(s, steps), z) && Wrecked(After(s, steps).cpus[z])
  {
    hide Chosen, Legal, After;
    PackRoundTrip(y, true);
    var s1 := Apply(s, Choose(y, z, second));
    var s2 := Apply(s1, ClaimBest(y));
    var s3 := Apply(s2, Interrupt(z));
    EmptySchedule(s3);
    Prefixed(s2, Interrupt(z), []);
    Prefixed(s1, ClaimBest(y), [Interrupt(z)] + []);
    Prefixed(s, Choose(y, z, second), [ClaimBest(y)] + ([Interrupt(z)] + []));
    steps := [Choose(y, z, second)] + ([ClaimBest(y)] + ([Interrupt(z)] + []));
  }

  lemma WreckingRun(s: State) returns (steps: seq<Step>, z: int)
    requires Inv(s) && Quiet(s) && !Steady(s)
    ensures Legal(s, steps) && NoExits(steps) && IsCpu(After(s, steps), z) && Wrecked(After(s, steps).cpus[z])
  {
    hide Inv, Legal, After, Sober, Wrecked;
    var first := RestAll(s, 0);
    var s1 := After(s, first);
    ScheduleInv(s, first);
    ScheduleSteady(s, first);
    var x :| 0 <= x < |s1.cpus| && !Sober(s1.cpus[x]);
    var rest;
    rest, z := ClaimWrecks(s1, if x == 0 then 1 else 0, x);
    Joined(s, first, rest);
    steps := first + rest;
  }

  // ---------------------------------------------------------------- a trap

  ghost predicate Leads(s: State, s1: State) {
    exists steps :: Legal(s, steps) && After(s, steps) == s1
  }

  lemma LeadsOn(s: State, s1: State, step: Step, s2: State)
    requires Leads(s, s1) && |s1.cpus| < U32 && Enabled(s1, step) && Apply(s1, step) == s2
    ensures Leads(s, s2)
  {
    hide Legal, After, Apply, Enabled;
    var steps :| Legal(s, steps) && After(s, steps) == s1;
    EmptySchedule(s2);
    Prefixed(s1, step, []);
    Joined(s, steps, [step] + []);
  }

  const WRAPPED: int := U64 - 1

  // Two CPUs that have run one task each to its end.
  function Ended(k0: Control, k1: Control, ended: multiset<Task>): State {
    State([Spent(k0), Spent(k1)], multiset{}, ended)
  }

  function Spent(k: Control): Cpu {
    Cpu(FREE, [], WRAPPED, Idle, [], k)
  }

  function Fresh(task: Task): Cpu {
    Cpu(FREE, [task], 1, Idle, [], Outside)
  }

  // Two CPUs with one task each: both tasks run and end, both counts wrap below zero, and the idle
  // CPUs take each other for busy.
  lemma ExitsTrap(a: Task, b: Task) returns (s: State, s1: State)
    ensures Init(s) && |s.cpus| == 2 && s.cpus[0].queue == [a] && s.cpus[1].queue == [b]
    ensures Leads(s, s1) && Trapped(s1, {0, 1}) && !CanLeave(s1, 0) && !CanLeave(s1, 1)
  {
    hide Leads, Trapped, CanLeave, InTrap, Init;
    s := State([Fresh(a), Fresh(b)], multiset{}, multiset{});
    Booted(s, a, b);
    BothEnd(s, a, b);
    BothScan(s, multiset{a, b});
    s1 := BothClaim(s, multiset{a, b});
    InTrapBy(s1, {0, 1}, 0);
    InTrapBy(s1, {0, 1}, 1);
    TrappedStays(s1, 0);
    TrappedStays(s1, 1);
  }

  lemma InTrapBy(s: State, w: set<int>, c: int)
    requires Trapped(s, w) && c in w
    ensures InTrap(s, c)
  {}

  lemma Booted(s: State, a: Task, b: Task)
    requires s == State([Fresh(a), Fresh(b)], multiset{}, multiset{})
    ensures Init(s) && Leads(s, s)
  {
    EmptySchedule(s);
  }

  // A CPU with one task runs it to its end.
  lemma OneEnds(x: Cpu, task: Task)
    requires x == Fresh(task)
    ensures var y := Dequeued(x, 0).(current := Running(task));
      y.current == Running(task) && y.control.Outside? && y.(current := Idle, nrRunning := (y.nrRunning - 1) % U64) == Spent(Outside)
  {
    assert [task][..0] + [task][1..] == [];
  }

  lemma RunToEnd(s: State, s0: State, i: int, task: Task)
    requires Leads(s, s0) && IsCpu(s0, i) && |s0.cpus| < U32 && s0.cpus[i] == Fresh(task)
    ensures Leads(s, State(s0.cpus[i := Spent(Outside)], s0.elsewhere, s0.ended + multiset{task}))
  {
    OneEnds(s0.cpus[i], task);
    hide Leads, Dequeued;
    var s1 := Apply(s0, PickNext(i));
    LeadsOn(s, s0, PickNext(i), s1);
    var s2 := Apply(s1, Exit(i));
    LeadsOn(s, s1, Exit(i), s2);
    assert s2.cpus == s0.cpus[i := Spent(Outside)];
  }

  lemma BothEnd(s: State, a: Task, b: Task)
    requires s == State([Fresh(a), Fresh(b)], multiset{}, multiset{}) && Leads(s, s)
    ensures Leads(s, Ended(Outside, Outside, multiset{a, b}))
  {
    hide Leads, Fresh, Spent;
    RunToEnd(s, s, 0, a);
    var s1 := State([Spent(Outside), Fresh(b)], multiset{}, multiset{a});
    assert s1 == State(s.cpus[0 := Spent(Outside)], s.elsewhere, s.ended + multiset{a});
    RunToEnd(s, s1, 1, b);
    assert Ended(Outside, Outside, multiset{a, b}) == State(s1.cpus[1 := Spent(Outside)], s1.elsewhere, s1.ended + multiset{b});
  }

  // CPU i of the two takes a step that changes nothing but its control point.
  lemma Turn(s: State, k0: Control, k1: Control, e: multiset<Task>, step: Step, k: Control)
    requires Leads(s, Ended(k0, k1, e)) && Enabled(Ended(k0, k1, e), step) && OwnStep(step) && 0 <= step.c < 2
    requires var x := Spent(if step.c == 0 then k0 else k1);
      OwnMove(x, step, Polled(Ended(k0, k1, e), step)) == x.(control := k)
    ensures Leads(s, if step.c == 0 then Ended(k, k1, e) else Ended(k0, k, e))
  {
    hide Leads, OwnMove;
    LeadsOn(s, Ended(k0, k1, e), step, if step.c == 0 then Ended(k, k1, e) else Ended(k0, k, e));
  }

  // One of the two reads both counts.
  lemma ReadsBoth(s: State, k0: Control, k1: Control, e: multiset<Task>, i: int)
    requires Leads(s, Ended(k0, k1, e)) && 0 <= i < 2 && (if i == 0 then k0 else k1) == Outside
    ensures var two := Scanning([WRAPPED, WRAPPED]); Leads(s, if i == 0 then Ended(two, k1, e) else Ended(k0, two, e))
  {
    hide Leads;
    var none, one, two := Scanning([]), Scanning([WRAPPED]), Scanning([WRAPPED, WRAPPED]);
    assert [WRAPPED] + [WRAPPED] == [WRAPPED, WRAPPED] && [] + [WRAPPED] == [WRAPPED];
    Turn(s, k0, k1, e, StartScan(i), none);
    if i == 0 {
      Turn(s, none, k1, e, ReadCount(0), one);
      Turn(s, one, k1, e, ReadCount(0), two);
    } else {
      Turn(s, k0, none, e, ReadCount(1), one);
      Turn(s, k0, one, e, ReadCount(1), two);
    }
  }

  lemma BothScan(s: State, e: multiset<Task>)
    requires Leads(s, Ended(Outside, Outside, e))
    ensures Leads(s, Ended(Choosing(1, NONE), Choosing(0, NONE), e))
  {
    hide Leads;
    var two := Scanning([WRAPPED, WRAPPED]);
    ReadsBoth(s, Outside, Outside, e, 0);
    ReadsBoth(s, two, Outside, e, 1);
    Turn(s, two, two, e, Choose(0, 1, NONE), Choosing(1, NONE));
    Turn(s, Choosing(1, NONE), two, e, Choose(1, 0, NONE), Choosing(0, NONE));
  }

  lemma BothClaim(s: State, e: multiset<Task>) returns (s1: State)
    requires Leads(s, Ended(Choosing(1, NONE), Choosing(0, NONE), e))
    ensures Leads(s, s1) && Trapped(s1, {0, 1})
  {
    hide Leads;
    PackRoundTrip(0, true);
    PackRoundTrip(1, true);
    var s2 := Ended(Choosing(1, NONE), Choosing(0, NONE), e);
    var s3 := Apply(s2, ClaimBest(0));
    s1 := Apply(s3, ClaimBest(1));
    LeadsOn(s, s2, ClaimBest(0), s3);
    LeadsOn(s, s3, ClaimBest(1), s1);
  }
}
