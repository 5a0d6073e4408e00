/**
 * Pull-based migration of tasks between CPUs. A CPU whose run queue is empty reads the running
 * counts of all CPUs with interrupts off, claims the slot of a busy one with one compare-and-swap,
 * and the target's interrupt handler moves half of its run queue to the migration list of the
 * claimer. Every access to shared memory is one step, and the steps of different CPUs interleave
 * freely. The running counts are those of the source: a task that ends is taken off the count
 * once more than it was put on.
 */
module TaskMigration {
  type Task = nat

  const U32: int := 0x1_0000_0000
  const U64: int := 0x1_0000_0000_0000_0000
  const NONE: int := 0xFFFF_FFFF

  // MIG_STATE_PACK in 64 bits
  function Pack(sender: int, active: bool): int
    requires 0 <= sender < U32
  {
    sender * 2 + if active then 1 else 0
  }

  // MIG_STATE_SENDER: the word is cut to 32 bits before the shift
  function Sender(state: int): int
    requires 0 <= state
  {
    state % U32 / 2
  }

  // MIG_STATE_ACTIVE
  predicate Active(state: int) {
    state % 2 == 1
  }

  const FREE: int := Pack(NONE, false)

  // Packing an identifier and unpacking it again loses nothing exactly below 2^31.
  lemma PackRoundTrip(sender: int, active: bool)
    requires 0 <= sender < U32
    ensures Sender(Pack(sender, active)) == sender <==> sender < 0x8000_0000
    ensures Active(Pack(sender, active)) <==> active
  {
    if sender >= 0x8000_0000 {
      assert Pack(sender, active) % U32 == Pack(sender, active) - U32;
    }
  }

  // The scan of task_try_migration: the two busiest other CPUs with more than two tasks, the first
  // of equals.
  predicate Candidate(count: seq<int>, local: int, i: int) {
    0 <= i < |count| && i != local && count[i] % U32 > 2
  }

  predicate Busiest(count: seq<int>, local: int, n: int, best: int, besides: int)
    requires 0 <= n <= |count|
  {
    if best == NONE then forall i :: 0 <= i < n ==> i == besides || !Candidate(count, local, i)
    else
      && best < n && best != besides && Candidate(count, local, best)
      && forall i :: 0 <= i < n && i != besides && Candidate(count, local, i) ==>
           if i < best then count[i] % U32 < count[best] % U32 else count[i] % U32 <= count[best] % U32
  }

  method FindTargets(count: seq<int>, local: int) returns (best: int, second: int)
    requires |count| < NONE
    ensures Busiest(count, local, |count|, best, -1)
    ensures Busiest(count, local, |count|, second, best)
    ensures best == NONE ==> second == NONE
  {
    best, second := NONE, NONE;
    var bestCount, secondCount := 0, 0;
    var i := 0;
    while i < |count|
      invariant 0 <= i <= |count|
      invariant Busiest(count, local, i, best, -1) && Busiest(count, local, i, second, best)
      invariant bestCount == if best == NONE then 0 else count[best] % U32
      invariant secondCount == if second == NONE then 0 else count[second] % U32
      invariant best == NONE ==> second == NONE
      invariant secondCount <= bestCount
    {
      var current := count[i] % U32;
      if i == local || current <= 2 {
      } else if current > bestCount {
        second, secondCount := best, bestCount;
        best, bestCount := i, current;
      } else if current > secondCount {
        second, secondCount := i, current;
      }
      i := i + 1;
    }
  }

  // Where a CPU is in task_try_migration or in task_do_migration, with its locals; whole is the run
  // queue as task_do_migration found it, and take how much of it goes. Faulted: the handler has
  // used the result of dequeue_tail on an empty queue.
  datatype Control =
    | Outside
    | Scanning(counts: seq<int>)
    | Choosing(best: int, second: int)
    | Retrying(second: int)
    | Waiting(target: int)
    | Draining
    | InHand(task: Task)
    | Loaded(word: int)
    | Taking(word: int, whole: seq<Task>, take: nat, tasks: seq<Task>)
    | Pushing(word: int, whole: seq<Task>, take: nat, tasks: seq<Task>)
    | Releasing(word: int, whole: seq<Task>, take: nat)
    | Faulted(word: int, tasks: seq<Task>)

  // What a CPU runs; it is idle also between two tasks.
  datatype Current = Idle | Running(task: Task)

  datatype Cpu = Cpu(slot: int, queue: seq<Task>, nrRunning: nat, current: Current, migration: seq<Task>, control: Control)

  // Every task that sleeps or has not started is elsewhere.
  datatype State = State(cpus: seq<Cpu>, elsewhere: multiset<Task>, ended: multiset<Task>)

  datatype Step =
    | StartScan(c: int)
    | ReadCount(c: int)
    | Choose(c: int, best: int, second: int)
    | ClaimBest(c: int)
    | ClaimSecond(c: int)
    | Poll(c: int)
    | PopMigration(c: int)
    | EnqueueMigrated(c: int)
    | Leave(c: int)
    | Interrupt(c: int)
    | Measure(c: int)
    | TakeTail(c: int)
    | StartPush(c: int)
    | PushOne(c: int)
    | FinishPush(c: int)
    | Release(c: int)
    | Wake(c: int, task: Task)
    | Preempt(c: int)
    | PickNext(c: int)
    | Sleep(c: int)
    | Exit(c: int)

  predicate TargetOk(target: int, c: int, n: int) {
    target == NONE || (0 <= target < n && target != c)
  }

  // The control point at which the step is the next thing the CPU does. The scheduler looks for
  // tasks elsewhere only when the run queue is empty and the previous task is put away.
  predicate Ready(x: Cpu, step: Step) {
    match step
    case StartScan(_) => x.control.Outside? && x.current.Idle? && x.queue == []
    case ReadCount(_) => x.control.Scanning?
    case Choose(_, _, _) => x.control.Scanning?
    case ClaimBest(_) => x.control.Choosing?
    case ClaimSecond(_) => x.control.Retrying?
    case Poll(_) => x.control.Waiting?
    case PopMigration(_) => x.control.Draining? && x.migration != []
    case EnqueueMigrated(_) => x.control.InHand?
    case Leave(_) => x.control.Draining? && x.migration == []
    case Interrupt(_) => x.control.Outside?
    case Measure(_) => x.control.Loaded?
    case TakeTail(_) => x.control.Taking? && |x.control.tasks| < x.control.take
    case StartPush(_) => x.control.Taking? && |x.control.tasks| >= x.control.take
    case PushOne(_) => x.control.Pushing? && x.control.tasks != []
    case FinishPush(_) => x.control.Pushing? && x.control.tasks == []
    case Release(_) => x.control.Releasing?
    case Wake(_, _) => x.control.Outside?
    case Preempt(_) => x.control.Outside? && x.current.Running?
    case PickNext(_) => x.control.Outside? && x.current.Idle? && x.queue != []
    case Sleep(_) => x.control.Outside? && x.current.Running?
    case Exit(_) => x.control.Outside? && x.current.Running?
  }

  predicate Enabled(s: State, step: Step) {
    && 0 <= step.c < |s.cpus| && Ready(s.cpus[step.c], step)
    && (step.ReadCount? ==> |s.cpus[step.c].control.counts| < |s.cpus|)
    && (step.Choose? ==> Chosen(s.cpus[step.c].control.counts, |s.cpus|, step))
    && (step.Poll? ==> 0 <= s.cpus[step.c].control.target < |s.cpus|)
    && (step.Wake? ==> step.task in s.elsewhere)
  }

  // All counts are read, and the targets are those of the scan.
  predicate Chosen(counts: seq<int>, n: int, step: Step)
    requires step.Choose?
  {
    |counts| == n && Busiest(counts, step.c, n, step.best, -1) && Busiest(counts, step.c, n, step.second, step.best)
  }

  // The compare-and-swap on the slot of target; without a target the attempt is skipped.
  function Claim(cpus: seq<Cpu>, c: int, target: int, failed: Control): seq<Cpu>
    requires 0 <= c < |cpus| < U32
  {
    if 0 <= target < |cpus| && cpus[target].slot == FREE then
      var claimed := cpus[target := cpus[target].(slot := Pack(c, true))];
      claimed[c := claimed[c].(control := Waiting(target))]
    else
      cpus[c := cpus[c].(control := failed)]
  }

  // rr_enqueue
  function Enqueued(x: Cpu, task: Task): Cpu {
    x.(queue := x.queue + [task], nrRunning := (x.nrRunning + 1) % U64)
  }

  // list_del_init of the entry at the given place, with the running count
  function Dequeued(x: Cpu, at: nat): Cpu
    requires at < |x.queue|
  {
    x.(queue := x.queue[..at] + x.queue[at + 1..], nrRunning := (x.nrRunning - 1) % U64)
  }

  // rr_dequeue_tail; on an empty queue it yields NULL, which the handler dereferences
  function TailTaken(x: Cpu): Cpu
    requires x.control.Taking?
  {
    var k := x.control;
    if x.queue == [] then x.(control := Faulted(k.word, k.tasks))
    else
      var last := |x.queue| - 1;
      Dequeued(x, last).(control := Taking(k.word, k.whole, k.take, k.tasks + [x.queue[last]]))
  }

  // How many tasks the handler takes at a given count: half, or none from a short queue.
  function Share(nr: nat): (n: nat)
    ensures 2 * n <= nr
  {
    if nr <= 2 then 0 else nr / 2
  }

  // The decision of task_do_migration on its 32-bit copy of the running count.
  function Measured(x: Cpu): Cpu
    requires x.control.Loaded?
  {
    var take := Share(x.nrRunning % U32);
    x.(control := if take == 0 then Releasing(x.control.word, x.queue, 0) else Taking(x.control.word, x.queue, take, []))
  }

  // list_add_tail on the migration list of the sender
  function Pushed(cpus: seq<Cpu>, c: int): seq<Cpu>
    requires 0 <= c < |cpus| && cpus[c].control.Pushing? && cpus[c].control.tasks != []
  {
    var k := cpus[c].control;
    var rest := cpus[c := cpus[c].(control := Pushing(k.word, k.whole, k.take, k.tasks[1..]))];
    if 0 <= k.word && Sender(k.word) < |cpus| then
      var r := Sender(k.word);
      rest[r := rest[r].(migration := rest[r].migration + [k.tasks[0]])]
    else rest
  }

  // Steps that touch nothing but the CPU that takes them, and not its slot; polled is the word
  // that the load of Poll or ReadCount sees.
  predicate OwnStep(step: Step) {
    !(step.ClaimBest? || step.ClaimSecond? || step.PushOne? || step.Release? || Traffic(step))
  }

  function OwnMove(x: Cpu, step: Step, polled: int): Cpu
    requires Ready(x, step) && OwnStep(step)
  {
    match step
    case StartScan(_) => x.(control := Scanning([]))
    case ReadCount(_) => x.(control := Scanning(x.control.counts + [polled]))
    case Choose(_, best, second) => x.(control := Choosing(best, second))
    case Poll(_) => if Active(polled) then x else x.(control := Draining)
    case PopMigration(_) => x.(migration := x.migration[1..], control := InHand(x.migration[0]))
    case EnqueueMigrated(_) => Enqueued(x, x.control.task).(control := Draining)
    case Leave(_) => x.(control := Outside)
    case Interrupt(_) => if Active(x.slot) then x.(control := Loaded(x.slot)) else x
    case Measure(_) => Measured(x)
    case TakeTail(_) => TailTaken(x)
    case StartPush(_) => x.(control := Pushing(x.control.word, x.control.whole, x.control.take, x.control.tasks))
    case FinishPush(_) => x.(control := Releasing(x.control.word, x.control.whole, x.control.take))
  }

  // The scheduler's own traffic.
  predicate Traffic(step: Step) {
    step.Wake? || step.Preempt? || step.PickNext? || step.Sleep? || step.Exit?
  }

  // task_wakeup or a new task, the two halves of task_sched, task_sleep, and task_exit, which counts
  // the running task as if it were queued
  function Exchange(s: State, step: Step): State
    requires Enabled(s, step) && Traffic(step)
  {
    var c := step.c;
    var x := s.cpus[c];
    match step
    case Wake(_, task) => s.(cpus := s.cpus[c := Enqueued(x, task)], elsewhere := s.elsewhere - multiset{task})
    case Preempt(_) => s.(cpus := s.cpus[c := Enqueued(x, x.current.task).(current := Idle)])
    case PickNext(_) => s.(cpus := s.cpus[c := Dequeued(x, 0).(current := Running(x.queue[0]))])
    case Sleep(_) => s.(cpus := s.cpus[c := x.(current := Idle)], elsewhere := s.elsewhere + multiset{x.current.task})
    case Exit(_) =>
      s.(cpus := s.cpus[c := x.(current := Idle, nrRunning := (x.nrRunning - 1) % U64)],
         ended := s.ended + multiset{x.current.task})
  }

  // The compare-and-swap that ends a migration
  function Released(x: Cpu): Cpu
    requires x.control.Releasing?
  {
    x.(slot := if x.slot == x.control.word then FREE else x.slot, control := Outside)
  }

  function Polled(s: State, step: Step): int
    requires Enabled(s, step)
  {
    if step.Poll? then s.cpus[s.cpus[step.c].control.target].slot
    else if step.ReadCount? then s.cpus[|s.cpus[step.c].control.counts|].nrRunning
    else FREE
  }

  function Apply(s: State, step: Step): State
    requires Enabled(s, step) && |s.cpus| < U32
  {
    var c := step.c;
    var x := s.cpus[c];
    if Traffic(step) then Exchange(s, step)
    else if step.ClaimBest? then s.(cpus := Claim(s.cpus, c, x.control.best, Retrying(x.control.second)))
    else if step.ClaimSecond? then s.(cpus := Claim(s.cpus, c, x.control.second, Outside))
    else if step.PushOne? then s.(cpus := Pushed(s.cpus, c))
    else if step.Release? then s.(cpus := s.cpus[c := Released(x)])
    else s.(cpus := s.cpus[c := OwnMove(x, step, Polled(s, step))])
  }

  // task_migration_init, with any run queues; the identifiers fit the packed word.
  ghost predicate Init(s: State) {
    && |s.cpus| <= 0x8000_0000
    && forall c :: 0 <= c < |s.cpus| ==>
         var x := s.cpus[c];
         x.slot == FREE && x.migration == [] && x.control == Outside && x.nrRunning == |x.queue| % U64
  }

  function Reversed(s: seq<Task>): (r: seq<Task>)
    ensures |r| == |s|
  {
    if s == [] then [] else Reversed(s[1..]) + [s[0]]
  }

  // The part of a queue that stays, and the part that goes, in the order of its arrival.
  function Kept(whole: seq<Task>, take: nat): seq<Task> {
    if take <= |whole| then whole[..|whole| - take] else []
  }

  function Due(whole: seq<Task>, take: nat): seq<Task> {
    if take <= |whole| then Reversed(whole[|whole| - take..]) else []
  }

  // How far the running count is ahead of the run queue, in 64 bits.
  function Drift(x: Cpu): (n: nat)
    ensures n < U64
  {
    (x.nrRunning - |x.queue|) % U64
  }

  // With an empty run queue the count does not look busy.
  predicate Sober(x: Cpu) {
    Drift(x) % U32 <= 2
  }

  ghost predicate Ends(tail: seq<Task>, s: seq<Task>) {
    |tail| <= |s| && tail == s[|s| - |tail|..]
  }

  // What the handler has pushed so far.
  ghost function Delivered(k: Control): seq<Task> {
    match k
    case Pushing(_, whole, take, tasks) =>
      var due := Due(whole, take);
      if |tasks| <= |due| then due[..|due| - |tasks|] else []
    case Releasing(_, whole, take) => Due(whole, take)
    case _ => []
  }

  // Asleep to interrupts and still to be served.
  predicate Early(k: Control) {
    k.Scanning? || k.Choosing? || k.Retrying? || k.Waiting?
  }

  // What one CPU keeps about itself.
  ghost predicate LocalOk(x: Cpu, c: int, n: int) {
    && x.nrRunning < U64
    && (Early(x.control) ==> x.queue == [])
    && (x.migration != [] ==> x.control.Waiting? || x.control.Draining? || x.control.InHand?)
    && (Serving(x.control) ==> x.control.word == x.slot && Active(x.slot))
    && match x.control
       case Scanning(counts) => |counts| <= n
       case Choosing(best, second) => TargetOk(best, c, n) && TargetOk(second, c, n)
       case Retrying(second) => TargetOk(second, c, n)
       case Waiting(target) => 0 <= target < n && target != c
       case Taking(_, whole, take, tasks) =>
         && TakeOk(x, whole, take) && take > 0 && |tasks| <= take && |whole| == |x.queue| + |tasks|
         && x.queue == whole[..|x.queue|] && tasks == Reversed(whole[|x.queue|..])
       case Pushing(_, whole, take, tasks) =>
         TakeOk(x, whole, take) && take <= |whole| && x.queue == Kept(whole, take) && Ends(tasks, Due(whole, take))
       case Releasing(_, whole, take) => TakeOk(x, whole, take) && take <= |whole| && x.queue == Kept(whole, take)
       case Faulted(_, _) => !Sober(x)
       case _ => true
  }

  // take is the share of the count that went with the queue whole.
  ghost predicate TakeOk(x: Cpu, whole: seq<Task>, take: nat) {
    take == Share((|whole| + Drift(x)) % U32)
  }

  predicate Serving(k: Control) {
    k.Loaded? || k.Taking? || k.Pushing? || k.Releasing? || k.Faulted?
  }

  ghost predicate Named(cpus: seq<Cpu>, c: int)
    requires 0 <= c < |cpus|
  {
    && 0 <= cpus[c].slot
    && var r := Sender(cpus[c].slot);
       0 <= r < |cpus| <= 0x8000_0000 && r != c && cpus[c].slot == Pack(r, true) && cpus[r].control == Waiting(c)
       && cpus[r].migration == Delivered(cpus[c].control)
  }

  // A slot is free, or it names one other CPU, and that CPU waits for this very slot.
  ghost predicate SlotOk(cpus: seq<Cpu>, c: int)
    requires 0 <= c < |cpus|
  {
    cpus[c].slot == FREE || Named(cpus, c)
  }

  ghost predicate Inv(s: State) {
    && |s.cpus| <= 0x8000_0000
    && (forall c :: 0 <= c < |s.cpus| ==> LocalOk(s.cpus[c], c, |s.cpus|))
    && (forall c :: 0 <= c < |s.cpus| ==> SlotOk(s.cpus, c))
  }

  lemma InitInv(s: State)
    requires Init(s)
    ensures Inv(s)
  {}

  // A CPU that no slot names may change anything but its slot.
  lemma LocalStep(cpus: seq<Cpu>, c: int, x: Cpu)
    requires Inv(State(cpus, multiset{}, multiset{})) && 0 <= c < |cpus| && x.slot == cpus[c].slot && LocalOk(x, c, |cpus|)
    requires Active(x.slot) ==> Delivered(x.control) == Delivered(cpus[c].control)
    requires cpus[c].control.Waiting? ==> x == cpus[c] || !Active(cpus[cpus[c].control.target].slot)
    ensures Inv(State(cpus[c := x], multiset{}, multiset{}))
  {
    var cpus' := cpus[c := x];
    forall d | 0 <= d < |cpus'|
      ensures SlotOk(cpus', d)
    {
      assert SlotOk(cpus, d);
    }
  }

  lemma ClaimInv(cpus: seq<Cpu>, c: int, target: int, failed: Control)
    requires Inv(State(cpus, multiset{}, multiset{})) && 0 <= c < |cpus| && TargetOk(target, c, |cpus|)
    requires cpus[c].control.Choosing? || cpus[c].control.Retrying?
    requires LocalOk(cpus[c].(control := failed), c, |cpus|) && (failed.Retrying? || failed.Outside?)
    ensures Inv(State(Claim(cpus, c, target, failed), multiset{}, multiset{}))
  {
    assert LocalOk(cpus[c], c, |cpus|);
    if 0 <= target < |cpus| && cpus[target].slot == FREE {
      ClaimedInv(cpus, c, target, cpus[target].(slot := Pack(c, true)), cpus[c].(control := Waiting(target)));
    } else {
      LocalStep(cpus, c, cpus[c].(control := failed));
    }
  }

  lemma ClaimedInv(cpus: seq<Cpu>, c: int, target: int, y: Cpu, x: Cpu)
    requires Inv(State(cpus, multiset{}, multiset{})) && 0 <= c < |cpus| && 0 <= target < |cpus| && target != c
    requires cpus[c].control.Choosing? || cpus[c].control.Retrying?
    requires cpus[target].slot == FREE && y == cpus[target].(slot := Pack(c, true))
    requires x == cpus[c].(control := Waiting(target))
    ensures Inv(State(cpus[target := y][c := x], multiset{}, multiset{}))
  {
    hide Delivered;
    var cpus' := cpus[target := y][c := x];
    PackRoundTrip(c, true);
    assert LocalOk(cpus[target], target, |cpus|) && LocalOk(cpus[c], c, |cpus|);
    IdleDelivers(cpus[target].control);
    IdleDelivers(cpus[c].control);
    IdleDelivers(x.control);
    forall d | 0 <= d < |cpus'|
      ensures SlotOk(cpus', d) && LocalOk(cpus'[d], d, |cpus'|)
    {
      assert SlotOk(cpus, d) && LocalOk(cpus[d], d, |cpus|);
    }
  }

  lemma IdleDelivers(k: Control)
    ensures !Serving(k) ==> Delivered(k) == []
  {}

  lemma PushInv(cpus: seq<Cpu>, c: int)
    requires Inv(State(cpus, multiset{}, multiset{})) && 0 <= c < |cpus| && cpus[c].control.Pushing? && cpus[c].control.tasks != []
    ensures Inv(State(Pushed(cpus, c), multiset{}, multiset{}))
  {
    var k := cpus[c].control;
    PushFacts(cpus, c);
    var r := Sender(k.word);
    var k' := Pushing(k.word, k.whole, k.take, k.tasks[1..]);
    var x := cpus[c].(control := k');
    var y := cpus[r].(migration := cpus[r].migration + [k.tasks[0]]);
    var cpus' := Pushed(cpus, c);
    hide LocalOk, Delivered, Due, Ends;
    PushDelivers(k, k');
    assert cpus' == cpus[c := x][r := y];
    forall d | 0 <= d < |cpus'|
      ensures SlotOk(cpus', d) && LocalOk(cpus'[d], d, |cpus'|)
    {
      assert SlotOk(cpus, d) && LocalOk(cpus[d], d, |cpus|);
    }
  }

  // A push goes to the list of a CPU that waits for this one, and leaves both in order.
  lemma PushFacts(cpus: seq<Cpu>, c: int)
    requires Inv(State(cpus, multiset{}, multiset{})) && 0 <= c < |cpus| && cpus[c].control.Pushing? && cpus[c].control.tasks != []
    ensures var k := cpus[c].control; k.word == cpus[c].slot && Named(cpus, c) && Ends(k.tasks, Due(k.whole, k.take))
    ensures var k := cpus[c].control; var r := Sender(k.word);
      && LocalOk(cpus[c].(control := Pushing(k.word, k.whole, k.take, k.tasks[1..])), c, |cpus|)
      && LocalOk(cpus[r].(migration := cpus[r].migration + [k.tasks[0]]), r, |cpus|)
  {
    var k := cpus[c].control;
    assert LocalOk(cpus[c], c, |cpus|) && SlotOk(cpus, c);
    assert LocalOk(cpus[Sender(k.word)], Sender(k.word), |cpus|);
    PushDelivers(k, Pushing(k.word, k.whole, k.take, k.tasks[1..]));
    SameDrift(cpus[c], cpus[c].(control := Pushing(k.word, k.whole, k.take, k.tasks[1..])));
    hide Delivered, Drift, Share, Due, Kept, Ends, Pack;
  }

  lemma PushDelivers(k: Control, k': Control)
    requires k.Pushing? && k.tasks != [] && Ends(k.tasks, Due(k.whole, k.take))
    requires k' == Pushing(k.word, k.whole, k.take, k.tasks[1..])
    ensures Delivered(k') == Delivered(k) + [k.tasks[0]] && Ends(k'.tasks, Due(k.whole, k.take))
  {
    var due := Due(k.whole, k.take);
    var n := |due| - |k.tasks|;
    assert due[n] == k.tasks[0];
  }

  lemma ReleaseInv(cpus: seq<Cpu>, c: int, x: Cpu)
    requires Inv(State(cpus, multiset{}, multiset{})) && 0 <= c < |cpus| && cpus[c].control.Releasing?
    requires x == cpus[c].(slot := FREE, control := Outside)
    ensures Inv(State(cpus[c := x], multiset{}, multiset{}))
  {
    var cpus' := cpus[c := x];
    assert LocalOk(cpus[c], c, |cpus|);
    forall d | 0 <= d < |cpus'|
      ensures SlotOk(cpus', d)
    {
      assert SlotOk(cpus, d);
    }
  }

  lemma OwnMoveKeeps(x: Cpu, step: Step, polled: int, n: int)
    requires Ready(x, step) && OwnStep(step) && LocalOk(x, step.c, n)
    requires step.Choose? ==> TargetOk(step.best, step.c, n) && TargetOk(step.second, step.c, n)
    requires n >= 0 && (step.ReadCount? ==> |x.control.counts| < n)
    ensures var y := OwnMove(x, step, polled); y.slot == x.slot && LocalOk(y, step.c, n)
    ensures Delivered(OwnMove(x, step, polled).control) == Delivered(x.control)
    ensures x.control.Waiting? && Active(polled) ==> OwnMove(x, step, polled) == x
  {
    hide LocalOk, Delivered;
    if step.TakeTail? {
      TakeTailKeeps(x, step.c, n);
      NothingPushed(x.control, TailTaken(x).control);
    } else if step.StartPush? {
      StartPushKeeps(x, step, polled, n);
    } else if step.Measure? {
      MeasureKeeps(x, step, polled, n);
    } else {
      PlainMoveKeeps(x, step, polled, n);
    }
  }

  lemma NothingPushed(k: Control, k': Control)
    requires k.Taking? && (k'.Taking? || k'.Faulted?)
    ensures Delivered(k) == Delivered(k') == []
  {}

  lemma StartPushKeeps(x: Cpu, step: Step, polled: int, n: int)
    requires Ready(x, step) && step.StartPush? && LocalOk(x, step.c, n)
    ensures var y := OwnMove(x, step, polled); LocalOk(y, step.c, n) && Delivered(y.control) == Delivered(x.control)
  {
    hide TailTaken, Enqueued, Sender, Measured, Share, Drift;
    SameDrift(x, OwnMove(x, step, polled));
    assert x.control.tasks == Due(x.control.whole, x.control.take);
  }

  lemma MeasureKeeps(x: Cpu, step: Step, polled: int, n: int)
    requires Ready(x, step) && step.Measure? && LocalOk(x, step.c, n)
    ensures var y := OwnMove(x, step, polled); LocalOk(y, step.c, n) && Delivered(y.control) == Delivered(x.control)
  {
    hide TailTaken, Enqueued, Sender, Share, Drift;
    SameDrift(x, OwnMove(x, step, polled));
    CountLow(x);
  }

  // The low half of the count, in terms of the queue.
  lemma CountLow(x: Cpu)
    requires x.nrRunning < U64
    ensures x.nrRunning % U32 == (|x.queue| + Drift(x)) % U32
  {}

  lemma DequeuedDrift(x: Cpu, at: nat)
    requires at < |x.queue|
    ensures Drift(Dequeued(x, at)) == Drift(x)
  {}

  lemma SameDrift(x: Cpu, y: Cpu)
    requires y.nrRunning == x.nrRunning && y.queue == x.queue
    ensures Drift(y) == Drift(x)
  {}

  lemma EnqueuedDrift(x: Cpu, task: Task)
    ensures Drift(Enqueued(x, task)) == Drift(x)
  {}

  // A sober count never takes more than the queue holds, and an exact one at most half.
  lemma SoberShare(length: nat, drift: nat)
    ensures drift % U32 <= 2 ==> Share((length + drift) % U32) <= length
    ensures drift == 0 ==> 2 * Share((length + drift) % U32) <= length
    ensures drift % U32 > 2 ==> Share(drift % U32) > 0
  {
    if drift % U32 <= 2 {
      assert (length + drift) % U32 == (length + drift % U32) % U32 <= length + 2;
    }
  }

  lemma PlainMoveKeeps(x: Cpu, step: Step, polled: int, n: int)
    requires Ready(x, step) && OwnStep(step) && LocalOk(x, step.c, n)
    requires !(step.TakeTail? || step.StartPush? || step.Measure?)
    requires step.Choose? ==> TargetOk(step.best, step.c, n) && TargetOk(step.second, step.c, n)
    requires n >= 0 && (step.ReadCount? ==> |x.control.counts| < n)
    ensures var y := OwnMove(x, step, polled); LocalOk(y, step.c, n) && Delivered(y.control) == Delivered(x.control)
  {
    hide Kept, Due, Ends, Share, TailTaken, Measured, Sender, TargetOk;
    if !step.FinishPush? {
      hide Drift;
    }
  }

  lemma TakeTailKeeps(x: Cpu, c: int, n: int)
    requires x.control.Taking? && |x.control.tasks| < x.control.take && LocalOk(x, c, n)
    ensures TailTaken(x).slot == x.slot && LocalOk(TailTaken(x), c, n)
    ensures TailTaken(x).control.Taking? || TailTaken(x).control.Faulted?
  {
    var k := x.control;
    if x.queue == [] {
      SoberShare(|k.whole|, Drift(x));
    } else {
      var last := |x.queue| - 1;
      DequeuedDrift(x, last);
      hide Share, Drift;
      assert k.whole[last..] == [k.whole[last]] + k.whole[last + 1..];
      assert x.queue[..last] + x.queue[last + 1..] == k.whole[..last];
    }
  }

  lemma ExchangeInv(s: State, step: Step)
    requires Inv(s) && Enabled(s, step) && Traffic(step)
    ensures Inv(Exchange(s, step))
  {
    hide SlotOk, Drift, Share;
    var c := step.c;
    assert LocalOk(s.cpus[c], c, |s.cpus|);
    LocalStep(s.cpus, c, Exchange(s, step).cpus[c]);
  }

  lemma StepInv(s: State, step: Step)
    requires Inv(s) && Enabled(s, step)
    ensures Inv(Apply(s, step))
  {
    hide SlotOk, LocalOk, Claim, Pushed, OwnMove, Exchange;
    var c := step.c;
    var x := s.cpus[c];
    assert LocalOk(x, c, |s.cpus|);
    assert Inv(State(s.cpus, multiset{}, multiset{}));
    if Traffic(step) {
      ExchangeInv(s, step);
    } else if OwnStep(step) {
      if step.Choose? {
        ChosenOk(x.control.counts, |s.cpus|, step);
      }
      OwnMoveKeeps(x, step, Polled(s, step), |s.cpus|);
      LocalStep(s.cpus, c, OwnMove(x, step, Polled(s, step)));
    } else {
      LinkStepInv(s, step);
    }
  }

  lemma ChosenOk(counts: seq<int>, n: int, step: Step)
    requires step.Choose? && Chosen(counts, n, step)
    ensures TargetOk(step.best, step.c, n) && TargetOk(step.second, step.c, n)
  {}

  // The steps that write a slot or another CPU's list.
  lemma LinkStepInv(s: State, step: Step)
    requires Inv(s) && Enabled(s, step) && !Traffic(step) && !OwnStep(step)
    ensures Inv(Apply(s, step))
  {
    hide SlotOk;
    var c := step.c;
    var x := s.cpus[c];
    assert LocalOk(x, c, |s.cpus|);
    assert Inv(State(s.cpus, multiset{}, multiset{}));
    match step
    case ClaimBest(_) => ClaimInv(s.cpus, c, x.control.best, Retrying(x.control.second));
    case ClaimSecond(_) => ClaimInv(s.cpus, c, x.control.second, Outside);
    case PushOne(_) => PushInv(s.cpus, c);
    case Release(_) => ReleaseInv(s.cpus, c, Released(x));
  }

  // ---------------------------------------------------------------- conservation of tasks

  function InFlight(k: Control): multiset<Task> {
    match k
    case InHand(task) => multiset{task}
    case Taking(_, _, _, tasks) => multiset(tasks)
    case Pushing(_, _, _, tasks) => multiset(tasks)
    case Faulted(_, tasks) => multiset(tasks)
    case _ => multiset{}
  }

  function Carried(current: Current): multiset<Task> {
    match current
    case Idle => multiset{}
    case Running(task) => multiset{task}
  }

  function Held(x: Cpu): multiset<Task> {
    multiset(x.queue) + Carried(x.current) + multiset(x.migration) + InFlight(x.control)
  }

  function Total(cpus: seq<Cpu>): multiset<Task> {
    if cpus == [] then multiset{} else Held(cpus[0]) + Total(cpus[1..])
  }

  function Everything(s: State): multiset<Task> {
    Total(s.cpus) + s.elsewhere + s.ended
  }

  lemma AddBoth(h: multiset<Task>, a: multiset<Task>, x: multiset<Task>, b: multiset<Task>, y: multiset<Task>)
    requires a + x == b + y
    ensures (h + a) + x == (h + b) + y
  {
    assert (h + a) + x == h + (a + x);
    assert (h + b) + y == h + (b + y);
  }

  lemma Cancel(a: multiset<Task>, b: multiset<Task>, x: multiset<Task>)
    requires a + x == b + x
    ensures a == b
  {
    assert a == (a + x) - x;
    assert b == (b + x) - x;
  }

  lemma {:induction false} TotalUpdate(cpus: seq<Cpu>, c: int, x: Cpu)
    requires 0 <= c < |cpus|
    ensures Total(cpus[c := x]) + Held(cpus[c]) == Total(cpus) + Held(x)
  {
    hide Held;
    if c == 0 {
      assert cpus[c := x][1..] == cpus[1..];
      assert Total(cpus[c := x]) == Held(x) + Total(cpus[1..]);
    } else {
      var tail := cpus[1..];
      TotalUpdate(tail, c - 1, x);
      assert cpus[c := x][1..] == tail[c - 1 := x];
      AddBoth(Held(cpus[0]), Total(tail[c - 1 := x]), Held(cpus[c]), Total(tail), Held(x));
    }
  }

  // What one CPU holds is part of the total, and two CPUs hold separate parts.
  lemma {:induction false} HeldInTotal(cpus: seq<Cpu>, c: int)
    requires 0 <= c < |cpus|
    ensures Held(cpus[c]) <= Total(cpus)
  {
    hide Held;
    if c > 0 {
      HeldInTotal(cpus[1..], c - 1);
    }
  }

  lemma {:induction false} HeldApart(cpus: seq<Cpu>, c: int, d: int)
    requires 0 <= c < d < |cpus|
    ensures Held(cpus[c]) + Held(cpus[d]) <= Total(cpus)
  {
    hide Held;
    if c == 0 {
      HeldInTotal(cpus[1..], d - 1);
    } else {
      HeldApart(cpus[1..], c - 1, d - 1);
    }
  }

  lemma DequeuedHeld(x: Cpu, at: nat)
    requires at < |x.queue|
    ensures Held(Dequeued(x, at)) + multiset{x.queue[at]} == Held(x)
  {
    assert x.queue == x.queue[..at] + [x.queue[at]] + x.queue[at + 1..];
  }

  lemma SameHeld(cpus: seq<Cpu>, c: int, x: Cpu)
    requires 0 <= c < |cpus| && Held(x) == Held(cpus[c])
    ensures Total(cpus[c := x]) == Total(cpus)
  {
    hide Held, Total;
    TotalUpdate(cpus, c, x);
    Cancel(Total(cpus[c := x]), Total(cpus), Held(x));
  }

  // The total follows what one CPU gives away or receives.
  lemma GiveTotal(cpus: seq<Cpu>, c: int, x: Cpu, task: Task)
    requires 0 <= c < |cpus| && Held(x) + multiset{task} == Held(cpus[c])
    ensures Total(cpus[c := x]) + multiset{task} == Total(cpus)
  {
    hide Held, Total;
    TotalUpdate(cpus, c, x);
    assert Total(cpus[c := x]) + (Held(x) + multiset{task}) == (Total(cpus[c := x]) + multiset{task}) + Held(x);
    Cancel(Total(cpus[c := x]) + multiset{task}, Total(cpus), Held(x));
  }

  lemma ReceiveTotal(cpus: seq<Cpu>, c: int, x: Cpu, task: Task)
    requires 0 <= c < |cpus| && Held(x) == Held(cpus[c]) + multiset{task}
    ensures Total(cpus[c := x]) == Total(cpus) + multiset{task}
  {
    hide Held, Total;
    TotalUpdate(cpus, c, x);
    assert Total(cpus) + (Held(cpus[c]) + multiset{task}) == (Total(cpus) + multiset{task}) + Held(cpus[c]);
    Cancel(Total(cpus[c := x]), Total(cpus) + multiset{task}, Held(cpus[c]));
  }

  lemma EnqueuedHeld(x: Cpu, task: Task)
    ensures Held(Enqueued(x, task)) == Held(x) + multiset{task}
  {}

  lemma HandHeld(x: Cpu)
    requires x.control.InHand?
    ensures Held(Enqueued(x, x.control.task).(control := Draining)) == Held(x)
  {}

  lemma FirstPushHeld(x: Cpu)
    requires x.control.Pushing? && x.control.tasks != []
    ensures Held(x.(control := Pushing(x.control.word, x.control.whole, x.control.take, x.control.tasks[1..])))
         + multiset{x.control.tasks[0]} == Held(x)
  {
    assert x.control.tasks == [x.control.tasks[0]] + x.control.tasks[1..];
  }

  lemma MigrationHeld(x: Cpu, task: Task)
    ensures Held(x.(migration := x.migration + [task])) == Held(x) + multiset{task}
  {}

  lemma PopHeld(x: Cpu)
    requires x.control.Draining? && x.migration != []
    ensures Held(x.(migration := x.migration[1..], control := InHand(x.migration[0]))) == Held(x)
  {
    assert x.migration == [x.migration[0]] + x.migration[1..];
  }

  lemma TailHeld(x: Cpu)
    requires x.control.Taking?
    ensures Held(TailTaken(x)) == Held(x)
  {
    hide Held, Dequeued;
    var k := x.control;
    if x.queue == [] {
      ControlHeld(x, Faulted(k.word, k.tasks));
    } else {
      var last := |x.queue| - 1;
      DequeuedHeld(x, last);
      TakenHeld(x, last);
    }
  }

  lemma TakenHeld(x: Cpu, at: nat)
    requires x.control.Taking? && at < |x.queue|
    ensures var k, y := x.control, Dequeued(x, at);
      Held(y.(control := Taking(k.word, k.whole, k.take, k.tasks + [x.queue[at]]))) == Held(y) + multiset{x.queue[at]}
  {}

  lemma ClaimTotal(cpus: seq<Cpu>, c: int, target: int, failed: Control)
    requires 0 <= c < |cpus| < U32 && InFlight(cpus[c].control) == InFlight(failed) == multiset{}
    ensures Total(Claim(cpus, c, target, failed)) == Total(cpus)
  {
    hide Held, Total;
    if 0 <= target < |cpus| && cpus[target].slot == FREE {
      var y := cpus[target].(slot := Pack(c, true));
      var claimed := cpus[target := y];
      SlotHeld(cpus[target], Pack(c, true));
      SameHeld(cpus, target, y);
      ControlHeld(claimed[c], Waiting(target));
      SameHeld(claimed, c, claimed[c].(control := Waiting(target)));
    } else {
      ControlHeld(cpus[c], failed);
      SameHeld(cpus, c, cpus[c].(control := failed));
    }
  }

  lemma SlotHeld(x: Cpu, slot: int)
    ensures Held(x.(slot := slot)) == Held(x)
  {}

  lemma PushTotal(cpus: seq<Cpu>, c: int)
    requires 0 <= c < |cpus| && cpus[c].control.Pushing? && cpus[c].control.tasks != []
    requires 0 <= cpus[c].control.word && Sender(cpus[c].control.word) < |cpus|
    ensures Total(Pushed(cpus, c)) == Total(cpus)
  {
    var k := cpus[c].control;
    var x := cpus[c].(control := Pushing(k.word, k.whole, k.take, k.tasks[1..]));
    FirstPushHeld(cpus[c]);
    var rest := cpus[c := x];
    var r := Sender(k.word);
    MigrationHeld(rest[r], k.tasks[0]);
    hide Held, Total;
    GiveTotal(cpus, c, x, k.tasks[0]);
    ReceiveTotal(rest, r, rest[r].(migration := rest[r].migration + [k.tasks[0]]), k.tasks[0]);
  }

  // A task that changes hands between the running task, the queue, elsewhere and the ended.
  lemma ExchangeConserves(s: State, step: Step)
    requires Enabled(s, step) && Traffic(step)
    ensures Everything(Exchange(s, step)) == Everything(s)
  {
    hide Total, Held, Dequeued, Enqueued;
    var c := step.c;
    var x := s.cpus[c];
    if step.Preempt? {
      var y := Enqueued(x, x.current.task);
      EnqueuedHeld(x, x.current.task);
      EnqueuedKeeps(x, x.current.task);
      PutAwayHeld(y, x.current.task);
      Cancel(Held(y.(current := Idle)), Held(x), multiset{x.current.task});
      SameHeld(s.cpus, c, y.(current := Idle));
    } else if step.PickNext? {
      DequeuedHeld(x, 0);
      DequeuedKeeps(x, 0);
      PickedHeld(Dequeued(x, 0), x.queue[0]);
      SameHeld(s.cpus, c, Dequeued(x, 0).(current := Running(x.queue[0])));
    } else {
      OutsideExchange(s, step);
    }
  }

  lemma EnqueuedKeeps(x: Cpu, task: Task)
    ensures Enqueued(x, task).current == x.current
  {}

  lemma DequeuedKeeps(x: Cpu, at: nat)
    requires at < |x.queue|
    ensures Dequeued(x, at).current == x.current
  {}

  lemma OutsideExchange(s: State, step: Step)
    requires Enabled(s, step) && (step.Wake? || step.Sleep? || step.Exit?)
    ensures Everything(Exchange(s, step)) == Everything(s)
  {
    hide Total, Held, Enqueued;
    var c := step.c;
    var x := s.cpus[c];
    if step.Wake? {
      EnqueuedHeld(x, step.task);
      ReceiveTotal(s.cpus, c, Enqueued(x, step.task), step.task);
    } else {
      PutAwayHeld(x, x.current.task);
      GiveTotal(s.cpus, c, Exchange(s, step).cpus[c], x.current.task);
    }
  }

  lemma PutAwayHeld(x: Cpu, task: Task)
    requires x.current == Running(task)
    ensures Held(x.(current := Idle)) + multiset{task} == Held(x)
    ensures Held(x.(current := Idle, nrRunning := (x.nrRunning - 1) % U64)) + multiset{task} == Held(x)
  {}

  lemma PickedHeld(x: Cpu, task: Task)
    requires x.current == Idle
    ensures Held(x.(current := Running(task))) == Held(x) + multiset{task}
  {}

  lemma OwnMoveHeld(x: Cpu, step: Step, polled: int)
    requires Ready(x, step) && OwnStep(step)
    ensures Held(OwnMove(x, step, polled)) == Held(x)
  {
    hide Held;
    if step.PopMigration? {
      PopHeld(x);
    } else if step.TakeTail? {
      TailHeld(x);
    } else if step.EnqueueMigrated? {
      HandHeld(x);
    } else {
      ControlMove(x, step, polled);
      ControlHeld(x, OwnMove(x, step, polled).control);
    }
  }

  lemma ControlMove(x: Cpu, step: Step, polled: int)
    requires Ready(x, step) && OwnStep(step) && !step.PopMigration? && !step.TakeTail? && !step.EnqueueMigrated?
    ensures OwnMove(x, step, polled) == x.(control := OwnMove(x, step, polled).control)
    ensures InFlight(OwnMove(x, step, polled).control) == InFlight(x.control)
  {}

  lemma ControlHeld(x: Cpu, k: Control)
    requires InFlight(k) == InFlight(x.control)
    ensures Held(x.(control := k)) == Held(x)
  {}

  lemma StepConserves(s: State, step: Step)
    requires Inv(s) && Enabled(s, step)
    ensures Everything(Apply(s, step)) == Everything(s)
  {
    hide Total, Held, OwnMove, Exchange, Pushed, Claim, LocalOk, SlotOk;
    var c := step.c;
    var x := s.cpus[c];
    if Traffic(step) {
      ExchangeConserves(s, step);
    } else if OwnStep(step) {
      OwnMoveHeld(x, step, Polled(s, step));
      SameHeld(s.cpus, c, OwnMove(x, step, Polled(s, step)));
    } else if step.Release? {
      ReleasedHeld(x);
      SameHeld(s.cpus, c, Released(x));
    } else if step.PushOne? {
      assert Inv(State(s.cpus, multiset{}, multiset{}));
      PushFacts(s.cpus, c);
      PushTotal(s.cpus, c);
    } else if step.ClaimBest? {
      ClaimTotal(s.cpus, c, x.control.best, Retrying(x.control.second));
    } else {
      ClaimTotal(s.cpus, c, x.control.second, Outside);
    }
  }

  lemma ReleasedHeld(x: Cpu)
    requires x.control.Releasing?
    ensures Held(Released(x)) == Held(x)
  {}

  // ---------------------------------------------------------------- whole runs

  ghost predicate Run(run: seq<State>, steps: seq<Step>) {
    && |run| == |steps| + 1 && Init(run[0])
    && forall i :: 0 <= i < |steps| ==> |run[i].cpus| < U32 && Enabled(run[i], steps[i]) && run[i + 1] == Apply(run[i], steps[i])
  }

  lemma {:induction false} RunInv(run: seq<State>, steps: seq<Step>, i: nat)
    requires Run(run, steps) && i < |run|
    ensures Inv(run[i]) && Everything(run[i]) == Everything(run[0])
  {
    hide Inv, Init, Enabled, Apply, Everything;
    if i == 0 {
      InitInv(run[0]);
    } else {
      RunInv(run, steps, i - 1);
      StepInv(run[i - 1], steps[i - 1]);
      StepConserves(run[i - 1], steps[i - 1]);
      assert run[i - 1 + 1] == Apply(run[i - 1], steps[i - 1]);
    }
  }

  // The slot of target names sender.
  predicate Names(s: State, target: int, sender: int) {
    0 <= target < |s.cpus| && 0 <= sender < U32 && s.cpus[target].slot == Pack(sender, true)
  }

  lemma AtMostOneSlot(run: seq<State>, steps: seq<Step>, i: nat, sender: int, t0: int, t1: int)
    requires Run(run, steps) && i < |run| && Names(run[i], t0, sender) && Names(run[i], t1, sender)
    ensures t0 == t1
  {
    RunInv(run, steps, i);
    assert SlotOk(run[i].cpus, t0) && SlotOk(run[i].cpus, t1);
  }

  // CPU c is at a point where it reads or writes the migration list of owner.
  predicate Touches(s: State, c: int, owner: int) {
    && 0 <= c < |s.cpus|
    && var k := s.cpus[c].control;
       (c == owner && (k.Draining? || k.InHand?)) || (k.Pushing? && 0 <= k.word && Sender(k.word) == owner)
  }

  lemma ListTouchedByOne(run: seq<State>, steps: seq<Step>, i: nat, owner: int, c: int, d: int)
    requires Run(run, steps) && i < |run| && Touches(run[i], c, owner) && Touches(run[i], d, owner)
    ensures c == d
  {
    hide Inv, Touches;
    RunInv(run, steps, i);
    TouchMeans(run[i], c, owner);
    TouchMeans(run[i], d, owner);
  }

  lemma TouchMeans(s: State, c: int, owner: int)
    requires Inv(s) && Touches(s, c, owner)
    ensures 0 <= owner < |s.cpus| && 0 <= c < |s.cpus|
    ensures var k := s.cpus[owner].control; (c == owner && (k.Draining? || k.InHand?)) || k == Waiting(c)
  {
    hide Delivered, Kept, Ends;
    assert LocalOk(s.cpus[c], c, |s.cpus|) && SlotOk(s.cpus, c);
  }

  // The compare-and-swap that ends a migration never fails. By then the target has kept the front
  // of the queue it started from, at least half if its count was exact, and the sender's list holds
  // exactly the rest.
  lemma ReleaseSucceeds(run: seq<State>, steps: seq<Step>, i: nat, c: int)
    requires Run(run, steps) && i < |run| && 0 <= c < |run[i].cpus| && run[i].cpus[c].control.Releasing?
    ensures run[i].cpus[c].slot == run[i].cpus[c].control.word >= 0
    ensures var x := run[i].cpus[c]; var r := Sender(x.slot); var k := x.control;
      && k.take <= |k.whole| && x.queue == Kept(k.whole, k.take)
      && 0 <= r < |run[i].cpus| && run[i].cpus[r].migration == Due(k.whole, k.take)
      && (Drift(x) == 0 ==> 2 * |x.queue| >= |k.whole|)
      && Half((|k.whole| + Drift(x)) % 0x1_0000_0000, |run[i].cpus[r].migration|)
  {
    hide Everything, Inv, Half, Kept, Due, Drift;
    RunInv(run, steps, i);
    ReleasingAt(run[i], c);
  }

  lemma ReleasingAt(s: State, c: int)
    requires Inv(s) && 0 <= c < |s.cpus| && s.cpus[c].control.Releasing?
    ensures s.cpus[c].slot == s.cpus[c].control.word >= 0
    ensures var x := s.cpus[c]; var r := Sender(x.slot); var k := x.control;
      && k.take <= |k.whole| && x.queue == Kept(k.whole, k.take)
      && 0 <= r < |s.cpus| && s.cpus[r].migration == Due(k.whole, k.take)
      && (Drift(x) == 0 ==> 2 * |x.queue| >= |k.whole|)
      && Half((|k.whole| + Drift(x)) % 0x1_0000_0000, |s.cpus[r].migration|)
  {
    var x := s.cpus[c];
    assert LocalOk(x, c, |s.cpus|) && SlotOk(s.cpus, c);
    hide Inv, LocalOk, Share, Drift, Half;
    SoberShare(|x.control.whole|, Drift(x));
    ShareIsHalf((|x.control.whole| + Drift(x)) % U32);
    DueLength(x.control.whole, x.control.take);
    KeptLength(x.control.whole, x.control.take);
    hide Due, Kept;
  }

  lemma KeptLength(whole: seq<Task>, take: nat)
    requires take <= |whole|
    ensures |Kept(whole, take)| == |whole| - take
  {}

  // Of n tasks half go, rounded down, but none if there are at most two.
  predicate Half(n: int, gone: int) {
    if n <= 2 then gone == 0 else 2 * gone <= n <= 2 * gone + 1
  }

  lemma ShareIsHalf(n: nat)
    ensures Half(n, Share(n))
  {}

  lemma DueLength(whole: seq<Task>, take: nat)
    requires take <= |whole|
    ensures |Due(whole, take)| == take
  {}

  // In terms of the run: the handler goes by the length of the queue it found less the number of
  // tasks that have ended on its CPU, in 32 bits.
  lemma HalfGoes(run: seq<State>, steps: seq<Step>, i: nat, c: int)
    requires Run(run, steps) && i < |run| && 0 <= c < |run[i].cpus| && run[i].cpus[c].control.Releasing?
    ensures run[i].cpus[c].slot >= 0
    ensures var x := run[i].cpus[c]; var whole := x.control.whole; var r := Sender(x.slot);
      && 0 <= r < |run[i].cpus| && |x.queue| + |run[i].cpus[r].migration| == |whole|
      && Half((|whole| - Exits(steps[..i], c)) % 0x1_0000_0000, |run[i].cpus[r].migration|)
      && (Exits(steps[..i], c) == 0 && |whole| < 0x1_0000_0000 ==> Half(|whole|, |run[i].cpus[r].migration|))
  {
    hide Everything, Half, Exits, Apply, Enabled, Init;
    ReleaseSucceeds(run, steps, i, c);
    CountIs(run, steps, i, c);
    var x := run[i].cpus[c];
    DueLength(x.control.whole, x.control.take);
    SeenCount(|x.control.whole|, |x.queue|, Exits(steps[..i], c));
  }

  // What drift and exits make of a count is the same in 32 bits.
  lemma SeenCount(whole: nat, queue: nat, exits: nat)
    ensures (whole + ((queue - exits) % U64 - queue) % U64) % U32 == (whole - exits) % U32
  {
    var q := (queue - exits) / U64;
    var d := (queue - exits) % U64 - queue;
    assert d == 0 - exits - q * U64;
    var e := d / U64;
    assert whole + d % U64 == (whole - exits) + U32 * (U32 * (0 - q - e));
    Multiple(whole - exits, U32 * (0 - q - e));
  }

  lemma Multiple(x: int, k: int)
    ensures (x + U32 * k) % U32 == x % U32
  {}

  // What stays and what goes make up the whole queue, and the tail goes in reverse order.
  lemma {:induction false} ReversedAt(s: seq<Task>, k: nat)
    requires k < |s|
    ensures Reversed(s)[k] == s[|s| - 1 - k]
  {
    if k < |s| - 1 {
      ReversedAt(s[1..], k);
    }
  }

  lemma QueueSplit(whole: seq<Task>, take: nat, k: nat)
    requires k < take <= |whole|
    ensures whole == Kept(whole, take) + whole[|Kept(whole, take)|..]
    ensures Due(whole, take)[k] == whole[|whole| - 1 - k] && |Due(whole, take)| + |Kept(whole, take)| == |whole|
  {
    ReversedAt(whole[|whole| - take..], k);
  }

  // While it takes its half, the handler of a sober CPU never meets an empty queue.
  lemma TailPresent(run: seq<State>, steps: seq<Step>, i: nat, c: int)
    requires Run(run, steps) && i < |run| && Enabled(run[i], TakeTail(c)) && Sober(run[i].cpus[c])
    ensures run[i].cpus[c].queue != []
  {
    hide Inv, Enabled, Sober, Everything;
    RunInv(run, steps, i);
    TailAt(run[i], c);
  }

  lemma TailAt(s: State, c: int)
    requires Inv(s) && Enabled(s, TakeTail(c)) && Sober(s.cpus[c])
    ensures s.cpus[c].queue != []
  {
    hide Kept, Due, Share, Drift;
    var x := s.cpus[c];
    assert LocalOk(x, c, |s.cpus|);
    SoberShare(|x.control.whole|, Drift(x));
  }

  // How many tasks have ended on CPU c.
  function Exits(steps: seq<Step>, c: int): nat {
    if steps == [] then 0
    else Exits(steps[..|steps| - 1], c) + if steps[|steps| - 1] == Exit(c) then 1 else 0
  }

  // The running count is the length of the run queue less the number of tasks that have ended there.
  lemma {:induction false} CountIs(run: seq<State>, steps: seq<Step>, i: nat, c: int)
    requires Run(run, steps) && i < |run| && 0 <= c < |run[i].cpus|
    ensures run[i].cpus[c].nrRunning == (|run[i].cpus[c].queue| - Exits(steps[..i], c)) % U64
  {
    hide Init, Enabled, Apply, Inv, Drift, Everything;
    if i == 0 {
      InitExact(run[0], c);
    } else {
      RunInv(run, steps, i - 1);
      assert run[i - 1 + 1] == Apply(run[i - 1], steps[i - 1]);
      SameCount(run[i - 1], steps[i - 1]);
      DriftStep(run[i - 1], steps[i - 1], c);
      CountIs(run, steps, i - 1, c);
      ExitsNext(steps, i, c);
      hide Exits;
      RunInv(run, steps, i);
      CountBelow(run[i], c);
      DriftExits(run[i - 1].cpus[c], run[i].cpus[c], Exits(steps[..i - 1], c), steps[i - 1] == Exit(c));
    }
  }

  lemma ExitsNext(steps: seq<Step>, i: nat, c: int)
    requires 0 < i <= |steps|
    ensures Exits(steps[..i], c) == Exits(steps[..i - 1], c) + if steps[i - 1] == Exit(c) then 1 else 0
  {
    assert steps[..i][..i - 1] == steps[..i - 1];
  }

  lemma CountBelow(s: State, c: int)
    requires Inv(s) && 0 <= c < |s.cpus|
    ensures s.cpus[c].nrRunning < U64
  {
    assert LocalOk(s.cpus[c], c, |s.cpus|);
  }

  lemma DriftExits(x: Cpu, y: Cpu, exits: nat, ends: bool)
    requires x.nrRunning == (|x.queue| - exits) % U64 && y.nrRunning < U64
    requires Drift(y) == if ends then (Drift(x) - 1) % U64 else Drift(x)
    ensures y.nrRunning == (|y.queue| - (exits + if ends then 1 else 0)) % U64
  {}

  lemma SameCount(s: State, step: Step)
    requires |s.cpus| < U32 && Enabled(s, step)
    ensures |Apply(s, step).cpus| == |s.cpus|
  {
    hide OwnMove, Enqueued, Dequeued, Released;
  }

  lemma InitExact(s: State, c: int)
    requires Init(s) && 0 <= c < |s.cpus|
    ensures s.cpus[c].nrRunning == |s.cpus[c].queue| % U64
  {}

  // No step but the end of a task changes how far a count is ahead of its queue.
  lemma DriftStep(s: State, step: Step, c: int)
    requires |s.cpus| < U32 && Enabled(s, step) && 0 <= c < |s.cpus|
    ensures |Apply(s, step).cpus| == |s.cpus|
    ensures step != Exit(c) ==> Drift(Apply(s, step).cpus[c]) == Drift(s.cpus[c])
    ensures step == Exit(c) ==> Drift(Apply(s, step).cpus[c]) == (Drift(s.cpus[c]) - 1) % U64
  {
    if step.c != c {
      hide OwnMove, Enqueued, Dequeued, Released, Drift;
      SameCount(s, step);
      SameDrift(s.cpus[c], Apply(s, step).cpus[c]);
    } else if step == Exit(c) {
      ExitDrift(s.cpus[c]);
    } else {
      OwnDrift(s, step);
    }
  }

  lemma ExitDrift(x: Cpu)
    ensures Drift(x.(current := Idle, nrRunning := (x.nrRunning - 1) % U64)) == (Drift(x) - 1) % U64
  {}

  lemma OwnDrift(s: State, step: Step)
    requires |s.cpus| < U32 && Enabled(s, step) && !step.Exit?
    ensures |Apply(s, step).cpus| == |s.cpus| && Drift(Apply(s, step).cpus[step.c]) == Drift(s.cpus[step.c])
  {
    var c := step.c;
    var x := s.cpus[c];
    SameCount(s, step);
    if step.Wake? {
      EnqueuedDrift(x, step.task);
    } else if step.Preempt? {
      EnqueuedDrift(x, x.current.task);
      SameDrift(Enqueued(x, x.current.task), Apply(s, step).cpus[c]);
    } else if step.PickNext? {
      DequeuedDrift(x, 0);
      SameDrift(Dequeued(x, 0), Apply(s, step).cpus[c]);
    } else if step.EnqueueMigrated? {
      EnqueuedDrift(x, x.control.task);
      SameDrift(Enqueued(x, x.control.task), Apply(s, step).cpus[c]);
    } else if step.TakeTail? && x.queue != [] {
      DequeuedDrift(x, |x.queue| - 1);
      SameDrift(Dequeued(x, |x.queue| - 1), Apply(s, step).cpus[c]);
    } else {
      KeepsCount(s, step);
      SameDrift(x, Apply(s, step).cpus[c]);
    }
  }

  lemma KeepsCount(s: State, step: Step)
    requires |s.cpus| < U32 && Enabled(s, step) && (step.TakeTail? ==> s.cpus[step.c].queue == [])
    requires !(step.Wake? || step.Preempt? || step.PickNext? || step.Exit? || step.EnqueueMigrated?)
    ensures var y := Apply(s, step).cpus;
      |y| == |s.cpus| && y[step.c].nrRunning == s.cpus[step.c].nrRunning && y[step.c].queue == s.cpus[step.c].queue
  {
    hide Dequeued, Enqueued;
  }

  // ---------------------------------------------------------------- the order of service

  function Picks(steps: seq<Step>, c: int): nat {
    if steps == [] then 0
    else Picks(steps[..|steps| - 1], c) + if steps[|steps| - 1] == PickNext(c) then 1 else 0
  }

  // Task t stands at place k of the run queue of CPU c.
  predicate Queued(s: State, c: int, k: int, t: Task) {
    0 <= c < |s.cpus| && 0 <= k < |s.cpus[c].queue| && s.cpus[c].queue[k] == t
  }

  // A wakened, preempted or migrated task goes to the end of the queue.
  lemma JoinsLast(s: State, step: Step)
    requires |s.cpus| < U32 && Enabled(s, step) && (step.Wake? || step.Preempt? || step.EnqueueMigrated?)
    ensures var x := s.cpus[step.c];
      var t := if step.Wake? then step.task else if step.Preempt? then x.current.task else x.control.task;
      |Apply(s, step).cpus| == |s.cpus| && Queued(Apply(s, step), step.c, |x.queue|, t)
  {}

  // The front task runs after PickNext, and every other task of the queue moves up by one. No other
  // step moves a queued task, but TakeTail, which takes the last.
  lemma MovesUp(s: State, step: Step, c: int, k: nat, t: Task)
    requires |s.cpus| < U32 && Enabled(s, step) && Queued(s, c, k, t)
    ensures |Apply(s, step).cpus| == |s.cpus|
    ensures step == PickNext(c) && k == 0 ==> Apply(s, step).cpus[c].current == Running(t)
    ensures step == PickNext(c) && k > 0 ==> Queued(Apply(s, step), c, k - 1, t)
    ensures step == TakeTail(c) && k < |s.cpus[c].queue| - 1 ==> Queued(Apply(s, step), c, k, t)
    ensures step != PickNext(c) && step != TakeTail(c) ==> Queued(Apply(s, step), c, k, t)
  {
    hide Busiest, Drift;
    if step.c == c {
      OwnMovesUp(s, step, k, t);
    } else {
      OthersQueue(s, step, c);
    }
  }

  // No CPU touches the queue of another.
  lemma OthersQueue(s: State, step: Step, c: int)
    requires |s.cpus| < U32 && Enabled(s, step) && 0 <= c < |s.cpus| && step.c != c
    ensures |Apply(s, step).cpus| == |s.cpus| && Apply(s, step).cpus[c].queue == s.cpus[c].queue
  {
    hide Busiest, OwnMove, Polled, Drift;
  }

  lemma OwnMovesUp(s: State, step: Step, k: nat, t: Task)
    requires |s.cpus| < U32 && Enabled(s, step) && Queued(s, step.c, k, t)
    ensures |Apply(s, step).cpus| == |s.cpus|
    ensures step.PickNext? && k == 0 ==> Apply(s, step).cpus[step.c].current == Running(t)
    ensures step.PickNext? && k > 0 ==> Queued(Apply(s, step), step.c, k - 1, t)
    ensures step.TakeTail? && k < |s.cpus[step.c].queue| - 1 ==> Queued(Apply(s, step), step.c, k, t)
    ensures !step.PickNext? && !step.TakeTail? ==> Queued(Apply(s, step), step.c, k, t)
  {
    hide Busiest, Polled, Drift;
    if Traffic(step) {
      ExchangeQueue(s, step);
      hide OwnMove, Claim, Pushed, Released, Exchange;
    } else if OwnStep(step) {
      OwnMoveQueue(s.cpus[step.c], step, Polled(s, step));
      hide OwnMove, Claim, Pushed, Released, Exchange;
    } else {
      hide OwnMove, Exchange;
    }
  }

  lemma ExchangeQueue(s: State, step: Step)
    requires Enabled(s, step) && Traffic(step)
    ensures var x, x' := s.cpus[step.c], Exchange(s, step).cpus[step.c];
      && |Exchange(s, step).cpus| == |s.cpus|
      && (step.PickNext? ==> x'.queue == x.queue[1..] && x'.current == Running(x.queue[0]))
      && (!step.PickNext? ==> x.queue <= x'.queue)
  {
    hide Busiest;
  }

  // Own steps leave the queue alone but for the task that is enqueued or taken at its end.
  lemma OwnMoveQueue(x: Cpu, step: Step, polled: int)
    requires Ready(x, step) && OwnStep(step)
    ensures var q := OwnMove(x, step, polled).queue;
      if step.EnqueueMigrated? then q == x.queue + [x.control.task]
      else if step.TakeTail? && x.queue != [] then q == x.queue[..|x.queue| - 1]
      else q == x.queue
  {}

  // Round robin: in every run, while no task is taken away to another CPU, a queued task has moved
  // up by as many places as tasks have been picked, and once that are as many as stood before it,
  // the next pick runs it.
  lemma {:induction false} RoundRobin(run: seq<State>, steps: seq<Step>, i: nat, j: nat, c: int, k: nat, t: Task)
    requires Run(run, steps) && i <= j < |run| && Queued(run[i], c, k, t)
    requires forall n :: i <= n < j ==> steps[n] != TakeTail(c)
    requires Picks(steps[i..j], c) <= k
    ensures Queued(run[j], c, k - Picks(steps[i..j], c), t)
    ensures j < |steps| && steps[j] == PickNext(c) && Picks(steps[i..j], c) == k ==> run[j + 1].cpus[c].current == Running(t)
    decreases j
  {
    hide Enabled, Apply;
    if i < j {
      assert steps[i..j][..j - 1 - i] == steps[i..j - 1];
      RoundRobin(run, steps, i, j - 1, c, k, t);
      StepsOn(run, steps, j - 1);
      MovesUp(run[j - 1], steps[j - 1], c, k - Picks(steps[i..j - 1], c), t);
    }
    if j < |steps| {
      StepsOn(run, steps, j);
      MovesUp(run[j], steps[j], c, k - Picks(steps[i..j], c), t);
    }
  }

  lemma StepsOn(run: seq<State>, steps: seq<Step>, i: nat)
    requires Run(run, steps) && i < |steps|
    ensures i + 1 < |run| && |run[i].cpus| < U32 && Enabled(run[i], steps[i]) && run[i + 1] == Apply(run[i], steps[i])
  {
    hide Everything;
    RunInv(run, steps, i);
  }

  // A request goes to the busiest CPU if its slot is free, else to the second, and else it is
  // given up.
  lemma ClaimOrder(s: State, c: int)
    requires Inv(s) && 0 <= c < |s.cpus|
    ensures s.cpus[c].control.Choosing? ==>
      Enabled(s, ClaimBest(c)) && Asked(s, Apply(s, ClaimBest(c)), c, s.cpus[c].control.best, Retrying(s.cpus[c].control.second))
    ensures s.cpus[c].control.Retrying? ==>
      Enabled(s, ClaimSecond(c)) && Asked(s, Apply(s, ClaimSecond(c)), c, s.cpus[c].control.second, Outside)
  {
    assert LocalOk(s.cpus[c], c, |s.cpus|);
  }

  // CPU c has asked for the slot of target and waits for it, or goes on with k.
  ghost predicate Asked(s: State, s': State, c: int, target: int, k: Control)
    requires 0 <= c < |s.cpus|
  {
    && |s'.cpus| == |s.cpus| && s'.elsewhere == s.elsewhere && s'.ended == s.ended
    && var got := 0 <= target < |s.cpus| && s.cpus[target].slot == 0x1_FFFF_FFFE;
       forall d :: 0 <= d < |s.cpus| ==>
         s'.cpus[d] == s.cpus[d].(slot := if got && d == target then 2 * c + 1 else s.cpus[d].slot,
                                  control := if d == c then (if got then Waiting(target) else k) else s.cpus[d].control)
  }

  // A CPU outside the protocol has nothing left on its migration list.
  lemma NothingStranded(run: seq<State>, steps: seq<Step>, i: nat, c: int)
    requires Run(run, steps) && i < |run| && 0 <= c < |run[i].cpus|
    ensures run[i].cpus[c].control.Outside? ==> run[i].cpus[c].migration == []
  {
    RunInv(run, steps, i);
    assert LocalOk(run[i].cpus[c], c, |run[i].cpus|);
  }

  // A CPU that empties its migration list: what it has queued, holds in hand and still has to take.
  predicate Drains(x: Cpu) {
    x.control.Draining? || x.control.InHand?
  }

  function Stream(x: Cpu): seq<Task> {
    x.queue + (if x.control.InHand? then [x.control.task] else []) + x.migration
  }

  lemma DrainStep(s: State, step: Step, c: int)
    requires Inv(s) && Enabled(s, step) && 0 <= c < |s.cpus| && Drains(s.cpus[c])
    ensures |Apply(s, step).cpus| == |s.cpus| && Stream(Apply(s, step).cpus[c]) == Stream(s.cpus[c])
  {
    var x := s.cpus[c];
    if step.c == c {
      OwnDrain(x, step, Polled(s, step));
    } else {
      OthersKeep(s, step, c);
    }
  }

  lemma OwnDrain(x: Cpu, step: Step, polled: int)
    requires Drains(x) && Ready(x, step)
    ensures OwnStep(step) && Stream(OwnMove(x, step, polled)) == Stream(x)
  {
    if step.PopMigration? {
      assert x.migration == [x.migration[0]] + x.migration[1..];
    }
  }

  // No other CPU touches the queue, the list or the control point of one that drains.
  lemma OthersKeep(s: State, step: Step, c: int)
    requires Inv(s) && Enabled(s, step) && 0 <= c < |s.cpus| && Drains(s.cpus[c]) && step.c != c
    ensures |Apply(s, step).cpus| == |s.cpus|
    ensures var x, y := s.cpus[c], Apply(s, step).cpus[c];
      y.queue == x.queue && y.migration == x.migration && y.control == x.control
  {
    hide Delivered, OwnMove, Kept, Due, Ends, Released, Dequeued, Enqueued, Drift, Share;
    if step.PushOne? {
      hide Claim;
      assert LocalOk(s.cpus[step.c], step.c, |s.cpus|) && SlotOk(s.cpus, step.c);
    } else {
      hide Pushed, SlotOk, LocalOk;
    }
  }

  // In every run, while a CPU drains, its queue takes over the list in order and nothing else.
  lemma {:induction false} DrainsInOrder(run: seq<State>, steps: seq<Step>, i: nat, j: nat, c: int)
    requires Run(run, steps) && i <= j < |run| && 0 <= c < |run[i].cpus|
    requires forall k :: i <= k < j ==> 0 <= c < |run[k].cpus| && Drains(run[k].cpus[c])
    ensures |run[j].cpus| == |run[i].cpus| && Stream(run[j].cpus[c]) == Stream(run[i].cpus[c])
  {
    hide Inv, Init, Enabled, Apply, Stream, Drains, Everything;
    if i < j {
      DrainsInOrder(run, steps, i, j - 1, c);
      RunInv(run, steps, j - 1);
      DrainStep(run[j - 1], steps[j - 1], c);
      assert run[j - 1 + 1] == Apply(run[j - 1], steps[j - 1]);
    }
  }

  // When it leaves, the whole list has been appended to its queue.
  lemma DrainAppends(run: seq<State>, steps: seq<Step>, i: nat, j: nat, c: int)
    requires Run(run, steps) && i < j < |run| && 0 <= c < |run[i].cpus| && run[i].cpus[c].control.Draining?
    requires forall k :: i <= k < j ==> 0 <= c < |run[k].cpus| && Drains(run[k].cpus[c])
    requires c < |run[j].cpus| && run[j].cpus[c].control.Outside?
    ensures run[j].cpus[c].queue == run[i].cpus[c].queue + run[i].cpus[c].migration
  {
    DrainsInOrder(run, steps, i, j, c);
    NothingStranded(run, steps, j, c);
    var x, y := run[i].cpus[c], run[j].cpus[c];
    assert Stream(x) == x.queue + x.migration && Stream(y) == y.queue;
  }

  // With every task present once at the start, no task is ever in two places.
  lemma TaskInOnePlace(run: seq<State>, steps: seq<Step>, i: nat, c: int, d: int, task: Task)
    requires Run(run, steps) && i < |run| && Everything(run[0])[task] <= 1
    requires 0 <= c < d < |run[i].cpus|
    ensures Held(run[i].cpus[c])[task] + Held(run[i].cpus[d])[task] + run[i].elsewhere[task] + run[i].ended[task] <= 1
  {
    hide Held, Total, Inv;
    RunInv(run, steps, i);
    HeldApart(run[i].cpus, c, d);
  }
}
