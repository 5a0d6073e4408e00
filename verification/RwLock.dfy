/**
 * The reader/writer spinlock: one 32-bit word with a reader count, a writer bit and a bit that
 * says a writer waits. Every atomic access is one step, and the steps of the threads interleave
 * freely; a weak compare-and-swap may fail for no reason.
 */
module RwLock {
  const WORD: int := 0x1_0000_0000
  const WRITE_LOCKED: int := 0x4000_0000
  const WRITE_WAITING: int := 0x8000_0000

  predicate Locked(word: int) {
    word / WRITE_LOCKED % 2 == 1
  }

  predicate Waited(word: int) {
    word / WRITE_WAITING % 2 == 1
  }

  function ReaderBits(word: int): int {
    word % WRITE_LOCKED
  }

  datatype Thread =
    | Outside
    | WantRead
    | ReadSeen(seen: int)
    | Reading
    | WantWrite
    | WriteSeen(seen: int)
    | Writing

  datatype Lock = Lock(word: int, threads: seq<Thread>)

  datatype Step =
    | ReadBegin(t: nat)
    | ReadLoad(t: nat)
    | ReadTry(t: nat, spurious: bool)
    | ReadUnlock(t: nat)
    | WriteBegin(t: nat)
    | WriteLoad(t: nat)
    | WriteTry(t: nat, spurious: bool)
    | WriteUnlock(t: nat)

  predicate Enabled(l: Lock, step: Step) {
    && step.t < |l.threads|
    && var x := l.threads[step.t];
       match step
       case ReadBegin(_) => x.Outside?
       case ReadLoad(_) => x.WantRead?
       case ReadTry(_, _) => x.ReadSeen?
       case ReadUnlock(_) => x.Reading?
       case WriteBegin(_) => x.Outside?
       case WriteLoad(_) => x.WantWrite?
       case WriteTry(_, _) => x.WriteSeen?
       case WriteUnlock(_) => x.Writing?
  }

  // The word after the step and what becomes of the thread.
  function Effect(word: int, x: Thread, step: Step): (int, Thread)
    requires step.ReadTry? ==> x.ReadSeen?
    requires step.WriteTry? ==> x.WriteSeen?
  {
    match step
    case ReadBegin(_) => (word, WantRead)
    case ReadLoad(_) => (word, ReadSeen(word))
    case ReadTry(_, spurious) =>
      if !Locked(x.seen) && !Waited(x.seen) && word == x.seen && !spurious then ((word + 1) % WORD, Reading)
      else (word, WantRead)
    case ReadUnlock(_) => ((word - 1) % WORD, Outside)
    case WriteBegin(_) => (word, WantWrite)
    case WriteLoad(_) => (word, WriteSeen(word))
    case WriteTry(_, spurious) =>
      if x.seen == 0 then
        if word == x.seen && !spurious then (WRITE_LOCKED, Writing) else (word, WantWrite)
      else if !Waited(x.seen) then (if Waited(word) then word else word + WRITE_WAITING, WantWrite)
      else (word, WantWrite)
    case WriteUnlock(_) => (0, Outside)
  }

  function Apply(l: Lock, step: Step): Lock
    requires Enabled(l, step)
  {
    var e := Effect(l.word, l.threads[step.t], step);
    Lock(e.0, l.threads[step.t := e.1])
  }

  // rwlock_init, and fewer threads than the reader count can hold
  ghost predicate Init(l: Lock) {
    l.word == 0 && |l.threads| < WRITE_LOCKED && forall t :: 0 <= t < |l.threads| ==> l.threads[t] == Outside
  }

  function Readers(threads: seq<Thread>): nat {
    if threads == [] then 0 else (if threads[0].Reading? then 1 else 0) + Readers(threads[1..])
  }

  function Writers(threads: seq<Thread>): nat {
    if threads == [] then 0 else (if threads[0].Writing? then 1 else 0) + Writers(threads[1..])
  }

  // The word counts the readers, its bit 30 tells of a writer, and a writer is alone.
  ghost predicate Inv(l: Lock) {
    && |l.threads| < WRITE_LOCKED && 0 <= l.word < WORD
    && ReaderBits(l.word) == Readers(l.threads)
    && Writers(l.threads) == (if Locked(l.word) then 1 else 0)
    && (Locked(l.word) ==> Readers(l.threads) == 0)
    && SomeoneFresh(l)
  }

  // A writer that saw the lock taken and nobody waiting: whatever happens meanwhile, its next
  // step announces it.
  predicate Stale(x: Thread) {
    x.WriteSeen? && x.seen != 0 && !Waited(x.seen)
  }

  // While the lock is free, not every thread is such a writer.
  ghost predicate SomeoneFresh(l: Lock) {
    l.word == 0 && l.threads != [] ==> exists t :: 0 <= t < |l.threads| && !Stale(l.threads[t])
  }

  lemma {:induction false} Counts(threads: seq<Thread>, t: nat, x: Thread)
    requires t < |threads|
    ensures Readers(threads[t := x]) + (if threads[t].Reading? then 1 else 0) == Readers(threads) + (if x.Reading? then 1 else 0)
    ensures Writers(threads[t := x]) + (if threads[t].Writing? then 1 else 0) == Writers(threads) + (if x.Writing? then 1 else 0)
  {
    if t == 0 {
      assert threads[t := x][1..] == threads[1..];
    } else {
      Counts(threads[1..], t - 1, x);
      assert threads[t := x][1..] == threads[1..][t - 1 := x];
    }
  }

  lemma {:induction false} CountBounds(threads: seq<Thread>)
    ensures Readers(threads) + Writers(threads) <= |threads|
  {
    if threads != [] {
      CountBounds(threads[1..]);
    }
  }

  lemma {:induction false} NoneYet(threads: seq<Thread>)
    requires forall t :: 0 <= t < |threads| ==> threads[t] == Outside
    ensures Readers(threads) == 0 && Writers(threads) == 0
  {
    if threads != [] {
      NoneYet(threads[1..]);
    }
  }

  // Taking one part out of the word leaves the others alone.
  lemma Bits(word: int)
    requires 0 <= word < WORD
    ensures word == ReaderBits(word) + (if Locked(word) then WRITE_LOCKED else 0) + (if Waited(word) then WRITE_WAITING else 0)
  {}

  lemma Compose(readers: int, locked: bool, waited: bool)
    requires 0 <= readers < WRITE_LOCKED
    ensures var word := readers + (if locked then WRITE_LOCKED else 0) + (if waited then WRITE_WAITING else 0);
      0 <= word < WORD && ReaderBits(word) == readers && (Locked(word) <==> locked) && (Waited(word) <==> waited)
  {}

  // A schedule that the threads can follow from l, and where it leads.
  ghost predicate Legal(l: Lock, steps: seq<Step>)
    decreases |steps|
  {
    steps == [] || (Enabled(l, steps[0]) && Legal(Apply(l, steps[0]), steps[1..]))
  }

  ghost function After(l: Lock, steps: seq<Step>): Lock
    requires Legal(l, steps)
    decreases |steps|
  {
    if steps == [] then l else After(Apply(l, steps[0]), steps[1..])
  }

  // A writer is announced while nobody holds the lock for writing.
  predicate Jammed(l: Lock) {
    Waited(l.word) && !Locked(l.word)
  }

  // What a step does to the word, in terms of its three parts, and who enters.
  lemma EffectParts(word: int, x: Thread, step: Step, readers: nat)
    requires 0 <= word < WORD && ReaderBits(word) == readers
    requires step.ReadTry? ==> x.ReadSeen?
    requires step.WriteTry? ==> x.WriteSeen?
    requires step.ReadTry? ==> readers + 1 < WRITE_LOCKED
    requires step.ReadUnlock? ==> x.Reading? && readers > 0
    requires step.WriteUnlock? ==> x.Writing? && readers == 0 && Locked(word)
    ensures var e := Effect(word, x, step);
      && 0 <= e.0 < WORD
      && ReaderBits(e.0) == readers + (if e.1.Reading? then 1 else 0) - (if step.ReadUnlock? then 1 else 0)
      && (Locked(e.0) <==> e.1.Writing? || (Locked(word) && !step.WriteUnlock?))
      && (Waited(e.0) <==> (Waited(word) && !step.WriteUnlock?) || (step.WriteTry? && x.seen != 0 && !Waited(x.seen)))
      && (e.1.Reading? <==> step.ReadTry? && !step.spurious && x.seen == word && !Locked(word) && !Waited(word))
      && (e.1.Writing? <==> step.WriteTry? && !step.spurious && x.seen == word == 0)
      && (e.1.Writing? ==> readers == 0 && !Locked(word) && !Waited(word))
  {
    WordParts(word, x, step, readers);
    Compose(0, false, false);
    hide Locked, Waited, ReaderBits;
  }

  lemma WordParts(word: int, x: Thread, step: Step, readers: nat)
    requires 0 <= word < WORD && ReaderBits(word) == readers
    requires step.ReadTry? ==> x.ReadSeen?
    requires step.WriteTry? ==> x.WriteSeen?
    requires step.ReadTry? ==> readers + 1 < WRITE_LOCKED
    requires step.ReadUnlock? ==> x.Reading? && readers > 0
    requires step.WriteUnlock? ==> x.Writing? && readers == 0 && Locked(word)
    ensures var e := Effect(word, x, step);
      && 0 <= e.0 < WORD
      && ReaderBits(e.0) == readers + (if e.1.Reading? then 1 else 0) - (if step.ReadUnlock? then 1 else 0)
      && (Locked(e.0) <==> e.1.Writing? || (Locked(word) && !step.WriteUnlock?))
      && (Waited(e.0) <==> (Waited(word) && !step.WriteUnlock?) || (step.WriteTry? && x.seen != 0 && !Waited(x.seen)))
  {
    assert readers < WRITE_LOCKED;
    hide Locked, Waited, ReaderBits;
    Bits(word);
    var locked, waited := Locked(word), Waited(word);
    if step.ReadTry? {
      Compose(readers + 1, locked, waited);
    } else if step.ReadUnlock? {
      Compose(readers - 1, locked, waited);
    } else {
      Compose(readers, locked, true);
      Compose(0, false, false);
      Compose(0, true, false);
    }
  }

  lemma {:induction false} HolderCounted(threads: seq<Thread>, t: nat)
    requires t < |threads|
    ensures threads[t].Reading? ==> Readers(threads) > 0
    ensures threads[t].Writing? ==> Writers(threads) > 0
  {
    if t > 0 {
      HolderCounted(threads[1..], t - 1);
    }
  }

  lemma StepInv(l: Lock, step: Step)
    requires Inv(l) && Enabled(l, step)
    ensures Inv(Apply(l, step))
    ensures var x := Apply(l, step).threads[step.t];
      (x.Reading? ==> !Locked(l.word) && !Waited(l.word)) && (x.Writing? ==> l.word == 0)
    ensures Jammed(l) ==> Jammed(Apply(l, step))
  {
    StepFresh(l, step);
    hide Effect, Locked, Waited, ReaderBits, Readers, Writers, SomeoneFresh;
    var x := l.threads[step.t];
    var e := Effect(l.word, x, step);
    HolderCounted(l.threads, step.t);
    HoldsBefore(l, step);
    if !x.Reading? {
      RoomForOne(l.threads, step.t);
    }
    EffectParts(l.word, x, step, Readers(l.threads));
    Counts(l.threads, step.t, e.1);
  }

  // Whoever leaves the lock free, or finds it free, is not a stale writer.
  lemma StepFresh(l: Lock, step: Step)
    requires Enabled(l, step)
    ensures SomeoneFresh(Apply(l, step))
  {
    hide Locked, Waited;
    var l' := Apply(l, step);
    assert l'.word == 0 ==> !Stale(l'.threads[step.t]);
  }

  lemma RoomForOne(threads: seq<Thread>, t: nat)
    requires t < |threads| && !threads[t].Reading?
    ensures Readers(threads) + 1 <= |threads|
  {
    hide Readers, Writers;
    Counts(threads, t, Reading);
    CountBounds(threads[t := Reading]);
  }

  // A thread holds the lock before a step only if that step gives it back.
  lemma HoldsBefore(l: Lock, step: Step)
    requires Enabled(l, step)
    ensures l.threads[step.t].Reading? <==> step.ReadUnlock?
    ensures l.threads[step.t].Writing? <==> step.WriteUnlock?
  {}

  lemma {:induction false} ReachedInv(l: Lock, steps: seq<Step>)
    requires Inv(l) && Legal(l, steps)
    ensures Inv(After(l, steps))
    decreases |steps|
  {
    hide Inv, Apply, Enabled;
    if steps != [] {
      StepInv(l, steps[0]);
      ReachedInv(Apply(l, steps[0]), steps[1..]);
    }
  }

  // In every state of every run: the word tells who holds the lock, and a writer holds it alone.
  lemma Exclusion(start: Lock, steps: seq<Step>, t: nat, u: nat)
    requires Init(start) && Legal(start, steps) && t < |After(start, steps).threads| && u < |After(start, steps).threads|
    ensures var l := After(start, steps);
      && ReaderBits(l.word) == Readers(l.threads)
      && (Locked(l.word) <==> Writers(l.threads) == 1) && Writers(l.threads) <= 1
      && (l.threads[t].Writing? ==> Locked(l.word) && !l.threads[u].Reading? && (l.threads[u].Writing? ==> t == u))
  {
    NoneYet(start.threads);
    Compose(0, false, false);
    assert start.threads != [] ==> !Stale(start.threads[0]);
    hide Readers, Writers, Locked, ReaderBits;
    ReachedInv(start, steps);
    var l := After(start, steps);
    HolderCounted(l.threads, t);
    HolderCounted(l.threads, u);
    if l.threads[t].Writing? && t != u {
      TwoHolders(l.threads, t, u);
    }
  }

  lemma TwoHolders(threads: seq<Thread>, t: nat, u: nat)
    requires t < |threads| && u < |threads| && t != u && threads[t].Writing?
    ensures threads[u].Writing? ==> Writers(threads) >= 2
  {
    hide Readers, Writers;
    Counts(threads, t, Outside);
    HolderCounted(threads[t := Outside], u);
  }

  // While a writer waits, no step adds a reader.
  lemma WaitingStopsReaders(l: Lock, step: Step)
    requires Inv(l) && Enabled(l, step) && Waited(l.word)
    ensures Readers(Apply(l, step).threads) <= Readers(l.threads)
  {
    hide Effect, Locked, Waited, ReaderBits, Readers, Writers;
    StepInv(l, step);
    Counts(l.threads, step.t, Apply(l, step).threads[step.t]);
  }

  // ---------------------------------------------------------------- what a turn of each loop comes to

  // A turn of rwlock_read_lock that nobody disturbs: readers share the lock, whatever their number,
  // unless a writer holds it or waits.
  lemma ReadTurn(l: Lock, t: nat)
    requires Inv(l) && t < |l.threads| && l.threads[t].WantRead?
    ensures var steps := [ReadLoad(t), ReadTry(t, false)];
      && Legal(l, steps)
      && After(l, steps) ==
           if l.word < 0x4000_0000 then Lock(l.word + 1, l.threads[t := Reading]) else l
    ensures l.word < 0x4000_0000 <==> Writers(l.threads) == 0 && !Waited(l.word)
    ensures Readers(l.threads[t := Reading]) == Readers(l.threads) + 1
  {
    var w := l.word;
    Counts(l.threads, t, Reading);
    hide Readers, Writers, SomeoneFresh;
    Bits(w);
    var after := if w < 0x4000_0000 then Lock(w + 1, l.threads[t := Reading]) else l;
    FirstTwo(l, [ReadLoad(t), ReadTry(t, false)], after);
  }

  // A turn of rwlock_write_lock that nobody disturbs: only a word of zero lets the writer in, and
  // otherwise it is announced, with the readers counted as before.
  lemma WriteTurn(l: Lock, t: nat)
    requires Inv(l) && t < |l.threads| && l.threads[t].WantWrite?
    ensures var steps := [WriteLoad(t), WriteTry(t, false)];
      && Legal(l, steps)
      && After(l, steps) ==
           if l.word == 0 then Lock(0x4000_0000, l.threads[t := Writing])
           else if l.word < 0x8000_0000 then Lock(l.word + 0x8000_0000, l.threads)
           else l
  {
    hide Readers, Writers, SomeoneFresh;
    var w := l.word;
    var after :=
      if w == 0 then Lock(0x4000_0000, l.threads[t := Writing])
      else if w < 0x8000_0000 then Lock(w + 0x8000_0000, l.threads)
      else l;
    FirstTwo(l, [WriteLoad(t), WriteTry(t, false)], after);
  }

  // A compare-and-swap that meets another word than the one it saw, or fails for no reason, and a
  // reader that saw a writer, change nothing. A writer that saw a holder and nobody waiting is
  // announced whatever has become of the word.
  lemma LateTry(l: Lock, t: nat, spurious: bool)
    requires Inv(l) && t < |l.threads|
    ensures l.threads[t].ReadSeen? && (spurious || l.word != l.threads[t].seen || l.word >= 0x4000_0000) ==>
      Apply(l, ReadTry(t, spurious)) == Lock(l.word, l.threads[t := WantRead])
    ensures l.threads[t] == WriteSeen(0) && (spurious || l.word != 0) ==>
      Apply(l, WriteTry(t, spurious)) == Lock(l.word, l.threads[t := WantWrite])
    ensures l.threads[t].WriteSeen? && 0 < l.threads[t].seen < 0x8000_0000 ==>
      Apply(l, WriteTry(t, spurious)) == Lock(l.word % 0x8000_0000 + 0x8000_0000, l.threads[t := WantWrite])
    ensures l.threads[t].WriteSeen? && 0x8000_0000 <= l.threads[t].seen < 0x1_0000_0000 ==>
      Apply(l, WriteTry(t, spurious)) == Lock(l.word, l.threads[t := WantWrite])
  {
    hide Readers, Writers, SomeoneFresh;
    Bits(l.word);
  }

  // Unlocking takes one reader off, or leaves a word of zero and with it nobody announced.
  lemma Unlocks(l: Lock, t: nat)
    requires Inv(l) && t < |l.threads|
    ensures l.threads[t].Reading? ==>
      l.word % 0x4000_0000 > 0 && Apply(l, ReadUnlock(t)) == Lock(l.word - 1, l.threads[t := Outside])
    ensures l.threads[t].Writing? ==> Apply(l, WriteUnlock(t)) == Lock(0, l.threads[t := Outside])
  {
    hide Readers, Writers, SomeoneFresh;
    HolderCounted(l.threads, t);
  }

  // Any number of threads read at once: one after the other they all get in, and the word counts
  // them.
  lemma AllRead(start: Lock) returns (steps: seq<Step>)
    requires Init(start)
    ensures Legal(start, steps) && |After(start, steps).threads| == |start.threads|
    ensures After(start, steps).word == |start.threads|
    ensures forall t :: 0 <= t < |start.threads| ==> After(start, steps).threads[t].Reading?
  {
    NoneYet(start.threads);
    Compose(0, false, false);
    assert start.threads != [] ==> !Stale(start.threads[0]);
    steps := RestRead(start, 0);
  }

  // The threads from k on come in.
  lemma {:induction false} RestRead(l: Lock, k: nat) returns (steps: seq<Step>)
    requires Inv(l) && l.word == k <= |l.threads|
    requires forall t :: 0 <= t < |l.threads| ==> l.threads[t] == if t < k then Reading else Outside
    ensures Legal(l, steps) && |After(l, steps).threads| == |l.threads| && After(l, steps).word == |l.threads|
    ensures forall t :: 0 <= t < |l.threads| ==> After(l, steps).threads[t].Reading?
    decreases |l.threads| - k
  {
    hide Readers, Writers, SomeoneFresh, Inv;
    steps := [];
    if k < |l.threads| {
      var turn := OneReads(l, k);
      var rest := RestRead(After(l, turn), k + 1);
      Joined(l, turn, rest);
      steps := turn + rest;
    }
  }

  lemma OneReads(l: Lock, k: nat) returns (turn: seq<Step>)
    requires Inv(l) && l.word == k < |l.threads| && l.threads[k].Outside?
    ensures Legal(l, turn) && After(l, turn) == Lock(k + 1, l.threads[k := Reading]) && Inv(After(l, turn))
  {
    hide Readers, Writers, SomeoneFresh, Legal, After;
    var asks, last := ReadBegin(k), [ReadLoad(k), ReadTry(k, false)];
    StepInv(l, asks);
    var l1 := Apply(l, asks);
    assert |l.threads| < WRITE_LOCKED;
    ReadTurn(l1, k);
    Prefixed(l, asks, last);
    turn := [asks] + last;
    assert l1.threads[k := Reading] == l.threads[k := Reading];
    ReachedInv(l, turn);
  }

  // ---------------------------------------------------------------- when a writer can still enter

  // From there on the lock stays jammed and nobody enters any more.
  lemma {:induction false} JammedForever(l: Lock, steps: seq<Step>, t: nat)
    requires Inv(l) && Jammed(l) && Legal(l, steps) && t < |l.threads|
    ensures Jammed(After(l, steps)) && t < |After(l, steps).threads|
    ensures !After(l, steps).threads[t].Writing?
    ensures After(l, steps).threads[t].Reading? ==> l.threads[t].Reading?
    decreases |steps|
  {
    hide Effect, Locked, Waited, ReaderBits, Readers, Writers;
    HolderCounted(l.threads, t);
    if steps != [] {
      StepInv(l, steps[0]);
      JammedForever(Apply(l, steps[0]), steps[1..], t);
    }
  }

  lemma {:induction false} FindReader(threads: seq<Thread>) returns (t: nat)
    requires Readers(threads) > 0
    ensures t < |threads| && threads[t].Reading?
  {
    if threads[0].Reading? {
      return 0;
    }
    t := FindReader(threads[1..]);
    return t + 1;
  }

  lemma {:induction false} FindWriter(threads: seq<Thread>) returns (t: nat)
    requires Writers(threads) > 0
    ensures t < |threads| && threads[t].Writing?
  {
    if threads[0].Writing? {
      return 0;
    }
    t := FindWriter(threads[1..]);
    return t + 1;
  }

  predicate Holds(l: Lock, t: nat) {
    t < |l.threads| && l.threads[t].Writing?
  }

  predicate Reads(l: Lock, t: nat) {
    t < |l.threads| && l.threads[t].Reading?
  }

  // A holder leaves; the lock is not jammed by that.
  lemma LeaveStep(l: Lock) returns (step: Step)
    requires Inv(l) && !Jammed(l) && (Locked(l.word) || Readers(l.threads) > 0)
    ensures Enabled(l, step) && Inv(Apply(l, step)) && !Jammed(Apply(l, step))
    ensures Apply(l, step).threads == l.threads[step.t := Outside]
    ensures var l' := Apply(l, step);
      Readers(l'.threads) + Writers(l'.threads) < Readers(l.threads) + Writers(l.threads)
  {
    hide Readers, Writers, SomeoneFresh;
    if Locked(l.word) {
      var w := FindWriter(l.threads);
      step := WriteUnlock(w);
    } else {
      var r := FindReader(l.threads);
      step := ReadUnlock(r);
    }
    StepInv(l, step);
    Counts(l.threads, step.t, Outside);
  }

  // All holders of a lock that is not jammed leave, one by one, and the word is zero.
  lemma {:induction false} AllLeave(l: Lock) returns (steps: seq<Step>)
    requires Inv(l) && !Jammed(l)
    ensures Legal(l, steps) && After(l, steps).word == 0 && |After(l, steps).threads| == |l.threads|
    decreases Readers(l.threads) + Writers(l.threads)
  {
    hide Readers, Writers, SomeoneFresh;
    if Locked(l.word) || Readers(l.threads) > 0 {
      hide Effect;
      var step := LeaveStep(l);
      var rest := AllLeave(Apply(l, step));
      Prefixed(l, step, rest);
      steps := [step] + rest;
    } else {
      Bits(l.word);
      steps := [];
    }
  }

  lemma Prefixed(l: Lock, step: Step, rest: seq<Step>)
    requires Enabled(l, step) && Legal(Apply(l, step), rest)
    ensures Legal(l, [step] + rest) && After(l, [step] + rest) == After(Apply(l, step), rest)
  {
    hide Apply, Enabled;
    assert ([step] + rest)[1..] == rest;
  }

  // The next step of a thread on its way to the write lock, while the lock is free.
  function Approach(u: nat, x: Thread): Step {
    match x
    case Outside => WriteBegin(u)
    case WantRead => ReadLoad(u)
    case ReadSeen(seen) => ReadTry(u, seen != 0)
    case Reading => ReadUnlock(u)
    case WantWrite => WriteLoad(u)
    case WriteSeen(_) => WriteTry(u, false)
    case Writing => WriteUnlock(u)
  }

  function Distance(x: Thread): nat {
    match x
    case ReadSeen(seen) => if seen == 0 then 5 else 7
    case WantRead => 6
    case Reading => 4
    case Outside => 3
    case WantWrite => 2
    case WriteSeen(seen) => if seen == 0 then 1 else 3
    case Writing => 0
  }

  // Only this thread moves, and it is not stale; the word tells whether it holds the lock.
  ghost predicate Alone(l: Lock, threads: seq<Thread>, u: nat) {
    && u < |threads| == |l.threads| && l.threads == threads[u := l.threads[u]]
    && !Stale(l.threads[u])
    && l.word == match l.threads[u] case Writing => WRITE_LOCKED case Reading => 1 case _ => 0
  }

  lemma ApproachStep(l: Lock, threads: seq<Thread>, u: nat)
    requires Alone(l, threads, u) && !l.threads[u].Writing?
    ensures var step := Approach(u, l.threads[u]);
      && Enabled(l, step) && Alone(Apply(l, step), threads, u)
      && Distance(Apply(l, step).threads[u]) < Distance(l.threads[u])
  {
    Compose(0, false, false);
    hide Locked;
  }

  // While the lock is free, any thread but a stale writer can take the write lock by itself.
  lemma {:induction false} TakeWrite(l: Lock, threads: seq<Thread>, u: nat) returns (steps: seq<Step>)
    requires Alone(l, threads, u)
    ensures Legal(l, steps) && After(l, steps) == Lock(WRITE_LOCKED, threads[u := Writing])
    decreases Distance(l.threads[u])
  {
    hide Distance, Apply, Approach, Enabled;
    if l.threads[u].Writing? {
      steps := [];
    } else {
      hide Alone;
      ApproachStep(l, threads, u);
      var step := Approach(u, l.threads[u]);
      var rest := TakeWrite(Apply(l, step), threads, u);
      Prefixed(l, step, rest);
      steps := [step] + rest;
    }
  }

  // With the lock free, any thread gets the write lock; a stale writer announces itself while
  // another thread holds the lock, and that thread's unlock takes the announcement back.
  lemma FreeLockTaken(l: Lock, t: nat) returns (steps: seq<Step>)
    requires Inv(l) && l.word == 0 && t < |l.threads|
    ensures Legal(l, steps) && After(l, steps).word == WRITE_LOCKED && Holds(After(l, steps), t)
  {
    hide Legal, After, Waited, Readers, Writers;
    NoHolder(l, t);
    if !Stale(l.threads[t]) {
      hide Effect;
      steps := TakeWrite(l, l.threads, t);
    } else {
      var u :| 0 <= u < |l.threads| && !Stale(l.threads[u]);
      NoHolder(l, u);
      hide SomeoneFresh, Inv;
      var first := TakeWrite(l, l.threads, u);
      var l1 := After(l, first);
      Announced(l1, t, u);
      var between := [WriteTry(t, false), WriteUnlock(u)];
      var l2 := After(l1, between);
      var last := TakeWrite(l2, l2.threads, t);
      Joined(l1, between, last);
      Joined(l, first, between + last);
      steps := first + (between + last);
    }
  }

  lemma NoHolder(l: Lock, t: nat)
    requires Inv(l) && l.word == 0 && t < |l.threads|
    ensures !l.threads[t].Reading? && !l.threads[t].Writing?
  {
    hide Readers, Writers, SomeoneFresh;
    Compose(0, false, false);
    HolderCounted(l.threads, t);
  }

  lemma Announced(l: Lock, t: nat, u: nat)
    requires t < |l.threads| && u < |l.threads| && t != u && Stale(l.threads[t]) && l.threads[u].Writing?
    ensures var steps := [WriteTry(t, false), WriteUnlock(u)];
      Legal(l, steps) && After(l, steps) == Lock(0, l.threads[t := WantWrite][u := Outside])
  {
    hide Waited;
    FirstTwo(l, [WriteTry(t, false), WriteUnlock(u)], Lock(0, l.threads[t := WantWrite][u := Outside]));
  }

  // Unless the lock is jammed, some schedule lets any given thread in, wherever it stands.
  lemma WriterGetsIn(l: Lock, t: nat) returns (steps: seq<Step>)
    requires Inv(l) && !Jammed(l) && t < |l.threads|
    ensures Legal(l, steps) && After(l, steps).word == WRITE_LOCKED && Holds(After(l, steps), t)
  {
    hide Inv, Legal, After, Jammed;
    var first := AllLeave(l);
    ReachedInv(l, first);
    var second := FreeLockTaken(After(l, first), t);
    Joined(l, first, second);
    steps := first + second;
  }

  lemma ReaderGetsIn(l: Lock, t: nat) returns (steps: seq<Step>)
    requires Inv(l) && !Jammed(l) && t < |l.threads|
    ensures Legal(l, steps) && Reads(After(l, steps), t)
  {
    hide Inv, Legal, After, Jammed;
    var first := WriterGetsIn(l, t);
    var l1 := After(l, first);
    var l2 := Lock(0, l1.threads[t := WantRead]);
    var l3 := Lock(1, l1.threads[t := Reading]);
    var leave := [WriteUnlock(t), ReadBegin(t)];
    var enter := [ReadLoad(t), ReadTry(t, false)];
    FirstTwo(l1, leave, l2);
    Compose(0, false, false);
    FirstTwo(l2, enter, l3);
    Joined(l1, leave, enter);
    Joined(l, first, leave + enter);
    steps := first + (leave + enter);
  }

  // A thread can still get the lock for writing exactly when the lock is not jammed.
  lemma WriterEntersIff(l: Lock, t: nat)
    requires Inv(l) && t < |l.threads|
    ensures (exists steps :: Legal(l, steps) && Holds(After(l, steps), t)) <==> !Jammed(l)
  {
    hide Inv, Jammed;
    if Jammed(l) {
      forall steps | Legal(l, steps)
        ensures !Holds(After(l, steps), t)
      {
        JammedForever(l, steps, t);
      }
    } else {
      var steps := WriterGetsIn(l, t);
    }
  }

  // The same for reading, by a thread that does not hold it already.
  lemma ReaderEntersIff(l: Lock, t: nat)
    requires Inv(l) && t < |l.threads| && !l.threads[t].Reading?
    ensures (exists steps :: Legal(l, steps) && Reads(After(l, steps), t)) <==> !Jammed(l)
  {
    hide Inv, Jammed;
    if Jammed(l) {
      forall steps | Legal(l, steps)
        ensures !Reads(After(l, steps), t)
      {
        JammedForever(l, steps, t);
      }
    } else {
      var steps := ReaderGetsIn(l, t);
    }
  }

  // One reader and one writer are enough to jam it: the writer asks while the reader holds, and
  // the reader leaves.
  lemma JamReachable() returns (start: Lock, steps: seq<Step>)
    ensures Init(start) && |start.threads| == 2 && Legal(start, steps)
    ensures Jammed(After(start, steps)) && After(start, steps).threads == [Outside, WantWrite]
  {
    start := Lock(0, [Outside, Outside]);
    var l1 := Lock(1, [Reading, Outside]);
    var l2 := Lock(1, [Reading, WriteSeen(1)]);
    var enter := [ReadBegin(0), ReadLoad(0), ReadTry(0, false)];
    var ask := [WriteBegin(1), WriteLoad(1)];
    var leave := [WriteTry(1, false), ReadUnlock(0)];
    FirstThree(start, enter, l1);
    FirstTwo(l1, ask, l2);
    FirstTwo(l2, leave, Lock(WRITE_WAITING, [Outside, WantWrite]));
    Joined(start, enter, ask);
    Joined(start, enter + ask, leave);
    steps := enter + ask + leave;
  }

  lemma FirstTwo(l: Lock, steps: seq<Step>, r: Lock)
    requires |steps| == 2 && Enabled(l, steps[0]) && Enabled(Apply(l, steps[0]), steps[1])
    requires Apply(Apply(l, steps[0]), steps[1]) == r
    ensures Legal(l, steps) && After(l, steps) == r
  {
    var l1 := Apply(l, steps[0]);
    assert steps[1..][0] == steps[1] && steps[1..][1..] == [];
    assert Legal(l1, steps[1..]) && After(l1, steps[1..]) == r;
  }

  lemma FirstThree(l: Lock, steps: seq<Step>, r: Lock)
    requires |steps| == 3 && Enabled(l, steps[0]) && Enabled(Apply(l, steps[0]), steps[1])
    requires Enabled(Apply(Apply(l, steps[0]), steps[1]), steps[2])
    requires Apply(Apply(Apply(l, steps[0]), steps[1]), steps[2]) == r
    ensures Legal(l, steps) && After(l, steps) == r
  {
    assert steps[1..][0] == steps[1] && steps[1..][1] == steps[2];
    FirstTwo(Apply(l, steps[0]), steps[1..], r);
  }

  lemma {:induction false} Joined(l: Lock, first: seq<Step>, second: seq<Step>)
    requires Legal(l, first) && Legal(After(l, first), second)
    ensures Legal(l, first + second) && After(l, first + second) == After(After(l, first), second)
    decreases |first|
  {
    hide Apply, Enabled;
    if first == [] {
      assert first + second == second;
    } else {
      Joined(Apply(l, first[0]), first[1..], second);
      assert (first + second)[1..] == first[1..] + second;
    }
  }
}
