/**
 utils/sync.c: the recursive mutex as a protocol.  Any number of threads run lock and unlock; every
 read and every write of the shared fields is a step of its own, and steps interleave freely.
 */
module Mutex {
  import opened Types

  const INVALID_ID: nat := 0xFFFF_FFFF_FFFF_FFFF
  const COUNT_MAX: nat := 0xFFFF_FFFF

  /** The next shared access of a thread. */
  datatype Pc =
    | Outside                // in neither function
    | LockTry                // the first test_set
    | LockCheck              // reads tid
    | LockReadCount          // count++: its read
    | LockWriteCount(c: nat) // and its write
    | LockSpin               // the test_set of the waiting loop
    | LockSetCount           // count = 1
    | LockSetTid             // tid = own id
    | UnlockReadFlag
    | UnlockReadTid
    | UnlockTestCount        // count > 1?
    | UnlockReadCount        // count--: its read
    | UnlockWriteCount(c: nat)
    | UnlockClearTid
    | UnlockClearCount
    | UnlockClearFlag

  /** depth counts the lock calls that returned and were not yet undone by an unlock. */
  datatype Thread = Thread(pc: Pc, depth: nat)

  /** owner records who acquired the flag last and has not cleared it; no step reads it. */
  datatype State = State(flag: bool, tid: nat, count: nat, threads: map<nat, Thread>, owner: Option<nat>)

  datatype Act = CallLock | CallUnlock | Go

  function At(s: State, t: nat, th: Thread): (r: State)
    requires t in s.threads
    ensures r.threads.Keys == s.threads.Keys
  {
    s.(threads := s.threads[t := th])
  }

  /** One step of thread t: a call if it is outside, else its next shared access. */
  function Step(s: State, t: nat, act: Act): (r: State)
    requires t in s.threads
    ensures r.threads.Keys == s.threads.Keys
  {
    var th := s.threads[t];
    match th.pc
    case Outside =>
      (match act
       case CallLock => if th.depth < COUNT_MAX then At(s, t, th.(pc := LockTry)) else s
       case CallUnlock => At(s, t, th.(pc := UnlockReadFlag))
       case Go => s)
    case LockTry =>
      if !s.flag then At(s, t, th.(pc := LockSetCount)).(flag := true, owner := Some(t))
      else At(s, t, th.(pc := LockCheck))
    case LockCheck => At(s, t, th.(pc := if s.tid == t then LockReadCount else LockSpin))
    case LockReadCount => At(s, t, th.(pc := LockWriteCount(s.count)))
    case LockWriteCount(c) => At(s, t, Thread(Outside, th.depth + 1)).(count := Wrap(c + 1))
    case LockSpin =>
      if !s.flag then At(s, t, th.(pc := LockSetCount)).(flag := true, owner := Some(t))
      else s
    case LockSetCount => At(s, t, th.(pc := LockSetTid)).(count := 1)
    case LockSetTid => At(s, t, Thread(Outside, th.depth + 1)).(tid := t)
    case UnlockReadFlag => At(s, t, th.(pc := if s.flag then UnlockReadTid else Outside))
    case UnlockReadTid => At(s, t, th.(pc := if s.tid == t then UnlockTestCount else Outside))
    case UnlockTestCount => At(s, t, th.(pc := if s.count > 1 then UnlockReadCount else UnlockClearTid))
    case UnlockReadCount => At(s, t, th.(pc := UnlockWriteCount(s.count)))
    case UnlockWriteCount(c) =>
        At(s, t, Thread(Outside, if th.depth > 0 then th.depth - 1 else 0)).(count := Wrap(c - 1))
    case UnlockClearTid => At(s, t, th.(pc := UnlockClearCount)).(tid := INVALID_ID)
    case UnlockClearCount => At(s, t, th.(pc := UnlockClearFlag)).(count := 0)
    case UnlockClearFlag =>
      At(s, t, Thread(Outside, if th.depth > 0 then th.depth - 1 else 0)).(flag := false, owner := None)
  }

  /** init_mutex, with every thread outside. */
  ghost predicate Init(s: State) {
    && !s.flag && s.count == 0 && s.tid == INVALID_ID && s.owner == None
    && forall t :: t in s.threads ==> t < INVALID_ID && s.threads[t] == Thread(Outside, 0)
  }

  // ----- the invariant -----

  /** A thread that does not own the mutex. */
  predicate IsStranger(th: Thread) {
    th.depth == 0 && (th.pc.Outside? || th.pc.LockTry? || th.pc.LockCheck? || th.pc.LockSpin? || th.pc.UnlockReadFlag?
        || th.pc.UnlockReadTid?)
  }

  /** The owner, with what it has already written and what not yet. */
  predicate IsOwner(th: Thread, t: nat, tid: nat, count: nat) {
    match th.pc
    case LockSetCount => th.depth == 0 && tid == INVALID_ID && count == 0
    case LockSetTid => th.depth == 0 && tid == INVALID_ID && count == 1
    case UnlockClearCount => th.depth == 1 && tid == INVALID_ID && count == 1
    case UnlockClearFlag => th.depth == 1 && tid == INVALID_ID && count == 0
    case _ =>
      && tid == t && count == th.depth && 1 <= th.depth <= COUNT_MAX
      && match th.pc
         case LockTry => th.depth < COUNT_MAX
         case LockCheck => th.depth < COUNT_MAX
         case LockReadCount => th.depth < COUNT_MAX
         case LockWriteCount(c) => th.depth < COUNT_MAX && c == count
         case LockSpin => false
         case UnlockReadCount => th.depth > 1
         case UnlockWriteCount(c) => th.depth > 1 && c == count
         case UnlockClearTid => th.depth == 1
         case _ => true
  }

  ghost predicate Inv(s: State) {
    && (forall t :: t in s.threads ==> t < INVALID_ID)
    && match s.owner
       case None =>
         && !s.flag && s.tid == INVALID_ID && s.count == 0
         && forall t :: t in s.threads ==> IsStranger(s.threads[t])
       case Some(o) =>
         && s.flag && o in s.threads && IsOwner(s.threads[o], o, s.tid, s.count)
         && forall t :: t in s.threads && t != o ==> IsStranger(s.threads[t])
  }

  lemma StepKeepsInv(s: State, t: nat, act: Act)
    requires Inv(s) && t in s.threads
    ensures Inv(Step(s, t, act))
  {
    hide Step, IsOwner, IsStranger;
    OthersStay(s, t, act);
    if s.owner == Some(t) {
      OwnerStep(s, t, act);
    } else {
      StrangerStep(s, t, act);
    }
  }

  lemma OthersStay(s: State, t: nat, act: Act)
    requires t in s.threads
    ensures forall u :: u in s.threads && u != t ==> Step(s, t, act).threads[u] == s.threads[u]
  {
  }

  /** A stranger stays one and writes nothing, unless it finds the flag clear and becomes the owner. */
  lemma StrangerStep(s: State, t: nat, act: Act)
    requires Inv(s) && t in s.threads && s.owner != Some(t)
    ensures var s' := Step(s, t, act);
            if s'.owner == s.owner then
              s'.flag == s.flag && s'.tid == s.tid && s'.count == s.count && IsStranger(s'.threads[t])
            else
              s.owner == None && s'.owner == Some(t) && s'.flag && IsOwner(s'.threads[t], t, s'.tid, s'.count)
  {
  }

  /** The steps of the owner that write the shared fields. */
  predicate Writes(pc: Pc) {
    pc.LockWriteCount? || pc.LockSetCount? || pc.LockSetTid? || pc.UnlockWriteCount?
    || pc.UnlockClearTid? || pc.UnlockClearCount? || pc.UnlockClearFlag?
  }

  lemma OwnerWrites(s: State, t: nat, act: Act)
    requires Inv(s) && s.owner == Some(t) && t in s.threads && Writes(s.threads[t].pc)
    ensures var s' := Step(s, t, act);
            if s.threads[t].pc.UnlockClearFlag? then
              s'.owner == None && !s'.flag && s'.tid == INVALID_ID && s'.count == 0 && IsStranger(s'.threads[t])
            else s'.owner == Some(t) && s'.flag && IsOwner(s'.threads[t], t, s'.tid, s'.count)
  {
  }

  lemma OwnerReads(s: State, t: nat, act: Act)
    requires Inv(s) && s.owner == Some(t) && t in s.threads && !Writes(s.threads[t].pc)
    ensures var s' := Step(s, t, act);
            s'.owner == Some(t) && s'.flag && IsOwner(s'.threads[t], t, s'.tid, s'.count)
  {
    assert t < INVALID_ID;
  }

  lemma OwnerStep(s: State, t: nat, act: Act)
    requires Inv(s) && s.owner == Some(t)
    ensures var s' := Step(s, t, act);
            if s.threads[t].pc.UnlockClearFlag? then
              s'.owner == None && !s'.flag && s'.tid == INVALID_ID && s'.count == 0 && IsStranger(s'.threads[t])
            else s'.owner == Some(t) && s'.flag && IsOwner(s'.threads[t], t, s'.tid, s'.count)
  {
    hide Step, IsOwner, IsStranger;
    OwnerInThreads(s, t);
    if Writes(s.threads[t].pc) {
      OwnerWrites(s, t, act);
    } else {
      OwnerReads(s, t, act);
    }
  }

  lemma OwnerInThreads(s: State, t: nat)
    requires Inv(s) && s.owner == Some(t)
    ensures t in s.threads
  {
  }

  // ----- whole runs -----

  ghost predicate Schedules(threads: set<nat>, sched: seq<(nat, Act)>) {
    forall i :: 0 <= i < |sched| ==> sched[i].0 in threads
  }

  ghost function Run(s: State, sched: seq<(nat, Act)>): State
    requires Schedules(s.threads.Keys, sched)
    decreases sched
  {
    if sched == [] then s else Run(Step(s, sched[0].0, sched[0].1), sched[1..])
  }

  lemma {:induction false} RunKeepsInv(s: State, sched: seq<(nat, Act)>)
    requires Inv(s) && Schedules(s.threads.Keys, sched)
    ensures Inv(Run(s, sched)) && Run(s, sched).threads.Keys == s.threads.Keys
    decreases sched
  {
    if sched != [] {
      StepKeepsInv(s, sched[0].0, sched[0].1);
      RunKeepsInv(Step(s, sched[0].0, sched[0].1), sched[1..]);
    }
  }

  /** Between acquiring the flag and clearing it. */
  predicate Holds(th: Thread) {
    th.depth > 0 || th.pc.LockSetCount? || th.pc.LockSetTid?
  }

  predicate InLock(pc: Pc) {
    pc.LockTry? || pc.LockCheck? || pc.LockReadCount? || pc.LockWriteCount? || pc.LockSpin? || pc.LockSetCount?
    || pc.LockSetTid?
  }

  /** One step's entry in the history of t's calls: lock returned, or unlock returned to a thread with a lock to undo.
      */
  function Entry(s: State, t: nat, u: nat, act: Act, locks: nat): nat
    requires t in s.threads && u in s.threads
  {
    var before, after := s.threads[t].pc, Step(s, u, act).threads[t].pc;
    if u != t || before.Outside? || !after.Outside? then locks
    else if InLock(before) then locks + 1
    else if locks > 0 then locks - 1
    else 0
  }

  /** The history: how many of t's lock calls returned and have no unlock call of t that returned after them. */
  ghost function Unmatched(s: State, sched: seq<(nat, Act)>, t: nat, locks: nat): nat
    requires Schedules(s.threads.Keys, sched) && t in s.threads
    decreases sched
  {
    if sched == [] then locks
    else
      var (u, act) := sched[0];
      Unmatched(Step(s, u, act), sched[1..], t, Entry(s, t, u, act, locks))
  }

  lemma EntryIsDepth(s: State, t: nat, u: nat, act: Act)
    requires Inv(s) && t in s.threads && u in s.threads
    ensures Entry(s, t, u, act, s.threads[t].depth) == Step(s, u, act).threads[t].depth
  {
    if u != t {
      OthersStay(s, u, act);
    } else if s.owner != Some(t) {
      assert IsStranger(s.threads[t]);
    } else {
      assert IsOwner(s.threads[t], t, s.tid, s.count);
    }
  }

  /** The depth that a state records is what the history says. */
  lemma {:induction false} DepthIsHistory(s: State, sched: seq<(nat, Act)>, t: nat)
    requires Inv(s) && Schedules(s.threads.Keys, sched) && t in s.threads
    ensures t in Run(s, sched).threads
    ensures Unmatched(s, sched, t, s.threads[t].depth) == Run(s, sched).threads[t].depth
    decreases sched
  {
    hide Inv, Step, Entry;
    if sched != [] {
      var (u, act) := sched[0];
      StepKeepsInv(s, u, act);
      EntryIsDepth(s, t, u, act);
      DepthIsHistory(Step(s, u, act), sched[1..], t);
    }
  }

  /** Mutual exclusion, in every state of every interleaving: at most one thread holds the mutex, the
      flag tells whether one does, tid names a thread only while it holds it, and outside of lock and
      unlock the count is the holder's number of unmatched locks, by the history of its calls. */
  lemma MutualExclusion(init: State, sched: seq<(nat, Act)>, t: nat, u: nat)
    requires Init(init) && Schedules(init.threads.Keys, sched) && t in init.threads && u in init.threads
    ensures var s := Run(init, sched);
            && s.threads.Keys == init.threads.Keys
            && (Holds(s.threads[t]) && Holds(s.threads[u]) ==> t == u)
            && (Holds(s.threads[t]) ==> s.flag)
            && (s.flag ==> exists o :: o in s.threads && Holds(s.threads[o]))
            && (s.tid == t ==> Holds(s.threads[t]))
            && (Holds(s.threads[t]) && s.threads[t].pc.Outside? ==>
                  s.tid == t && s.count == Unmatched(init, sched, t, 0))
            && (s.threads[t].pc.Outside? ==> (Holds(s.threads[t]) <==> Unmatched(init, sched, t, 0) > 0))
            && (Unmatched(init, sched, t, 0) > 0 && Unmatched(init, sched, u, 0) > 0 ==> t == u)
  {
    RunKeepsInv(init, sched);
    DepthIsHistory(init, sched, t);
    DepthIsHistory(init, sched, u);
    var s := Run(init, sched);
    if s.flag {
      assert Holds(s.threads[s.owner.value]);
    }
  }

  /** The recursion check is sound and complete: it succeeds exactly for the holder. */
  lemma RecursionCheckIsRight(s: State, t: nat)
    requires Inv(s) && t in s.threads && (s.threads[t].pc.LockCheck? || s.threads[t].pc.UnlockReadTid?)
    ensures s.tid == t <==> s.threads[t].depth > 0
  {
  }

  /** unlock by a thread that holds nothing: two reads at most, and nothing changes. */
  lemma StrangersUnlockChangesNothing(s: State, t: nat, act: Act)
    requires Inv(s) && t in s.threads && s.threads[t].depth == 0
    requires s.threads[t].pc.UnlockReadFlag? || s.threads[t].pc.UnlockReadTid?
    ensures var s' := Step(s, t, act);
            && s'.flag == s.flag && s'.tid == s.tid && s'.count == s.count && s'.owner == s.owner
            && s'.threads == s.threads[t := Thread(s'.threads[t].pc, 0)]
            && (s'.threads[t].pc.Outside? || (s.threads[t].pc.UnlockReadFlag? && s'.threads[t].pc.UnlockReadTid?))
  {
  }

  /** The flag falls exactly when the holder finishes its outermost unlock. */
  lemma FlagFallsAtOutermostUnlock(s: State, t: nat, act: Act)
    requires Inv(s) && t in s.threads
    ensures var s' := Step(s, t, act);
            s.flag && !s'.flag <==> s.threads[t].pc.UnlockClearFlag?
    ensures var s' := Step(s, t, act);
            s.threads[t].pc.UnlockClearFlag? ==>
              s.owner == Some(t) && s.threads[t].depth == 1 && s'.threads[t].depth == 0
    ensures var s' := Step(s, t, act);
            s'.threads[t].depth < s.threads[t].depth && s.threads[t].depth > 1 ==>
              s'.flag && s'.tid == t && s'.count == s.threads[t].depth - 1
  {
    if s.owner == Some(t) {
      OwnerStep(s, t, act);
    }
  }

  // ----- a thread on its own -----

  function Alone(s: State, t: nat, n: nat): State
    requires t in s.threads
    ensures t in Alone(s, t, n).threads
  {
    if n == 0 then s else Step(Alone(s, t, n - 1), t, Go)
  }

  /** A thread that is not interfered with: lock on a free mutex returns as its holder after three
      steps, and unlock undoes it in six. */
  lemma LockThenUnlock(s: State, t: nat)
    requires Inv(s) && t in s.threads && s.threads[t] == Thread(Outside, 0) && s.owner == None
    ensures var locked := Alone(Step(s, t, CallLock), t, 3);
            && locked.owner == Some(t) && locked.threads[t] == Thread(Outside, 1) && locked.tid == t
                && locked.count == 1
            && Alone(Step(locked, t, CallUnlock), t, 6) == s
  {
    hide Alone;
    var a0 := Step(s, t, CallLock);
    LockRounds(s, a0, t);
    UnlockAlone(s, Alone(a0, t, 3), t);
  }

  lemma LockRounds(s: State, a0: State, t: nat)
    requires Inv(s) && t in s.threads && t in a0.threads && s.owner == None
    requires a0 == At(s, t, Thread(LockTry, 0))
    ensures Alone(a0, t, 3) == State(true, t, 1, s.threads[t := Thread(Outside, 1)], Some(t))
  {
    assert Alone(a0, t, 1) == Step(Alone(a0, t, 0), t, Go);
    AtTwice(s, t, Thread(LockTry, 0), Thread(LockSetCount, 0));
    var a1 := At(s, t, Thread(LockSetCount, 0)).(flag := true, owner := Some(t));
    assert Alone(a0, t, 1) == a1;
    assert Alone(a0, t, 2) == Step(a1, t, Go);
    AtTwice(s, t, Thread(LockSetCount, 0), Thread(LockSetTid, 0));
    var a2 := At(s, t, Thread(LockSetTid, 0)).(flag := true, owner := Some(t), count := 1);
    assert Alone(a0, t, 2) == a2;
    assert Alone(a0, t, 3) == Step(a2, t, Go);
    AtTwice(s, t, Thread(LockSetTid, 0), Thread(Outside, 1));
  }

  /** The states of an undisturbed outermost unlock. */
  function Unlocking(s: State, t: nat, pc: Pc, tid: nat, count: nat): State
    requires t in s.threads
  {
    At(State(true, tid, count, s.threads, Some(t)), t, Thread(pc, 1))
  }

  lemma AtTwice(s: State, t: nat, x: Thread, y: Thread)
    requires t in s.threads
    ensures At(At(s, t, x), t, y) == At(s, t, y)
  {
    assert At(At(s, t, x), t, y).threads == At(s, t, y).threads;
  }

  lemma UnlockRound(s: State, t: nat, pc: Pc, tid: nat, count: nat)
    requires t in s.threads
    requires pc.UnlockReadFlag? || (pc.UnlockReadTid? && tid == t) || (pc.UnlockTestCount? && count == 1)
               || pc.UnlockClearTid? || pc.UnlockClearCount?
    ensures Step(Unlocking(s, t, pc, tid, count), t, Go)
         == match pc
            case UnlockReadFlag => Unlocking(s, t, UnlockReadTid, tid, count)
            case UnlockReadTid => Unlocking(s, t, UnlockTestCount, tid, count)
            case UnlockTestCount => Unlocking(s, t, UnlockClearTid, tid, count)
            case UnlockClearTid => Unlocking(s, t, UnlockClearCount, INVALID_ID, count)
            case _ => Unlocking(s, t, UnlockClearFlag, tid, 0)
  {
    forall y ensures At(Unlocking(s, t, pc, tid, count), t, y)
        == At(State(true, tid, count, s.threads, Some(t)), t, y) {
      AtTwice(State(true, tid, count, s.threads, Some(t)), t, Thread(pc, 1), y);
    }
  }

  lemma UnlockAlone(s: State, a: State, t: nat)
    requires Inv(s) && t in s.threads && s.threads[t] == Thread(Outside, 0) && s.owner == None
    requires a == State(true, t, 1, s.threads[t := Thread(Outside, 1)], Some(t))
    ensures Alone(Step(a, t, CallUnlock), t, 6) == s
  {
    hide Alone;
    var b := Step(a, t, CallUnlock);
    var z := Unlocking(s, t, UnlockClearFlag, INVALID_ID, 0);
    assert b == Unlocking(s, t, UnlockReadFlag, t, 1) by {
      assert a.threads[t := Thread(UnlockReadFlag, 1)] == s.threads[t := Thread(UnlockReadFlag, 1)];
    }
    UnlockRounds(s, b, t);
    assert Step(z, t, Go) == s by {
      assert z.threads[t := Thread(Outside, 0)] == s.threads;
    }
  }

  lemma UnlockRounds(s: State, b: State, t: nat)
    requires t in s.threads && t in b.threads && b == Unlocking(s, t, UnlockReadFlag, t, 1)
    ensures Alone(b, t, 5) == Unlocking(s, t, UnlockClearFlag, INVALID_ID, 0)
    ensures Alone(b, t, 6) == Step(Alone(b, t, 5), t, Go)
  {
    hide Step, Unlocking;
    UnlockRound(s, t, UnlockReadFlag, t, 1);
    assert Alone(b, t, 1) == Step(Alone(b, t, 0), t, Go);
    UnlockRound(s, t, UnlockReadTid, t, 1);
    assert Alone(b, t, 2) == Step(Alone(b, t, 1), t, Go);
    UnlockRound(s, t, UnlockTestCount, t, 1);
    assert Alone(b, t, 3) == Step(Alone(b, t, 2), t, Go);
    UnlockRound(s, t, UnlockClearTid, t, 1);
    assert Alone(b, t, 4) == Step(Alone(b, t, 3), t, Go);
    UnlockRound(s, t, UnlockClearCount, INVALID_ID, 1);
    assert Alone(b, t, 5) == Step(Alone(b, t, 4), t, Go);
    assert Alone(b, t, 6) == Step(Alone(b, t, 5), t, Go);
  }

  /** The states of an undisturbed nested lock or unlock. */
  function Nested(s: State, t: nat, pc: Pc, depth: nat, count: nat): State
    requires t in s.threads
  {
    At(State(s.flag, s.tid, count, s.threads, s.owner), t, Thread(pc, depth))
  }

  lemma NestedStep(s: State, t: nat, pc: Pc, d: nat, c: nat)
    requires t in s.threads && s.flag && s.tid == t && c <= COUNT_MAX
    requires pc.LockTry? || pc.LockCheck? || pc.LockReadCount? || (pc == LockWriteCount(c) && c < COUNT_MAX)
             || pc.UnlockReadFlag? || pc.UnlockReadTid? || (pc.UnlockTestCount? && c > 1) || pc.UnlockReadCount?
             || (pc == UnlockWriteCount(c) && c > 0 && d > 0)
    ensures Step(Nested(s, t, pc, d, c), t, Go)
            == if pc.LockTry? then Nested(s, t, LockCheck, d, c)
               else if pc.LockCheck? then Nested(s, t, LockReadCount, d, c)
               else if pc.LockReadCount? then Nested(s, t, LockWriteCount(c), d, c)
               else if pc.LockWriteCount? then Nested(s, t, Outside, d + 1, c + 1)
               else if pc.UnlockReadFlag? then Nested(s, t, UnlockReadTid, d, c)
               else if pc.UnlockReadTid? then Nested(s, t, UnlockTestCount, d, c)
               else if pc.UnlockTestCount? then Nested(s, t, UnlockReadCount, d, c)
               else if pc.UnlockReadCount? then Nested(s, t, UnlockWriteCount(c), d, c)
               else Nested(s, t, Outside, d - 1, c - 1)
  {
    var base := State(s.flag, s.tid, c, s.threads, s.owner);
    AtAll(base, t, Thread(pc, d));
  }

  lemma AtAll(s: State, t: nat, x: Thread)
    requires t in s.threads
    ensures forall y :: At(At(s, t, x), t, y) == At(s, t, y)
  {
    forall y ensures At(At(s, t, x), t, y) == At(s, t, y) { AtTwice(s, t, x, y); }
  }

  /** A nested lock returns after its four accesses with one more in depth and count, and flag and tid as before; the
      unlock after it, in five, returns to exactly the state before. */
  lemma NestedLockThenUnlock(s: State, t: nat)
    requires Inv(s) && t in s.threads && s.threads[t].pc.Outside? && 0 < s.threads[t].depth < COUNT_MAX
    ensures var d := s.threads[t].depth;
            var locked := Alone(Step(s, t, CallLock), t, 4);
            && locked == State(s.flag, s.tid, d + 1, s.threads[t := Thread(Outside, d + 1)], s.owner)
            && s.flag && s.tid == t && s.count == d
            && Alone(Step(locked, t, CallUnlock), t, 5) == s
  {
    hide Alone, Step, Inv;
    var d := s.threads[t].depth;
    HolderOutside(s, t);
    var a := Nested(s, t, LockTry, d, d);
    var b := Nested(s, t, UnlockReadFlag, d + 1, d + 1);
    NestedCalls(s, t);
    NestedLock(s, t, d);
    NestedUnlock(s, t, d + 1);
    assert s.threads[t := Thread(Outside, d)] == s.threads;
  }

  lemma HolderOutside(s: State, t: nat)
    requires Inv(s) && t in s.threads && s.threads[t].pc.Outside? && s.threads[t].depth > 0
    ensures s.flag && s.tid == t && s.count == s.threads[t].depth
  {
  }

  lemma NestedCalls(s: State, t: nat)
    requires t in s.threads && s.threads[t].pc.Outside? && s.threads[t].depth == s.count < COUNT_MAX
    ensures Step(s, t, CallLock) == Nested(s, t, LockTry, s.count, s.count)
    ensures Step(Nested(s, t, Outside, s.count + 1, s.count + 1), t, CallUnlock)
            == Nested(s, t, UnlockReadFlag, s.count + 1, s.count + 1)
  {
    AtTwice(State(s.flag, s.tid, s.count + 1, s.threads, s.owner), t, Thread(Outside, s.count + 1),
            Thread(UnlockReadFlag, s.count + 1));
  }

  lemma NestedLock(s: State, t: nat, d: nat)
    requires t in s.threads && s.flag && s.tid == t && d < COUNT_MAX
    ensures t in Nested(s, t, LockTry, d, d).threads
    ensures Alone(Nested(s, t, LockTry, d, d), t, 4) == Nested(s, t, Outside, d + 1, d + 1)
  {
    hide Step, Nested;
    NestedStep(s, t, LockTry, d, d);
    NestedStep(s, t, LockCheck, d, d);
    NestedStep(s, t, LockReadCount, d, d);
    NestedStep(s, t, LockWriteCount(d), d, d);
    var a := Nested(s, t, LockTry, d, d);
    InNested(s, t, LockTry, d, d);
    assert Alone(a, t, 1) == Step(Alone(a, t, 0), t, Go);
    assert Alone(a, t, 2) == Step(Alone(a, t, 1), t, Go);
    assert Alone(a, t, 3) == Step(Alone(a, t, 2), t, Go);
    assert Alone(a, t, 4) == Step(Alone(a, t, 3), t, Go);
  }

  lemma NestedUnlock(s: State, t: nat, d: nat)
    requires t in s.threads && s.flag && s.tid == t && 1 < d <= COUNT_MAX
    ensures t in Nested(s, t, UnlockReadFlag, d, d).threads
    ensures Alone(Nested(s, t, UnlockReadFlag, d, d), t, 5) == Nested(s, t, Outside, d - 1, d - 1)
  {
    hide Step, Nested;
    NestedStep(s, t, UnlockReadFlag, d, d);
    NestedStep(s, t, UnlockReadTid, d, d);
    NestedStep(s, t, UnlockTestCount, d, d);
    NestedStep(s, t, UnlockReadCount, d, d);
    NestedStep(s, t, UnlockWriteCount(d), d, d);
    var a := Nested(s, t, UnlockReadFlag, d, d);
    InNested(s, t, UnlockReadFlag, d, d);
    assert Alone(a, t, 1) == Step(Alone(a, t, 0), t, Go);
    assert Alone(a, t, 2) == Step(Alone(a, t, 1), t, Go);
    assert Alone(a, t, 3) == Step(Alone(a, t, 2), t, Go);
    assert Alone(a, t, 4) == Step(Alone(a, t, 3), t, Go);
    assert Alone(a, t, 5) == Step(Alone(a, t, 4), t, Go);
  }

  lemma InNested(s: State, t: nat, pc: Pc, d: nat, c: nat)
    requires t in s.threads
    ensures t in Nested(s, t, pc, d, c).threads
  {
  }

  /** A thread that waits has the mutex after three more steps of its own once the flag is clear, and goes on waiting
      until then. */
  lemma WaiterAcquires(s: State, t: nat)
    requires Inv(s) && t in s.threads && s.threads[t].pc.LockSpin?
    ensures s.flag ==> Step(s, t, Go) == s
    ensures !s.flag ==> Alone(s, t, 3) == State(true, t, 1, s.threads[t := Thread(Outside, 1)], Some(t))
  {
    hide Alone;
    if !s.flag {
      Waiting(s, t);
    }
  }

  lemma Waiting(s: State, t: nat)
    requires t in s.threads && s.threads[t] == Thread(LockSpin, 0) && !s.flag
    ensures Alone(s, t, 3) == State(true, t, 1, s.threads[t := Thread(Outside, 1)], Some(t))
  {
    var a1 := At(s, t, Thread(LockSetCount, 0)).(flag := true, owner := Some(t));
    assert Alone(s, t, 1) == Step(Alone(s, t, 0), t, Go) == a1;
    AtTwice(s, t, Thread(LockSetCount, 0), Thread(LockSetTid, 0));
    var a2 := At(s, t, Thread(LockSetTid, 0)).(flag := true, owner := Some(t), count := 1);
    assert Alone(s, t, 2) == Step(a1, t, Go) == a2;
    AtTwice(s, t, Thread(LockSetTid, 0), Thread(Outside, 1));
    assert Alone(s, t, 3) == Step(a2, t, Go);
  }
}
