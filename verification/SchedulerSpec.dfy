/** task/sched.c and task/task.c on values: which task runs, which are ready and which wait. */
module SchedulerSpec {
  import opened Arithmetic

  const TASK_MAX := 1024

  datatype Sched = Sched(running: nat, ready: seq<nat>, wait: seq<nat>, enabled: set<nat>, ended: set<nat>)

  /** Every enabled pool slot is in exactly one place: running, once on the ready list or once on the
      wait list; and nothing else is. */
  ghost predicate Partition(s: Sched) {
    && multiset{s.running} + multiset(s.ready) + multiset(s.wait) == multiset(s.enabled)
    && (forall t :: t in s.enabled ==> t < TASK_MAX)
    && s.ended <= s.enabled
  }

  // ----- the steps -----

  function Schedule(s: Sched): Sched {
    var next := if s.ready == [] then s.running else s.ready[0];
    var rest := if s.ready == [] then [] else s.ready[1..];
    if s.running in s.ended then s.(running := next, ready := rest, wait := s.wait + [s.running])
    else s.(running := next, ready := rest + [s.running])
  }

  function EndRunning(s: Sched): Sched {
    Schedule(s.(ended := s.ended + {s.running}))
  }

  /** end_task on the task at position k of the ready list. */
  function EndReady(s: Sched, k: nat): Sched
    requires k < |s.ready|
  {
    s.(ready := s.ready[..k] + s.ready[k + 1..], wait := s.wait + [s.ready[k]], ended := s.ended + {s.ready[k]})
  }

  function Resume(s: Sched): Sched {
    Schedule(s.(ready := s.ready + s.wait, wait := []))
  }

  /** The idle task's reaping loop. */
  function Reap(s: Sched): Sched {
    var gone := set t | t in s.wait;
    s.(wait := [], enabled := s.enabled - gone, ended := s.ended - gone)
  }

  function Create(s: Sched, t: nat, ended: bool): Sched {
    s.(ready := s.ready + [t], enabled := s.enabled + {t}, ended := if ended then s.ended + {t} else s.ended)
  }

  datatype Op = DoSchedule | DoEndRunning | DoEndReady(k: nat) | DoResume | DoReap | DoCreate(t: nat, ended: bool)

  /** What must hold for the step to be taken: something to switch to, a listed task, a free slot. */
  ghost predicate Guard(s: Sched, op: Op) {
    match op
    case DoSchedule => s.ready != []
    case DoEndRunning => s.ready != []
    case DoEndReady(k) => k < |s.ready|
    case DoResume => s.ready + s.wait != []
    case DoReap => true
    case DoCreate(t, _) => t < TASK_MAX && t !in s.enabled
  }

  function Step(s: Sched, op: Op): Sched {
    match op
    case DoSchedule => Schedule(s)
    case DoEndRunning => EndRunning(s)
    case DoEndReady(k) => if k < |s.ready| then EndReady(s, k) else s
    case DoResume => Resume(s)
    case DoReap => Reap(s)
    case DoCreate(t, ended) => Create(s, t, ended)
  }

  ghost predicate Guarded(s: Sched, ops: seq<Op>)
    decreases ops
  {
    ops == [] || (Guard(s, ops[0]) && Guarded(Step(s, ops[0]), ops[1..]))
  }

  function Run(s: Sched, ops: seq<Op>): Sched
    decreases ops
  {
    if ops == [] then s else Run(Step(s, ops[0]), ops[1..])
  }

  // ----- the partition -----

  /** What the partition means for the lists. */
  lemma PartitionMeaning(s: Sched)
    requires Partition(s)
    ensures s.running !in s.ready && s.running !in s.wait && s.running in s.enabled
    ensures forall i, j :: 0 <= i < |s.ready| && 0 <= j < |s.wait| ==> s.ready[i] != s.wait[j]
    ensures forall i, j :: 0 <= i < j < |s.ready| ==> s.ready[i] != s.ready[j]
    ensures forall i, j :: 0 <= i < j < |s.wait| ==> s.wait[i] != s.wait[j]
    ensures forall t :: t in s.enabled <==> t == s.running || t in s.ready || t in s.wait
    ensures |s.enabled| == 1 + |s.ready| + |s.wait|
  {
    var r, q, w := multiset{s.running}, multiset(s.ready), multiset(s.wait);
    var m := r + q + w;
    assert |m| == |multiset(s.enabled)|;
    forall t
      ensures m[t] <= 1 && (t in s.enabled <==> t == s.running || t in s.ready || t in s.wait)
    {
      assert m[t] == r[t] + q[t] + w[t] == multiset(s.enabled)[t];
    }
    assert m[s.running] == 1 + q[s.running] + w[s.running];
    forall i, j | 0 <= i < |s.ready| && 0 <= j < |s.wait| ensures s.ready[i] != s.wait[j] {
      var x := s.ready[i];
      assert x in q && s.wait[j] in w;
      assert m[x] == r[x] + q[x] + w[x] <= 1;
    }
    NoRepeats(s.ready, m);
    NoRepeats(s.wait, m);
  }

  lemma BootPartition()
    ensures Partition(Sched(0, [], [], {0}, {}))
  {
    assert multiset({0}) == multiset{0};
  }

  lemma WaitingOnce(s: Sched)
    requires Partition(s)
    ensures forall i, j :: 0 <= i < j < |s.wait| ==> s.wait[i] != s.wait[j]
    ensures forall t :: t in s.wait ==> t in s.enabled
  {
    PartitionMeaning(s);
  }

  lemma NoRepeats(q: seq<nat>, m: multiset<nat>)
    requires multiset(q) <= m && forall t :: m[t] <= 1
    ensures forall i, j :: 0 <= i < j < |q| ==> q[i] != q[j]
  {
    forall i, j | 0 <= i < j < |q| ensures q[i] != q[j] {
      assert q == q[..j] + q[j..];
      assert q[i] in q[..j] && q[j] in q[j..];
      assert multiset(q)[q[i]] == multiset(q[..j])[q[i]] + multiset(q[j..])[q[i]];
    }
  }

  /** A schedule keeps the partition exactly when the ready list is not empty: otherwise the running
      task stays running and is put on a list as well. */
  lemma ScheduleKeepsPartition(s: Sched)
    requires Partition(s)
    ensures Partition(Schedule(s)) <==> s.ready != []
  {
    if s.ready != [] {
      assert s.ready == [s.ready[0]] + s.ready[1..];
    } else {
      var s' := Schedule(s);
      assert (multiset{s'.running} + multiset(s'.ready) + multiset(s'.wait))[s.running] >= 2;
    }
  }

  lemma MarkingKeepsPartition(s: Sched)
    requires Partition(s)
    ensures Partition(s.(ended := s.ended + {s.running}))
  {
    PartitionMeaning(s);
  }

  lemma MovingKeepsPartition(s: Sched)
    requires Partition(s)
    ensures Partition(s.(ready := s.ready + s.wait, wait := []))
  {
  }

  lemma EndReadyKeepsPartition(s: Sched, k: nat)
    requires Partition(s) && k < |s.ready|
    ensures Partition(EndReady(s, k))
  {
    assert s.ready == s.ready[..k] + [s.ready[k]] + s.ready[k + 1..];
    PartitionMeaning(s);
  }

  /** Reaping takes exactly the waiting tasks out of the pool. */
  lemma ReapKeepsPartition(s: Sched)
    requires Partition(s)
    ensures Partition(Reap(s)) && |Reap(s).enabled| == |s.enabled| - |s.wait|
  {
    PartitionMeaning(s);
    var s' := Reap(s);
    var gone := set t | t in s.wait;
    assert s'.enabled == s.enabled - gone;
    assert multiset{s.running} + multiset(s.ready) == multiset(s'.enabled) by {
      forall t ensures (multiset{s.running} + multiset(s.ready))[t] == multiset(s'.enabled)[t] {
        assert (multiset{s.running} + multiset(s.ready) + multiset(s.wait))[t] == multiset(s.enabled)[t];
        assert t in s.wait <==> multiset(s.wait)[t] > 0;
        if t in s.wait { assert t !in s.ready && t != s.running; }
      }
    }
    PartitionMeaning(s');
  }

  lemma CreateKeepsPartition(s: Sched, t: nat, ended: bool)
    requires Partition(s) && t < TASK_MAX && t !in s.enabled
    ensures Partition(Create(s, t, ended))
  {
    assert multiset(s.enabled + {t}) == multiset(s.enabled) + multiset{t};
  }

  /** Every step whose guard holds keeps the partition. */
  lemma StepKeepsPartition(s: Sched, op: Op)
    requires Partition(s) && Guard(s, op)
    ensures Partition(Step(s, op))
  {
    match op
    case DoSchedule => ScheduleKeepsPartition(s);
    case DoEndRunning =>
      MarkingKeepsPartition(s);
      ScheduleKeepsPartition(s.(ended := s.ended + {s.running}));
    case DoEndReady(k) => EndReadyKeepsPartition(s, k);
    case DoResume => ScheduleKeepsPartition(s.(ready := s.ready + s.wait, wait := []));
    case DoReap => ReapKeepsPartition(s);
    case DoCreate(t, ended) => CreateKeepsPartition(s, t, ended);
  }

  /** Over whole runs: whatever the order of schedules, creations, endings, resumptions and reapings,
      each enabled task is in exactly one place. */
  lemma {:induction false} RunKeepsPartition(s: Sched, ops: seq<Op>)
    requires Partition(s) && Guarded(s, ops)
    ensures Partition(Run(s, ops))
    decreases ops
  {
    if ops != [] {
      StepKeepsPartition(s, ops[0]);
      RunKeepsPartition(Step(s, ops[0]), ops[1..]);
    }
  }

  // ----- round robin -----

  function Queue(s: Sched): seq<nat> {
    [s.running] + s.ready
  }

  function Rotated(q: seq<nat>, k: nat): seq<nat>
    requires k <= |q|
  {
    q[k..] + q[..k]
  }

  function Schedules(s: Sched, k: nat): Sched {
    if k == 0 then s else Schedule(Schedules(s, k - 1))
  }

  ghost predicate NoneEnding(s: Sched) {
    s.running !in s.ended && forall t :: t in s.ready ==> t !in s.ended
  }

  /** With no task ending or being created, k schedules rotate running-then-ready by k. */
  lemma {:induction false} RoundRobin(s: Sched, k: nat)
    requires NoneEnding(s) && s.ready != []
    ensures var t := Schedules(s, k);
            Queue(t) == Rotated(Queue(s), k % |Queue(s)|) && t.wait == s.wait && t.enabled == s.enabled
                && t.ended == s.ended
  {
    hide Schedule;
    var q := Queue(s);
    if k == 0 {
      assert Rotated(q, 0) == q;
    } else {
      RoundRobin(s, k - 1);
      var t, m := Schedules(s, k - 1), (k - 1) % |q|;
      ModNext(k - 1, |q|);
      QueueMembers(s, t, m);
      assert |Queue(t)| == |q|;
      ScheduleRotates(t);
      RotateOnce(q, m);
    }
  }

  lemma QueueMembers(s: Sched, t: Sched, m: nat)
    requires NoneEnding(s) && m < |Queue(s)| && Queue(t) == Rotated(Queue(s), m) && t.ended == s.ended
    ensures NoneEnding(t)
  {
    forall x | x in Queue(t) ensures x in Queue(s) {}
    assert t.running == Queue(t)[0];
    assert t.ready == Queue(t)[1..];
  }

  lemma ScheduleRotates(t: Sched)
    requires NoneEnding(t) && t.ready != []
    ensures Queue(Schedule(t)) == Queue(t)[1..] + [Queue(t)[0]]
    ensures Schedule(t).wait == t.wait && Schedule(t).enabled == t.enabled && Schedule(t).ended == t.ended
  {
  }

  lemma RotateOnce(q: seq<nat>, m: nat)
    requires m < |q|
    ensures Rotated(q, m)[1..] + [Rotated(q, m)[0]] == Rotated(q, if m + 1 < |q| then m + 1 else 0)
  {
    if m + 1 < |q| {
      assert Rotated(q, m)[1..] + [q[m]] == q[m + 1..] + q[..m + 1];
    } else {
      assert Rotated(q, m)[1..] + [q[m]] == q;
    }
  }

  /** After k schedules the running task is entry k mod (n + 1) of running-then-ready. */
  lemma KthRuns(s: Sched, k: nat)
    requires NoneEnding(s) && s.ready != []
    ensures Schedules(s, k).running == Queue(s)[k % |Queue(s)|]
  {
    RoundRobin(s, k);
    assert Schedules(s, k).running == Queue(Schedules(s, k))[0];
  }

  /** No starvation: among any n + 1 consecutive schedules there is one after which t runs. */
  lemma EveryTaskRuns(s: Sched, t: nat, start: nat) returns (k: nat)
    requires NoneEnding(s) && s.ready != [] && t in Queue(s)
    ensures start <= k < start + |Queue(s)| && Schedules(s, k).running == t
  {
    hide Schedules, NoneEnding;
    var q := Queue(s);
    var i: nat :| i < |q| && q[i] == t;
    var d, m := start / |q|, start % |q|;
    Euclid(start, |q|);
    if i >= m {
      k := start + i - m;
      DivModIs(k, |q|, d, i);
    } else {
      k := start + |q| - m + i;
      MulSum(d, 1, |q|);
      DivModIs(k, |q|, d + 1, i);
    }
    KthRuns(s, k);
  }

  // ----- waiting, over whole runs -----

  predicate Switches(op: Op) {
    op.DoSchedule? || op.DoEndRunning? || op.DoResume?
  }

  function SwitchCount(ops: seq<Op>): nat {
    if ops == [] then 0 else (if Switches(ops[0]) then 1 else 0) + SwitchCount(ops[1..])
  }

  /** No operation of the run ends t while it is ready. */
  ghost predicate Spared(s: Sched, ops: seq<Op>, t: nat)
    decreases ops
  {
    ops == [] ||
    ((ops[0].DoEndReady? && ops[0].k < |s.ready| ==> s.ready[ops[0].k] != t) && Spared(Step(s, ops[0]), ops[1..], t))
  }

  /** First come, first served: whatever else is created, ended, resumed or reaped meanwhile, the task that is i-th on
      the ready list runs after at most i + 1 switches. */
  lemma {:induction false} BoundedWait(s: Sched, ops: seq<Op>, i: nat) returns (p: nat)
    requires Guarded(s, ops) && i < |s.ready| && Spared(s, ops, s.ready[i]) && SwitchCount(ops) > i
    ensures p <= |ops| && SwitchCount(ops[..p]) <= i + 1 && Run(s, ops[..p]).running == s.ready[i]
    decreases ops
  {
    var t, s', rest := s.ready[i], Step(s, ops[0]), ops[1..];
    if Switches(ops[0]) && i == 0 {
      assert ops[..1] == [ops[0]] && ops[..1][1..] == [];
      assert Run(s, ops[..1]) == Run(s', []) == s';
      p := 1;
    } else {
      var j := if Switches(ops[0]) || (ops[0].DoEndReady? && ops[0].k < i) then i - 1 else i;
      assert j < |s'.ready| && s'.ready[j] == t;
      var q := BoundedWait(s', rest, j);
      p := q + 1;
      assert ops[..p][0] == ops[0] && ops[..p][1..] == rest[..q];
    }
  }

  /** Neither a resumption nor a new task in t's slot. */
  predicate NoReturn(ops: seq<Op>, t: nat) {
    forall i :: 0 <= i < |ops| ==> !ops[i].DoResume? && !(ops[i].DoCreate? && ops[i].t == t)
  }

  /** A task that waits, or is gone, stays away: it neither runs nor becomes ready before a resumption. */
  lemma {:induction false} WaitingStaysAway(s: Sched, ops: seq<Op>, t: nat)
    requires t != s.running && t !in s.ready && Guarded(s, ops) && NoReturn(ops, t)
    ensures Run(s, ops).running != t && t !in Run(s, ops).ready
    decreases ops
  {
    if ops != [] {
      assert ops[0] in ops;
      WaitingStaysAway(Step(s, ops[0]), ops[1..], t);
    }
  }

  /** A task that is ended leaves the processor for good: marked, it waits to be reaped, and it does not run again
      unless the waiting tasks are resumed or its slot is given to a new task. */
  lemma EndedStaysAway(s: Sched, op: Op, ops: seq<Op>)
    requires Partition(s) && Guard(s, op) && (op.DoEndRunning? || op.DoEndReady?)
    requires Guarded(Step(s, op), ops)
    ensures var t, w := if op.DoEndReady? then s.ready[op.k] else s.running, Step(s, op);
            && t in w.ended && |w.wait| == |s.wait| + 1 && w.wait[|s.wait|] == t && w.enabled == s.enabled
            && (NoReturn(ops, t) ==> Run(w, ops).running != t && t !in Run(w, ops).ready)
  {
    var t, w := if op.DoEndReady? then s.ready[op.k] else s.running, Step(s, op);
    StepKeepsPartition(s, op);
    assert w.wait[|s.wait|] == t;
    PartitionMeaning(w);
    assert t != w.running && t !in w.ready;
    if NoReturn(ops, t) { WaitingStaysAway(w, ops, t); }
  }

  /** The marks of ended tasks stay until they are reaped, so one that was resumed leaves again at the next switch. */
  lemma {:induction false} EndedStaysMarked(s: Sched, ops: seq<Op>, t: nat)
    requires t in s.ended && Guarded(s, ops) && forall i :: 0 <= i < |ops| ==> !ops[i].DoReap?
    ensures t in Run(s, ops).ended
    decreases ops
  {
    if ops != [] {
      assert !ops[0].DoReap?;
      EndedStaysMarked(Step(s, ops[0]), ops[1..], t);
    }
  }

  lemma MarkedLeaves(s: Sched)
    requires Partition(s) && s.running in s.ended && s.ready != []
    ensures Schedule(s).running != s.running && s.running in Schedule(s).wait && s.running !in Schedule(s).ready
  {
    PartitionMeaning(s);
  }

  /** Resumed tasks run in the order in which they began to wait, behind those that were ready; a new task behind
      all of them. */
  lemma ResumedRun(s: Sched, i: nat)
    requires NoneEnding(s) && i < |s.wait| && (forall t :: t in s.wait ==> t !in s.ended)
    ensures Schedules(Resume(s), |s.ready| + i).running == s.wait[i]
  {
    hide Schedules, Resume, NoneEnding, Queue;
    ResumedQueue(s);
    KthRunsToo(Resume(s), |s.ready| + i);
  }

  lemma ResumedQueue(s: Sched)
    requires NoneEnding(s) && s.wait != [] && (forall t :: t in s.wait ==> t !in s.ended)
    ensures Queue(Resume(s)) == s.ready + s.wait + [s.running] && NoneEnding(Resume(s))
  {
    var w := Resume(s);
    assert Queue(w) == s.ready + s.wait + [s.running];
    forall t | t in Queue(w) ensures t !in w.ended {}
    assert w.running == Queue(w)[0] && w.ready == Queue(w)[1..];
  }

  lemma KthRunsToo(s: Sched, k: nat)
    requires NoneEnding(s) && 1 < |Queue(s)| && k < |Queue(s)|
    ensures Schedules(s, k).running == Queue(s)[k]
  {
    hide Schedules, NoneEnding;
    KthRuns(s, k);
    DivModIs(k, |Queue(s)|, 0, k);
  }

  lemma CreatedRuns(s: Sched, t: nat)
    requires NoneEnding(s) && t !in s.enabled && t !in s.ended
    ensures Schedules(Create(s, t, false), |s.ready| + 1).running == t
  {
    var w := Create(s, t, false);
    assert Queue(w) == Queue(s) + [t];
    KthRunsToo(w, |s.ready| + 1);
  }
}
