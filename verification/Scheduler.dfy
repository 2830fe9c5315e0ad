/** task/sched.c and task/task.c on the task pool and the intrusive lists. */
module Scheduler {
  import opened Lists
  import opened SchedulerSpec

  const SCHED_CPUTIME := 5

  class Task {
    const slot: nat  // the position in the pool
    const link: Link
    var id: int
    var enabled: bool
    var ended: bool  // TASK_FLAGS_ENDTASK
    var idle: bool   // TASK_FLAGS_IDLE

    constructor (slot: nat)
      ensures this.slot == slot && fresh(link) && link.owner == slot && !enabled && !ended && !idle && id == 0
    {
      this.slot := slot;
      link := new Link(slot);
      id, enabled, ended, idle := 0, false, false, false;
    }
  }

  ghost function Ids(nodes: seq<Link>): (r: seq<nat>)
    ensures |r| == |nodes|
  {
    seq(|nodes|, i requires 0 <= i < |nodes| => nodes[i].owner)
  }

  lemma IdsAppend(a: seq<Link>, b: seq<Link>)
    ensures Ids(a + b) == Ids(a) + Ids(b)
  {
  }

  /** What schedule does to the lists of links, read as lists of tasks. */
  lemma ScheduledLinks(s: Sched, r: seq<Link>, w: seq<Link>, run: Link, next: nat, r': seq<Link>, w': seq<Link>)
    requires s.ready == Ids(r) && s.wait == Ids(w) && s.running == run.owner
    requires next == if r == [] then s.running else r[0].owner
    requires var rest := if r == [] then [] else r[1..];
             if s.running in s.ended then r' == rest && w' == w + [run] else r' == rest + [run] && w' == w
    ensures SchedulerSpec.Schedule(s) == s.(running := next, ready := Ids(r'), wait := Ids(w'))
  {
    var rest := if r == [] then [] else r[1..];
    assert Ids([run]) == [run.owner];
    assert Ids(rest) == if r == [] then [] else Ids(r)[1..];
    IdsAppend(rest, [run]);
    IdsAppend(w, [run]);
  }

  lemma EndedLinks(s: Sched, r: seq<Link>, w: seq<Link>, k: nat)
    requires s.ready == Ids(r) && s.wait == Ids(w) && k < |r|
    ensures SchedulerSpec.EndReady(s, k)
         == s.(ready := Ids(r[..k] + r[k + 1..]), wait := Ids(w + [r[k]]), ended := s.ended + {r[k].owner})
  {
    IdsAppend(w, [r[k]]);
    IdsAppend(r[..k], r[k + 1..]);
    assert Ids([r[k]]) == [r[k].owner];
    assert Ids(r)[..k] == Ids(r[..k]) && Ids(r)[k + 1..] == Ids(r[k + 1..]);
  }

  class Kernel {
    const pool: seq<Task>
    var numTask: int
    var running: Task
    const ready: ListHeader
    const wait: ListHeader
    var cputime: int
    var idleTime: int

    ghost predicate Pool() {
      && |pool| == TASK_MAX && ready != wait && ready.head != wait.head
      && (forall i {:trigger pool[i]} :: 0 <= i < TASK_MAX ==>
            pool[i].slot == i && pool[i].link.owner == i && pool[i].link != ready.head && pool[i].link != wait.head)
    }

    ghost predicate InPool(t: Task) {
      t.slot < |pool| && pool[t.slot] == t
    }

    ghost predicate Listed(n: Link)
    {
      n.owner < |pool| && pool[n.owner].link == n
    }

    /** Two separate well-formed lists over the links of pool tasks. */
    ghost predicate Shaped()
      reads ready, wait, ready.head, wait.head, ready.nodes, wait.nodes
    {
      && Pool() && ready.Valid() && wait.Valid()
      && (forall n :: n in ready.nodes ==> Listed(n) && n != wait.head && n !in wait.nodes)
      && (forall n :: n in wait.nodes ==> Listed(n) && n != ready.head)
    }

    ghost function Enabled(): set<nat>
      reads pool
    {
      set t | t in pool && t.enabled :: t.slot
    }

    ghost function Ended(): set<nat>
      reads pool
    {
      set t | t in pool && t.ended :: t.slot
    }

    ghost function Abs(): Sched
      reads this, ready, wait, pool
    {
      Sched(running.slot, Ids(ready.nodes), Ids(wait.nodes), Enabled(), Ended())
    }

    lemma EndedAt(t: Task)
      requires Pool() && InPool(t)
      ensures t.slot in Ended() <==> t.ended
    {
      if t.slot in Ended() {
        var u :| u in pool && u.ended && u.slot == t.slot;
        var i :| 0 <= i < |pool| && pool[i] == u;
        assert pool[i].slot == i;
      }
    }

    /** The counter counts the enabled slots, and each of them carries its index as id. */
    ghost predicate Counted()
      reads this`numTask, pool
    {
      numTask == |Enabled()| && forall t :: t in pool && t.enabled ==> t.id == t.slot
    }

    /** The structures are sound, whoever is on which list. */
    ghost predicate Sound()
      reads this, pool, ready, wait, ready.head, wait.head, ready.nodes, wait.nodes
    {
      Shaped() && InPool(running) && Counted()
    }

    ghost predicate Healthy()
      reads this, pool, ready, wait, ready.head, wait.head, ready.nodes, wait.nodes
    {
      Sound() && Partition(Abs())
    }

    lemma NoneEnabled()
      requires Pool() && forall i {:trigger pool[i]} :: 0 <= i < TASK_MAX ==> !pool[i].enabled && !pool[i].ended
      ensures Enabled() == {} && Ended() == {}
    {
      forall t | t in pool ensures !t.enabled && !t.ended {
        var i :| 0 <= i < |pool| && pool[i] == t;
      }
    }

    /** init_scheduler: empty lists over a zeroed pool, with the booting task as its first slot. */
    constructor (pool: seq<Task>)
      requires |pool| == TASK_MAX
      requires forall i {:trigger pool[i]} :: 0 <= i < TASK_MAX ==>
                 pool[i].slot == i && pool[i].link.owner == i && !pool[i].enabled && !pool[i].ended
      modifies pool
      ensures Healthy() && this.pool == pool && Abs() == Sched(0, [], [], {0}, {})
    {
      this.pool := pool;
      ready := new ListHeader();
      wait := new ListHeader();
      running := pool[0];
      numTask, cputime, idleTime := 0, 0, 0;
      new;
      NoneEnabled();
      TakeFirstSlot();
    }

    /** The booting task gets a slot and runs. */
    method TakeFirstSlot()
      requires Shaped() && ready.nodes == wait.nodes == [] && numTask == 0 && Enabled() == {} && Ended() == {}
      requires Counted()
      modifies this`numTask, this`running, pool
      ensures Healthy() && Abs() == Sched(0, [], [], {0}, {})
    {
      hide Shaped, Counted, Enabled, Ended, Partition;
      ShapeMeansPool();
      ghost var e := Enabled();
      var t := AllocTask();
      assert t.slot > 0 ==> 0 in e;
      running := t;
      ShapeStays();
      NoIds();
      BootPartition();
      assert Abs() == Sched(0, [], [], {0}, {});
    }

    /** alloc_task: the first slot that is not enabled. */
    method AllocTask() returns (t: Task?)
      requires Pool() && Counted()
      modifies this`numTask, pool
      ensures Counted()
      ensures t == null <==> old(numTask) >= TASK_MAX
      ensures t == null ==> numTask == old(numTask) && Enabled() == old(Enabled()) && Ended() == old(Ended())
      ensures t != null ==>
                && InPool(t) && t.slot !in old(Enabled()) && (forall i: nat :: i < t.slot ==> i in old(Enabled()))
                && Enabled() == old(Enabled()) + {t.slot} && Ended() == old(Ended()) && numTask == old(numTask) + 1
    {
      if numTask >= TASK_MAX { return null; }
      var i := 0;
      while i < TASK_MAX && pool[i].enabled
        invariant i <= TASK_MAX && forall j: nat :: j < i ==> j in Enabled()
      {
        assert pool[i] in pool;
        i := i + 1;
      }
      if i == TASK_MAX {
        AllEnabled(TASK_MAX, Enabled());
        return null;
      }
      t := pool[i];
      EnabledAt(t);
      Enable(t);
    }

    /** Writing one task's flag changes the enabled slots there only; likewise the ended ones. */
    twostate lemma EnabledChanges(t: Task)
      requires Pool() && InPool(t) && forall y :: y in pool && y != t ==> y.enabled == old(y.enabled)
      ensures Enabled() == if t.enabled then old(Enabled()) + {t.slot} else old(Enabled()) - {t.slot}
    {
      SlotsDiffer(t);
      assert t in pool;
      forall x ensures x in Enabled() <==> if x == t.slot then t.enabled else x in old(Enabled()) {
        if x in old(Enabled()) && x != t.slot {
          var y :| y in pool && old(y.enabled) && y.slot == x;
          assert y.enabled;
        }
      }
    }

    twostate lemma EndedChanges(t: Task)
      requires Pool() && InPool(t) && forall y :: y in pool && y != t ==> y.ended == old(y.ended)
      ensures Ended() == if t.ended then old(Ended()) + {t.slot} else old(Ended()) - {t.slot}
    {
      SlotsDiffer(t);
      assert t in pool;
      forall x ensures x in Ended() <==> if x == t.slot then t.ended else x in old(Ended()) {
        if x in old(Ended()) && x != t.slot {
          var y :| y in pool && old(y.ended) && y.slot == x;
          assert y.ended;
        }
      }
    }

    /** Claims a slot: id, enabled flag and counter. */
    method Enable(t: Task)
      requires Pool() && Counted() && InPool(t) && t.slot !in Enabled()
      modifies this`numTask, t`id, t`enabled
      ensures Counted() && numTask == old(numTask) + 1
      ensures Enabled() == old(Enabled()) + {t.slot} && Ended() == old(Ended())
    {
      t.id := t.slot;
      t.enabled := true;
      numTask := numTask + 1;
      EnabledChanges(t);
    }

    /** Writing tasks does not disturb the lists. */
    twostate lemma ShapeStays()
      requires old(Shaped()) && unchanged(ready) && unchanged(wait) && unchanged(ready.head) && unchanged(wait.head)
      requires (forall n :: n in ready.nodes ==> unchanged(n)) && forall n :: n in wait.nodes ==> unchanged(n)
      ensures Shaped()
    {
      Untouched(ready);
      Untouched(wait);
    }

    /** The task is in the pool and on neither list. */
    ghost predicate Unlisted(t: Task)
      reads ready, wait
    {
      InPool(t) && t.link !in ready.nodes && t.link !in wait.nodes
    }

    /** list_pop on the ready list. */
    method PopReady() returns (t: Task)
      requires Shaped() && ready.nodes != []
      modifies ready, ready.head, ready.nodes
      ensures Enabled() == old(Enabled()) && Ended() == old(Ended())
      ensures Shaped() && ready.nodes == old(ready.nodes)[1..] && wait.nodes == old(wait.nodes)
      ensures t.link == old(ready.nodes)[0] && Unlisted(t)
    {
      assert ready.nodes[0] in ready.nodes;
      var item := ready.Pop();
      Untouched(wait);
      t := pool[item.owner];
      assert old(ready.nodes) == [item] + ready.nodes;
    }

    /** list_pop on the wait list. */
    method PopWait() returns (t: Task)
      requires Shaped() && wait.nodes != []
      modifies wait, wait.head, wait.nodes
      ensures Enabled() == old(Enabled()) && Ended() == old(Ended())
      ensures Shaped() && wait.nodes == old(wait.nodes)[1..] && ready.nodes == old(ready.nodes)
      ensures t.link == old(wait.nodes)[0] && Unlisted(t)
    {
      assert wait.nodes[0] in wait.nodes && ready.head !in wait.nodes;
      var item := wait.Pop();
      Untouched(ready);
      t := pool[item.owner];
      assert old(wait.nodes) == [item] + wait.nodes;
    }

    /** add_task_to_readylist. */
    method AddReady(t: Task)
      requires Shaped() && Unlisted(t)
      modifies ready, ready.head, ready.nodes, t.link
      ensures Enabled() == old(Enabled()) && Ended() == old(Ended())
      ensures Shaped() && ready.nodes == old(ready.nodes) + [t.link] && wait.nodes == old(wait.nodes)
    {
      ready.AddTail(t.link);
      Untouched(wait);
    }

    /** list_add_tail on the wait list. */
    method AddWait(t: Task)
      requires Shaped() && Unlisted(t)
      modifies wait, wait.head, wait.nodes, t.link
      ensures Enabled() == old(Enabled()) && Ended() == old(Ended())
      ensures Shaped() && wait.nodes == old(wait.nodes) + [t.link] && ready.nodes == old(ready.nodes)
    {
      assert ready.head !in wait.nodes;
      wait.AddTail(t.link);
      Untouched(ready);
    }

    /** remove_task_from_readylist, for a task that is on it. */
    method RemoveReady(t: Task, ghost k: nat)
      requires Shaped() && k < |ready.nodes| && ready.nodes[k] == t.link && InPool(t)
      modifies ready, ready.head, ready.nodes
      ensures Enabled() == old(Enabled()) && Ended() == old(Ended())
      ensures Shaped() && ready.nodes == old(ready.nodes)[..k] + old(ready.nodes)[k + 1..]
      ensures wait.nodes == old(wait.nodes)
      ensures Unlisted(t)
    {
      assert ready.nodes[k] in ready.nodes;
      ready.Remove(t.link, k);
      Untouched(wait);
    }

    /** get_next_task: the head of the ready list, or the running task itself if the list is empty. */
    method GetNextTask() returns (next: Task)
      requires Shaped() && InPool(running)
      modifies ready, ready.head, ready.nodes
      ensures Enabled() == old(Enabled()) && Ended() == old(Ended())
      ensures Shaped() && InPool(next)
      ensures wait.nodes == old(wait.nodes)
      ensures next.slot == if old(ready.nodes) == [] then running.slot else old(ready.nodes)[0].owner
      ensures ready.nodes == if old(ready.nodes) == [] then [] else old(ready.nodes)[1..]
    {
      if ready.Empty() { return running; }
      next := PopReady();
    }

    /** The running task is on neither list, and each list names each task once. */
    lemma RunningIsUnlisted()
      requires Shaped() && InPool(running) && Partition(Abs())
      ensures Unlisted(running) && running.link.owner == running.slot && (running.slot in Ended() <==> running.ended)
    {
      var s := Abs();
      PartitionMeaning(s);
      EndedAt(running);
      forall i | 0 <= i < |ready.nodes| ensures ready.nodes[i] != running.link { assert s.ready[i] in s.ready; }
      forall i | 0 <= i < |wait.nodes| ensures wait.nodes[i] != running.link { assert s.wait[i] in s.wait; }
    }

    /** What schedule and schedule_in_interrupt share: take the next task and put the previous one on
        the wait list if it is ending, else at the end of the ready list. */
    method SwitchTask() returns (previous: Task)
      requires Shaped() && InPool(running) && Partition(Abs())
      modifies this`running, ready, wait, ready.head, wait.head, ready.nodes, wait.nodes, running.link
      ensures Shaped() && InPool(running) && Abs() == SchedulerSpec.Schedule(old(Abs()))
      ensures previous == old(running) && Enabled() == old(Enabled())
    {
      hide Shaped, Partition, Enabled, Ended, Ids, InPool, Unlisted, SchedulerSpec.Schedule;
      RunningIsUnlisted();
      ghost var s, r, w := Abs(), ready.nodes, wait.nodes;
      var next := GetNextTask();
      previous := running;
      running := next;
      if previous.ended {
        AddWait(previous);
      } else {
        AddReady(previous);
      }
      ScheduledLinks(s, r, w, previous.link, next.slot, ready.nodes, wait.nodes);
    }

    /** schedule: also when nothing is ready, and also when the running task is ending.  Every task
        is afterwards in exactly one place if and only if something was ready. */
    method Schedule()
      requires Healthy()
      modifies this`running, this`cputime, this`idleTime, ready, wait, ready.head, wait.head, ready.nodes, wait.nodes,
          running.link
      ensures Sound() && Abs() == SchedulerSpec.Schedule(old(Abs()))
      ensures Healthy() <==> old(ready.nodes) != []
      ensures cputime == SCHED_CPUTIME
      ensures idleTime == old(idleTime) + if old(running).idle then SCHED_CPUTIME - old(cputime) else 0
    {
      hide Shaped, Partition, Enabled, Ended, Ids, InPool, SchedulerSpec.Schedule;
      ScheduleKeepsPartition(Abs());
      var previous := SwitchTask();
      if previous.idle {
        idleTime := idleTime + SCHED_CPUTIME - cputime;
      }
      cputime := SCHED_CPUTIME;
    }

    /** schedule_in_interrupt: the same switch, charging the idle task a whole slice. */
    method ScheduleInInterrupt()
      requires Healthy()
      modifies this`running, this`cputime, this`idleTime, ready, wait, ready.head, wait.head, ready.nodes, wait.nodes,
          running.link
      ensures Sound() && Abs() == SchedulerSpec.Schedule(old(Abs()))
      ensures Healthy() <==> old(ready.nodes) != []
      ensures cputime == SCHED_CPUTIME
      ensures idleTime == old(idleTime) + if old(running).idle then SCHED_CPUTIME else 0
    {
      hide Shaped, Partition, Enabled, Ended, Ids, InPool, SchedulerSpec.Schedule;
      ScheduleKeepsPartition(Abs());
      var previous := SwitchTask();
      if previous.idle {
        idleTime := idleTime + SCHED_CPUTIME;
      }
      cputime := SCHED_CPUTIME;
    }

    /** Sets TASK_FLAGS_ENDTASK. */
    method MarkEnded(t: Task)
      requires Pool() && InPool(t)
      modifies t`ended
      ensures Enabled() == old(Enabled()) && Ended() == old(Ended()) + {t.slot} && (old(Counted()) ==> Counted())
    {
      t.ended := true;
      EndedChanges(t);
    }

    /** end_task on the running task: it is marked and switched away from. */
    method EndRunning()
      requires Healthy()
      modifies this`running, this`cputime, this`idleTime, ready, wait, ready.head, wait.head, ready.nodes, wait.nodes,
          running.link, running
      ensures Sound() && Abs() == SchedulerSpec.EndRunning(old(Abs()))
      ensures Healthy() <==> old(ready.nodes) != []
      ensures cputime == SCHED_CPUTIME
      ensures idleTime == old(idleTime) + if old(running.idle) then SCHED_CPUTIME - old(cputime) else 0
    {
      hide Partition, Enabled, Ended, Ids, SchedulerSpec.Schedule;
      MarkingKeepsPartition(Abs());
      MarkEnded(running);
      Schedule();
    }

    /** end_task on a task of the ready list, given its position there. */
    method EndReady(target: Task, ghost k: nat)
      requires Healthy() && InPool(target) && k < |ready.nodes| && ready.nodes[k] == target.link
      modifies ready, wait, ready.head, wait.head, ready.nodes, wait.nodes, target`ended
      ensures Healthy() && Abs() == SchedulerSpec.EndReady(old(Abs()), k)
    {
      hide Partition, Enabled, Ended, Ids, SchedulerSpec.EndReady;
      EndReadyKeepsPartition(Abs(), k);
      EndedLinks(Abs(), ready.nodes, wait.nodes, k);
      RemoveReady(target, k);
      MarkEnded(target);
      AddWait(target);
    }

    /** The loop of resume_tasks: the wait list is moved, in order, behind the ready list. */
    method MoveWaiting()
      requires Shaped()
      modifies ready, wait, ready.head, wait.head, ready.nodes, wait.nodes
      ensures Shaped() && ready.nodes == old(ready.nodes) + old(wait.nodes) && wait.nodes == []
      ensures Enabled() == old(Enabled()) && Ended() == old(Ended())
    {
      hide Enabled, Ended, Shaped;
      ghost var r, w, i := ready.nodes, wait.nodes, 0;
      assert w[..0] == [];
      while !IsWaitEmpty()
        invariant Shaped() && i <= |w| && ready.nodes == r + w[..i] && wait.nodes == w[i..]
        invariant Enabled() == old(Enabled()) && Ended() == old(Ended())
        decreases |w| - i
      {
        assert forall n :: n in ready.nodes ==> n in r || n in w;
        assert forall n :: n in wait.nodes ==> n in w;
        assert w[i] in w;
        var t := PopWait();
        AddReady(t);
        assert r + w[..i] + [w[i]] == r + w[..i + 1];
        i := i + 1;
      }
      assert w[..i] == w;
    }

    /** list_empty on the wait list. */
    predicate IsWaitEmpty()
      requires Shaped()
      reads ready, wait, ready.head, wait.head, ready.nodes, wait.nodes
      ensures IsWaitEmpty() <==> wait.nodes == []
    {
      wait.Empty()
    }

    /** resume_tasks. */
    method Resume()
      requires Healthy()
      modifies this`running, this`cputime, this`idleTime, ready, wait, ready.head, wait.head, ready.nodes, wait.nodes,
          running.link
      ensures Sound() && Abs() == SchedulerSpec.Resume(old(Abs()))
      ensures Healthy() <==> old(ready.nodes + wait.nodes) != []
      ensures cputime == SCHED_CPUTIME
      ensures idleTime == old(idleTime) + if old(running.idle) then SCHED_CPUTIME - old(cputime) else 0
    {
      hide Shaped, Partition, Enabled, Ended, InPool, Ids, SchedulerSpec.Schedule;
      IdsAppend(ready.nodes, wait.nodes);
      MovingKeepsPartition(Abs());
      NoIds();
      MoveWaiting();
      Schedule();
    }

    /** free_task: clears a pool slot. */
    method FreeTask(id: nat, ghost t: Task)
      requires Pool() && id < TASK_MAX && t == pool[id] && t.enabled && Counted()
      modifies this`numTask, t, t.link
      ensures Enabled() == old(Enabled()) - {id} && Ended() == old(Ended()) - {id} && numTask == old(numTask) - 1
      ensures Counted()
      ensures t.link.next == null && t.link.prev == null
    {
      EnabledAt(t);
      var u := pool[id];
      u.id := 0;
      u.enabled, u.ended, u.idle := false, false, false;
      u.link.next := null;
      u.link.prev := null;
      numTask := numTask - 1;
      EnabledChanges(u);
      EndedChanges(u);
    }

    /** One round of the idle task's reaping loop. */
    method ReapOne()
      requires Shaped() && Counted() && wait.nodes != [] && wait.nodes[0].owner in Enabled()
      modifies this`numTask, wait, wait.head, wait.nodes, pool
      ensures Shaped() && Counted() && wait.nodes == old(wait.nodes)[1..] && ready.nodes == old(ready.nodes)
      ensures Enabled() == old(Enabled()) - {old(wait.nodes)[0].owner}
      ensures Ended() == old(Ended()) - {old(wait.nodes)[0].owner}
    {
      hide Enabled, Ended;
      assert ready.head !in wait.nodes;
      var t := PopWait();
      label Popped:
      EnabledAt(t);
      FreeTask(t.id, t);
      Untouched(ready);
      Untouched@Popped(wait);
    }

    /** The reaping loop of idle_task. */
    method ReapLoop()
      requires Shaped() && Counted() && forall i, j :: 0 <= i < j < |wait.nodes| ==>
                 Ids(wait.nodes)[i] != Ids(wait.nodes)[j]
      requires forall t :: t in Ids(wait.nodes) ==> t in Enabled()
      modifies this`numTask, wait, wait.head, wait.nodes, pool
      ensures Shaped() && Counted() && wait.nodes == [] && ready.nodes == old(ready.nodes)
      ensures Enabled() == old(Enabled()) - IdSet(old(wait.nodes)) && Ended() == old(Ended()) - IdSet(old(wait.nodes))
    {
      hide Enabled, Ended, Shaped, Counted, Ids;
      ghost var e, d, r, w, i := Enabled(), Ended(), ready.nodes, wait.nodes, 0;
      NoIds();
      assert w[..0] == [];
      while !IsWaitEmpty()
        invariant Shaped() && Counted() && i <= |w| && ready.nodes == r && wait.nodes == w[i..]
        invariant Enabled() == e - IdSet(w[..i]) && Ended() == d - IdSet(w[..i])
        decreases |w| - i
      {
        assert forall n :: n in wait.nodes ==> n in w;
        IdSetGrows(w, i);
        ReapOne();
        i := i + 1;
      }
      assert w[..i] == w;
    }

    /** What the idle task does to the wait list: every waiting task leaves the pool, and no other. */
    method Reap()
      requires Healthy()
      modifies this`numTask, wait, wait.head, wait.nodes, pool
      ensures Healthy() && Abs() == SchedulerSpec.Reap(old(Abs()))
      ensures numTask == old(numTask) - |old(wait.nodes)|
    {
      hide Enabled, Ended, Shaped, Counted, Partition, Ids;
      WaitingOnce(Abs());
      ReapKeepsPartition(Abs());
      CountedMeans();
      NoIds();
      ReapLoop();
      CountedMeans();
    }

    /** setup_task sets the flags of a new task; its registers and stack are not modelled. */
    method SetupTask(t: Task, ended: bool, idle: bool)
      requires Pool() && InPool(t)
      modifies t`ended, t`idle
      ensures t.ended == ended && t.idle == idle && Enabled() == old(Enabled()) && (old(Counted()) ==> Counted())
      ensures Ended() == if ended then old(Ended()) + {t.slot} else old(Ended()) - {t.slot}
    {
      t.ended, t.idle := ended, idle;
      EndedChanges(t);
    }

    /** create_task: a free slot becomes a task at the end of the ready list. */
    method CreateTask(ended: bool, idle: bool) returns (t: Task?)
      requires Healthy()
      modifies this`numTask, pool, ready, ready.head, ready.nodes, set u | u in pool :: u.link
      ensures Healthy()
      ensures t == null <==> old(numTask) >= TASK_MAX
      ensures t == null ==> Abs() == old(Abs())
      ensures t != null ==>
                && t.slot !in old(Enabled()) && t.slot < TASK_MAX
                    && (forall i: nat :: i < t.slot ==> i in old(Enabled()))
                && Abs() == SchedulerSpec.Create(old(Abs()), t.slot, ended) && t.idle == idle
    {
      hide Enabled, Ended, Partition, Ids, Shaped, Counted, Unlisted, InPool;
      ghost var s, r := Abs(), ready.nodes;
      ShapeMeansPool();
      t := AllocTask();
      ShapeStays();
      if t == null {
        assert Abs() == s;
        return;
      }
      NotListed(s, t);
      Admit(t, ended, idle);
      CreateKeepsPartition(s, t.slot, ended);
      IdsSnoc(r, t.link);
      assert Abs() == SchedulerSpec.Create(s, t.slot, ended);
    }

    /** The second half of create_task. */
    method Admit(t: Task, ended: bool, idle: bool)
      requires Shaped() && Unlisted(t) && t.slot !in Ended()
      modifies t`ended, t`idle, ready, ready.head, ready.nodes, t.link
      ensures Shaped() && ready.nodes == old(ready.nodes) + [t.link] && wait.nodes == old(wait.nodes)
      ensures t.idle == idle && Enabled() == old(Enabled()) && (old(Counted()) ==> Counted())
      ensures Ended() == if ended then old(Ended()) + {t.slot} else old(Ended())
    {
      hide Enabled, Ended, Shaped, Counted;
      ShapeMeansPool();
      SetupTask(t, ended, idle);
      ShapeStays();
      AddReady(t);
    }

    lemma ShapeMeansPool()
      requires Shaped()
      ensures Pool()
    {
    }

    /** A task that is not enabled is on no list. */
    lemma NotListed(s: Sched, t: Task)
      requires Pool() && InPool(t) && Partition(s) && s.ready == Ids(ready.nodes) && s.wait == Ids(wait.nodes)
      requires t.slot !in s.enabled
      ensures Unlisted(t) && t.slot < TASK_MAX && t.slot !in s.ended && t.link.owner == t.slot
    {
      PartitionMeaning(s);
      forall i | 0 <= i < |ready.nodes| ensures ready.nodes[i] != t.link { assert s.ready[i] in s.ready; }
      forall i | 0 <= i < |wait.nodes| ensures wait.nodes[i] != t.link { assert s.wait[i] in s.wait; }
    }

    lemma CountedMeans()
      requires Counted()
      ensures numTask == |Enabled()|
    {
    }

    lemma EnabledAt(t: Task)
      requires Pool() && InPool(t)
      ensures t in pool && (t.slot in Enabled() <==> t.enabled)
    {
      SlotsDiffer(t);
    }

    lemma SlotsDiffer(u: Task)
      requires Pool() && InPool(u)
      ensures forall y :: y in pool && y != u ==> y.slot != u.slot
    {
      forall y | y in pool && y != u ensures y.slot != u.slot {
        var i :| 0 <= i < |pool| && pool[i] == y;
      }
    }
  }

  lemma {:induction false} AllEnabled(n: nat, s: set<nat>)
    requires forall i: nat :: i < n ==> i in s
    ensures |s| >= n
  {
    if n > 0 { AllEnabled(n - 1, s - {n - 1}); }
  }

  ghost function IdSet(nodes: seq<Link>): set<nat> {
    set t | t in Ids(nodes)
  }

  lemma IdSetGrows(w: seq<Link>, i: nat)
    requires i < |w| && forall a, b :: 0 <= a < b < |w| ==> Ids(w)[a] != Ids(w)[b]
    ensures IdSet(w[..i + 1]) == IdSet(w[..i]) + {w[i].owner} && w[i].owner !in IdSet(w[..i]) && w[i].owner in Ids(w)
  {
    assert w[..i + 1] == w[..i] + [w[i]];
    IdsAppend(w[..i], [w[i]]);
    assert Ids([w[i]]) == [w[i].owner];
    assert Ids(w)[i] == w[i].owner;
    forall a | 0 <= a < i ensures Ids(w[..i])[a] != w[i].owner {
      assert Ids(w[..i])[a] == Ids(w)[a];
    }
  }

  lemma IdsSnoc(nodes: seq<Link>, n: Link)
    ensures Ids(nodes + [n]) == Ids(nodes) + [n.owner]
  {
  }

  lemma NoIds()
    ensures Ids([]) == []
  {
  }
}
