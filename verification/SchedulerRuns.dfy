/** What holds over whole runs of the scheduler: bounded waiting, sleeping exactly as long as asked, and no lost
    wake-up. */
module SchedulerRuns {
  import opened Lists
  import opened Scheduler

  ghost predicate Runs(k: Kernel, es: seq<Event>)
    requires Inv(k)
    decreases |es|
  {
    es == [] || (Enabled(k, es[0]) && (StepKeeps(k, es[0]); Runs(Step(k, es[0]), es[1..])))
  }

  ghost function After(k: Kernel, es: seq<Event>): (k': Kernel)
    requires Inv(k) && Runs(k, es)
    ensures Inv(k')
    decreases |es|
  {
    if es == [] then k else
      StepKeeps(k, es[0]);
      After(Step(k, es[0]), es[1..])
  }

  /** In every reachable state each control block is in exactly one place, Idle excepted. */
  lemma BlockPartition(k: Kernel, es: seq<Event>, t: nat)
    requires Inv(k) && Runs(k, es) && t < NUM_PCB
    ensures var r := After(k, es);
            var places := (if t in r.free then 1 else 0) + (if t in r.list then 1 else 0)
                          + (if t == r.running then 1 else 0) + (if r.tasks[t].state == Zombie then 1 else 0);
            places == 1 || (t == IDLE && t in r.list && t == r.running && places == 2)
    ensures Distinct(After(k, es).list) && Distinct(After(k, es).free)
  {
    assert Placed(After(k, es), t);
  }

  /** No two blocks in use have the same pid. */
  lemma PidsUnique(k: Kernel, es: seq<Event>, t: nat, u: nat)
    requires Inv(k) && Runs(k, es) && t < NUM_PCB && u < NUM_PCB && t !in After(k, es).free && u !in After(k, es).free
    ensures After(k, es).tasks[t].pid == After(k, es).tasks[u].pid ==> t == u
  {
    assert Placed(After(k, es), t) && Placed(After(k, es), u);
  }

  lemma {:induction false} ListFits(xs: seq<nat>, n: nat)
    requires Distinct(xs) && forall i :: 0 <= i < |xs| ==> xs[i] < n
    ensures |xs| <= n
  {
    assert |xs| > 0 ==> xs[0] < n;
    if n > 0 {
      if i :| 0 <= i < |xs| && xs[i] == n - 1 {
        WithoutMembers(xs, i);
        var ys := Without(xs, i);
        assert forall j :: 0 <= j < |ys| ==> ys[j] in ys;
        ListFits(ys, n - 1);
      } else {
        ListFits(xs, n - 1);
      }
    }
  }

  // ----- bounded waiting

  /** The calls of schedule in a run. */
  ghost function ScheduleCount(k: Kernel, es: seq<Event>): nat
    requires Inv(k) && Runs(k, es)
    decreases |es|
  {
    if es == [] then 0 else
      StepKeeps(k, es[0]);
      (if Switches(k, es[0]) then 1 else 0) + ScheduleCount(Step(k, es[0]), es[1..])
  }

  /** Task `t` is given the processor during the run. */
  ghost predicate GetsProcessor(k: Kernel, es: seq<Event>, t: nat)
    requires Inv(k) && Runs(k, es)
    decreases |es|
  {
    es != [] && (StepKeeps(k, es[0]); Step(k, es[0]).running == t || GetsProcessor(Step(k, es[0]), es[1..], t))
  }

  predicate ReadyAt(k: Kernel, t: nat, p: nat) {
    p < |k.list| && k.list[p] == t && InState(k.tasks, t, Ready)
  }

  /** schedule picks the task at position `p`, or takes away a task ahead of it. */
  lemma ScheduleAdvances(k: Kernel, t: nat, p: nat)
    requires Leaving(k) && ReadyAt(k, t, p)
    ensures Schedule(k).running == t || (p > 0 && ReadyAt(Schedule(k), t, p - 1))
  {
    var i := FirstIn(k.tasks, k.list, Ready);
    if i < p {
      assert k.list[i] != t;
      assert Without(k.list, i)[p - 1] == t;
      assert Placed(k, k.running);
    }
  }

  /** Any step leaves a ready task ready and no further back; a step that calls schedule brings it forward. */
  lemma StepAdvances(k: Kernel, e: Event, t: nat, p: nat)
    requires Inv(k) && Enabled(k, e) && ReadyAt(k, t, p)
    ensures if Switches(k, e) then Step(k, e).running == t || (p > 0 && ReadyAt(Step(k, e), t, p - 1))
            else ReadyAt(Step(k, e), t, p)
  {
    assert t in k.list && Placed(k, t);
    if Switches(k, e) {
      PreparedLeaves(k, e);
      PreparedOther(k, e, t);
      ScheduleAdvances(Prepared(k, e), t, p);
    } else if e == Fork {
      assert k.free[0] in k.free && Placed(k, k.free[0]);
    }
  }

  /** A ready task at position `p` gets the processor within `p + 1` calls of schedule, whatever else happens. */
  lemma {:induction false} BoundedWaiting(k: Kernel, es: seq<Event>, t: nat, p: nat)
    requires Inv(k) && Runs(k, es) && ReadyAt(k, t, p) && ScheduleCount(k, es) >= p + 1
    ensures GetsProcessor(k, es, t)
    decreases |es|
  {
    var k' := Step(k, es[0]);
    StepKeeps(k, es[0]);
    StepAdvances(k, es[0], t, p);
    if k'.running != t {
      BoundedWaiting(k', es[1..], t, if Switches(k, es[0]) then p - 1 else p);
    }
  }

  // ----- sleeping

  function Ticks(es: seq<Event>): nat {
    if es == [] then 0 else (if es[0] == Tick then 1 else 0) + Ticks(es[1..])
  }

  predicate SleepsFor(k: Kernel, t: nat, n: int) {
    t in k.list && InState(k.tasks, t, Sleeping) && k.tasks[t].sleep == n
  }

  lemma ScheduleKeepsSleeper(k: Kernel, t: nat, n: int)
    requires Leaving(k) && SleepsFor(k, t, n)
    ensures SleepsFor(Schedule(k), t, n)
  {
    ScheduleSwitches(k);
    assert Placed(k, t) && Placed(k, k.running);
  }

  /** A step that is not the last tick leaves a sleeper asleep. */
  lemma StepSleeps(k: Kernel, e: Event, t: nat, n: int)
    requires Inv(k) && Enabled(k, e) && SleepsFor(k, t, n) && (e == Tick ==> n != 1)
    ensures SleepsFor(Step(k, e), t, if e == Tick then n - 1 else n)
  {
    assert Placed(k, t);
    if Switches(k, e) {
      PreparedLeaves(k, e);
      PreparedOther(k, e, t);
      ScheduleKeepsSleeper(Prepared(k, e), t, if e == Tick then n - 1 else n);
    } else if e == Fork {
      assert k.free[0] in k.free && Placed(k, k.free[0]);
      AppendedMembers(k.list, k.free[0]);
    }
  }

  /** A task that asked for `n` seconds sleeps through every run with fewer than `n` ticks; with `n <= 0` it never
      wakes up. */
  lemma {:induction false} SleepsOn(k: Kernel, es: seq<Event>, t: nat, n: int)
    requires Inv(k) && Runs(k, es) && SleepsFor(k, t, n) && (n <= 0 || Ticks(es) < n)
    ensures SleepsFor(After(k, es), t, n - Ticks(es))
    decreases |es|
  {
    if es != [] {
      StepKeeps(k, es[0]);
      StepSleeps(k, es[0], t, n);
      SleepsOn(Step(k, es[0]), es[1..], t, if es[0] == Tick then n - 1 else n);
    }
  }

  /** The `n`-th tick makes it ready where it stands in the list, and the same tick calls schedule. */
  lemma WakesOnLastTick(k: Kernel, t: nat, p: nat)
    requires Inv(k) && SleepsFor(k, t, 1) && p < |k.list| && k.list[p] == t
    ensures Step(k, Tick).running == t || (p > 0 && ReadyAt(Step(k, Tick), t, p - 1))
  {
    PreparedLeaves(k, Tick);
    PreparedOther(k, Tick, t);
    ScheduleAdvances(Prepared(k, Tick), t, p);
  }

  lemma {:induction false} RunsOn(k: Kernel, es: seq<Event>, fs: seq<Event>)
    requires Inv(k) && Runs(k, es + fs)
    ensures Runs(k, es) && Runs(After(k, es), fs) && After(After(k, es), fs) == After(k, es + fs)
    decreases |es|
  {
    if es == [] {
      assert es + fs == fs;
    } else {
      assert (es + fs)[1..] == es[1..] + fs;
      StepKeeps(k, es[0]);
      RunsOn(Step(k, es[0]), es[1..], fs);
    }
  }

  lemma LastTickRuns(w: Kernel, rest: seq<Event>, t: nat)
    requires Inv(w) && Runs(w, [Tick] + rest) && SleepsFor(w, t, 1) && ScheduleCount(w, [Tick] + rest) >= |w.list|
    ensures GetsProcessor(w, [Tick] + rest, t)
  {
    var p :| 0 <= p < |w.list| && w.list[p] == t;
    WakesOnLastTick(w, t, p);
    StepKeeps(w, Tick);
    assert ([Tick] + rest)[1..] == rest;
    if Step(w, Tick).running != t {
      BoundedWaiting(Step(w, Tick), rest, t, p - 1);
    }
  }

  /** After its last tick a sleeper gets the processor within as many calls of schedule as there are tasks in the list,
      the tick's own call included: never more than NUM_PCB. */
  lemma SleeperRuns(k: Kernel, before: seq<Event>, rest: seq<Event>, t: nat, n: int)
    requires Inv(k) && Runs(k, before + ([Tick] + rest)) && SleepsFor(k, t, n) && n >= 1 && Ticks(before) == n - 1
    ensures Runs(k, before) && Runs(After(k, before), [Tick] + rest)
    ensures |After(k, before).list| <= NUM_PCB
    ensures ScheduleCount(After(k, before), [Tick] + rest) >= |After(k, before).list| ==>
            GetsProcessor(After(k, before), [Tick] + rest, t)
  {
    RunsOn(k, before, [Tick] + rest);
    SleepsOn(k, before, t, n);
    ListFits(After(k, before).list, NUM_PCB);
    if ScheduleCount(After(k, before), [Tick] + rest) >= |After(k, before).list| {
      LastTickRuns(After(k, before), rest, t);
    }
  }

  // ----- waiting for children

  /** No reachable state has a task waiting for children while one of its children is a zombie; Init alone may have
      such a child, and then the child's parent pointer is not Init. */
  lemma NoLostWakeUp(k: Kernel, es: seq<Event>, p: nat, z: nat)
    requires Inv(k) && Runs(k, es) && p < NUM_PCB && z < NUM_PCB
    requires After(k, es).tasks[p].state == Suspended && After(k, es).tasks[z].state == Zombie
    ensures p != INIT ==> After(k, es).tasks[z].ppid != p
    ensures After(k, es).tasks[z].parent == Some(p) ==> After(k, es).tasks[z].ppid != p
  {
  }

  /** The exit that wakes a waiting task leaves it a zombie child to find if and only if the exiting task's parent
      number is still that task's: a re-parented task wakes the task its parent pointer names in vain. */
  lemma WakeUpFindsChildIff(k: Kernel, p: nat)
    requires Inv(k) && k.running != IDLE && k.tasks[k.running].parent == Some(p) && InState(k.tasks, p, Suspended)
    ensures InState(Dying(k).tasks, p, Ready)
    ensures FirstChild(Dying(k).tasks, p) < NUM_PCB <==> k.tasks[k.running].ppid == p
  {
    DyingEffect(k);
    var k' := Dying(k);
    assert Placed(k, k.running) && Placed(k, p);
    assert DiedAt(k, k', p) && DiedAt(k, k', k.running);
    forall z | 0 <= z < NUM_PCB && z != k.running
      ensures !ZombieOf(k'.tasks[z], p)
    {
      assert DiedAt(k, k', z);
    }
  }

  /** A task whose forking process is gone: its parent number is Init's, its parent pointer still names the block, and
      the task there now waits for a child of its own. */
  function Abandoned(): Kernel {
    Kernel(seq(NUM_PCB, i requires 0 <= i < NUM_PCB =>
             if i == 0 then Task(0, -1, None, 0, Suspended)
             else if i == 1 then Task(1, -1, None, 0, Ready)
             else if i == 2 then Task(2, -1, None, 0, Suspended)
             else if i == 3 then Task(3, 0, Some(2), 0, Running)
             else Task(i, -1, None, 0, Ready)),
           [0, 2, 1], seq(NUM_PCB - 4, i => i + 4), 3)
  }

  lemma AbandonedKeeps()
    ensures Inv(Abandoned())
  {
    var k := Abandoned();
    forall t | 0 <= t < NUM_PCB
      ensures Placed(k, t)
    {
      assert t >= 4 ==> k.free[t - 4] == t;
    }
    assert k.list[0] == 0 && k.list[2] == 1;
  }

  /** When that task exits, it wakes the waiting one, which finds no child and has to wait again. */
  lemma WakesInVain()
    ensures var k := Abandoned();
            && Inv(k) && Enabled(k, Exit) && InState(k.tasks, 2, Suspended)
            && InState(Dying(k).tasks, 2, Ready) && FirstChild(Dying(k).tasks, 2) == NUM_PCB
  {
    AbandonedKeeps();
    WakeUpFindsChildIff(Abandoned(), 2);
  }

  /** The exit hands a child over to Init if and only if the child is not ready, nor made so by this very exit, which
      happens when it waits in the block that the exiting task takes for its parent's. Any other child keeps the number
      of the dead process. */
  lemma HandedOverIff(k: Kernel, t: nat)
    requires Inv(k) && k.running != IDLE && t < NUM_PCB && t != k.running && k.tasks[t].ppid == k.tasks[k.running].pid
    ensures Dying(k).tasks[t].ppid
            == if k.tasks[t].state == Ready || (k.tasks[t].state == Suspended && k.tasks[k.running].parent == Some(t))
               then k.tasks[k.running].pid else INIT
  {
    DyingEffect(k);
    assert DiedAt(k, Dying(k), t) && Placed(k, k.running) && Placed(k, INIT);
  }

  // ----- whose child is reaped

  /** The kernel with the history that it does not keep: when the process in each block was forked, and when the process
      that forked it had been. No two forks happen at the same time, so the time tells which process it was. */
  datatype Aged = Aged(k: Kernel, clock: nat, born: seq<nat>, forker: seq<nat>)

  function AgedStep(a: Aged, e: Event): Aged
    requires Ids(a.k) && Enabled(a.k, e) && |a.born| == |a.forker| == NUM_PCB
  {
    if e == Fork then
      var c := a.k.free[0];
      Aged(Step(a.k, e), a.clock + 1, a.born[c := a.clock], a.forker[c := a.born[a.k.running]])
    else
      Aged(Step(a.k, e), a.clock + 1, a.born, a.forker)
  }

  /** A process was forked by the one that is in its parent's block now, if and only if that one was there first. */
  ghost predicate Dated(a: Aged) {
    && |a.born| == |a.forker| == |a.k.tasks| == NUM_PCB
    && (forall t :: 0 <= t < NUM_PCB ==> a.born[t] < a.clock && a.forker[t] < a.clock)
    && forall t :: 0 <= t < NUM_PCB ==> DatedAt(a, t)
  }

  ghost predicate DatedAt(a: Aged, t: nat)
    requires |a.born| == |a.forker| == |a.k.tasks| == NUM_PCB && t < NUM_PCB
  {
    var p := a.k.tasks[t].parent;
    p.Some? && p.value < NUM_PCB ==> (a.forker[t] == a.born[p.value] <==> a.born[p.value] < a.born[t])
  }

  /** Only fork sets a parent pointer. */
  lemma ParentsStay(k: Kernel, e: Event, t: nat)
    requires Inv(k) && Enabled(k, e) && t < NUM_PCB && (e == Fork ==> k.free != [] && t != k.free[0])
    ensures Step(k, e).tasks[t].parent == None || Step(k, e).tasks[t].parent == k.tasks[t].parent
  {
    if Switches(k, e) {
      PreparedLeaves(k, e);
      PreparedParent(k, e, t);
      ScheduledParent(Prepared(k, e), t);
    } else if e == Fork {
      ForkKeeps(k);
    } else if e == Rescan {
      ScannedParent(k, t);
    }
  }

  lemma ScheduledParent(k: Kernel, t: nat)
    requires Leaving(k) && t < NUM_PCB
    ensures Schedule(k).tasks[t].parent == k.tasks[t].parent
  {
    ScheduleSwitches(k);
  }

  lemma ScannedParent(k: Kernel, t: nat)
    requires k.running < |k.tasks| && t < |k.tasks|
    ensures ScanStep(k).tasks[t].parent == None || ScanStep(k).tasks[t].parent == k.tasks[t].parent
  {
  }

  lemma PreparedParent(k: Kernel, e: Event, t: nat)
    requires Inv(k) && Enabled(k, e) && Switches(k, e) && t < NUM_PCB
    ensures Prepared(k, e).tasks[t].parent == k.tasks[t].parent
  {
    if e == Exit {
      DyingEffect(k);
      assert DiedAt(k, Dying(k), t);
    }
  }

  lemma StepDated(a: Aged, e: Event)
    requires Inv(a.k) && Enabled(a.k, e) && Dated(a)
    ensures Dated(AgedStep(a, e))
  {
    var b := AgedStep(a, e);
    if e == Fork {
      ForkKeeps(a.k);
    }
    forall t | 0 <= t < NUM_PCB
      ensures DatedAt(b, t)
    {
      assert DatedAt(a, t);
      if e != Fork || t != a.k.free[0] {
        ParentsStay(a.k, e, t);
      }
    }
  }

  ghost function AgedAfter(a: Aged, es: seq<Event>): (b: Aged)
    requires Inv(a.k) && Runs(a.k, es) && |a.born| == |a.forker| == NUM_PCB
    ensures b.k == After(a.k, es) && |b.born| == |b.forker| == NUM_PCB
    decreases |es|
  {
    if es == [] then a else
      StepKeeps(a.k, es[0]);
      AgedAfter(AgedStep(a, es[0]), es[1..])
  }

  lemma {:induction false} RunDated(a: Aged, es: seq<Event>)
    requires Inv(a.k) && Runs(a.k, es) && Dated(a)
    ensures Dated(AgedAfter(a, es))
    decreases |es|
  {
    if es != [] {
      StepKeeps(a.k, es[0]);
      StepDated(a, es[0]);
      RunDated(AgedStep(a, es[0]), es[1..]);
    }
  }

  /** A state in which every parent's block precedes its children's, as after the start, can be dated. */
  lemma StartDated(k: Kernel)
    requires |k.tasks| == NUM_PCB && forall t :: 0 <= t < NUM_PCB && k.tasks[t].parent.Some? ==>
             k.tasks[t].parent.value < t
    ensures Dated(Aged(k, NUM_PCB, seq(NUM_PCB, i => i),
                       seq(NUM_PCB, i requires 0 <= i < NUM_PCB => if k.tasks[i].parent.Some?
                           then k.tasks[i].parent.value else 0)))
  {
  }

  /** The zombie that the running task finds names its block, and over every run it is a child that this task forked if
      and only if the task is older than it is. A younger task in the block of the one that forked the child reaps it as
      its own. */
  lemma OwnChildIff(a: Aged, es: seq<Event>)
    requires Inv(a.k) && Runs(a.k, es) && Dated(a)
    requires var k := After(a.k, es); k.running != IDLE && FirstChild(k.tasks, k.tasks[k.running].pid) < NUM_PCB
    ensures var b := AgedAfter(a, es);
            var r, z := b.k.running, FirstChild(b.k.tasks, b.k.tasks[b.k.running].pid);
            && z < NUM_PCB && r < NUM_PCB && b.k.tasks[z].parent == Some(r)
            && (b.forker[z] == b.born[r] <==> b.born[r] < b.born[z])
  {
    RunDated(a, es);
    var b := AgedAfter(a, es);
    var z := FirstChild(b.k.tasks, b.k.tasks[b.k.running].pid);
    assert Placed(b.k, b.k.running) && DatedAt(b, z);
  }

  /** How that comes about: fork reuses a block whose number some process still carries, and the new process passes for
      the parent of a child that it did not fork. */
  lemma ReusedBlockAdopts(a: Aged, t: nat)
    requires Inv(a.k) && Dated(a) && Enabled(a.k, Fork) && t < NUM_PCB && t != a.k.free[0]
    requires a.k.tasks[t].ppid == a.k.free[0] && a.k.tasks[t].parent == Some(a.k.free[0])
    ensures var b, c := AgedStep(a, Fork), a.k.free[0];
            && c < NUM_PCB && b.k.tasks[t].ppid == b.k.tasks[c].pid == c && b.forker[t] != b.born[c]
  {
    ForkKeeps(a.k);
  }

  /** A zombie whose parent number is Init's, or none, stays a zombie in every run: its block is never reused. */
  lemma {:induction false} OrphanStays(k: Kernel, es: seq<Event>, z: nat)
    requires Inv(k) && Runs(k, es) && z < NUM_PCB && k.tasks[z].state == Zombie
             && (k.tasks[z].ppid == INIT || k.tasks[z].ppid == -1)
    ensures After(k, es).tasks[z] == k.tasks[z]
    decreases |es|
  {
    if es != [] {
      StepKeeps(k, es[0]);
      OrphanStep(k, es[0], z);
      OrphanStays(Step(k, es[0]), es[1..], z);
    }
  }

  lemma ScheduleKeepsZombie(k: Kernel, z: nat)
    requires Leaving(k) && z < NUM_PCB && k.tasks[z].state == Zombie && z != k.running
    ensures Schedule(k).tasks[z] == k.tasks[z]
  {
    ScheduleSwitches(k);
    assert Placed(k, z) && Placed(k, IDLE);
  }

  lemma OrphanStep(k: Kernel, e: Event, z: nat)
    requires Inv(k) && Enabled(k, e) && z < NUM_PCB && k.tasks[z].state == Zombie
             && (k.tasks[z].ppid == INIT || k.tasks[z].ppid == -1)
    ensures Step(k, e).tasks[z] == k.tasks[z]
  {
    assert Placed(k, z);
    if Switches(k, e) {
      PreparedLeaves(k, e);
      PreparedOther(k, e, z);
      ScheduleKeepsZombie(Prepared(k, e), z);
    } else if e == Fork {
      assert k.free[0] in k.free && Placed(k, k.free[0]);
    } else {
      assert Placed(k, k.running) && Placed(k, INIT);
    }
  }
}
