/** What each step of the scheduler does to every control block and to the lists, without the functions that compute it
    (schedule and sys_exit in sys/process.c, wait_for_child and wake_up_task in sys/proc_mngr.c, sys/pit.c,
    sys/syscalls.c). */
module SchedulerSteps {
  import opened Lists
  import opened Scheduler
  import opened SchedulerRuns

  /** The kernel with the running task's block replaced. */
  function Own(k: Kernel, mine: Task): Kernel {
    if k.running < |k.tasks| then k.(tasks := k.tasks[k.running := mine]) else k
  }

  /** schedule was called in `k`: the first ready task was taken off the list and runs, the caller is its last task. */
  ghost predicate Handed(k: Kernel, k': Kernel) {
    k.running < |k.tasks| && Switched(k, k') && Eligible(k, k'.running) && Queued(k, k')
  }

  /** The caller waits at the end of the list, and somebody else runs. */
  ghost predicate Parked(k': Kernel, r: nat, mine: Task) {
    && r < |k'.tasks| && k'.tasks[r] == mine && r in k'.list && Last(k'.list) == Some(r) && k'.running != r
  }

  lemma ParkedBySchedule(k: Kernel, mine: Task)
    requires Leaving(Own(k, mine)) && k.running < |k.tasks| && k.running != IDLE
    requires mine.state == Sleeping || mine.state == Waiting || mine.state == Suspended
    ensures Handed(Own(k, mine), Schedule(Own(k, mine))) && Parked(Schedule(Own(k, mine)), k.running, mine)
  {
    var mid := Own(k, mine);
    ScheduleSwitches(mid);
    assert Placed(mid, mid.running);
  }

  /** Giving way changes no block but for the state of the two tasks. */
  lemma YieldStep(k: Kernel)
    requires Inv(k)
    ensures Handed(k, Step(k, Yield))
  {
    PreparedLeaves(k, Yield);
    ScheduleSwitches(k);
  }

  /** The sleep call sets the count to what was asked for and puts the caller to sleep. */
  lemma SleepStep(k: Kernel, n: int)
    requires Inv(k) && k.running != IDLE
    ensures var a := k.tasks[k.running];
            var mine := Task(a.pid, a.ppid, a.parent, n, Sleeping);
            && Handed(Own(k, mine), Step(k, Sleep(n))) && Parked(Step(k, Sleep(n)), k.running, mine)
            && SleepsFor(Step(k, Sleep(n)), k.running, n)
  {
    var a := k.tasks[k.running];
    PreparedLeaves(k, Sleep(n));
    ParkedBySchedule(k, Task(a.pid, a.ppid, a.parent, n, Sleeping));
  }

  /** Waiting for input. */
  lemma BlockStep(k: Kernel)
    requires Inv(k) && k.running != IDLE
    ensures var a := k.tasks[k.running];
            var mine := Task(a.pid, a.ppid, a.parent, a.sleep, Waiting);
            Handed(Own(k, mine), Step(k, Block)) && Parked(Step(k, Block), k.running, mine)
  {
    var a := k.tasks[k.running];
    PreparedLeaves(k, Block);
    ParkedBySchedule(k, Task(a.pid, a.ppid, a.parent, a.sleep, Waiting));
  }

  lemma ForkIs(k: Kernel)
    requires Inv(k) && Enabled(k, Fork)
    ensures Forked(k, Step(k, Fork), k.free[0])
  {
    ForkKeeps(k);
  }

  // ----- waiting for children

  /** Block `z` is the first zombie whose parent number is the caller's. */
  ghost predicate FirstZombieChild(k: Kernel, z: nat) {
    && k.running < |k.tasks| && z < |k.tasks|
    && k.tasks[z].state == Zombie && k.tasks[z].ppid == k.tasks[k.running].pid
    && forall j :: 0 <= j < z ==> !(k.tasks[j].state == Zombie && k.tasks[j].ppid == k.tasks[k.running].pid)
  }

  ghost predicate Childless(k: Kernel) {
    && k.running < |k.tasks|
    && forall j :: 0 <= j < |k.tasks| ==> !(k.tasks[j].state == Zombie && k.tasks[j].ppid == k.tasks[k.running].pid)
  }

  /** Block `z` was cleared and is the last of the free list; nothing else changed. */
  ghost predicate ReapedOnly(k: Kernel, k': Kernel, z: nat) {
    && |k'.tasks| == |k.tasks| && z < |k.tasks|
    && k'.free == k.free + [z] && k'.list == k.list && k'.running == k.running
    && k'.tasks[z] == Task(k.tasks[z].pid, -1, None, 0, Ready)
    && forall t :: 0 <= t < |k.tasks| && t != z ==> k'.tasks[t] == k.tasks[t]
  }

  lemma FirstChildIs(k: Kernel, z: nat)
    requires FirstZombieChild(k, z)
    ensures FirstChild(k.tasks, k.tasks[k.running].pid) == z
  {
    var i := FirstChild(k.tasks, k.tasks[k.running].pid);
    assert i > z ==> !ZombieOf(k.tasks[z], k.tasks[k.running].pid);
  }

  /** wait_for_child reaps the first zombie child there is, in its first scan as in its second. */
  lemma WaitReaps(k: Kernel, z: nat)
    requires Inv(k) && k.running != IDLE && FirstZombieChild(k, z)
    ensures ReapedOnly(k, Step(k, Wait), z) && ReapedOnly(k, Step(k, Rescan), z) && Step(k, Rescan) == ScanStep(k)
  {
    FirstChildIs(k, z);
  }

  lemma NoChild(k: Kernel)
    requires Childless(k)
    ensures FirstChild(k.tasks, k.tasks[k.running].pid) == |k.tasks|
  {
  }

  /** Without one the first scan suspends the caller. */
  lemma WaitSuspends(k: Kernel)
    requires Inv(k) && k.running != IDLE && Childless(k)
    ensures var a := k.tasks[k.running];
            var mine := Task(a.pid, a.ppid, a.parent, a.sleep, Suspended);
            Handed(Own(k, mine), Step(k, Wait)) && Parked(Step(k, Wait), k.running, mine)
  {
    var a := k.tasks[k.running];
    var mine := Task(a.pid, a.ppid, a.parent, a.sleep, Suspended);
    NoChild(k);
    PreparedLeaves(k, Wait);
    WaitPrepares(k, mine);
    ParkedBySchedule(k, mine);
  }

  lemma WaitPrepares(k: Kernel, mine: Task)
    requires Ids(k) && k.running != IDLE && FirstChild(k.tasks, k.tasks[k.running].pid) == |k.tasks|
    requires mine == k.tasks[k.running].(state := Suspended)
    ensures Prepared(k, Wait) == Own(k, mine) && Step(k, Wait) == Schedule(Own(k, mine))
  {
  }

  /** The second scan then changes nothing. */
  lemma RescanIdles(k: Kernel)
    requires Inv(k) && k.running != IDLE && Childless(k)
    ensures Step(k, Rescan) == k && ScanStep(k) == k
  {
    NoChild(k);
  }

  // ----- exit

  /** The exiting task is a zombie on no list; its parent and its children are as Died says; then schedule is called. */
  lemma ExitStep(k: Kernel) returns (mid: Kernel)
    requires Inv(k) && k.running != IDLE
    ensures Died(k, mid) && Handed(mid, Step(k, Exit))
    ensures Step(k, Exit).tasks[k.running].state == Zombie && k.running !in Step(k, Exit).list
    ensures Step(k, Exit).running != k.running
  {
    mid := Dying(k);
    DyingEffect(k);
    PreparedLeaves(k, Exit);
    ScheduleSwitches(mid);
    assert DiedAt(k, mid, k.running) && Placed(k, k.running);
  }

  // ----- interrupts

  /** What a second does to a block: of the tasks on the list the sleeping ones have one second less to sleep, and are
      ready when none is left. */
  ghost predicate TickedAt(k: Kernel, mid: Kernel, t: nat)
    requires t < |k.tasks| == |mid.tasks|
  {
    var a, b := k.tasks[t], mid.tasks[t];
    if t in k.list && a.state == Sleeping then
      b == Task(a.pid, a.ppid, a.parent, a.sleep - 1, if a.sleep == 1 then Ready else Sleeping)
    else
      b == a
  }

  lemma TickStep(k: Kernel) returns (mid: Kernel)
    requires Inv(k)
    ensures mid.list == k.list && mid.free == k.free && mid.running == k.running && |mid.tasks| == |k.tasks|
    ensures forall t :: 0 <= t < |k.tasks| ==> TickedAt(k, mid, t)
    ensures Handed(mid, Step(k, Tick))
  {
    mid := Prepared(k, Tick);
    SecondPasses(k);
    PreparedLeaves(k, Tick);
    ScheduleSwitches(mid);
  }

  lemma SecondPasses(k: Kernel)
    requires k.running < |k.tasks| && INIT < |k.tasks|
    ensures var mid := Prepared(k, Tick);
            && mid.list == k.list && mid.free == k.free && mid.running == k.running && |mid.tasks| == |k.tasks|
            && forall t :: 0 <= t < |k.tasks| ==> TickedAt(k, mid, t)
  {
  }

  /** A key wakes the first task of the list that waits for input, and changes nothing else. */
  lemma KeyWakes(k: Kernel, i: nat)
    requires Inv(k) && i < |k.list| && k.tasks[k.list[i]].state == Waiting
    requires forall j :: 0 <= j < i ==> k.tasks[k.list[j]].state != Waiting
    ensures var k', t := Step(k, Key), k.list[i];
            && k' == WakeFirst(k) && |k'.tasks| == |k.tasks|
            && k'.list == k.list && k'.free == k.free && k'.running == k.running
            && k'.tasks[t] == Task(k.tasks[t].pid, k.tasks[t].ppid, k.tasks[t].parent, k.tasks[t].sleep, Ready)
            && forall u :: 0 <= u < |k.tasks| && u != t ==> k'.tasks[u] == k.tasks[u]
  {
    FirstIs(k.tasks, k.list, Waiting, i);
  }

  lemma FirstIs(tasks: seq<Task>, list: seq<nat>, s: State, i: nat)
    requires i < |list| && InState(tasks, list[i], s) && forall j :: 0 <= j < i ==> !InState(tasks, list[j], s)
    ensures FirstIn(tasks, list, s) == i
  {
  }

  lemma KeyIdles(k: Kernel)
    requires Inv(k) && forall j :: 0 <= j < |k.list| ==> k.tasks[k.list[j]].state != Waiting
    ensures Step(k, Key) == k && WakeFirst(k) == k
  {
    assert FirstIn(k.tasks, k.list, Waiting) == |k.list|;
  }

  // ----- from the sleep call on

  /** A task that calls sleep(n) sleeps through every run with fewer than n ticks, and for good when n is not
      positive. */
  lemma SleepCallSleeps(k: Kernel, n: int, es: seq<Event>)
    requires Inv(k) && Runs(k, [Sleep(n)] + es) && (n <= 0 || Ticks(es) < n)
    ensures SleepsFor(After(k, [Sleep(n)] + es), k.running, n - Ticks(es))
  {
    assert ([Sleep(n)] + es)[1..] == es;
    StepKeeps(k, Sleep(n));
    SleepStep(k, n);
    SleepsOn(Step(k, Sleep(n)), es, k.running, n);
  }

  /** With the n-th tick after the call it is ready, and it runs within as many calls of schedule as the list then has
      tasks. */
  lemma SleepCallWakes(k: Kernel, n: int, before: seq<Event>, rest: seq<Event>)
    requires Inv(k) && n >= 1 && Ticks(before) == n - 1 && Runs(k, [Sleep(n)] + (before + ([Tick] + rest)))
    ensures Runs(k, [Sleep(n)] + before) && Runs(After(k, [Sleep(n)] + before), [Tick] + rest)
    ensures ScheduleCount(After(k, [Sleep(n)] + before), [Tick] + rest) >= |After(k, [Sleep(n)] + before).list| ==>
              GetsProcessor(After(k, [Sleep(n)] + before), [Tick] + rest, k.running)
  {
    var all := before + ([Tick] + rest);
    assert ([Sleep(n)] + all)[1..] == all && ([Sleep(n)] + before)[1..] == before;
    StepKeeps(k, Sleep(n));
    SleepStep(k, n);
    SleeperRuns(Step(k, Sleep(n)), before, rest, k.running, n);
  }
}
