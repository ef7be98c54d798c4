/** The scheduler and the life cycle of processes (sys/proc_mngr.c, schedule and sys_exit in sys/process.c, sys/pit.c):
    what each step does to the process control blocks, the task list and the free list, and what every step keeps. */
module Scheduler {
  import opened Lists

  const NUM_PCB: nat := 1000
  const INIT: nat := 0
  const IDLE: nat := 1

  datatype State = Running | Ready | Sleeping | Waiting | Zombie | Suspended

  datatype Task = Task(pid: int, ppid: int, parent: Option<nat>, sleep: int, state: State)

  /** `tasks[i]` is the control block with index `i`; `list` is the task list, `free` the list of unused blocks. */
  datatype Kernel = Kernel(tasks: seq<Task>, list: seq<nat>, free: seq<nat>, running: nat)

  datatype Event =
    | Fork | Yield | Sleep(seconds: int) | Block | Exit | Wait | Rescan
    | Tick
    | Key

  // ----- the steps

  function SetState(tasks: seq<Task>, t: nat, s: State): (r: seq<Task>)
    ensures |r| == |tasks|
  {
    if t < |tasks| then tasks[t := tasks[t].(state := s)] else tasks
  }

  predicate InState(tasks: seq<Task>, t: nat, s: State) {
    t < |tasks| && tasks[t].state == s
  }

  /** The first position of the list whose task is in state `s`; its length when there is none. */
  function FirstIn(tasks: seq<Task>, list: seq<nat>, s: State): (i: nat)
    ensures i <= |list| && (i < |list| ==> InState(tasks, list[i], s))
    ensures forall j :: 0 <= j < i ==> !InState(tasks, list[j], s)
  {
    if list == [] || InState(tasks, list[0], s) then 0
    else
      var i := FirstIn(tasks, list[1..], s);
      assert forall j :: 0 < j < i + 1 ==> list[j] == list[1..][j - 1];
      i + 1
  }

  function Last(list: seq<nat>): Option<nat> {
    if list == [] then None else Some(list[|list| - 1])
  }

  /** add_to_task_list: a running task becomes ready, a zombie stays out, and appending the task that already is the
      last one changes nothing. */
  function Enlist(k: Kernel, t: nat): Kernel {
    var k1 := if InState(k.tasks, t, Running) then k.(tasks := SetState(k.tasks, t, Ready)) else k;
    if InState(k1.tasks, t, Zombie) || Last(k1.list) == Some(t) then k1 else k1.(list := k1.list + [t])
  }

  /** fetch_ready_task: what it leaves of the list, and the task it returns. */
  function Fetch(k: Kernel): (Kernel, nat) {
    var i := FirstIn(k.tasks, k.list, Ready);
    if i == |k.list| then (k, IDLE)
    else (k.(tasks := SetState(k.tasks, k.list[i], Running), list := Without(k.list, i)), k.list[i])
  }

  function Schedule(k: Kernel): Kernel {
    var (k1, next) := Fetch(k);
    Enlist(k1, k.running).(running := next)
  }

  function ForkStep(k: Kernel): Kernel
    requires k.running < |k.tasks| && k.free != [] && k.free[0] < |k.tasks|
  {
    var c := k.free[0];
    var child := Task(c, k.tasks[k.running].pid, Some(k.running), k.tasks[c].sleep, Ready);
    Enlist(k.(tasks := k.tasks[c := child], free := k.free[1..]), c)
  }

  /** The exiting task's parent stops waiting. */
  function WakeParent(tasks: seq<Task>, t: nat): (r: seq<Task>)
    requires t < |tasks|
    ensures |r| == |tasks|
  {
    match tasks[t].parent
    case None => tasks
    case Some(p) => if InState(tasks, p, Suspended) then SetState(tasks, p, Ready) else tasks
  }

  /** The children of `pid` that are not ready get Init as their parent's number; their parent pointer stays. */
  function Reparent(tasks: seq<Task>, pid: int): (r: seq<Task>)
    requires INIT < |tasks|
    ensures |r| == |tasks|
  {
    seq(|tasks|, i requires 0 <= i < |tasks| =>
      if tasks[i].ppid == pid && tasks[i].state != Ready then tasks[i].(ppid := tasks[INIT].pid) else tasks[i])
  }

  function Dying(k: Kernel): (k': Kernel)
    requires k.running < |k.tasks| && INIT < |k.tasks|
  {
    var tasks := SetState(k.tasks, k.running, Zombie);
    k.(tasks := Reparent(WakeParent(tasks, k.running), tasks[k.running].pid))
  }

  predicate ZombieOf(t: Task, pid: int) {
    t.state == Zombie && t.ppid == pid
  }

  /** The first zombie child in the array; its length when there is none. */
  function FirstChild(tasks: seq<Task>, pid: int): (i: nat)
    ensures i <= |tasks| && (i < |tasks| ==> ZombieOf(tasks[i], pid))
    ensures forall j :: 0 <= j < i ==> !ZombieOf(tasks[j], pid)
  {
    if tasks == [] || ZombieOf(tasks[0], pid) then 0
    else
      var i := FirstChild(tasks[1..], pid);
      assert forall j :: 0 < j < i + 1 ==> tasks[j] == tasks[1..][j - 1];
      i + 1
  }

  /** clear_pcb and append_in_free_list. */
  function Reaped(k: Kernel, z: nat): Kernel
    requires z < |k.tasks|
  {
    k.(tasks := k.tasks[z := Task(k.tasks[z].pid, -1, None, 0, Ready)], free := k.free + [z])
  }

  /** One scan of wait_for_child. */
  function ScanStep(k: Kernel): Kernel
    requires k.running < |k.tasks|
  {
    var z := FirstChild(k.tasks, k.tasks[k.running].pid);
    if z < |k.tasks| then Reaped(k, z) else k
  }

  /** One second less to sleep. */
  function Elapse(t: Task): Task {
    if t.state != Sleeping then t
    else if t.sleep - 1 == 0 then t.(sleep := 0, state := Ready)
    else t.(sleep := t.sleep - 1)
  }

  function Countdown(tasks: seq<Task>, list: seq<nat>): (r: seq<Task>)
    ensures |r| == |tasks|
  {
    seq(|tasks|, i requires 0 <= i < |tasks| => if i in list then Elapse(tasks[i]) else tasks[i])
  }

  /** wake_up_task: the first task that waits for input. */
  function WakeFirst(k: Kernel): Kernel {
    var i := FirstIn(k.tasks, k.list, Waiting);
    if i < |k.list| then k.(tasks := SetState(k.tasks, k.list[i], Ready)) else k
  }

  /** Idle only gives way; Fork takes a control block for granted, as the program does. */
  predicate Enabled(k: Kernel, e: Event) {
    match e
    case Yield | Tick | Key => true
    case Fork => k.running != IDLE && k.free != []
    case _ => k.running != IDLE
  }

  /** Whether the step ends in a call of schedule. */
  predicate Switches(k: Kernel, e: Event)
    requires k.running < |k.tasks|
  {
    match e
    case Fork | Rescan | Key => false
    case Wait => FirstChild(k.tasks, k.tasks[k.running].pid) == |k.tasks|
    case _ => true
  }

  /** What such a step does before the call. */
  function Prepared(k: Kernel, e: Event): Kernel
    requires k.running < |k.tasks| && INIT < |k.tasks|
  {
    match e
    case Sleep(n) => k.(tasks := k.tasks[k.running := k.tasks[k.running].(state := Sleeping, sleep := n)])
    case Block => k.(tasks := SetState(k.tasks, k.running, Waiting))
    case Wait => k.(tasks := SetState(k.tasks, k.running, Suspended))
    case Exit => Dying(k)
    case Tick => k.(tasks := Countdown(k.tasks, k.list))
    case _ => k
  }

  /** Every kernel step. When Wait gives up the processor the task goes on with Rescan once it runs again. */
  function Step(k: Kernel, e: Event): (k': Kernel)
    requires Ids(k) && Enabled(k, e)
    ensures |k'.tasks| == |k.tasks|
  {
    if Switches(k, e) then Schedule(Prepared(k, e))
    else if e == Fork then ForkStep(k)
    else if e == Key then WakeFirst(k)
    else ScanStep(k)
  }

  // ----- what holds between the steps

  ghost predicate Ids(k: Kernel) {
    && |k.tasks| == NUM_PCB && k.running < NUM_PCB
    && (forall i :: 0 <= i < |k.list| ==> k.list[i] < NUM_PCB)
    && (forall i :: 0 <= i < |k.free| ==> k.free[i] < NUM_PCB)
  }

  /** Block `t` is in exactly one place: on the free list, on the task list, running, or an unreaped zombie. Idle alone
      may be running and on the list. */
  ghost predicate Placed(k: Kernel, t: nat)
    requires t < |k.tasks|
  {
    var s := k.tasks[t].state;
    && (t in k.free ==> t !in k.list && t != k.running && (s == Running || s == Ready))
    && (t in k.list ==> s != Running && s != Zombie)
    && (t in k.list && t == k.running ==> t == IDLE)
    && (t !in k.free && t !in k.list && t != k.running ==> s == Zombie)
    && (t !in k.free ==> k.tasks[t].pid == t)
  }

  /** Between two steps the running task is Running; Idle runs only when it is off the list, or is its last task. */
  ghost predicate CurrentOk(k: Kernel)
    requires k.running < |k.tasks| && IDLE < |k.tasks|
  {
    if k.running != IDLE then k.tasks[k.running].state == Running && IDLE in k.list && k.tasks[IDLE].state == Ready
    else if IDLE in k.list then k.tasks[IDLE].state == Ready && Last(k.list) == Some(IDLE)
    else k.tasks[IDLE].state == Running
  }

  /** The moment before schedule: the running task may have left the state Running. */
  ghost predicate LeavingOk(k: Kernel)
    requires k.running < |k.tasks| && IDLE < |k.tasks|
  {
    if k.running != IDLE then k.tasks[k.running].state != Ready && IDLE in k.list && k.tasks[IDLE].state == Ready
    else CurrentOk(k)
  }

  /** Init waits for children for good, and is nobody's parent. */
  ghost predicate Anchored(k: Kernel)
    requires INIT < |k.tasks|
  {
    && INIT in k.list && k.tasks[INIT].state == Suspended && INIT != k.running
    && forall t :: 0 <= t < |k.tasks| ==>
        k.tasks[t].parent != Some(INIT) && (k.tasks[t].parent.Some? ==> k.tasks[t].parent.value < |k.tasks|)
  }

  /** A task's parent number names the task its parent pointer points to, unless it is Init's or none. */
  ghost predicate Related(k: Kernel) {
    forall t :: 0 <= t < |k.tasks| ==> k.tasks[t].ppid == -1 || k.tasks[t].ppid == INIT || HasParent(k.tasks[t])
  }

  predicate HasParent(t: Task) {
    t.parent.Some? && t.ppid == t.parent.value
  }

  /** No zombie is a child of a task that waits for children. */
  ghost predicate NobodyMissed(k: Kernel) {
    forall p, z :: 0 <= p < |k.tasks| && 0 <= z < |k.tasks| && p != INIT && k.tasks[p].state == Suspended
           && k.tasks[z].state == Zombie
      ==> k.tasks[z].ppid != p
  }

  ghost predicate Common(k: Kernel) {
    && Ids(k) && Distinct(k.list) && Distinct(k.free)
    && (forall t :: 0 <= t < |k.tasks| ==> Placed(k, t))
    && Anchored(k) && Related(k) && NobodyMissed(k)
  }

  ghost predicate Inv(k: Kernel) {
    Common(k) && CurrentOk(k)
  }

  ghost predicate Leaving(k: Kernel) {
    Common(k) && LeavingOk(k)
  }

  // ----- schedule keeps the invariant

  /** The first ready task runs; the one that ran goes to the end of the list, unless it is a zombie or Idle and there
      already. */
  ghost predicate Switched(k: Kernel, k': Kernel) {
    var x, r := k'.running, k.running;
    && k'.free == k.free && |k'.tasks| == |k.tasks| && x < |k.tasks| && r < |k.tasks|
    && (forall t :: 0 <= t < |k.tasks| && t != x && t != r ==> k'.tasks[t] == k.tasks[t])
    && (x != r ==> k'.tasks[x] == k.tasks[x].(state := Running))
    && k'.tasks[r] == k.tasks[r].(state := if x == r || k.tasks[r].state == Running then Ready else k.tasks[r].state)
    && Distinct(k'.list)
    && (forall t: nat :: t in k'.list <==> (t in k.list && t != x) || (t == r && k.tasks[r].state != Zombie))
    && (x == r ==> Last(k'.list) == Some(r))
  }

  /** The task that schedule takes off the list is ready; Idle runs on when there is none. */
  ghost predicate Eligible(k: Kernel, x: nat) {
    if x in k.list then InState(k.tasks, x, Ready) else x == IDLE == k.running
  }

  /** The queue: the first ready task leaves it, and the task that ran goes behind all others. */
  ghost predicate Queued(k: Kernel, k': Kernel)
    requires k.running < |k.tasks|
  {
    var i := FirstIn(k.tasks, k.list, Ready);
    var rest := if i < |k.list| then Without(k.list, i) else k.list;
    && k'.running == (if i < |k.list| then k.list[i] else IDLE)
    && k'.list == (if k.tasks[k.running].state == Zombie || k.running in rest then rest else rest + [k.running])
    && (k.running in rest ==> k.running == IDLE && Last(rest) == Some(IDLE))
  }

  lemma ScheduleQueues(k: Kernel)
    requires Leaving(k)
    ensures Queued(k, Schedule(k))
  {
    var i := FirstIn(k.tasks, k.list, Ready);
    assert Placed(k, k.running);
    if i < |k.list| {
      assert k.list[i] in k.list && Placed(k, k.list[i]);
      WithoutMembers(k.list, i);
      TailRemains(k.list, i);
      assert Last(Without(k.list, i)) == Some(k.running) ==> k.running in Without(k.list, i);
    } else {
      IdleSwitches(k);
    }
  }

  lemma ScheduleSwitches(k: Kernel)
    requires Leaving(k)
    ensures Switched(k, Schedule(k)) && Eligible(k, Schedule(k).running) && Queued(k, Schedule(k))
  {
    ScheduleQueues(k);
    var i := FirstIn(k.tasks, k.list, Ready);
    if i < |k.list| {
      PickSwitches(k, i, k.list[i], k.(tasks := SetState(k.tasks, k.list[i], Running), list := Without(k.list, i)));
    } else {
      IdleSwitches(k);
    }
  }

  lemma IdleSwitches(k: Kernel)
    requires Leaving(k) && FirstIn(k.tasks, k.list, Ready) == |k.list|
    ensures Switched(k, Schedule(k)) && Schedule(k).running == k.running == IDLE && IDLE !in k.list
  {
    assert Schedule(k).list == k.list + [IDLE];
  }

  lemma PickSwitches(k: Kernel, i: nat, x: nat, k1: Kernel)
    requires Leaving(k) && i < |k.list| && k.list[i] == x && InState(k.tasks, x, Ready)
    requires k1 == k.(tasks := SetState(k.tasks, x, Running), list := Without(k.list, i))
    ensures Switched(k, Enlist(k1, k.running).(running := x)) && x in k.list
  {
    assert Placed(k, k.running) && Placed(k, x);
    WithoutMembers(k.list, i);
    TailRemains(k.list, i);
    EnlistMembers(k1, k.running);
  }

  /** The list has no duplicates after add_to_task_list, if the task was not on it or was its last. */
  lemma EnlistMembers(k: Kernel, t: nat)
    requires Distinct(k.list) && t < |k.tasks| && (t in k.list ==> Last(k.list) == Some(t))
    ensures Distinct(Enlist(k, t).list)
    ensures forall u: nat :: u in Enlist(k, t).list <==> u in k.list || (u == t && k.tasks[t].state != Zombie)
  {
    if Enlist(k, t).list != k.list {
      assert Enlist(k, t).list == k.list + [t];
      AppendedMembers(k.list, t);
    }
  }

  lemma TailRemains(list: seq<nat>, i: nat)
    requires Distinct(list) && i < |list|
    ensures Last(list) != Some(list[i]) ==> Last(Without(list, i)) == Last(list)
    ensures Last(Without(list, i)) != Some(list[i])
  {
    assert Without(list, i) != [] ==>
           Without(list, i)[|list| - 2] == (if i == |list| - 1 then list[|list| - 2] else list[|list| - 1]);
  }

  lemma SwitchedKeeps(k: Kernel, k': Kernel)
    requires Leaving(k) && Switched(k, k')
    requires Eligible(k, k'.running)
    ensures Inv(k')
  {
    assert Placed(k, k.running) && Placed(k, k'.running) && Placed(k, IDLE) && Placed(k, INIT);
    forall i | 0 <= i < |k'.list|
      ensures k'.list[i] < NUM_PCB
    {
      assert k'.list[i] in k'.list;
    }
    forall t | 0 <= t < |k'.tasks|
      ensures Placed(k', t)
    {
      assert Placed(k, t);
    }
  }

  lemma ScheduleKeeps(k: Kernel)
    requires Leaving(k)
    ensures Inv(Schedule(k))
  {
    ScheduleSwitches(k);
    SwitchedKeeps(k, Schedule(k));
  }

  // ----- every step keeps the invariant

  /** The running task leaves the state Running; everything else is as before. */
  lemma LeavesKeeps(k: Kernel, k': Kernel)
    requires Inv(k) && k.running != IDLE && k'.list == k.list && k'.free == k.free && k'.running == k.running
    requires |k'.tasks| == |k.tasks| && forall t :: 0 <= t < |k.tasks| && t != k.running ==> k'.tasks[t] == k.tasks[t]
    requires var a, b := k.tasks[k.running], k'.tasks[k.running];
             b == a.(state := b.state, sleep := b.sleep)
                 && (b.state == Sleeping || b.state == Waiting || b.state == Suspended)
    requires k'.tasks[k.running].state == Suspended ==> forall z :: 0 <= z < |k.tasks| ==>
             !ZombieOf(k.tasks[z], k.running)
    ensures Leaving(k')
  {
    forall t | 0 <= t < |k'.tasks|
      ensures Placed(k', t)
    {
      assert Placed(k, t);
    }
    assert Placed(k, k.running);
  }

  /** The first free block, which was nowhere else, becomes a ready child of the running task and stands last in the
      list. */
  ghost predicate Forked(k: Kernel, k': Kernel, c: nat) {
    && c in k.free && c !in k.list && c != k.running && c !in k'.free && k.running < |k.tasks|
    && k'.list == k.list + [c] && k'.free == k.free[1..] && k'.running == k.running && |k'.tasks| == |k.tasks|
    && (forall t :: 0 <= t < |k.tasks| && t != c ==> k'.tasks[t] == k.tasks[t])
    && c < |k'.tasks| && k'.tasks[c] == Task(c, k.running, Some(k.running), k.tasks[c].sleep, Ready)
  }

  lemma ForkKeeps(k: Kernel)
    requires Inv(k) && Enabled(k, Fork)
    ensures Forked(k, ForkStep(k), k.free[0]) && Inv(ForkStep(k))
  {
    ForkPlaces(k);
    ForkedKeeps(k, ForkStep(k), k.free[0]);
  }

  lemma ForkPlaces(k: Kernel)
    requires Inv(k) && Enabled(k, Fork)
    ensures Forked(k, ForkStep(k), k.free[0])
  {
    var c := k.free[0];
    assert c in k.free && Placed(k, c) && Placed(k, k.running);
    WithoutMembers(k.free, 0);
    assert Without(k.free, 0) == k.free[1..];
    assert Last(k.list) == Some(c) ==> c in k.list;
  }

  lemma ForkedKeeps(k: Kernel, k': Kernel, c: nat)
    requires Inv(k) && k.running != IDLE && k.free != [] && c == k.free[0] && Forked(k, k', c)
    ensures Inv(k')
  {
    assert Placed(k, c) && Placed(k, k.running) && Placed(k, IDLE) && Placed(k, INIT);
    assert k.running != INIT;
    WithoutMembers(k.free, 0);
    assert Without(k.free, 0) == k.free[1..];
    AppendedMembers(k.list, c);
    forall t | 0 <= t < |k'.tasks|
      ensures Placed(k', t)
    {
      assert Placed(k, t);
    }
  }

  /** Reaping moves a zombie, which was on no list, to the free list, and nothing else. */
  lemma ReapKeeps(k: Kernel, z: nat)
    requires Inv(k) && z < |k.tasks| && k.tasks[z].state == Zombie
    ensures z !in k.free && z !in k.list && z != k.running
    ensures forall t: nat :: t in Reaped(k, z).free <==> t in k.free || t == z
    ensures Inv(Reaped(k, z))
  {
    var k' := Reaped(k, z);
    assert Placed(k, z) && Placed(k, k.running);
    AppendedMembers(k.free, z);
    forall t | 0 <= t < |k'.tasks|
      ensures Placed(k', t)
    {
      assert Placed(k, t);
    }
  }

  lemma ScanKeeps(k: Kernel)
    requires Inv(k)
    ensures Inv(ScanStep(k))
  {
    var z := FirstChild(k.tasks, k.tasks[k.running].pid);
    if z < |k.tasks| {
      ReapKeeps(k, z);
    }
  }

  /** What the exit of the running task changes in the blocks. */
  ghost predicate Died(k: Kernel, k': Kernel)
    requires k.running < |k.tasks|
  {
    var r := k.running;
    && k'.list == k.list && k'.free == k.free && k'.running == r && |k'.tasks| == |k.tasks|
    && forall t :: 0 <= t < |k.tasks| ==> DiedAt(k, k', t)
  }

  ghost predicate DiedAt(k: Kernel, k': Kernel, t: nat)
    requires k.running < |k.tasks| == |k'.tasks| && t < |k.tasks|
  {
    var a, b := k.tasks[t], k'.tasks[t];
    var woken := k.tasks[k.running].parent == Some(t) && a.state == Suspended;
    && b.state == (if t == k.running then Zombie else if woken then Ready else a.state)
    && b.pid == a.pid && b.parent == a.parent && b.sleep == a.sleep
    && b.ppid == if a.ppid == k.running && b.state != Ready then INIT else a.ppid
  }

  lemma DyingEffect(k: Kernel)
    requires Inv(k) && k.running != IDLE
    ensures Died(k, Dying(k))
  {
    assert Placed(k, k.running) && Placed(k, INIT);
    var k' := Dying(k);
    forall t | 0 <= t < |k.tasks|
      ensures DiedAt(k, k', t)
    {
    }
  }

  lemma DiedKeeps(k: Kernel, k': Kernel)
    requires Inv(k) && k.running != IDLE && Died(k, k')
    ensures Leaving(k')
  {
    forall t | 0 <= t < |k'.tasks|
      ensures Placed(k', t) && (k'.tasks[t].ppid == -1 || k'.tasks[t].ppid == INIT || HasParent(k'.tasks[t]))
      ensures k'.tasks[t].parent != Some(INIT) && (k'.tasks[t].parent.Some? ==> k'.tasks[t].parent.value < |k.tasks|)
    {
      assert Placed(k, t) && DiedAt(k, k', t);
    }
    assert DiedAt(k, k', IDLE) && DiedAt(k, k', INIT) && DiedAt(k, k', k.running);
    forall p, z | 0 <= p < |k'.tasks| && 0 <= z < |k'.tasks| && p != INIT && k'.tasks[p].state == Suspended
           && k'.tasks[z].state == Zombie
      ensures k'.tasks[z].ppid != p
    {
      assert DiedAt(k, k', p) && DiedAt(k, k', z);
      assert k.tasks[z].ppid == -1 || k.tasks[z].ppid == INIT || HasParent(k.tasks[z]);
    }
  }

  /** Sleeping and waiting tasks may become ready at any time. */
  lemma WakingKeeps(k: Kernel, k': Kernel)
    requires Inv(k) && k'.list == k.list && k'.free == k.free && k'.running == k.running && |k'.tasks| == |k.tasks|
    requires forall t :: 0 <= t < |k.tasks| ==> k'.tasks[t] == k.tasks[t] || Woken(k.tasks[t], k'.tasks[t])
    ensures Inv(k')
  {
    forall t | 0 <= t < |k'.tasks|
      ensures Placed(k', t)
    {
      assert Placed(k, t);
    }
  }

  predicate Woken(a: Task, b: Task) {
    b == a.(state := b.state, sleep := b.sleep)
    && ((a.state == Sleeping && (b.state == Ready || b.state == Sleeping)) || (a.state == Waiting && b.state == Ready))
  }

  lemma PreparedLeaves(k: Kernel, e: Event)
    requires Inv(k) && Enabled(k, e) && Switches(k, e)
    ensures Leaving(Prepared(k, e))
  {
    assert Placed(k, k.running);
    match e
    case Yield =>
    case Sleep(n) => LeavesKeeps(k, Prepared(k, e));
    case Block => LeavesKeeps(k, Prepared(k, e));
    case Wait => LeavesKeeps(k, Prepared(k, e));
    case Exit =>
      DyingEffect(k);
      DiedKeeps(k, Dying(k));
    case Tick => WakingKeeps(k, Prepared(k, e));
  }

  /** Whatever step is taken, the invariant holds again. */
  lemma StepKeeps(k: Kernel, e: Event)
    requires Inv(k) && Enabled(k, e)
    ensures Inv(Step(k, e))
  {
    if Switches(k, e) {
      PreparedLeaves(k, e);
      ScheduleKeeps(Prepared(k, e));
    } else if e == Fork {
      ForkKeeps(k);
    } else if e == Key {
      WakingKeeps(k, WakeFirst(k));
    } else {
      ScanKeeps(k);
    }
  }

  /** What a step does, before schedule, to a task that is not the one taking it. */
  lemma PreparedOther(k: Kernel, e: Event, t: nat)
    requires Inv(k) && Enabled(k, e) && Switches(k, e) && t < NUM_PCB && (t != k.running || k.running == IDLE)
    ensures Prepared(k, e).list == k.list && Prepared(k, e).running == k.running
    ensures var a, b := k.tasks[t], Prepared(k, e).tasks[t];
            && (a.state == Ready || a.state == Zombie ==> b.state == a.state)
            && (a.state == Sleeping ==>
                (b.state, b.sleep) == var c := if e == Tick then Elapse(a) else a; (c.state, c.sleep))
            && (a.state == Zombie && (a.ppid == INIT || a.ppid == -1) ==> b == a)
  {
    assert Placed(k, t) && Placed(k, k.running) && Placed(k, INIT);
    if e == Exit {
      DyingEffect(k);
      assert DiedAt(k, Dying(k), t);
    }
  }
}
