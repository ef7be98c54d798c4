/** The process table of sys/proc_mngr.c and the steps of sys/process.c and sys/pit.c on it: control blocks chained by
    their `next` fields, changed in place. */
module ProcessTable {
  import opened Lists
  import opened Scheduler

  // ----- chains

  lemma ChainKept(next: seq<Option<nat>>, next': seq<Option<nat>>, xs: seq<nat>)
    requires Chained(next, xs) && |next'| == |next| && forall i :: 0 <= i < |next| && i in xs ==> next'[i] == next[i]
    ensures Chained(next', xs)
  {
    forall i | 0 <= i < |xs|
      ensures LinkedAt(next', xs, i)
    {
      assert LinkedAt(next, xs, i) && xs[i] in xs;
    }
  }

  lemma ChainAppend(next: seq<Option<nat>>, next': seq<Option<nat>>, xs: seq<nat>, t: nat)
    requires Chained(next, xs) && Distinct(xs) && t < |next| == |next'| && t !in xs && next'[t] == None
    requires xs != [] ==> xs[|xs| - 1] < |next| && next'[xs[|xs| - 1]] == Some(t)
    requires forall i :: 0 <= i < |next| && i != t && Last(xs) != Some(i) ==> next'[i] == next[i]
    ensures Chained(next', xs + [t])
  {
    forall i | 0 <= i < |xs| + 1
      ensures LinkedAt(next', xs + [t], i)
    {
      if i < |xs| {
        assert LinkedAt(next, xs, i);
      }
    }
  }

  lemma ChainCut(next: seq<Option<nat>>, next': seq<Option<nat>>, xs: seq<nat>, i: nat)
    requires Chained(next, xs) && Distinct(xs) && 0 < i < |xs| && |next'| == |next|
    requires xs[i - 1] < |next| && xs[i] < |next| && next'[xs[i - 1]] == next[xs[i]]
    requires forall j :: 0 <= j < |next| && j != xs[i - 1] && j != xs[i] ==> next'[j] == next[j]
    ensures Chained(next', Without(xs, i))
  {
    var ys := Without(xs, i);
    forall j | 0 <= j < |ys|
      ensures LinkedAt(next', ys, j)
    {
      assert LinkedAt(next, xs, if j < i then j else j + 1);
      assert LinkedAt(next, xs, i);
    }
  }

  lemma ChainBehead(next: seq<Option<nat>>, xs: seq<nat>)
    requires Chained(next, xs) && xs != []
    ensures Chained(next, Without(xs, 0)) && Without(xs, 0) == xs[1..]
    ensures xs[0] < |next| && next[xs[0]] == LinkAt(xs[1..], 0)
  {
    assert Without(xs, 0) == xs[1..];
    assert LinkedAt(next, xs, 0);
    forall j | 0 <= j < |xs| - 1
      ensures LinkedAt(next, xs[1..], j)
    {
      assert LinkedAt(next, xs, j + 1);
    }
  }

  // ----- when the linked form can take a step

  /** schedule leaves the list in order: it is not empty when the task that ran comes back, and that task is not free,
      and on the list at most as its last. */
  ghost predicate CanSwitch(k: Kernel) {
    var k1 := Fetch(k).0;
    k1.list != [] && k.running !in k.free && (k.running in k1.list ==> Last(k1.list) == Some(k.running))
  }

  /** Zombies are on no list, the running task is not free, and parent pointers point to blocks. */
  ghost predicate Sound(k: Kernel) {
    && Ids(k) && k.running !in k.free
    && (forall t :: 0 <= t < |k.tasks| && k.tasks[t].state == Zombie ==> t !in k.free && t !in k.list)
    && (forall t :: 0 <= t < |k.tasks| && k.tasks[t].parent.Some? ==> k.tasks[t].parent.value < |k.tasks|)
  }

  ghost predicate CanTake(k: Kernel, e: Event) {
    Sound(k) && Enabled(k, e) && (Switches(k, e) ==> CanSwitch(Prepared(k, e)))
  }

  /** Once the invariant holds every step can be taken, and keeps it. */
  lemma InvCanTake(k: Kernel, e: Event)
    requires Inv(k) && Enabled(k, e)
    ensures CanTake(k, e) && Inv(Step(k, e))
  {
    StepKeeps(k, e);
    assert Placed(k, k.running);
    forall t | 0 <= t < |k.tasks| && k.tasks[t].state == Zombie
      ensures t !in k.free && t !in k.list
    {
      assert Placed(k, t);
    }
    if Switches(k, e) {
      PreparedLeaves(k, e);
      FetchLeaves(Prepared(k, e));
    }
  }

  lemma Keeps(k: Kernel, e: Event)
    requires CanTake(k, e)
    ensures Inv(k) ==> Inv(Step(k, e))
  {
    if Inv(k) {
      StepKeeps(k, e);
    }
  }

  class Table {
    const pcb: array<Task>
    const next: array<Option<nat>>
    var overallTaskList: Option<nat>
    var freePcbHead: Option<nat>
    var runningTask: nat
    var timerCount: int
    ghost var list: seq<nat>
    ghost var free: seq<nat>

    ghost predicate Valid()
      reads this, pcb, next
    {
      && pcb.Length == NUM_PCB && next.Length == NUM_PCB && runningTask < NUM_PCB
      && overallTaskList == LinkAt(list, 0) && freePcbHead == LinkAt(free, 0)
      && Chained(next[..], list) && Chained(next[..], free) && Distinct(list) && Distinct(free)
      && (forall t: nat :: t in list ==> t < NUM_PCB && t !in free)
      && (forall t: nat :: t in free ==> t < NUM_PCB)
    }

    ghost function View(): Kernel
      reads this, pcb
    {
      Kernel(pcb[..], list, free, runningTask)
    }

    /** The walk to the end of a list. */
    method LastFrom(head: nat, ghost xs: seq<nat>) returns (temp: nat)
      requires Chained(next[..], xs) && xs != [] && head == xs[0]
      ensures temp == xs[|xs| - 1] && temp < next.Length
    {
      temp := head;
      ghost var i := 0;
      assert LinkedAt(next[..], xs, 0);
      while next[temp].Some?
        invariant i < |xs| && temp == xs[i] && temp < next.Length
        decreases |xs| - i
      {
        assert LinkedAt(next[..], xs, i);
        assert i + 1 < |xs| ==> LinkedAt(next[..], xs, i + 1);
        temp := next[temp].value;
        i := i + 1;
      }
      assert LinkedAt(next[..], xs, i);
    }

    /** add_to_task_list. On an empty list the task keeps its old link, so it must not have one. */
    method AddToTaskList(task: nat)
      requires Valid() && task < NUM_PCB && task !in free && (task !in list || Last(list) == Some(task))
      requires list == [] && pcb[task].state != Zombie ==> next[task] == None
      modifies pcb, next, this`overallTaskList, this`list
      ensures Valid() && View() == Enlist(old(View()), task)
    {
      if pcb[task].state == Running {
        pcb[task] := pcb[task].(state := Ready);
      }
      if pcb[task].state == Zombie {
        return;
      }
      ghost var before := next[..];
      if overallTaskList == None {
        overallTaskList := Some(task);
        ChainAppend(before, before, [], task);
        assert [] + [task] == [task];
        list := [task];
      } else {
        var temp := LastFrom(overallTaskList.value, list);
        assert temp in list && LinkedAt(before, list, |list| - 1);
        next[temp] := Some(task);
        next[task] := None;
        ChainKept(before, next[..], free);
        if task in list {
          assert next[..] == before;
        } else {
          ChainAppend(before, next[..], list, task);
          AppendedMembers(list, task);
          list := list + [task];
        }
      }
    }

    /** fetch_ready_task. The link of a task taken from the head is left as it was. */
    method FetchReadyTask() returns (task: nat)
      requires Valid()
      modifies pcb, next, this`overallTaskList, this`list
      ensures Valid() && (View(), task) == Fetch(old(View()))
    {
      ghost var before := next[..];
      ghost var i := 0;
      var nextTask := overallTaskList;
      var prev: Option<nat> := None;
      while nextTask.Some?
        invariant i <= |list| && nextTask == LinkAt(list, i) && prev == if i == 0 then None else Some(list[i - 1])
        invariant forall j :: 0 <= j < i ==> !InState(pcb[..], list[j], Ready)
        invariant next[..] == before && pcb[..] == old(pcb[..])
        decreases |list| - i
      {
        assert list[i] in list;
        if pcb[nextTask.value].state == Ready {
          break;
        }
        assert LinkedAt(before, list, i);
        prev := nextTask;
        nextTask := next[nextTask.value];
        i := i + 1;
      }
      assert FirstIn(pcb[..], list, Ready) == i;
      if nextTask == None {
        return IDLE;
      }
      task := nextTask.value;
      pcb[task] := pcb[task].(state := Running);
      TakeOff(prev, task, i);
    }

    /** The end of fetch_ready_task: the task at position `i` leaves the list. From the head it keeps its link. */
    method TakeOff(prev: Option<nat>, task: nat, ghost i: nat)
      requires Valid() && i < |list| && task == list[i] && task < NUM_PCB && prev == if i == 0 then None
               else Some(list[i - 1])
      modifies next, this`overallTaskList, this`list
      ensures Valid() && list == Without(old(list), i)
      ensures task < next.Length && next[task] == if i == 0 then old(next[..])[task] else None
    {
      ghost var before := next[..];
      assert list[i] in list;
      WithoutMembers(list, i);
      if prev == None {
        ChainBehead(before, list);
        overallTaskList := next[overallTaskList.value];
      } else {
        assert LinkedAt(before, list, i - 1) && LinkedAt(before, list, i);
        assert list[i - 1] in list;
        next[prev.value] := next[task];
        next[task] := None;
        ChainCut(before, next[..], list, i);
        ChainKept(before, next[..], free);
      }
      list := Without(list, i);
    }

    /** wake_up_task. */
    method WakeUpTask()
      requires Valid()
      modifies pcb
      ensures Valid() && View() == WakeFirst(old(View()))
    {
      ghost var i := 0;
      var task := overallTaskList;
      while task.Some?
        invariant i <= |list| && task == LinkAt(list, i)
        invariant forall j :: 0 <= j < i ==> !InState(pcb[..], list[j], Waiting)
        invariant pcb[..] == old(pcb[..])
        decreases |list| - i
      {
        assert list[i] in list;
        if pcb[task.value].state == Waiting {
          assert FirstIn(pcb[..], list, Waiting) == i;
          pcb[task.value] := pcb[task.value].(state := Ready);
          return;
        }
        assert LinkedAt(next[..], list, i);
        task := next[task.value];
        i := i + 1;
      }
      assert FirstIn(pcb[..], list, Waiting) == i;
    }

    /** fetch_free_pcb, as far as the control block goes. */
    method FetchFreePcb() returns (c: nat)
      requires Valid() && free != []
      modifies pcb, next, this`freePcbHead, this`free
      ensures Valid() && c == old(free[0]) && c < NUM_PCB && c !in free && next[c] == None
      ensures View()
              == old(View()).(tasks := old(pcb[..])[c := Task(c, -1, None, old(pcb[..])[c].sleep, Ready)],
                              free := old(free[1..]))
    {
      ghost var before := next[..];
      ChainBehead(before, free);
      WithoutMembers(free, 0);
      c := freePcbHead.value;
      assert c in free;
      freePcbHead := next[c];
      free := free[1..];
      next[c] := None;
      pcb[c] := Task(c, -1, None, pcb[c].sleep, Ready);
      ChainKept(before, next[..], free);
      ChainKept(before, next[..], list);
    }

    /** append_in_free_list. */
    method AppendInFreeList(task: nat)
      requires Valid() && task < NUM_PCB && task !in free && task !in list
      modifies next, this`freePcbHead, this`free
      ensures Valid() && View() == old(View()).(free := old(free) + [task])
    {
      ghost var before := next[..];
      if freePcbHead == None {
        freePcbHead := Some(task);
        next[task] := None;
        assert [] + [task] == [task];
      } else {
        var temp := LastFrom(freePcbHead.value, free);
        assert temp in free;
        next[temp] := Some(task);
        next[task] := None;
      }
      ChainAppend(before, next[..], free, task);
      ChainKept(before, next[..], list);
      AppendedMembers(free, task);
      free := free + [task];
    }

    /** clear_pcb, as far as the control block goes. */
    method ClearPcb(task: nat)
      requires Valid() && task < NUM_PCB && task !in free && task !in list
      modifies pcb, next
      ensures Valid()
              && View() == old(View()).(tasks := old(pcb[..])[task := Task(old(pcb[task].pid), -1, None, 0, Ready)])
    {
      ghost var before := next[..];
      next[task] := None;
      pcb[task] := Task(pcb[task].pid, -1, None, 0, Ready);
      ChainKept(before, next[..], list);
      ChainKept(before, next[..], free);
    }

    /** One scan of wait_for_child. */
    method ScanChildren() returns (child: Option<nat>)
      requires Valid() && Sound(View())
      modifies pcb, next, this`freePcbHead, this`free
      ensures Valid() && View() == ScanStep(old(View()))
      ensures child.Some? <==> old(FirstChild(pcb[..], pcb[runningTask].pid)) < NUM_PCB
      ensures child.Some? ==> child.value == old(FirstChild(pcb[..], pcb[runningTask].pid))
    {
      ghost var k := View();
      for i := 0 to NUM_PCB
        invariant forall j :: 0 <= j < i ==> !ZombieOf(pcb[j], pcb[runningTask].pid)
        invariant Valid() && View() == k
      {
        if pcb[i].state == Zombie && pcb[i].ppid == pcb[runningTask].pid {
          assert FirstChild(pcb[..], pcb[runningTask].pid) == i;
          assert k.tasks[i].state == Zombie;
          ClearPcb(i);
          AppendInFreeList(i);
          return Some(i);
        }
      }
      assert FirstChild(pcb[..], pcb[runningTask].pid) == NUM_PCB;
      child := None;
    }

    /** schedule, up to the switch of registers. */
    method SwitchTask()
      requires Valid() && CanSwitch(View())
      modifies pcb, next, this`overallTaskList, this`list, this`runningTask
      ensures Valid() && View() == Schedule(old(View()))
    {
      var last := runningTask;
      var task := FetchReadyTask();
      runningTask := task;
      AddToTaskList(last);
    }

    /** wait_for_child up to its second scan, which begins when the caller runs again and is another ScanChildren. */
    method WaitForChild() returns (child: Option<nat>)
      requires Valid() && CanTake(View(), Wait)
      modifies pcb, next, this`freePcbHead, this`free, this`overallTaskList, this`list, this`runningTask
      ensures Valid() && View() == Step(old(View()), Wait) && (old(Inv(View())) ==> Inv(View()))
      ensures var z := FirstChild(old(pcb[..]), old(pcb[runningTask].pid));
              child == if z < NUM_PCB then Some(z) else None
    {
      ghost var k := View();
      ghost var goal := WaitPrepared(k);
      Keeps(k, Wait);
      child := ScanChildren();
      if child == None {
        pcb[runningTask] := pcb[runningTask].(state := Suspended);
        assert View() == Prepared(k, Wait);
        SwitchTask();
      }
      assert View() == goal;
    }

    /** fork_process, as far as scheduling goes. */
    method ForkProcess() returns (pid: int)
      requires Valid() && CanTake(View(), Fork)
      modifies pcb, next, this`freePcbHead, this`free, this`overallTaskList, this`list
      ensures Valid() && View() == Step(old(View()), Fork) && (old(Inv(View())) ==> Inv(View())) && pid == old(free[0])
    {
      ghost var k := View();
      Keeps(k, Fork);
      var child := FetchFreePcb();
      assert child in k.free && child != runningTask;
      assert list != [] ==> list[|list| - 1] in list;
      pcb[child] := pcb[child].(parent := Some(runningTask));
      pcb[child] := pcb[child].(ppid := pcb[runningTask].pid);
      AddToTaskList(child);
      assert View().tasks == Step(k, Fork).tasks;
      pid := pcb[child].pid;
    }

    /** The sleep call, the wait for terminal input, and giving way. */
    method SleepCall(seconds: int)
      requires Valid() && CanTake(View(), Sleep(seconds))
      modifies pcb, next, this`overallTaskList, this`list, this`runningTask
      ensures Valid() && View() == Step(old(View()), Sleep(seconds)) && (old(Inv(View())) ==> Inv(View()))
    {
      ghost var k := View();
      Keeps(k, Sleep(seconds));
      pcb[runningTask] := pcb[runningTask].(sleep := seconds);
      pcb[runningTask] := pcb[runningTask].(state := Sleeping);
      assert View() == Prepared(k, Sleep(seconds));
      SwitchTask();
    }

    method WaitForInput()
      requires Valid() && CanTake(View(), Block)
      modifies pcb, next, this`overallTaskList, this`list, this`runningTask
      ensures Valid() && View() == Step(old(View()), Block) && (old(Inv(View())) ==> Inv(View()))
    {
      ghost var k := View();
      Keeps(k, Block);
      pcb[runningTask] := pcb[runningTask].(state := Waiting);
      assert View() == Prepared(k, Block);
      SwitchTask();
    }

    /** The loop of sys_exit over the children of the exiting task. */
    method ReparentChildren(target: nat)
      requires Valid() && target < NUM_PCB
      modifies pcb
      ensures pcb[..] == Reparent(old(pcb[..]), old(pcb[target].pid))
    {
      ghost var w := pcb[..];
      for i := 0 to NUM_PCB
        invariant forall j :: i <= j < NUM_PCB ==> pcb[j] == w[j]
        invariant forall j :: 0 <= j < i ==> pcb[j] == Reparent(w, w[target].pid)[j]
      {
        if pcb[i].ppid == pcb[target].pid && pcb[i].state != Ready {
          pcb[i] := pcb[i].(ppid := pcb[INIT].pid);
        }
      }
    }

    /** sys_exit of the running task. */
    method SysExit()
      requires Valid() && CanTake(View(), Exit)
      modifies pcb, next, this`overallTaskList, this`list, this`runningTask
      ensures Valid() && View() == Step(old(View()), Exit) && (old(Inv(View())) ==> Inv(View()))
    {
      ghost var k := View();
      Keeps(k, Exit);
      var target := runningTask;
      pcb[target] := pcb[target].(state := Zombie);
      var parent := pcb[target].parent;
      if parent.Some? {
        if pcb[parent.value].state == Suspended {
          pcb[parent.value] := pcb[parent.value].(state := Ready);
        }
      }
      ghost var w := pcb[..];
      assert w == WakeParent(SetState(k.tasks, target, Zombie), target);
      ReparentChildren(target);
      assert View() == Prepared(k, Exit);
      SwitchTask();
    }

    /** The loop of timer_int over the task list. */
    method CountDown()
      requires Valid()
      modifies pcb
      ensures Valid() && View() == Prepared(old(View()), Tick)
    {
      ghost var w := pcb[..];
      var p := overallTaskList;
      ghost var i := 0;
      while p.Some?
        invariant i <= |list| && p == LinkAt(list, i)
        invariant forall t :: 0 <= t < NUM_PCB ==> pcb[t] == if t in list[..i] then Elapse(w[t]) else w[t]
        decreases |list| - i
      {
        assert list[i] in list && list[i] !in list[..i];
        assert list[..i + 1] == list[..i] + [list[i]];
        if pcb[p.value].state == Sleeping {
          pcb[p.value] := pcb[p.value].(sleep := pcb[p.value].sleep - 1);
          if pcb[p.value].sleep == 0 {
            pcb[p.value] := pcb[p.value].(state := Ready);
          }
        }
        assert LinkedAt(next[..], list, i);
        p := next[p.value];
        i := i + 1;
      }
      assert list[..i] == list;
      assert pcb[..] == Countdown(w, list);
    }

    /** timer_int: every 19th interrupt is a second, at which the sleepers count down and schedule is called. */
    method TimerInt()
      requires Valid() && CanTake(View(), Tick) && 0 <= timerCount < 19
      modifies pcb, next, this`overallTaskList, this`list, this`runningTask, this`timerCount
      ensures Valid() && timerCount == if old(timerCount) == 18 then 0 else old(timerCount) + 1
      ensures old(Inv(View())) ==> Inv(View())
      ensures View() == if old(timerCount) == 18 then Step(old(View()), Tick) else old(View())
    {
      ghost var prepared, goal := TickPrepared(View());
      ghost var second := timerCount == 18;
      if timerCount == 18 {
        timerCount := -1;
        CountDown();
        assert View() == prepared;
      }
      timerCount := timerCount + 1;
      if timerCount == 0 {
        assert second;
        SwitchTask();
        assert View() == goal;
      }
    }

    // ----- the start

    /** The control blocks before anything ran: all zero, on no list. */
    constructor ()
      ensures Valid() && fresh(pcb) && fresh(next) && list == [] && free == [] && timerCount == 0
      ensures forall t :: 0 <= t < NUM_PCB ==> pcb[t] == Task(0, 0, None, 0, Running)
    {
      pcb := new Task[NUM_PCB](_ => Task(0, 0, None, 0, Running));
      next := new Option<nat>[NUM_PCB](_ => None);
      overallTaskList, freePcbHead, runningTask, timerCount := None, None, 0, 0;
      list, free := [], [];
    }

    /** create_pcb_list: the free list holds every block, in ascending order. */
    method CreatePcbList()
      requires Valid() && list == [] && free == []
      modifies next, this`freePcbHead, this`free
      ensures Valid() && free == seq(NUM_PCB, i => i)
    {
      var i := NUM_PCB - 1;
      while i >= 0
        invariant -1 <= i < NUM_PCB && |free| == NUM_PCB - 1 - i && forall j :: 0 <= j < |free| ==> free[j] == i + 1 + j
        invariant freePcbHead == LinkAt(free, 0) && Chained(next[..], free)
      {
        ghost var before := next[..];
        if freePcbHead == None {
          freePcbHead := Some(i);
          next[i] := None;
        } else {
          next[i] := freePcbHead;
          freePcbHead := Some(i);
        }
        Pushed(before, next[..], free, i);
        free := [i] + free;
        i := i - 1;
      }
    }

    /** create_init_process and create_idle_process: the next free block becomes a ready task at the end of the list. */
    method CreateKernelTask() returns (c: nat)
      requires Valid() && free != []
      modifies pcb, next, this`overallTaskList, this`freePcbHead, this`list, this`free
      ensures Valid() && c == old(free[0]) && c < NUM_PCB
      ensures View() == old(View()).(tasks := old(pcb[..])[c := Task(c, -1, None, old(pcb[..])[c].sleep, Ready)],
                                     free := old(free[1..]), list := old(list) + [c])
    {
      assert free[0] in free && free[0] !in list;
      assert list != [] ==> list[|list| - 1] in list;
      c := FetchFreePcb();
      pcb[c] := pcb[c].(state := Ready);
      assert View()
             == old(View()).(tasks := old(pcb[..])[c := Task(c, -1, None, old(pcb[..])[c].sleep, Ready)],
                             free := old(free[1..]));
      AddToTaskList(c);
    }

    /** Init, Idle and the first process are blocks 0, 1 and 2. */
    method StartUp()
      requires Valid() && list == [] && free == seq(NUM_PCB, i => i)
      requires forall t :: 0 <= t < NUM_PCB ==> pcb[t] == Task(0, 0, None, 0, Running)
      modifies pcb, next, this`overallTaskList, this`freePcbHead, this`runningTask, this`list, this`free
      ensures Valid() && Booted(View())
    {
      var init := CreateKernelTask();
      var idle := CreateKernelTask();
      var first := FetchFreePcb();
      pcb[first] := pcb[first].(state := Running);
      runningTask := first;
    }

    /** init_process up to the point where it gives way for good, whatever the first process did before and whatever it
        was that gave up the processor, unless it died without a child: from here on the invariant holds. */
    method InitProcess(ghost k: Kernel, ghost es: seq<Event>, ghost e: Event)
      requires Valid() && Booted(k) && Quiet(k, es) && Enabled(AfterQuiet(k, es), e) && Switches(AfterQuiet(k, es), e)
      requires View() == Step(AfterQuiet(k, es), e) && (e == Exit ==> Fork in es)
      modifies pcb, next, this`freePcbHead, this`free, this`overallTaskList, this`list, this`runningTask
      ensures Valid() && Inv(View())
    {
      BootSettles(k, es, e);
      ghost var goal := WaitPrepared(View());
      var child := WaitForChild();
    }

    /** The first process gives way, and Init after it. */
    method FirstSwitches(ghost k: Kernel, ghost es: seq<Event>)
      requires Valid() && Booted(k) && Quiet(k, es) && View() == AfterQuiet(k, es)
      modifies pcb, next, this`freePcbHead, this`free, this`overallTaskList, this`list, this`runningTask
      ensures Valid() && Inv(View())
    {
      BootCanTake(k, es, Yield);
      SwitchTask();
      InitProcess(k, es, Yield);
    }
  }

  lemma Pushed(next: seq<Option<nat>>, next': seq<Option<nat>>, xs: seq<nat>, t: nat)
    requires Chained(next, xs) && t < |next| == |next'| && t !in xs && next' == next[t := LinkAt(xs, 0)]
    ensures Chained(next', [t] + xs)
  {
    forall i | 0 <= i <= |xs|
      ensures LinkedAt(next', [t] + xs, i)
    {
      if i > 0 {
        assert LinkedAt(next, xs, i - 1);
      }
    }
  }

  // ----- from the start of the first process to the invariant

  /** The first process runs and has forked `n` times; no other task has run yet. */
  ghost predicate Booting(k: Kernel, n: nat) {
    && |k.tasks| == NUM_PCB && n + 3 <= NUM_PCB && k.running == 2
    && |k.list| == n + 2 && k.list[0] == INIT && k.list[1] == IDLE
        && (forall i :: 2 <= i < n + 2 ==> k.list[i] == i + 1)
    && |k.free| == NUM_PCB - 3 - n && (forall i :: 0 <= i < |k.free| ==> k.free[i] == i + 3 + n)
    && k.tasks[0] == Task(0, -1, None, 0, Ready) && k.tasks[1] == Task(1, -1, None, 0, Ready)
    && k.tasks[2] == Task(2, -1, None, 0, Running)
    && (forall t :: 3 <= t < n + 3 ==> k.tasks[t] == Task(t, 2, Some(2), 0, Ready))
    && (forall t :: n + 3 <= t < NUM_PCB ==> k.tasks[t] == Task(0, 0, None, 0, Running))
  }

  /** The state in which the first process starts. */
  ghost predicate Booted(k: Kernel) {
    Booting(k, 0)
  }

  /** A run of steps none of which calls schedule. */
  ghost predicate Quiet(k: Kernel, es: seq<Event>)
    decreases |es|
  {
    Ids(k) && (es == [] || (Enabled(k, es[0]) && !Switches(k, es[0]) && Quiet(Step(k, es[0]), es[1..])))
  }

  ghost function AfterQuiet(k: Kernel, es: seq<Event>): (k': Kernel)
    requires Quiet(k, es)
    ensures Ids(k')
    decreases |es|
  {
    if es == [] then k else AfterQuiet(Step(k, es[0]), es[1..])
  }

  lemma QuietStep(k: Kernel, n: nat, e: Event)
    requires Booting(k, n) && Ids(k) && Enabled(k, e) && !Switches(k, e)
    ensures Booting(Step(k, e), if e == Fork then n + 1 else n)
  {
    if e == Fork {
      assert k.free[0] == n + 3 && k.list[|k.list| - 1] != n + 3;
      assert Step(k, e).list == k.list + [n + 3];
    }
  }

  lemma {:induction false} QuietRun(k: Kernel, n: nat, es: seq<Event>) returns (m: nat)
    requires Booting(k, n) && Quiet(k, es)
    ensures Booting(AfterQuiet(k, es), m) && m >= n && (Fork in es <==> m > n)
    decreases |es|
  {
    m := n;
    if es != [] {
      QuietStep(k, n, es[0]);
      m := QuietRun(Step(k, es[0]), if es[0] == Fork then n + 1 else n, es[1..]);
      assert Fork in es <==> es[0] == Fork || Fork in es[1..];
    }
  }

  /** How the first process can stand when it has given up the processor. */
  predicate GaveWay(two: Task) {
    two == Task(2, -1, None, two.sleep, two.state) && two.state != Running
  }

  /** The first process is about to call schedule, in state `two`. */
  lemma FirstPrepared(k: Kernel, n: nat, e: Event) returns (two: Task)
    requires Booting(k, n) && Enabled(k, e) && Switches(k, e)
    ensures Prepared(k, e) == k.(tasks := k.tasks[2 := two])
    ensures GaveWay(two.(state := if two.state == Running then Ready else two.state))
            && (two.state == Zombie <==> e == Exit)
  {
    two := Prepared(k, e).tasks[2];
    assert Prepared(k, e).tasks == k.tasks[2 := two];
  }

  /** Then Init runs, and Idle and the children are next. */
  lemma InitFirst(k: Kernel, n: nat, two: Task)
    requires Booting(k, n) && GaveWay(two.(state := if two.state == Running then Ready else two.state))
    ensures var k1 := Schedule(k.(tasks := k.tasks[2 := two]));
            && k1.running == INIT && k1.free == k.free
            && k1.list == k.list[1..] + (if two.state == Zombie then [] else [2])
            && k1.tasks
                == k.tasks[2 := two.(state := if two.state == Running then Ready
                                     else two.state)][INIT := Task(0, -1, None, 0, Running)]
  {
    var k0 := k.(tasks := k.tasks[2 := two]);
    assert InState(k0.tasks, k0.list[0], Ready) && FirstIn(k0.tasks, k0.list, Ready) == 0;
    assert Without(k0.list, 0) == k.list[1..];
  }

  /** Init waits, and Idle runs. */
  lemma IdleSecond(k: Kernel, rest: seq<nat>)
    requires |k.tasks| == NUM_PCB && k.list == [IDLE] + rest && INIT !in rest && k.running == INIT
    requires k.tasks[IDLE] == Task(1, -1, None, 0, Ready) && k.tasks[INIT] == Task(0, -1, None, 0, Suspended)
    ensures Fetch(k).0.list == rest
    ensures Schedule(k) == Kernel(k.tasks[IDLE := Task(1, -1, None, 0, Running)], rest + [INIT], k.free, IDLE)
  {
    assert InState(k.tasks, k.list[0], Ready) && FirstIn(k.tasks, k.list, Ready) == 0;
    assert Without(k.list, 0) == rest;
  }

  /** The processes that are then in the list before Init: the children, and the first process unless it is dead. */
  ghost predicate Others(rest: seq<nat>, n: nat, zombie: bool) {
    && |rest| == (if zombie then n else n + 1)
    && forall i :: 0 <= i < |rest| ==> rest[i] == if i < n then i + 3 else 2
  }

  lemma Settled(k: Kernel, n: nat, two: Task, rest: seq<nat>, k3: Kernel)
    requires Booting(k, n) && GaveWay(two) && Others(rest, n, two.state == Zombie)
    requires k3.list == rest + [INIT] && k3.running == IDLE && k3.free == k.free && |k3.tasks| == NUM_PCB
    requires k3.tasks[INIT] == Task(0, -1, None, 0, Suspended) && k3.tasks[IDLE] == Task(1, -1, None, 0, Running)
             && k3.tasks[2] == two
    requires forall t :: 3 <= t < NUM_PCB ==> k3.tasks[t] == k.tasks[t]
    ensures Inv(k3)
  {
    forall t | 0 <= t < NUM_PCB
      ensures Placed(k3, t)
    {
      SettledPlace(k, n, two, rest, k3.list, t);
    }
    assert k3.list[|rest|] == INIT;
  }

  lemma SettledPlace(k: Kernel, n: nat, two: Task, rest: seq<nat>, list: seq<nat>, t: nat)
    requires Booting(k, n) && Others(rest, n, two.state == Zombie) && list == rest + [INIT] && t < NUM_PCB
    ensures t in list <==> t == INIT || 3 <= t < n + 3 || (t == 2 && two.state != Zombie)
    ensures t in k.free <==> n + 3 <= t
  {
    if n + 3 <= t {
      assert k.free[t - 3 - n] == t;
    } else if 3 <= t {
      assert list[t - 3] == t;
    } else if t == 2 && two.state != Zombie {
      assert list[n] == t;
    } else if t == INIT {
      assert list[|rest|] == t;
    }
  }

  lemma FirstSwitch(k: Kernel, n: nat, e: Event) returns (two: Task, rest: seq<nat>)
    requires Booting(k, n) && Ids(k) && Enabled(k, e) && Switches(k, e)
    ensures GaveWay(two) && Others(rest, n, two.state == Zombie) && (two.state == Zombie <==> e == Exit)
    ensures Step(k, e) == Kernel(k.tasks[2 := two][INIT := Task(0, -1, None, 0, Running)], [IDLE] + rest, k.free, INIT)
  {
    var leaving := FirstPrepared(k, n, e);
    InitFirst(k, n, leaving);
    two := leaving.(state := if leaving.state == Running then Ready else leaving.state);
    rest := k.list[2..] + (if two.state == Zombie then [] else [2]);
    assert k.list[1..] == [IDLE] + k.list[2..];
    assert Step(k, e).list == [IDLE] + rest;
  }

  lemma InitIsChildless(k: Kernel, n: nat, two: Task, tasks: seq<Task>)
    requires Booting(k, n) && GaveWay(two) && tasks == k.tasks[2 := two][INIT := Task(0, -1, None, 0, Running)]
    ensures FirstChild(tasks, 0) == NUM_PCB
  {
    forall t | 0 <= t < NUM_PCB
      ensures !ZombieOf(tasks[t], 0)
    {
      assert t >= 3 ==> tasks[t] == k.tasks[t];
    }
  }

  lemma InitSuspended(k1: Kernel)
    requires |k1.tasks| == NUM_PCB && k1.running == INIT && k1.tasks[INIT] == Task(0, -1, None, 0, Running)
    ensures Prepared(k1, Wait) == k1.(tasks := k1.tasks[INIT := Task(0, -1, None, 0, Suspended)])
  {
  }

  lemma InitGivesWay(k: Kernel, n: nat, two: Task, rest: seq<nat>, k1: Kernel)
    requires Booting(k, n) && GaveWay(two) && Others(rest, n, two.state == Zombie)
    requires k1 == Kernel(k.tasks[2 := two][INIT := Task(0, -1, None, 0, Running)], [IDLE] + rest, k.free, INIT)
    ensures FirstChild(k1.tasks, k1.tasks[INIT].pid) == NUM_PCB
    ensures Fetch(Prepared(k1, Wait)).0.list == rest
    ensures Inv(Schedule(Prepared(k1, Wait)))
  {
    InitIsChildless(k, n, two, k1.tasks);
    InitSuspended(k1);
    var k2 := k1.(tasks := k1.tasks[INIT := Task(0, -1, None, 0, Suspended)]);
    IdleSecond(k2, rest);
    SettledTasks(k, n, two, rest, k2.tasks);
  }

  lemma SettledTasks(k: Kernel, n: nat, two: Task, rest: seq<nat>, tasks: seq<Task>)
    requires Booting(k, n) && GaveWay(two) && Others(rest, n, two.state == Zombie)
    requires tasks == k.tasks[2 := two][INIT := Task(0, -1, None, 0, Running)][INIT := Task(0, -1, None, 0, Suspended)]
    ensures Inv(Kernel(tasks[IDLE := Task(1, -1, None, 0, Running)], rest + [INIT], k.free, IDLE))
  {
    Settled(k, n, two, rest, Kernel(tasks[IDLE := Task(1, -1, None, 0, Running)], rest + [INIT], k.free, IDLE));
  }

  /** Every step of the first process, and every interrupt, can be taken in the linked form. */
  lemma BootingCanTake(k: Kernel, n: nat, e: Event)
    requires Booting(k, n) && Ids(k) && Enabled(k, e)
    ensures CanTake(k, e)
  {
    BootingSound(k, n);
    if Switches(k, e) {
      var leaving := FirstPrepared(k, n, e);
      BootingCanSwitch(k, n, leaving);
    }
  }

  lemma BootingSound(k: Kernel, n: nat)
    requires Booting(k, n) && Ids(k)
    ensures Sound(k)
  {
  }

  lemma BootingCanSwitch(k: Kernel, n: nat, leaving: Task)
    requires Booting(k, n)
    ensures CanSwitch(k.(tasks := k.tasks[2 := leaving]))
  {
    var k0 := k.(tasks := k.tasks[2 := leaving]);
    assert InState(k0.tasks, k0.list[0], Ready) && FirstIn(k0.tasks, k0.list, Ready) == 0;
    assert Without(k0.list, 0) == k.list[1..] && k.list[1..][0] == IDLE;
  }

  lemma BootCanTake(k: Kernel, es: seq<Event>, e: Event)
    requires Booted(k) && Quiet(k, es) && Enabled(AfterQuiet(k, es), e)
    ensures CanTake(AfterQuiet(k, es), e)
  {
    var n := QuietRun(k, 0, es);
    BootingCanTake(AfterQuiet(k, es), n, e);
  }

  lemma InitCanWait(k: Kernel, n: nat, two: Task, rest: seq<nat>, k1: Kernel)
    requires Booting(k, n) && GaveWay(two) && Others(rest, n, two.state == Zombie)
    requires k1 == Kernel(k.tasks[2 := two][INIT := Task(0, -1, None, 0, Running)], [IDLE] + rest, k.free, INIT)
    ensures CanTake(k1, Wait) <==> rest != []
  {
    InitIsChildless(k, n, two, k1.tasks);
    InitSuspended(k1);
    IdleSecond(Prepared(k1, Wait), rest);
    InitSound(k, n, two, rest, k1);
  }

  lemma InitSound(k: Kernel, n: nat, two: Task, rest: seq<nat>, k1: Kernel)
    requires Booting(k, n) && GaveWay(two) && Others(rest, n, two.state == Zombie)
    requires k1 == Kernel(k.tasks[2 := two][INIT := Task(0, -1, None, 0, Running)], [IDLE] + rest, k.free, INIT)
    ensures Sound(k1) && INIT !in k.free
  {
    forall t | 0 <= t < NUM_PCB && k1.tasks[t].state == Zombie
      ensures t !in k1.free && t !in k1.list
    {
      assert t == 2;
    }
  }

  /** The first process may fork, look for zombie children and take interrupts; whatever it then does to give up the
      processor for the first time, Init gets it, finds no child and gives way for good, and the invariant holds. The
      linked lists follow, as Init is not appended to an empty list, if and only if the first process did not die
      without having forked. */
  lemma BootSettles(k: Kernel, es: seq<Event>, e: Event)
    requires Booted(k) && Quiet(k, es) && Enabled(AfterQuiet(k, es), e) && Switches(AfterQuiet(k, es), e)
    ensures CanTake(AfterQuiet(k, es), e)
    ensures var k1 := Step(AfterQuiet(k, es), e);
            && k1.running == INIT && INIT < |k1.tasks| && FirstChild(k1.tasks, k1.tasks[INIT].pid) == NUM_PCB
            && (CanTake(k1, Wait) <==> e != Exit || Fork in es)
            && Inv(Schedule(Prepared(k1, Wait)))
  {
    var n := QuietRun(k, 0, es);
    var k0 := AfterQuiet(k, es);
    BootingCanTake(k0, n, e);
    var two, rest := FirstSwitch(k0, n, e);
    InitGivesWay(k0, n, two, rest, Step(k0, e));
    InitCanWait(k0, n, two, rest, Step(k0, e));
  }

  /** Seconds told by `n` interrupts that find the counter at `count`. */
  function Seconds(count: nat, n: nat): nat
    decreases n
  {
    if n == 0 then 0 else (if count == 18 then 1 else 0) + Seconds(if count == 18 then 0 else count + 1, n - 1)
  }

  lemma {:induction false} SecondIsNineteenInterrupts(count: nat, n: nat)
    requires count < 19
    ensures Seconds(count, n) == (count + n) / 19
    decreases n
  {
    if n > 0 {
      SecondIsNineteenInterrupts(if count == 18 then 0 else count + 1, n - 1);
      assert count == 18 ==> (count + n) / 19 == 1 + (n - 1) / 19;
    }
  }

  lemma TickPrepared(k: Kernel) returns (prepared: Kernel, goal: Kernel)
    requires CanTake(k, Tick)
    ensures prepared == Prepared(k, Tick) && goal == Step(k, Tick)
    ensures CanSwitch(prepared) && goal == Schedule(prepared) && (Inv(k) ==> Inv(goal))
  {
    prepared, goal := Prepared(k, Tick), Step(k, Tick);
    Keeps(k, Tick);
  }

  /** The two ways wait_for_child goes on. */
  lemma WaitPrepared(k: Kernel) returns (goal: Kernel)
    requires CanTake(k, Wait)
    ensures goal == Step(k, Wait)
    ensures goal == if FirstChild(k.tasks, k.tasks[k.running].pid) == |k.tasks| then Schedule(Prepared(k, Wait))
            else ScanStep(k)
    ensures FirstChild(k.tasks, k.tasks[k.running].pid) == |k.tasks| ==>
            CanSwitch(Prepared(k, Wait)) && ScanStep(k) == k
  {
    goal := Step(k, Wait);
  }

  /** What schedule needs after fetch_ready_task: the list is not empty, because Init is on it, and the task that ran is
      not on it, except Idle at its end. */
  lemma FetchLeaves(k: Kernel)
    requires Leaving(k)
    ensures CanSwitch(k)
  {
    var i := FirstIn(k.tasks, k.list, Ready);
    assert Placed(k, k.running) && Placed(k, INIT);
    if i < |k.list| {
      WithoutMembers(k.list, i);
      TailRemains(k.list, i);
      assert INIT in Without(k.list, i);
    }
  }
}
