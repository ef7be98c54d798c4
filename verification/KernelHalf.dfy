/** The kernel half of every address space: a new one gets the kernel's top entry, and no step of any process takes it
    away or changes what is behind it (create_new_pml_table in sys/proc_mngr.c, sys/virmem.c, sys/process.c). */
module KernelHalf {
  import opened Lists
  import opened Frames
  import opened PageTables
  import opened AddressSpaces
  import opened CopyOnWrite
  import opened Forking
  import opened Teardown
  import opened Processes
  import opened Entries
  import MemoryFacts
  import DirectMap

  /** Every address space reads in the kernel half what it read. */
  ghost predicate KernelKept(m: Machine, m': Machine) {
    && RootsKept(m, m')
    && forall q: nat, u: Vpn {:trigger Walk(m', q, u)} :: IsRoot(m, q) && !UserPage(u) ==>
        Walk(m', q, u) == Walk(m, q, u)
  }

  /** Every process reads in the kernel half what the kernel's own address space reads there. */
  ghost predicate KernelShared(s: Sys) {
    forall p :: p in s.procs ==> SharesKernel(s.m, s.procs[p].root)
  }

  ghost predicate SharesKernel(m: Machine, r: nat) {
    && r < |m.mem| && m.kroot < |m.mem|
    && forall u: Vpn {:trigger Walk(m, r, u)} :: !UserPage(u) ==> Walk(m, r, u) == Walk(m, m.kroot, u)
  }

  lemma KeptTwice(a: Machine, b: Machine, c: Machine)
    requires KernelKept(a, b) && KernelKept(b, c)
    ensures KernelKept(a, c)
  {
    forall q: nat, u: Vpn | IsRoot(a, q) && !UserPage(u)
      ensures Walk(c, q, u) == Walk(a, q, u)
    {
      assert Walk(c, q, u) == Walk(b, q, u);
    }
  }

  lemma StillShares(m: Machine, m': Machine, r: nat)
    requires KernelKept(m, m') && IsRoot(m, r) && IsRoot(m, m.kroot) && SharesKernel(m, r)
    ensures SharesKernel(m', r)
  {
    forall u: Vpn | !UserPage(u)
      ensures Walk(m', r, u) == Walk(m', m'.kroot, u)
    {
      assert Walk(m', r, u) == Walk(m, r, u) && Walk(m', m.kroot, u) == Walk(m, m.kroot, u);
    }
  }

  // ----- one step

  lemma AccessKernel(s: Sys, p: nat, va: nat, write: bool)
    requires SysInv(s) && CanAccess(s, p, va, write)
    ensures KernelKept(s.m, AccessStep(s, p, va, write).m)
  {
    var r, v := s.procs[p].root, VpnOf(va);
    PermittedIff(s.m, r, v, write);
    if !Permitted(s.m, r, v, write) {
      CompletesIff(s.m, r, s.procs[p].vmas, va, write);
      if Walk(s.m, r, v).Some? {
        CowFaultEntries(s.m, r, v, Walk(s.m, r, v).value);
      } else {
        MapFreshEntries(s.m, r, v, ZeroFrame());
      }
    }
  }

  lemma WriteKernel(s: Sys, p: nat, va: nat, w: Word)
    requires SysInv(s) && CanAccess(s, p, va, true)
    ensures Enabled(s, Write(p, va, w)) && KernelKept(s.m, Step(s, Write(p, va, w)).m)
  {
    var s1 := AccessStep(s, p, va, true);
    AccessKernel(s, p, va, true);
    AccessStepOk(s, p, va, true);
    PermittedIff(s1.m, s.procs[p].root, VpnOf(va), true);
    StoreEntries(s1.m, s.procs[p].root, VpnOf(va), WordIndex(va), w);
    KeptTwice(s.m, s1.m, Step(s, Write(p, va, w)).m);
  }

  lemma ForkKernel(s: Sys, p: nat, c: nat)
    requires SysInv(s) && CanFork(s, p, c)
    ensures KernelKept(s.m, ForkStep(s, p, c).m)
    ensures SharesKernel(ForkStep(s, p, c).m, ForkStep(s, p, c).procs[c].root)
  {
    NewSpaceOk(s.m);
    var (m1, cr) := NewSpace(s.m);
    AllPagesUser(s.procs[p].vmas);
    NewSpaceKernel(s.m);
    ForkedKernel(s.m, m1, s.procs[p].root, cr, AllPages(s.procs[p].vmas));
  }

  lemma NewSpaceKernel(m: Machine)
    requires CowInv(m) && |m.free| >= 2 && m.head.Some? && m.head.value < |m.mem|
    ensures var (m1, r) := NewSpace(m); KernelKept(m, m1) && IsRoot(m1, r) && SharesKernel(m1, r)
  {
    NewSpaceOk(m);
    var (m1, r) := NewSpace(m);
    forall u: Vpn | !UserPage(u)
      ensures Walk(m1, r, u) == Walk(m1, m1.kroot, u)
    {
      assert Walk(m1, m.kroot, u) == Walk(m, m.kroot, u);
    }
  }

  lemma ForkedKernel(m: Machine, m1: Machine, pr: nat, cr: nat, vs: seq<Vpn>)
    requires KernelKept(m, m1) && CowInv(m1) && pr != cr && ChildFollows(m1, pr, cr) && UserPages(vs)
    requires FramesLast(m1, pr, cr, vs) && SharesKernel(m1, cr)
    ensures KernelKept(m, SharePages(m1, pr, cr, vs)) && SharesKernel(SharePages(m1, pr, cr, vs), cr)
  {
    var m' := SharePages(m1, pr, cr, vs);
    SharePagesEntries(m1, pr, cr, vs);
    forall q: nat, u: Vpn | IsRoot(m1, q) && !UserPage(u)
      ensures Walk(m', q, u) == Walk(m1, q, u)
    {
      assert u !in vs;
    }
    KeptTwice(m, m1, m');
    StillShares(m1, m', cr);
  }

  lemma StepKernel(s: Sys, ev: Event)
    requires SysInv(s) && Enabled(s, ev)
    ensures KernelKept(s.m, Step(s, ev).m)
  {
    match ev {
      case Fork(p, c) => ForkKernel(s, p, c);
      case Read(p, va) => AccessKernel(s, p, va, false);
      case Write(p, va, w) => WriteKernel(s, p, va, w);
      case Load(p, va, content) => MapFreshEntries(s.m, s.procs[p].root, VpnOf(va), content);
      case AddVma(p, vma) =>
      case Exec(p) => ClearMappingOk(s.m, s.procs[p].root);
      case Reap(p) => ClearMappingOk(s.m, s.procs[p].root);
    }
  }

  lemma StepShares(s: Sys, ev: Event)
    requires SysInv(s) && Enabled(s, ev) && KernelShared(s)
    ensures KernelShared(Step(s, ev))
  {
    StepKernel(s, ev);
    var s' := Step(s, ev);
    forall p | p in s'.procs
      ensures SharesKernel(s'.m, s'.procs[p].root)
    {
      if ev.Fork? && p == ev.child {
        ForkKernel(s, ev.p, ev.child);
      } else {
        StepRoot(s, ev, p);
        StillShares(s.m, s'.m, s.procs[p].root);
      }
    }
  }

  lemma StepRoot(s: Sys, ev: Event, p: nat)
    requires SysInv(s) && Enabled(s, ev) && p in Step(s, ev).procs && !(ev.Fork? && p == ev.child)
    ensures p in s.procs && Step(s, ev).procs[p].root == s.procs[p].root
  {
  }

  // ----- whole runs

  /** Over every run the kernel half stays what it is, and every process that comes to be has it. */
  lemma {:induction false} KernelInEveryProcess(s: Sys, evs: seq<Event>)
    requires SysInv(s) && CanRunEvents(s, evs) && KernelShared(s)
    ensures KernelShared(Run(s, evs)) && KernelKept(s.m, Run(s, evs).m)
    decreases |evs|
  {
    if evs != [] {
      StepRefines(s, evs[0]);
      StepKernel(s, evs[0]);
      StepShares(s, evs[0]);
      KernelInEveryProcess(Step(s, evs[0]), evs[1..]);
      KeptTwice(s.m, Step(s, evs[0]).m, Run(s, evs).m);
    }
  }

  /** The first `n` frames are mapped at KERNBASE. */
  ghost predicate MapsMemory(m: Machine, r: nat, n: nat) {
    r < |m.mem| && forall pa :: 0 <= pa < n * 0x1000 ==> MapsAddress(m, r, pa)
  }

  ghost predicate MapsAddress(m: Machine, r: nat, pa: nat)
    requires r < |m.mem|
  {
    Walk(m, r, VpnOf(DirectMap.KERNBASE + pa)) == Some(Word(pa / 0x1000, 7))
  }

  lemma KernelAddress(pa: nat)
    requires pa < 0x8000_0000
    ensures !UserPage(VpnOf(DirectMap.KERNBASE + pa))
  {
    assert (DirectMap.KERNBASE + pa) / 0x80_0000_0000 == 0x1ff_ffff;
  }

  lemma SharedMemory(m: Machine, m': Machine, r: nat, n: nat)
    requires IsRoot(m, m.kroot) && KernelKept(m, m') && SharesKernel(m', r) && MapsMemory(m, m.kroot, n)
             && n <= 0x8_0000
    ensures MapsMemory(m', r, n)
  {
    forall pa | 0 <= pa < n * 0x1000
      ensures MapsAddress(m', r, pa)
    {
      var u := VpnOf(DirectMap.KERNBASE + pa);
      KernelAddress(pa);
      assert MapsAddress(m, m.kroot, pa);
      assert Walk(m', r, u) == Walk(m', m'.kroot, u) == Walk(m, m.kroot, u);
    }
  }

  /** From the boot on: a first process is made, then anything happens. Every process there ever is reads the memory of
      the machine at KERNBASE. */
  lemma MemoryInEveryProcess(m: Machine, n: nat, p: nat, evs: seq<Event>)
    requires SysInv(Sys(m, map[])) && |m.free| >= 2 && MapsMemory(m, m.kroot, n) && n <= 0x8_0000
    requires m.head.Some? && m.head.value < |m.mem|
    requires CanRunEvents(Sys(NewSpace(m).0, map[p := Proc(NewSpace(m).1, [])]), evs)
    ensures var s := Run(Sys(NewSpace(m).0, map[p := Proc(NewSpace(m).1, [])]), evs);
            forall q :: q in s.procs ==> MapsMemory(s.m, s.procs[q].root, n)
  {
    var s0 := Sys(NewSpace(m).0, map[p := Proc(NewSpace(m).1, [])]);
    FirstProcess(m, p);
    KernelInEveryProcess(s0, evs);
    KeptTwice(m, s0.m, Run(s0, evs).m);
    forall q | q in Run(s0, evs).procs
      ensures MapsMemory(Run(s0, evs).m, Run(s0, evs).procs[q].root, n)
    {
      SharedMemory(m, Run(s0, evs).m, Run(s0, evs).procs[q].root, n);
    }
  }

  lemma FirstProcess(m: Machine, p: nat)
    requires SysInv(Sys(m, map[])) && |m.free| >= 2 && m.head.Some? && m.head.value < |m.mem|
    ensures var s0 := Sys(NewSpace(m).0, map[p := Proc(NewSpace(m).1, [])]);
            SysInv(s0) && KernelShared(s0) && KernelKept(m, s0.m)
  {
    MemoryFacts.NewProcess(Sys(m, map[]), p);
    NewSpaceKernel(m);
    var none: map<nat, Proc> := map[];
    assert none[p := Proc(NewSpace(m).1, [])] == map[p := Proc(NewSpace(m).1, [])];
  }
}
