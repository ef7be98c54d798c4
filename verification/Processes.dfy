/** Processes that share memory copy-on-write, against processes whose pages are their own and whose fork copies, at
    once, the pages that the VMAs cover: over every run the two are indistinguishable (sys/process.c, sys/pagefault.c).
    When that is the whole address space is the subject of WholeCopy. */
module Processes {
  import opened Lists
  import opened Frames
  import opened PageTables
  import opened AddressSpaces
  import opened CopyOnWrite
  import opened Forking
  import opened Teardown

  datatype VmaKind = Text | DataSeg | Heap | Stack | Anon

  datatype Vma = Vma(start: nat, end: nat, kind: VmaKind)

  const PAGE_SIZE: nat := 4096

  /** The largest multiple of 4096 that is not above `a`. */
  function ScaleDown(a: nat): (d: nat)
    ensures d % 4096 == 0 && d <= a < d + 4096
  {
    a - a % PAGE_SIZE
  }

  /** The smallest multiple of 4096 that is not below `a`. */
  function ScaleUp(a: nat): (u: nat)
    ensures u % 4096 == 0 && a <= u < a + 4096
  {
    if a % PAGE_SIZE != 0 then a + (PAGE_SIZE - a % PAGE_SIZE) else a
  }

  /** The pages that the loop of fork_process visits for one VMA. */
  function PagesOf(a: Vma): (vs: seq<Vpn>)
    requires a.start <= a.end
  {
    var n := (ScaleUp(a.end) - ScaleDown(a.start)) / PAGE_SIZE;
    seq(if n >= 0 then n else 0, i requires 0 <= i => VpnOf(ScaleDown(a.start) + i * PAGE_SIZE))
  }

  function AllPages(vmas: seq<Vma>): seq<Vpn>
    requires forall a :: a in vmas ==> a.start <= a.end
  {
    if vmas == [] then [] else PagesOf(vmas[0]) + AllPages(vmas[1..])
  }

  /** A VMA of the user half, small enough for the `int` arithmetic of the page loop: at most 2 GiB. */
  ghost predicate VmaOk(a: Vma) {
    && a.start <= a.end && a.end + PAGE_SIZE <= 0x1_0000_0000_0000_0000
    && |PagesOf(a)| <= 0x8_0000
    && UserPages(PagesOf(a))
  }

  ghost predicate VmasOk(vmas: seq<Vma>) {
    forall a :: a in vmas ==> VmaOk(a)
  }

  /** check_vma: the first VMA that contains the address, its end included. */
  function CheckVma(vmas: seq<Vma>, va: nat): Option<Vma> {
    if vmas == [] then None
    else if vmas[0].start <= va <= vmas[0].end then Some(vmas[0])
    else CheckVma(vmas[1..], va)
  }

  /** It finds a VMA exactly when some VMA contains the address. */
  lemma {:induction false} CheckVmaIff(vmas: seq<Vma>, va: nat)
    ensures CheckVma(vmas, va).Some? <==> exists a :: a in vmas && a.start <= va <= a.end
  {
    if vmas != [] && !(vmas[0].start <= va <= vmas[0].end) {
      CheckVmaIff(vmas[1..], va);
      assert forall a :: a in vmas <==> a == vmas[0] || a in vmas[1..];
    }
  }

  /** The one it finds is the first that does. */
  lemma {:induction false} CheckVmaFirst(vmas: seq<Vma>, va: nat) returns (i: nat)
    requires CheckVma(vmas, va).Some?
    ensures i < |vmas| && vmas[i] == CheckVma(vmas, va).value && vmas[i].start <= va <= vmas[i].end
    ensures forall j :: 0 <= j < i ==> !(vmas[j].start <= va <= vmas[j].end)
  {
    i := 0;
    if !(vmas[0].start <= va <= vmas[0].end) {
      var k := CheckVmaFirst(vmas[1..], va);
      i := k + 1;
      assert forall j :: 0 < j < i ==> vmas[j] == vmas[1..][j - 1];
    }
  }

  datatype Proc = Proc(root: nat, vmas: seq<Vma>)

  datatype Sys = Sys(m: Machine, procs: map<nat, Proc>)

  ghost predicate SysRoots(s: Sys) {
    && (forall p :: p in s.procs ==>
        IsRoot(s.m, s.procs[p].root) && s.procs[p].root != s.m.kroot && VmasOk(s.procs[p].vmas))
    && (forall p, q :: p in s.procs && q in s.procs && p != q ==> s.procs[p].root != s.procs[q].root)
  }

  ghost predicate SysInv(s: Sys) {
    CowInv(s.m) && SysRoots(s)
  }

  // ----- the page fault

  /** The outcome of page_fault_handler. LazyLoad stands for the TEXT and DATA branches. */
  datatype Outcome = Resumed(m: Machine) | Killed | LazyLoad

  /** The free frames suffice for what the handler will do: a copy, a stack page with its tables, or nothing. */
  ghost predicate CanHandle(m: Machine, r: nat, vmas: seq<Vma>, va: nat, err: nat) {
    && CowInv(m) && IsRoot(m, r) && UserPage(VpnOf(va))
    && match CheckVma(vmas, va)
       case None => true
       case Some(a) =>
         if err == 7 then CanCopy(m, r, VpnOf(va)) else a.kind == Stack ==> CanTakeAndMap(m, r, VpnOf(va))
  }

  ghost function PageFault(m: Machine, r: nat, vmas: seq<Vma>, va: nat, err: nat): Outcome
    requires CanHandle(m, r, vmas, va, err)
  {
    match CheckVma(vmas, va)
    case None => Killed
    case Some(a) =>
      if err == 7 then Resumed(CowFault(m, r, VpnOf(va)))
      else if a.kind == Text || a.kind == DataSeg then LazyLoad
      else if a.kind == Stack then Resumed(MapFresh(m, r, VpnOf(va), ZeroFrame()))
      else Resumed(m)
  }

  /** What the processor checks on a walk from table `f`: every entry is present, open to user mode, and writable for a
      write (section 4.6 of the Intel SDM, Volume 3A). */
  predicate Allows(m: Machine, f: nat, v: Vpn, d: nat, write: bool)
    requires f < |m.mem| && d < 4
    decreases 4 - d
  {
    var e := m.mem[f][v[d]];
    && Present(e) && ForUser(e) && (write ==> Writable(e))
    && (d == 3 || (e.pfn < |m.mem| && Allows(m, e.pfn, v, d + 1, write)))
  }

  /** Whether a user access goes through without a fault. */
  predicate Permitted(m: Machine, r: nat, v: Vpn, write: bool)
    requires r < |m.mem|
  {
    Allows(m, r, v, 0, write)
  }

  lemma SevenIsOpen(w: Word)
    requires w.flags == 7
    ensures Present(w) && ForUser(w) && Writable(w)
  {
  }

  lemma {:induction false} AllowsIff(m: Machine, f: nat, v: Vpn, d: nat, write: bool)
    requires Shape(m) && d <= 3 && OnPath(m, f, v, d) && UserPage(v)
    ensures Allows(m, f, v, d, write) <==> Descend(m, f, v, d).Some? && (write ==> Writable(Descend(m, f, v, d).value))
    decreases 3 - d
  {
    assert TableOk(m, f) && EntryOk(m, f, v[d]);
    if Present(m.mem[f][v[d]]) {
      if d < 3 {
        SevenIsOpen(m.mem[f][v[d]]);
        ChildOnPath(m, f, v, d);
        AllowsIff(m, m.mem[f][v[d]].pfn, v, d + 1, write);
      } else {
        assert v[..3][0] == v[0];
      }
    }
  }

  /** On a user page the tables above the last level never refuse, and neither does the user bit: the leaf decides. */
  lemma PermittedIff(m: Machine, r: nat, v: Vpn, write: bool)
    requires Shape(m) && IsRoot(m, r) && UserPage(v)
    ensures Permitted(m, r, v, write) <==> Walk(m, r, v).Some? && (write ==> Writable(Walk(m, r, v).value))
  {
    assert OnPath(m, r, v, 0);
    AllowsIff(m, r, v, 0, write);
  }

  /** The error code of a user fault: bit 2 for user mode, bit 1 for a write, bit 0 when the page is present. */
  function ErrorCode(m: Machine, r: nat, v: Vpn, write: bool): nat
    requires r < |m.mem|
  {
    4 + (if write then 2 else 0) + (if Walk(m, r, v).Some? then 1 else 0)
  }

  /** A user access needs free frames only if it faults, and then those that the handler takes. */
  ghost predicate CanTouch(m: Machine, r: nat, vmas: seq<Vma>, va: nat, write: bool) {
    && CowInv(m) && IsRoot(m, r) && UserPage(VpnOf(va))
    && (Permitted(m, r, VpnOf(va), write) || CanHandle(m, r, vmas, va, ErrorCode(m, r, VpnOf(va), write)))
  }

  /** A user access: the fault, if there is one, and what the handler makes of it. */
  ghost function Access(m: Machine, r: nat, vmas: seq<Vma>, va: nat, write: bool): Outcome
    requires CanTouch(m, r, vmas, va, write)
  {
    if Permitted(m, r, VpnOf(va), write) then Resumed(m)
    else PageFault(m, r, vmas, va, ErrorCode(m, r, VpnOf(va), write))
  }

  /** The access completes, possibly after one fault. */
  ghost predicate Completes(m: Machine, r: nat, vmas: seq<Vma>, va: nat, write: bool)
    requires CanTouch(m, r, vmas, va, write)
  {
    match Access(m, r, vmas, va, write)
    case Resumed(m') => |m'.mem| == |m.mem| && Permitted(m', r, VpnOf(va), write)
    case _ => false
  }

  /** What a completed access leaves: the page is there and permits it, an absent page was filled with zeros, and no
      page reads differently. */
  lemma AccessOk(m: Machine, r: nat, vmas: seq<Vma>, va: nat, write: bool)
    requires CanTouch(m, r, vmas, va, write) && Access(m, r, vmas, va, write).Resumed?
    ensures var m' := Access(m, r, vmas, va, write).m;
            var v := VpnOf(va);
            && CowInv(m') && RootsKept(m, m') && (Exact(m) ==> Exact(m'))
            && (if Walk(m, r, v).Some? then PagesKept(m, m') && Permitted(m', r, v, write)
                else if CheckVma(vmas, va).Some? && CheckVma(vmas, va).value.kind == Stack then
                  PageSet(m, m', r, v, ZeroFrame()) && Permitted(m', r, v, write)
                else m' == m)
  {
    var v, m' := VpnOf(va), Access(m, r, vmas, va, write).m;
    PermittedIff(m, r, v, write);
    if !Permitted(m, r, v, write) {
      if Walk(m, r, v).Some? {
        CowFaultOk(m, r, v);
        PermittedIff(m', r, v, write);
      } else if CheckVma(vmas, va).value.kind == Stack {
        MapFreshOk(m, r, v, ZeroFrame());
        assert Writable(Word(m.free[0], 7));
        PermittedIff(m', r, v, write);
      }
    }
  }

  /** Exactly which user accesses complete. A page that is mapped but write-protected can be written only at addresses
      that some VMA contains; an absent page only where the first such VMA is a stack. */
  lemma CompletesIff(m: Machine, r: nat, vmas: seq<Vma>, va: nat, write: bool)
    requires CanTouch(m, r, vmas, va, write)
    ensures Completes(m, r, vmas, va, write) <==>
              if Walk(m, r, VpnOf(va)).Some? then Permitted(m, r, VpnOf(va), write) || CheckVma(vmas, va).Some?
              else CheckVma(vmas, va).Some? && CheckVma(vmas, va).value.kind == Stack
  {
    PermittedIff(m, r, VpnOf(va), write);
    if Access(m, r, vmas, va, write).Resumed? {
      AccessOk(m, r, vmas, va, write);
    }
  }

  /** With no frame free, every permitted access still goes through, and so does the write to a page whose frame has no
      other user, wherever a VMA contains the address. */
  lemma GoesThroughWithoutFrames(m: Machine, r: nat, vmas: seq<Vma>, va: nat, write: bool)
    requires CowInv(m) && IsRoot(m, r) && UserPage(VpnOf(va)) && Walk(m, r, VpnOf(va)).Some?
    requires Permitted(m, r, VpnOf(va), write) || (CheckVma(vmas, va).Some? && !NeedsCopy(m, r, VpnOf(va)))
    ensures CanTouch(m, r, vmas, va, write) && Completes(m, r, vmas, va, write)
    ensures |Access(m, r, vmas, va, write).m.free| == |m.free|
  {
    PermittedIff(m, r, VpnOf(va), write);
    CompletesIff(m, r, vmas, va, write);
    if !Permitted(m, r, VpnOf(va), write) {
      CowFaultOk(m, r, VpnOf(va));
    }
  }

  predicate Contains(a: Vma, va: nat) {
    a.start <= va <= a.end
  }

  /** The `i`-th VMA is the first of the list that contains the address. */
  predicate FirstAt(vmas: seq<Vma>, va: nat, i: nat) {
    i < |vmas| && Contains(vmas[i], va) && forall j :: 0 <= j < i ==> !Contains(vmas[j], va)
  }

  /** The first VMA that contains the address is of one of the kinds. */
  ghost predicate FirstIsOf(vmas: seq<Vma>, va: nat, kinds: set<VmaKind>) {
    exists i :: 0 <= i < |vmas| && FirstAt(vmas, va, i) && vmas[i].kind in kinds
  }

  lemma FoundIsOf(vmas: seq<Vma>, va: nat, kinds: set<VmaKind>)
    ensures FirstIsOf(vmas, va, kinds) <==> CheckVma(vmas, va).Some? && CheckVma(vmas, va).value.kind in kinds
  {
    CheckVmaIff(vmas, va);
    if CheckVma(vmas, va).Some? {
      var i := CheckVmaFirst(vmas, va);
      assert FirstAt(vmas, va, i);
      forall k | 0 <= k < |vmas| && FirstAt(vmas, va, k)
        ensures k == i
      {
        assert Contains(vmas[k], va) && Contains(vmas[i], va);
      }
    }
  }

  /** What the handler does with every fault. It kills the process if and only if no VMA contains the address, and it
      loads from the archive if and only if the first VMA that does is text or data and the fault is not a user write to
      a present page. Such a write is resolved, where the page is mapped; a fault in a stack maps a page of zeros; any
      other fault resumes with nothing changed. */
  lemma PageFaultOutcome(m: Machine, r: nat, vmas: seq<Vma>, va: nat, err: nat)
    requires CanHandle(m, r, vmas, va, err)
    ensures PageFault(m, r, vmas, va, err) == Killed <==> !exists a :: a in vmas && a.start <= va <= a.end
    ensures PageFault(m, r, vmas, va, err) == LazyLoad <==> err != 7 && FirstIsOf(vmas, va, {Text, DataSeg})
    ensures PageFault(m, r, vmas, va, err).Resumed? ==>
              var m', v := PageFault(m, r, vmas, va, err).m, VpnOf(va);
              if err == 7 && Walk(m, r, v).Some? then FaultResolved(m, m', r, v)
              else if err != 7 && FirstIsOf(vmas, va, {Stack}) then
                m.free != [] && FreshMapped(m, m', r, v, m.free[0], ZeroFrame())
              else m' == m
  {
    CheckVmaIff(vmas, va);
    FoundIsOf(vmas, va, {Text, DataSeg});
    FoundIsOf(vmas, va, {Stack});
    if CheckVma(vmas, va).Some? {
      if err == 7 && Walk(m, r, VpnOf(va)).Some? {
        CowFaultOk(m, r, VpnOf(va));
      } else if err != 7 && CheckVma(vmas, va).value.kind == Stack {
        MapFreshOk(m, r, VpnOf(va), ZeroFrame());
      }
    }
  }

  /** A user access kills its process if and only if it is not permitted and no VMA contains the address. */
  lemma AccessKillsIff(m: Machine, r: nat, vmas: seq<Vma>, va: nat, write: bool)
    requires CanTouch(m, r, vmas, va, write)
    ensures Access(m, r, vmas, va, write) == Killed
            <==> !Permitted(m, r, VpnOf(va), write) && !exists a :: a in vmas && a.start <= va <= a.end
  {
    if !Permitted(m, r, VpnOf(va), write) {
      PageFaultOutcome(m, r, vmas, va, ErrorCode(m, r, VpnOf(va), write));
    }
  }

  // ----- steps

  datatype Event =
    | Fork(p: nat, child: nat)
    | Read(p: nat, va: nat)
    | Write(p: nat, va: nat, w: Word)
    | Load(p: nat, va: nat, content: Frame)
    | AddVma(p: nat, vma: Vma)
    | Exec(p: nat)
    | Reap(p: nat)

  function WordIndex(va: nat): nat {
    va / 8 % 512
  }

  ghost predicate CanFork(s: Sys, p: nat, c: nat) {
    && p in s.procs && c !in s.procs && CowInv(s.m) && IsRoot(s.m, s.procs[p].root)
    && VmasOk(s.procs[p].vmas) && |s.m.free| >= 2
    && (NewSpaceOk(s.m);
        var (m1, r) := NewSpace(s.m);
        FramesLast(m1, s.procs[p].root, r, AllPages(s.procs[p].vmas)))
  }

  ghost predicate CanAccess(s: Sys, p: nat, va: nat, write: bool) {
    && p in s.procs && CanTouch(s.m, s.procs[p].root, s.procs[p].vmas, va, write)
    && Completes(s.m, s.procs[p].root, s.procs[p].vmas, va, write)
  }

  ghost predicate CanLoad(s: Sys, p: nat, va: nat) {
    p in s.procs && CanTakeAndMap(s.m, s.procs[p].root, VpnOf(va)) && Walk(s.m, s.procs[p].root, VpnOf(va)) == None
  }

  ghost predicate CanClear(s: Sys, p: nat) {
    p in s.procs && Sized(s.m) && s.procs[p].root < |s.m.mem|
  }

  /** When a step can take place: enough frames, an unused process slot, and, for a user access, that it completes. */
  ghost predicate Enabled(s: Sys, ev: Event) {
    match ev
    case Fork(p, c) => CanFork(s, p, c)
    case Read(p, va) => CanAccess(s, p, va, false)
    case Write(p, va, w) => CanAccess(s, p, va, true)
    case Load(p, va, content) => CanLoad(s, p, va)
    case AddVma(p, vma) => p in s.procs && VmaOk(vma)
    case Exec(p) => CanClear(s, p)
    case Reap(p) => CanClear(s, p)
  }

  ghost function ForkStep(s: Sys, p: nat, c: nat): Sys
    requires CanFork(s, p, c)
  {
    NewSpaceOk(s.m);
    var (m1, r) := NewSpace(s.m);
    Sys(SharePages(m1, s.procs[p].root, r, AllPages(s.procs[p].vmas)), s.procs[c := Proc(r, s.procs[p].vmas)])
  }

  ghost function AccessStep(s: Sys, p: nat, va: nat, write: bool): Sys
    requires CanAccess(s, p, va, write)
  {
    s.(m := Access(s.m, s.procs[p].root, s.procs[p].vmas, va, write).m)
  }

  ghost function StoreStep(s: Sys, p: nat, va: nat, w: Word): Sys
    requires p in s.procs && s.procs[p].root < |s.m.mem| && Walk(s.m, s.procs[p].root, VpnOf(va)).Some?
  {
    s.(m := Store(s.m, Walk(s.m, s.procs[p].root, VpnOf(va)).value.pfn, WordIndex(va), w))
  }

  ghost function Step(s: Sys, ev: Event): Sys
    requires Enabled(s, ev)
  {
    match ev
    case Fork(p, c) => ForkStep(s, p, c)
    case Read(p, va) => AccessStep(s, p, va, false)
    case Write(p, va, w) => StoreStep(AccessStep(s, p, va, true), p, va, w)
    case Load(p, va, content) => s.(m := MapFresh(s.m, s.procs[p].root, VpnOf(va), content))
    case AddVma(p, vma) => s.(procs := s.procs[p := Proc(s.procs[p].root, s.procs[p].vmas + [vma])])
    case Exec(p) => Sys(ClearMapping(s.m, s.procs[p].root), s.procs[p := Proc(s.procs[p].root, [])])
    case Reap(p) => Sys(ClearMapping(s.m, s.procs[p].root), s.procs - {p})
  }

  // ----- the reference: every process owns its pages, and fork copies those that the VMAs cover

  datatype EagerProc = EagerProc(vmas: seq<Vma>, pages: imap<Vpn, Frame>)

  type Eager = map<nat, EagerProc>

  ghost function Touched(e: EagerProc, v: Vpn): Frame {
    if v in e.pages then e.pages[v] else ZeroFrame()
  }

  ghost predicate EagerEnabled(e: Eager, ev: Event) {
    ev.p in e && (ev.Fork? ==> forall a :: a in e[ev.p].vmas ==> a.start <= a.end)
  }

  ghost function EagerStep(e: Eager, ev: Event): Eager
    requires EagerEnabled(e, ev)
  {
    var me := e[ev.p];
    match ev
    case Fork(p, c) => e[c := EagerProc(me.vmas, imap v: Vpn | v in AllPages(me.vmas) && v in me.pages :: me.pages[v])]
    case Read(p, va) => e[p := EagerProc(me.vmas, me.pages[VpnOf(va) := Touched(me, VpnOf(va))])]
    case Write(p, va, w) =>
        e[p := EagerProc(me.vmas, me.pages[VpnOf(va) := Touched(me, VpnOf(va))[WordIndex(va) := w]])]
    case Load(p, va, content) => e[p := EagerProc(me.vmas, me.pages[VpnOf(va) := content])]
    case AddVma(p, vma) => e[p := EagerProc(me.vmas + [vma], me.pages)]
    case Exec(p) => e[p := EagerProc([], imap[])]
    case Reap(p) => e - {p}
  }

  /** What a process can read in the user half. */
  ghost function Image(m: Machine, r: nat): imap<Vpn, Frame> {
    imap v: Vpn | r < |m.mem| && UserPage(v) && PageOf(m, r, v).Some? :: PageOf(m, r, v).value
  }

  ghost function Abs(s: Sys): Eager {
    map p | p in s.procs :: EagerProc(s.procs[p].vmas, Image(s.m, s.procs[p].root))
  }

  // ----- one step

  /** Memory changed, processes did not: how the reference state follows. */
  lemma SamePagesSameImage(m: Machine, m': Machine, q: nat)
    requires IsRoot(m, q) && RootsKept(m, m')
    requires forall u: Vpn {:trigger PageOf(m', q, u)} :: UserPage(u) ==> PageOf(m', q, u) == PageOf(m, q, u)
    ensures Image(m', q) == Image(m, q)
  {
    assert forall u: Vpn :: u in Image(m', q) <==> u in Image(m, q);
  }

  lemma SetImage(m: Machine, m': Machine, r: nat, v: Vpn, p: Frame)
    requires PageSet(m, m', r, v, p) && UserPage(v)
    ensures Image(m', r) == Image(m, r)[v := p]
    ensures forall q :: IsRoot(m, q) && q != r ==> Image(m', q) == Image(m, q)
  {
    assert forall u: Vpn :: UserPage(u) && u != v ==> PageOf(m', r, u) == PageOf(m, r, u);
    assert Image(m', r) == Image(m, r)[v := p];
    forall q | IsRoot(m, q) && q != r
      ensures Image(m', q) == Image(m, q)
    {
      SamePagesSameImage(m, m', q);
    }
  }

  /** The images of the two machines agree on every process but `p`. */
  ghost predicate OtherImages(s: Sys, m': Machine, p: nat) {
    forall q :: q in s.procs && q != p ==> Image(m', s.procs[q].root) == Image(s.m, s.procs[q].root)
  }

  lemma InvKept(s: Sys, m': Machine)
    requires SysInv(s) && CowInv(m') && RootsKept(s.m, m')
    ensures SysInv(s.(m := m'))
  {
  }

  lemma SetAbs(s: Sys, m': Machine, p: nat, pages: imap<Vpn, Frame>)
    requires p in s.procs && OtherImages(s, m', p) && Image(m', s.procs[p].root) == pages
    ensures Abs(s.(m := m')) == Abs(s)[p := EagerProc(s.procs[p].vmas, pages)]
  {
  }

  lemma SetPageStep(s: Sys, m': Machine, p: nat, v: Vpn, f: Frame)
    requires SysInv(s) && p in s.procs && CowInv(m') && PageSet(s.m, m', s.procs[p].root, v, f) && UserPage(v)
    ensures SysInv(s.(m := m'))
    ensures Abs(s.(m := m')) == Abs(s)[p := EagerProc(Abs(s)[p].vmas, Abs(s)[p].pages[v := f])]
  {
    InvKept(s, m');
    assert OtherImages(s, m', p) && Image(m', s.procs[p].root) == Image(s.m, s.procs[p].root)[v := f] by {
      SetImage(s.m, m', s.procs[p].root, v, f);
    }
    SetAbs(s, m', p, Image(s.m, s.procs[p].root)[v := f]);
  }

  lemma KeepPagesStep(s: Sys, m': Machine)
    requires SysInv(s) && CowInv(m') && PagesKept(s.m, m')
    ensures SysInv(s.(m := m')) && Abs(s.(m := m')) == Abs(s)
  {
    InvKept(s, m');
    forall q | q in s.procs
      ensures Image(m', s.procs[q].root) == Image(s.m, s.procs[q].root)
    {
      SamePagesSameImage(s.m, m', s.procs[q].root);
    }
    KeepAbs(s, m');
  }

  lemma KeepAbs(s: Sys, m': Machine)
    requires forall q :: q in s.procs ==> Image(m', s.procs[q].root) == Image(s.m, s.procs[q].root)
    ensures Abs(s.(m := m')) == Abs(s)
  {
  }

  lemma MappedIsRead(m: Machine, r: nat, v: Vpn)
    requires CowInv(m) && IsRoot(m, r) && UserPage(v)
    ensures Walk(m, r, v).Some? <==> PageOf(m, r, v).Some?
    ensures PageOf(m, r, v).Some? ==> v in Image(m, r) && Image(m, r)[v] == PageOf(m, r, v).value
    ensures PageOf(m, r, v) == None ==> v !in Image(m, r)
  {
    if Walk(m, r, v).Some? {
      WalkSlot(m, r, v);
    }
  }

  /** A completed access, as the reference sees it: an absent page appears, filled with zeros. */
  lemma AccessStepOk(s: Sys, p: nat, va: nat, write: bool)
    requires SysInv(s) && CanAccess(s, p, va, write)
    ensures var s' := AccessStep(s, p, va, write);
            && SysInv(s') && Permitted(s'.m, s.procs[p].root, VpnOf(va), write)
            && Abs(s')
                == Abs(s)[p := EagerProc(Abs(s)[p].vmas, Abs(s)[p].pages[VpnOf(va) := Touched(Abs(s)[p], VpnOf(va))])]
            && (Exact(s.m) ==> Exact(s'.m))
  {
    var r, v := s.procs[p].root, VpnOf(va);
    PermittedIff(s.m, r, v, write);
    AccessOk(s.m, r, s.procs[p].vmas, va, write);
    AccessedAbs(s, Access(s.m, r, s.procs[p].vmas, va, write).m, p, v);
  }

  lemma AccessedAbs(s: Sys, m': Machine, p: nat, v: Vpn)
    requires SysInv(s) && p in s.procs && UserPage(v) && CowInv(m')
    requires if Walk(s.m, s.procs[p].root, v).Some? then PagesKept(s.m, m')
             else PageSet(s.m, m', s.procs[p].root, v, ZeroFrame())
    ensures SysInv(s.(m := m'))
    ensures Abs(s.(m := m')) == Abs(s)[p := EagerProc(Abs(s)[p].vmas, Abs(s)[p].pages[v := Touched(Abs(s)[p], v)])]
  {
    MappedIsRead(s.m, s.procs[p].root, v);
    if Walk(s.m, s.procs[p].root, v).Some? {
      KeepPagesStep(s, m');
      TouchedSame(Abs(s), p, v);
    } else {
      SetPageStep(s, m', p, v, ZeroFrame());
    }
  }

  lemma TouchedSame(e: Eager, p: nat, v: Vpn)
    requires p in e && v in e[p].pages
    ensures e == e[p := EagerProc(e[p].vmas, e[p].pages[v := Touched(e[p], v)])]
  {
    assert e[p].pages[v := Touched(e[p], v)] == e[p].pages;
  }

  lemma StoreStepOk(s: Sys, p: nat, va: nat, w: Word)
    requires SysInv(s) && p in s.procs && UserPage(VpnOf(va)) && Permitted(s.m, s.procs[p].root, VpnOf(va), true)
    requires VpnOf(va) in Abs(s)[p].pages
    ensures var s', v := StoreStep(s, p, va, w), VpnOf(va);
            && SysInv(s') && (Exact(s.m) ==> Exact(s'.m))
            && Abs(s')
                == Abs(s)[p := EagerProc(Abs(s)[p].vmas, Abs(s)[p].pages[v := Abs(s)[p].pages[v][WordIndex(va) := w]])]
  {
    var r, v := s.procs[p].root, VpnOf(va);
    PermittedIff(s.m, r, v, true);
    StoreOk(s.m, r, v, WordIndex(va), w);
    MappedIsRead(s.m, r, v);
    SetPageStep(s, Store(s.m, Walk(s.m, r, v).value.pfn, WordIndex(va), w), p, v,
                PageOf(s.m, r, v).value[WordIndex(va) := w]);
  }

  lemma StoreAfterAccess(e: Eager, s1: Sys, p: nat, va: nat, w: Word)
    requires SysInv(s1) && p in s1.procs && p in e && UserPage(VpnOf(va))
             && Permitted(s1.m, s1.procs[p].root, VpnOf(va), true)
    requires Abs(s1) == e[p := EagerProc(e[p].vmas, e[p].pages[VpnOf(va) := Touched(e[p], VpnOf(va))])]
    ensures SysInv(StoreStep(s1, p, va, w)) && (Exact(s1.m) ==> Exact(StoreStep(s1, p, va, w).m))
    ensures Abs(StoreStep(s1, p, va, w)) == EagerStep(e, Write(p, va, w))
  {
    assert VpnOf(va) in Abs(s1)[p].pages;
    StoreStepOk(s1, p, va, w);
    WriteTwice(e, Abs(s1), Abs(StoreStep(s1, p, va, w)), p, va, w);
  }

  lemma WriteTwice(e: Eager, e1: Eager, e2: Eager, p: nat, va: nat, w: Word)
    requires p in e && e1 == e[p := EagerProc(e[p].vmas, e[p].pages[VpnOf(va) := Touched(e[p], VpnOf(va))])]
    requires e2 == e1[p := EagerProc(e1[p].vmas, e1[p].pages[VpnOf(va) := e1[p].pages[VpnOf(va)][WordIndex(va) := w]])]
    ensures e2 == EagerStep(e, Write(p, va, w))
  {
    var v, t := VpnOf(va), Touched(e[p], VpnOf(va));
    assert e[p].pages[v := t][v := t[WordIndex(va) := w]] == e[p].pages[v := t[WordIndex(va) := w]];
  }

  lemma WriteStepOk(s: Sys, p: nat, va: nat, w: Word)
    requires SysInv(s) && CanAccess(s, p, va, true)
    ensures var s' := Step(s, Write(p, va, w));
            SysInv(s') && (Exact(s.m) ==> Exact(s'.m)) && Abs(s') == EagerStep(Abs(s), Write(p, va, w))
  {
    var s1 := AccessStep(s, p, va, true);
    assert Step(s, Write(p, va, w)) == StoreStep(s1, p, va, w);
    AccessStepOk(s, p, va, true);
    StoreAfterAccess(Abs(s), s1, p, va, w);
  }

  lemma AllPagesUser(vmas: seq<Vma>)
    requires VmasOk(vmas)
    ensures UserPages(AllPages(vmas))
  {
    if vmas != [] {
      assert VmaOk(vmas[0]);
      AllPagesUser(vmas[1..]);
    }
  }

  lemma ForkStepOk(s: Sys, p: nat, c: nat)
    requires SysInv(s) && CanFork(s, p, c)
    ensures SysInv(ForkStep(s, p, c)) && Abs(ForkStep(s, p, c)) == EagerStep(Abs(s), Fork(p, c))
  {
    var m1, cr := ForkShares(s, p, c);
    ForkImages(s, m1, ForkStep(s, p, c), p, c, cr, AllPages(s.procs[p].vmas));
  }

  /** fork as its two halves: a new address space, then the page loop. */
  lemma ForkShares(s: Sys, p: nat, c: nat) returns (m1: Machine, cr: nat)
    requires SysInv(s) && CanFork(s, p, c)
    ensures SpaceAdded(s.m, m1, cr) && UserPages(AllPages(s.procs[p].vmas)) && IsRoot(s.m, s.procs[p].root)
    ensures PagesShared(m1, ForkStep(s, p, c).m, s.procs[p].root, cr, AllPages(s.procs[p].vmas))
    ensures ForkStep(s, p, c).procs == s.procs[c := Proc(cr, s.procs[p].vmas)]
  {
    NewSpaceOk(s.m);
    m1, cr := NewSpace(s.m).0, NewSpace(s.m).1;
    AllPagesUser(s.procs[p].vmas);
    SharePagesOk(m1, s.procs[p].root, cr, AllPages(s.procs[p].vmas));
  }

  lemma ForkImages(s: Sys, m1: Machine, s': Sys, p: nat, c: nat, cr: nat, vs: seq<Vpn>)
    requires SysInv(s) && CanFork(s, p, c) && vs == AllPages(s.procs[p].vmas) && UserPages(vs)
    requires SpaceAdded(s.m, m1, cr) && PagesShared(m1, s'.m, s.procs[p].root, cr, vs)
    requires s'.procs == s.procs[c := Proc(cr, s.procs[p].vmas)]
    ensures SysInv(s') && Abs(s') == EagerStep(Abs(s), Fork(p, c))
  {
    ForkInv(s, m1, s', p, c, cr);
    assert OtherImages(s, s'.m, c) by { ForkOthers(s, m1, s'.m, s.procs[p].root, cr, vs); }
    ChildImage(s.m, m1, s'.m, s.procs[p].root, cr, vs);
    ForkAbs(s, s', p, c, cr);
  }

  lemma ForkInv(s: Sys, m1: Machine, s': Sys, p: nat, c: nat, cr: nat)
    requires SysInv(s) && p in s.procs && c !in s.procs && VmasOk(s.procs[p].vmas)
    requires RootsKept(s.m, m1) && RootsKept(m1, s'.m) && CowInv(s'.m)
    requires IsRoot(m1, cr) && !IsRoot(s.m, cr) && s'.procs == s.procs[c := Proc(cr, s.procs[p].vmas)]
    ensures SysInv(s')
  {
  }

  lemma ForkOthers(s: Sys, m1: Machine, m': Machine, pr: nat, cr: nat, vs: seq<Vpn>)
    requires SysInv(s) && SpaceAdded(s.m, m1, cr) && IsRoot(s.m, pr) && PagesShared(m1, m', pr, cr, vs)
    ensures |m'.mem| == |s.m.mem|
    ensures forall q :: q in s.procs ==> Image(m', s.procs[q].root) == Image(s.m, s.procs[q].root)
  {
    forall p | p in s.procs
      ensures Image(m', s.procs[p].root) == Image(s.m, s.procs[p].root)
    {
      var q := s.procs[p].root;
      assert forall u: Vpn {:trigger PageOf(m', q, u)} :: UserPage(u) ==>
             PageOf(m', q, u) == PageOf(m1, q, u) == PageOf(s.m, q, u);
      SamePagesSameImage(s.m, m', q);
    }
  }

  lemma ForkAbs(s: Sys, s': Sys, p: nat, c: nat, cr: nat)
    requires p in s.procs && c !in s.procs && VmasOk(s.procs[p].vmas) && OtherImages(s, s'.m, c)
    requires s'.procs == s.procs[c := Proc(cr, s.procs[p].vmas)]
    requires var vs := AllPages(s.procs[p].vmas);
             Image(s'.m, cr) == imap v: Vpn | v in vs
                 && v in Image(s.m, s.procs[p].root) :: Image(s.m, s.procs[p].root)[v]
    ensures Abs(s') == EagerStep(Abs(s), Fork(p, c))
  {
    InsertAbs(s, s', c, Proc(cr, s.procs[p].vmas));
    EagerFork(Abs(s), p, c, Image(s'.m, cr));
  }

  lemma InsertAbs(s: Sys, s': Sys, c: nat, proc: Proc)
    requires c !in s.procs && OtherImages(s, s'.m, c) && s'.procs == s.procs[c := proc]
    ensures Abs(s') == Abs(s)[c := EagerProc(proc.vmas, Image(s'.m, proc.root))]
  {
  }

  lemma EagerFork(e: Eager, p: nat, c: nat, pages: imap<Vpn, Frame>)
    requires p in e && VmasOk(e[p].vmas)
    requires pages == imap v: Vpn | v in AllPages(e[p].vmas) && v in e[p].pages :: e[p].pages[v]
    ensures EagerStep(e, Fork(p, c)) == e[c := EagerProc(e[p].vmas, pages)]
  {
  }

  lemma ChildImage(m: Machine, m1: Machine, m': Machine, pr: nat, cr: nat, vs: seq<Vpn>)
    requires IsRoot(m, pr) && PagesKept(m, m1) && IsRoot(m1, cr) && RootsKept(m1, m') && UserPages(vs)
    requires forall u: Vpn {:trigger Walk(m1, cr, u)} :: UserPage(u) ==> Walk(m1, cr, u) == None
    requires forall u: Vpn {:trigger PageOf(m', cr, u)} :: UserPage(u) ==>
               PageOf(m', cr, u) == if u in vs && PageOf(m1, pr, u).Some? then PageOf(m1, pr, u) else PageOf(m1, cr, u)
    ensures Image(m', cr) == imap v: Vpn | v in vs && v in Image(m, pr) :: Image(m, pr)[v]
  {
    forall u: Vpn | UserPage(u)
      ensures PageOf(m', cr, u) == if u in vs then PageOf(m, pr, u) else None
    {
      assert Walk(m1, cr, u) == None;
      assert PageOf(m1, pr, u) == PageOf(m, pr, u);
    }
    assert forall u: Vpn :: u in Image(m', cr) <==> u in vs && u in Image(m, pr);
  }

  lemma ClearStepImages(s: Sys, m': Machine, p: nat)
    requires SysRoots(s) && p in s.procs && RootsKept(s.m, m')
    requires forall u: Vpn {:trigger Walk(m', s.procs[p].root, u)} :: UserPage(u) ==>
             Walk(m', s.procs[p].root, u) == None
    requires forall q: nat, u: Vpn {:trigger PageOf(m', q, u)} ::
               IsRoot(s.m, q) && UserPage(u) && q != s.procs[p].root ==> PageOf(m', q, u) == PageOf(s.m, q, u)
    ensures Image(m', s.procs[p].root) == imap[]
    ensures OtherImages(s, m', p)
  {
    forall q | q in s.procs && q != p
      ensures Image(m', s.procs[q].root) == Image(s.m, s.procs[q].root)
    {
      SamePagesSameImage(s.m, m', s.procs[q].root);
    }
  }

  lemma OtherAbs(s: Sys, s': Sys, p: nat, q: nat)
    requires OtherImages(s, s'.m, p) && q != p && q in s.procs && q in s'.procs && s'.procs[q] == s.procs[q]
    ensures Abs(s')[q] == Abs(s)[q]
  {
  }

  lemma ExecAbs(s: Sys, p: nat, s': Sys)
    requires p in s.procs && OtherImages(s, s'.m, p) && Image(s'.m, s.procs[p].root) == imap[]
    requires s'.procs == s.procs[p := Proc(s.procs[p].root, [])]
    ensures Abs(s') == Abs(s)[p := EagerProc([], imap[])]
  {
    forall q | q in s'.procs && q != p
      ensures Abs(s')[q] == Abs(s)[q]
    {
      OtherAbs(s, s', p, q);
    }
  }

  lemma ReapAbs(s: Sys, p: nat, s': Sys)
    requires p in s.procs && OtherImages(s, s'.m, p) && s'.procs == s.procs - {p}
    ensures Abs(s') == Abs(s) - {p}
  {
    forall q | q in s'.procs
      ensures Abs(s')[q] == Abs(s)[q]
    {
      OtherAbs(s, s', p, q);
    }
  }

  lemma ClearAbs(s: Sys, ev: Event, s': Sys)
    requires ev.p in s.procs && (ev.Exec? || ev.Reap?)
    requires OtherImages(s, s'.m, ev.p) && Image(s'.m, s.procs[ev.p].root) == imap[]
    requires s'.procs == if ev.Exec? then s.procs[ev.p := Proc(s.procs[ev.p].root, [])] else s.procs - {ev.p}
    ensures Abs(s') == EagerStep(Abs(s), ev)
  {
    if ev.Exec? {
      ExecAbs(s, ev.p, s');
    } else {
      ReapAbs(s, ev.p, s');
    }
  }

  lemma ClearInv(s: Sys, ev: Event, s': Sys)
    requires SysInv(s) && ev.p in s.procs && (ev.Exec? || ev.Reap?) && SysInv(s.(m := s'.m))
    requires s'.procs == if ev.Exec? then s.procs[ev.p := Proc(s.procs[ev.p].root, [])] else s.procs - {ev.p}
    ensures SysInv(s')
  {
  }

  lemma ClearStep(s: Sys, ev: Event)
    requires SysInv(s) && Enabled(s, ev) && (ev.Exec? || ev.Reap?)
    ensures SysInv(Step(s, ev)) && Abs(Step(s, ev)) == EagerStep(Abs(s), ev)
    ensures Exact(s.m) ==> Exact(Step(s, ev).m)
  {
    var r := s.procs[ev.p].root;
    ClearMappingOk(s.m, r);
    InvKept(s, ClearMapping(s.m, r));
    ClearStepImages(s, ClearMapping(s.m, r), ev.p);
    ClearInv(s, ev, Step(s, ev));
    ClearAbs(s, ev, Step(s, ev));
  }

  lemma LoadStep(s: Sys, p: nat, va: nat, content: Frame)
    requires SysInv(s) && CanLoad(s, p, va)
    ensures var s' := Step(s, Load(p, va, content));
            SysInv(s') && Abs(s') == EagerStep(Abs(s), Load(p, va, content)) && (Exact(s.m) ==> Exact(s'.m))
  {
    MapFreshOk(s.m, s.procs[p].root, VpnOf(va), content);
    LoadedAbs(s, MapFresh(s.m, s.procs[p].root, VpnOf(va), content), p, va, content);
  }

  lemma LoadedAbs(s: Sys, m': Machine, p: nat, va: nat, content: Frame)
    requires SysInv(s) && p in s.procs && CowInv(m') && PageSet(s.m, m', s.procs[p].root, VpnOf(va), content)
             && UserPage(VpnOf(va))
    ensures SysInv(s.(m := m')) && Abs(s.(m := m')) == EagerStep(Abs(s), Load(p, va, content))
  {
    SetPageStep(s, m', p, VpnOf(va), content);
    EagerLoad(Abs(s), p, va, content);
  }

  lemma EagerLoad(e: Eager, p: nat, va: nat, content: Frame)
    requires p in e
    ensures EagerStep(e, Load(p, va, content)) == e[p := EagerProc(e[p].vmas, e[p].pages[VpnOf(va) := content])]
  {
  }

  lemma AddVmaInv(s: Sys, p: nat, vma: Vma)
    requires SysInv(s) && p in s.procs && VmaOk(vma)
    ensures SysInv(Step(s, AddVma(p, vma)))
  {
  }

  lemma AddVmaStep(s: Sys, p: nat, vma: Vma)
    requires SysInv(s) && p in s.procs && VmaOk(vma)
    ensures var s' := Step(s, AddVma(p, vma)); SysInv(s') && Abs(s') == EagerStep(Abs(s), AddVma(p, vma))
  {
    AddVmaInv(s, p, vma);
    AddVmaAbs(s, p, vma);
  }

  lemma AddVmaAbs(s: Sys, p: nat, vma: Vma)
    requires p in s.procs && VmaOk(vma)
    ensures Abs(Step(s, AddVma(p, vma))) == EagerStep(Abs(s), AddVma(p, vma))
  {
  }

  /** One step of the kernel is one step of the reference, and the invariant holds again. */
  lemma StepRefines(s: Sys, ev: Event)
    requires SysInv(s) && Enabled(s, ev)
    ensures SysInv(Step(s, ev)) && EagerEnabled(Abs(s), ev) && Abs(Step(s, ev)) == EagerStep(Abs(s), ev)
  {
    match ev {
      case Fork(p, c) => ForkStepOk(s, p, c);
      case Read(p, va) => AccessStepOk(s, p, va, false);
      case Write(p, va, w) => WriteStepOk(s, p, va, w);
      case Load(p, va, content) => LoadStep(s, p, va, content);
      case AddVma(p, vma) => AddVmaStep(s, p, vma);
      case Exec(p) => ClearStep(s, ev);
      case Reap(p) => ClearStep(s, ev);
    }
  }

  // ----- runs

  ghost predicate CanRunEvents(s: Sys, evs: seq<Event>)
    decreases |evs|
  {
    evs == [] || (Enabled(s, evs[0]) && CanRunEvents(Step(s, evs[0]), evs[1..]))
  }

  ghost function Run(s: Sys, evs: seq<Event>): Sys
    requires CanRunEvents(s, evs)
    decreases |evs|
  {
    if evs == [] then s else Run(Step(s, evs[0]), evs[1..])
  }

  ghost predicate EagerCanRun(e: Eager, evs: seq<Event>)
    decreases |evs|
  {
    evs == [] || (EagerEnabled(e, evs[0]) && EagerCanRun(EagerStep(e, evs[0]), evs[1..]))
  }

  ghost function EagerRun(e: Eager, evs: seq<Event>): Eager
    requires EagerCanRun(e, evs)
    decreases |evs|
  {
    if evs == [] then e else EagerRun(EagerStep(e, evs[0]), evs[1..])
  }

  /** Sharing frames, counting references and copying on a write fault cannot be told from copying at fork the pages
      that the VMAs cover: after any run every process reads, in the user half, exactly what it reads in the
      reference. */
  lemma {:induction false} CopyOnWriteRefinesEagerCopy(s: Sys, evs: seq<Event>)
    requires SysInv(s) && CanRunEvents(s, evs)
    ensures SysInv(Run(s, evs)) && EagerCanRun(Abs(s), evs) && Abs(Run(s, evs)) == EagerRun(Abs(s), evs)
    decreases |evs|
  {
    if evs != [] {
      StepRefines(s, evs[0]);
      CopyOnWriteRefinesEagerCopy(Step(s, evs[0]), evs[1..]);
    }
  }

  /** The event neither belongs to process `q` nor creates it. */
  predicate Spares(ev: Event, q: nat) {
    ev.p != q && (ev.Fork? ==> ev.child != q)
  }

  predicate AllSpare(evs: seq<Event>, q: nat) {
    evs == [] || (Spares(evs[0], q) && AllSpare(evs[1..], q))
  }

  lemma {:induction false} AllSpareIff(evs: seq<Event>, q: nat)
    ensures AllSpare(evs, q) <==> forall i :: 0 <= i < |evs| ==> Spares(evs[i], q)
  {
    if evs != [] {
      AllSpareIff(evs[1..], q);
      assert forall i :: 0 < i < |evs| ==> evs[i] == evs[1..][i - 1];
    }
  }

  lemma EagerOthers(e: Eager, ev: Event, q: nat)
    requires EagerEnabled(e, ev) && q in e && Spares(ev, q)
    ensures q in EagerStep(e, ev) && EagerStep(e, ev)[q] == e[q]
  {
  }

  lemma StepSpares(s: Sys, ev: Event, q: nat)
    requires SysInv(s) && Enabled(s, ev) && q in s.procs && Spares(ev, q)
    ensures SysInv(Step(s, ev)) && q in Step(s, ev).procs && Abs(Step(s, ev))[q] == Abs(s)[q]
  {
    StepRefines(s, ev);
    EagerOthers(Abs(s), ev, q);
    assert q in Abs(Step(s, ev));
  }

  lemma {:induction false} RunSpares(s: Sys, evs: seq<Event>, q: nat)
    requires SysInv(s) && CanRunEvents(s, evs) && q in s.procs && AllSpare(evs, q)
    ensures SysInv(Run(s, evs)) && q in Run(s, evs).procs && Abs(Run(s, evs))[q] == Abs(s)[q]
    decreases |evs|
  {
    if evs != [] {
      StepSpares(s, evs[0], q);
      RunSpares(Step(s, evs[0]), evs[1..], q);
    }
  }

  /** No event of one process changes what another reads, over whole runs. */
  lemma Isolation(s: Sys, evs: seq<Event>, q: nat)
    requires SysInv(s) && CanRunEvents(s, evs) && q in s.procs
    requires forall i :: 0 <= i < |evs| ==> Spares(evs[i], q)
    ensures SysInv(Run(s, evs)) && q in Run(s, evs).procs
    ensures Abs(Run(s, evs))[q] == Abs(s)[q]
  {
    AllSpareIff(evs, q);
    RunSpares(s, evs, q);
  }
}
