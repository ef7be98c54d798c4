/** Copy-on-write fork against a fork that copies the whole address space: over which runs the two are the same, and
    the run on which they are not (sys/process.c, sys/pagefault.c). */
module WholeCopy {
  import opened Lists
  import opened Frames
  import opened PageTables
  import opened AddressSpaces
  import opened CopyOnWrite
  import opened Forking
  import opened Processes
  import opened MemoryFacts

  // ----- the reference whose fork copies everything

  ghost function WholeStep(e: Eager, ev: Event): Eager
    requires EagerEnabled(e, ev)
  {
    if ev.Fork? then e[ev.child := e[ev.p]] else EagerStep(e, ev)
  }

  ghost predicate WholeCanRun(e: Eager, evs: seq<Event>)
    decreases |evs|
  {
    evs == [] || (EagerEnabled(e, evs[0]) && WholeCanRun(WholeStep(e, evs[0]), evs[1..]))
  }

  ghost function WholeRun(e: Eager, evs: seq<Event>): Eager
    requires WholeCanRun(e, evs)
    decreases |evs|
  {
    if evs == [] then e else WholeRun(WholeStep(e, evs[0]), evs[1..])
  }

  // ----- addresses on the pages of the VMAs

  /** The address lies on a page of some VMA. Every address with `start <= va < end` does. */
  predicate OnVmaPage(vmas: seq<Vma>, va: nat) {
    exists a :: a in vmas && ScaleDown(a.start) <= va < ScaleUp(a.end)
  }

  lemma InsideIsOnPage(vmas: seq<Vma>, a: Vma, va: nat)
    requires a in vmas && a.start <= va < a.end
    ensures OnVmaPage(vmas, va)
  {
    assert ScaleDown(a.start) <= va < ScaleUp(a.end);
  }

  lemma PageVisited(a: Vma, va: nat)
    requires a.start <= a.end && ScaleDown(a.start) <= va < ScaleUp(a.end)
    ensures VpnOf(va) in PagesOf(a)
  {
    var b, x := a.start / PAGE_SIZE, va / PAGE_SIZE;
    PageNumbers(a);
    PageAt(b, x - b);
    SamePageSameVpn(va, b * PAGE_SIZE + (x - b) * PAGE_SIZE);
    assert PagesOf(a)[x - b] == VpnOf(va);
  }

  lemma {:induction false} PagesOfListed(vmas: seq<Vma>, v: Vpn)
    requires forall a :: a in vmas ==> a.start <= a.end
    ensures v in AllPages(vmas) <==> exists a :: a in vmas && v in PagesOf(a)
  {
    if vmas != [] {
      PagesOfListed(vmas[1..], v);
      assert forall a :: a in vmas <==> a == vmas[0] || a in vmas[1..];
    }
  }

  /** Addresses that the processor accepts: bits 47 to 63 are all alike. */
  predicate Canonical(va: nat) {
    va < 0x8000_0000_0000 || 0xffff_8000_0000_0000 <= va < 0x1_0000_0000_0000_0000
  }

  lemma VisitedAt(a: Vma, v: Vpn) returns (y: nat)
    requires a.start <= a.end && v in PagesOf(a)
    ensures a.start / PAGE_SIZE <= y < ScaleUp(a.end) / PAGE_SIZE && v == VpnOf(y * PAGE_SIZE)
  {
    var i :| 0 <= i < |PagesOf(a)| && PagesOf(a)[i] == v;
    PageNumbers(a);
    y := a.start / PAGE_SIZE + i;
  }

  lemma OnThatPage(va: nat, y: nat, b: nat, e: nat)
    requires VpnOf(va) == VpnOf(y * PAGE_SIZE) && Canonical(va) && b <= y < e <= b + 0x8_0000
    requires b < 0x8_0000_0000 || 0xf_fff8_0000_0000 <= b
    requires e <= 0x8_0000_0000 || 0xf_fff8_0000_0000 <= e <= 0x10_0000_0000_0000
    ensures va / PAGE_SIZE == y
  {
    SameVpnIff(va, y * PAGE_SIZE);
    PageAt(0, y);
    SameCanonicalPage(va / PAGE_SIZE, y, b, e);
  }

  lemma EndPages(a: Vma)
    requires Canonical(a.start) && Canonical(a.end) && a.start <= a.end && |PagesOf(a)| <= 0x8_0000
    ensures var b, e := a.start / PAGE_SIZE, ScaleUp(a.end) / PAGE_SIZE;
            && (b < 0x8_0000_0000 || 0xf_fff8_0000_0000 <= b)
            && (e <= 0x8_0000_0000 || 0xf_fff8_0000_0000 <= e <= 0x10_0000_0000_0000)
            && e <= b + 0x8_0000
  {
    PageNumbers(a);
  }

  lemma VisitedOnPage(a: Vma, va: nat)
    requires VmaOk(a) && Canonical(a.start) && Canonical(a.end) && Canonical(va) && VpnOf(va) in PagesOf(a)
    ensures ScaleDown(a.start) <= va < ScaleUp(a.end)
  {
    var y := VisitedAt(a, VpnOf(va));
    PageNumbers(a);
    EndPages(a);
    OnThatPage(va, y, a.start / PAGE_SIZE, ScaleUp(a.end) / PAGE_SIZE);
  }

  lemma PageNumbers(a: Vma)
    requires a.start <= a.end
    ensures ScaleDown(a.start) == a.start / PAGE_SIZE * PAGE_SIZE
            && ScaleUp(a.end) == ScaleUp(a.end) / PAGE_SIZE * PAGE_SIZE
    ensures a.start / PAGE_SIZE <= ScaleUp(a.end) / PAGE_SIZE
    ensures |PagesOf(a)| == ScaleUp(a.end) / PAGE_SIZE - a.start / PAGE_SIZE
  {
  }

  lemma PageAt(b: nat, i: nat)
    ensures (b * PAGE_SIZE + i * PAGE_SIZE) / 0x1000 == b + i
  {
  }

  lemma SameCanonicalPage(x: nat, y: nat, b: nat, e: nat)
    requires x % 0x10_0000_0000 == y % 0x10_0000_0000 && b <= y < e <= b + 0x8_0000
    requires x < 0x8_0000_0000 || 0xf_fff8_0000_0000 <= x < 0x10_0000_0000_0000
    requires b < 0x8_0000_0000 || 0xf_fff8_0000_0000 <= b
    requires e <= 0x8_0000_0000 || 0xf_fff8_0000_0000 <= e <= 0x10_0000_0000_0000
    ensures x == y
  {
  }

  /** For addresses the processor accepts, fork visits the page of an address exactly when it is a page of a VMA. */
  lemma VisitedIff(vmas: seq<Vma>, va: nat)
    requires VmasOk(vmas) && Canonical(va) && forall a :: a in vmas ==> Canonical(a.start) && Canonical(a.end)
    ensures VpnOf(va) in AllPages(vmas) <==> OnVmaPage(vmas, va)
  {
    PagesOfListed(vmas, VpnOf(va));
    if OnVmaPage(vmas, va) {
      var a :| a in vmas && ScaleDown(a.start) <= va < ScaleUp(a.end);
      PageVisited(a, va);
    }
    if VpnOf(va) in AllPages(vmas) {
      var a :| a in vmas && VpnOf(va) in PagesOf(a);
      VisitedOnPage(a, va);
    }
  }

  // ----- where the two references agree

  /** Every page of every process is one that fork would visit. */
  ghost predicate PagesWithin(e: Eager) {
    forall p :: p in e ==> ProcWithin(e[p])
  }

  ghost predicate ProcWithin(p: EagerProc) {
    && (forall a :: a in p.vmas ==> a.start <= a.end)
    && forall v: Vpn :: v in p.pages ==> v in AllPages(p.vmas)
  }

  /** User accesses and loads stay on the pages of the process's VMAs. */
  predicate Guarded(vmas: seq<Vma>, ev: Event) {
    match ev
    case Read(p, va) => OnVmaPage(vmas, va)
    case Write(p, va, w) => OnVmaPage(vmas, va)
    case Load(p, va, content) => OnVmaPage(vmas, va)
    case _ => true
  }

  ghost predicate GuardedRun(s: Sys, evs: seq<Event>)
    requires CanRunEvents(s, evs)
    decreases |evs|
  {
    evs == []
        || (evs[0].p in s.procs && Guarded(s.procs[evs[0].p].vmas, evs[0]) && GuardedRun(Step(s, evs[0]), evs[1..]))
  }

  lemma AllPagesAppend(vmas: seq<Vma>, vma: Vma, v: Vpn)
    requires forall a :: a in vmas ==> a.start <= a.end
    requires vma.start <= vma.end && v in AllPages(vmas)
    ensures v in AllPages(vmas + [vma])
  {
    PagesOfListed(vmas, v);
    PagesOfListed(vmas + [vma], v);
    var a :| a in vmas && v in PagesOf(a);
    assert a in vmas + [vma];
  }

  /** fork copies everything if and only if all the parent's pages are visited. */
  lemma ForkAgreesIff(e: Eager, p: nat, c: nat)
    requires p in e && c !in e && forall a :: a in e[p].vmas ==> a.start <= a.end
    ensures EagerStep(e, Fork(p, c)) == WholeStep(e, Fork(p, c)) <==> ProcWithin(e[p])
  {
    var copied := imap v: Vpn | v in AllPages(e[p].vmas) && v in e[p].pages :: e[p].pages[v];
    ForkedPages(e[p].pages, AllPages(e[p].vmas));
    assert EagerStep(e, Fork(p, c))[c] == EagerProc(e[p].vmas, copied);
    assert WholeStep(e, Fork(p, c))[c] == e[p];
  }

  lemma TouchWithin(p: EagerProc, va: nat, f: Frame)
    requires ProcWithin(p) && OnVmaPage(p.vmas, va)
    ensures ProcWithin(EagerProc(p.vmas, p.pages[VpnOf(va) := f]))
  {
    var a :| a in p.vmas && ScaleDown(a.start) <= va < ScaleUp(a.end);
    PageVisited(a, va);
    PagesOfListed(p.vmas, VpnOf(va));
  }

  /** A guarded step keeps the pages within the VMAs, and its fork, if it is one, copies everything. */
  lemma GuardedStep(e: Eager, ev: Event)
    requires PagesWithin(e) && EagerEnabled(e, ev) && Guarded(e[ev.p].vmas, ev)
    requires (ev.Fork? ==> ev.child !in e) && (ev.AddVma? ==> ev.vma.start <= ev.vma.end)
    ensures EagerStep(e, ev) == WholeStep(e, ev) && PagesWithin(EagerStep(e, ev))
  {
    assert ProcWithin(e[ev.p]);
    match ev {
      case Fork(p, c) => ForkAgreesIff(e, p, c);
      case Read(p, va) => TouchWithin(e[p], va, Touched(e[p], VpnOf(va)));
      case Write(p, va, w) => TouchWithin(e[p], va, Touched(e[p], VpnOf(va))[WordIndex(va) := w]);
      case Load(p, va, content) => TouchWithin(e[p], va, content);
      case AddVma(p, vma) =>
        forall v: Vpn | v in e[p].pages
          ensures v in AllPages(e[p].vmas + [vma])
        {
          AllPagesAppend(e[p].vmas, vma, v);
        }
      case Exec(p) =>
      case Reap(p) =>
    }
  }

  /** Over every run whose accesses stay on the pages of the VMAs, copy-on-write fork cannot be told from a fork that
      copies the whole user half at once. */
  lemma {:induction false} CopyOnWriteRefinesWholeCopy(s: Sys, evs: seq<Event>)
    requires SysInv(s) && CanRunEvents(s, evs) && PagesWithin(Abs(s)) && GuardedRun(s, evs)
    ensures WholeCanRun(Abs(s), evs) && Abs(Run(s, evs)) == WholeRun(Abs(s), evs) && PagesWithin(Abs(Run(s, evs)))
    decreases |evs|
  {
    if evs != [] {
      StepRefines(s, evs[0]);
      GuardedStep(Abs(s), evs[0]);
      CopyOnWriteRefinesWholeCopy(Step(s, evs[0]), evs[1..]);
    }
  }

  // ----- exactly when a run copies everything

  /** At every fork of the run, all pages of the parent are pages that fork visits. */
  ghost predicate ForksWithin(s: Sys, evs: seq<Event>)
    requires CanRunEvents(s, evs)
    decreases |evs|
  {
    || evs == []
    || ((evs[0].Fork? ==> evs[0].p in Abs(s) && ProcWithin(Abs(s)[evs[0].p])) && ForksWithin(Step(s, evs[0]), evs[1..]))
  }

  ghost predicate SameRun(s: Sys, e: Eager, evs: seq<Event>) {
    CanRunEvents(s, evs) && WholeCanRun(e, evs) && Abs(Run(s, evs)) == WholeRun(e, evs)
  }

  /** After the first `k` events every process reads what it reads when fork copies the whole user half. */
  ghost predicate SameAfter(s: Sys, evs: seq<Event>, k: nat)
    requires k <= |evs|
  {
    SameRun(s, Abs(s), evs[..k])
  }

  /** Every step does what it does in the reference. */
  ghost predicate Lockstep(s: Sys, evs: seq<Event>)
    requires CanRunEvents(s, evs)
    decreases |evs|
  {
    || evs == []
    || (EagerEnabled(Abs(s), evs[0]) && Abs(Step(s, evs[0])) == WholeStep(Abs(s), evs[0])
        && Lockstep(Step(s, evs[0]), evs[1..]))
  }

  lemma RunSplits(s: Sys, ev: Event, rest: seq<Event>, evs: seq<Event>)
    requires evs == [ev] + rest && Enabled(s, ev)
    ensures CanRunEvents(s, evs) <==> CanRunEvents(Step(s, ev), rest)
    ensures CanRunEvents(s, evs) ==> Run(s, evs) == Run(Step(s, ev), rest)
  {
    assert evs[0] == ev && evs[1..] == rest;
  }

  lemma WholeRunSplits(e: Eager, ev: Event, rest: seq<Event>, evs: seq<Event>)
    requires evs == [ev] + rest
    ensures WholeCanRun(e, evs) <==> EagerEnabled(e, ev) && WholeCanRun(WholeStep(e, ev), rest)
    ensures WholeCanRun(e, evs) ==> WholeRun(e, evs) == WholeRun(WholeStep(e, ev), rest)
  {
    assert evs[0] == ev && evs[1..] == rest;
  }

  lemma SameRunSplits(s: Sys, e: Eager, ev: Event, rest: seq<Event>, evs: seq<Event>)
    requires evs == [ev] + rest && Enabled(s, ev) && EagerEnabled(e, ev)
    ensures SameRun(s, e, evs) <==> SameRun(Step(s, ev), WholeStep(e, ev), rest)
  {
    RunSplits(s, ev, rest, evs);
    WholeRunSplits(e, ev, rest, evs);
  }

  lemma PrefixSplits(evs: seq<Event>, k: nat)
    requires k < |evs|
    ensures evs[..k + 1] == [evs[0]] + evs[1..][..k]
  {
  }

  lemma SameAfterNext(s: Sys, evs: seq<Event>, k: nat, s1: Sys)
    requires evs != [] && Enabled(s, evs[0]) && k < |evs| && s1 == Step(s, evs[0])
    requires EagerEnabled(Abs(s), evs[0]) && Abs(s1) == WholeStep(Abs(s), evs[0])
    ensures SameAfter(s, evs, k + 1) <==> SameAfter(s1, evs[1..], k)
  {
    PrefixSplits(evs, k);
    SameRunSplits(s, Abs(s), evs[0], evs[1..][..k], evs[..k + 1]);
  }

  lemma SameAfterOne(s: Sys, evs: seq<Event>, s1: Sys)
    requires evs != [] && Enabled(s, evs[0]) && s1 == Step(s, evs[0])
    ensures SameAfter(s, evs, 0)
    ensures SameAfter(s, evs, 1) ==> EagerEnabled(Abs(s), evs[0]) && Abs(s1) == WholeStep(Abs(s), evs[0])
  {
    assert evs[..0] == [] && evs[..1] == [evs[0]] + [];
    WholeRunSplits(Abs(s), evs[0], [], evs[..1]);
    if EagerEnabled(Abs(s), evs[0]) {
      SameRunSplits(s, Abs(s), evs[0], [], evs[..1]);
    }
  }

  lemma {:induction false} LockstepIff(s: Sys, evs: seq<Event>)
    requires CanRunEvents(s, evs)
    ensures Lockstep(s, evs) <==> forall k :: 0 <= k <= |evs| ==> SameAfter(s, evs, k)
    decreases |evs|
  {
    if evs == [] {
      assert evs[..0] == [];
    } else {
      var s1, rest := Step(s, evs[0]), evs[1..];
      SameAfterOne(s, evs, s1);
      LockstepIff(s1, rest);
      if EagerEnabled(Abs(s), evs[0]) && Abs(s1) == WholeStep(Abs(s), evs[0]) {
        forall k | 0 <= k < |evs|
          ensures SameAfter(s, evs, k + 1) <==> SameAfter(s1, rest, k)
        {
          SameAfterNext(s, evs, k, s1);
        }
        forall k | 0 < k <= |evs|
          ensures SameAfter(s, evs, k) <==> SameAfter(s1, rest, k - 1)
        {
          SameAfterNext(s, evs, k - 1, s1);
        }
      }
    }
  }

  lemma StepAgreesIff(e: Eager, ev: Event)
    requires EagerEnabled(e, ev) && (ev.Fork? ==> ev.child !in e)
    ensures EagerStep(e, ev) == WholeStep(e, ev) <==> (ev.Fork? ==> ProcWithin(e[ev.p]))
  {
    if ev.Fork? {
      ForkAgreesIff(e, ev.p, ev.child);
    }
  }

  lemma {:induction false} ForksWithinIff(s: Sys, evs: seq<Event>)
    requires SysInv(s) && CanRunEvents(s, evs)
    ensures Lockstep(s, evs) <==> ForksWithin(s, evs)
    decreases |evs|
  {
    if evs != [] {
      StepRefines(s, evs[0]);
      StepAgreesIff(Abs(s), evs[0]);
      ForksWithinIff(Step(s, evs[0]), evs[1..]);
    }
  }

  /** Over every run, copy-on-write fork cannot be told at any moment from a fork that copies the whole user half if and
      only if every fork finds all pages of the parent within the VMAs. */
  lemma WholeCopyIff(s: Sys, evs: seq<Event>)
    requires SysInv(s) && CanRunEvents(s, evs)
    ensures (forall k :: 0 <= k <= |evs| ==> SameAfter(s, evs, k)) <==> ForksWithin(s, evs)
  {
    LockstepIff(s, evs);
    ForksWithinIff(s, evs);
  }

  // ----- where they part

  /** The event is a user access or a load at address `va`. */
  predicate Touches(ev: Event, va: nat) {
    match ev
    case Read(p, x) => x == va
    case Write(p, x, w) => x == va
    case Load(p, x, content) => x == va
    case _ => false
  }

  lemma TouchedPage(e: Eager, ev: Event, va: nat)
    requires EagerEnabled(e, ev) && Touches(ev, va)
    ensures var e1 := EagerStep(e, ev);
            ev.p in e1 && e1[ev.p].vmas == e[ev.p].vmas && VpnOf(va) in e1[ev.p].pages
            && forall v: Vpn :: v in e1[ev.p].pages <==> v in e[ev.p].pages || v == VpnOf(va)
  {
  }

  lemma EagerForkAfterAccess(e: Eager, e1: Eager, ev: Event, va: nat, c: nat)
    requires PagesWithin(e) && EagerEnabled(e, ev) && Touches(ev, va) && e1 == EagerStep(e, ev) && c !in e1
    ensures EagerEnabled(e1, Fork(ev.p, c))
    ensures EagerStep(e1, Fork(ev.p, c)) == WholeStep(e1, Fork(ev.p, c)) <==> VpnOf(va) in AllPages(e[ev.p].vmas)
  {
    assert ProcWithin(e[ev.p]);
    TouchedPage(e, ev, va);
    ForkAgreesIff(e1, ev.p, c);
  }

  /** The fork that follows an access copies the whole address space if and only if the access was on a page of a
      VMA. */
  lemma ForkAfterAccessIff(s: Sys, ev: Event, va: nat, s1: Sys, c: nat)
    requires SysInv(s) && PagesWithin(Abs(s)) && Enabled(s, ev) && Touches(ev, va) && s1 == Step(s, ev)
             && CanFork(s1, ev.p, c)
    requires Canonical(va) && forall a :: a in s.procs[ev.p].vmas ==> Canonical(a.start) && Canonical(a.end)
    ensures EagerEnabled(Abs(s1), Fork(ev.p, c))
    ensures Abs(Step(s1, Fork(ev.p, c))) == WholeStep(Abs(s1), Fork(ev.p, c)) <==> OnVmaPage(s.procs[ev.p].vmas, va)
  {
    StepRefines(s, ev);
    EagerForkAfterAccess(Abs(s), Abs(s1), ev, va, c);
    StepRefines(s1, Fork(ev.p, c));
    VisitedIff(s.procs[ev.p].vmas, va);
  }

  /** The canonical address at which a page begins. */
  function AddressOf(v: Vpn): nat {
    (if v[0] < 256 then 0 else 0xffff_0000_0000_0000) + (((v[0] * 512 + v[1]) * 512 + v[2]) * 512 + v[3]) * 0x1000
  }

  lemma Digits(a: nat, b: nat, c: nat, d: nat, high: nat)
    requires a < 512 && b < 512 && c < 512 && d < 512
    ensures var n := high * 0x10_0000_0000 + ((a * 512 + b) * 512 + c) * 512 + d;
            n % 512 == d && n / 512 % 512 == c && n / 512 / 512 % 512 == b && n / 512 / 512 / 512 % 512 == a
  {
    var n := high * 0x10_0000_0000 + ((a * 512 + b) * 512 + c) * 512 + d;
    assert n / 512 == high * 0x800_0000 + (a * 512 + b) * 512 + c;
    assert n / 512 / 512 == high * 0x4_0000 + a * 512 + b;
    assert n / 512 / 512 / 512 == high * 512 + a;
  }

  lemma AddressOfOk(v: Vpn)
    ensures Canonical(AddressOf(v)) && VpnOf(AddressOf(v)) == v
  {
    var high := if v[0] < 256 then 0 else 0xffff;
    var n := high * 0x10_0000_0000 + ((v[0] * 512 + v[1]) * 512 + v[2]) * 512 + v[3];
    Digits(v[0], v[1], v[2], v[3], high);
    var va := AddressOf(v);
    assert va == n * 0x1000;
    assert va / 0x1000 == n && va / 0x20_0000 == n / 512 && va / 0x4000_0000 == n / 512 / 512
           && va / 0x80_0000_0000 == n / 512 / 512 / 512;
  }

  /** fork copies the whole address space if and only if every address that reads something is on a page of a VMA. */
  lemma ForkCopiesAllIff(s: Sys, p: nat, c: nat)
    requires SysInv(s) && CanFork(s, p, c) && forall a :: a in s.procs[p].vmas ==>
             Canonical(a.start) && Canonical(a.end)
    ensures Abs(ForkStep(s, p, c))[c].pages == Abs(s)[p].pages
            <==> forall va: nat :: Canonical(va) && VpnOf(va) in Abs(s)[p].pages ==> OnVmaPage(s.procs[p].vmas, va)
  {
    var vmas, pages := s.procs[p].vmas, Abs(s)[p].pages;
    ForkCopiesVisitedIff(s, p, c);
    if forall va: nat :: Canonical(va) && VpnOf(va) in pages ==> OnVmaPage(vmas, va) {
      forall v: Vpn | v in pages
        ensures v in AllPages(vmas)
      {
        AddressOfOk(v);
        VisitedIff(vmas, AddressOf(v));
      }
    }
    if forall v: Vpn :: v in pages ==> v in AllPages(vmas) {
      forall va: nat | Canonical(va) && VpnOf(va) in pages
        ensures OnVmaPage(vmas, va)
      {
        VisitedIff(vmas, va);
      }
    }
  }

  // ----- the run that loses a page

  lemma {:induction false} MappedAtMost(m: Machine, r: nat, vs: seq<Vpn>)
    requires r < |m.mem|
    ensures MappedAmong(m, r, vs) <= |vs|
    decreases |vs|
  {
    if vs != [] {
      MappedAtMost(m, r, vs[1..]);
    }
  }

  /** Two frames, and three for each page of the VMAs, are enough for a fork. */
  lemma EnoughToFork(s: Sys, p: nat, c: nat)
    requires SysInv(s) && p in s.procs && c !in s.procs && |s.m.free| >= 2 + 3 * |AllPages(s.procs[p].vmas)|
    ensures CanFork(s, p, c)
  {
    NewSpaceOk(s.m);
    var (m1, r) := NewSpace(s.m);
    AllPagesUser(s.procs[p].vmas);
    MappedAtMost(m1, s.procs[p].root, AllPages(s.procs[p].vmas));
    ThreePerPageLast(m1, s.procs[p].root, r, AllPages(s.procs[p].vmas));
  }

  /** A stack whose end starts a page of the user half. */
  ghost predicate EndsOnPage(a: Vma) {
    VmaOk(a) && a.kind == Stack && a.end % PAGE_SIZE == 0 && UserPage(VpnOf(a.end))
  }

  /** A stack VMA of the process contains the address, and nothing has touched its page yet. */
  ghost predicate Untouched(s: Sys, p: nat, va: nat) {
    && SysInv(s) && p in s.procs && UserPage(VpnOf(va)) && Walk(s.m, s.procs[p].root, VpnOf(va)) == None
    && CheckVma(s.procs[p].vmas, va).Some? && CheckVma(s.procs[p].vmas, va).value.kind == Stack
  }

  /** A process with such a stack, whose end page no VMA covers and nothing has touched yet. */
  ghost predicate EndUntouched(s: Sys, p: nat, a: Vma) {
    && Untouched(s, p, a.end) && EndsOnPage(a) && CheckVma(s.procs[p].vmas, a.end) == Some(a)
    && VpnOf(a.end) !in AllPages(s.procs[p].vmas)
  }

  /** As long as the stack is its only VMA, no VMA covers the end page. */
  lemma LoneStack(s: Sys, p: nat, a: Vma)
    requires SysInv(s) && p in s.procs && EndsOnPage(a) && s.procs[p].vmas == [a]
    ensures EndUntouched(s, p, a) <==> Walk(s.m, s.procs[p].root, VpnOf(a.end)) == None
  {
    EndPageNotVisited(a);
    PagesOfListed([a], VpnOf(a.end));
  }

  lemma StackReadMaps(m: Machine, r: nat, vmas: seq<Vma>, va: nat)
    requires CanTakeAndMap(m, r, VpnOf(va)) && Walk(m, r, VpnOf(va)) == None
    requires CheckVma(vmas, va).Some? && CheckVma(vmas, va).value.kind == Stack
    ensures CanTouch(m, r, vmas, va, false)
    ensures Access(m, r, vmas, va, false) == Resumed(MapFresh(m, r, VpnOf(va), ZeroFrame()))
  {
    PermittedIff(m, r, VpnOf(va), false);
  }

  /** The handler lets the process read the address, and the page is there then. */
  lemma StackIsReadable(s: Sys, p: nat, va: nat)
    requires Untouched(s, p, va) && |s.m.free| >= 4
    ensures Enabled(s, Read(p, va))
    ensures var s1 := Step(s, Read(p, va));
            && s1.procs == s.procs && |s1.m.free| >= |s.m.free| - 4 && IsRoot(s1.m, s.procs[p].root)
            && Walk(s1.m, s.procs[p].root, VpnOf(va)).Some? && (Exact(s.m) ==> Exact(s1.m))
  {
    var r, v := s.procs[p].root, VpnOf(va);
    StackReadMaps(s.m, r, s.procs[p].vmas, va);
    CompletesIff(s.m, r, s.procs[p].vmas, va, false);
    MapFreshOk(s.m, r, v, ZeroFrame());
  }

  lemma ReadThenFork(s: Sys, p: nat, va: nat, c: nat)
    requires Untouched(s, p, va) && c !in s.procs && |s.m.free| >= 6 + 3 * |AllPages(s.procs[p].vmas)|
    ensures Enabled(s, Read(p, va)) && Enabled(Step(s, Read(p, va)), Fork(p, c))
  {
    StackIsReadable(s, p, va);
    StepRefines(s, Read(p, va));
    EnoughToFork(Step(s, Read(p, va)), p, c);
  }

  lemma EagerChildLacks(e: Eager, p: nat, va: nat, c: nat)
    requires p in e && c !in e && (forall a :: a in e[p].vmas ==> a.start <= a.end) && VpnOf(va) !in AllPages(e[p].vmas)
    ensures EagerEnabled(e, Read(p, va))
    ensures var e1 := EagerStep(e, Read(p, va));
            EagerEnabled(e1, Fork(p, c))
            && var e2 := EagerStep(e1, Fork(p, c));
               p in e2 && c in e2 && VpnOf(va) in e2[p].pages && VpnOf(va) !in e2[c].pages
  {
  }

  lemma RefinesTwice(s: Sys, ev: Event, next: Event)
    requires SysInv(s) && Enabled(s, ev) && Enabled(Step(s, ev), next)
    ensures EagerEnabled(Abs(s), ev) && EagerEnabled(EagerStep(Abs(s), ev), next)
    ensures Abs(Step(Step(s, ev), next)) == EagerStep(EagerStep(Abs(s), ev), next)
  {
    StepRefines(s, ev);
    StepRefines(Step(s, ev), next);
  }

  /** A process reads the end address of its stack and forks: it keeps the page, the child does not get it. */
  lemma ForkLosesEndPage(s: Sys, p: nat, a: Vma, c: nat)
    requires EndUntouched(s, p, a) && c !in s.procs && |s.m.free| >= 6 + 3 * |AllPages(s.procs[p].vmas)|
    ensures Enabled(s, Read(p, a.end)) && Enabled(Step(s, Read(p, a.end)), Fork(p, c))
    ensures var s2 := Step(Step(s, Read(p, a.end)), Fork(p, c));
            p in Abs(s2) && c in Abs(s2) && VpnOf(a.end) in Abs(s2)[p].pages && VpnOf(a.end) !in Abs(s2)[c].pages
  {
    ReadThenFork(s, p, a.end, c);
    RefinesTwice(s, Read(p, a.end), Fork(p, c));
    EagerChildLacks(Abs(s), p, a.end, c);
  }

  const USTACK: nat := 0xffff_fe00_0000_0000
  const USTACK_SIZE: nat := 0x1_0000

  lemma StackPages(i: nat)
    requires i < 16
    ensures UserPage(VpnOf(USTACK - USTACK_SIZE + i * PAGE_SIZE)) && UserPage(VpnOf(USTACK))
  {
    assert (USTACK - USTACK_SIZE + i * PAGE_SIZE) / 0x80_0000_0000 == 0x1ff_fffb;
    assert USTACK / 0x80_0000_0000 == 0x1ff_fffc;
  }

  /** The stack that every program gets is such a stack. */
  lemma ProgramStackEndsOnPage(a: Vma)
    requires a == Vma(USTACK - USTACK_SIZE, USTACK, Stack)
    ensures EndsOnPage(a)
  {
    PageNumbers(a);
    assert |PagesOf(a)| == 16 && ScaleDown(a.start) == USTACK - USTACK_SIZE;
    StackPages(0);
    forall i | 0 <= i < |PagesOf(a)|
      ensures UserPage(PagesOf(a)[i])
    {
      StackPages(i);
    }
  }

  // ----- the run that miscounts

  lemma ForkMiscountsAgain(s1: Sys, p: nat, c: nat, v: Vpn, i: nat, j: nat)
    requires SysInv(s1) && CanFork(s1, p, c) && IsRoot(s1.m, s1.procs[p].root) && Walk(s1.m, s1.procs[p].root, v).Some?
    requires i < j < |AllPages(s1.procs[p].vmas)| && AllPages(s1.procs[p].vmas)[i] == AllPages(s1.procs[p].vmas)[j] == v
    ensures !Exact(ForkStep(s1, p, c).m)
  {
    ForkExactIff(s1, p, c);
  }

  /** The pages of the second VMA come behind those of the first. */
  lemma InBoth(a: Vma, b: Vma, v: Vpn) returns (i: nat, j: nat)
    requires a.start <= a.end && b.start <= b.end && v in PagesOf(a) && v in PagesOf(b)
    ensures i < j < |AllPages([a, b])| && AllPages([a, b])[i] == AllPages([a, b])[j] == v
  {
    i :| 0 <= i < |PagesOf(a)| && PagesOf(a)[i] == v;
    var k :| 0 <= k < |PagesOf(b)| && PagesOf(b)[k] == v;
    j := |PagesOf(a)| + k;
    assert [a, b][1..] == [b] && [b][1..] == [];
    assert AllPages([b]) == PagesOf(b) + [] && AllPages([a, b]) == PagesOf(a) + AllPages([b]);
  }

  /** Two VMAs share a page, a process reads there and forks: some frame is then counted more often than it is
      mapped. */
  lemma ForkMiscounts(s: Sys, p: nat, a: Vma, b: Vma, va: nat, c: nat)
    requires Untouched(s, p, va) && Exact(s.m) && s.procs[p].vmas == [a, b]
    requires a.start <= a.end && b.start <= b.end && VpnOf(va) in PagesOf(a) && VpnOf(va) in PagesOf(b)
    requires c !in s.procs && |s.m.free| >= 6 + 3 * |AllPages([a, b])|
    ensures Enabled(s, Read(p, va)) && Enabled(Step(s, Read(p, va)), Fork(p, c))
    ensures Exact(Step(s, Read(p, va)).m) && !Exact(Step(Step(s, Read(p, va)), Fork(p, c)).m)
  {
    ReadThenFork(s, p, va, c);
    StackIsReadable(s, p, va);
    StepRefines(s, Read(p, va));
    var i, j := InBoth(a, b, VpnOf(va));
    ForkMiscountsAgain(Step(s, Read(p, va)), p, c, VpnOf(va), i, j);
  }
}
