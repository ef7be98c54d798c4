/** What follows about fork, faults and addresses, and where the kernel falls short of copying at fork. */
module MemoryFacts {
  import opened Lists
  import opened Frames
  import opened PageTables
  import opened AddressSpaces
  import opened CopyOnWrite
  import opened Forking
  import opened Processes
  import opened DirectMap

  // ----- addresses

  /** Two addresses share a page-table entry exactly when they agree on bits 12 to 47. */
  lemma SameVpnIff(a: nat, b: nat)
    ensures VpnOf(a) == VpnOf(b) <==> a / 0x1000 % 0x10_0000_0000 == b / 0x1000 % 0x10_0000_0000
  {
    Indices(a);
    Indices(b);
    var x, y := a / 0x1000, b / 0x1000;
    SplitTop(x, y);
    SplitMiddle(x / 512, y / 512);
    SplitBottom(x / 512 / 512, y / 512 / 512);
    var v, u := VpnOf(a), VpnOf(b);
    assert v == u <==> v[0] == u[0] && v[1] == u[1] && v[2] == u[2] && v[3] == u[3];
  }

  lemma SplitTop(x: nat, y: nat)
    ensures x % 0x10_0000_0000 == y % 0x10_0000_0000
            <==> x % 512 == y % 512 && x / 512 % 0x800_0000 == y / 512 % 0x800_0000
  {
    assert forall z: nat {:trigger z / 512} :: z % 0x10_0000_0000 == z / 512 % 0x800_0000 * 512 + z % 512;
  }

  lemma SplitMiddle(x: nat, y: nat)
    ensures x % 0x800_0000 == y % 0x800_0000 <==> x % 512 == y % 512 && x / 512 % 0x4_0000 == y / 512 % 0x4_0000
  {
    assert forall z: nat {:trigger z / 512} :: z % 0x800_0000 == z / 512 % 0x4_0000 * 512 + z % 512;
  }

  lemma SplitBottom(x: nat, y: nat)
    ensures x % 0x4_0000 == y % 0x4_0000 <==> x % 512 == y % 512 && x / 512 % 512 == y / 512 % 512
  {
    assert forall z: nat {:trigger z / 512} :: z % 0x4_0000 == z / 512 % 512 * 512 + z % 512;
  }

  /** set_mapping and get_pte_entry by address: afterwards every address of the page, and no other, reads the stored
      entry, in this address space only. */
  lemma SetMappingByAddress(m: Machine, r: nat, va: nat, w: Word, q: nat, va': nat)
    requires CanMap(m, r, VpnOf(va)) && UserPage(VpnOf(va)) && Present(w) && ForUser(w) && w.pfn < |m.mem|
             && m.role[w.pfn] == Data
    requires IsRoot(m, q)
    ensures Walk(SetMapping(m, r, VpnOf(va), w), q, VpnOf(va'))
            == if q == r && va / 0x1000 % 0x10_0000_0000 == va' / 0x1000 % 0x10_0000_0000 then Some(w)
               else Walk(m, q, VpnOf(va'))
  {
    SetMappingIsUpdate(m, r, VpnOf(va), w);
    SameVpnIff(va, va');
  }

  /** A page of the kernel half, once the kernel's top entry is there: every address space that has that entry reads the
      new mapping, and no other address reads differently anywhere. */
  lemma KernelMappingByAddress(m: Machine, va: nat, w: Word, q: nat, va': nat)
    requires CanMap(m, m.kroot, VpnOf(va)) && !UserPage(VpnOf(va)) && Present(w) && w.pfn < |m.mem|
    requires IsRoot(m, q) && Present(m.mem[m.kroot][511])
    ensures Walk(SetMapping(m, m.kroot, VpnOf(va), w), q, VpnOf(va'))
            == if Present(m.mem[q][511]) && va / 0x1000 % 0x10_0000_0000 == va' / 0x1000 % 0x10_0000_0000 then Some(w)
               else Walk(m, q, VpnOf(va'))
  {
    SameVpnIff(va, va');
    KernelMapping(m, VpnOf(va), w, q, VpnOf(va'));
  }

  lemma KernelMapping(m: Machine, v: Vpn, w: Word, q: nat, u: Vpn)
    requires CanMap(m, m.kroot, v) && v[0] == 511 && Present(w) && w.pfn < |m.mem|
    requires IsRoot(m, q) && Present(m.mem[m.kroot][511])
    ensures Walk(SetMapping(m, m.kroot, v, w), q, u) == if Present(m.mem[q][511]) && u == v then Some(w)
            else Walk(m, q, u)
  {
    var r := m.kroot;
    assert OnPath(m, r, v, 0);
    SetAtOk(m, r, v, 0, w);
    if u == v {
      KernelTable(m, v, w, SetMapping(m, r, v, w));
      if Present(m.mem[q][511]) {
        SharedTop(m, q);
      }
    }
  }

  /** The page is stored below the kernel's top entry, and no PML4 changes. */
  lemma KernelTable(m: Machine, v: Vpn, w: Word, m': Machine)
    requires CanMap(m, m.kroot, v) && v[0] == 511 && Present(w) && w.pfn < |m.mem| && Present(m.mem[m.kroot][511])
    requires IsRoot(m, m.kroot) && m' == SetMapping(m, m.kroot, v, w)
    ensures m.mem[m.kroot][511].pfn < |m'.mem| == |m.mem| && Descend(m', m.mem[m.kroot][511].pfn, v, 1) == Some(w)
    ensures forall q: nat :: IsRoot(m, q) ==> m'.mem[q] == m.mem[q]
  {
    var c := m.mem[m.kroot][511].pfn;
    assert OnPath(m, m.kroot, v, 0);
    ChildOnPath(m, m.kroot, v, 0);
    SetAtOk(m, c, v, 1, w);
    SetAtUnfold(m, m.kroot, v, 0, w, m, c);
    UpperTablesKept(m, m', c, v, w);
  }

  lemma UpperTablesKept(m: Machine, m': Machine, c: nat, v: Vpn, w: Word)
    requires Sized(m) && OnPath(m, c, v, 1) && Stored(m, m', c, v, 1, w)
    ensures |m'.mem| == |m.mem| && Descend(m', c, v, 1) == Some(w)
    ensures forall q: nat :: IsRoot(m, q) ==> m'.mem[q] == m.mem[q]
  {
  }

  /** All address spaces share the table behind the top entry of the kernel half. */
  lemma SharedTop(m: Machine, q: nat)
    requires Shape(m) && IsRoot(m, q) && IsRoot(m, m.kroot) && Present(m.mem[q][511])
    ensures Present(m.mem[m.kroot][511]) && m.mem[q][511].pfn == m.mem[m.kroot][511].pfn
  {
    assert TableOk(m, q) && EntryOk(m, q, 511);
    assert ParentOk(m, m.mem[q][511].pfn);
  }

  // ----- what each event does to what processes read

  /** All processes but `p` are as they were. */
  ghost predicate OthersSame(e: Eager, e': Eager, p: nat) {
    && (forall q :: q != p ==> (q in e' <==> q in e))
    && (forall q :: q in e && q != p ==> q in e' && e'[q] == e[q])
  }

  /** The child has its parent's VMAs, and of its pages those that fork visits, with their contents. */
  lemma ForkEffect(s: Sys, p: nat, c: nat)
    requires SysInv(s) && CanFork(s, p, c)
    ensures var e, e' := Abs(s), Abs(Step(s, Fork(p, c)));
            && OthersSame(e, e', c) && c in e' && p in e && e'[c].vmas == e[p].vmas
            && (forall v: Vpn :: v in e'[c].pages <==> v in e[p].pages && v in AllPages(e[p].vmas))
            && (forall v: Vpn :: v in e'[c].pages ==> e'[c].pages[v] == e[p].pages[v])
  {
    StepRefines(s, Fork(p, c));
  }

  /** Page `v` of `p` is there, and what it had is as it was; a page that is new is page `v`, filled with zeros. */
  ghost predicate Appeared(e: Eager, e': Eager, p: nat, v: Vpn) {
    && OthersSame(e, e', p) && p in e && p in e' && e'[p].vmas == e[p].vmas && v in e'[p].pages
    && (forall u: Vpn :: u in e[p].pages ==> u in e'[p].pages && e'[p].pages[u] == e[p].pages[u])
    && (forall u: Vpn :: u in e'[p].pages && u !in e[p].pages ==>
          u == v && forall i :: 0 <= i < 512 ==> e'[p].pages[u][i] == ZERO_WORD)
  }

  lemma EagerRead(e: Eager, p: nat, va: nat)
    requires p in e
    ensures Appeared(e, EagerStep(e, Read(p, va)), p, VpnOf(va))
  {
  }

  /** What a read does: an absent page appears, filled with zeros, and nothing else changes. */
  lemma ReadEffect(s: Sys, p: nat, va: nat)
    requires SysInv(s) && CanAccess(s, p, va, false)
    ensures Appeared(Abs(s), Abs(Step(s, Read(p, va))), p, VpnOf(va))
  {
    StepRefines(s, Read(p, va));
    EagerRead(Abs(s), p, va);
  }

  /** Page `v` of `p` reads `content`; every other page is as it was. */
  ghost predicate Loaded(e: Eager, e': Eager, p: nat, v: Vpn, content: Frame) {
    && OthersSame(e, e', p) && p in e && p in e' && e'[p].vmas == e[p].vmas
    && v in e'[p].pages && e'[p].pages[v] == content
    && (forall u: Vpn :: u != v ==> (u in e'[p].pages <==> u in e[p].pages))
    && (forall u: Vpn :: u in e[p].pages && u != v ==> e'[p].pages[u] == e[p].pages[u])
  }

  lemma EagerLoad(e: Eager, p: nat, va: nat, content: Frame)
    requires p in e
    ensures Loaded(e, EagerStep(e, Load(p, va, content)), p, VpnOf(va), content)
  {
  }

  /** The loader's page reads as it was loaded. */
  lemma LoadEffect(s: Sys, p: nat, va: nat, content: Frame)
    requires SysInv(s) && CanLoad(s, p, va)
    ensures Loaded(Abs(s), Abs(Step(s, Load(p, va, content))), p, VpnOf(va), content)
  {
    StepRefines(s, Load(p, va, content));
    EagerLoad(Abs(s), p, va, content);
  }

  /** A new VMA is found where no earlier one contains the address; no page changes. */
  lemma AddVmaEffect(s: Sys, p: nat, vma: Vma, va: nat)
    requires SysInv(s) && p in s.procs && VmaOk(vma)
    ensures var e, e' := Abs(s), Abs(Step(s, AddVma(p, vma)));
            && OthersSame(e, e', p) && p in e' && e'[p].pages == e[p].pages
            && CheckVma(e'[p].vmas, va)
               == if CheckVma(e[p].vmas, va).Some? then CheckVma(e[p].vmas, va)
                  else if vma.start <= va <= vma.end then Some(vma) else None
  {
    StepRefines(s, AddVma(p, vma));
    CheckVmaBehind(s.procs[p].vmas, vma, va);
  }

  lemma {:induction false} CheckVmaBehind(vmas: seq<Vma>, vma: Vma, va: nat)
    ensures CheckVma(vmas + [vma], va)
            == if CheckVma(vmas, va).Some? then CheckVma(vmas, va) else if vma.start <= va <= vma.end then Some(vma)
                else None
  {
    if vmas == [] {
      assert vmas + [vma] == [vma] && [vma][1..] == [];
    } else {
      assert (vmas + [vma])[1..] == vmas[1..] + [vma];
      CheckVmaBehind(vmas[1..], vma, va);
    }
  }

  /** exec leaves the process neither a page nor a VMA. */
  lemma ExecEffect(s: Sys, p: nat)
    requires SysInv(s) && CanClear(s, p)
    ensures var e, e' := Abs(s), Abs(Step(s, Exec(p)));
            OthersSame(e, e', p) && p in e' && e'[p].vmas == [] && forall v: Vpn :: v !in e'[p].pages
  {
    StepRefines(s, Exec(p));
  }

  /** The end of a process leaves the others as they are. */
  lemma ReapEffect(s: Sys, p: nat)
    requires SysInv(s) && CanClear(s, p)
    ensures OthersSame(Abs(s), Abs(Step(s, Reap(p))), p) && p !in Abs(Step(s, Reap(p)))
  {
    StepRefines(s, Reap(p));
  }

  // ----- the user's words

  /** The word of a process at an address. */
  ghost function WordAt(e: EagerProc, va: nat): Option<Word> {
    if VpnOf(va) in e.pages then Some(e.pages[VpnOf(va)][va / 8 % 512]) else None
  }

  lemma SameWordIff(va: nat, va': nat)
    ensures VpnOf(va) == VpnOf(va') && va / 8 % 512 == va' / 8 % 512
            <==> va / 8 % 0x2000_0000_0000 == va' / 8 % 0x2000_0000_0000
  {
    SameVpnIff(va, va');
    WordDigits(va / 8, va' / 8);
    assert va / 8 / 512 == va / 0x1000 && va' / 8 / 512 == va' / 0x1000;
  }

  lemma WordDigits(x: nat, y: nat)
    ensures x % 0x2000_0000_0000 == y % 0x2000_0000_0000
            <==> x % 512 == y % 512 && x / 512 % 0x10_0000_0000 == y / 512 % 0x10_0000_0000
  {
    WordSplits(x);
    WordSplits(y);
  }

  lemma WordSplits(x: nat)
    ensures x % 0x2000_0000_0000 == x / 512 % 0x10_0000_0000 * 512 + x % 512
  {
    var q, r := x / 0x2000_0000_0000, x % 0x2000_0000_0000;
    assert x == q * 0x2000_0000_0000 + r;
    assert x / 512 == q * 0x10_0000_0000 + r / 512;
  }

  /** A store by address: the process reads the stored word at exactly the addresses that agree in bits 3 to 47. All
      other words, its own and everybody's, are as before, and zero on a page that came to be by this store. */
  lemma WriteByAddress(s: Sys, p: nat, va: nat, w: Word, q: nat, va': nat)
    requires SysInv(s) && Enabled(s, Write(p, va, w)) && q in s.procs
    ensures var s' := Step(s, Write(p, va, w));
            && p in Abs(s') && q in Abs(s')
            && WordAt(Abs(s')[q], va')
               == if q == p && va / 8 % 0x2000_0000_0000 == va' / 8 % 0x2000_0000_0000 then Some(w)
                  else if q == p && VpnOf(va') == VpnOf(va) && WordAt(Abs(s)[p], va') == None then Some(ZERO_WORD)
                  else WordAt(Abs(s)[q], va')
  {
    StepRefines(s, Write(p, va, w));
    SameWordIff(va, va');
    EagerWrite(Abs(s), p, va, w, q, va');
  }

  lemma EagerWrite(e: Eager, p: nat, va: nat, w: Word, q: nat, va': nat)
    requires p in e && q in e
    ensures var e' := EagerStep(e, Write(p, va, w));
            && p in e' && q in e'
            && WordAt(e'[q], va')
               == if q == p && VpnOf(va) == VpnOf(va') && va / 8 % 512 == va' / 8 % 512 then Some(w)
                  else if q == p && VpnOf(va') == VpnOf(va) && WordAt(e[p], va') == None then Some(ZERO_WORD)
                  else WordAt(e[q], va')
  {
  }

  // ----- fork

  /** No page of the list that is mapped occurs twice. */
  ghost predicate MappedOnce(m: Machine, r: nat, vs: seq<Vpn>)
    requires r < |m.mem|
  {
    forall i, j :: 0 <= i < j < |vs| && vs[i] == vs[j] ==> Walk(m, r, vs[i]) == None
  }

  /** fork keeps the counts exact if and only if no mapped page lies in two VMAs. */
  lemma ForkExactIff(s: Sys, p: nat, c: nat)
    requires SysInv(s) && CanFork(s, p, c)
    ensures Exact(ForkStep(s, p, c).m) <==> Exact(s.m) && MappedOnce(s.m, s.procs[p].root, AllPages(s.procs[p].vmas))
  {
    var m1, cr := ForkShares(s, p, c);
    ForkExact(s.m, m1, ForkStep(s, p, c).m, s.procs[p].root, cr, AllPages(s.procs[p].vmas));
  }

  lemma ForkExact(m: Machine, m1: Machine, m': Machine, pr: nat, cr: nat, vs: seq<Vpn>)
    requires CowInv(m) && SpaceAdded(m, m1, cr) && IsRoot(m, pr) && UserPages(vs)
    requires PagesShared(m1, m', pr, cr, vs)
    ensures Exact(m') <==> Exact(m) && MappedOnce(m, pr, vs)
  {
    assert forall i :: 0 <= i < |vs| ==> Walk(m1, cr, vs[i]) == None && Walk(m1, pr, vs[i]) == Walk(m, pr, vs[i]);
    if Exact(m1) {
      SpaceAddedExact(m, m1, cr);
    }
  }

  lemma SpaceAddedExact(m: Machine, m1: Machine, cr: nat)
    requires CowInv(m) && SpaceAdded(m, m1, cr) && Exact(m1)
    ensures Exact(m)
  {
    forall x | 0 <= x < |m.mem| && m.role[x] == Data
      ensures Surplus(m, x) == 0
    {
      assert m1.role[x] == Data && Surplus(m1, x) == Surplus(m, x);
    }
  }

  ghost predicate NoPageTwice(vmas: seq<Vma>)
    requires forall a :: a in vmas ==> a.start <= a.end
  {
    var vs := AllPages(vmas);
    forall i, j :: 0 <= i < j < |vs| ==> vs[i] != vs[j]
  }

  ghost predicate DisjointVmas(s: Sys) {
    forall p :: p in s.procs ==> VmasOk(s.procs[p].vmas) && NoPageTwice(s.procs[p].vmas)
  }

  /** Every VMA that a run adds shares no page with the others of its process. */
  ghost predicate CarefulRun(s: Sys, evs: seq<Event>)
    requires CanRunEvents(s, evs)
    decreases |evs|
  {
    DisjointVmas(s) && (evs == [] || CarefulRun(Step(s, evs[0]), evs[1..]))
  }

  lemma StepExact(s: Sys, ev: Event)
    requires SysInv(s) && Enabled(s, ev) && DisjointVmas(s) && Exact(s.m)
    ensures Exact(Step(s, ev).m)
  {
    match ev {
      case Fork(p, c) => ForkExactIff(s, p, c);
      case Read(p, va) => AccessStepOk(s, p, va, false);
      case Write(p, va, w) => WriteStepOk(s, p, va, w);
      case Load(p, va, content) => LoadStep(s, p, va, content);
      case AddVma(p, vma) =>
      case Exec(p) => ClearStep(s, ev);
      case Reap(p) => ClearStep(s, ev);
    }
  }

  /** Over every run in which the VMAs of a process share no page, the count of each user frame is at all times the
      number of page-table entries that point to it. */
  lemma {:induction false} CountsStayExact(s: Sys, evs: seq<Event>)
    requires SysInv(s) && CanRunEvents(s, evs) && CarefulRun(s, evs) && Exact(s.m)
    ensures SysInv(Run(s, evs)) && Exact(Run(s, evs).m)
    decreases |evs|
  {
    if evs != [] {
      StepRefines(s, evs[0]);
      StepExact(s, evs[0]);
      CountsStayExact(Step(s, evs[0]), evs[1..]);
    }
  }

  /** In every reachable state: a frame with two entries is writable through none, and a frame that some entry points
      to has at least as many references as entries, so it is neither free nor about to be reclaimed. */
  lemma SharedFramesAreSafe(s: Sys, evs: seq<Event>, f: nat, i: nat, g: nat, j: nat)
    requires SysInv(s) && CanRunEvents(s, evs)
    requires var m := Run(s, evs).m; PteSlot(m, f, i) && PteSlot(m, g, j) && m.mem[f][i].pfn == m.mem[g][j].pfn
    ensures SysInv(Run(s, evs))
    ensures var m := Run(s, evs).m;
            && m.mem[f][i].pfn < |m.mem| && m.role[m.mem[f][i].pfn] == Data
            && m.refs[m.mem[f][i].pfn] >= |Slots(m, m.mem[f][i].pfn)| >= 1 && m.mem[f][i].pfn !in m.free
            && ((f, i) != (g, j) ==> !Writable(m.mem[f][i]) && !Writable(m.mem[g][j]) && m.refs[m.mem[f][i].pfn] >= 2)
  {
    CopyOnWriteRefinesEagerCopy(s, evs);
    EntriesAreSafe(Run(s, evs).m, f, i, g, j);
  }

  lemma EntriesAreSafe(m: Machine, f: nat, i: nat, g: nat, j: nat)
    requires CowInv(m) && PteSlot(m, f, i) && PteSlot(m, g, j) && m.mem[f][i].pfn == m.mem[g][j].pfn
    ensures m.mem[f][i].pfn < |m.mem| && m.role[m.mem[f][i].pfn] == Data
    ensures m.refs[m.mem[f][i].pfn] >= |Slots(m, m.mem[f][i].pfn)| >= 1 && m.mem[f][i].pfn !in m.free
    ensures (f, i) != (g, j) ==> !Writable(m.mem[f][i]) && !Writable(m.mem[g][j]) && m.refs[m.mem[f][i].pfn] >= 2
  {
    assert TableOk(m, f) && EntryOk(m, f, i);
    var x := m.mem[f][i].pfn;
    assert Surplus(m, x) >= 0;
    assert (f, i) in Slots(m, x) && (g, j) in Slots(m, x);
    if (f, i) != (g, j) {
      assert {(f, i), (g, j)} <= Slots(m, x);
      Subset({(f, i), (g, j)}, Slots(m, x));
    } else {
      Subset({(f, i)}, Slots(m, x));
    }
  }

  lemma Subset(a: set<(nat, nat)>, b: set<(nat, nat)>)
    requires a <= b
    ensures |a| <= |b|
  {
    assert b == a + (b - a);
  }

  // ----- where copy-on-write differs from a copy at fork

  /** The child reads what the parent reads if and only if every page the parent has mapped is one that fork visits. */
  lemma ForkCopiesVisitedIff(s: Sys, p: nat, c: nat)
    requires SysInv(s) && CanFork(s, p, c)
    ensures var s' := ForkStep(s, p, c);
            Abs(s')[c].pages == Abs(s)[p].pages
            <==> forall v: Vpn :: v in Abs(s)[p].pages ==> v in AllPages(s.procs[p].vmas)
  {
    ForkStepOk(s, p, c);
    EagerFork(Abs(s), p, c, imap v: Vpn | v in AllPages(s.procs[p].vmas) && v in Abs(s)[p].pages :: Abs(s)[p].pages[v]);
    ForkedPages(Abs(s)[p].pages, AllPages(s.procs[p].vmas));
  }

  lemma ForkedPages(pages: imap<Vpn, Frame>, vs: seq<Vpn>)
    ensures (imap v: Vpn | v in vs && v in pages :: pages[v]) == pages <==> forall v: Vpn :: v in pages ==> v in vs
  {
    var copied := imap v: Vpn | v in vs && v in pages :: pages[v];
    if copied == pages {
      forall v: Vpn | v in pages
        ensures v in vs
      {
        assert v in copied;
      }
    }
    if forall v: Vpn :: v in pages ==> v in vs {
      assert forall v: Vpn :: v in copied <==> v in pages;
    }
  }

  /** The handler accepts the end address of a VMA, but when it starts a page, fork does not visit that page. */
  lemma EndPageNotVisited(a: Vma)
    requires VmaOk(a) && a.end % PAGE_SIZE == 0
    ensures CheckVma([a], a.end) == Some(a)
    ensures VpnOf(a.end) !in PagesOf(a)
  {
    var vs := PagesOf(a);
    var b, e := a.start / PAGE_SIZE, a.end / PAGE_SIZE;
    assert ScaleDown(a.start) == b * PAGE_SIZE && ScaleUp(a.end) == e * PAGE_SIZE;
    forall i | 0 <= i < |vs|
      ensures vs[i] != VpnOf(a.end)
    {
      assert (b * PAGE_SIZE + i * PAGE_SIZE) / 0x1000 == b + i;
      EarlierPage(b + i, e);
      SameVpnIff(b * PAGE_SIZE + i * PAGE_SIZE, a.end);
    }
  }

  lemma EarlierPage(x: nat, y: nat)
    requires x < y <= x + 0x8_0000
    ensures x % 0x10_0000_0000 != y % 0x10_0000_0000
  {
  }

  /** After fork, neither parent nor child can write an address of a shared page that no VMA contains: the page is
      write-protected and check_vma refuses the fault, whatever the page's protection was before. */
  lemma SlackWriteKilledAfterFork(s: Sys, p: nat, c: nat, va: nat)
    requires SysInv(s) && CanFork(s, p, c)
    requires VpnOf(va) in AllPages(s.procs[p].vmas) && Walk(s.m, s.procs[p].root, VpnOf(va)).Some?
    requires CheckVma(s.procs[p].vmas, va) == None
    ensures var s' := ForkStep(s, p, c);
            && SysInv(s') && p in s'.procs && c in s'.procs && s'.procs[p] == s.procs[p]
                && s'.procs[c].vmas == s.procs[p].vmas
            && CanTouch(s'.m, s'.procs[p].root, s'.procs[p].vmas, va, true)
            && CanTouch(s'.m, s'.procs[c].root, s'.procs[c].vmas, va, true)
            && !Completes(s'.m, s'.procs[p].root, s'.procs[p].vmas, va, true)
            && !Completes(s'.m, s'.procs[c].root, s'.procs[c].vmas, va, true)
  {
    ForkStepOk(s, p, c);
    ForkProtects(s, p, c, VpnOf(va));
    var s' := ForkStep(s, p, c);
    WriteKilled(s'.m, s.procs[p].root, s.procs[p].vmas, va);
    WriteKilled(s'.m, s'.procs[c].root, s.procs[p].vmas, va);
  }

  /** A visited page is write-protected after fork, in the parent and in the child. */
  lemma ForkProtects(s: Sys, p: nat, c: nat, v: Vpn)
    requires SysInv(s) && CanFork(s, p, c)
    requires v in AllPages(s.procs[p].vmas) && Walk(s.m, s.procs[p].root, v).Some?
    ensures UserPage(v)
    ensures var s' := ForkStep(s, p, c);
            && s'.procs[p] == s.procs[p] && s'.procs[c].vmas == s.procs[p].vmas
            && s'.procs[c].root < |s'.m.mem| && s.procs[p].root < |s'.m.mem|
            && Walk(s'.m, s.procs[p].root, v).Some? && !Writable(Walk(s'.m, s.procs[p].root, v).value)
            && Walk(s'.m, s'.procs[c].root, v).Some? && !Writable(Walk(s'.m, s'.procs[c].root, v).value)
  {
    var pr, vs := s.procs[p].root, AllPages(s.procs[p].vmas);
    var m1, cr := ForkShares(s, p, c);
    assert Walk(m1, pr, v) == Walk(s.m, pr, v);
    SlackProtected(m1, ForkStep(s, p, c).m, pr, cr, vs, v);
  }

  lemma WriteKilled(m: Machine, r: nat, vmas: seq<Vma>, va: nat)
    requires CowInv(m) && IsRoot(m, r) && UserPage(VpnOf(va))
    requires Walk(m, r, VpnOf(va)).Some? && !Writable(Walk(m, r, VpnOf(va)).value) && CheckVma(vmas, va) == None
    ensures CanTouch(m, r, vmas, va, true) && !Completes(m, r, vmas, va, true)
  {
    PermittedIff(m, r, VpnOf(va), true);
    CompletesIff(m, r, vmas, va, true);
  }

  lemma SlackProtected(m1: Machine, m': Machine, pr: nat, cr: nat, vs: seq<Vpn>, v: Vpn)
    requires CowInv(m1) && IsRoot(m1, pr) && IsRoot(m1, cr) && PagesShared(m1, m', pr, cr, vs) && UserPages(vs)
    requires v in vs && Walk(m1, pr, v).Some? && pr != cr
    ensures Walk(m', pr, v).Some? && !Writable(Walk(m', pr, v).value)
    ensures Walk(m', cr, v).Some? && !Writable(Walk(m', cr, v).value)
  {
    assert Walk(m', pr, v).Some?;
    WalkSlot(m1, pr, v);
    assert PageOf(m', cr, v) == PageOf(m1, pr, v);
    SharedNotWritable(m', pr, cr, v);
  }

  lemma SharedNotWritable(m: Machine, pr: nat, cr: nat, v: Vpn)
    requires CowInv(m) && ChildFollows(m, pr, cr) && pr != cr && UserPage(v) && Walk(m, cr, v).Some?
    ensures !Writable(Walk(m, cr, v).value)
  {
    WalkSlot(m, cr, v);
    WalkSlot(m, pr, v);
    SlotsDiffer(m, pr, v, cr, v);
    var s, t := SlotOf(m, cr, v), SlotOf(m, pr, v);
    assert PteSlot(m, s.0, s.1) && t in Slots(m, m.mem[s.0][s.1].pfn);
  }

  /** The stack branch of the handler, taken for a page that is already mapped (a write by the kernel itself reports
      error code 3, not 7): the page is replaced by zeros, and the counts are exact afterwards if and only if the
      page had not been mapped. */
  lemma StackBranchOnMappedPage(m: Machine, r: nat, vmas: seq<Vma>, va: nat, err: nat)
    requires CanTakeAndMap(m, r, VpnOf(va)) && err != 7
    requires CheckVma(vmas, va).Some? && CheckVma(vmas, va).value.kind == Stack
    ensures PageFault(m, r, vmas, va, err).Resumed?
    ensures var m' := PageFault(m, r, vmas, va, err).m;
            && CowInv(m') && PageSet(m, m', r, VpnOf(va), ZeroFrame())
            && (Exact(m') <==> Exact(m) && Walk(m, r, VpnOf(va)) == None)
  {
    MapFreshOk(m, r, VpnOf(va), ZeroFrame());
  }

  // ----- where runs start

  /** A new process with an empty address space, the first one as much as any other: the invariant holds, the other
      processes read what they read, and it reads nothing. */
  lemma NewProcess(s: Sys, p: nat)
    requires SysInv(s) && p !in s.procs && |s.m.free| >= 2
    ensures var (m', r) := NewSpace(s.m);
            var s' := Sys(m', s.procs[p := Proc(r, [])]);
            SysInv(s') && Abs(s') == Abs(s)[p := EagerProc([], imap[])] && (Exact(s.m) ==> Exact(m'))
  {
    NewSpaceOk(s.m);
    var (m', r) := NewSpace(s.m);
    ProcessAdded(s, m', r, p);
  }

  lemma ProcessAdded(s: Sys, m': Machine, r: nat, p: nat)
    requires SysInv(s) && p !in s.procs && SpaceAdded(s.m, m', r)
    ensures var s' := Sys(m', s.procs[p := Proc(r, [])]);
            SysInv(s') && Abs(s') == Abs(s)[p := EagerProc([], imap[])]
  {
    var s' := Sys(m', s.procs[p := Proc(r, [])]);
    forall q | q in s.procs
      ensures Image(m', s.procs[q].root) == Image(s.m, s.procs[q].root)
    {
      SamePagesSameImage(s.m, m', s.procs[q].root);
    }
    assert r < |m'.mem| && IsRoot(m', r);
    forall v: Vpn | UserPage(v)
      ensures PageOf(m', r, v) == None
    {
      assert Walk(m', r, v) == None;
    }
    assert Image(m', r) == imap[];
    InsertAbs(s, s', p, Proc(r, []));
  }

  // ----- descriptors and addresses

  const DESCRIPTOR: nat := 16

  /** getPA: the address of the frame whose descriptor is at `page`, in the table that starts at `pages`. */
  function FrameAddress(pages: nat, page: nat): int {
    (page - pages) / DESCRIPTOR * 0x1000
  }

  /** get_page_from_PA: where the kernel sees the descriptor of the frame that holds `pa`. */
  function DescriptorAddress(pages: nat, pa: nat): nat {
    ((pages + KERNBASE) % 0x1_0000_0000_0000_0000 + ScaleDown(pa) / 0x1000 * DESCRIPTOR) % 0x1_0000_0000_0000_0000
  }

  /** The two undo each other, whatever flags a page-table entry carries in its low bits, for a table of descriptors
      that lies within the direct map. */
  lemma DescriptorRoundTrip(pages: nat, f: nat, flags: nat)
    requires pages + f * DESCRIPTOR < 0x8000_0000 && flags < 0x1000
    ensures FrameAddress(pages, pages + f * DESCRIPTOR) == f * 0x1000
    ensures DescriptorAddress(pages, f * 0x1000 + flags) == KERNBASE + pages + f * DESCRIPTOR
    ensures FrameAddress(pages, DescriptorAddress(pages, f * 0x1000 + flags) - KERNBASE) == f * 0x1000
  {
    assert f * DESCRIPTOR / DESCRIPTOR == f;
    assert (f * 0x1000 + flags) / 0x1000 == f;
    assert ScaleDown(f * 0x1000 + flags) / 0x1000 == f;
  }
}
