/** fork_process, as far as memory goes: a new address space and the page loop over the VMAs (sys/process.c,
    sys/proc_mngr.c). */
module Forking {
  import opened Lists
  import opened Frames
  import opened PageTables
  import opened AddressSpaces
  import opened CopyOnWrite

  // ----- a new address space

  /** The two allocations of fetch_free_pcb: the mm_struct page and the PML4, which gets the kernel's entry 511. */
  function NewSpace(m: Machine): (Machine, nat)
    requires Sized(m) && m.head.Some? && m.head.value < |m.mem| && m.kroot < |m.mem|
  {
    var t := TakeAs(m, Kernel, ZeroFrame());
    if t.head.Some? && t.head.value < |t.mem| then
      var h := t.head.value;
      var p := Take(t, Table(h, [], h));
      (StoreWord(p, h, 511, p.mem[m.kroot][511]), h)
    else (t, 0)
  }

  ghost predicate SpaceAdded(m: Machine, m': Machine, r: nat)
    requires CowInv(m)
  {
    && CowInv(m') && PagesKept(m, m') && SurplusKept(m, m') && (Exact(m) ==> Exact(m'))
    && IsRoot(m', r) && !IsRoot(m, r)
    && (forall u: Vpn {:trigger Walk(m', r, u)} :: UserPage(u) ==> Walk(m', r, u) == None)
    && (forall u: Vpn {:trigger Walk(m', r, u)} :: !UserPage(u) ==> Walk(m', r, u) == Walk(m, m.kroot, u))
    && (forall q: nat, u: Vpn {:trigger Walk(m', q, u)} :: IsRoot(m, q) ==> Walk(m', q, u) == Walk(m, q, u))
    && |m'.free| == |m.free| - 2
  }

  /** A zeroed frame with the kernel's entry in place becomes an empty address space. */
  ghost predicate RootAdded(t: Machine, m': Machine, h: nat) {
    && Sized(t) && AllocatorOk(m') && |m'.mem| == |t.mem| && m'.kroot == t.kroot
    && h < |t.mem| && t.role[h] == Unused && t.kroot < |t.mem| && h != t.kroot
    && m'.role == t.role[h := Table(h, [], h)] && m'.refs == t.refs[h := 1]
    && (forall x :: 0 <= x < |t.mem| && x != h ==> m'.mem[x] == t.mem[x])
    && (forall j :: 0 <= j < 511 ==> !Present(m'.mem[h][j]))
    && m'.mem[h][511] == t.mem[t.kroot][511]
  }

  lemma RootShape(t: Machine, m': Machine, h: nat)
    requires Shape(t) && IsRoot(t, t.kroot) && RootAdded(t, m', h)
    ensures Shape(m')
  {
    forall x | 0 <= x < |m'.mem| && m'.role[x].Table?
      ensures TableOk(m', x)
      ensures m'.role[x].path != [] ==> ParentOk(m', x)
    {
      assert TableOk(t, t.kroot) && EntryOk(t, t.kroot, 511);
      if x != h {
        assert TableOk(t, x);
      }
      forall j | 0 <= j < 512
        ensures EntryOk(m', x, j)
      {
        if x != h {
          assert EntryOk(t, x, j);
        } else if j == 511 {
          assert ChildRole(m', h, 511) == ChildRole(t, t.kroot, 511);
        }
      }
      if m'.role[x].path != [] {
        assert ParentOk(t, x);
      }
    }
  }

  lemma RootSpace(t: Machine, m': Machine, h: nat)
    requires Shape(t) && IsRoot(t, t.kroot) && Solo(t) && RootAdded(t, m', h)
    ensures Shape(m') && Solo(m') && PagesKept(t, m') && IsRoot(m', h)
    ensures forall x :: Slots(m', x) == Slots(t, x)
    ensures forall u: Vpn {:trigger Walk(m', h, u)} :: UserPage(u) ==> Walk(m', h, u) == None
    ensures forall u: Vpn {:trigger Walk(m', h, u)} :: !UserPage(u) ==> Walk(m', h, u) == Walk(t, t.kroot, u)
    ensures forall q: nat, u: Vpn {:trigger Walk(m', q, u)} :: IsRoot(t, q) ==> Walk(m', q, u) == Walk(t, q, u)
  {
    RootShape(t, m', h);
    RootHasKernel(t, m', h);
    assert forall x :: Slots(m', x) == Slots(t, x);
    forall q: nat, u: Vpn | IsRoot(t, q)
      ensures Walk(m', q, u) == Walk(t, q, u)
      ensures UserPage(u) ==> PageOf(m', q, u) == PageOf(t, q, u)
    {
      assert OnPath(t, q, u, 0);
      TablesSameDescend(t, m', q, u, 0);
      if UserPage(u) && Walk(t, q, u).Some? {
        WalkSlot(t, q, u);
      }
    }
    forall f: nat, i: nat | PteSlot(m', f, i) && Writable(m'.mem[f][i])
      ensures Slots(m', m'.mem[f][i].pfn) == {(f, i)}
    {
      assert PteSlot(t, f, i);
    }
  }

  /** The copied entry leads to the kernel's own tables. */
  lemma RootHasKernel(t: Machine, m': Machine, h: nat)
    requires Shape(t) && IsRoot(t, t.kroot) && RootAdded(t, m', h)
    ensures forall u: Vpn {:trigger Walk(m', h, u)} :: !UserPage(u) ==> Walk(m', h, u) == Walk(t, t.kroot, u)
  {
    forall u: Vpn | !UserPage(u)
      ensures Walk(m', h, u) == Walk(t, t.kroot, u)
    {
      assert OnPath(t, t.kroot, u, 0);
      TablesSameDescend(t, m', t.kroot, u, 0);
      assert u[0] == 511 && m'.mem[h][511] == m'.mem[t.kroot][511];
    }
  }

  lemma NewSpaceOk(m: Machine)
    requires CowInv(m) && |m.free| >= 2
    ensures m.head.Some? && m.head.value < |m.mem|
    ensures var (m', r) := NewSpace(m); SpaceAdded(m, m', r)
  {
    TakeAsOk(m, Kernel, ZeroFrame());
    TakeAsKeeps(m, Kernel, ZeroFrame());
    var t := TakeAs(m, Kernel, ZeroFrame());
    var h := t.free[0];
    TakeOk(t, Table(h, [], h));
    var m' := NewSpace(m).0;
    assert NewSpace(m).1 == h;
    assert !Present(ZERO_WORD);
    assert RootAdded(t, m', h);
    RootSpace(t, m', h);
    NewSpaceSteps(m, t, m', h);
  }

  lemma NewSpaceSteps(m: Machine, t: Machine, m': Machine, h: nat)
    requires CowInv(m) && |m.free| >= 2 && CowInvButCounts(t) && PagesKept(m, t) && RootAdded(t, m', h)
    requires m.free[0] < |m.mem| && t.role == m.role[m.free[0] := Kernel] && t.refs == m.refs[m.free[0] := 1]
    requires t.free == m.free[1..] && m'.free == t.free[1..] && m.role[m.free[0]] == Unused
    requires forall x :: Slots(m', x) == Slots(t, x) == Slots(m, x)
    requires Shape(m') && Solo(m') && PagesKept(t, m') && IsRoot(m', h)
    requires forall u: Vpn {:trigger Walk(m', h, u)} :: UserPage(u) ==> Walk(m', h, u) == None
    requires forall u: Vpn {:trigger Walk(m', h, u)} :: !UserPage(u) ==> Walk(m', h, u) == Walk(t, t.kroot, u)
    requires forall q: nat, u: Vpn {:trigger Walk(m', q, u)} :: IsRoot(t, q) ==> Walk(m', q, u) == Walk(t, q, u)
    requires forall q: nat, u: Vpn {:trigger Walk(t, q, u)} :: IsRoot(m, q) ==> Walk(t, q, u) == Walk(m, q, u)
    ensures SpaceAdded(m, m', h)
  {
    assert forall x :: 0 <= x < |m.mem| && m'.role[x] == Data ==> m.role[x] == Data && Surplus(m', x) == Surplus(m, x);
    forall q: nat, u: Vpn | IsRoot(m, q)
      ensures Walk(m', q, u) == Walk(m, q, u)
    {
      assert IsRoot(t, q) && Walk(t, q, u) == Walk(m, q, u);
    }
  }

  // ----- the page loop

  function SharePages(m: Machine, pr: nat, cr: nat, vs: seq<Vpn>): (m': Machine)
    requires pr < |m.mem| && cr < |m.mem| == |m.refs|
    ensures |m'.mem| == |m.mem| && |m'.refs| == |m.refs|
    decreases |vs|
  {
    if vs == [] then m else SharePages(SharePage(m, pr, cr, vs[0]), pr, cr, vs[1..])
  }

  ghost predicate UserPages(vs: seq<Vpn>) {
    forall i :: 0 <= i < |vs| ==> UserPage(vs[i])
  }

  /** No mapped page is visited twice, nor was mapped by the child before. */
  ghost predicate VisitedOnce(m: Machine, pr: nat, cr: nat, vs: seq<Vpn>)
    requires pr < |m.mem| && cr < |m.mem|
  {
    && (forall i :: 0 <= i < |vs| && Walk(m, pr, vs[i]).Some? ==> Walk(m, cr, vs[i]) == None)
    && (forall i, j :: 0 <= i < j < |vs| && Walk(m, pr, vs[i]).Some? ==> vs[i] != vs[j])
  }

  /** What the page loop achieves: nobody's pages read differently except the child's, which reads the parent's pages
      that the loop visited; both now map them read-only; and the counts stay exact if and only if no mapped
      page was visited twice. */
  ghost predicate PagesShared(m: Machine, m': Machine, pr: nat, cr: nat, vs: seq<Vpn>)
    requires CowInv(m) && IsRoot(m, pr) && IsRoot(m, cr)
  {
    && CowInv(m') && RootsKept(m, m') && ChildFollows(m', pr, cr)
    && |m'.free| >= |m.free| - 3 * |vs|
    && (forall q: nat, u: Vpn {:trigger PageOf(m', q, u)} :: IsRoot(m, q) && UserPage(u) ==>
          PageOf(m', q, u) == if q == cr && u in vs && PageOf(m, pr, u).Some? then PageOf(m, pr, u)
              else PageOf(m, q, u))
    && (forall u: Vpn {:trigger Walk(m', pr, u)} :: UserPage(u) && Walk(m, pr, u).Some? ==>
          Walk(m', pr, u).Some? && (u in vs || !Writable(Walk(m, pr, u).value) ==> !Writable(Walk(m', pr, u).value)))
    && (Exact(m') <==> Exact(m) && VisitedOnce(m, pr, cr, vs))
  }

  lemma ShareOneExact(m: Machine, m': Machine, pr: nat, cr: nat, v: Vpn, e: Word)
    requires CowInv(m) && IsRoot(m, cr) && IsRoot(m, pr) && e.pfn < |m.mem| && m.role[e.pfn] == Data
    requires PageShared(m, m', pr, cr, v, e) && ChildFollows(m, pr, cr) && UserPage(v) && Walk(m, pr, v) == Some(e)
    ensures Exact(m') <==> Exact(m) && Walk(m, cr, v) == None
  {
    if Walk(m, cr, v).Some? {
      assert Surplus(m', e.pfn) == Surplus(m, e.pfn) + 1;
    }
    if Exact(m') {
      forall x | 0 <= x < |m.mem| && m.role[x] == Data
        ensures Surplus(m, x) == 0
      {
        assert m'.role[x] == Data && Surplus(m', x) == 0;
      }
    }
  }

  lemma VisitedOnceStep(m: Machine, m1: Machine, pr: nat, cr: nat, vs: seq<Vpn>, e: Word)
    requires RootsKept(m, m1) && IsRoot(m, pr) && IsRoot(m, cr) && vs != [] && pr != cr
    requires Walk(m, pr, vs[0]) == Some(e) && ShareWalks(m, m1, pr, cr, vs[0], e)
    ensures VisitedOnce(m, pr, cr, vs) <==> Walk(m, cr, vs[0]) == None && VisitedOnce(m1, pr, cr, vs[1..])
  {
    var rest := vs[1..];
    assert forall i :: 0 <= i < |rest| ==> rest[i] == vs[i + 1];
    if VisitedOnce(m, pr, cr, vs) {
      forall i | 0 <= i < |rest| && Walk(m1, pr, rest[i]).Some?
        ensures Walk(m1, cr, rest[i]) == None
      {
        assert vs[i + 1] != vs[0];
      }
      forall i, j | 0 <= i < j < |rest| && Walk(m1, pr, rest[i]).Some?
        ensures rest[i] != rest[j]
      {
        assert vs[i + 1] != vs[0];
        assert vs[i + 1] != vs[j + 1];
      }
    }
    if Walk(m, cr, vs[0]) == None && VisitedOnce(m1, pr, cr, rest) {
      forall j | 0 <= j < |rest|
        ensures rest[j] != vs[0]
      {
      }
      forall i | 0 <= i < |vs| && Walk(m, pr, vs[i]).Some?
        ensures Walk(m, cr, vs[i]) == None
      {
        if i > 0 {
          assert rest[i - 1] == vs[i];
          assert Walk(m1, pr, rest[i - 1]).Some?;
        }
      }
      forall i, j | 0 <= i < j < |vs| && Walk(m, pr, vs[i]).Some?
        ensures vs[i] != vs[j]
      {
        assert rest[j - 1] == vs[j];
        if i > 0 {
          assert rest[i - 1] == vs[i];
          assert Walk(m1, pr, rest[i - 1]).Some?;
        }
      }
    }
  }

  lemma SkipUnmapped(m: Machine, m': Machine, pr: nat, cr: nat, vs: seq<Vpn>)
    requires CowInv(m) && IsRoot(m, pr) && IsRoot(m, cr) && vs != [] && Walk(m, pr, vs[0]) == None
    requires PagesShared(m, m', pr, cr, vs[1..])
    ensures PagesShared(m, m', pr, cr, vs)
  {
    var rest := vs[1..];
    assert forall i :: 0 <= i < |rest| ==> rest[i] == vs[i + 1];
    assert forall i :: 0 < i < |vs| ==> vs[i] == rest[i - 1];
    assert forall u :: u in vs <==> u == vs[0] || u in rest;
    assert VisitedOnce(m, pr, cr, vs) <==> VisitedOnce(m, pr, cr, rest);
  }

  lemma ShareThenRestPages(m: Machine, m1: Machine, m': Machine, pr: nat, cr: nat, vs: seq<Vpn>, e: Word, q: nat,
                           u: Vpn)
    requires CowInv(m) && IsRoot(m, pr) && IsRoot(m, cr) && pr != cr && vs != [] && UserPages(vs)
    requires Walk(m, pr, vs[0]) == Some(e) && e.pfn < |m.mem| && PageShared(m, m1, pr, cr, vs[0], e)
    requires PagesShared(m1, m', pr, cr, vs[1..]) && IsRoot(m, q) && UserPage(u)
    ensures PageOf(m', q, u) == if q == cr && u in vs && PageOf(m, pr, u).Some? then PageOf(m, pr, u)
            else PageOf(m, q, u)
  {
    assert u in vs <==> u == vs[0] || u in vs[1..];
    assert PageOf(m, pr, vs[0]) == Some(m.mem[e.pfn]);
    assert PageOf(m1, pr, u) == PageOf(m, pr, u);
  }

  lemma ShareThenRest(m: Machine, m1: Machine, m': Machine, pr: nat, cr: nat, vs: seq<Vpn>, e: Word)
    requires CowInv(m) && IsRoot(m, pr) && IsRoot(m, cr) && pr != cr && vs != [] && UserPages(vs)
    requires Walk(m, pr, vs[0]) == Some(e) && e.pfn < |m.mem| && m.role[e.pfn] == Data && ChildFollows(m, pr, cr)
    requires PageShared(m, m1, pr, cr, vs[0], e) && !Writable(Shared(e))
    requires PagesShared(m1, m', pr, cr, vs[1..])
    ensures PagesShared(m, m', pr, cr, vs)
  {
    var rest := vs[1..];
    assert forall u :: u in vs <==> u == vs[0] || u in rest;
    VisitedOnceStep(m, m1, pr, cr, vs, e);
    ShareOneExact(m, m1, pr, cr, vs[0], e);
    forall q: nat, u: Vpn | IsRoot(m, q) && UserPage(u)
      ensures PageOf(m', q, u) == if q == cr && u in vs && PageOf(m, pr, u).Some? then PageOf(m, pr, u)
              else PageOf(m, q, u)
    {
      ShareThenRestPages(m, m1, m', pr, cr, vs, e, q, u);
    }
    forall u: Vpn | UserPage(u) && Walk(m, pr, u).Some?
      ensures Walk(m', pr, u).Some?
      ensures u in vs || !Writable(Walk(m, pr, u).value) ==> !Writable(Walk(m', pr, u).value)
    {
      ShareThenRestParent(m, m1, m', pr, cr, vs, e, u);
    }
  }

  lemma ShareThenRestParent(m: Machine, m1: Machine, m': Machine, pr: nat, cr: nat, vs: seq<Vpn>, e: Word, u: Vpn)
    requires CowInv(m) && IsRoot(m, pr) && IsRoot(m, cr) && pr != cr && vs != []
    requires Walk(m, pr, vs[0]) == Some(e) && e.pfn < |m.mem| && !Writable(Shared(e))
    requires PageShared(m, m1, pr, cr, vs[0], e) && PagesShared(m1, m', pr, cr, vs[1..])
    requires UserPage(u) && Walk(m, pr, u).Some?
    ensures Walk(m', pr, u).Some?
    ensures u in vs || !Writable(Walk(m, pr, u).value) ==> !Writable(Walk(m', pr, u).value)
  {
    assert u in vs <==> u == vs[0] || u in vs[1..];
    assert Walk(m1, pr, u) == if u == vs[0] then Some(Shared(e)) else Walk(m, pr, u);
  }

  /** The free frames last until the page loop ends: each page it shares finds as many as the child lacks tables. */
  ghost predicate FramesLast(m: Machine, pr: nat, cr: nat, vs: seq<Vpn>)
    requires pr < |m.mem| && cr < |m.mem| == |m.refs|
    decreases |vs|
  {
    vs == []
    || ((Walk(m, pr, vs[0]).Some? ==> |m.free| >= Missing(m, cr, vs[0], 0))
        && FramesLast(SharePage(m, pr, cr, vs[0]), pr, cr, vs[1..]))
  }

  /** How many of the pages are mapped. */
  function MappedAmong(m: Machine, r: nat, vs: seq<Vpn>): nat
    requires r < |m.mem|
    decreases |vs|
  {
    if vs == [] then 0 else (if Walk(m, r, vs[0]).Some? then 1 else 0) + MappedAmong(m, r, vs[1..])
  }

  lemma {:induction false} SameMapped(m: Machine, m': Machine, r: nat, vs: seq<Vpn>)
    requires r < |m.mem| == |m'.mem| && forall i :: 0 <= i < |vs| ==>
             (Walk(m', r, vs[i]).Some? <==> Walk(m, r, vs[i]).Some?)
    ensures MappedAmong(m', r, vs) == MappedAmong(m, r, vs)
    decreases |vs|
  {
    if vs != [] {
      assert forall i :: 0 <= i < |vs[1..]| ==> vs[1..][i] == vs[i + 1];
      SameMapped(m, m', r, vs[1..]);
    }
  }

  /** Three free frames for each mapped page are always enough. */
  lemma {:induction false} ThreePerPageLast(m: Machine, pr: nat, cr: nat, vs: seq<Vpn>)
    requires CowInv(m) && pr != cr && ChildFollows(m, pr, cr) && UserPages(vs) && |m.free| >= 3 * MappedAmong(m, pr, vs)
    ensures FramesLast(m, pr, cr, vs)
    decreases |vs|
  {
    if vs != [] {
      var m1, rest := SharePage(m, pr, cr, vs[0]), vs[1..];
      assert UserPages(rest);
      if Walk(m, pr, vs[0]).Some? {
        SharePageOk(m, pr, cr, vs[0]);
        forall i | 0 <= i < |rest|
          ensures Walk(m1, pr, rest[i]).Some? <==> Walk(m, pr, rest[i]).Some?
        {
        }
        SameMapped(m, m1, pr, rest);
      }
      ThreePerPageLast(m1, pr, cr, rest);
    }
  }

  lemma {:induction false} SharePagesOk(m: Machine, pr: nat, cr: nat, vs: seq<Vpn>)
    requires CowInv(m) && pr != cr && ChildFollows(m, pr, cr) && UserPages(vs) && FramesLast(m, pr, cr, vs)
    ensures PagesShared(m, SharePages(m, pr, cr, vs), pr, cr, vs)
    decreases |vs|
  {
    if vs != [] {
      var rest := vs[1..];
      assert UserPages(rest);
      if Walk(m, pr, vs[0]) == None {
        SharePagesOk(m, pr, cr, rest);
        SkipUnmapped(m, SharePages(m, pr, cr, rest), pr, cr, vs);
      } else {
        var e := Walk(m, pr, vs[0]).value;
        WalkSlot(m, pr, vs[0]);
        SharedFlags(e);
        SharePageOk(m, pr, cr, vs[0]);
        var m1 := SharePage(m, pr, cr, vs[0]);
        SharePagesOk(m1, pr, cr, rest);
        ShareThenRest(m, m1, SharePages(m1, pr, cr, rest), pr, cr, vs, e);
      }
    }
  }

  /** The page loop stands before the pages `vs`; running it to the end gives `goal`. */
  ghost predicate AtPages(m: Machine, pr: nat, cr: nat, vs: seq<Vpn>, goal: Machine) {
    && CowInv(m) && pr != cr && ChildFollows(m, pr, cr) && UserPages(vs) && FramesLast(m, pr, cr, vs)
    && SharePages(m, pr, cr, vs) == goal
  }

  lemma NextPage(m: Machine, pr: nat, cr: nat, vs: seq<Vpn>, goal: Machine)
    requires AtPages(m, pr, cr, vs, goal) && vs != []
    ensures SharePre(m, pr, cr, vs[0])
    ensures AtPages(SharePage(m, pr, cr, vs[0]), pr, cr, vs[1..], goal)
  {
    if Walk(m, pr, vs[0]).Some? {
      SharePageOk(m, pr, cr, vs[0]);
    }
  }
}
