/** The steps of copy-on-write on one address space: mapping a fresh page, sharing a page at fork, the write fault
    and the user's store (sys/pagefault.c, sys/process.c). */
module CopyOnWrite {
  import opened Lists
  import opened Frames
  import opened PageTables
  import opened AddressSpaces

  ghost predicate RootsKept(m: Machine, m': Machine) {
    |m'.mem| == |m.mem| && m'.kroot == m.kroot && forall q: nat :: IsRoot(m, q) ==> IsRoot(m', q)
  }

  /** Every page of every address space reads the same. */
  ghost predicate PagesKept(m: Machine, m': Machine) {
    && RootsKept(m, m')
    && forall q: nat, u: Vpn {:trigger PageOf(m', q, u)} :: IsRoot(m, q) && UserPage(u) ==>
         PageOf(m', q, u) == PageOf(m, q, u)
  }

  /** Page `v` of address space `r` becomes `p`; every other page reads the same. */
  ghost predicate PageSet(m: Machine, m': Machine, r: nat, v: Vpn, p: Frame) {
    && RootsKept(m, m') && IsRoot(m, r)
    && PageOf(m', r, v) == Some(p)
    && forall q: nat, u: Vpn {:trigger PageOf(m', q, u)} :: IsRoot(m, q) && UserPage(u) && (q, u) != (r, v) ==>
         PageOf(m', q, u) == PageOf(m, q, u)
  }

  ghost predicate SurplusKept(m: Machine, m': Machine)
    requires Sized(m) && Sized(m')
  {
    forall x :: 0 <= x < |m.mem| && x < |m'.mem| && m.role[x] == Data ==>
           m'.role[x] == Data && Surplus(m', x) == Surplus(m, x)
  }

  // ----- kmalloc followed by set_mapping(..., 7): the stack fault and the program loader

  /** One free frame for the page, and one for each table that is missing. */
  ghost predicate CanTakeAndMap(m: Machine, r: nat, v: Vpn) {
    CowInv(m) && IsRoot(m, r) && UserPage(v) && |m.free| >= 1 + Missing(m, r, v, 0)
  }

  ghost function MapFresh(m: Machine, r: nat, v: Vpn, content: Frame): Machine
    requires CanTakeAndMap(m, r, v)
  {
    TakeAsOk(m, Data, content);
    SetMapping(TakeData(m, content), r, v, Word(m.free[0], 7))
  }

  /** An allocated frame for use as `r`, filled with `content`. */
  function TakeAs(m: Machine, r: Role, content: Frame): Machine
    requires m.head.Some? && m.head.value < |m.mem| == |m.refs| == |m.next| == |m.role|
  {
    var t := Take(m, r);
    t.(mem := t.mem[m.head.value := content])
  }

  function TakeData(m: Machine, content: Frame): Machine
    requires m.head.Some? && m.head.value < |m.mem| == |m.refs| == |m.next| == |m.role|
  {
    TakeAs(m, Data, content)
  }

  /** Allocating a frame that is not a table changes no table, no walk and no entry. */
  lemma TakeAsOk(m: Machine, r: Role, content: Frame)
    requires Shape(m) && m.free != [] && (r == Data || r == Kernel)
    ensures m.head == Some(m.free[0]) && m.free[0] < |m.mem|
    ensures var m' := TakeAs(m, r, content);
            && Shape(m') && m'.free == m.free[1..] && m'.mem == m.mem[m.free[0] := content]
            && m'.role == m.role[m.free[0] := r] && m'.refs == m.refs[m.free[0] := 1] && m'.kroot == m.kroot
            && m.role[m.free[0]] == Unused
            && (forall q :: IsRoot(m, q) ==> IsRoot(m', q))
            && (forall q: nat, u: Vpn {:trigger Walk(m', q, u)} :: IsRoot(m, q) ==> Walk(m', q, u) == Walk(m, q, u))
            && (forall q: nat, u: Vpn {:trigger Missing(m', q, u, 0)} :: IsRoot(m, q) ==>
                Missing(m', q, u, 0) == Missing(m, q, u, 0))
            && (forall f: nat, i: nat :: PteSlot(m', f, i) <==> PteSlot(m, f, i))
  {
    TakeOk(m, r);
    var h, m' := m.free[0], TakeAs(m, r, content);
    assert m'.mem == m.mem[h := content];
    forall x | 0 <= x < |m'.mem| && m'.role[x].Table?
      ensures TableOk(m', x)
      ensures m'.role[x].path != [] ==> ParentOk(m', x)
    {
      assert TableOk(m, x);
      forall j | 0 <= j < 512
        ensures EntryOk(m', x, j)
      {
        assert EntryOk(m, x, j);
      }
      if m'.role[x].path != [] {
        assert ParentOk(m, x);
      }
    }
    forall q: nat, u: Vpn | IsRoot(m, q)
      ensures Walk(m', q, u) == Walk(m, q, u) && Missing(m', q, u, 0) == Missing(m, q, u, 0)
    {
      assert OnPath(m, q, u, 0);
      TablesSameDescend(m, m', q, u, 0);
      SameMissing(m, m', q, u, 0);
    }
  }

  /** A walk reads tables only. */
  lemma {:induction false} TablesSameDescend(m: Machine, m': Machine, f: nat, v: Vpn, d: nat)
    requires Shape(m) && d <= 3 && OnPath(m, f, v, d) && |m'.mem| == |m.mem|
    requires forall x :: 0 <= x < |m.mem| && m.role[x].Table? ==> m'.mem[x] == m.mem[x]
    ensures Descend(m', f, v, d) == Descend(m, f, v, d)
    ensures LeafFrom(m', f, v, d) == LeafFrom(m, f, v, d)
    decreases 3 - d
  {
    if d < 3 && Present(m.mem[f][v[d]]) {
      ChildOnPath(m, f, v, d);
      TablesSameDescend(m, m', m.mem[f][v[d]].pfn, v, d + 1);
    }
  }

  /** Pointing page `v` of `r` at data frame `w.pfn` makes the page read as that frame. */
  lemma RemapPages(m: Machine, m': Machine, r: nat, v: Vpn, w: Word)
    requires Shape(m) && IsRoot(m, r) && Grown(m, m', v) && WalkUpdated(m, m', r, v, w)
    requires UserPage(v) && Present(w) && w.pfn < |m.mem| && m.role[w.pfn] == Data
    ensures PageSet(m, m', r, v, m.mem[w.pfn])
  {
    forall q: nat, u: Vpn | IsRoot(m, q) && UserPage(u) && (q, u) != (r, v)
      ensures PageOf(m', q, u) == PageOf(m, q, u)
    {
      if Walk(m, q, u).Some? {
        WalkSlot(m, q, u);
      }
    }
  }

  function Points(e: Option<Word>, x: nat): int {
    if e.Some? && e.value.pfn == x then 1 else 0
  }

  /** Remapping page `v` moves one entry from the old frame to the new one. */
  lemma RemapCount(m: Machine, m': Machine, r: nat, v: Vpn, w: Word, x: nat)
    requires SlotUpdated(m, m', r, v, w)
    ensures |Slots(m', x)| == |Slots(m, x)| - Points(Walk(m, r, v), x) + Points(Some(w), x)
  {
    var s := SlotOf(m', r, v);
    SlotsAfter(m, m', s.0, s.1, x);
    if Points(Walk(m, r, v), x) == 1 {
      assert s in Slots(m, x);
      assert |Slots(m, x) - {s}| == |Slots(m, x)| - 1;
    } else {
      assert s !in Slots(m, x);
    }
  }

  /** Remapping keeps writable entries alone, when no other entry of the new frame is writable, nor this one
      unless it is alone. */
  lemma RemapSolo(m: Machine, m': Machine, r: nat, v: Vpn, w: Word)
    requires SlotUpdated(m, m', r, v, w) && Solo(m)
    requires forall t :: t in Slots(m, w.pfn) && t != SlotOf(m', r, v) ==> !Writable(w) && !Writable(m.mem[t.0][t.1])
    ensures Solo(m')
  {
    var s := SlotOf(m', r, v);
    forall f: nat, i: nat | PteSlot(m', f, i) && Writable(m'.mem[f][i])
      ensures Slots(m', m'.mem[f][i].pfn) == {(f, i)}
    {
      var x := m'.mem[f][i].pfn;
      SlotsAfter(m, m', s.0, s.1, x);
      if (f, i) != s {
        assert PteSlot(m, f, i);
        assert (f, i) in Slots(m, x);
      } else {
        assert Slots(m, x) <= {s};
      }
    }
  }

  /** Allocating such a frame changes no page and no user entry. */
  lemma TakeAsKeeps(m: Machine, r: Role, content: Frame)
    requires CowInv(m) && m.free != [] && (r == Data || r == Kernel)
    ensures m.free[0] < |m.mem|
    ensures var t := TakeAs(m, r, content);
            && CowInvButCounts(t) && PagesKept(m, t)
            && (forall x :: Slots(t, x) == Slots(m, x))
            && Slots(t, m.free[0]) == {}
  {
    TakeAsOk(m, r, content);
    var t := TakeAs(m, r, content);
    forall q: nat, u: Vpn | IsRoot(m, q) && UserPage(u)
      ensures PageOf(t, q, u) == PageOf(m, q, u)
    {
      if Walk(m, q, u).Some? {
        WalkSlot(m, q, u);
      }
    }
    NewFrameUnmapped(m, m.free[0]);
  }

  ghost predicate CowInvButCounts(m: Machine) {
    Shape(m) && IsRoot(m, m.kroot) && Solo(m)
  }

  /** A fresh writable page: it reads as given and nothing else changes. The counts stay as accurate as they were if
      and only if the page was not mapped: the frame it was mapped to keeps a reference that no entry accounts for. */
  ghost predicate FreshMapped(m: Machine, m': Machine, r: nat, v: Vpn, h: nat, content: Frame)
    requires CowInv(m) && IsRoot(m, r)
  {
    && CowInv(m') && PageSet(m, m', r, v, content)
    && Walk(m', r, v) == Some(Word(h, 7))
    && (forall x :: 0 <= x < |m.mem| && m.role[x] == Data ==>
                      m'.role[x] == Data && Surplus(m', x) == Surplus(m, x) + Points(Walk(m, r, v), x))
    && (Exact(m') <==> Exact(m) && Walk(m, r, v) == None)
  }

  lemma MapFreshOk(m: Machine, r: nat, v: Vpn, content: Frame)
    requires CanTakeAndMap(m, r, v)
    ensures var m' := MapFresh(m, r, v, content);
            FreshMapped(m, m', r, v, m.free[0], content) && |m'.free| >= |m.free| - 4
  {
    var h := m.free[0];
    TakeAsOk(m, Data, content);
    TakeAsKeeps(m, Data, content);
    var t := TakeData(m, content);
    var w := Word(h, 7);
    assert Present(w) && ForUser(w);
    assert Walk(t, r, v) == Walk(m, r, v) && Missing(t, r, v, 0) == Missing(m, r, v, 0);
    SetMappingIsUpdate(t, r, v, w);
    MapFreshAfter(m, t, MapFresh(m, r, v, content), r, v, h, content);
  }

  ghost predicate FreshSteps(m: Machine, t: Machine, m': Machine, r: nat, v: Vpn, h: nat, content: Frame) {
    && CowInv(m) && IsRoot(m, r) && UserPage(v)
    && CowInvButCounts(t) && PagesKept(m, t) && Walk(t, r, v) == Walk(m, r, v)
    && h < |m.mem| && m.role[h] == Unused && t.role == m.role[h := Data] && t.refs == m.refs[h := 1]
    && t.mem[h] == content && t.kroot == m.kroot
    && (forall x :: Slots(t, x) == Slots(m, x)) && Slots(t, h) == {}
    && Updated(t, m', r, v, Word(h, 7))
  }

  lemma MapFreshAfter(m: Machine, t: Machine, m': Machine, r: nat, v: Vpn, h: nat, content: Frame)
    requires FreshSteps(m, t, m', r, v, h, content)
    ensures FreshMapped(m, m', r, v, h, content)
  {
    assert PageSet(t, m', r, v, content) by { RemapPages(t, m', r, v, Word(h, 7)); }
    assert Solo(m') by { RemapSolo(t, m', r, v, Word(h, 7)); }
    FreshCounted(m, t, m', r, v, h, content);
  }

  lemma FreshCounted(m: Machine, t: Machine, m': Machine, r: nat, v: Vpn, h: nat, content: Frame)
    requires FreshSteps(m, t, m', r, v, h, content)
    ensures forall x :: 0 <= x < |m.mem| && m.role[x] == Data ==>
                          m'.role[x] == Data && Surplus(m', x) == Surplus(m, x) + Points(Walk(m, r, v), x)
    ensures Covered(m') && (Exact(m') <==> Exact(m) && Walk(m, r, v) == None)
  {
    forall x | 0 <= x < |m.mem| && m'.role[x] == Data
      ensures x == h || m.role[x] == Data
      ensures Surplus(m', x) == if x == h then 0 else Surplus(m, x) + Points(Walk(m, r, v), x)
    {
      FreshSurplus(m, t, m', r, v, h, content, x);
    }
    WalkToData(m, r, v);
    SurplusConclusion(m, m', h, Walk(m, r, v));
  }

  lemma FreshSurplus(m: Machine, t: Machine, m': Machine, r: nat, v: Vpn, h: nat, content: Frame, x: nat)
    requires FreshSteps(m, t, m', r, v, h, content) && x < |m.mem| && m'.role[x] == Data
    ensures x == h || m.role[x] == Data
    ensures Surplus(m', x) == if x == h then 0 else Surplus(m, x) + Points(Walk(m, r, v), x)
  {
    RemapCount(t, m', r, v, Word(h, 7), x);
    assert Slots(t, x) == Slots(m, x);
    WalkToData(m, r, v);
  }

  lemma WalkToData(m: Machine, r: nat, v: Vpn)
    requires Shape(m) && IsRoot(m, r) && UserPage(v)
    ensures Walk(m, r, v).Some? ==> Walk(m, r, v).value.pfn < |m.mem| && m.role[Walk(m, r, v).value.pfn] == Data
  {
    if Walk(m, r, v).Some? {
      WalkSlot(m, r, v);
    }
  }

  /** The counts, when one fresh frame `h` is accounted for and the frame of the entry `old` lost an entry. */
  lemma SurplusConclusion(m: Machine, m': Machine, h: nat, gone: Option<Word>)
    requires Sized(m) && Sized(m') && Covered(m) && |m'.mem| == |m.mem|
    requires forall x :: 0 <= x < |m.mem| && m'.role[x] == Data ==>
                           (x == h || m.role[x] == Data)
                           && Surplus(m', x) == if x == h then 0 else Surplus(m, x) + Points(gone, x)
    requires forall x :: 0 <= x < |m.mem| && m.role[x] == Data ==> x != h && m'.role[x] == Data
    requires gone.Some? ==> gone.value.pfn < |m.mem| && m.role[gone.value.pfn] == Data
    ensures Covered(m') && (Exact(m') <==> Exact(m) && gone == None)
    ensures gone == None ==> SurplusKept(m, m')
  {
    if gone.Some? {
      assert Points(gone, gone.value.pfn) == 1;
      assert m'.role[gone.value.pfn] == Data && Surplus(m', gone.value.pfn) > 0;
    } else if Exact(m') {
      forall x | 0 <= x < |m.mem| && m.role[x] == Data
        ensures Surplus(m, x) == 0
      {
        assert m'.role[x] == Data && Surplus(m', x) == 0;
      }
    }
  }

  lemma NewFrameUnmapped(m: Machine, h: nat)
    requires Shape(m) && h < |m.mem| && m.role[h] == Unused
    ensures Slots(m, h) == {}
  {
    forall f: nat, i: nat | PteSlot(m, f, i)
      ensures m.mem[f][i].pfn != h
    {
      assert TableOk(m, f) && EntryOk(m, f, i);
    }
  }

  // ----- changes outside the tables

  /** Same tables, same free list; data may differ. */
  ghost predicate SameTables(m: Machine, m': Machine) {
    && Sized(m) && |m'.mem| == |m.mem| && |m'.refs| == |m.refs|
    && m'.next == m.next && m'.head == m.head && m'.tail == m.tail && m'.free == m.free
    && m'.role == m.role && m'.kroot == m.kroot
    && forall x :: 0 <= x < |m.mem| && m.role[x].Table? ==> m'.mem[x] == m.mem[x]
  }

  lemma SameTablesKeep(m: Machine, m': Machine)
    requires Shape(m) && SameTables(m, m') && CountsOk(m')
    ensures Shape(m')
    ensures forall q: nat, u: Vpn {:trigger Walk(m', q, u)} :: IsRoot(m, q) ==> Walk(m', q, u) == Walk(m, q, u)
    ensures forall q: nat, u: Vpn {:trigger SlotOf(m', q, u)} :: IsRoot(m, q) ==> SlotOf(m', q, u) == SlotOf(m, q, u)
    ensures forall f: nat, i: nat :: PteSlot(m', f, i) <==> PteSlot(m, f, i)
    ensures forall x :: Slots(m', x) == Slots(m, x)
  {
    forall x | 0 <= x < |m'.mem| && m'.role[x].Table?
      ensures TableOk(m', x)
      ensures m'.role[x].path != [] ==> ParentOk(m', x)
    {
      assert TableOk(m, x);
      forall j | 0 <= j < 512
        ensures EntryOk(m', x, j)
      {
        assert EntryOk(m, x, j);
      }
      if m'.role[x].path != [] {
        assert ParentOk(m, x);
      }
    }
    forall q: nat, u: Vpn | IsRoot(m, q)
      ensures Walk(m', q, u) == Walk(m, q, u) && SlotOf(m', q, u) == SlotOf(m, q, u)
    {
      assert OnPath(m, q, u, 0);
      TablesSameDescend(m, m', q, u, 0);
    }
  }

  /** Counting a reference up or down; the frame stays in use. */
  function SetRefs(m: Machine, x: nat, n: nat): Machine {
    if x < |m.refs| then m.(refs := m.refs[x := n]) else m
  }

  function CountedOnce(m: Machine, x: nat): Machine {
    SetRefs(m, x, (if x < |m.refs| then m.refs[x] else 0) + 1)
  }

  lemma SetRefsOk(m: Machine, x: nat, n: nat)
    requires Shape(m) && IsRoot(m, m.kroot) && Solo(m) && x < |m.mem| && m.role[x] == Data && n > 0
    ensures var m' := SetRefs(m, x, n);
            && CowInvButCounts(m') && PagesKept(m, m') && SameTables(m, m')
            && (forall q: nat, u: Vpn {:trigger Walk(m', q, u)} :: IsRoot(m, q) ==> Walk(m', q, u) == Walk(m, q, u))
            && (forall y :: Slots(m', y) == Slots(m, y))
  {
    var m' := SetRefs(m, x, n);
    SameTablesKeep(m, m');
    forall f: nat, i: nat | PteSlot(m', f, i) && Writable(m'.mem[f][i])
      ensures Slots(m', m'.mem[f][i].pfn) == {(f, i)}
    {
      assert PteSlot(m, f, i);
    }
  }

  // ----- fork: one page shared between parent and child

  /** UNSET_WRITE and SET_COW. */
  function Shared(e: Word): Word {
    Word(e.pfn, (e.flags & 0xFFD) | 0x100)
  }

  lemma NoFlags(w: Word)
    ensures WithFlags(w, 0) == w
  {
    assert w.flags | 0 == w.flags;
  }

  /** Bit 1 is cleared and bit 8 set; the frame and all other bits stay. */
  lemma SharedBits(e: Word)
    ensures Shared(e).pfn == e.pfn && Shared(e).flags & 0x102 == 0x100 && Shared(e).flags & 0xEFD == e.flags & 0xEFD
    ensures Shared(Shared(e)) == Shared(e)
  {
    var f := e.flags;
    assert ((f & 0xFFD) | 0x100) & 0x102 == 0x100;
    assert ((f & 0xFFD) | 0x100) & 0xEFD == f & 0xEFD;
    assert (((f & 0xFFD) | 0x100) & 0xFFD) | 0x100 == (f & 0xFFD) | 0x100;
  }

  lemma SharedFlags(e: Word)
    requires Present(e) && ForUser(e)
    ensures Present(Shared(e)) && !Writable(Shared(e)) && ForUser(Shared(e))
  {
    var f := e.flags;
    assert ((f & 0xFFD) | 0x100) & 4 == f & 4;
    assert ((f & 0xFFD) | 0x100) & 1 == f & 1;
    assert ((f & 0xFFD) | 0x100) & 2 == 0;
  }

  /** The body of the page loop in fork_process. */
  function SharePage(m: Machine, pr: nat, cr: nat, v: Vpn): (m': Machine)
    requires pr < |m.mem| && cr < |m.mem| == |m.refs|
    ensures |m'.mem| == |m.mem| && |m'.refs| == |m.refs|
  {
    match Walk(m, pr, v)
    case None => m
    case Some(e) =>
      CountedOnce(SetMapping(SetMapping(m, pr, v, Shared(e)), cr, v, Shared(e)), e.pfn)
  }

  /** What the child maps, the parent maps to the same frame. */
  ghost predicate ChildFollows(m: Machine, pr: nat, cr: nat) {
    && IsRoot(m, pr) && IsRoot(m, cr)
    && forall v: Vpn {:trigger Walk(m, cr, v)} :: UserPage(v) && Walk(m, cr, v).Some? ==>
         Walk(m, pr, v).Some? && Walk(m, pr, v).value.pfn == Walk(m, cr, v).value.pfn
  }

  ghost predicate SharePre(m: Machine, pr: nat, cr: nat, v: Vpn) {
    && CowInv(m) && pr != cr && ChildFollows(m, pr, cr) && UserPage(v)
    && (Walk(m, pr, v).Some? ==> |m.free| >= Missing(m, cr, v, 0))
  }

  /** What sharing a page achieves: both map the frame read-only, no page of the parent or of anybody else reads
      differently, and the count is off by one more exactly when the child had mapped the page before. */
  ghost predicate PageShared(m: Machine, m': Machine, pr: nat, cr: nat, v: Vpn, e: Word)
    requires CowInv(m) && IsRoot(m, cr) && IsRoot(m, pr) && e.pfn < |m.mem|
  {
    && CowInv(m')
    && PageSet(m, m', cr, v, m.mem[e.pfn])
    && |m'.free| >= |m.free| - 3
    && ShareWalks(m, m', pr, cr, v, e)
    && ShareCounts(m, m', cr, v)
  }

  ghost predicate ShareWalks(m: Machine, m': Machine, pr: nat, cr: nat, v: Vpn, e: Word)
    requires RootsKept(m, m') && IsRoot(m, cr) && IsRoot(m, pr)
  {
    && Walk(m', pr, v) == Walk(m', cr, v) == Some(Shared(e))
    && (forall q: nat, u: Vpn {:trigger Walk(m', q, u)} :: IsRoot(m, q) && (q, u) != (pr, v) && (q, u) != (cr, v) ==>
          Walk(m', q, u) == Walk(m, q, u))
  }

  ghost predicate ShareCounts(m: Machine, m': Machine, cr: nat, v: Vpn)
    requires Sized(m) && Sized(m') && |m'.mem| == |m.mem| && cr < |m.mem|
  {
    forall x :: 0 <= x < |m.mem| && (m.role[x] == Data || m'.role[x] == Data) ==>
                  m.role[x] == m'.role[x] && Surplus(m', x) == Surplus(m, x) + Points(Walk(m, cr, v), x)
  }

  lemma MissingWhenMapped(m: Machine, f: nat, v: Vpn, d: nat)
    requires d <= 3 && f < |m.mem| && Descend(m, f, v, d).Some?
    ensures Missing(m, f, v, d) == 0
    decreases 3 - d
  {
  }

  lemma SharePageOk(m: Machine, pr: nat, cr: nat, v: Vpn)
    requires SharePre(m, pr, cr, v) && Walk(m, pr, v).Some?
    ensures Walk(m, pr, v).value.pfn < |m.mem|
    ensures PageShared(m, SharePage(m, pr, cr, v), pr, cr, v, Walk(m, pr, v).value)
    ensures ChildFollows(SharePage(m, pr, cr, v), pr, cr)
  {
    var e := Walk(m, pr, v).value;
    WalkSlot(m, pr, v);
    var m1 := SetMapping(m, pr, v, Shared(e));
    var m2 := SetMapping(m1, cr, v, Shared(e));
    ShareMappings(m, m1, m2, pr, cr, v, e);
    ShareCountable(m, m1, m2, pr, cr, v, e);
    SharePageCounts(m, m1, m2, pr, cr, v, e);
    SharePageSteps(m, m1, m2, SharePage(m, pr, cr, v), pr, cr, v, e);
    ChildStillFollows(m, SharePage(m, pr, cr, v), pr, cr, v, e);
  }

  lemma SharePageCounts(m: Machine, m1: Machine, m2: Machine, pr: nat, cr: nat, v: Vpn, e: Word)
    requires pr < |m.mem| && cr < |m.mem| == |m.refs| && Walk(m, pr, v) == Some(e) && e.pfn < |m.mem|
    requires m1 == SetMapping(m, pr, v, Shared(e)) && m2 == SetMapping(m1, cr, v, Shared(e)) && Countable(m2, e.pfn)
    ensures CountedUp(m2, SharePage(m, pr, cr, v), e.pfn)
  {
    CountUp(m2, e.pfn);
  }

  lemma SharePageUnfold(m: Machine, pr: nat, cr: nat, v: Vpn, e: Word, m1: Machine, m2: Machine)
    requires pr < |m.mem| && cr < |m.mem| == |m.refs| && Walk(m, pr, v) == Some(e) && e.pfn < |m.mem|
    requires m1 == SetMapping(m, pr, v, Shared(e)) && m2 == SetMapping(m1, cr, v, Shared(e))
    ensures SharePage(m, pr, cr, v) == CountedOnce(m2, e.pfn)
  {
  }

  lemma ShareMappings(m: Machine, m1: Machine, m2: Machine, pr: nat, cr: nat, v: Vpn, e: Word)
    requires SharePre(m, pr, cr, v) && Walk(m, pr, v) == Some(e) && e.pfn < |m.mem| && m.role[e.pfn] == Data
    requires Present(e) && ForUser(e)
    requires m1 == SetMapping(m, pr, v, Shared(e)) && m2 == SetMapping(m1, cr, v, Shared(e))
    ensures Sized(m2) && |m2.mem| == |m.mem| && CanMap(m1, cr, v)
    ensures SharedTwice(m, m1, m2, pr, cr, v, e)
  {
    SharedFlags(e);
    MissingWhenMapped(m, pr, v, 0);
    SetMappingIsUpdate(m, pr, v, Shared(e));
    ParentLeafOnly(m, pr, cr, v, Shared(e));
    ShareChild(m, m1, m2, pr, cr, v, e);
  }

  /** The parent's mapping overwrites a leaf entry, so the child lacks the same tables as before. */
  lemma ParentLeafOnly(m: Machine, pr: nat, cr: nat, v: Vpn, w: Word)
    requires Shape(m) && IsRoot(m, pr) && IsRoot(m, cr) && Missing(m, pr, v, 0) == 0
    ensures Missing(SetMapping(m, pr, v, w), cr, v, 0) == Missing(m, cr, v, 0)
  {
    assert OnPath(m, pr, v, 0) && OnPath(m, cr, v, 0);
    OverwritesLeaf(m, pr, v, 0, w);
    SameMissing(m, SetMapping(m, pr, v, w), cr, v, 0);
  }

  lemma MappedCanMap(m: Machine, r: nat, v: Vpn)
    requires Shape(m) && IsRoot(m, r) && UserPage(v) && Walk(m, r, v).Some?
    ensures CanMap(m, r, v)
  {
    MissingWhenMapped(m, r, v, 0);
  }

  /** The same entry is stored for a page of two address spaces, first in `m`, then in `m1`. */
  ghost predicate BothMapped(m: Machine, m1: Machine, m2: Machine, pr: nat, cr: nat, v: Vpn, w: Word) {
    && CanMap(m, pr, v) && m1 == SetMapping(m, pr, v, w)
    && CanMap(m1, cr, v) && m2 == SetMapping(m1, cr, v, w)
  }

  /** Both mappings of the loop body can be made, and give the machine of SharePage. */
  lemma ShareReady(m: Machine, pr: nat, cr: nat, v: Vpn, e: Word, goal: Machine) returns (m1: Machine, m2: Machine)
    requires SharePre(m, pr, cr, v) && Walk(m, pr, v) == Some(e) && goal == SharePage(m, pr, cr, v)
    ensures BothMapped(m, m1, m2, pr, cr, v, Shared(e)) && e.pfn < |m.mem|
    ensures goal == CountedOnce(m2, Shared(e).pfn)
  {
    WalkSlot(m, pr, v);
    m1 := SetMapping(m, pr, v, Shared(e));
    m2 := SetMapping(m1, cr, v, Shared(e));
    MappedCanMap(m, pr, v);
    ShareMappings(m, m1, m2, pr, cr, v, e);
    SharePageUnfold(m, pr, cr, v, e, m1, m2);
  }

  lemma ShareChild(m: Machine, m1: Machine, m2: Machine, pr: nat, cr: nat, v: Vpn, e: Word)
    requires SharePre(m, pr, cr, v) && e.pfn < |m.mem| && m.role[e.pfn] == Data && Present(Shared(e))
             && ForUser(Shared(e))
    requires Updated(m, m1, pr, v, Shared(e)) && |m1.free| == |m.free| && m2 == SetMapping(m1, cr, v, Shared(e))
    requires |m.free| >= Missing(m, cr, v, 0) && Missing(m1, cr, v, 0) == Missing(m, cr, v, 0)
    ensures CanMap(m1, cr, v) && Updated(m1, m2, cr, v, Shared(e)) && |m2.free| >= |m1.free| - 3
  {
    assert CanMap(m1, cr, v);
    SetMappingIsUpdate(m1, cr, v, Shared(e));
  }

  lemma ChildStillFollows(m: Machine, m': Machine, pr: nat, cr: nat, v: Vpn, e: Word)
    requires SharePre(m, pr, cr, v) && RootsKept(m, m') && ShareWalks(m, m', pr, cr, v, e)
    ensures ChildFollows(m', pr, cr)
  {
  }

  /** The page's entry was stored in both address spaces. */
  ghost predicate SharedTwice(m: Machine, m1: Machine, m2: Machine, pr: nat, cr: nat, v: Vpn, e: Word) {
    && SharePre(m, pr, cr, v) && Walk(m, pr, v) == Some(e) && e.pfn < |m.mem| && m.role[e.pfn] == Data
    && Present(Shared(e)) && !Writable(Shared(e))
    && Updated(m, m1, pr, v, Shared(e)) && Updated(m1, m2, cr, v, Shared(e))
    && |m1.free| == |m.free| && |m2.free| >= |m1.free| - 3
  }

  /** One more reference to frame `x` is counted. */
  ghost predicate CountedUp(m: Machine, m': Machine, x: nat) {
    && CowInvButCounts(m') && PagesKept(m, m') && m'.free == m.free && m'.role == m.role
    && x < |m.refs| && m'.refs == m.refs[x := m.refs[x] + 1]
    && (forall q: nat, u: Vpn {:trigger Walk(m', q, u)} :: IsRoot(m, q) ==> Walk(m', q, u) == Walk(m, q, u))
    && (forall y {:trigger Slots(m', y)} :: Slots(m', y) == Slots(m, y))
  }

  lemma CountUp(m: Machine, x: nat)
    requires Countable(m, x)
    ensures x < |m.refs| && CountedUp(m, CountedOnce(m, x), x)
  {
    SetRefsOk(m, x, m.refs[x] + 1);
  }

  ghost predicate Countable(m: Machine, x: nat) {
    CowInvButCounts(m) && x < |m.mem| && m.role[x] == Data
  }

  ghost predicate ShareSteps(m: Machine, m1: Machine, m2: Machine, m3: Machine, pr: nat, cr: nat, v: Vpn, e: Word) {
    SharedTwice(m, m1, m2, pr, cr, v, e) && CountedUp(m2, m3, e.pfn)
  }

  lemma ShareCountable(m: Machine, m1: Machine, m2: Machine, pr: nat, cr: nat, v: Vpn, e: Word)
    requires SharedTwice(m, m1, m2, pr, cr, v, e)
    ensures Countable(m2, e.pfn)
  {
    ShareSolo(m, m1, m2, pr, cr, v, e);
    GrownTwice(m, m1, m2, v, e.pfn);
  }

  lemma SharePageSteps(m: Machine, m1: Machine, m2: Machine, m3: Machine, pr: nat, cr: nat, v: Vpn, e: Word)
    requires ShareSteps(m, m1, m2, m3, pr, cr, v, e)
    ensures PageShared(m, m3, pr, cr, v, e)
  {
    GrownTwice(m, m1, m2, v, e.pfn);
    ShareContents(m, m1, m2, m3, pr, cr, v, Shared(e));
    ShareCounted(m, m1, m2, m3, pr, cr, v, e);
    ShareWalked(m, m1, m2, m3, pr, cr, v, Shared(e));
    ShareCovered(m, m3, cr, v);
  }

  lemma GrownTwice(m: Machine, m1: Machine, m2: Machine, v: Vpn, x: nat)
    requires Grown(m, m1, v) && Grown(m1, m2, v) && IsRoot(m, m.kroot) && x < |m.mem| && m.role[x] == Data
    ensures RootsKept(m, m2) && IsRoot(m2, m2.kroot) && x < |m2.mem| && m2.role[x] == Data
  {
  }

  lemma ShareSolo(m: Machine, m1: Machine, m2: Machine, pr: nat, cr: nat, v: Vpn, e: Word)
    requires CowInv(m) && IsRoot(m, pr) && UserPage(v) && Walk(m, pr, v) == Some(e) && e.pfn < |m.mem|
    requires !Writable(Shared(e)) && SlotUpdated(m, m1, pr, v, Shared(e)) && SlotUpdated(m1, m2, cr, v, Shared(e))
    ensures Solo(m2)
  {
    ParentSolo(m, m1, pr, v, e);
    ChildSolo(m1, m2, cr, v, e);
  }

  lemma ShareCovered(m: Machine, m': Machine, cr: nat, v: Vpn)
    requires CowInv(m) && Sized(m') && |m'.mem| == |m.mem| && cr < |m.mem| && ShareCounts(m, m', cr, v)
    ensures Covered(m')
  {
  }

  lemma ShareWalked(m: Machine, m1: Machine, m2: Machine, m3: Machine, pr: nat, cr: nat, v: Vpn, w: Word)
    requires IsRoot(m, pr) && IsRoot(m, cr) && pr != cr && RootsKept(m, m3) && WalkUpdated(m, m1, pr, v, w)
             && WalkUpdated(m1, m2, cr, v, w)
    requires |m3.mem| == |m2.mem|
    requires forall q: nat, u: Vpn {:trigger Walk(m3, q, u)} :: IsRoot(m2, q) ==> Walk(m3, q, u) == Walk(m2, q, u)
    ensures Walk(m3, pr, v) == Walk(m3, cr, v) == Some(w)
    ensures forall q: nat, u: Vpn {:trigger Walk(m3, q, u)} ::
              IsRoot(m, q) && (q, u) != (pr, v) && (q, u) != (cr, v) ==>
              Walk(m3, q, u) == Walk(m, q, u)
  {
    forall q: nat, u: Vpn | IsRoot(m, q) && (q, u) != (pr, v) && (q, u) != (cr, v)
      ensures Walk(m3, q, u) == Walk(m, q, u)
    {
      assert Walk(m2, q, u) == Walk(m1, q, u) == Walk(m, q, u);
    }
    assert Walk(m2, pr, v) == Walk(m1, pr, v);
  }

  lemma ShareContents(m: Machine, m1: Machine, m2: Machine, m3: Machine, pr: nat, cr: nat, v: Vpn, w: Word)
    requires Shape(m) && IsRoot(m, pr) && Grown(m, m1, v) && WalkUpdated(m, m1, pr, v, w)
    requires Shape(m1) && IsRoot(m, cr) && Grown(m1, m2, v) && WalkUpdated(m1, m2, cr, v, w) && PagesKept(m2, m3)
    requires UserPage(v) && Present(w) && w.pfn < |m.mem| && m.role[w.pfn] == Data && RootsKept(m, m3)
    requires Walk(m, pr, v).Some? && Walk(m, pr, v).value.pfn == w.pfn
    ensures PageSet(m, m3, cr, v, m.mem[w.pfn])
  {
    RemapPages(m, m1, pr, v, w);
    RemapPages(m1, m2, cr, v, w);
    assert m2.mem[w.pfn] == m1.mem[w.pfn] == m.mem[w.pfn];
    forall q: nat, u: Vpn | IsRoot(m, q) && UserPage(u) && (q, u) != (cr, v)
      ensures PageOf(m3, q, u) == PageOf(m, q, u)
    {
      assert PageOf(m3, q, u) == PageOf(m2, q, u) == PageOf(m1, q, u);
    }
    assert PageOf(m3, cr, v) == PageOf(m2, cr, v);
  }

  lemma ShareCounted(m: Machine, m1: Machine, m2: Machine, m3: Machine, pr: nat, cr: nat, v: Vpn, e: Word)
    requires ShareSteps(m, m1, m2, m3, pr, cr, v, e)
    ensures ShareCounts(m, m3, cr, v)
  {
    forall x | 0 <= x < |m.mem| && (m.role[x] == Data || m3.role[x] == Data)
      ensures m.role[x] == m3.role[x] && Surplus(m3, x) == Surplus(m, x) + Points(Walk(m, cr, v), x)
    {
      assert Slots(m3, x) == Slots(m2, x);
      ShareSurplus(m, m1, m2, m3, pr, cr, v, e, x);
    }
  }

  lemma ShareSurplus(m: Machine, m1: Machine, m2: Machine, m3: Machine, pr: nat, cr: nat, v: Vpn, e: Word, x: nat)
    requires Sized(m) && Sized(m1) && Sized(m2) && Sized(m3) && |m.mem| == |m1.mem| == |m2.mem| == |m3.mem|
             && e.pfn < |m.mem|
    requires pr != cr && IsRoot(m, pr) && IsRoot(m, cr) && Walk(m, pr, v) == Some(e) && m.role[e.pfn] == Data
    requires Grown(m, m1, v) && Grown(m1, m2, v)
    requires WalkUpdated(m, m1, pr, v, Shared(e)) && SlotUpdated(m, m1, pr, v, Shared(e))
             && SlotUpdated(m1, m2, cr, v, Shared(e))
    requires x < |m.mem| && (m.role[x] == Data || m3.role[x] == Data) && m3.role == m2.role
             && Slots(m3, x) == Slots(m2, x)
    requires m3.refs == m2.refs[e.pfn := m2.refs[e.pfn] + 1]
    ensures m.role[x] == m3.role[x] && Surplus(m3, x) == Surplus(m, x) + Points(Walk(m, cr, v), x)
  {
    RemapCount(m, m1, pr, v, Shared(e), x);
    RemapCount(m1, m2, cr, v, Shared(e), x);
    assert Walk(m1, cr, v) == Walk(m, cr, v);
  }

  /** After the parent's mapping no entry of the frame is writable. */
  lemma ParentSolo(m: Machine, m1: Machine, pr: nat, v: Vpn, e: Word)
    requires CowInv(m) && IsRoot(m, pr) && UserPage(v) && Walk(m, pr, v) == Some(e) && e.pfn < |m.mem|
    requires !Writable(Shared(e)) && SlotUpdated(m, m1, pr, v, Shared(e))
    ensures Solo(m1) && forall t :: t in Slots(m1, e.pfn) ==> !Writable(m1.mem[t.0][t.1])
  {
    WalkSlot(m, pr, v);
    var s := SlotOf(m1, pr, v);
    forall t | t in Slots(m, e.pfn) && t != s
      ensures !Writable(m.mem[t.0][t.1])
    {
      assert s in Slots(m, e.pfn);
      assert PteSlot(m, t.0, t.1);
    }
    RemapSolo(m, m1, pr, v, Shared(e));
    assert s in Slots(m1, e.pfn);
    forall t | t in Slots(m1, e.pfn)
      ensures !Writable(m1.mem[t.0][t.1])
    {
      assert PteSlot(m1, t.0, t.1);
      assert Writable(m1.mem[t.0][t.1]) ==> Slots(m1, e.pfn) == {t};
    }
  }

  lemma ChildSolo(m1: Machine, m2: Machine, cr: nat, v: Vpn, e: Word)
    requires Solo(m1) && !Writable(Shared(e)) && SlotUpdated(m1, m2, cr, v, Shared(e))
    requires forall t :: t in Slots(m1, e.pfn) ==> !Writable(m1.mem[t.0][t.1])
    ensures Solo(m2)
  {
    RemapSolo(m1, m2, cr, v, Shared(e));
  }

  // ----- the write fault

  /** UNSET_COW and SET_WRITE, and the flag that set_mapping adds. */
  function Owned(e: Word): Word {
    WithFlags(Word(e.pfn, (e.flags & 0xEFF) | 2), 1)
  }

  /** Bit 8 is cleared, bits 0 and 1 are set; the frame and all other bits stay. */
  lemma OwnedBits(e: Word)
    ensures Owned(e).pfn == e.pfn && Owned(e).flags & 0x103 == 0x003 && Owned(e).flags & 0xEFC == e.flags & 0xEFC
  {
    var f := e.flags;
    assert (((f & 0xEFF) | 2) | 1) & 0x103 == 0x003;
    assert (((f & 0xEFF) | 2) | 1) & 0xEFC == f & 0xEFC;
  }

  lemma OwnedFlags(e: Word)
    requires ForUser(e)
    ensures Present(Owned(e)) && Writable(Owned(e)) && ForUser(Owned(e))
  {
    var f := e.flags;
    assert (((f & 0xEFF) | 2) | 1) & 4 == f & 4;
    assert (((f & 0xEFF) | 2) | 1) & 1 == 1;
    assert (((f & 0xEFF) | 2) | 1) & 2 == 2;
  }

  /** The copy-on-write branch of page_fault_handler: the last user of a frame takes it over, any other user gets
      a copy and gives up its reference. */
  function CowFault(m: Machine, r: nat, v: Vpn): (m': Machine)
    requires r < |m.mem| == |m.refs| == |m.next| == |m.role| && (m.head.Some? ==> m.head.value < |m.mem|)
    ensures |m'.mem| == |m.mem|
  {
    match Walk(m, r, v)
    case None => m
    case Some(e) =>
      if e.pfn >= |m.mem| then m
      else if m.refs[e.pfn] == 1 then SetMapping(m, r, v, Owned(e))
      else if m.refs[e.pfn] > 1 && m.head.Some? then
        SetRefs(SetMapping(TakeData(m, m.mem[e.pfn]), r, v, Word(m.head.value, 7)), e.pfn, m.refs[e.pfn] - 1)
      else m
  }

  /** The fault is on a mapped page of a frame with other users, and takes a frame for the copy. */
  predicate NeedsCopy(m: Machine, r: nat, v: Vpn)
    requires r < |m.mem|
  {
    Walk(m, r, v).Some? && Walk(m, r, v).value.pfn < |m.refs| && m.refs[Walk(m, r, v).value.pfn] > 1
  }

  ghost predicate CanCopy(m: Machine, r: nat, v: Vpn) {
    CowInv(m) && IsRoot(m, r) && UserPage(v) && (NeedsCopy(m, r, v) ==> m.free != [])
  }

  /** What the write fault achieves: the page is now writable, no page of any address space reads differently, and
      the counts are as accurate as before. */
  ghost predicate FaultResolved(m: Machine, m': Machine, r: nat, v: Vpn)
    requires CowInv(m) && IsRoot(m, r)
  {
    && CowInv(m') && PagesKept(m, m') && SurplusKept(m, m') && (Exact(m) ==> Exact(m'))
    && Walk(m', r, v).Some? && Writable(Walk(m', r, v).value)
    && |m'.free| >= |m.free| - 1
  }

  lemma CowFaultOk(m: Machine, r: nat, v: Vpn)
    requires CanCopy(m, r, v) && Walk(m, r, v).Some?
    ensures FaultResolved(m, CowFault(m, r, v), r, v)
    ensures !NeedsCopy(m, r, v) ==> |CowFault(m, r, v).free| == |m.free|
  {
    var e := Walk(m, r, v).value;
    CopyReady(m, r, v, e);
    if m.refs[e.pfn] == 1 {
      TakeOverResolves(m, r, v, e);
    } else {
      CopyResolves(m, r, v, e);
    }
  }

  lemma TakeOverResolves(m: Machine, r: nat, v: Vpn, e: Word)
    requires CowInv(m) && IsRoot(m, r) && UserPage(v) && Walk(m, r, v) == Some(e) && e.pfn < |m.mem|
             && m.refs[e.pfn] == 1
    ensures FaultResolved(m, SetMapping(m, r, v, Owned(e)), r, v) && |SetMapping(m, r, v, Owned(e)).free| == |m.free|
  {
    WalkSlot(m, r, v);
    MissingWhenMapped(m, r, v, 0);
    OwnedFlags(e);
    SetMappingIsUpdate(m, r, v, Owned(e));
    TakeOver(m, SetMapping(m, r, v, Owned(e)), r, v, e);
  }

  lemma CopyResolves(m: Machine, r: nat, v: Vpn, e: Word)
    requires CowInv(m) && IsRoot(m, r) && UserPage(v) && Walk(m, r, v) == Some(e) && e.pfn < |m.mem|
             && m.refs[e.pfn] > 1
    requires m.free != []
    ensures FaultResolved(m, CowFault(m, r, v), r, v)
  {
    WalkSlot(m, r, v);
    TakeAsOk(m, Data, m.mem[e.pfn]);
    TakeAsKeeps(m, Data, m.mem[e.pfn]);
    CopyPage(m, TakeData(m, m.mem[e.pfn]), CowFault(m, r, v), r, v, e);
  }

  /** The copying branch, step by step. */
  lemma CopyReady(m: Machine, r: nat, v: Vpn, e: Word)
    requires CanCopy(m, r, v) && Walk(m, r, v) == Some(e)
    ensures e.pfn < |m.mem| == |m.refs|
    ensures m.refs[e.pfn] > 1 ==>
              && m.head.Some? && m.head.value < |m.mem| && m.head.value != e.pfn
              && CanMap(TakeData(m, m.mem[e.pfn]), r, v)
              && CowFault(m, r, v)
                  == SetRefs(SetMapping(TakeData(m, m.mem[e.pfn]), r, v, Word(m.head.value, 7)), e.pfn,
                             m.refs[e.pfn] - 1)
    ensures m.refs[e.pfn] == 1 ==> CanMap(m, r, v) && CowFault(m, r, v) == SetMapping(m, r, v, Owned(e))
    ensures m.refs[e.pfn] > 0
  {
    WalkSlot(m, r, v);
    MissingWhenMapped(m, r, v, 0);
    if m.refs[e.pfn] > 1 {
      TakeAsOk(m, Data, m.mem[e.pfn]);
      assert Missing(TakeData(m, m.mem[e.pfn]), r, v, 0) == Missing(m, r, v, 0);
    }
  }

  lemma TakeOver(m: Machine, m': Machine, r: nat, v: Vpn, e: Word)
    requires CowInv(m) && IsRoot(m, r) && UserPage(v) && Walk(m, r, v) == Some(e)
    requires e.pfn < |m.mem| && m.role[e.pfn] == Data && m.refs[e.pfn] == 1
    requires Updated(m, m', r, v, Owned(e)) && |m'.free| == |m.free| && Present(Owned(e)) && Writable(Owned(e))
    ensures FaultResolved(m, m', r, v)
  {
    RemapPages(m, m', r, v, Owned(e));
    WalkSlot(m, r, v);
    var s := SlotOf(m, r, v);
    OnlyOne(Slots(m, e.pfn), s, Surplus(m, e.pfn));
    assert Owned(e).pfn == e.pfn;
    RemapSolo(m, m', r, v, Owned(e));
    TakeOverCounted(m, m', r, v, e);
  }

  lemma TakeOverCounted(m: Machine, m': Machine, r: nat, v: Vpn, e: Word)
    requires CowInv(m) && r < |m.mem| && Walk(m, r, v) == Some(e) && Grown(m, m', v)
             && SlotUpdated(m, m', r, v, Owned(e))
    ensures SurplusKept(m, m') && Covered(m') && (Exact(m) ==> Exact(m'))
  {
    forall x | 0 <= x < |m.mem| && (m.role[x] == Data || m'.role[x] == Data)
      ensures m.role[x] == m'.role[x] && Surplus(m', x) == Surplus(m, x)
    {
      RemapCount(m, m', r, v, Owned(e), x);
    }
  }

  lemma OnlyOne(s: set<(nat, nat)>, t: (nat, nat), surplus: int)
    requires t in s && 1 - |s| == surplus && surplus >= 0
    ensures s == {t}
  {
    assert |s - {t}| == 0;
  }

  lemma CopyPage(m: Machine, t: Machine, m': Machine, r: nat, v: Vpn, e: Word)
    requires CowInv(m) && IsRoot(m, r) && UserPage(v) && Walk(m, r, v) == Some(e) && m.free != []
    requires e.pfn < |m.mem| && m.role[e.pfn] == Data && m.refs[e.pfn] > 1
    requires var h := m.free[0];
             && h < |m.mem| && m.role[h] == Unused && t.role == m.role[h := Data] && t.refs == m.refs[h := 1]
             && t.mem == m.mem[h := m.mem[e.pfn]] && t.kroot == m.kroot && t.free == m.free[1..]
             && Slots(t, h) == {}
             && m' == SetRefs(SetMapping(t, r, v, Word(h, 7)), e.pfn, m.refs[e.pfn] - 1)
    requires forall x :: Slots(t, x) == Slots(m, x)
    requires CowInvButCounts(t) && PagesKept(m, t) && Walk(t, r, v) == Some(e)
    ensures FaultResolved(m, m', r, v)
  {
    var w := Word(m.free[0], 7);
    assert Present(w) && Writable(w) && ForUser(w);
    MissingWhenMapped(t, r, v, 0);
    SetMappingIsUpdate(t, r, v, w);
    CopyDone(m, t, SetMapping(t, r, v, w), m', r, v, e, w);
  }

  ghost predicate CopySteps(m: Machine, t: Machine, c: Machine, r: nat, v: Vpn, e: Word, w: Word) {
    && CowInv(m) && IsRoot(m, r) && UserPage(v) && Walk(m, r, v) == Some(e)
    && e.pfn < |m.mem| && m.role[e.pfn] == Data && m.refs[e.pfn] > 1
    && w.pfn < |m.mem| && m.role[w.pfn] == Unused && Present(w) && Writable(w)
    && t.role == m.role[w.pfn := Data] && t.refs == m.refs[w.pfn := 1]
    && t.mem == m.mem[w.pfn := m.mem[e.pfn]] && t.kroot == m.kroot && |t.free| >= |m.free| - 1
    && Slots(t, w.pfn) == {} && (forall x :: Slots(t, x) == Slots(m, x))
    && CowInvButCounts(t) && PagesKept(m, t) && Walk(t, r, v) == Some(e)
    && Updated(t, c, r, v, w) && |c.free| == |t.free|
  }

  lemma CopyDone(m: Machine, t: Machine, c: Machine, m': Machine, r: nat, v: Vpn, e: Word, w: Word)
    requires CopySteps(m, t, c, r, v, e, w) && m' == SetRefs(c, e.pfn, m.refs[e.pfn] - 1)
    ensures FaultResolved(m, m', r, v)
  {
    assert Solo(c) by { RemapSolo(t, c, r, v, w); }
    assert PageSet(t, c, r, v, m.mem[e.pfn]) by { RemapPages(t, c, r, v, w); }
    SetRefsOk(c, e.pfn, m.refs[e.pfn] - 1);
    CopyAccounts(m, t, c, m', r, v, e, w);
    CopyPages(m, t, c, m', r, v, e, w);
  }

  lemma CopyPages(m: Machine, t: Machine, c: Machine, m': Machine, r: nat, v: Vpn, e: Word, w: Word)
    requires CopySteps(m, t, c, r, v, e, w) && PageSet(t, c, r, v, m.mem[e.pfn]) && PagesKept(c, m')
    ensures PagesKept(m, m')
  {
  }

  lemma CopyCounted(m: Machine, t: Machine, c: Machine, m': Machine, r: nat, v: Vpn, e: Word, w: Word)
    requires CopySteps(m, t, c, r, v, e, w) && Sized(m') && m'.role == c.role
             && m'.refs == c.refs[e.pfn := m.refs[e.pfn] - 1]
    requires forall y {:trigger Slots(m', y)} :: Slots(m', y) == Slots(c, y)
    requires |m'.mem| == |m.mem|
    ensures forall x :: 0 <= x < |m.mem| && m'.role[x] == Data ==>
              (x == w.pfn || m.role[x] == Data) && Surplus(m', x) == if x == w.pfn then 0 else Surplus(m, x)
  {
    forall x | 0 <= x < |m.mem| && m'.role[x] == Data
      ensures x == w.pfn || m.role[x] == Data
      ensures Surplus(m', x) == if x == w.pfn then 0 else Surplus(m, x)
    {
      assert Slots(m', x) == Slots(c, x);
      RemapCount(t, c, r, v, w, x);
      CopySurplus(m, t, c, m', r, v, e, w, x);
    }
  }

  lemma CopyAccounts(m: Machine, t: Machine, c: Machine, m': Machine, r: nat, v: Vpn, e: Word, w: Word)
    requires CopySteps(m, t, c, r, v, e, w) && Sized(m') && m'.role == c.role
             && m'.refs == c.refs[e.pfn := m.refs[e.pfn] - 1]
    requires forall y {:trigger Slots(m', y)} :: Slots(m', y) == Slots(c, y)
    requires |m'.mem| == |m.mem|
    ensures SurplusKept(m, m') && Covered(m') && (Exact(m) ==> Exact(m'))
  {
    CopyCounted(m, t, c, m', r, v, e, w);
    DataStays(m, t, c, v, w.pfn);
    SurplusSame(m, m', w.pfn);
  }

  lemma SurplusSame(m: Machine, m': Machine, h: nat)
    requires Sized(m) && Sized(m') && Covered(m) && |m'.mem| == |m.mem|
    requires forall x :: 0 <= x < |m.mem| && m'.role[x] == Data ==>
                           (x == h || m.role[x] == Data) && Surplus(m', x) == if x == h then 0 else Surplus(m, x)
    requires forall x :: 0 <= x < |m.mem| && m.role[x] == Data ==> x != h && m'.role[x] == Data
    ensures SurplusKept(m, m') && Covered(m') && (Exact(m) ==> Exact(m'))
  {
  }

  lemma DataStays(m: Machine, t: Machine, c: Machine, v: Vpn, h: nat)
    requires Grown(t, c, v) && |t.mem| == |m.mem| == |m.role| && h < |m.mem| && m.role[h] == Unused
             && t.role == m.role[h := Data]
    ensures forall x :: 0 <= x < |m.mem| && m.role[x] == Data ==> x != h && c.role[x] == Data
  {
  }

  lemma CopySurplus(m: Machine, t: Machine, c: Machine, m': Machine, r: nat, v: Vpn, e: Word, w: Word, x: nat)
    requires Sized(m) && Sized(t) && Sized(c) && Sized(m') && |m.mem| == |t.mem| == |c.mem| == |m'.mem| && x < |m.mem|
             && r < |t.mem|
    requires e.pfn < |m.mem| && m.role[e.pfn] == Data && m.refs[e.pfn] > 1 && w.pfn < |m.mem| && m.role[w.pfn] == Unused
    requires t.role == m.role[w.pfn := Data] && t.refs == m.refs[w.pfn := 1] && Grown(t, c, v)
             && Walk(t, r, v) == Some(e)
    requires m'.role[x] == c.role[x] == Data && m'.refs[x] == if x == e.pfn then m.refs[e.pfn] - 1 else c.refs[x]
    requires Slots(m', x) == Slots(c, x) && Slots(t, x) == Slots(m, x) && Slots(t, w.pfn) == {}
    requires |Slots(c, x)| == |Slots(t, x)| - Points(Walk(t, r, v), x) + Points(Some(w), x)
    ensures x == w.pfn || m.role[x] == Data
    ensures Surplus(m', x) == if x == w.pfn then 0 else Surplus(m, x)
  {
  }

  // ----- the user's store

  /** A store through a writable page. */
  function Store(m: Machine, x: nat, k: nat, w: Word): Machine {
    if x < |m.mem| && k < 512 then StoreWord(m, x, k, w) else m
  }

  /** A store through a writable page is seen by the storing address space only. */
  lemma StoreOk(m: Machine, r: nat, v: Vpn, k: nat, w: Word)
    requires CowInv(m) && IsRoot(m, r) && UserPage(v) && k < 512
    requires Walk(m, r, v).Some? && Writable(Walk(m, r, v).value)
    ensures PageOf(m, r, v).Some?
    ensures var x := Walk(m, r, v).value.pfn;
            var m' := Store(m, x, k, w);
            && CowInv(m') && PageSet(m, m', r, v, PageOf(m, r, v).value[k := w]) && SurplusKept(m, m')
            && m'.free == m.free && (Exact(m) ==> Exact(m'))
            && x < |m.mem| && m'.refs == m.refs && m'.role == m.role
  {
    WalkSlot(m, r, v);
    var e := Walk(m, r, v).value;
    var m' := Store(m, e.pfn, k, w);
    SameTablesKeep(m, m');
    forall q: nat, u: Vpn | IsRoot(m, q) && UserPage(u) && (q, u) != (r, v)
      ensures PageOf(m', q, u) == PageOf(m, q, u)
    {
      if Walk(m, q, u).Some? {
        WalkSlot(m, q, u);
        SlotsDiffer(m, r, v, q, u);
      }
    }
    forall f: nat, i: nat | PteSlot(m', f, i) && Writable(m'.mem[f][i])
      ensures Slots(m', m'.mem[f][i].pfn) == {(f, i)}
    {
      assert PteSlot(m, f, i);
    }
  }
}
