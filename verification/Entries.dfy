/** Which page-table entries the steps of copy-on-write change, and to what. Every other entry, with its protection,
    stays (sys/pagefault.c, sys/process.c, include/sys/page.h). */
module Entries {
  import opened Lists
  import opened Frames
  import opened PageTables
  import opened AddressSpaces
  import opened CopyOnWrite
  import opened Forking

  ghost predicate WalksSame(m: Machine, m': Machine) {
    && RootsKept(m, m')
    && forall q: nat, u: Vpn {:trigger Walk(m', q, u)} :: IsRoot(m, q) ==> Walk(m', q, u) == Walk(m, q, u)
  }

  /** No walk of any address space changed, but for that of page `v` in `r`. */
  ghost predicate OnlyWalk(m: Machine, m': Machine, r: nat, v: Vpn) {
    && RootsKept(m, m')
    && forall q: nat, u: Vpn {:trigger Walk(m', q, u)} :: IsRoot(m, q) && (q, u) != (r, v) ==>
         Walk(m', q, u) == Walk(m, q, u)
  }

  /** Between steps that change no walk, one page is mapped. */
  lemma OnlyMapped(m: Machine, t: Machine, c: Machine, m': Machine, r: nat, v: Vpn, w: Word)
    requires IsRoot(m, r) && WalksSame(m, t) && WalkUpdated(t, c, r, v, w) && c.kroot == t.kroot && WalksSame(c, m')
    ensures OnlyWalk(m, m', r, v) && Walk(m', r, v) == Some(w)
  {
    forall q: nat, u: Vpn | IsRoot(m, q) && (q, u) != (r, v)
      ensures Walk(m', q, u) == Walk(m, q, u)
    {
      assert Walk(c, q, u) == Walk(t, q, u) == Walk(m, q, u);
    }
  }

  lemma TakeWalks(m: Machine, content: Frame)
    requires Shape(m) && m.free != []
    ensures m.head == Some(m.free[0]) && m.free[0] < |m.mem| && WalksSame(m, TakeData(m, content))
  {
    TakeAsOk(m, Data, content);
  }

  lemma CountWalks(m: Machine, x: nat, n: nat)
    requires Shape(m) && x < |m.mem| && m.role[x] == Data && n > 0
    ensures WalksSame(m, SetRefs(m, x, n))
  {
    SameTablesKeep(m, SetRefs(m, x, n));
  }

  /** Mapping a fresh page changes no other entry anywhere. */
  lemma MapFreshEntries(m: Machine, r: nat, v: Vpn, content: Frame)
    requires CanTakeAndMap(m, r, v)
    ensures OnlyWalk(m, MapFresh(m, r, v, content), r, v)
    ensures Walk(MapFresh(m, r, v, content), r, v) == Some(Word(m.free[0], 7))
  {
    var w, t := Word(m.free[0], 7), TakeData(m, content);
    TakeAsOk(m, Data, content);
    TakeWalks(m, content);
    assert Present(w) && ForUser(w);
    assert Missing(t, r, v, 0) == Missing(m, r, v, 0);
    SetMappingIsUpdate(t, r, v, w);
    OnlyMapped(m, t, SetMapping(t, r, v, w), SetMapping(t, r, v, w), r, v, w);
  }

  /** The entry that the write fault leaves: the last user of a frame keeps it, with bit 8 cleared and bits 0 and 1 set
      and the other bits as they were; any other user gets the frame from the head of the free list, with flags 7. */
  ghost predicate Resolved(m: Machine, m': Machine, r: nat, v: Vpn, e: Word)
    requires r < |m'.mem| && e.pfn < |m.refs|
  {
    && Walk(m', r, v).Some?
    && var w := Walk(m', r, v).value;
       if m.refs[e.pfn] == 1 then
         w.pfn == e.pfn && w.flags & 0x103 == 0x003 && w.flags & 0xEFC == e.flags & 0xEFC
       else
         m.free != [] && w.pfn == m.free[0] && w.flags == 7
  }

  /** The write fault changes no other entry anywhere. */
  lemma CowFaultEntries(m: Machine, r: nat, v: Vpn, e: Word)
    requires CanCopy(m, r, v) && Walk(m, r, v) == Some(e)
    ensures e.pfn < |m.refs| && OnlyWalk(m, CowFault(m, r, v), r, v) && Resolved(m, CowFault(m, r, v), r, v, e)
  {
    CopyReady(m, r, v, e);
    if m.refs[e.pfn] == 1 {
      TakeOverEntries(m, r, v, e);
    } else {
      CopyEntries(m, r, v, e);
    }
  }

  lemma TakeOverEntries(m: Machine, r: nat, v: Vpn, e: Word)
    requires CanMap(m, r, v) && UserPage(v) && Walk(m, r, v) == Some(e)
    ensures OnlyWalk(m, SetMapping(m, r, v, Owned(e)), r, v)
    ensures Walk(SetMapping(m, r, v, Owned(e)), r, v) == Some(Owned(e))
    ensures Owned(e).pfn == e.pfn && Owned(e).flags & 0x103 == 0x003 && Owned(e).flags & 0xEFC == e.flags & 0xEFC
  {
    WalkSlot(m, r, v);
    OwnedFlags(e);
    OwnedBits(e);
    SetMappingIsUpdate(m, r, v, Owned(e));
    OnlyMapped(m, m, SetMapping(m, r, v, Owned(e)), SetMapping(m, r, v, Owned(e)), r, v, Owned(e));
  }

  lemma CopyEntries(m: Machine, r: nat, v: Vpn, e: Word)
    requires CowInv(m) && IsRoot(m, r) && UserPage(v) && Walk(m, r, v) == Some(e) && m.free != []
    requires e.pfn < |m.mem| && m.refs[e.pfn] > 1 && m.head == Some(m.free[0]) && m.free[0] < |m.mem|
    requires CanMap(TakeData(m, m.mem[e.pfn]), r, v)
    requires CowFault(m, r, v)
             == SetRefs(SetMapping(TakeData(m, m.mem[e.pfn]), r, v, Word(m.free[0], 7)), e.pfn, m.refs[e.pfn] - 1)
    ensures OnlyWalk(m, CowFault(m, r, v), r, v) && Walk(CowFault(m, r, v), r, v) == Some(Word(m.free[0], 7))
  {
    var w, t := Word(m.free[0], 7), TakeData(m, m.mem[e.pfn]);
    WalkSlot(m, r, v);
    TakeAsOk(m, Data, m.mem[e.pfn]);
    TakeWalks(m, m.mem[e.pfn]);
    assert Present(w) && ForUser(w);
    MappedAndCounted(t, r, v, w, e.pfn, m.refs[e.pfn] - 1);
    var c := SetMapping(t, r, v, w);
    OnlyMapped(m, t, c, SetRefs(c, e.pfn, m.refs[e.pfn] - 1), r, v, w);
  }

  lemma MappedAndCounted(t: Machine, r: nat, v: Vpn, w: Word, x: nat, n: nat)
    requires CanMap(t, r, v) && UserPage(v) && Present(w) && ForUser(w) && w.pfn < |t.mem| && t.role[w.pfn] == Data
    requires x < |t.mem| && t.role[x] == Data && n > 0
    ensures WalkUpdated(t, SetMapping(t, r, v, w), r, v, w) && SetMapping(t, r, v, w).kroot == t.kroot
    ensures WalksSame(SetMapping(t, r, v, w), SetRefs(SetMapping(t, r, v, w), x, n))
  {
    SetMappingIsUpdate(t, r, v, w);
    CountWalks(SetMapping(t, r, v, w), x, n);
  }

  /** A store changes no entry. */
  lemma StoreEntries(m: Machine, r: nat, v: Vpn, k: nat, w: Word)
    requires CowInv(m) && IsRoot(m, r) && UserPage(v) && Walk(m, r, v).Some?
    ensures WalksSame(m, Store(m, Walk(m, r, v).value.pfn, k, w))
  {
    WalkSlot(m, r, v);
    SameTablesKeep(m, Store(m, Walk(m, r, v).value.pfn, k, w));
  }

  // ----- the page loop

  /** The entry of a page after the loop visited the pages `vs`: parent and child share what the parent had mapped
      there. */
  ghost function Visited(m: Machine, pr: nat, cr: nat, vs: seq<Vpn>, q: nat, u: Vpn): Option<Word>
    requires pr < |m.mem| && q < |m.mem|
  {
    if (q == pr || q == cr) && u in vs && Walk(m, pr, u).Some? then Some(Shared(Walk(m, pr, u).value))
        else Walk(m, q, u)
  }

  ghost predicate WalksVisited(m: Machine, m': Machine, pr: nat, cr: nat, vs: seq<Vpn>)
    requires pr < |m.mem|
  {
    && RootsKept(m, m')
    && forall q: nat, u: Vpn {:trigger Walk(m', q, u)} :: IsRoot(m, q) ==>
        Walk(m', q, u) == Visited(m, pr, cr, vs, q, u)
  }

  lemma VisitedFirst(m: Machine, m1: Machine, pr: nat, cr: nat, vs: seq<Vpn>, q: nat, u: Vpn)
    requires vs != [] && RootsKept(m, m1) && IsRoot(m, pr) && IsRoot(m, cr) && IsRoot(m, q) && pr != cr
    requires if Walk(m, pr, vs[0]).Some? then ShareWalks(m, m1, pr, cr, vs[0], Walk(m, pr, vs[0]).value) else m1 == m
    ensures Visited(m1, pr, cr, vs[1..], q, u) == Visited(m, pr, cr, vs, q, u)
  {
    assert u in vs <==> u == vs[0] || u in vs[1..];
    if u == vs[0] && Walk(m, pr, u).Some? {
      SharedBits(Walk(m, pr, u).value);
    } else {
      assert Walk(m1, q, u) == Walk(m, q, u) && Walk(m1, pr, u) == Walk(m, pr, u);
    }
  }

  /** fork write-protects and marks exactly the entries of the visited pages, in parent and child, and touches no
      other. */
  lemma {:induction false} SharePagesEntries(m: Machine, pr: nat, cr: nat, vs: seq<Vpn>)
    requires CowInv(m) && pr != cr && ChildFollows(m, pr, cr) && UserPages(vs) && FramesLast(m, pr, cr, vs)
    ensures WalksVisited(m, SharePages(m, pr, cr, vs), pr, cr, vs)
    decreases |vs|
  {
    if vs != [] {
      var m1 := SharePage(m, pr, cr, vs[0]);
      assert UserPages(vs[1..]);
      if Walk(m, pr, vs[0]).Some? {
        SharePageOk(m, pr, cr, vs[0]);
      }
      SharePagesEntries(m1, pr, cr, vs[1..]);
      VisitedRest(m, m1, SharePages(m1, pr, cr, vs[1..]), pr, cr, vs);
    }
  }

  lemma VisitedRest(m: Machine, m1: Machine, m': Machine, pr: nat, cr: nat, vs: seq<Vpn>)
    requires vs != [] && RootsKept(m, m1) && IsRoot(m, pr) && IsRoot(m, cr) && pr != cr
    requires if Walk(m, pr, vs[0]).Some? then ShareWalks(m, m1, pr, cr, vs[0], Walk(m, pr, vs[0]).value) else m1 == m
    requires WalksVisited(m1, m', pr, cr, vs[1..])
    ensures WalksVisited(m, m', pr, cr, vs)
  {
    forall q: nat, u: Vpn | IsRoot(m, q)
      ensures Walk(m', q, u) == Visited(m, pr, cr, vs, q, u)
    {
      VisitedFirst(m, m1, pr, cr, vs, q, u);
    }
  }

  /** What that does to an entry: bit 1 is cleared and bit 8 set, the frame and all other bits stay. */
  lemma SharedEntry(m: Machine, pr: nat, cr: nat, vs: seq<Vpn>, v: Vpn, e: Word)
    requires CowInv(m) && pr != cr && ChildFollows(m, pr, cr) && UserPages(vs) && FramesLast(m, pr, cr, vs)
    requires v in vs && Walk(m, pr, v) == Some(e)
    ensures var m' := SharePages(m, pr, cr, vs);
            && pr < |m'.mem| && cr < |m'.mem| && Walk(m', pr, v) == Walk(m', cr, v) && Walk(m', pr, v).Some?
            && var w := Walk(m', pr, v).value;
               w.pfn == e.pfn && w.flags & 0x102 == 0x100 && w.flags & 0xEFD == e.flags & 0xEFD
  {
    SharePagesEntries(m, pr, cr, vs);
    SharedBits(e);
  }
}
