/** The kernel's map of all physical memory at KERNBASE (create_vir_phy_mapping in sys/virmem.c). */
module DirectMap {
  import opened Lists
  import opened Frames
  import opened PageTables
  import opened AddressSpaces

  const KERNBASE: nat := 0xffff_ffff_8000_0000

  /** The page of the direct map that shows frame `c`. */
  function KernelPage(c: nat): Vpn {
    VpnOf(KERNBASE + c * 0x1000)
  }

  lemma LowerQuotients(c: nat)
    ensures (KERNBASE + c * 0x1000) / 0x1000 == 0xf_ffff_fff8_0000 + c
    ensures (KERNBASE + c * 0x1000) / 0x20_0000 == 0x7ff_ffff_fc00 + c / 0x200
  {
  }

  lemma UpperQuotients(c: nat)
    requires c < 0x8_0000
    ensures (KERNBASE + c * 0x1000) / 0x4000_0000 == 0x3_ffff_fffe + c / 0x4_0000
    ensures (KERNBASE + c * 0x1000) / 0x80_0000_0000 == 0x1ff_ffff
  {
  }

  lemma KernelPageIs(c: nat)
    requires c < 0x8_0000
    ensures KernelPage(c) == [511, 510 + c / 0x4_0000, c / 0x200 % 512, c % 512]
  {
    LowerQuotients(c);
    UpperQuotients(c);
  }

  /** The loop, from frame `c` to frame `n`. */
  function MapFrom(m: Machine, r: nat, c: nat, n: nat): (m': Machine)
    requires r < |m.mem| && c <= n
    ensures |m'.mem| == |m.mem| && |m'.refs| == |m.refs|
    decreases n - c
  {
    if c == n then m else MapFrom(SetMapping(m, r, KernelPage(c), Word(c, 7)), r, c + 1, n)
  }

  /** The number of tables that map the first `c` frames. */
  function TablesFor(c: nat): nat {
    if c == 0 then 0 else 1 + (c + 0x3_ffff) / 0x4_0000 + (c + 0x1ff) / 0x200
  }

  /** A table that the first `c` frames need. */
  ghost predicate Needed(path: seq<nat>, c: nat) {
    exists k :: 0 <= k < c && path <= KernelPage(k)
  }

  /** The first `c` frames are mapped, with the tables they need and no others, from `free` free frames. */
  ghost predicate MappedUpTo(m: Machine, r: nat, c: nat, free: nat) {
    && Shape(m) && IsRoot(m, r) && r == m.kroot && c <= 0x8_0000 && c <= |m.mem|
    && (forall k :: 0 <= k < c ==> Walk(m, r, KernelPage(k)) == Some(Word(k, 7)))
    && (forall f :: 0 <= f < |m.mem| && m.role[f].Table? && f != r ==> Needed(m.role[f].path, c))
    && (forall f :: 0 <= f < |m.mem| ==> m.role[f] != Data)
    && |m.free| + TablesFor(c) == free
  }

  lemma {:induction false} MissingBelow(m: Machine, f: nat, v: Vpn, u: Vpn, d: nat, k: nat)
    requires Shape(m) && d <= k <= 3 && OnPath(m, f, v, d) && u[..k] == v[..k] && Descend(m, f, u, d).Some?
    requires forall g: nat :: OnPath(m, g, v, k) && k < 3 ==> !Present(m.mem[g][v[k]])
    ensures Missing(m, f, v, d) == 3 - k
    decreases k - d
  {
    if d < k {
      assert u[d] == u[..k][d] == v[..k][d] == v[d];
      ChildOnPath(m, f, v, d);
      MissingBelow(m, m.mem[f][v[d]].pfn, v, u, d + 1, k);
    }
  }

  /** Pages `k` and `c` share their tables down to depth `d` exactly when they fall into the same table's reach. */
  lemma PrefixIff(k: nat, c: nat)
    requires k < 0x8_0000 && c < 0x8_0000
    ensures KernelPage(k)[..1] == KernelPage(c)[..1]
    ensures KernelPage(k)[..2] == KernelPage(c)[..2] <==> k / 0x4_0000 == c / 0x4_0000
    ensures KernelPage(k)[..3] == KernelPage(c)[..3] <==> k / 0x200 == c / 0x200
  {
    KernelPageIs(k);
    KernelPageIs(c);
    var v, u := KernelPage(k), KernelPage(c);
    assert v[..1] == [511] && u[..1] == [511];
    assert v[..2] == [511, v[1]] && u[..2] == [511, u[1]];
    assert v[..3] == [511, v[1], v[2]] && u[..3] == [511, u[1], u[2]];
    assert k / 0x200 / 512 == k / 0x4_0000 && c / 0x200 / 512 == c / 0x4_0000;
  }

  /** A table on the way to page `c` is there because of an earlier page in its reach. */
  lemma PresentNeeded(m: Machine, r: nat, c: nat, free: nat, d: nat, g: nat)
    requires MappedUpTo(m, r, c, free) && c < 0x8_0000 && d < 3 && OnPath(m, g, KernelPage(c), d)
    requires Present(m.mem[g][KernelPage(c)[d]])
    ensures exists k :: 0 <= k < c && KernelPage(k)[..d + 1] == KernelPage(c)[..d + 1]
  {
    var v := KernelPage(c);
    ChildOnPath(m, g, v, d);
    var child := m.mem[g][v[d]].pfn;
    assert child != r;
    var k :| 0 <= k < c && m.role[child].path <= KernelPage(k);
    assert m.role[child].path == KernelPage(k)[..d + 1];
  }

  lemma FirstPageMissing(m: Machine, r: nat, c: nat, free: nat, d: nat, g: nat)
    requires MappedUpTo(m, r, c, free) && c < 0x8_0000 && d < 3 && OnPath(m, g, KernelPage(c), d)
    requires forall k :: 0 <= k < c ==> KernelPage(k)[..d + 1] != KernelPage(c)[..d + 1]
    ensures !Present(m.mem[g][KernelPage(c)[d]])
  {
    if Present(m.mem[g][KernelPage(c)[d]]) {
      PresentNeeded(m, r, c, free, d, g);
    }
  }

  /** The depth from which page `c`, not the first one, finds its tables missing. */
  function NewDepth(c: nat): nat {
    if c % 0x4_0000 == 0 then 1 else if c % 0x200 == 0 then 2 else 3
  }

  lemma NewDepthOk(m: Machine, r: nat, c: nat, free: nat)
    requires MappedUpTo(m, r, c, free) && 0 < c < 0x8_0000
    ensures KernelPage(c - 1)[..NewDepth(c)] == KernelPage(c)[..NewDepth(c)]
    ensures forall g: nat :: OnPath(m, g, KernelPage(c), NewDepth(c)) && NewDepth(c) < 3 ==>
                               !Present(m.mem[g][KernelPage(c)[NewDepth(c)]])
  {
    var d := NewDepth(c);
    PrefixIff(c - 1, c);
    SameReach(c);
    forall g: nat | OnPath(m, g, KernelPage(c), d) && d < 3
      ensures !Present(m.mem[g][KernelPage(c)[d]])
    {
      forall k | 0 <= k < c
        ensures KernelPage(k)[..d + 1] != KernelPage(c)[..d + 1]
      {
        PrefixIff(k, c);
        EarlierReach(k, c);
      }
      FirstPageMissing(m, r, c, free, d, g);
    }
  }

  lemma MissingAt(m: Machine, r: nat, c: nat, free: nat)
    requires MappedUpTo(m, r, c, free) && c < 0x8_0000
    ensures Missing(m, r, KernelPage(c), 0)
            == if c == 0 then 3 else if c % 0x4_0000 == 0 then 2 else if c % 0x200 == 0 then 1 else 0
  {
    var v := KernelPage(c);
    assert OnPath(m, r, v, 0);
    if c == 0 {
      FirstPageMissing(m, r, c, free, 0, r);
    } else {
      NewDepthOk(m, r, c, free);
      assert Walk(m, r, KernelPage(c - 1)).Some?;
      MissingBelow(m, r, v, KernelPage(c - 1), 0, NewDepth(c));
    }
  }

  lemma SameReach(c: nat)
    requires c > 0
    ensures c % 0x200 != 0 ==> (c - 1) / 0x200 == c / 0x200
    ensures c % 0x4_0000 != 0 ==> (c - 1) / 0x4_0000 == c / 0x4_0000
    ensures c % 0x4_0000 == 0 ==> c % 0x200 == 0
  {
  }

  lemma EarlierReach(k: nat, c: nat)
    requires k < c
    ensures c % 0x200 == 0 ==> k / 0x200 != c / 0x200
    ensures c % 0x4_0000 == 0 ==> k / 0x4_0000 != c / 0x4_0000
  {
  }

  lemma TablesForNext(c: nat)
    ensures TablesFor(c + 1) == TablesFor(c)
            + (if c == 0 then 3 else if c % 0x4_0000 == 0 then 2 else if c % 0x200 == 0 then 1 else 0)
  {
    assert (c + 0x200) / 0x200 == c / 0x200 + 1;
    assert (c + 0x4_0000) / 0x4_0000 == c / 0x4_0000 + 1;
    assert (c + 0x1ff) / 0x200 == c / 0x200 + (if c % 0x200 == 0 then 0 else 1);
    assert (c + 0x3_ffff) / 0x4_0000 == c / 0x4_0000 + (if c % 0x4_0000 == 0 then 0 else 1);
    if c > 0 {
      SameReach(c);
    }
  }

  lemma PagesDiffer(k: nat, c: nat)
    requires k < c < 0x8_0000
    ensures KernelPage(k) != KernelPage(c)
  {
    KernelPageIs(k);
    KernelPageIs(c);
    assert k == k / 0x4_0000 * 0x4_0000 + k / 0x200 % 512 * 0x200 + k % 512;
    assert c == c / 0x4_0000 * 0x4_0000 + c / 0x200 % 512 * 0x200 + c % 512;
  }

  lemma MapNext(m: Machine, r: nat, c: nat, n: nat, free: nat) returns (m1: Machine)
    requires MappedUpTo(m, r, c, free) && c < n <= 0x8_0000 && n <= |m.mem| && free >= TablesFor(n)
    ensures CanMap(m, r, KernelPage(c)) && m1 == SetMapping(m, r, KernelPage(c), Word(c, 7))
    ensures MappedUpTo(m1, r, c + 1, free) && n <= |m1.mem|
    ensures MapFrom(m, r, c, n) == MapFrom(m1, r, c + 1, n)
  {
    m1 := SetMapping(m, r, KernelPage(c), Word(c, 7));
    NextStored(m, r, c, n, free);
    MapFromStep(m, m1, r, c, n);
    MappedNext(m, m1, r, c, free, Word(c, 7));
  }

  /** The tables that page `c` lacks can be had, and the page is stored. */
  lemma NextStored(m: Machine, r: nat, c: nat, n: nat, free: nat)
    requires MappedUpTo(m, r, c, free) && c < n <= 0x8_0000 && n <= |m.mem| && free >= TablesFor(n)
    ensures CanMap(m, r, KernelPage(c)) && OnPath(m, r, KernelPage(c), 0) && KernelPage(c)[0] == 511
    ensures TablesFor(c + 1) == TablesFor(c) + Missing(m, r, KernelPage(c), 0)
    ensures Stored(m, SetMapping(m, r, KernelPage(c), Word(c, 7)), r, KernelPage(c), 0, Word(c, 7))
  {
    TablesMonotone(c + 1, n);
    KernelPageIs(c);
    assert OnPath(m, r, KernelPage(c), 0) && TableOk(m, r);
    assert Present(Word(c, 7));
    MissingAt(m, r, c, free);
    TablesForNext(c);
    SetAtOk(m, r, KernelPage(c), 0, Word(c, 7));
  }

  lemma NextReads(m: Machine, m': Machine, r: nat, c: nat, free: nat, w: Word, k: nat)
    requires MappedUpTo(m, r, c, free) && c < 0x8_0000 && w == Word(c, 7) && k <= c
    requires OnPath(m, r, KernelPage(c), 0) && Stored(m, m', r, KernelPage(c), 0, w)
    ensures Walk(m', r, KernelPage(k)) == Some(Word(k, 7))
  {
    if k < c {
      PagesDiffer(k, c);
      OtherWalk(m, m', r, KernelPage(c), w, KernelPage(k));
    }
  }

  lemma OtherWalk(m: Machine, m': Machine, r: nat, v: Vpn, w: Word, u: Vpn)
    requires Shape(m) && IsRoot(m, r) && OnPath(m, r, v, 0) && Stored(m, m', r, v, 0, w) && u != v
    ensures Walk(m', r, u) == Walk(m, r, u)
  {
  }

  lemma NextNeeded(m: Machine, m': Machine, r: nat, c: nat, free: nat, w: Word, f: nat)
    requires MappedUpTo(m, r, c, free) && c < 0x8_0000 && OnPath(m, r, KernelPage(c), 0)
             && Stored(m, m', r, KernelPage(c), 0, w)
    requires f < |m.mem| && m'.role[f].Table? && f != r
    ensures Needed(m'.role[f].path, c + 1)
  {
    if m.role[f] == Unused {
      assert m'.role[f].path <= KernelPage(c);
    } else {
      var k :| 0 <= k < c && m.role[f].path <= KernelPage(k);
    }
  }

  lemma MappedNext(m: Machine, m': Machine, r: nat, c: nat, free: nat, w: Word)
    requires MappedUpTo(m, r, c, free) && c < 0x8_0000 && c < |m.mem| && w == Word(c, 7)
    requires OnPath(m, r, KernelPage(c), 0) && Stored(m, m', r, KernelPage(c), 0, w) && KernelPage(c)[0] == 511
    requires TablesFor(c + 1) == TablesFor(c) + Missing(m, r, KernelPage(c), 0)
    ensures MappedUpTo(m', r, c + 1, free)
  {
    forall k | 0 <= k < c + 1
      ensures Walk(m', r, KernelPage(k)) == Some(Word(k, 7))
    {
      NextReads(m, m', r, c, free, w, k);
    }
    forall f | 0 <= f < |m.mem| && m'.role[f].Table? && f != r
      ensures Needed(m'.role[f].path, c + 1)
    {
      NextNeeded(m, m', r, c, free, w, f);
    }
  }

  /** From an empty PML4, the loop maps every frame at its place in the direct map and takes exactly
      1 + ceil(n / 2^18) + ceil(n / 512) frames for tables. */
  lemma DirectMapOk(m: Machine, r: nat, c: nat, n: nat, free: nat)
    requires MappedUpTo(m, r, c, free) && c <= n <= 0x8_0000 && n <= |m.mem| && free >= TablesFor(n)
    ensures MappedUpTo(MapFrom(m, r, c, n), r, n, free)
  {
    MapFromMaps(m, r, c, n, free, MapFrom(m, r, c, n));
  }

  lemma {:induction false} MapFromMaps(m: Machine, r: nat, c: nat, n: nat, free: nat, goal: Machine)
    requires MappedUpTo(m, r, c, free) && c <= n <= 0x8_0000 && n <= |m.mem| && free >= TablesFor(n)
    requires goal == MapFrom(m, r, c, n)
    ensures MappedUpTo(goal, r, n, free)
    decreases n - c
  {
    if c == n {
      MapFromEnds(m, r, n);
    } else {
      var m1 := MapNext(m, r, c, n, free);
      MapFromMaps(m1, r, c + 1, n, free, goal);
    }
  }

  lemma MapFromEnds(m: Machine, r: nat, n: nat)
    requires r < |m.mem|
    ensures MapFrom(m, r, n, n) == m
  {
  }

  lemma MapFromStep(m: Machine, m1: Machine, r: nat, c: nat, n: nat)
    requires r < |m.mem| == |m1.mem| && c < n && m1 == SetMapping(m, r, KernelPage(c), Word(c, 7))
    ensures MapFrom(m, r, c, n) == MapFrom(m1, r, c + 1, n)
  {
  }

  /** The state of init_mem after page_alloc: one empty table, the kernel's PML4, and no user frame. */
  lemma EmptyKernelSpace(m: Machine, r: nat)
    requires AllocatorOk(m) && r < |m.mem| && m.kroot == r && m.role[r] == Table(r, [], r)
    requires forall i :: 0 <= i < 512 ==> !Present(m.mem[r][i])
    requires forall f :: 0 <= f < |m.mem| && f != r ==> m.role[f] == Unused || m.role[f] == Kernel
    ensures MappedUpTo(m, r, 0, |m.free|)
  {
    forall i | 0 <= i < 512
      ensures EntryOk(m, r, i)
    {
    }
    assert TableOk(m, r);
  }

  lemma TablesMonotone(c: nat, n: nat)
    requires c <= n
    ensures TablesFor(c) <= TablesFor(n)
  {
  }

  /** An address of the direct map reads the entry of its frame: get_mapping(KERNBASE + pa) is pa. */
  lemma DirectMapReads(m: Machine, r: nat, n: nat, free: nat, pa: nat)
    requires MappedUpTo(m, r, n, free) && pa < n * 0x1000
    ensures Walk(m, r, VpnOf(KERNBASE + pa)) == Some(Word(pa / 0x1000, 7))
  {
    var c := pa / 0x1000;
    SamePageSameVpn(KERNBASE + pa, KERNBASE + c * 0x1000);
  }

  /** The kernel's own address space, once made, satisfies the invariant that fork, faults and teardown keep. */
  lemma BootEstablishesInvariant(m: Machine, r: nat, n: nat, free: nat)
    requires MappedUpTo(m, r, n, free)
    ensures CowInv(m) && Exact(m)
  {
    forall f: nat, i: nat | PteSlot(m, f, i)
      ensures m.mem[f][i].pfn < |m.mem| && m.role[m.mem[f][i].pfn] == Data
    {
      assert TableOk(m, f) && EntryOk(m, f, i);
    }
    assert forall f: nat, i: nat :: !PteSlot(m, f, i);
  }
}
