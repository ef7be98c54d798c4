/** The memory manager as the kernel runs it: arrays of frames and frame descriptors, changed in place
    (sys/page.c, sys/virmem.c, sys/pagefault.c, sys/process.c). Every method is tied to the function on machines
    that specifies it. */
module KernelMemory {
  import opened Lists
  import opened Frames
  import opened PageTables
  import opened AddressSpaces
  import opened CopyOnWrite
  import opened Forking
  import Spec = Teardown
  import Boot = DirectMap
  import opened Processes

  /** An entry of the loader's memory map. */
  datatype Region = Region(base: nat, length: nat, kind: nat)

  predicate Inside(page: nat, a: Region) {
    var first, last := page * PAGE_SIZE, page * PAGE_SIZE + PAGE_SIZE - 1;
    && a.kind == 1 && a.length != 0
    && first < a.base + a.length && first > a.base && last < a.base + a.length && last > a.base
  }

  ghost predicate Usable(page: nat, limit: nat, regions: seq<Region>) {
    page * PAGE_SIZE >= limit && exists j :: 0 <= j < |regions| && Inside(page, regions[j])
  }

  /** The frames that create_page_list puts on the list. */
  ghost function UsableFrames(n: nat, limit: nat, regions: seq<Region>): set<nat> {
    set f: nat | f < n && Usable(f, limit, regions)
  }

  lemma {:induction false} AsManyAsMembers(xs: seq<nat>)
    requires Distinct(xs)
    ensures |Elements(xs)| == |xs|
  {
    if xs != [] {
      AsManyAsMembers(xs[1..]);
      assert Elements(xs) == {xs[0]} + Elements(xs[1..]);
    }
  }

  /** The pages to visit: those of `vma`, in the order of the loop, and then `rest`. */
  lemma PagesAhead(vma: Vma, rest: seq<Vpn>, start: nat, cnt: int) returns (ahead: seq<Vpn>)
    requires vma.start <= vma.end && start == ScaleDown(vma.start) && cnt == (ScaleUp(vma.end) - start) / PAGE_SIZE
    ensures ahead == PagesOf(vma) + rest && 0 <= cnt <= |ahead| && ahead[cnt..] == rest
    ensures forall i :: 0 <= i < cnt ==> ahead[i] == VpnOf(start + i * PAGE_SIZE)
  {
    ahead := PagesOf(vma) + rest;
  }

  lemma TailOfTail(ahead: seq<Vpn>, i: nat)
    requires i < |ahead|
    ensures ahead[i..][0] == ahead[i] && ahead[i..][1..] == ahead[i + 1..]
  {
  }

  /** A list of frames below `bound`, in ascending order. */
  ghost predicate Ascending(xs: seq<nat>, bound: nat) {
    && (forall i, j :: 0 <= i < j < |xs| ==> xs[i] < xs[j])
    && (forall i :: 0 <= i < |xs| ==> xs[i] < bound)
  }

  /** The list with `page` at its end; a page that is there already stays. */
  ghost function AtEnd(xs: seq<nat>, page: nat): seq<nat> {
    if xs != [] && xs[|xs| - 1] == page then xs else xs + [page]
  }

  /** The links after `page` was hung behind the last frame of `xs`. */
  ghost function Relink(next: seq<Option<nat>>, xs: seq<nat>, page: nat): seq<Option<nat>>
    requires page < |next| && (xs != [] ==> xs[|xs| - 1] < |next|)
  {
    if xs == [] then next[page := None] else next[xs[|xs| - 1] := Some(page)][page := None]
  }

  lemma AppendedChain(next: seq<Option<nat>>, xs: seq<nat>, page: nat)
    requires Ascending(xs, page + 1) && Chained(next, xs) && page < |next|
    ensures xs != [] ==> xs[|xs| - 1] < |next|
    ensures Chained(Relink(next, xs, page), AtEnd(xs, page)) && Ascending(AtEnd(xs, page), page + 1)
    ensures AtEnd(xs, page) != [] && AtEnd(xs, page)[|AtEnd(xs, page)| - 1] == page
    ensures LinkAt(AtEnd(xs, page), 0) == if xs == [] then Some(page) else LinkAt(xs, 0)
    ensures forall f: nat :: f in AtEnd(xs, page) <==> f in xs || f == page
  {
    var links, ys := Relink(next, xs, page), AtEnd(xs, page);
    forall i | 0 <= i < |ys|
      ensures LinkedAt(links, ys, i)
    {
      if i < |xs| {
        assert LinkedAt(next, xs, i);
      }
    }
  }

  /** Frames sorted into a free list and frames in use by the kernel make a consistent allocator. */
  lemma SortedIsConsistent(m: Machine)
    requires Sized(m) && Ascending(m.free, |m.mem|) && Chained(m.next, m.free) && m.head == LinkAt(m.free, 0)
    requires forall f :: 0 <= f < |m.mem| ==>
                           m.refs[f] == (if f in m.free then 0 else 1)
                               && m.role[f] == (if f in m.free then Unused else Kernel)
    ensures AllocatorOk(m)
    ensures m.free != [] && m.tail == m.free[|m.free| - 1] ==> TailIsLast(m)
  {
    assert forall i :: 0 <= i < |m.free| ==> m.free[i] in m.free;
    if m.free != [] {
      assert LinkedAt(m.next, m.free, |m.free| - 1);
    }
  }

  class Memory {
    const mem: array<Frame>
    const next: array<Option<nat>>
    const refs: array<nat>
    var head: Option<nat>
    var tail: nat
    var kroot: nat
    ghost var role: seq<Role>
    ghost var free: seq<nat>

    ghost predicate Valid()
      reads this
    {
      mem.Length == next.Length == refs.Length == |role| && tail < mem.Length
    }

    ghost function View(): Machine
      reads this, mem, next, refs
    {
      Machine(mem[..], next[..], refs[..], head, tail, kroot, role, free)
    }

    /** A machine of so many frames, whatever they hold. */
    constructor (contents: seq<Frame>)
      requires contents != []
      ensures Valid() && mem[..] == contents && head == None && free == []
      ensures fresh(mem) && fresh(next) && fresh(refs)
    {
      var n := |contents|;
      mem := new Frame[n](i requires 0 <= i < n => contents[i]);
      next := new Option<nat>[n](_ => None);
      refs := new nat[n](_ => 0);
      head, tail, kroot := None, 0, 0;
      role, free := seq(n, _ => Kernel), [];
    }

    method Zero(f: nat)
      requires Valid() && f < mem.Length
      modifies mem
      ensures View() == old(View()).(mem := old(mem[..])[f := ZeroFrame()])
    {
      mem[f] := ZeroFrame();
      assert mem[..] == old(mem[..])[f := ZeroFrame()];
    }

    method StoreWord(f: nat, i: nat, w: Word)
      requires Valid() && f < mem.Length && i < 512
      modifies mem
      ensures View() == PageTables.StoreWord(old(View()), f, i, w)
    {
      mem[f] := mem[f][i := w];
      assert mem[..] == old(mem[..])[f := old(mem[..])[f][i := w]];
    }

    method SetRef(f: nat, n: nat)
      requires Valid() && f < mem.Length
      modifies refs
      ensures View() == old(View()).(refs := old(refs[..])[f := n])
    {
      refs[f] := n;
      assert refs[..] == old(refs[..])[f := n];
    }

    /** page_alloc, kmalloc, fetch_free_page. */
    method FetchFreePage(ghost r: Role) returns (f: nat)
      requires Valid() && head.Some? && head.value < mem.Length
      modifies this`head, this`role, this`free, mem, refs
      ensures Valid() && View() == Take(old(View()), r) && Some(f) == old(head)
    {
      f := head.value;
      SetRef(f, 1);
      head := next[f];
      role := role[f := r];
      free := if free == [] then [] else free[1..];
      Zero(f);
    }

    /** add_to_free_pages: the tail pointer itself does not move. */
    method AddToFreePages(f: nat)
      requires Valid() && f < mem.Length
      modifies this`free, next
      ensures Valid() && View() == Frames.AddToFreePages(old(View()), f)
    {
      next[tail] := Some(f);
      next[f] := None;
      free := Relinked(free, tail, f);
      assert next[..] == old(next[..])[tail := Some(f)][f := None];
    }

    method FreePage(f: nat)
      requires Valid() && f < mem.Length
      modifies this`role, this`free, mem, refs, next
      ensures Valid() && View() == Frames.FreePage(old(View()), f)
    {
      if refs[f] > 1 {
        SetRef(f, refs[f] - 1);
      } else {
        SetRef(f, 0);
        Zero(f);
        role := role[f := Unused];
        AddToFreePages(f);
      }
    }

    method CreateDirTable(f: nat, i: nat) returns (g: nat)
      requires Valid() && i < 512 && CanCreate(View(), f, i)
      modifies this`head, this`role, this`free, mem, refs
      ensures Valid() && (View(), g) == CreateDir(old(View()), f, i)
    {
      var e := mem[f][i];
      if !Present(e) {
        g := FetchFreePage(ChildRole(View(), f, i));
        StoreWord(f, i, WithFlags(Word(g, 0), 7));
      } else {
        g := e.pfn;
      }
    }

    /** set_mapping: one create_dir_table per level, then the leaf entry. */
    method SetMapping(r: nat, va: nat, phys: Word, flags: bv12)
      requires Valid() && CanMap(View(), r, VpnOf(va))
      modifies this`head, this`role, this`free, mem, refs
      ensures Valid() && View() == PageTables.SetMapping(old(View()), r, VpnOf(va), WithFlags(phys, flags))
    {
      ghost var n1, c1, n2, c2, n3, c3 := SetMappingPath(View(), r, VpnOf(va), WithFlags(phys, flags));
      var pdpt := CreateDirTable(r, va / 0x80_0000_0000 % 512);
      var pd := CreateDirTable(pdpt, va / 0x4000_0000 % 512);
      var pt := CreateDirTable(pd, va / 0x20_0000 % 512);
      StoreWord(pt, va / 0x1000 % 512, WithFlags(phys, flags));
    }

    /** get_pte_entry: the leaf entry through the out-parameter, and whether the page is mapped. */
    method GetPteEntry(r: nat, va: nat) returns (ok: bool, entry: Word)
      requires Valid() && Shape(View()) && IsRoot(View(), r)
      ensures Walk(View(), r, VpnOf(va)) == if ok then Some(entry) else None
    {
      ghost var m, v := View(), VpnOf(va);
      entry := ZERO_WORD;
      assert OnPath(m, r, v, 0);
      var e := mem[r][va / 0x80_0000_0000 % 512];
      if !Present(e) {
        return false, entry;
      }
      ChildOnPath(m, r, v, 0);
      var pdpt := e.pfn;
      e := mem[pdpt][va / 0x4000_0000 % 512];
      if !Present(e) {
        return false, entry;
      }
      ChildOnPath(m, pdpt, v, 1);
      var pd := e.pfn;
      e := mem[pd][va / 0x20_0000 % 512];
      if !Present(e) {
        return false, entry;
      }
      ChildOnPath(m, pd, v, 2);
      var pt := e.pfn;
      e := mem[pt][va / 0x1000 % 512];
      if !Present(e) {
        return false, entry;
      }
      return true, e;
    }

    /** get_mapping, for a mapped address: the frame of the page and the offset in it, as one physical address. */
    method GetMapping(r: nat, va: nat) returns (phys: nat)
      requires Valid() && Shape(View()) && IsRoot(View(), r) && Walk(View(), r, VpnOf(va)).Some?
      ensures phys / 0x1000 == Walk(View(), r, VpnOf(va)).value.pfn && phys % 0x1000 == va % 0x1000
    {
      var pdpt := mem[r][va / 0x80_0000_0000 % 512].pfn;
      var pd := mem[pdpt][va / 0x4000_0000 % 512].pfn;
      var pt := mem[pd][va / 0x20_0000 % 512].pfn;
      phys := mem[pt][va / 0x1000 % 512].pfn * 0x1000 + va % 0x1000;
    }

    /** The loop of clear_mapping over one table, which the source writes out once per level, nested: whatever an
        entry leads to is torn down first, then released, then the entry is zeroed. The table itself stays a table
        throughout, so no entry is read or zeroed in a frame already released. */
    method ClearTable(ghost o: nat, f: nat, d: nat)
      requires Valid() && d < 4 && CowInv(View()) && Spec.UserTable(View(), o, f, d)
      modifies this`role, this`free, mem, refs, next
      ensures Valid() && View() == Spec.ClearFrom(old(View()), f, d, 0)
      ensures role[f].Table? && role[f] == old(role[f])
      decreases 4 - d, 1
    {
      ghost var goal := Spec.ClearFrom(View(), f, d, 0);
      for i := 0 to Spec.Limit(d)
        invariant Valid() && Spec.AtEntry(View(), o, f, d, i, goal)
        invariant role[f].Table? && role[f] == old(role[f])
      {
        if Present(mem[f][i]) {
          ReleaseEntry(o, f, d, i, goal);
        } else {
          Spec.SkipEntry(View(), o, f, d, i, goal);
        }
        StoreWord(f, i, ZERO_WORD);
      }
    }

    /** Releases what entry `i` leads to, and below it everything else. */
    method ReleaseEntry(ghost o: nat, f: nat, d: nat, i: nat, ghost goal: Machine)
      requires Valid() && Spec.AtEntry(View(), o, f, d, i, goal) && i < Spec.Limit(d) && Present(mem[f][i])
      modifies this`role, this`free, mem, refs, next
      ensures Valid() && Spec.AtEntry(PageTables.StoreWord(View(), f, i, ZERO_WORD), o, f, d, i + 1, goal)
      ensures role[f].Table? && role[f] == old(role[f])
      decreases 4 - d, 0
    {
      ghost var m := View();
      if d == 3 {
        Spec.ReleasePage(m, o, f, i, goal);
      } else {
        Spec.Begin(m, o, f, d, i);
        ClearTable(o, mem[f][i].pfn, d + 1);
        Spec.ReleaseTable(m, View(), o, f, d, i, goal);
      }
      FreePage(mem[f][i].pfn);
    }

    /** clear_mapping. */
    method ClearMapping(r: nat)
      requires Valid() && CowInv(View()) && IsRoot(View(), r) && r != kroot
      modifies this`role, this`free, mem, refs, next
      ensures Valid() && View() == Spec.ClearMapping(old(View()), r)
    {
      assert TableOk(View(), r);
      ClearTable(r, r, 0);
    }

    /** The allocations of fetch_free_pcb and create_new_pml_table. */
    method NewSpace() returns (r: nat)
      requires Valid() && CowInv(View()) && |free| >= 2
      modifies this`head, this`role, this`free, mem, refs
      ensures Valid() && (View(), r) == Forking.NewSpace(old(View()))
    {
      TakeAsOk(View(), Kernel, ZeroFrame());
      var page := FetchFreePage(Kernel);
      assert View() == TakeAs(old(View()), Kernel, ZeroFrame());
      r := FetchFreePage(Table(head.value, [], head.value));
      StoreWord(r, 511, mem[kroot][511]);
    }

    /** Maps the page with the same entry in two address spaces and counts the new reference. */
    method MapBoth(pr: nat, cr: nat, va: nat, entry: Word, ghost m1: Machine, ghost m2: Machine, ghost goal: Machine)
      requires Valid() && entry.pfn < mem.Length
      requires BothMapped(View(), m1, m2, pr, cr, VpnOf(va), entry) && goal == CountedOnce(m2, entry.pfn)
      modifies this`head, this`role, this`free, mem, refs
      ensures Valid() && View() == goal
    {
      NoFlags(entry);
      SetMapping(pr, va, entry, 0);
      SetMapping(cr, va, entry, 0);
      SetRef(entry.pfn, refs[entry.pfn] + 1);
    }

    /** The body of the page loop in fork_process. */
    method SharePage(pr: nat, cr: nat, va: nat)
      requires Valid() && SharePre(View(), pr, cr, VpnOf(va))
      modifies this`head, this`role, this`free, mem, refs
      ensures Valid() && View() == CopyOnWrite.SharePage(old(View()), pr, cr, VpnOf(va))
    {
      ghost var goal := CopyOnWrite.SharePage(View(), pr, cr, VpnOf(va));
      var present, entry := GetPteEntry(pr, va);
      if present {
        ghost var m1, m2 := ShareReady(View(), pr, cr, VpnOf(va), entry, goal);
        MapBoth(pr, cr, va, Shared(entry), m1, m2, goal);
      }
    }

    method ShareNext(pr: nat, cr: nat, va: nat, ghost vs: seq<Vpn>, ghost goal: Machine)
      requires Valid() && AtPages(View(), pr, cr, vs, goal) && vs != [] && vs[0] == VpnOf(va)
      modifies this`head, this`role, this`free, mem, refs
      ensures Valid() && AtPages(View(), pr, cr, vs[1..], goal)
    {
      NextPage(View(), pr, cr, vs, goal);
      SharePage(pr, cr, va);
    }

    /** The page loop for one VMA; `rest` are the pages of the VMAs that follow. */
    method CopyVma(pr: nat, cr: nat, vma: Vma, ghost rest: seq<Vpn>, ghost goal: Machine)
      requires Valid() && vma.start <= vma.end && AtPages(View(), pr, cr, PagesOf(vma) + rest, goal)
      modifies this`head, this`role, this`free, mem, refs
      ensures Valid() && AtPages(View(), pr, cr, rest, goal)
    {
      var start := ScaleDown(vma.start);
      var cnt := (ScaleUp(vma.end) - start) / PAGE_SIZE;
      ghost var ahead := PagesAhead(vma, rest, start, cnt);
      assert ahead[0..] == ahead;
      for i := 0 to cnt
        invariant Valid() && AtPages(View(), pr, cr, ahead[i..], goal)
      {
        TailOfTail(ahead, i);
        ShareNext(pr, cr, start + i * PAGE_SIZE, ahead[i..], goal);
      }
    }

    /** The VMA loop of fork_process, which shares the parent's pages with a new address space. */
    method CopySpace(pr: nat, cr: nat, vmas: seq<Vma>)
      requires Valid() && CowInv(View()) && pr != cr && ChildFollows(View(), pr, cr)
      requires VmasOk(vmas) && FramesLast(View(), pr, cr, AllPages(vmas))
      modifies this`head, this`role, this`free, mem, refs
      ensures Valid() && View() == SharePages(old(View()), pr, cr, AllPages(vmas))
    {
      ghost var goal := SharePages(View(), pr, cr, AllPages(vmas));
      AllPagesUser(vmas);
      assert vmas[0..] == vmas;
      for k := 0 to |vmas|
        invariant Valid() && AtPages(View(), pr, cr, AllPages(vmas[k..]), goal)
      {
        assert vmas[k..][0] == vmas[k] && vmas[k..][1..] == vmas[k + 1..];
        CopyVma(pr, cr, vmas[k], AllPages(vmas[k + 1..]), goal);
      }
    }

    /** fork_process, as far as memory goes: the child's new address space, then the VMA loop. */
    method ForkSpace(pr: nat, vmas: seq<Vma>) returns (cr: nat)
      requires Valid() && CowInv(View()) && IsRoot(View(), pr) && |free| >= 2 && VmasOk(vmas)
      requires (NewSpaceOk(View());
                var (m1, r) := Forking.NewSpace(View());
                FramesLast(m1, pr, r, AllPages(vmas)))
      modifies this`head, this`role, this`free, mem, refs
      ensures Valid()
      ensures (NewSpaceOk(old(View()));
               var (m1, r) := Forking.NewSpace(old(View()));
               cr == r && View() == SharePages(m1, pr, r, AllPages(vmas)))
    {
      NewSpaceOk(View());
      cr := NewSpace();
      CopySpace(pr, cr, vmas);
    }

    /** check_vma. */
    method CheckVma(vmas: seq<Vma>, va: nat) returns (found: Option<Vma>)
      ensures found == Processes.CheckVma(vmas, va)
    {
      var itr := 0;
      while itr < |vmas|
        invariant itr <= |vmas| && Processes.CheckVma(vmas[itr..], va) == Processes.CheckVma(vmas, va)
      {
        assert vmas[itr..][0] == vmas[itr] && vmas[itr..][1..] == vmas[itr + 1..];
        if vmas[itr].start <= va <= vmas[itr].end {
          return Some(vmas[itr]);
        }
        itr := itr + 1;
      }
      return None;
    }

    /** kmalloc followed by set_mapping(..., 7). */
    method MapFresh(r: nat, va: nat)
      requires Valid() && CanTakeAndMap(View(), r, VpnOf(va))
      modifies this`head, this`role, this`free, mem, refs
      ensures Valid() && View() == CopyOnWrite.MapFresh(old(View()), r, VpnOf(va), ZeroFrame())
    {
      TakeAsOk(View(), Data, ZeroFrame());
      var f := FetchFreePage(Data);
      assert View() == TakeData(old(View()), ZeroFrame());
      assert WithFlags(Word(f, 0), 7) == Word(f, 7);
      SetMapping(r, va, Word(f, 0), 7);
    }

    /** page_alloc followed by memcopy of the page's frame. */
    method CopyOfFrame(x: nat) returns (f: nat)
      requires Valid() && head.Some? && head.value < mem.Length && x < mem.Length && x != head.value
      modifies this`head, this`role, this`free, mem, refs
      ensures Valid() && View() == TakeData(old(View()), old(mem[x])) && Some(f) == old(head)
    {
      f := FetchFreePage(Data);
      mem[f] := mem[x];
      assert View().mem == TakeData(old(View()), old(mem[x])).mem;
    }

    /** The copy-on-write branch of page_fault_handler. */
    method CowFault(r: nat, va: nat)
      requires Valid() && CanCopy(View(), r, VpnOf(va))
      modifies this`head, this`role, this`free, mem, refs
      ensures Valid() && View() == CopyOnWrite.CowFault(old(View()), r, VpnOf(va))
    {
      var present, entry := GetPteEntry(r, va);
      if present {
        CopyReady(View(), r, VpnOf(va), entry);
        var count := refs[entry.pfn];
        if count == 1 {
          SetMapping(r, va, Word(entry.pfn, (entry.flags & 0xEFF) | 2), 1);
        } else if count > 1 {
          var f := CopyOfFrame(entry.pfn);
          assert WithFlags(Word(f, 0), 7) == Word(f, 7);
          SetMapping(r, va, Word(f, 0), 7);
          SetRef(entry.pfn, count - 1);
        }
      }
    }

    /** page_fault_handler without the TEXT and DATA branches: whether the process may go on. */
    method PageFault(r: nat, vmas: seq<Vma>, va: nat, err: nat) returns (resume: bool)
      requires Valid() && CanHandle(View(), r, vmas, va, err)
      requires !Processes.PageFault(View(), r, vmas, va, err).LazyLoad?
      modifies this`head, this`role, this`free, mem, refs
      ensures Valid()
      ensures Processes.PageFault(old(View()), r, vmas, va, err) == if resume then Resumed(View()) else Killed
      ensures resume <==> exists a :: a in vmas && a.start <= va <= a.end
    {
      CheckVmaIff(vmas, va);
      var vma := CheckVma(vmas, va);
      if vma == None {
        return false;
      }
      if err == 7 {
        CowFault(r, va);
      } else if vma.value.kind == Stack {
        MapFresh(r, va);
      }
      return true;
    }

    // ----- boot

    /** The list built so far: ascending frames below `bound`, linked from head to tail. */
    ghost predicate Built(bound: nat)
      reads this, next
    {
      && Ascending(free, bound) && Chained(next[..], free) && head == LinkAt(free, 0)
      && (free != [] ==> tail == free[|free| - 1])
    }

    /** Puts a frame at the end of the list; a frame that is there already stays. */
    method Append(page: nat)
      requires Valid() && page < mem.Length && Built(page + 1)
      modifies this`head, this`tail, this`free, next, refs
      ensures Valid() && Built(page + 1) && refs[..] == old(refs[..])[page := 0]
      ensures free == AtEnd(old(free), page)
    {
      ghost var links := next[..];
      SetRef(page, 0);
      if head == None {
        head := Some(page);
        next[page] := None;
      } else {
        next[tail] := Some(page);
        next[page] := None;
      }
      AppendedChain(links, free, page);
      assert next[..] == Relink(links, free, page);
      tail := page;
      free := AtEnd(free, page);
    }

    /** The loop over the memory map for one frame: the frame joins the list if some region contains it. */
    method ScanRegions(page: nat, regions: seq<Region>) returns (marked: bool)
      requires Valid() && page < mem.Length && Built(page)
      modifies this`head, this`tail, this`free, next, refs
      ensures Valid() && Built(page + 1)
      ensures marked <==> exists j :: 0 <= j < |regions| && Inside(page, regions[j])
      ensures forall f :: f in free <==> f in old(free) || (marked && f == page)
      ensures refs[..] == if marked then old(refs[..])[page := 0] else old(refs[..])
    {
      marked := false;
      for k := 0 to |regions|
        invariant Valid() && Built(page + 1)
        invariant marked <==> exists j :: 0 <= j < k && Inside(page, regions[j])
        invariant forall f :: f in free <==> f in old(free) || (marked && f == page)
        invariant refs[..] == if marked then old(refs[..])[page := 0] else old(refs[..])
      {
        if Inside(page, regions[k]) {
          Append(page);
          marked := true;
        }
      }
    }

    /** The frames below `bound` are sorted into free and referenced ones. */
    ghost predicate Sorted(bound: nat, limit: nat, regions: seq<Region>)
      reads this, refs
    {
      && bound <= refs.Length
      && forall f :: 0 <= f < bound ==>
                       (f in free <==> Usable(f, limit, regions)) && refs[f] == (if f in free then 0 else 1)
    }

    method SortFrame(page: nat, limit: nat, regions: seq<Region>)
      requires Valid() && page < mem.Length && Built(page) && Sorted(page, limit, regions)
      modifies this`head, this`tail, this`free, next, refs
      ensures Valid() && Built(page + 1) && Sorted(page + 1, limit, regions)
    {
      var marked := false;
      assert page !in free;
      if page * PAGE_SIZE >= limit && page * PAGE_SIZE + PAGE_SIZE - 1 >= limit {
        marked := ScanRegions(page, regions);
      }
      ghost var counts := refs[..];
      if !marked {
        SetRef(page, 1);
      }
      assert forall f :: 0 <= f < page ==> refs[f] == refs[..][f] == counts[f];
    }

    /** create_page_list: the frames that lie above the kernel and strictly inside a region of usable memory form the
        free list, in ascending order; all others count as referenced. Regions may overlap. */
    method CreatePageList(physfree: nat, regions: seq<Region>)
      requires Valid() && mem.Length <= 0x8_0000 && head == None
      modifies this`head, this`tail, this`role, this`free, next, refs
      ensures Valid() && AllocatorOk(View()) && (free != [] ==> TailIsLast(View()))
      ensures forall i, j :: 0 <= i < j < |free| ==> free[i] < free[j]
      ensures forall f :: 0 <= f < mem.Length ==>
              (f in free <==> Usable(f, ScaleUp(physfree + 16 * mem.Length), regions))
      ensures forall f :: 0 <= f < mem.Length ==>
              refs[f] == (if f in free then 0 else 1) && role[f] == (if f in free then Unused else Kernel)
    {
      var limit := ScaleUp(physfree + 16 * mem.Length);
      free := [];
      for page := 0 to mem.Length
        invariant Valid() && Built(page) && Sorted(page, limit, regions)
      {
        SortFrame(page, limit, regions);
      }
      ghost var frames := free;
      role := seq(mem.Length, i => if i in frames then Unused else Kernel);
      SortedIsConsistent(View());
    }

    /** create_vir_phy_mapping. */
    method CreateVirPhyMapping(r: nat)
      requires Valid() && mem.Length <= 0x8_0000 && Boot.MappedUpTo(View(), r, 0, |free|)
      requires |free| >= Boot.TablesFor(mem.Length)
      modifies this`head, this`role, this`free, mem, refs
      ensures Valid() && Boot.MappedUpTo(View(), r, mem.Length, |old(free)|)
    {
      ghost var have := |free|;
      for cnt := 0 to mem.Length
        invariant Valid() && Boot.MappedUpTo(View(), r, cnt, have)
      {
        MapFrame(r, cnt, have);
      }
    }

    method MapFrame(r: nat, cnt: nat, ghost have: nat)
      requires Valid() && cnt < mem.Length <= 0x8_0000 && have >= Boot.TablesFor(mem.Length)
      requires Boot.MappedUpTo(View(), r, cnt, have)
      modifies this`head, this`role, this`free, mem, refs
      ensures Valid() && Boot.MappedUpTo(View(), r, cnt + 1, have)
    {
      ghost var m1 := Boot.MapNext(View(), r, cnt, mem.Length, have);
      assert WithFlags(Word(cnt, 0), 7) == Word(cnt, 7);
      assert VpnOf(Boot.KERNBASE + cnt * PAGE_SIZE) == Boot.KernelPage(cnt);
      SetMapping(r, Boot.KERNBASE + cnt * PAGE_SIZE, Word(cnt, 0), 7);
    }

    /** init_mem once the page list is built: the kernel's PML4 and the direct map. Every physical address is then
        mapped at KERNBASE, the PML4 and its tables took exactly 2 + ceil(n / 2^18) + ceil(n / 512) frames, and the
        invariant that every later step keeps holds. */
    method MapKernel() returns (pml: nat)
      requires Valid() && AllocatorOk(View()) && 0 < mem.Length <= 0x8_0000
      requires forall f :: 0 <= f < mem.Length ==> role[f] == Unused || role[f] == Kernel
      requires |free| >= Boot.TablesFor(mem.Length) + 1
      modifies this`head, this`kroot, this`role, this`free, mem, refs
      ensures Valid() && CowInv(View()) && Exact(View()) && IsRoot(View(), pml) && pml == kroot
      ensures |free| == |old(free)| - 1 - Boot.TablesFor(mem.Length)
      ensures forall pa :: 0 <= pa < mem.Length * PAGE_SIZE ==>
                             Walk(View(), pml, VpnOf(Boot.KERNBASE + pa)) == Some(Word(pa / PAGE_SIZE, 7))
    {
      ghost var r := Table(free[0], [], free[0]);
      TakeOk(View(), r);
      pml := FetchFreePage(r);
      kroot := pml;
      ghost var have := |free|;
      assert !Present(ZERO_WORD);
      Boot.EmptyKernelSpace(View(), pml);
      CreateVirPhyMapping(pml);
      Boot.BootEstablishesInvariant(View(), pml, mem.Length, have);
      forall pa | 0 <= pa < mem.Length * PAGE_SIZE
        ensures Walk(View(), pml, VpnOf(Boot.KERNBASE + pa)) == Some(Word(pa / PAGE_SIZE, 7))
      {
        Boot.DirectMapReads(View(), pml, mem.Length, have, pa);
      }
    }

    /** init_mem, from the loader's memory map: whatever memory held, with enough usable frames the kernel's address
        space stands and the invariant of every later run holds, with exact counts and no process yet. */
    method InitMem(physfree: nat, regions: seq<Region>) returns (pml: nat)
      requires Valid() && 0 < mem.Length <= 0x8_0000
      requires |UsableFrames(mem.Length, ScaleUp(physfree + 16 * mem.Length), regions)| >= 1
               + Boot.TablesFor(mem.Length)
      modifies this`head, this`tail, this`kroot, this`role, this`free, mem, next, refs
      ensures Valid() && SysInv(Sys(View(), map[])) && Exact(View()) && IsRoot(View(), pml) && pml == kroot
      ensures |free| + 1 + Boot.TablesFor(mem.Length)
              == |UsableFrames(mem.Length, ScaleUp(physfree + 16 * mem.Length), regions)|
      ensures forall pa :: 0 <= pa < mem.Length * PAGE_SIZE ==>
                             Walk(View(), pml, VpnOf(Boot.KERNBASE + pa)) == Some(Word(pa / PAGE_SIZE, 7))
    {
      head := None;
      CreatePageList(physfree, regions);
      AsManyAsMembers(free);
      assert Elements(free) == UsableFrames(mem.Length, ScaleUp(physfree + 16 * mem.Length), regions);
      pml := MapKernel();
    }
  }
}
