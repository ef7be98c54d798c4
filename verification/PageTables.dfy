/** The four-level page tables (section 4.5 of the Intel SDM, Volume 3A): the walk, the builder and what they
    keep (get_pte_entry, create_dir_table and set_mapping in sys/virmem.c). */
module PageTables {
  import opened Lists
  import opened Frames

  /** The four table indices of a page: bits 47..39, 38..30, 29..21 and 20..12 of the address. */
  type Vpn = v: seq<nat> | |v| == 4 && forall i :: 0 <= i < 4 ==> v[i] < 512 witness [0, 0, 0, 0]

  function VpnOf(va: nat): Vpn {
    [va / 0x80_0000_0000 % 512, va / 0x4000_0000 % 512, va / 0x20_0000 % 512, va / 0x1000 % 512]
  }

  lemma Indices(a: nat)
    ensures var x := a / 0x1000;
            VpnOf(a) == [x / 512 / 512 / 512 % 512, x / 512 / 512 % 512, x / 512 % 512, x % 512]
  {
    var x := a / 0x1000;
    assert a / 0x20_0000 == x / 512;
    assert a / 0x4000_0000 == x / 512 / 512;
    assert a / 0x80_0000_0000 == x / 512 / 512 / 512;
  }

  lemma SamePageSameVpn(a: nat, b: nat)
    requires a / 0x1000 == b / 0x1000
    ensures VpnOf(a) == VpnOf(b)
  {
    Indices(a);
    Indices(b);
  }

  /** The walk from table `f` at depth `d`. A present entry that points outside memory never occurs in a
      well-shaped machine. */
  function Descend(m: Machine, f: nat, v: Vpn, d: nat): Option<Word>
    requires f < |m.mem| && d < 4
    decreases 4 - d
  {
    var e := m.mem[f][v[d]];
    if !Present(e) then None
    else if d == 3 then Some(e)
    else if e.pfn < |m.mem| then Descend(m, e.pfn, v, d + 1)
    else None
  }

  /** get_pte_entry: the leaf entry, if every level is present. */
  function Walk(m: Machine, r: nat, v: Vpn): Option<Word>
    requires r < |m.mem|
  {
    Descend(m, r, v, 0)
  }

  /** The last-level table on the walk from `f`. */
  function LeafFrom(m: Machine, f: nat, v: Vpn, d: nat): Option<nat>
    requires f < |m.mem| && d < 4
    decreases 4 - d
  {
    if d == 3 then Some(f)
    else
      var e := m.mem[f][v[d]];
      if Present(e) && e.pfn < |m.mem| then LeafFrom(m, e.pfn, v, d + 1) else None
  }

  function StoreWord(m: Machine, f: nat, i: nat, w: Word): Machine
    requires f < |m.mem| && i < 512
  {
    m.(mem := m.mem[f := m.mem[f][i := w]])
  }

  /** The role of the table that entry `i` of table `p` leads to. Entry 511 of a PML4 is the kernel half, which all
      address spaces share. */
  function ChildRole(m: Machine, p: nat, i: nat): Role
    requires p < |m.role| && m.role[p].Table?
  {
    var shared := m.role[p].path == [] && i == 511;
    Table(if shared then m.kroot else m.role[p].owner, m.role[p].path + [i], if shared then m.kroot else p)
  }

  /** create_dir_table: the table behind an entry, made and linked with flags 7 when the entry is absent. */
  function CreateDir(m: Machine, f: nat, i: nat): (Machine, nat)
    requires i < 512 && CanCreate(m, f, i)
  {
    var e := m.mem[f][i];
    if Present(e) then (m, e.pfn)
    else
      var h := m.head.value;
      (StoreWord(Take(m, ChildRole(m, f, i)), f, i, Word(h, 7)), h)
  }

  ghost predicate EntryOk(m: Machine, f: nat, i: nat)
    requires Sized(m) && f < |m.mem| && m.role[f].Table? && i < 512
  {
    Present(m.mem[f][i]) ==>
      var c := m.mem[f][i].pfn;
      && c < |m.mem|
      && (|m.role[f].path| < 3 ==> m.role[c] == ChildRole(m, f, i) && m.mem[f][i].flags == 7)
      && (|m.role[f].path| == 3 && m.role[f].path[0] < 511 ==> m.role[c] == Data && ForUser(m.mem[f][i]))
  }

  ghost predicate TableOk(m: Machine, f: nat)
    requires Sized(m) && f < |m.mem| && m.role[f].Table?
  {
    && |m.role[f].path| <= 3
    && (m.role[f].path == [] ==> m.role[f].owner == f)
    && forall i {:trigger EntryOk(m, f, i)} :: 0 <= i < 512 ==> EntryOk(m, f, i)
  }

  /** Every table below a PML4 hangs off the entry its path names. */
  ghost predicate ParentOk(m: Machine, g: nat)
    requires Sized(m) && g < |m.mem| && m.role[g].Table? && m.role[g].path != []
  {
    var p, i := m.role[g].parent, m.role[g].path[|m.role[g].path| - 1];
    p < |m.mem| && m.role[p].Table? && i < 512 && Present(m.mem[p][i]) && m.mem[p][i].pfn == g
    && m.role[g] == ChildRole(m, p, i)
  }

  /** The tables form trees that are pairwise disjoint except for the shared kernel half, and none of them is free. */
  ghost predicate Shape(m: Machine) {
    && AllocatorOk(m)
    && m.kroot < |m.mem|
    && (forall f {:trigger TableOk(m, f)} :: 0 <= f < |m.mem| && m.role[f].Table? ==> TableOk(m, f))
    && (forall g {:trigger ParentOk(m, g)} ::
          0 <= g < |m.mem| && m.role[g].Table? && m.role[g].path != [] ==> ParentOk(m, g))
  }

  ghost predicate IsRoot(m: Machine, r: nat) {
    r < |m.mem| && r < |m.role| && m.role[r].Table? && m.role[r].path == []
  }

  /** Table `f` lies at depth `d` on the walk of `v` in the tree of `o`. */
  ghost predicate OnPath(m: Machine, f: nat, v: Vpn, d: nat)
    requires d <= 3
  {
    f < |m.mem| && f < |m.role| && m.role[f].Table? && m.role[f].path == v[..d]
  }

  function OwnerAt(m: Machine, f: nat, v: Vpn, d: nat): nat
    requires f < |m.role| && m.role[f].Table?
  {
    if d == 0 && v[0] == 511 then m.kroot else m.role[f].owner
  }

  /** What making tables changes: unused frames become empty tables on the way to `v`; nothing else moves. */
  ghost predicate Grown(m: Machine, m': Machine, v: Vpn) {
    && Sized(m) && Sized(m')
    && |m'.mem| == |m.mem| && m'.kroot == m.kroot && m'.tail == m.tail
    && (forall f :: 0 <= f < |m.mem| && m.role[f] != Unused ==>
                      m'.role[f] == m.role[f] && m'.refs[f] == m.refs[f])
    && (forall f :: 0 <= f < |m.mem| && m.role[f] != Unused && !m.role[f].Table? ==> m'.mem[f] == m.mem[f])
    && (forall f :: 0 <= f < |m.mem| && m.role[f] == Unused ==>
                      m'.role[f] == Unused || (m'.role[f].Table? && m'.role[f].path != [] && m'.role[f].path <= v))
    && |m'.free| <= |m.free| && m'.free == m.free[|m.free| - |m'.free|..]
  }

  lemma ChildOnPath(m: Machine, f: nat, v: Vpn, d: nat)
    requires Shape(m) && d < 3 && OnPath(m, f, v, d) && Present(m.mem[f][v[d]])
    ensures OnPath(m, m.mem[f][v[d]].pfn, v, d + 1)
    ensures m.role[m.mem[f][v[d]].pfn].owner == OwnerAt(m, f, v, d)
  {
    assert TableOk(m, f) && EntryOk(m, f, v[d]);
    assert v[..d] + [v[d]] == v[..d + 1];
  }

  /** The state in which an unused frame `h` became the empty table behind entry `i` of `f`. */
  ghost predicate Linked(m: Machine, m': Machine, f: nat, i: nat, h: nat)
    requires Sized(m) && f < |m.mem| && m.role[f].Table? && i < 512
  {
    && Sized(m') && |m'.mem| == |m.mem| && m'.kroot == m.kroot && m'.tail == m.tail
    && h < |m.mem| && m.role[h] == Unused && h != f
    && m'.role == m.role[h := ChildRole(m, f, i)]
    && (forall x :: 0 <= x < |m.mem| && x != h && x != f ==> m'.mem[x] == m.mem[x])
    && (forall j :: 0 <= j < 512 ==> !Present(m'.mem[h][j]))
    && (forall j :: 0 <= j < 512 && j != i ==> m'.mem[f][j] == m.mem[f][j])
    && Present(m'.mem[f][i]) && m'.mem[f][i] == Word(h, 7)
  }

  lemma LinkedChildRole(m: Machine, m': Machine, f: nat, i: nat, h: nat, x: nat, j: nat)
    requires Sized(m) && f < |m.mem| && m.role[f].Table? && i < 512 && Linked(m, m', f, i, h)
    requires x < |m.mem| && m.role[x].Table?
    ensures m'.role[x].Table? && ChildRole(m', x, j) == ChildRole(m, x, j)
  {
  }

  lemma LinkedTableOk(m: Machine, m': Machine, f: nat, i: nat, h: nat, x: nat)
    requires Shape(m) && f < |m.mem| && m.role[f].Table? && i < 512 && Linked(m, m', f, i, h)
    requires |m.role[f].path| < 3 && x < |m.mem| && m'.role[x].Table?
    ensures TableOk(m', x)
  {
    if x == h {
      assert forall j :: 0 <= j < 512 ==> EntryOk(m', h, j);
    } else {
      assert TableOk(m, x);
      forall j | 0 <= j < 512
        ensures EntryOk(m', x, j)
      {
        assert EntryOk(m, x, j);
        LinkedChildRole(m, m', f, i, h, x, j);
      }
    }
  }

  lemma LinkedParentOk(m: Machine, m': Machine, f: nat, i: nat, h: nat, x: nat)
    requires Shape(m) && f < |m.mem| && m.role[f].Table? && i < 512 && Linked(m, m', f, i, h)
    requires |m.role[f].path| < 3 && !Present(m.mem[f][i]) && (m.role[f].path != [] || i < 511 || f == m.kroot)
    requires x < |m.mem| && m'.role[x].Table? && m'.role[x].path != []
    ensures ParentOk(m', x)
  {
    if x == h {
      assert ChildRole(m', f, i) == ChildRole(m, f, i);
      assert m'.role[h].parent == f;
    } else {
      assert ParentOk(m, x);
      LinkedChildRole(m, m', f, i, h, m.role[x].parent, m.role[x].path[|m.role[x].path| - 1]);
    }
  }

  lemma LinkedShape(m: Machine, m': Machine, f: nat, i: nat, h: nat)
    requires Shape(m) && AllocatorOk(m') && f < |m.mem| && m.role[f].Table? && i < 512 && Linked(m, m', f, i, h)
    requires |m.role[f].path| < 3 && !Present(m.mem[f][i]) && (m.role[f].path != [] || i < 511 || f == m.kroot)
    ensures Shape(m')
  {
    forall x | 0 <= x < |m'.mem| && m'.role[x].Table?
      ensures TableOk(m', x)
      ensures m'.role[x].path != [] ==> ParentOk(m', x)
    {
      LinkedTableOk(m, m', f, i, h, x);
      if m'.role[x].path != [] {
        LinkedParentOk(m, m', f, i, h, x);
      }
    }
  }

  lemma CreateLinks(m: Machine, f: nat, i: nat)
    requires AllocatorOk(m) && f < |m.mem| && m.role[f].Table? && i < 512 && m.free != [] && !Present(m.mem[f][i])
    ensures CanCreate(m, f, i)
    ensures var (m', h) := CreateDir(m, f, i);
            AllocatorOk(m') && h == m.free[0] && Linked(m, m', f, i, h) && m'.free == m.free[1..]
            && m'.refs == m.refs[h := 1]
  {
    TakeOk(m, ChildRole(m, f, i));
    assert Present(Word(m.free[0], 7));
    assert !Present(ZERO_WORD);
  }

  lemma LinkedGrown(m: Machine, m': Machine, f: nat, v: Vpn, d: nat, h: nat)
    requires Sized(m) && d < 3 && OnPath(m, f, v, d) && m.free != [] && Linked(m, m', f, v[d], h)
    requires m'.free == m.free[1..] && m'.refs == m.refs[h := 1]
    ensures Grown(m, m', v) && OnPath(m', h, v, d + 1) && m'.role[h].owner == OwnerAt(m, f, v, d)
  {
    assert v[..d] + [v[d]] == v[..d + 1];
  }

  /** Linking a fresh, empty table keeps the shape. */
  lemma CreateDirOk(m: Machine, f: nat, v: Vpn, d: nat)
    requires Shape(m) && d < 3 && OnPath(m, f, v, d) && (Present(m.mem[f][v[d]]) || m.free != [])
    requires v[0] < 511 || m.role[f].path != [] || f == m.kroot
    ensures CanCreate(m, f, v[d])
    ensures var (m', g) := CreateDir(m, f, v[d]);
            && Shape(m') && Grown(m, m', v) && OnPath(m', g, v, d + 1)
            && Present(m'.mem[f][v[d]]) && m'.mem[f][v[d]].pfn == g
            && m'.role[g].owner == OwnerAt(m, f, v, d)
            && if Present(m.mem[f][v[d]]) then m' == m else m'.free == m.free[1..] && Linked(m, m', f, v[d], g)
  {
    if Present(m.mem[f][v[d]]) {
      ChildOnPath(m, f, v, d);
      assert m.free == m.free[0..];
    } else {
      CreateLinks(m, f, v[d]);
      var (m', h) := CreateDir(m, f, v[d]);
      LinkedGrown(m, m', f, v, d, h);
      LinkedShape(m, m', f, v[d], h);
    }
  }

  /** set_mapping from table `f` down: make the missing tables, then store the leaf entry. Running out of frames
      or meeting an entry that points outside memory does not occur where it is used. */
  function SetAt(m: Machine, f: nat, v: Vpn, d: nat, w: Word): (m': Machine)
    requires d <= 3 && f < |m.mem|
    ensures |m'.mem| == |m.mem| && |m'.refs| == |m.refs|
    decreases 3 - d
  {
    if d == 3 then StoreWord(m, f, v[3], w)
    else if CanCreate(m, f, v[d]) then
      var (m1, g) := CreateDir(m, f, v[d]);
      if g < |m1.mem| then SetAt(m1, g, v, d + 1, w) else m1
    else m
  }

  /** A new table needs a free frame; a table that is there already needs none. */
  predicate CanCreate(m: Machine, f: nat, i: nat)
    requires i < 512
  {
    && |m.next| == |m.refs| == |m.role| == |m.mem| && m.tail < |m.mem| && f < |m.mem| && m.role[f].Table?
    && (Present(m.mem[f][i]) || (m.head.Some? && m.head.value < |m.mem|))
  }

  /** The free frames suffice for the tables that are missing on the way to the page. */
  ghost predicate CanMap(m: Machine, r: nat, v: Vpn) {
    Shape(m) && IsRoot(m, r) && (v[0] < 511 || r == m.kroot) && |m.free| >= Missing(m, r, v, 0)
  }

  function SetMapping(m: Machine, r: nat, v: Vpn, w: Word): (m': Machine)
    requires r < |m.mem|
    ensures |m'.mem| == |m.mem| && |m'.refs| == |m.refs|
  {
    SetAt(m, r, v, 0, w)
  }

  /** A present entry of a last-level table in the user half. */
  ghost predicate PteSlot(m: Machine, f: nat, i: nat) {
    && f < |m.mem| && f < |m.role| && i < 512
    && m.role[f].Table? && |m.role[f].path| == 3 && m.role[f].path[0] < 511
    && Present(m.mem[f][i])
  }

  ghost predicate SlotsKept(m: Machine, m': Machine, g: nat, j: nat) {
    && |m'.mem| == |m.mem|
    && forall x: nat, i: nat :: (x, i) != (g, j) ==>
         (PteSlot(m', x, i) <==> PteSlot(m, x, i)) && (PteSlot(m, x, i) ==> m'.mem[x][i] == m.mem[x][i])
  }

  /** Every walk is the same, except that of `v` in the trees of `o`. */
  ghost predicate WalksKept(m: Machine, m': Machine, o: nat, v: Vpn) {
    && |m'.mem| == |m.mem|
    && (forall q: nat :: IsRoot(m, q) ==> IsRoot(m', q))
    && forall q: nat, u: Vpn {:trigger Walk(m', q, u)} :: IsRoot(m, q) && !(u == v && OwnerAt(m, q, u, 0) == o) ==>
         Walk(m', q, u) == Walk(m, q, u)
  }

  lemma {:induction false} LinkedDescend(m: Machine, m': Machine, f: nat, i: nat, h: nat, g: nat, u: Vpn, d: nat)
    requires Shape(m) && f < |m.mem| && m.role[f].Table? && i < 512 && Linked(m, m', f, i, h)
    requires |m.role[f].path| < 3 && !Present(m.mem[f][i])
    requires d <= 3 && OnPath(m, g, u, d)
    ensures Descend(m', g, u, d) == Descend(m, g, u, d)
    ensures LeafFrom(m, g, u, d).Some? ==> LeafFrom(m', g, u, d) == LeafFrom(m, g, u, d)
    decreases 3 - d
  {
    if d < 3 {
      if (g, u[d]) == (f, i) {
        assert Descend(m', h, u, d + 1) == None;
      } else if Present(m.mem[g][u[d]]) {
        ChildOnPath(m, g, u, d);
        LinkedDescend(m, m', f, i, h, m.mem[g][u[d]].pfn, u, d + 1);
      }
    }
  }

  lemma LinkedKeeps(m: Machine, m': Machine, f: nat, i: nat, h: nat, o: nat, v: Vpn)
    requires Shape(m) && f < |m.mem| && m.role[f].Table? && i < 512 && Linked(m, m', f, i, h)
    requires |m.role[f].path| < 3 && !Present(m.mem[f][i])
    ensures WalksKept(m, m', o, v)
    ensures forall g, j :: SlotsKept(m, m', g, j)
  {
    forall q: nat, u: Vpn | IsRoot(m, q)
      ensures IsRoot(m', q) && Walk(m', q, u) == Walk(m, q, u)
    {
      assert OnPath(m, q, u, 0);
      LinkedDescend(m, m', f, i, h, q, u, 0);
    }
  }

  lemma {:induction false} StoreDescend(m: Machine, f: nat, i: nat, w: Word, g: nat, u: Vpn, d: nat)
    requires Shape(m) && f < |m.mem| && i < 512 && m.role[f].Table? && |m.role[f].path| == 3
    requires d <= 3 && OnPath(m, g, u, d)
    requires !(u[..3] == m.role[f].path && u[3] == i && OwnerAt(m, g, u, d) == m.role[f].owner)
    ensures Descend(StoreWord(m, f, i, w), g, u, d) == Descend(m, g, u, d)
    decreases 3 - d
  {
    if d < 3 && Present(m.mem[g][u[d]]) {
      ChildOnPath(m, g, u, d);
      StoreDescend(m, f, i, w, m.mem[g][u[d]].pfn, u, d + 1);
    }
  }

  lemma StoreShape(m: Machine, f: nat, i: nat, w: Word)
    requires Shape(m) && f < |m.mem| && i < 512 && m.role[f].Table? && |m.role[f].path| == 3
    requires Present(w) ==> w.pfn < |m.mem| && (m.role[f].path[0] < 511 ==> m.role[w.pfn] == Data && ForUser(w))
    ensures Shape(StoreWord(m, f, i, w))
  {
    var m' := StoreWord(m, f, i, w);
    forall x | 0 <= x < |m'.mem| && m'.role[x].Table?
      ensures TableOk(m', x)
      ensures m'.role[x].path != [] ==> ParentOk(m', x)
    {
      assert TableOk(m, x);
      forall j | 0 <= j < 512
        ensures EntryOk(m', x, j)
      {
        assert EntryOk(m, x, j);
        assert m.role[x].path != [] ==> ChildRole(m', x, j) == ChildRole(m, x, j);
      }
      if m.role[x].path != [] {
        assert ParentOk(m, x);
      }
    }
  }

  lemma SamePage(v: Vpn, u: Vpn)
    requires v[..3] == u[..3] && v[3] == u[3]
    ensures v == u
  {
    assert forall k :: 0 <= k < 3 ==> v[k] == v[..3][k] == u[..3][k] == u[k];
  }

  lemma StoreWalks(m: Machine, f: nat, v: Vpn, w: Word)
    requires Shape(m) && OnPath(m, f, v, 3)
    ensures WalksKept(m, StoreWord(m, f, v[3], w), m.role[f].owner, v)
  {
    var m' := StoreWord(m, f, v[3], w);
    forall q: nat, u: Vpn | IsRoot(m, q) && !(u == v && OwnerAt(m, q, u, 0) == m.role[f].owner)
      ensures Walk(m', q, u) == Walk(m, q, u)
    {
      if u[..3] == v[..3] && u[3] == v[3] {
        SamePage(u, v);
      }
      assert OnPath(m, q, u, 0);
      StoreDescend(m, f, v[3], w, q, u, 0);
    }
  }

  lemma StoreKeeps(m: Machine, f: nat, v: Vpn, w: Word)
    requires Shape(m) && OnPath(m, f, v, 3)
    requires Present(w) ==> w.pfn < |m.mem| && (v[0] < 511 ==> m.role[w.pfn] == Data && ForUser(w))
    ensures var m' := StoreWord(m, f, v[3], w);
            Shape(m') && Grown(m, m', v) && SlotsKept(m, m', f, v[3])
  {
    StoreShape(m, f, v[3], w);
  }

  lemma GrownTrans(a: Machine, b: Machine, c: Machine, v: Vpn)
    requires Grown(a, b, v) && Grown(b, c, v)
    ensures Grown(a, c, v)
  {
    var k, l := |a.free| - |b.free|, |b.free| - |c.free|;
    assert c.free == a.free[k..][l..] == a.free[k + l..];
  }

  lemma WalksKeptTrans(a: Machine, b: Machine, c: Machine, o: nat, v: Vpn)
    requires Grown(a, b, v) && WalksKept(a, b, o, v) && WalksKept(b, c, o, v)
    ensures WalksKept(a, c, o, v)
  {
    forall q: nat, u: Vpn | IsRoot(a, q) && !(u == v && OwnerAt(a, q, u, 0) == o)
      ensures Walk(c, q, u) == Walk(a, q, u)
    {
      assert Walk(b, q, u) == Walk(a, q, u);
      assert IsRoot(b, q) && OwnerAt(b, q, u, 0) == OwnerAt(a, q, u, 0);
    }
  }

  /** How many tables are missing on the way down. */
  function Missing(m: Machine, f: nat, v: Vpn, d: nat): (n: nat)
    requires f < |m.mem| && d <= 3
    ensures n <= 3 - d
    decreases 3 - d
  {
    if d == 3 then 0
    else if !Present(m.mem[f][v[d]]) then 3 - d
    else if m.mem[f][v[d]].pfn < |m.mem| then Missing(m, m.mem[f][v[d]].pfn, v, d + 1)
    else 0
  }

  ghost predicate ShallowKept(m: Machine, m': Machine, d: nat) {
    forall x :: 0 <= x < |m.mem| && x < |m.role| && m.role[x].Table? && |m.role[x].path| < d ==>
                  x < |m'.mem| && m'.mem[x] == m.mem[x]
  }

  /** What storing `w` for page `v` under table `f` achieves: the walk of the page ends in the stored entry, every
      other walk and every other user entry is kept, the trees stay disjoint, and exactly the missing tables
      leave the free list. */
  ghost predicate Stored(m: Machine, m': Machine, f: nat, v: Vpn, d: nat, w: Word)
    requires Sized(m) && d <= 3 && OnPath(m, f, v, d)
  {
    && Shape(m') && Grown(m, m', v) && WalksKept(m, m', OwnerAt(m, f, v, d), v) && ShallowKept(m, m', d)
    && Descend(m', f, v, d) == Some(w)
    && |m'.free| == |m.free| - Missing(m, f, v, d)
    && SlotStored(m, m', f, v, d, w)
  }

  ghost predicate SlotStored(m: Machine, m': Machine, f: nat, v: Vpn, d: nat, w: Word)
    requires d <= 3 && OnPath(m, f, v, d) && |m'.mem| == |m.mem|
  {
    match LeafFrom(m', f, v, d)
    case None => false
    case Some(g) =>
      && OnPath(m', g, v, 3) && m'.role[g].owner == OwnerAt(m, f, v, d) && m'.mem[g][v[3]] == w
      && SlotsKept(m, m', g, v[3])
      && (v[0] < 511 ==> if PteSlot(m, g, v[3]) then Descend(m, f, v, d) == Some(m.mem[g][v[3]])
                                                else Descend(m, f, v, d) == None)
  }

  lemma StoredAtLeaf(m: Machine, f: nat, v: Vpn, w: Word)
    requires Shape(m) && OnPath(m, f, v, 3)
    requires Present(w) && w.pfn < |m.mem| && (v[0] < 511 ==> m.role[w.pfn] == Data && ForUser(w))
    ensures Stored(m, StoreWord(m, f, v[3], w), f, v, 3, w)
  {
    StoreKeeps(m, f, v, w);
    StoreWalks(m, f, v, w);
    assert v[..3][0] == v[0];
  }

  lemma SlotsKeptTrans(a: Machine, b: Machine, c: Machine, g: nat, j: nat)
    requires SlotsKept(a, b, g, j) && SlotsKept(b, c, g, j)
    ensures SlotsKept(a, c, g, j)
  {
  }

  ghost predicate LinkStep(m: Machine, m1: Machine, f: nat, c: nat, v: Vpn, d: nat) {
    && Shape(m) && Shape(m1) && d < 3 && OnPath(m, f, v, d) && !Present(m.mem[f][v[d]])
    && Linked(m, m1, f, v[d], c) && Grown(m, m1, v) && OnPath(m1, c, v, d + 1)
    && m.free != [] && m1.free == m.free[1..]
    && m1.role[c].owner == OwnerAt(m, f, v, d)
  }

  lemma SlotThroughLink(m: Machine, m1: Machine, m': Machine, f: nat, c: nat, v: Vpn, d: nat, w: Word)
    requires LinkStep(m, m1, f, c, v, d) && |m'.mem| == |m1.mem| && m'.mem[f] == m1.mem[f]
    requires SlotStored(m1, m', c, v, d + 1, w)
    ensures SlotStored(m, m', f, v, d, w)
  {
    LinkedKeeps(m, m1, f, v[d], c, 0, v);
    var g := LeafFrom(m', c, v, d + 1).value;
    assert LeafFrom(m', f, v, d) == Some(g);
    SlotsKeptTrans(m, m1, m', g, v[3]);
    assert SlotsKept(m, m1, g, v[3] + 1);
    LinkedDescend(m, m1, f, v[d], c, f, v, d);
  }

  lemma WalksThroughLink(m: Machine, m1: Machine, m': Machine, f: nat, c: nat, v: Vpn, d: nat)
    requires LinkStep(m, m1, f, c, v, d) && Grown(m1, m', v)
    requires WalksKept(m1, m', OwnerAt(m, f, v, d), v)
    ensures WalksKept(m, m', OwnerAt(m, f, v, d), v)
  {
    LinkedKeeps(m, m1, f, v[d], c, OwnerAt(m, f, v, d), v);
    WalksKeptTrans(m, m1, m', OwnerAt(m, f, v, d), v);
  }

  lemma UpperThroughLink(m: Machine, m1: Machine, m': Machine, f: nat, c: nat, v: Vpn, d: nat)
    requires LinkStep(m, m1, f, c, v, d) && |m'.mem| == |m1.mem|
    requires ShallowKept(m1, m', d + 1)
    ensures ShallowKept(m, m', d) && m'.mem[f] == m1.mem[f]
    ensures Descend(m', f, v, d) == Descend(m', c, v, d + 1)
    ensures Missing(m, f, v, d) == 1 + Missing(m1, c, v, d + 1)
  {
  }

  lemma StoredThroughLink(m: Machine, m1: Machine, m': Machine, f: nat, c: nat, v: Vpn, d: nat, w: Word)
    requires LinkStep(m, m1, f, c, v, d)
    requires Stored(m1, m', c, v, d + 1, w)
    ensures Stored(m, m', f, v, d, w)
  {
    var o := OwnerAt(m, f, v, d);
    assert Grown(m, m', v) by { GrownTrans(m, m1, m', v); }
    assert WalksKept(m, m', o, v) by {
      assert OwnerAt(m1, c, v, d + 1) == o;
      WalksThroughLink(m, m1, m', f, c, v, d);
    }
    UpperThroughLink(m, m1, m', f, c, v, d);
    assert SlotStored(m, m', f, v, d, w) by { SlotThroughLink(m, m1, m', f, c, v, d, w); }
  }

  lemma UpperThroughEntry(m: Machine, m': Machine, f: nat, c: nat, v: Vpn, d: nat)
    requires Shape(m) && d < 3 && OnPath(m, f, v, d) && Present(m.mem[f][v[d]]) && m.mem[f][v[d]].pfn == c
    requires OnPath(m, c, v, d + 1) && ShallowKept(m, m', d + 1) && |m'.mem| == |m.mem|
    ensures ShallowKept(m, m', d) && m'.mem[f] == m.mem[f]
    ensures Descend(m', f, v, d) == Descend(m', c, v, d + 1) && Descend(m, f, v, d) == Descend(m, c, v, d + 1)
    ensures LeafFrom(m', f, v, d) == LeafFrom(m', c, v, d + 1)
    ensures Missing(m, f, v, d) == Missing(m, c, v, d + 1)
  {
  }

  lemma StoredThroughEntry(m: Machine, m': Machine, f: nat, c: nat, v: Vpn, d: nat, w: Word)
    requires Shape(m) && d < 3 && OnPath(m, f, v, d) && Present(m.mem[f][v[d]]) && m.mem[f][v[d]].pfn == c
    requires OnPath(m, c, v, d + 1) && m.role[c].owner == OwnerAt(m, f, v, d)
    requires Stored(m, m', c, v, d + 1, w)
    ensures Stored(m, m', f, v, d, w)
  {
    UpperThroughEntry(m, m', f, c, v, d);
    assert OwnerAt(m, c, v, d + 1) == OwnerAt(m, f, v, d);
    assert WalksKept(m, m', OwnerAt(m, f, v, d), v);
    assert SlotStored(m, m', f, v, d, w);
  }

  lemma SetAtStep(m: Machine, f: nat, v: Vpn, d: nat, w: Word) returns (m1: Machine, c: nat)
    requires Shape(m) && d < 3 && OnPath(m, f, v, d) && |m.free| >= Missing(m, f, v, d)
    requires v[0] < 511 || m.role[f].path != [] || f == m.kroot
    ensures Shape(m1) && Grown(m, m1, v) && OnPath(m1, c, v, d + 1) && |m1.free| >= Missing(m1, c, v, d + 1)
    ensures m1.role[c].owner == OwnerAt(m, f, v, d) && m1.role[c].path != []
    ensures if Present(m.mem[f][v[d]]) then m1 == m && m.mem[f][v[d]].pfn == c
            else m1.free == m.free[1..] && Linked(m, m1, f, v[d], c)
    ensures SetAt(m, f, v, d, w) == SetAt(m1, c, v, d + 1, w)
  {
    m1, c := DirMade(m, f, v, d);
    SetAtUnfold(m, f, v, d, w, m1, c);
  }

  lemma DirMade(m: Machine, f: nat, v: Vpn, d: nat) returns (m1: Machine, c: nat)
    requires Shape(m) && d < 3 && OnPath(m, f, v, d) && |m.free| >= Missing(m, f, v, d)
    requires v[0] < 511 || m.role[f].path != [] || f == m.kroot
    ensures CanCreate(m, f, v[d]) && CreateDir(m, f, v[d]) == (m1, c) && c < |m1.mem|
    ensures Shape(m1) && Grown(m, m1, v) && OnPath(m1, c, v, d + 1) && |m1.free| >= Missing(m1, c, v, d + 1)
    ensures m1.role[c].owner == OwnerAt(m, f, v, d) && m1.role[c].path != []
    ensures if Present(m.mem[f][v[d]]) then m1 == m && m.mem[f][v[d]].pfn == c
            else m1.free == m.free[1..] && Linked(m, m1, f, v[d], c)
  {
    CreateDirOk(m, f, v, d);
    m1, c := CreateDir(m, f, v[d]).0, CreateDir(m, f, v[d]).1;
    MissingBehind(m, f, v, d, m1, c);
  }

  lemma MissingBehind(m: Machine, f: nat, v: Vpn, d: nat, m1: Machine, c: nat)
    requires d < 3 && f < |m.mem| && c < |m1.mem| && |m.free| >= Missing(m, f, v, d)
    requires if Present(m.mem[f][v[d]]) then m1 == m && m.mem[f][v[d]].pfn == c else |m1.free| == |m.free| - 1
    ensures |m1.free| >= Missing(m1, c, v, d + 1)
  {
  }

  lemma SetAtUnfold(m: Machine, f: nat, v: Vpn, d: nat, w: Word, m1: Machine, c: nat)
    requires d < 3 && CanCreate(m, f, v[d]) && CreateDir(m, f, v[d]) == (m1, c) && c < |m1.mem|
    ensures SetAt(m, f, v, d, w) == SetAt(m1, c, v, d + 1, w)
  {
  }

  lemma {:induction false} SetAtOk(m: Machine, f: nat, v: Vpn, d: nat, w: Word)
    requires Shape(m) && d <= 3 && OnPath(m, f, v, d) && |m.free| >= Missing(m, f, v, d)
    requires v[0] < 511 || m.role[f].path != [] || f == m.kroot
    requires Present(w) && w.pfn < |m.mem| && (v[0] < 511 ==> m.role[w.pfn] == Data && ForUser(w))
    ensures Stored(m, SetAt(m, f, v, d, w), f, v, d, w)
    decreases 3 - d
  {
    if d == 3 {
      StoredAtLeaf(m, f, v, w);
    } else {
      var m1, c := SetAtStep(m, f, v, d, w);
      SetAtOk(m1, c, v, d + 1, w);
      StoredStep(m, m1, SetAt(m1, c, v, d + 1, w), f, c, v, d, w);
    }
  }

  lemma StoredStep(m: Machine, m1: Machine, m': Machine, f: nat, c: nat, v: Vpn, d: nat, w: Word)
    requires Shape(m) && Shape(m1) && d < 3 && OnPath(m, f, v, d) && OnPath(m1, c, v, d + 1)
    requires Present(m.mem[f][v[d]]) || m.free != []
    requires m1.role[c].owner == OwnerAt(m, f, v, d) && Grown(m, m1, v)
    requires if Present(m.mem[f][v[d]]) then m1 == m && m.mem[f][v[d]].pfn == c
             else m1.free == m.free[1..] && Linked(m, m1, f, v[d], c)
    requires Stored(m1, m', c, v, d + 1, w)
    ensures Stored(m, m', f, v, d, w)
  {
    if Present(m.mem[f][v[d]]) {
      StoredThroughEntry(m, m', f, c, v, d, w);
    } else {
      assert LinkStep(m, m1, f, c, v, d);
      StoredThroughLink(m, m1, m', f, c, v, d, w);
    }
  }

  /** Mapping a page that has all its tables writes one leaf entry and nothing else. */
  lemma {:induction false} OverwritesLeaf(m: Machine, f: nat, v: Vpn, d: nat, w: Word)
    requires Shape(m) && d <= 3 && OnPath(m, f, v, d) && Missing(m, f, v, d) == 0
    ensures LeafFrom(m, f, v, d).Some? && OnPath(m, LeafFrom(m, f, v, d).value, v, 3)
    ensures SetAt(m, f, v, d, w) == StoreWord(m, LeafFrom(m, f, v, d).value, v[3], w)
    decreases 3 - d
  {
    if d < 3 {
      ChildOnPath(m, f, v, d);
      OverwritesLeaf(m, m.mem[f][v[d]].pfn, v, d + 1, w);
    }
  }

  /** Which tables are missing is read from tables above the last level. */
  lemma {:induction false} SameMissing(m: Machine, m': Machine, f: nat, v: Vpn, d: nat)
    requires Shape(m) && d <= 3 && OnPath(m, f, v, d) && |m'.mem| == |m.mem| && ShallowKept(m, m', 3)
    ensures Missing(m', f, v, d) == Missing(m, f, v, d)
    decreases 3 - d
  {
    if d < 3 && Present(m.mem[f][v[d]]) {
      ChildOnPath(m, f, v, d);
      SameMissing(m, m', m.mem[f][v[d]].pfn, v, d + 1);
    }
  }

  ghost predicate Ready(m: Machine, f: nat, v: Vpn, d: nat) {
    && Shape(m) && d <= 3 && OnPath(m, f, v, d) && |m.free| >= Missing(m, f, v, d)
    && (v[0] < 511 || m.role[f].path != [] || f == m.kroot)
  }

  lemma CreateStep(m: Machine, f: nat, v: Vpn, d: nat, w: Word) returns (m1: Machine, c: nat)
    requires Ready(m, f, v, d) && d < 3
    ensures CanCreate(m, f, v[d]) && CreateDir(m, f, v[d]) == (m1, c) && Ready(m1, c, v, d + 1)
    ensures SetAt(m, f, v, d, w) == SetAt(m1, c, v, d + 1, w)
  {
    m1, c := DirMade(m, f, v, d);
    SetAtUnfold(m, f, v, d, w, m1, c);
  }

  /** The three create_dir_table calls of set_mapping, one after the other. */
  lemma SetMappingPath(m: Machine, r: nat, v: Vpn, w: Word)
    returns (n1: Machine, c1: nat, n2: Machine, c2: nat, n3: Machine, c3: nat)
    requires CanMap(m, r, v)
    ensures CanCreate(m, r, v[0]) && CreateDir(m, r, v[0]) == (n1, c1)
    ensures CanCreate(n1, c1, v[1]) && CreateDir(n1, c1, v[1]) == (n2, c2)
    ensures CanCreate(n2, c2, v[2]) && CreateDir(n2, c2, v[2]) == (n3, c3)
    ensures c3 < |n3.mem| && Sized(n3) && SetMapping(m, r, v, w) == StoreWord(n3, c3, v[3], w)
  {
    assert Ready(m, r, v, 0);
    n1, c1 := CreateStep(m, r, v, 0, w);
    n2, c2, n3, c3 := LowerPath(n1, c1, v, w);
  }

  lemma LowerPath(n1: Machine, c1: nat, v: Vpn, w: Word) returns (n2: Machine, c2: nat, n3: Machine, c3: nat)
    requires Ready(n1, c1, v, 1)
    ensures CanCreate(n1, c1, v[1]) && CreateDir(n1, c1, v[1]) == (n2, c2)
    ensures CanCreate(n2, c2, v[2]) && CreateDir(n2, c2, v[2]) == (n3, c3)
    ensures c3 < |n3.mem| && Sized(n3) && SetAt(n1, c1, v, 1, w) == StoreWord(n3, c3, v[3], w)
  {
    n2, c2 := CreateStep(n1, c1, v, 1, w);
    n3, c3 := CreateStep(n2, c2, v, 2, w);
  }
}
