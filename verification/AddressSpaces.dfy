/** Address spaces as maps from pages to frame contents, and the user entries that refer to a frame. */
module AddressSpaces {
  import opened Lists
  import opened Frames
  import opened PageTables

  ghost predicate UserPage(v: Vpn) {
    v[0] < 511
  }

  /** What a process reads on page `v`. */
  ghost function PageOf(m: Machine, r: nat, v: Vpn): Option<Frame>
    requires r < |m.mem|
  {
    match Walk(m, r, v)
    case None => None
    case Some(w) => if w.pfn < |m.mem| then Some(m.mem[w.pfn]) else None
  }

  /** The present user entries, over all address spaces, that point to frame `x`. */
  ghost function Slots(m: Machine, x: nat): set<(nat, nat)> {
    set f, i | 0 <= f < |m.mem| && 0 <= i < 512 && PteSlot(m, f, i) && m.mem[f][i].pfn == x :: (f, i)
  }

  /** How far the count of `x` exceeds the number of user entries that point to it. */
  ghost function Surplus(m: Machine, x: nat): int
    requires x < |m.refs|
  {
    m.refs[x] - |Slots(m, x)|
  }

  /** A writable user entry is the only user entry for its frame. */
  ghost predicate Solo(m: Machine) {
    forall f: nat, i: nat :: PteSlot(m, f, i) && Writable(m.mem[f][i]) ==> Slots(m, m.mem[f][i].pfn) == {(f, i)}
  }

  ghost predicate Covered(m: Machine)
    requires Sized(m)
  {
    forall x :: 0 <= x < |m.mem| && m.role[x] == Data ==> Surplus(m, x) >= 0
  }

  ghost predicate CowInv(m: Machine) {
    Shape(m) && IsRoot(m, m.kroot) && Solo(m) && Covered(m)
  }

  /** The counts are exact: a frame's count is the number of user entries that point to it. */
  ghost predicate Exact(m: Machine) {
    Sized(m) && forall x :: 0 <= x < |m.mem| && m.role[x] == Data ==> Surplus(m, x) == 0
  }

  lemma {:induction false} DescendLeaf(m: Machine, f: nat, v: Vpn, d: nat)
    requires Shape(m) && d <= 3 && OnPath(m, f, v, d)
    ensures match LeafFrom(m, f, v, d)
            case None => Descend(m, f, v, d) == None
            case Some(g) =>
              && OnPath(m, g, v, 3) && m.role[g].owner == OwnerAt(m, f, v, d)
              && Descend(m, f, v, d) == (if Present(m.mem[g][v[3]]) then Some(m.mem[g][v[3]]) else None)
    decreases 3 - d
  {
    if d < 3 && Present(m.mem[f][v[d]]) {
      ChildOnPath(m, f, v, d);
      DescendLeaf(m, m.mem[f][v[d]].pfn, v, d + 1);
    }
  }

  /** The entry a walk ends in, as a slot. */
  function SlotOf(m: Machine, r: nat, v: Vpn): (nat, nat)
    requires r < |m.mem|
  {
    match LeafFrom(m, r, v, 0)
    case None => (0, 512)
    case Some(g) => (g, v[3])
  }

  lemma WalkSlot(m: Machine, r: nat, v: Vpn)
    requires Shape(m) && IsRoot(m, r) && UserPage(v) && Walk(m, r, v).Some?
    ensures var s, w := SlotOf(m, r, v), Walk(m, r, v).value;
            && PteSlot(m, s.0, s.1) && m.mem[s.0][s.1] == w && Present(w) && ForUser(w)
            && w.pfn < |m.mem| && m.role[w.pfn] == Data && s in Slots(m, w.pfn)
            && OnPath(m, s.0, v, 3) && m.role[s.0].owner == r && s.1 == v[3]
  {
    assert OnPath(m, r, v, 0) && TableOk(m, r);
    DescendLeaf(m, r, v, 0);
    var g := LeafFrom(m, r, v, 0).value;
    assert v[..3][0] == v[0];
    assert TableOk(m, g) && EntryOk(m, g, v[3]);
  }

  /** Different pages of different address spaces end in different entries. */
  lemma SlotsDiffer(m: Machine, r: nat, v: Vpn, q: nat, u: Vpn)
    requires Shape(m) && IsRoot(m, r) && UserPage(v) && Walk(m, r, v).Some?
    requires IsRoot(m, q) && UserPage(u) && Walk(m, q, u).Some?
    requires (r, v) != (q, u)
    ensures SlotOf(m, r, v) != SlotOf(m, q, u)
  {
    WalkSlot(m, r, v);
    WalkSlot(m, q, u);
    if SlotOf(m, r, v) == SlotOf(m, q, u) {
      SamePage(v, u);
    }
  }

  /** Conversely every user entry is the end of exactly one walk: entries and mapped pages correspond one to one. */
  lemma SlotReached(m: Machine, f: nat, i: nat) returns (r: nat, v: Vpn)
    requires Shape(m) && PteSlot(m, f, i)
    ensures IsRoot(m, r) && UserPage(v) && Walk(m, r, v) == Some(m.mem[f][i]) && SlotOf(m, r, v) == (f, i)
  {
    assert TableOk(m, f) && ParentOk(m, f);
    var p2 := m.role[f].parent;
    assert TableOk(m, p2) && ParentOk(m, p2);
    var p1 := m.role[p2].parent;
    assert TableOk(m, p1) && ParentOk(m, p1);
    r := m.role[p1].parent;
    var path := m.role[f].path;
    assert m.role[p2].path + [path[2]] == path;
    assert m.role[p1].path + [m.role[p2].path[1]] == m.role[p2].path;
    assert m.role[r].path + [m.role[p1].path[0]] == m.role[p1].path;
    assert m.role[r].path == [];
    assert path[0] == m.role[p1].path[0] && path[1] == m.role[p2].path[1];
    v := path + [i];
    assert Descend(m, f, v, 3) == Some(m.mem[f][i]);
    assert Descend(m, p2, v, 2) == Some(m.mem[f][i]);
    assert Descend(m, p1, v, 1) == Some(m.mem[f][i]);
    assert LeafFrom(m, p1, v, 1) == LeafFrom(m, p2, v, 2) == Some(f);
  }

  /** The page map of address space `r` changed at page `v` only, where it now holds `w`. */
  ghost predicate WalkUpdated(m: Machine, m': Machine, r: nat, v: Vpn, w: Word) {
    && |m'.mem| == |m.mem| && IsRoot(m', r) && Walk(m', r, v) == Some(w)
    && (forall q: nat :: IsRoot(m, q) ==> IsRoot(m', q))
    && (forall q: nat, u: Vpn {:trigger Walk(m', q, u)} :: IsRoot(m, q) && (q, u) != (r, v) ==>
        Walk(m', q, u) == Walk(m, q, u))
  }

  /** The entry of page `v` is the only user entry that changed. */
  ghost predicate SlotUpdated(m: Machine, m': Machine, r: nat, v: Vpn, w: Word) {
    && r < |m.mem| == |m'.mem|
    && var s := SlotOf(m', r, v);
       && PteSlot(m', s.0, s.1) && m'.mem[s.0][s.1] == w && SlotsKept(m, m', s.0, s.1)
       && (if PteSlot(m, s.0, s.1) then Walk(m, r, v) == Some(m.mem[s.0][s.1]) else Walk(m, r, v) == None)
       && (Walk(m, r, v).Some? ==> SlotOf(m, r, v) == s)
  }

  ghost predicate Updated(m: Machine, m': Machine, r: nat, v: Vpn, w: Word) {
    Shape(m') && Grown(m, m', v) && WalkUpdated(m, m', r, v, w) && SlotUpdated(m, m', r, v, w)
  }

  /** set_mapping, for a user page, updates the page map; it takes exactly the missing tables off the free list. */
  lemma SetMappingIsUpdate(m: Machine, r: nat, v: Vpn, w: Word)
    requires CanMap(m, r, v) && UserPage(v) && Present(w) && ForUser(w) && w.pfn < |m.mem| && m.role[w.pfn] == Data
    ensures var m' := SetMapping(m, r, v, w);
            Updated(m, m', r, v, w) && |m'.free| == |m.free| - Missing(m, r, v, 0)
  {
    assert OnPath(m, r, v, 0);
    SetAtOk(m, r, v, 0, w);
    StoredIsUpdate(m, SetMapping(m, r, v, w), r, v, w);
  }

  lemma StoredIsUpdate(m: Machine, m': Machine, r: nat, v: Vpn, w: Word)
    requires Shape(m) && IsRoot(m, r) && UserPage(v) && Present(w) && OnPath(m, r, v, 0)
    requires Stored(m, m', r, v, 0, w)
    ensures Updated(m, m', r, v, w)
  {
    assert v[..3][0] == v[0];
    forall q: nat, u: Vpn | IsRoot(m, q) && (q, u) != (r, v)
      ensures IsRoot(m', q) && Walk(m', q, u) == Walk(m, q, u)
    {
      assert OnPath(m, q, u, 0);
      assert TableOk(m, q) && TableOk(m, r);
    }
    if Walk(m, r, v).Some? {
      WalkSlot(m, r, v);
      StoredSameSlot(m, m', r, v, w);
    }
  }

  /** A page that was mapped keeps its entry's place: another entry would lead to the same page twice. */
  lemma StoredSameSlot(m: Machine, m': Machine, r: nat, v: Vpn, w: Word)
    requires Shape(m) && IsRoot(m, r) && UserPage(v) && Present(w) && OnPath(m, r, v, 0)
    requires Stored(m, m', r, v, 0, w)
    requires Walk(m, r, v).Some?
    ensures SlotOf(m', r, v) == SlotOf(m, r, v)
  {
    WalkSlot(m, r, v);
    var s, s' := SlotOf(m, r, v), SlotOf(m', r, v);
    if s != s' {
      assert PteSlot(m', s.0, s.1);
      var q, u := SlotReached(m', s.0, s.1);
      WalkSlot(m', r, v);
      WalkSlot(m', q, u);
      SamePage(u, v);
    }
  }

  lemma SlotsAfter(m: Machine, m': Machine, g: nat, j: nat, x: nat)
    requires SlotsKept(m, m', g, j) && PteSlot(m', g, j)
    ensures Slots(m', x) == Slots(m, x) - {(g, j)} + (if m'.mem[g][j].pfn == x then {(g, j)} else {})
  {
  }
}
