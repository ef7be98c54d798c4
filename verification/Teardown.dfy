/** Tearing down the user half of an address space (clear_mapping in sys/virmem.c). */
module Teardown {
  import opened Lists
  import opened Frames
  import opened PageTables
  import opened AddressSpaces
  import opened CopyOnWrite

  /** The PML4 keeps its entry 511. */
  function Limit(d: nat): nat {
    if d == 0 then 511 else 512
  }

  /** The loop over the entries of table `f` at depth `d`, from entry `i` on: what an entry leads to is torn down
      first, then released, then the entry is zeroed. */
  function ClearFrom(m: Machine, f: nat, d: nat, i: nat): (m': Machine)
    requires Sized(m) && f < |m.mem| && d < 4
    ensures Sized(m') && |m'.mem| == |m.mem|
    decreases 4 - d, 512 - i
  {
    if i >= Limit(d) then m
    else
      var e := m.mem[f][i];
      if !Present(e) || e.pfn >= |m.mem| then ClearFrom(StoreWord(m, f, i, ZERO_WORD), f, d, i + 1)
      else
        var m1 := if d < 3 then ClearFrom(m, e.pfn, d + 1, 0) else m;
        ClearFrom(StoreWord(FreePage(m1, e.pfn), f, i, ZERO_WORD), f, d, i + 1)
  }

  function ClearMapping(m: Machine, r: nat): (m': Machine)
    requires Sized(m) && r < |m.mem|
    ensures Sized(m') && |m'.mem| == |m.mem|
  {
    ClearFrom(m, r, 0, 0)
  }

  /** What tearing down below depth `d` of the tree of `o` may change: tables of that tree at depth `d` lose entries,
      deeper ones and data frames without users are released; every count drops by the entries that went away. */
  ghost predicate Trimmed(m: Machine, m': Machine, o: nat, d: nat)
    requires Sized(m) && Sized(m')
  {
    && |m'.mem| == |m.mem| && m'.kroot == m.kroot && m'.tail == m.tail
    && (forall x :: 0 <= x < |m.mem| ==> m'.role[x] == m.role[x] || (m'.role[x] == Unused && m.role[x] != Kernel))
    && (forall x :: 0 <= x < |m.mem| && m.role[x].Table? ==>
                      && (m.role[x].owner != o || |m.role[x].path| <= d ==> m'.role[x] == m.role[x])
                      && (m.role[x].owner != o || |m.role[x].path| < d ==> m'.mem[x] == m.mem[x]))
    && (forall x :: 0 <= x < |m.mem| && m'.role[x] == Data ==> m'.mem[x] == m.mem[x] && Surplus(m', x) == Surplus(m, x))
    && (forall x :: 0 <= x < |m.mem| && m.role[x] == Data && m'.role[x] == Unused ==> Surplus(m, x) == 0)
    && SlotsTrimmed(m, m', o)
  }

  ghost predicate SlotsTrimmed(m: Machine, m': Machine, o: nat) {
    && (forall f: nat, i: nat {:trigger PteSlot(m', f, i)} :: PteSlot(m', f, i) ==>
        PteSlot(m, f, i) && m'.mem[f][i] == m.mem[f][i])
    && (forall f: nat, i: nat {:trigger PteSlot(m', f, i)} :: PteSlot(m, f, i) && m.role[f].owner != o ==>
        PteSlot(m', f, i))
  }

  /** Table `f` belongs to the user half of the tree of `o`. */
  ghost predicate UserTable(m: Machine, o: nat, f: nat, d: nat) {
    && Sized(m) && f < |m.mem| && m.role[f].Table? && m.role[f].owner == o && |m.role[f].path| == d
    && o != m.kroot && (d > 0 ==> m.role[f].path[0] < 511)
  }

  lemma TrimmedTrans(a: Machine, b: Machine, c: Machine, o: nat, d: nat)
    requires Sized(a) && Sized(b) && Sized(c) && Trimmed(a, b, o, d) && Trimmed(b, c, o, d)
    requires forall x :: 0 <= x < |b.mem| && b.role[x] == Unused ==> c.role[x] == Unused
    ensures Trimmed(a, c, o, d)
  {
    assert SlotsTrimmed(a, c, o) by {
      forall f: nat, i: nat | PteSlot(c, f, i)
        ensures PteSlot(a, f, i) && c.mem[f][i] == a.mem[f][i]
      {
        assert PteSlot(b, f, i);
      }
      forall f: nat, i: nat | PteSlot(a, f, i) && a.role[f].owner != o
        ensures PteSlot(c, f, i)
      {
        assert PteSlot(b, f, i);
      }
    }
  }

  lemma TrimmedDeeper(a: Machine, b: Machine, o: nat, d: nat)
    requires Sized(a) && Sized(b) && Trimmed(a, b, o, d + 1)
    ensures Trimmed(a, b, o, d)
  {
  }

  // ----- one entry

  lemma SameSlots(m: Machine, m': Machine)
    requires |m'.mem| == |m.mem|
    requires forall x: nat, j: nat {:trigger PteSlot(m', x, j)} ::
               (PteSlot(m', x, j) <==> PteSlot(m, x, j)) && (PteSlot(m, x, j) ==> m'.mem[x][j] == m.mem[x][j])
    ensures forall x :: Slots(m', x) == Slots(m, x)
    ensures Solo(m) ==> Solo(m')
    ensures forall o :: SlotsTrimmed(m, m', o)
  {
    assert forall x :: Slots(m', x) == Slots(m, x);
    if Solo(m) {
      forall x: nat, j: nat | PteSlot(m', x, j) && Writable(m'.mem[x][j])
        ensures Slots(m', m'.mem[x][j].pfn) == {(x, j)}
      {
        assert PteSlot(m, x, j);
      }
    }
  }

  /** Zeroing an entry that leads nowhere any more. */
  lemma ZeroAbsent(m: Machine, o: nat, f: nat, d: nat, i: nat)
    requires CowInv(m) && UserTable(m, o, f, d) && d < 4 && i < Limit(d) && !Present(m.mem[f][i])
    ensures var m' := StoreWord(m, f, i, ZERO_WORD); CowInv(m') && Trimmed(m, m', o, d)
  {
    var m' := StoreWord(m, f, i, ZERO_WORD);
    assert !Present(ZERO_WORD);
    ZeroAbsentShape(m, f, i);
    SameSlots(m, m');
  }

  lemma ZeroAbsentShape(m: Machine, f: nat, i: nat)
    requires Shape(m) && f < |m.mem| && m.role[f].Table? && i < 512 && !Present(m.mem[f][i])
    ensures Shape(StoreWord(m, f, i, ZERO_WORD))
  {
    var m' := StoreWord(m, f, i, ZERO_WORD);
    assert !Present(ZERO_WORD);
    forall x | 0 <= x < |m'.mem| && m'.role[x].Table?
      ensures TableOk(m', x)
      ensures m'.role[x].path != [] ==> ParentOk(m', x)
    {
      assert TableOk(m, x);
      forall j | 0 <= j < 512
        ensures EntryOk(m', x, j)
      {
        assert EntryOk(m, x, j);
      }
      if m'.role[x].path != [] {
        assert ParentOk(m, x);
      }
    }
  }

  /** Releasing the frame of a user page together with its entry. */
  function DropEntry(m: Machine, f: nat, i: nat): (m': Machine)
    requires Sized(m) && f < |m.mem| && i < 512 && m.mem[f][i].pfn < |m.mem|
    ensures Sized(m') && |m'.mem| == |m.mem|
  {
    StoreWord(FreePage(m, m.mem[f][i].pfn), f, i, ZERO_WORD)
  }

  /** The effect of DropEntry on everything but the free list. */
  ghost predicate Dropped(m: Machine, m': Machine, f: nat, i: nat)
    requires Sized(m) && f < |m.mem| && i < 512 && m.mem[f][i].pfn < |m.mem|
  {
    var x := m.mem[f][i].pfn;
    && AllocatorOk(m') && |m'.mem| == |m.mem| && m'.kroot == m.kroot && m'.tail == m.tail
    && m'.role == (if m.refs[x] > 1 then m.role else m.role[x := Unused])
    && m'.refs == m.refs[x := if m.refs[x] > 1 then m.refs[x] - 1 else 0]
    && (forall y :: 0 <= y < |m.mem| && y != x && y != f ==> m'.mem[y] == m.mem[y])
    && (m.refs[x] > 1 ==> m'.mem[x] == m.mem[x])
    && m'.mem[f] == m.mem[f][i := ZERO_WORD]
  }

  lemma DropEntryEffect(m: Machine, f: nat, i: nat)
    requires AllocatorOk(m) && f < |m.mem| && i < 512 && m.mem[f][i].pfn < |m.mem|
    requires m.mem[f][i].pfn != f && m.role[m.mem[f][i].pfn] != Unused
    ensures Dropped(m, DropEntry(m, f, i), f, i)
  {
    FreePageOk(m, m.mem[f][i].pfn);
  }

  lemma DropLeafShape(m: Machine, m': Machine, o: nat, f: nat, i: nat)
    requires Shape(m) && UserTable(m, o, f, 3) && i < 512 && Present(m.mem[f][i]) && m.mem[f][i].pfn < |m.mem|
    requires m.role[m.mem[f][i].pfn] == Data && Dropped(m, m', f, i)
    requires m.refs[m.mem[f][i].pfn] == 1 ==> Slots(m, m.mem[f][i].pfn) == {(f, i)}
    ensures Shape(m')
  {
    assert !Present(ZERO_WORD);
    forall y | 0 <= y < |m'.mem| && m'.role[y].Table?
      ensures TableOk(m', y)
      ensures m'.role[y].path != [] ==> ParentOk(m', y)
    {
      assert TableOk(m, y);
      forall j | 0 <= j < 512
        ensures EntryOk(m', y, j)
      {
        assert EntryOk(m, y, j);
        if (y, j) != (f, i) && PteSlot(m, y, j) && m.mem[y][j].pfn == m.mem[f][i].pfn {
          assert (y, j) in Slots(m, m.mem[f][i].pfn);
        }
      }
      if m'.role[y].path != [] {
        assert ParentOk(m, y);
      }
    }
  }

  lemma DropLeaf(m: Machine, m': Machine, o: nat, f: nat, i: nat)
    requires CowInv(m) && UserTable(m, o, f, 3) && i < 512 && Present(m.mem[f][i]) && m.mem[f][i].pfn < |m.mem|
    requires m.role[m.mem[f][i].pfn] == Data && Dropped(m, m', f, i)
    ensures CowInv(m') && Trimmed(m, m', o, 3)
  {
    LeafAlone(m, o, f, i);
    DropLeafShape(m, m', o, f, i);
    DropLeafSlots(m, m', o, f, i);
    DropLeafCounts(m, m', o, f, i);
    assert Solo(m') by { DropLeafSolo(m, m', o, f, i); }
  }

  /** A frame with one reference that a user entry points to has no other user entry. */
  lemma LeafAlone(m: Machine, o: nat, f: nat, i: nat)
    requires CowInv(m) && UserTable(m, o, f, 3) && i < 512 && Present(m.mem[f][i]) && m.mem[f][i].pfn < |m.mem|
    requires m.role[m.mem[f][i].pfn] == Data
    ensures m.refs[m.mem[f][i].pfn] == 1 ==>
              Slots(m, m.mem[f][i].pfn) == {(f, i)} && |Slots(m, m.mem[f][i].pfn)| == 1
  {
    var x := m.mem[f][i].pfn;
    assert PteSlot(m, f, i) && (f, i) in Slots(m, x);
    if m.refs[x] == 1 {
      OnlyOne(Slots(m, x), (f, i), Surplus(m, x));
    }
  }

  lemma DropLeafSolo(m: Machine, m': Machine, o: nat, f: nat, i: nat)
    requires Solo(m) && |m'.mem| == |m.mem| && SlotsTrimmed(m, m', o)
    requires forall y :: Slots(m', y) == Slots(m, y) - {(f, i)}
    ensures Solo(m')
  {
    forall y: nat, j: nat | PteSlot(m', y, j) && Writable(m'.mem[y][j])
      ensures Slots(m', m'.mem[y][j].pfn) == {(y, j)}
    {
      assert PteSlot(m, y, j);
      assert (y, j) in Slots(m', m'.mem[y][j].pfn);
    }
  }

  lemma DropLeafCounts(m: Machine, m': Machine, o: nat, f: nat, i: nat)
    requires CowInv(m) && UserTable(m, o, f, 3) && i < 512 && Present(m.mem[f][i]) && m.mem[f][i].pfn < |m.mem|
    requires m.role[m.mem[f][i].pfn] == Data && Dropped(m, m', f, i) && SlotsTrimmed(m, m', o)
    requires forall y :: |Slots(m', y)| == |Slots(m, y)| - (if y == m.mem[f][i].pfn then 1 else 0)
    requires m.refs[m.mem[f][i].pfn] == 1 ==> |Slots(m, m.mem[f][i].pfn)| == 1
    ensures Trimmed(m, m', o, 3) && Covered(m')
  {
  }

  lemma DropLeafSlots(m: Machine, m': Machine, o: nat, f: nat, i: nat)
    requires Shape(m) && UserTable(m, o, f, 3) && i < 512 && Present(m.mem[f][i]) && m.mem[f][i].pfn < |m.mem|
    requires m.role[m.mem[f][i].pfn] == Data && Dropped(m, m', f, i)
    ensures SlotsTrimmed(m, m', o)
    ensures forall y :: Slots(m', y) == Slots(m, y) - {(f, i)}
    ensures forall y :: |Slots(m', y)| == |Slots(m, y)| - (if y == m.mem[f][i].pfn then 1 else 0)
  {
    assert !Present(ZERO_WORD);
    forall y: nat, j: nat
      ensures PteSlot(m', y, j) <==> PteSlot(m, y, j) && (y, j) != (f, i)
      ensures PteSlot(m', y, j) ==> m'.mem[y][j] == m.mem[y][j]
    {
    }
    forall y
      ensures Slots(m', y) == Slots(m, y) - {(f, i)}
      ensures |Slots(m', y)| == |Slots(m, y)| - (if y == m.mem[f][i].pfn then 1 else 0)
    {
      assert Slots(m', y) == Slots(m, y) - {(f, i)};
      if y == m.mem[f][i].pfn {
        assert (f, i) in Slots(m, y);
      } else {
        assert (f, i) !in Slots(m, y);
      }
    }
  }

  ghost predicate EmptyChild(m: Machine, o: nat, f: nat, d: nat, i: nat) {
    && CowInv(m) && UserTable(m, o, f, d) && d < 3 && i < Limit(d) && Present(m.mem[f][i])
    && m.mem[f][i].pfn < |m.mem| && m.role[m.mem[f][i].pfn] == ChildRole(m, f, i)
    && forall j :: 0 <= j < 512 ==> !Present(m.mem[m.mem[f][i].pfn][j])
  }

  /** Releasing a table whose entries are all gone, together with the entry that leads to it. */
  lemma DropTable(m: Machine, m': Machine, o: nat, f: nat, d: nat, i: nat)
    requires EmptyChild(m, o, f, d, i) && Dropped(m, m', f, i)
    ensures CowInv(m') && Trimmed(m, m', o, d)
  {
    DropTableShape(m, m', o, f, d, i);
    assert !Present(ZERO_WORD);
    SameSlots(m, m');
  }

  lemma DropTableShape(m: Machine, m': Machine, o: nat, f: nat, d: nat, i: nat)
    requires EmptyChild(m, o, f, d, i) && Dropped(m, m', f, i)
    ensures Shape(m')
  {
    assert !Present(ZERO_WORD);
    forall y | 0 <= y < |m'.mem| && m'.role[y].Table?
      ensures TableOk(m', y)
      ensures m'.role[y].path != [] ==> ParentOk(m', y)
    {
      assert TableOk(m, y);
      forall j | 0 <= j < 512
        ensures EntryOk(m', y, j)
      {
        DropTableEntry(m, m', o, f, d, i, y, j);
      }
      if m'.role[y].path != [] {
        assert ParentOk(m, y);
      }
    }
  }

  lemma DropTableEntry(m: Machine, m': Machine, o: nat, f: nat, d: nat, i: nat, y: nat, j: nat)
    requires EmptyChild(m, o, f, d, i) && Dropped(m, m', f, i)
    requires y < |m.mem| && m'.role[y].Table? && j < 512
    ensures EntryOk(m', y, j)
  {
    assert !Present(ZERO_WORD);
    assert TableOk(m, y) && EntryOk(m, y, j);
    if (y, j) != (f, i) && Present(m.mem[y][j]) && m.mem[y][j].pfn == m.mem[f][i].pfn && |m.role[y].path| < 3 {
      OneParent(m, y, j, f, i);
    }
  }

  /** A user table is linked from one place. */
  lemma OneParent(m: Machine, y: nat, j: nat, f: nat, i: nat)
    requires Shape(m) && y < |m.mem| && f < |m.mem| && m.role[y].Table? && m.role[f].Table?
    requires i < 512 && j < 512 && (m.role[f].path != [] || i < 511)
    requires ChildRole(m, y, j) == ChildRole(m, f, i)
    ensures (y, j) == (f, i)
  {
    var p, q := m.role[y].path + [j], m.role[f].path + [i];
    assert p == q && p[|p| - 1] == j && q[|q| - 1] == i;
    assert p[..|p| - 1] == m.role[y].path && q[..|q| - 1] == m.role[f].path;
  }

  // ----- the whole loop

  ghost predicate EntriesGone(m: Machine, m': Machine, f: nat, lo: nat, hi: nat)
    requires f < |m.mem| && f < |m'.mem| && hi <= 512
  {
    && (forall j :: lo <= j < hi ==> !Present(m'.mem[f][j]))
    && (forall j :: 0 <= j < 512 && !(lo <= j < hi) ==> m'.mem[f][j] == m.mem[f][j])
  }

  /** The induction hypothesis for the table behind entry `i`. */
  ghost predicate ClearedBelow(m: Machine, o: nat, f: nat, d: nat, i: nat) {
    && UserTable(m, o, f, d) && i < 512
    && (d < 3 && Present(m.mem[f][i]) ==>
          && UserTable(m, o, m.mem[f][i].pfn, d + 1)
          && ClearOk(m, ClearFrom(m, m.mem[f][i].pfn, d + 1, 0), o, m.mem[f][i].pfn, d + 1, 0))
  }

  ghost predicate ClearOk(m: Machine, m': Machine, o: nat, f: nat, d: nat, i: nat)
    requires Sized(m) && f < |m.mem|
  {
    CowInv(m') && Trimmed(m, m', o, d) && EntriesGone(m, m', f, i, Limit(d))
  }

  lemma ClearTableStep(m: Machine, m1: Machine, o: nat, f: nat, d: nat, i: nat) returns (n: Machine)
    requires CowInv(m) && UserTable(m, o, f, d) && d < 3 && i < Limit(d) && Present(m.mem[f][i])
    requires UserTable(m, o, m.mem[f][i].pfn, d + 1) && m.role[m.mem[f][i].pfn] == ChildRole(m, f, i)
    requires ClearOk(m, m1, o, m.mem[f][i].pfn, d + 1, 0)
    ensures n == StoreWord(FreePage(m1, m.mem[f][i].pfn), f, i, ZERO_WORD)
    ensures CowInv(n) && Trimmed(m, n, o, d) && EntriesGone(m, n, f, i, i + 1)
  {
    assert m1.mem[f] == m.mem[f] && m1.role[f] == m.role[f] && m1.role[m.mem[f][i].pfn] == m.role[m.mem[f][i].pfn];
    DropEntryEffect(m1, f, i);
    n := DropEntry(m1, f, i);
    DropTable(m1, n, o, f, d, i);
    TrimmedDeeper(m, m1, o, d);
    TrimmedTrans(m, m1, n, o, d);
    assert !Present(ZERO_WORD);
  }

  lemma ClearLeafStep(m: Machine, o: nat, f: nat, i: nat) returns (n: Machine)
    requires CowInv(m) && UserTable(m, o, f, 3) && i < 512 && Present(m.mem[f][i])
    requires m.mem[f][i].pfn < |m.mem| && m.role[m.mem[f][i].pfn] == Data
    ensures n == StoreWord(FreePage(m, m.mem[f][i].pfn), f, i, ZERO_WORD)
    ensures CowInv(n) && Trimmed(m, n, o, 3) && EntriesGone(m, n, f, i, i + 1)
  {
    DropEntryEffect(m, f, i);
    n := DropEntry(m, f, i);
    DropLeaf(m, n, o, f, i);
    assert !Present(ZERO_WORD);
  }

  lemma ClearAbsentStep(m: Machine, o: nat, f: nat, d: nat, i: nat) returns (n: Machine)
    requires CowInv(m) && UserTable(m, o, f, d) && d < 4 && i < Limit(d) && !Present(m.mem[f][i])
    ensures n == StoreWord(m, f, i, ZERO_WORD)
    ensures CowInv(n) && Trimmed(m, n, o, d) && EntriesGone(m, n, f, i, i + 1)
  {
    n := StoreWord(m, f, i, ZERO_WORD);
    ZeroAbsent(m, o, f, d, i);
    assert !Present(ZERO_WORD);
  }

  lemma ClearStepOk(m: Machine, o: nat, f: nat, d: nat, i: nat) returns (n: Machine)
    requires CowInv(m) && UserTable(m, o, f, d) && d < 4 && i < Limit(d) && ClearedBelow(m, o, f, d, i)
    ensures CowInv(n) && Trimmed(m, n, o, d) && EntriesGone(m, n, f, i, i + 1)
    ensures ClearFrom(m, f, d, i) == ClearFrom(n, f, d, i + 1)
  {
    var e := m.mem[f][i];
    assert TableOk(m, f) && EntryOk(m, f, i);
    if !Present(e) {
      n := ClearAbsentStep(m, o, f, d, i);
    } else if d == 3 {
      n := ClearLeafStep(m, o, f, i);
    } else {
      n := ClearTableStep(m, ClearFrom(m, e.pfn, d + 1, 0), o, f, d, i);
    }
  }

  lemma ClearNothing(m: Machine, o: nat, f: nat, d: nat)
    requires CowInv(m) && UserTable(m, o, f, d) && d < 4
    ensures ClearOk(m, ClearFrom(m, f, d, Limit(d)), o, f, d, Limit(d))
  {
  }

  lemma {:induction false} ClearFromOk(m: Machine, o: nat, f: nat, d: nat, i: nat)
    requires CowInv(m) && UserTable(m, o, f, d) && d < 4 && i <= Limit(d)
    ensures ClearOk(m, ClearFrom(m, f, d, i), o, f, d, i)
    decreases 4 - d, 512 - i
  {
    if i == Limit(d) {
      ClearNothing(m, o, f, d);
    } else {
      if d < 3 && Present(m.mem[f][i]) {
        assert TableOk(m, f) && EntryOk(m, f, i);
        ClearFromOk(m, o, m.mem[f][i].pfn, d + 1, 0);
      }
      var n := ClearStepOk(m, o, f, d, i);
      assert UserTable(n, o, f, d);
      ClearFromOk(n, o, f, d, i + 1);
      ClearRest(m, n, ClearFrom(n, f, d, i + 1), o, f, d, i);
    }
  }

  lemma ClearRest(m: Machine, n: Machine, m': Machine, o: nat, f: nat, d: nat, i: nat)
    requires Sized(m) && Sized(n) && Sized(m') && f < |m.mem| && i < Limit(d)
    requires Trimmed(m, n, o, d) && EntriesGone(m, n, f, i, i + 1)
    requires ClearOk(n, m', o, f, d, i + 1)
    ensures ClearOk(m, m', o, f, d, i)
  {
    TrimmedTrans(m, n, m', o, d);
  }

  // ----- the loop, one iteration at a time

  /** The loop over table `f` stands before entry `i`; running it to the end gives `goal`. */
  ghost predicate AtEntry(m: Machine, o: nat, f: nat, d: nat, i: nat, goal: Machine) {
    CowInv(m) && UserTable(m, o, f, d) && d < 4 && i <= Limit(d) && ClearFrom(m, f, d, i) == goal
  }

  lemma Begin(m: Machine, o: nat, f: nat, d: nat, i: nat)
    requires CowInv(m) && UserTable(m, o, f, d) && d < 3 && i < Limit(d) && Present(m.mem[f][i])
    ensures m.mem[f][i].pfn < |m.mem|
    ensures AtEntry(m, o, m.mem[f][i].pfn, d + 1, 0, ClearFrom(m, m.mem[f][i].pfn, d + 1, 0))
  {
    assert TableOk(m, f) && EntryOk(m, f, i);
  }

  lemma SkipEntry(m: Machine, o: nat, f: nat, d: nat, i: nat, goal: Machine)
    requires AtEntry(m, o, f, d, i, goal) && i < Limit(d) && !Present(m.mem[f][i])
    ensures AtEntry(StoreWord(m, f, i, ZERO_WORD), o, f, d, i + 1, goal)
  {
    var n := ClearAbsentStep(m, o, f, d, i);
  }

  lemma ReleasePage(m: Machine, o: nat, f: nat, i: nat, goal: Machine)
    requires AtEntry(m, o, f, 3, i, goal) && i < 512 && Present(m.mem[f][i])
    ensures m.mem[f][i].pfn < |m.mem|
    ensures AtEntry(StoreWord(FreePage(m, m.mem[f][i].pfn), f, i, ZERO_WORD), o, f, 3, i + 1, goal)
    ensures FreePage(m, m.mem[f][i].pfn).role[f] == m.role[f]
  {
    assert TableOk(m, f) && EntryOk(m, f, i);
    var n := ClearLeafStep(m, o, f, i);
  }

  lemma TableStepFrom(m: Machine, m1: Machine, f: nat, d: nat, i: nat)
    requires Sized(m) && f < |m.mem| && d < 3 && i < Limit(d) && Present(m.mem[f][i]) && m.mem[f][i].pfn < |m.mem|
    requires m1 == ClearFrom(m, m.mem[f][i].pfn, d + 1, 0)
    ensures ClearFrom(StoreWord(FreePage(m1, m.mem[f][i].pfn), f, i, ZERO_WORD), f, d, i + 1) == ClearFrom(m, f, d, i)
  {
  }

  /** What the teardown of the table behind entry `i` leaves. */
  lemma ChildCleared(m: Machine, o: nat, f: nat, d: nat, i: nat)
    requires CowInv(m) && UserTable(m, o, f, d) && d < 3 && i < Limit(d) && Present(m.mem[f][i])
    ensures m.mem[f][i].pfn < |m.mem| && UserTable(m, o, m.mem[f][i].pfn, d + 1)
    ensures m.role[m.mem[f][i].pfn] == ChildRole(m, f, i)
    ensures ClearOk(m, ClearFrom(m, m.mem[f][i].pfn, d + 1, 0), o, m.mem[f][i].pfn, d + 1, 0)
  {
    assert TableOk(m, f) && EntryOk(m, f, i);
    ClearFromOk(m, o, m.mem[f][i].pfn, d + 1, 0);
  }

  lemma TableStays(m: Machine, n: Machine, o: nat, f: nat, d: nat)
    requires UserTable(m, o, f, d) && Sized(n) && Trimmed(m, n, o, d)
    ensures UserTable(n, o, f, d) && n.role[f] == m.role[f]
  {
  }

  lemma ReleaseTable(m: Machine, m1: Machine, o: nat, f: nat, d: nat, i: nat, goal: Machine)
    requires AtEntry(m, o, f, d, i, goal) && d < 3 && i < Limit(d) && Present(m.mem[f][i]) && m.mem[f][i].pfn < |m.mem|
    requires m1 == ClearFrom(m, m.mem[f][i].pfn, d + 1, 0)
    ensures m1.mem[f] == m.mem[f] && FreePage(m1, m.mem[f][i].pfn).role[f] == m.role[f]
    ensures AtEntry(StoreWord(FreePage(m1, m.mem[f][i].pfn), f, i, ZERO_WORD), o, f, d, i + 1, goal)
  {
    TableStepFrom(m, m1, f, d, i);
    ChildCleared(m, o, f, d, i);
    var n := ClearTableStep(m, m1, o, f, d, i);
    TableStays(m, n, o, f, d);
  }

  // ----- released frames are wiped

  predicate Blank(p: Frame) {
    forall i :: 0 <= i < 512 ==> p[i] == ZERO_WORD
  }

  /** A frame out of use was so before, and is untouched, or is all zeros. */
  ghost predicate Wiped(m: Machine, m': Machine) {
    && Sized(m) && Sized(m') && |m'.mem| == |m.mem|
    && forall x :: 0 <= x < |m.mem| && m'.role[x] == Unused ==>
        Blank(m'.mem[x]) || (m.role[x] == Unused && m'.mem[x] == m.mem[x])
  }

  lemma WipedTrans(a: Machine, b: Machine, c: Machine)
    requires Wiped(a, b) && Wiped(b, c)
    ensures Wiped(a, c)
  {
  }

  lemma DropWipes(m: Machine, m1: Machine, f: nat, i: nat, x: nat)
    requires Wiped(m, m1) && f < |m.mem| && i < 512 && x < |m.mem| && m1.role[f] != Unused && x != f
    ensures Wiped(m, StoreWord(FreePage(m1, x), f, i, ZERO_WORD))
  {
    FreePageEffect(m1, x);
  }

  lemma {:induction false} ClearWipes(m: Machine, o: nat, f: nat, d: nat, i: nat)
    requires CowInv(m) && UserTable(m, o, f, d) && d < 4 && i <= Limit(d)
    ensures Wiped(m, ClearFrom(m, f, d, i))
    decreases 4 - d, 512 - i
  {
    if i < Limit(d) {
      var n := ClearedStep(m, o, f, d, i);
      var x := m.mem[f][i].pfn;
      if !Present(m.mem[f][i]) {
        assert Wiped(m, n);
      } else if d == 3 {
        DropWipes(m, m, f, i, x);
      } else {
        ChildCleared(m, o, f, d, i);
        ClearWipes(m, o, x, d + 1, 0);
        DropWipes(m, ClearFrom(m, x, d + 1, 0), f, i, x);
      }
      TableStays(m, n, o, f, d);
      ClearWipes(n, o, f, d, i + 1);
      WipedTrans(m, n, ClearFrom(n, f, d, i + 1));
    }
  }

  /** One turn of the loop, spelled out. */
  lemma ClearedStep(m: Machine, o: nat, f: nat, d: nat, i: nat) returns (n: Machine)
    requires CowInv(m) && UserTable(m, o, f, d) && d < 4 && i < Limit(d)
    ensures CowInv(n) && Trimmed(m, n, o, d) && ClearFrom(m, f, d, i) == ClearFrom(n, f, d, i + 1)
    ensures !Present(m.mem[f][i]) ==> n == StoreWord(m, f, i, ZERO_WORD)
    ensures Present(m.mem[f][i]) ==>
              var x := m.mem[f][i].pfn;
              && x < |m.mem| && x != f && m.role[f] != Unused
              && (d < 3 ==> ClearFrom(m, x, d + 1, 0).role[f] == m.role[f])
              && n == StoreWord(FreePage(if d < 3 then ClearFrom(m, x, d + 1, 0) else m, x), f, i, ZERO_WORD)
  {
    assert TableOk(m, f) && EntryOk(m, f, i);
    if !Present(m.mem[f][i]) {
      n := ClearAbsentStep(m, o, f, d, i);
    } else if d == 3 {
      n := ClearLeafStep(m, o, f, i);
    } else {
      ChildCleared(m, o, f, d, i);
      TableStepFrom(m, ClearFrom(m, m.mem[f][i].pfn, d + 1, 0), f, d, i);
      n := ClearTableStep(m, ClearFrom(m, m.mem[f][i].pfn, d + 1, 0), o, f, d, i);
    }
  }

  /** Every frame that clear_mapping puts out of use is wiped. */
  lemma ClearedFramesBlank(m: Machine, r: nat, x: nat)
    requires CowInv(m) && IsRoot(m, r) && r != m.kroot && x < |m.mem| && m.role[x] != Unused
    ensures x < |ClearMapping(m, r).role| && (ClearMapping(m, r).role[x] == Unused ==> Blank(ClearMapping(m, r).mem[x]))
  {
    assert TableOk(m, r) && UserTable(m, r, r, 0);
    ClearWipes(m, r, r, 0, 0);
  }

  // ----- the result of clear_mapping

  /** Walks of other trees read nothing that the teardown changed. */
  lemma {:induction false} TrimmedDescend(m: Machine, m': Machine, o: nat, f: nat, v: Vpn, d: nat)
    requires Shape(m) && Sized(m') && Trimmed(m, m', o, 0) && o != m.kroot
    requires d <= 3 && OnPath(m, f, v, d) && m.role[f].owner != o
    ensures Descend(m', f, v, d) == Descend(m, f, v, d)
    decreases 3 - d
  {
    if d < 3 && Present(m.mem[f][v[d]]) {
      ChildOnPath(m, f, v, d);
      TrimmedDescend(m, m', o, m.mem[f][v[d]].pfn, v, d + 1);
    }
  }

  /** No table below the PML4 outlives the loop. */
  lemma {:induction false} NoTableLeft(m: Machine, r: nat, x: nat)
    requires Shape(m) && IsRoot(m, r) && r != m.kroot && forall j :: 0 <= j < 511 ==> !Present(m.mem[r][j])
    requires x < |m.mem| && m.role[x].Table? && m.role[x].owner == r
    ensures x == r
    decreases |m.role[x].path|
  {
    assert TableOk(m, x) && TableOk(m, r);
    if m.role[x].path != [] {
      assert ParentOk(m, x);
      assert TableOk(m, m.role[x].parent);
      NoTableLeft(m, r, m.role[x].parent);
      assert false;
    }
  }

  /** What clear_mapping leaves: no user page of `r` is mapped and no table of it is in use; every other address
      space and the kernel half read as before; each frame's count dropped by its entries in this tree, and the
      frames left without a reference were reclaimed. */
  ghost predicate SpaceCleared(m: Machine, m': Machine, r: nat)
    requires CowInv(m) && IsRoot(m, r)
  {
    && CowInv(m') && RootsKept(m, m')
    && (forall u: Vpn {:trigger Walk(m', r, u)} :: UserPage(u) ==> Walk(m', r, u) == None)
    && (forall q: nat, u: Vpn {:trigger Walk(m', q, u)} :: IsRoot(m, q) && (q != r || !UserPage(u)) ==>
        Walk(m', q, u) == Walk(m, q, u))
    && (forall q: nat, u: Vpn {:trigger PageOf(m', q, u)} :: IsRoot(m, q) && UserPage(u) && q != r ==>
        PageOf(m', q, u) == PageOf(m, q, u))
    && (forall x :: 0 <= x < |m.mem| && m.role[x].Table? && m.role[x].owner == r && x != r ==>
        m'.role[x] == Unused && m'.refs[x] == 0)
    && (forall x :: 0 <= x < |m.mem| && m.role[x] == Data ==>
                      m'.refs[x] == m.refs[x] - |Slots(m, x) - Slots(m', x)| && Slots(m', x) == OtherSlots(m, r, x))
    && (Exact(m) ==> Exact(m'))
  }

  ghost function OtherSlots(m: Machine, r: nat, x: nat): set<(nat, nat)> {
    set s | s in Slots(m, x) && s.0 < |m.role| && m.role[s.0].Table? && m.role[s.0].owner != r
  }

  lemma ClearMappingOk(m: Machine, r: nat)
    requires CowInv(m) && IsRoot(m, r) && r != m.kroot
    ensures SpaceCleared(m, ClearMapping(m, r), r)
  {
    assert TableOk(m, r) && UserTable(m, r, r, 0);
    ClearFromOk(m, r, r, 0, 0);
    ClearedSpace(m, ClearMapping(m, r), r);
  }

  lemma ClearedSpace(m: Machine, m': Machine, r: nat)
    requires CowInv(m) && IsRoot(m, r) && r != m.kroot && UserTable(m, r, r, 0) && ClearOk(m, m', r, r, 0, 0)
    ensures SpaceCleared(m, m', r)
  {
    assert RootsKept(m, m');
    ClearedWalks(m, m', r);
    ClearedPages(m, m', r);
    ClearedTables(m, m', r);
    ClearedCounts(m, m', r);
  }

  lemma ClearedWalks(m: Machine, m': Machine, r: nat)
    requires CowInv(m) && IsRoot(m, r) && r != m.kroot && UserTable(m, r, r, 0) && ClearOk(m, m', r, r, 0, 0)
    ensures forall u: Vpn {:trigger Walk(m', r, u)} :: UserPage(u) ==> Walk(m', r, u) == None
    ensures forall q: nat, u: Vpn {:trigger Walk(m', q, u)} ::
              IsRoot(m, q) && (q != r || !UserPage(u)) ==> Walk(m', q, u) == Walk(m, q, u)
  {
    forall q: nat, u: Vpn | IsRoot(m, q) && (q != r || !UserPage(u))
      ensures Walk(m', q, u) == Walk(m, q, u)
    {
      assert TableOk(m, q) && OnPath(m, q, u, 0);
      if q != r {
        TrimmedDescend(m, m', r, q, u, 0);
      } else {
        assert m'.mem[r][511] == m.mem[r][511];
        if Present(m.mem[r][511]) {
          ChildOnPath(m, r, u, 0);
          TrimmedDescend(m, m', r, m.mem[r][511].pfn, u, 1);
        }
      }
    }
  }

  lemma ClearedPages(m: Machine, m': Machine, r: nat)
    requires CowInv(m) && IsRoot(m, r) && CowInv(m') && Trimmed(m, m', r, 0) && RootsKept(m, m')
    requires forall q: nat, u: Vpn {:trigger Walk(m', q, u)} ::
               IsRoot(m, q) && (q != r || !UserPage(u)) ==> Walk(m', q, u) == Walk(m, q, u)
    ensures forall q: nat, u: Vpn {:trigger PageOf(m', q, u)} ::
              IsRoot(m, q) && UserPage(u) && q != r ==> PageOf(m', q, u) == PageOf(m, q, u)
  {
    forall q: nat, u: Vpn | IsRoot(m, q) && UserPage(u) && q != r
      ensures PageOf(m', q, u) == PageOf(m, q, u)
    {
      if Walk(m', q, u).Some? {
        WalkSlot(m', q, u);
      }
    }
  }

  lemma ClearedTables(m: Machine, m': Machine, r: nat)
    requires CowInv(m) && IsRoot(m, r) && r != m.kroot && UserTable(m, r, r, 0) && ClearOk(m, m', r, r, 0, 0)
    ensures forall x :: 0 <= x < |m.mem| && m.role[x].Table? && m.role[x].owner == r && x != r ==>
                          m'.role[x] == Unused && m'.refs[x] == 0
  {
    forall x | 0 <= x < |m.mem| && m.role[x].Table? && m.role[x].owner == r && x != r
      ensures m'.role[x] == Unused
    {
      if m'.role[x] != Unused {
        NoTableLeft(m', r, x);
      }
    }
  }

  lemma ClearedCounts(m: Machine, m': Machine, r: nat)
    requires CowInv(m) && IsRoot(m, r) && r != m.kroot && UserTable(m, r, r, 0) && ClearOk(m, m', r, r, 0, 0)
    ensures forall x :: 0 <= x < |m.mem| && m.role[x] == Data ==>
                          m'.refs[x] == m.refs[x] - |Slots(m, x) - Slots(m', x)| && Slots(m', x) == OtherSlots(m, r, x)
    ensures Exact(m) ==> Exact(m')
  {
    forall x | 0 <= x < |m.mem| && m.role[x] == Data
      ensures m'.refs[x] == m.refs[x] - |Slots(m, x) - Slots(m', x)| && Slots(m', x) == OtherSlots(m, r, x)
    {
      SlotsLeft(m, m', r, x);
      assert Slots(m', x) <= Slots(m, x);
      assert |Slots(m, x) - Slots(m', x)| == |Slots(m, x)| - |Slots(m', x)|;
      if m'.role[x] == Unused {
        NewFrameUnmapped(m', x);
      }
    }
  }

  lemma SlotsLeft(m: Machine, m': Machine, r: nat, x: nat)
    requires CowInv(m) && IsRoot(m, r) && r != m.kroot && UserTable(m, r, r, 0) && ClearOk(m, m', r, r, 0, 0)
    ensures Slots(m', x) == OtherSlots(m, r, x)
  {
    forall s | s in Slots(m', x)
      ensures s in OtherSlots(m, r, x)
    {
      assert PteSlot(m', s.0, s.1);
      if m'.role[s.0].owner == r {
        NoTableLeft(m', r, s.0);
        assert false;
      }
    }
    forall s | s in OtherSlots(m, r, x)
      ensures s in Slots(m', x)
    {
      assert PteSlot(m, s.0, s.1);
      assert PteSlot(m', s.0, s.1);
    }
  }
}
