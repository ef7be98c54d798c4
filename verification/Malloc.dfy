/** The allocator of libc/malloc.c over raw memory. Addresses count header units of 16 bytes; sbrk is the environment's:
    each call of malloc is given the address the next sbrk would return. */
module Malloc {
  import opened Lists
  import opened FreeList

  const UNIT: nat := 16

  /** The units of a block of `n` at `a`. */
  ghost function Units(a: nat, n: nat): (s: set<nat>)
    ensures forall u: nat :: u in s <==> a <= u < a + n
  {
    set u: nat | u < a + n && Covers(a, n, u)
  }

  ghost predicate Covers(a: nat, n: nat, u: nat) {
    a <= u < a + n
  }

  /** Unit `u` belongs to a live block. */
  ghost predicate IsLive(live: map<nat, nat>, u: nat) {
    exists a :: LiveAt(live, a, u)
  }

  ghost predicate LiveAt(live: map<nat, nat>, a: nat, u: nat) {
    a in live && a <= u < a + live[a]
  }

  ghost function LiveUnits(n: nat, live: map<nat, nat>): (s: set<nat>)
    ensures forall u: nat :: u in s <==> u < n && IsLive(live, u)
  {
    set u: nat | u < n && IsLive(live, u)
  }

  ghost function FreeUnits(h: seq<Header>, list: seq<nat>): (s: set<nat>)
    ensures forall u: nat :: u in s <==> u < |h| && IsFree(h, list, u)
  {
    set u: nat | u < |h| && IsFree(h, list, u)
  }

  /** Live blocks do not overlap. */
  ghost predicate Apart(live: map<nat, nat>) {
    forall a, b :: a in live && b in live && a < b ==> a + live[a] <= b
  }

  ghost predicate LiveHeaders(h: seq<Header>, live: map<nat, nat>) {
    forall a :: a in live ==> live[a] >= 1 && a + live[a] <= |h| && h[a].size == live[a]
  }

  /** Free and live units together make up exactly the memory obtained from sbrk, and `base` neither lies in it nor
      touches it from above. */
  ghost predicate Split(free: set<nat>, held: set<nat>, arena: set<nat>, base: nat) {
    arena == free + held && free !! held && base !in arena && (base > 0 ==> base - 1 !in arena)
  }

  /** Live blocks keep their headers, do not overlap, and share no unit with the free blocks; nothing is lost. */
  ghost predicate Accounted(h: seq<Header>, list: seq<nat>, base: nat, live: map<nat, nat>, arena: set<nat>) {
    LiveHeaders(h, live) && Apart(live) && Split(FreeUnits(h, list), LiveUnits(|h|, live), arena, base)
  }

  /** A region that sbrk may return: new memory that neither contains nor touches `base`. */
  ghost predicate Grantable(length: nat, base: nat, arena: set<nat>, a: nat, n: nat) {
    && n >= 1 && a + n <= length && Units(a, n) !! arena && base !in Units(a, n) && a + n != base
  }

  /** The header and the fewest units of 16 bytes that hold the request. */
  function UnitsFor(nbytes: nat): (u: nat)
    ensures u >= 1 && nbytes <= (u - 1) * 16 && (u == 1 || (u - 2) * 16 < nbytes)
  {
    (nbytes + UNIT - 1) / UNIT + 1
  }

  /** What morecore asks for: 1024 units, or more if more are needed. */
  function Request(nunits: nat): (n: nat)
    ensures n >= 1024 && n >= nunits && (n == 1024 || n == nunits)
  {
    if nunits < 1024 then 1024 else nunits
  }

  // ----- the scan of free

  /** The place of a block among the free ones. */
  lemma FindPlace(h: seq<Header>, list: seq<nat>, base: nat, bp: nat) returns (t: nat)
    requires Ring(h, list, base) && bp < |h| && h[bp].size >= 1 && bp + h[bp].size <= |h| && bp + h[bp].size != base
    requires base !in Units(bp, h[bp].size) && Units(bp, h[bp].size) !! FreeUnits(h, list)
    ensures Fits(h, list, base, bp, t)
  {
    t := 0;
    while t < |list| && list[t] < bp
      invariant t <= |list| && forall i :: 0 <= i < t ==> list[i] < bp
    {
      t := t + 1;
    }
    forall i | 0 <= i < |list|
      ensures list[i] < |h|
      ensures i < t ==> list[i] + h[list[i]].size <= bp
      ensures i >= t ==> bp + h[bp].size <= list[i]
    {
      NoOverlap(h, list, base, bp, i);
      assert i >= t ==> list[t] <= list[i];
    }
  }

  /** There is no other. */
  lemma OnePlace(h: seq<Header>, list: seq<nat>, base: nat, bp: nat, t: nat, t': nat)
    requires Fits(h, list, base, bp, t) && Fits(h, list, base, bp, t')
    ensures t == t'
  {
    assert t < |list| ==> !(list[t] < bp);
    assert t' < |list| ==> !(list[t'] < bp);
  }

  lemma NoOverlap(h: seq<Header>, list: seq<nat>, base: nat, bp: nat, i: nat)
    requires Ring(h, list, base) && bp < |h| && h[bp].size >= 1 && i < |list|
    requires base !in Units(bp, h[bp].size) && Units(bp, h[bp].size) !! FreeUnits(h, list)
    ensures list[i] < |h|
    ensures list[i] < bp ==> list[i] + h[list[i]].size <= bp
    ensures list[i] >= bp ==> bp + h[bp].size <= list[i]
  {
    BlockEnds(h, list, base, i);
    assert BlockAt(h, list, base, i);
    assert bp in Units(bp, h[bp].size) && bp !in FreeUnits(h, list);
    assert list[i] != base ==> list[i] in FreeUnits(h, list);
    assert list[i] !in Units(bp, h[bp].size);
  }

  /** The scan stops at the block before the place, and at no other block. */
  lemma ScanStopsIff(h: seq<Header>, list: seq<nat>, base: nat, bp: nat, t: nat, k: nat)
    requires Ring(h, list, base) && Fits(h, list, base, bp, t) && k < |list|
    ensures list[k] < |h|
    ensures var p := list[k];
            (bp > p && bp < h[p].ptr) || (p >= h[p].ptr && (bp > p || bp < h[p].ptr)) <==> p == Before(list, t)
  {
    assert BlockAt(h, list, base, k);
    assert k + 1 < |list| ==> list[k] < list[k + 1];
    assert list[0] <= list[k] <= list[|list| - 1];
  }

  /** Every unit of the live blocks keeps its content. */
  ghost predicate KeepsLive(h: seq<Header>, h': seq<Header>, live: map<nat, nat>) {
    |h'| == |h| && forall u :: u in LiveUnits(|h|, live) ==> h'[u] == h[u]
  }

  /** Some block contains all of `a` .. `a + n`. */
  ghost predicate Contains(h: seq<Header>, list: seq<nat>, a: nat, n: nat) {
    exists j :: 0 <= j < |list| && ContainedIn(h, list, a, n, j)
  }

  ghost predicate ContainedIn(h: seq<Header>, list: seq<nat>, a: nat, n: nat, j: nat)
    requires j < |list|
  {
    list[j] < |h| && list[j] <= a && a + n <= list[j] + h[list[j]].size
  }

  lemma KeptTwice(h: seq<Header>, h1: seq<Header>, h2: seq<Header>, live: map<nat, nat>)
    requires KeepsLive(h, h1, live) && KeepsLive(h1, h2, live)
    ensures KeepsLive(h, h2, live)
  {
  }

  // ----- live blocks

  lemma LiveBlock(h: seq<Header>, live: map<nat, nat>, a: nat)
    requires LiveHeaders(h, live) && a in live
    ensures a < |h| && a in Units(a, live[a]) && Units(a, live[a]) <= LiveUnits(|h|, live)
  {
    forall u | u in Units(a, live[a])
      ensures u in LiveUnits(|h|, live)
    {
      assert LiveAt(live, a, u);
    }
  }

  lemma HeadersKept(h: seq<Header>, h': seq<Header>, live: map<nat, nat>)
    requires LiveHeaders(h, live) && KeepsLive(h, h', live)
    ensures LiveHeaders(h', live)
  {
    forall a | a in live
      ensures a < |h| && h'[a] == h[a]
    {
      LiveBlock(h, live, a);
    }
  }

  lemma StoredInside(h: seq<Header>, live: map<nat, nat>, a: nat, u: nat, h': seq<Header>)
    requires LiveHeaders(h, live) && Apart(live) && a in live && a < u < a + live[a]
    requires |h'| == |h| && forall x :: 0 <= x < |h| && x != u ==> h'[x] == h[x]
    ensures LiveHeaders(h', live)
  {
    assert u !in live;
  }

  lemma HeadersWith(h: seq<Header>, h': seq<Header>, live: map<nat, nat>, q: nat, n: nat)
    requires LiveHeaders(h, live) && KeepsLive(h, h', live) && n >= 1 && q + n <= |h| && h'[q].size == n
    ensures LiveHeaders(h', live[q := n])
  {
    HeadersKept(h, h', live);
  }

  lemma UnitWithout(live: map<nat, nat>, bp: nat, u: nat)
    requires Apart(live)
    ensures IsLive(live - {bp}, u) <==> IsLive(live, u) && !(bp in live && bp <= u < bp + live[bp])
  {
    var rest := live - {bp};
    if IsLive(rest, u) {
      var a :| LiveAt(rest, a, u);
      assert LiveAt(live, a, u);
    }
    if IsLive(live, u) && !(bp in live && bp <= u < bp + live[bp]) {
      var a :| LiveAt(live, a, u);
      assert LiveAt(rest, a, u);
    }
  }

  /** Taking a block out of the live ones takes exactly its units. */
  lemma LiveWithout(n: nat, live: map<nat, nat>, bp: nat, size: nat)
    requires Apart(live) && bp + size <= n
    requires if bp in live then live[bp] == size else Units(bp, size) !! LiveUnits(n, live)
    ensures LiveUnits(n, live - {bp}) == LiveUnits(n, live) - Units(bp, size)
  {
    forall u: nat
      ensures IsLive(live - {bp}, u) <==> IsLive(live, u) && !(bp in live && bp <= u < bp + live[bp])
    {
      UnitWithout(live, bp, u);
    }
  }

  lemma UnitWith(live: map<nat, nat>, q: nat, size: nat, u: nat)
    requires q !in live
    ensures IsLive(live[q := size], u) <==> IsLive(live, u) || q <= u < q + size
  {
    var live' := live[q := size];
    if IsLive(live, u) {
      var a :| LiveAt(live, a, u);
      assert LiveAt(live', a, u);
    }
    if q <= u < q + size {
      assert LiveAt(live', q, u);
    }
    if IsLive(live', u) {
      var a :| LiveAt(live', a, u);
      assert a != q ==> LiveAt(live, a, u);
    }
  }

  lemma LiveWith(n: nat, live: map<nat, nat>, q: nat, size: nat)
    requires q !in live && q + size <= n
    ensures LiveUnits(n, live[q := size]) == LiveUnits(n, live) + Units(q, size)
  {
    forall u: nat
      ensures IsLive(live[q := size], u) <==> IsLive(live, u) || u in Units(q, size)
    {
      UnitWith(live, q, size, u);
    }
  }

  /** A block whose units are not live lies apart from the live ones. */
  lemma ApartWith(h: seq<Header>, live: map<nat, nat>, q: nat, n: nat)
    requires LiveHeaders(h, live) && Apart(live) && n >= 1 && Units(q, n) !! LiveUnits(|h|, live)
    ensures q !in live && Apart(live[q := n])
  {
    assert q in Units(q, n);
    forall a | a in live
      ensures a != q && (a < q ==> a + live[a] <= q) && (q < a ==> q + n <= a)
    {
      LiveBlock(h, live, a);
      assert a in LiveUnits(|h|, live) && a !in Units(q, n);
      assert q !in Units(a, live[a]);
    }
  }

  // ----- accounts after a release

  /** The headers written by a release belong to free blocks, to `base` and to the released block. */
  lemma ReleasedElsewhere(h: seq<Header>, list: seq<nat>, base: nat, bp: nat, t: nat, held: set<nat>)
    requires Ring(h, list, base) && Fits(h, list, base, bp, t)
    requires held !! FreeUnits(h, list) && held !! Units(bp, h[bp].size) && base !in held
    ensures forall u :: u in held && u < |h| ==> Released(h, list, bp, t)[u] == h[u]
  {
    ReleasedHeaders(h, list, base, bp, t);
    var p := Before(list, t);
    var k := if t == 0 then |list| - 1 else t - 1;
    assert BlockAt(h, list, base, k);
    BlockEnds(h, list, base, k);
    assert p != base ==> p in FreeUnits(h, list);
    assert bp in Units(bp, h[bp].size);
  }

  lemma ReleasedFree(h: seq<Header>, list: seq<nat>, base: nat, bp: nat, t: nat)
    requires Ring(h, list, base) && Fits(h, list, base, bp, t)
    ensures FreeUnits(Released(h, list, bp, t), ReleasedList(h, list, bp, t)) == FreeUnits(h, list)
            + Units(bp, h[bp].size)
  {
    forall u: nat
      ensures IsFree(Released(h, list, bp, t), ReleasedList(h, list, bp, t), u)
              <==> IsFree(h, list, u) || u in Units(bp, h[bp].size)
    {
      ReleasedUnits(h, list, base, bp, t, u);
    }
  }

  lemma ReleasedContains(h: seq<Header>, list: seq<nat>, base: nat, bp: nat, t: nat)
    requires Ring(h, list, base) && Fits(h, list, base, bp, t)
    ensures Contains(Released(h, list, bp, t), ReleasedList(h, list, bp, t), bp, h[bp].size)
  {
    SettingHolds(h, list, base, bp, t);
    var list' := ReleasedList(h, list, bp, t);
    var j := BlockFreed(h, list, base, bp, t, Released(h, list, bp, t), list');
    assert ContainedIn(Released(h, list, bp, t), list', bp, h[bp].size, j);
  }

  lemma BeforeStays(h: seq<Header>, list: seq<nat>, base: nat, bp: nat, t: nat)
    requires Ring(h, list, base) && Fits(h, list, base, bp, t)
    ensures Before(list, t) in ReleasedList(h, list, bp, t)
  {
    BeforeLinks(h, list, base, bp, t);
    SettingHolds(h, list, base, bp, t);
    var list' := ReleasedList(h, list, bp, t);
    if t > 0 {
      assert list'[t - 1] == list[t - 1];
    } else {
      assert list'[|list'| - 1] == list[|list| - 1];
    }
  }

  lemma ReleaseSplit(free: set<nat>, held: set<nat>, arena: set<nat>, base: nat, a: nat, n: nat)
    requires Split(free, held, arena, base) && n >= 1
    requires Units(a, n) <= held || (Units(a, n) !! arena && base !in Units(a, n) && a + n != base)
    ensures base !in Units(a, n) && a + n != base && Units(a, n) !! free
    ensures Split(free + Units(a, n), held - Units(a, n), arena + Units(a, n), base)
  {
    var units := Units(a, n);
    assert a + n - 1 in units;
    assert arena + units == (free + units) + (held - units);
  }

  /** A block that may be released is either wholly live or wholly new. */
  lemma ReleasedLive(h: seq<Header>, live: map<nat, nat>, free: set<nat>, base: nat, arena: set<nat>, bp: nat,
                     held: set<nat>)
    requires LiveHeaders(h, live) && Apart(live) && held == LiveUnits(|h|, live) && Split(free, held, arena, base)
             && bp < |h|
    requires bp in live || Grantable(|h|, base, arena, bp, h[bp].size)
    ensures h[bp].size >= 1 && bp + h[bp].size <= |h| && bp + h[bp].size != base
    ensures base !in Units(bp, h[bp].size) && Units(bp, h[bp].size) !! free
    ensures LiveUnits(|h|, live - {bp}) == held - Units(bp, h[bp].size)
    ensures Split(free + Units(bp, h[bp].size), held - Units(bp, h[bp].size), arena + Units(bp, h[bp].size), base)
  {
    var n := h[bp].size;
    if bp in live {
      LiveBlock(h, live, bp);
    }
    ReleaseSplit(free, held, arena, base, bp, n);
    LiveWithout(|h|, live, bp, n);
  }

  /** The accounts after a release. */
  lemma AfterFree(h: seq<Header>, list: seq<nat>, base: nat, live: map<nat, nat>, arena: set<nat>, bp: nat, t: nat,
                  h': seq<Header>, list': seq<nat>, live': map<nat, nat>)
    requires Ring(h, list, base) && Fits(h, list, base, bp, t) && Accounted(h, list, base, live, arena)
    requires bp in live || Grantable(|h|, base, arena, bp, h[bp].size)
    requires h' == Released(h, list, bp, t) && list' == ReleasedList(h, list, bp, t) && live' == live - {bp}
    ensures FreeUnits(h', list') == FreeUnits(h, list) + Units(bp, h[bp].size)
    ensures Accounted(h', list', base, live', arena + Units(bp, h[bp].size)) && KeepsLive(h, h', live')
  {
    ReleasedLive(h, live, FreeUnits(h, list), base, arena, bp, LiveUnits(|h|, live));
    ReleasedFree(h, list, base, bp, t);
    ReleasedElsewhere(h, list, base, bp, t, LiveUnits(|h|, live'));
    HeadersKept(h, h', live');
  }

  // ----- accounts after a block was handed out

  lemma TakeSplit(free: set<nat>, held: set<nat>, arena: set<nat>, base: nat, units: set<nat>)
    requires Split(free, held, arena, base) && units <= free
    ensures Split(free - units, held + units, arena, base)
  {
  }

  /** The accounts after free units were handed out as one live block. */
  lemma AfterTake(h: seq<Header>, list: seq<nat>, base: nat, live: map<nat, nat>, arena: set<nat>, q: nat, n: nat,
                  h': seq<Header>, list': seq<nat>)
    requires Accounted(h, list, base, live, arena) && KeepsLive(h, h', live) && n >= 1 && q + n <= |h|
             && h'[q].size == n
    requires Units(q, n) <= FreeUnits(h, list) && FreeUnits(h', list') == FreeUnits(h, list) - Units(q, n)
    ensures q !in live && Accounted(h', list', base, live[q := n], arena)
  {
    ApartWith(h, live, q, n);
    HeadersWith(h, h', live, q, n);
    LiveWith(|h|, live, q, n);
    TakeSplit(FreeUnits(h, list), LiveUnits(|h|, live), arena, base, Units(q, n));
  }

  /** Blocks of the list, `base` included, are not live. */
  lemma ListedNotLive(h: seq<Header>, list: seq<nat>, base: nat, live: map<nat, nat>, arena: set<nat>, i: nat)
    requires Accounted(h, list, base, live, arena) && Ring(h, list, base) && i < |list|
    ensures list[i] < |h| && list[i] !in LiveUnits(|h|, live)
  {
    assert BlockAt(h, list, base, i);
    BlockEnds(h, list, base, i);
    assert list[i] != base ==> list[i] in FreeUnits(h, list);
  }

  lemma UnlinkedFree(h: seq<Header>, list: seq<nat>, base: nat, k: nat)
    requires Ring(h, list, base) && k < |list| && list[k] != base
    ensures Before(list, k) < |h| && list[k] < |h|
    ensures Units(list[k], h[list[k]].size) <= FreeUnits(h, list)
    ensures FreeUnits(Unlinked(h, Before(list, k), list[k]), Without(list, k))
            == FreeUnits(h, list) - Units(list[k], h[list[k]].size)
  {
    UnlinkedRing(h, list, base, k);
    BlockEnds(h, list, base, k);
    assert BlockAt(h, list, base, k);
    forall u: nat
      ensures IsFree(Unlinked(h, Before(list, k), list[k]), Without(list, k), u)
              <==> IsFree(h, list, u) && u !in Units(list[k], h[list[k]].size)
    {
      UnlinkedUnits(h, list, base, k, u);
    }
  }

  lemma AfterUnlink(h: seq<Header>, list: seq<nat>, base: nat, live: map<nat, nat>, arena: set<nat>, k: nat,
                    h': seq<Header>, list': seq<nat>)
    requires Accounted(h, list, base, live, arena) && Ring(h, list, base) && k < |list| && list[k] != base
    requires Before(list, k) < |h| && list[k] < |h| && h' == Unlinked(h, Before(list, k), list[k])
             && list' == Without(list, k)
    ensures list[k] !in live && Accounted(h', list', base, live[list[k] := h[list[k]].size], arena)
            && KeepsLive(h, h', live)
  {
    UnlinkedFree(h, list, base, k);
    UnlinkedRing(h, list, base, k);
    assert BlockAt(h, list, base, k);
    ListedNotLive(h, list, base, live, arena, if k == 0 then |list| - 1 else k - 1);
    AfterTake(h, list, base, live, arena, list[k], h[list[k]].size, h', list');
  }

  lemma BeforeRemains(list: seq<nat>, k: nat)
    requires k < |list| && Before(list, k) != list[k]
    ensures Before(list, k) in Without(list, k)
  {
    var list' := Without(list, k);
    assert list'[if k == 0 then |list'| - 1 else k - 1] == Before(list, k);
  }

  lemma CarvedFree(h: seq<Header>, list: seq<nat>, base: nat, k: nat, n: nat, q: nat)
    requires Ring(h, list, base) && k < |list| && list[k] < |h| && 0 < n < h[list[k]].size
             && list[k] + h[list[k]].size <= |h|
    requires q == list[k] + h[list[k]].size - n
    ensures Units(q, n) <= FreeUnits(h, list)
    ensures FreeUnits(Carved(h, list[k], n), list) == FreeUnits(h, list) - Units(q, n)
  {
    BlockEnds(h, list, base, k);
    forall u: nat
      ensures IsFree(Carved(h, list[k], n), list, u) <==> IsFree(h, list, u) && u !in Units(q, n)
    {
      CarvedUnits(h, list, base, k, n, u);
    }
  }

  lemma AfterCarve(h: seq<Header>, list: seq<nat>, base: nat, live: map<nat, nat>, arena: set<nat>, k: nat, n: nat,
                   q: nat, h': seq<Header>)
    requires Accounted(h, list, base, live, arena) && Ring(h, list, base) && k < |list| && list[k] < |h|
             && 0 < n < h[list[k]].size
    requires list[k] + h[list[k]].size <= |h| && q == list[k] + h[list[k]].size - n && h' == Carved(h, list[k], n)
    ensures q !in live && Accounted(h', list, base, live[q := n], arena) && KeepsLive(h, h', live)
  {
    CarvedFree(h, list, base, k, n, q);
    ListedNotLive(h, list, base, live, arena, k);
    assert q in Units(q, n);
    AfterTake(h, list, base, live, arena, q, n, h', list);
  }

  lemma TailNotListed(h: seq<Header>, list: seq<nat>, base: nat, k: nat, q: nat)
    requires Ring(h, list, base) && k < |list| && list[k] < |h| && list[k] < q < list[k] + h[list[k]].size
    ensures q !in list
  {
    assert BlockAt(h, list, base, k);
    forall i | 0 <= i < |list|
      ensures list[i] != q
    {
      assert BlockAt(h, list, base, i);
    }
  }

  // ----- new memory

  /** A header written into memory that belongs to nobody changes no account. */
  lemma FreshWrite(h: seq<Header>, list: seq<nat>, base: nat, live: map<nat, nat>, arena: set<nat>, a: nat,
                   h': seq<Header>)
    requires Accounted(h, list, base, live, arena) && Ring(h, list, base) && a < |h| && a !in arena && a != base
    requires |h'| == |h| && forall x :: 0 <= x < |h| && x != a ==> h'[x] == h[x]
    ensures Ring(h', list, base) && Accounted(h', list, base, live, arena)
    ensures FreeUnits(h', list) == FreeUnits(h, list) && a !in live && KeepsLive(h, h', live)
  {
    FreshRing(h, list, base, a, h');
    assert KeepsLive(h, h', live);
    HeadersKept(h, h', live);
    if a in live {
      LiveBlock(h, live, a);
      assert false;
    }
  }

  lemma FreshRing(h: seq<Header>, list: seq<nat>, base: nat, a: nat, h': seq<Header>)
    requires Ring(h, list, base) && a < |h| && !IsFree(h, list, a) && a != base
    requires |h'| == |h| && forall x :: 0 <= x < |h| && x != a ==> h'[x] == h[x]
    ensures Ring(h', list, base)
    ensures forall u :: IsFree(h', list, u) <==> IsFree(h, list, u)
  {
    forall i | 0 <= i < |list|
      ensures list[i] != a && BlockAt(h', list, base, i)
    {
      assert BlockAt(h, list, base, i);
      assert list[i] != base ==> InBlock(h, list, i, list[i]) && IsFree(h, list, list[i]);
    }
    forall u
      ensures IsFree(h', list, u) <==> IsFree(h, list, u)
    {
      assert forall i :: 0 <= i < |list| ==> (InBlock(h', list, i, u) <==> InBlock(h, list, i, u));
    }
  }

  // ----- laps around the circle

  /** Steps from block `k` to block `goal` along the circle of `n`. */
  function Distance(k: int, goal: int, n: int): int {
    if k <= goal then goal - k else goal + n - k
  }

  /** All blocks that the lap passed on its way to block `k`, since it left block `f`, are smaller than `size`. */
  ghost predicate PassedSmall(h: seq<Header>, list: seq<nat>, f: nat, k: nat, size: nat) {
    forall i :: 0 <= i < |list| && list[i] < |h| && Distance(i, f, |list|) > Distance(k, f, |list|) ==>
           h[list[i]].size < size
  }

  lemma Advance(h: seq<Header>, list: seq<nat>, base: nat, k: nat) returns (k': nat)
    requires Ring(h, list, base) && k < |list|
    ensures k' == (if k + 1 < |list| then k + 1 else 0) && list[k] < |h|
    ensures h[list[k]].ptr == list[k'] && list[k'] < |h| && Before(list, k') == list[k]
  {
    k' := if k + 1 < |list| then k + 1 else 0;
    assert BlockAt(h, list, base, k) && BlockAt(h, list, base, k');
  }

  ghost predicate NoFit(h: seq<Header>, list: seq<nat>, n: nat) {
    forall i :: 0 <= i < |list| && list[i] < |h| ==> h[list[i]].size < n
  }

  /** Only the block that contains the region from sbrk is large enough. */
  ghost predicate OnlyGranted(h: seq<Header>, list: seq<nat>, nunits: nat, grant: nat) {
    forall i :: 0 <= i < |list| && list[i] < |h| && h[list[i]].size >= nunits ==>
           ContainedIn(h, list, grant, Request(nunits), i)
  }

  lemma GrantNotListed(h: seq<Header>, list: seq<nat>, base: nat, live: map<nat, nat>, arena: set<nat>, grant: nat,
                       n: nat)
    requires Ring(h, list, base) && Accounted(h, list, base, live, arena) && Grantable(|h|, base, arena, grant, n)
    ensures grant !in list
  {
    assert grant in Units(grant, n);
    forall i | 0 <= i < |list|
      ensures list[i] != grant
    {
      assert BlockAt(h, list, base, i);
      assert list[i] != base ==> InBlock(h, list, i, list[i]);
      assert list[i] != base ==> list[i] in FreeUnits(h, list);
    }
  }

  lemma OthersStaySmall(h: seq<Header>, h1: seq<Header>, h': seq<Header>, list: seq<nat>, list': seq<nat>, nunits: nat,
                        grant: nat)
    requires Grew(h1, list, h', list', grant, Request(nunits)) && |h1| == |h|
    requires forall i :: 0 <= i < |list| && list[i] < |h| ==> h1[list[i]] == h[list[i]]
    ensures NoFit(h, list, nunits) ==> OnlyGranted(h', list', nunits, grant)
  {
    forall i | 0 <= i < |list'| && list'[i] < |h'| && h'[list'[i]].size >= nunits
      ensures NoFit(h, list, nunits) ==> ContainedIn(h', list', grant, Request(nunits), i)
    {
      assert GrewAt(h1, list, h', list', grant, Request(nunits), i);
    }
  }

  /** The block taken is cut from the end of the first block, behind the one with index `f`, that is large enough; the
      block before that one, in the list `rest` that is left, is `ptr`. */
  ghost predicate NextFit(h: seq<Header>, list: seq<nat>, f: nat, nunits: nat, q: nat, rest: seq<nat>, ptr: nat) {
    exists k :: 0 <= k < |list| && NextFitAt(h, list, f, nunits, q, k) && Precedes(rest, ptr, list[k])
  }

  ghost predicate NextFitAt(h: seq<Header>, list: seq<nat>, f: nat, nunits: nat, q: nat, k: nat)
    requires k < |list|
  {
    && list[k] < |h| && h[list[k]].size >= nunits && q == list[k] + h[list[k]].size - nunits
    && PassedSmall(h, list, f, k, nunits)
  }

  /** The block taken is cut from the end of a stretch of free memory that contains the region from sbrk; the block
      before that stretch, in the list `rest` that is left, is `ptr`. */
  ghost predicate FromGrant(free: set<nat>, grant: nat, nunits: nat, q: nat, rest: seq<nat>, ptr: nat) {
    exists b: nat, s: nat {:trigger Units(b, s)} ::
      && Units(b, s) <= free && b <= grant && grant + Request(nunits) <= b + s && q + nunits == b + s
      && Precedes(rest, ptr, b)
  }

  /** One step of the lap: towards every block but the one it leaves. */
  lemma LapStep(k: nat, k': nat, n: nat, goal: nat)
    requires k < n && goal < n && k' == (if k + 1 < n then k + 1 else 0)
    ensures k != goal ==> Distance(k', goal, n) == Distance(k, goal, n) - 1
    ensures k == goal ==> Distance(k', goal, n) == n - 1
    ensures 0 <= Distance(k', goal, n) <= n - 1
  {
  }

  lemma PassedMore(h: seq<Header>, list: seq<nat>, f: nat, k: nat, k': nat, size: nat)
    requires PassedSmall(h, list, f, k, size) && k < |list| && f < |list| && k' == (if k + 1 < |list| then k + 1 else 0)
    requires list[k] < |h| && h[list[k]].size < size
    ensures k != f ==> PassedSmall(h, list, f, k', size)
    ensures k == f ==> NoFit(h, list, size)
  {
  }

  /** Where the search of malloc stands: at block `k`, on a lap that left block `f`, which is the one `freeptr` names.
      After morecore, block `j` is known to be large enough. */
  datatype Lap = Lap(f: nat, k: nat, j: nat, grown: bool)

  ghost predicate OnLap(h: seq<Header>, list: seq<nat>, lap: Lap, size: nat) {
    && lap.k < |list| && lap.f < |list|
    && if lap.grown then
         && lap.j < |list| && list[lap.j] < |h| && h[list[lap.j]].size >= size
         && Distance(lap.k, lap.j, |list|) <= Distance(lap.k, lap.f, |list|)
       else
         PassedSmall(h, list, lap.f, lap.k, size)
  }

  function Left(lap: Lap, n: nat): int {
    Distance(lap.k, if lap.grown then lap.j else lap.f, n)
  }

  /** A lap begins behind the block that `freeptr` names. */
  lemma LapBegins(h: seq<Header>, list: seq<nat>, base: nat, size: nat, f: nat, j: nat, grown: bool) returns (lap: Lap)
    requires Ring(h, list, base) && f < |list|
    requires grown ==> j < |list| && list[j] < |h| && h[list[j]].size >= size
    ensures OnLap(h, list, lap, size) && lap.grown == grown && lap.f == f && 0 <= Left(lap, |list|) < |list|
    ensures list[f] < |h| && h[list[f]].ptr == list[lap.k] && list[lap.k] < |h| && Before(list, lap.k) == list[f]
  {
    var k := Advance(h, list, base, f);
    LapStep(f, k, |list|, f);
    if grown {
      LapStep(f, k, |list|, j);
    }
    lap := Lap(f, k, j, grown);
  }

  /** A block that is too small is passed, and the lap comes closer to its end. */
  lemma LapGoesOn(h: seq<Header>, list: seq<nat>, base: nat, size: nat, lap: Lap) returns (lap': Lap)
    requires Ring(h, list, base) && OnLap(h, list, lap, size) && lap.k != lap.f && list[lap.k] < |h|
             && h[list[lap.k]].size < size
    ensures OnLap(h, list, lap', size) && lap'.grown == lap.grown && lap'.f == lap.f
            && 0 <= Left(lap', |list|) < Left(lap, |list|)
    ensures h[list[lap.k]].ptr == list[lap'.k] && list[lap'.k] < |h| && Before(list, lap'.k) == list[lap.k]
  {
    var k := Advance(h, list, base, lap.k);
    LapStep(lap.k, k, |list|, lap.f);
    if lap.grown {
      LapStep(lap.k, k, |list|, lap.j);
    } else {
      PassedMore(h, list, lap.f, lap.k, k, size);
    }
    lap' := lap.(k := k);
  }

  /** A lap ends without a block only before morecore, and only when no block is large enough. */
  lemma LapEnds(h: seq<Header>, list: seq<nat>, base: nat, size: nat, lap: Lap)
    requires Ring(h, list, base) && OnLap(h, list, lap, size) && lap.k == lap.f && list[lap.k] < |h|
             && h[list[lap.k]].size < size
    ensures !lap.grown && NoFit(h, list, size)
  {
    if !lap.grown {
      PassedMore(h, list, lap.f, lap.k, if lap.k + 1 < |list| then lap.k + 1 else 0, size);
    }
  }

  /** The heap as malloc finds it (`now` and `list` once `base` is set up), and what is asked of it. */
  datatype Call = Call(was: seq<Header>, now: seq<Header>, list: seq<nat>, live: map<nat, nat>, free: set<nat>,
                       arena: set<nat>, nunits: nat, grant: nat, added: set<nat>, f: nat)

  /** What malloc obtains from sbrk: a region, and only when no free block is large enough. */
  ghost function Added(h: seq<Header>, list: seq<nat>, nunits: nat, grant: nat): set<nat> {
    if NoFit(h, list, nunits) then Units(grant, Request(nunits)) else {}
  }

  /** How many visits there can be in all: as many as the list has blocks, and after morecore as many again. */
  function VisitsLeft(c: Call, lap: Lap, n: nat): nat {
    if lap.grown then |c.list| + n else |c.list|
  }

  /** Which block it is. */
  ghost predicate Chosen(c: Call, q: nat, rest: seq<nat>, ptr: nat) {
    if NoFit(c.now, c.list, c.nunits) then FromGrant(c.free + c.added, c.grant, c.nunits, q, rest, ptr)
    else NextFit(c.now, c.list, c.f, c.nunits, q, rest, ptr)
  }

  class Heap {
    const mem: array<Header>
    const base: nat
    var freeptr: Option<nat>
    ghost var list: seq<nat>
    ghost var live: map<nat, nat>
    ghost var arena: set<nat>

    constructor (size: nat, base: nat)
      requires base < size
      ensures Valid() && fresh(mem) && mem.Length == size && this.base == base
      ensures freeptr == None && live == map[] && arena == {}
    {
      mem := new Header[size];
      this.base := base;
      freeptr := None;
      list, live, arena := [], map[], {};
      new;
      assert LiveUnits(mem.Length, live) == {} && FreeUnits(mem[..], list) == {};
    }

    ghost predicate Valid()
      reads this, mem
    {
      && base < mem.Length
      && Accounted(mem[..], list, base, live, arena)
      && (freeptr == None ==> list == [] && live == map[] && arena == {})
      && (freeptr.Some? ==> Ring(mem[..], list, base) && freeptr.value in list)
    }

    /** The units of the free blocks. */
    ghost function Free(): set<nat>
      reads this, mem
    {
      FreeUnits(mem[..], list)
    }

    /** A block that free may be given: a live one, or the region that morecore just obtained. */
    ghost predicate Releasable(bp: nat)
      reads this, mem
    {
      bp < mem.Length && (bp in live || Grantable(mem.Length, base, arena, bp, mem[bp].size))
    }

    /** The scan of free: the block behind which `bp` belongs, found within one lap. */
    method Scan(bp: nat, ghost t: nat) returns (p: nat, ghost steps: nat)
      requires freeptr.Some? && freeptr.value in list
      requires Ring(mem[..], list, base) && Fits(mem[..], list, base, bp, t)
      ensures p == Before(list, t) && steps < |list|
    {
      ghost var h := mem[..];
      ghost var goal := if t == 0 then |list| - 1 else t - 1;
      p := freeptr.value;
      ghost var k :| 0 <= k < |list| && list[k] == p;
      ScanStopsIff(h, list, base, bp, t, k);
      steps := 0;
      while !(bp > p && bp < mem[p].ptr)
        invariant k < |list| && p == list[k] && p < mem.Length && 0 <= Distance(k, goal, |list|) < |list| - steps
        invariant (bp > p && bp < mem[p].ptr) || (p >= mem[p].ptr && (bp > p || bp < mem[p].ptr))
                  <==> p == Before(list, t)
        decreases Distance(k, goal, |list|)
      {
        if p >= mem[p].ptr && (bp > p || bp < mem[p].ptr) {
          break;
        }
        assert k != goal;
        ghost var passed := k;
        k := Advance(h, list, base, passed);
        LapStep(passed, k, |list|, goal);
        p := mem[p].ptr;
        steps := steps + 1;
        ScanStopsIff(h, list, base, bp, t, k);
      }
    }

    /** The end of free: joins the block with its neighbours where they touch, and links it where they do not. */
    method Join(p: nat, bp: nat, ghost t: nat)
      requires Ring(mem[..], list, base) && Fits(mem[..], list, base, bp, t) && p == Before(list, t)
      modifies mem
      ensures mem[..] == Released(old(mem[..]), list, bp, t)
    {
      ghost var h := mem[..];
      BeforeLinks(h, list, base, bp, t);
      if bp + mem[bp].size == mem[p].ptr {
        mem[bp] := Header(mem[mem[p].ptr].ptr, mem[bp].size + mem[mem[p].ptr].size);
      } else {
        mem[bp] := Header(mem[p].ptr, mem[bp].size);
      }
      assert mem[..] == JoinUpper(h, p, bp);
      if p + mem[p].size == bp {
        mem[p] := Header(mem[bp].ptr, mem[p].size + mem[bp].size);
      } else {
        mem[p] := Header(bp, mem[p].size);
      }
    }

    lemma Place(bp: nat) returns (t: nat)
      requires Valid() && freeptr.Some? && Releasable(bp)
      ensures Fits(mem[..], list, base, bp, t)
    {
      var h := mem[..];
      ReleasedLive(h, live, FreeUnits(h, list), base, arena, bp, LiveUnits(|h|, live));
      t := FindPlace(h, list, base, bp);
    }

    /** free: the block's units become free, and nothing else changes hands. */
    method Release(ap: nat)
      requires Valid() && freeptr.Some? && ap > 0 && Releasable(ap - 1)
      modifies this`freeptr, this`list, this`live, this`arena, mem
      ensures Valid() && freeptr.Some?
      ensures live == old(live) - {ap - 1} && arena == old(arena) + Units(ap - 1, old(mem[ap - 1].size))
      ensures Free() == old(Free()) + Units(ap - 1, old(mem[ap - 1].size))
      ensures KeepsLive(old(mem[..]), mem[..], live)
      ensures Contains(mem[..], list, ap - 1, old(mem[ap - 1].size))
      ensures Grew(old(mem[..]), old(list), mem[..], list, ap - 1, old(mem[ap - 1].size))
      ensures Precedes(old(list), freeptr.value, ap - 1)
    {
      var bp := ap - 1;
      ghost var h := mem[..];
      ghost var t := Place(bp);
      PlacePrecedes(h, list, base, bp, t);
      var p;
      ghost var steps;
      p, steps := Scan(bp, t);
      Join(p, bp, t);
      freeptr := Some(p);
      Settle(h, bp, t);
    }

    /** The bookkeeping after a release. */
    ghost method Settle(h: seq<Header>, bp: nat, t: nat)
      requires base < mem.Length && Ring(h, list, base) && Fits(h, list, base, bp, t)
               && Accounted(h, list, base, live, arena)
      requires bp in live || Grantable(|h|, base, arena, bp, h[bp].size)
      requires mem[..] == Released(h, list, bp, t) && freeptr == Some(Before(list, t))
      modifies this`list, this`live, this`arena
      ensures Valid()
      ensures live == old(live) - {bp} && arena == old(arena) + Units(bp, h[bp].size)
      ensures Free() == FreeUnits(h, old(list)) + Units(bp, h[bp].size)
      ensures KeepsLive(h, mem[..], live) && Contains(mem[..], list, bp, h[bp].size)
      ensures Grew(h, old(list), mem[..], list, bp, h[bp].size)
    {
      AfterFree(h, list, base, live, arena, bp, t, mem[..], ReleasedList(h, list, bp, t), live - {bp});
      ReleasedRing(h, list, base, bp, t);
      ReleasedContains(h, list, base, bp, t);
      ReleasedGrew(h, list, base, bp, t);
      BeforeStays(h, list, base, bp, t);
      Assign(ReleasedList(h, list, bp, t), live - {bp}, arena + Units(bp, h[bp].size));
    }

    ghost method Assign(list': seq<nat>, live': map<nat, nat>, arena': set<nat>)
      requires base < mem.Length && Ring(mem[..], list', base) && Accounted(mem[..], list', base, live', arena')
      requires freeptr.Some? && freeptr.value in list'
      modifies this`list, this`live, this`arena
      ensures Valid() && list == list' && live == live' && arena == arena'
    {
      list, live, arena := list', live', arena';
    }

    /** morecore: at least 1024 units from sbrk, released like any block. */
    method Morecore(num_u: nat, grant: nat) returns (p: nat)
      requires Valid() && freeptr.Some? && num_u >= 1
      requires Grantable(mem.Length, base, arena, grant, Request(num_u))
      modifies this`freeptr, this`list, this`live, this`arena, mem
      ensures Valid() && freeptr == Some(p)
      ensures live == old(live) && arena == old(arena) + Units(grant, Request(num_u))
      ensures Request(num_u) == if num_u < 1024 then 1024 else num_u
      ensures Free() == old(Free()) + Units(grant, Request(num_u))
      ensures KeepsLive(old(mem[..]), mem[..], live) && Contains(mem[..], list, grant, Request(num_u))
      ensures |list| <= |old(list)| + 1
      ensures NoFit(old(mem[..]), old(list), num_u) ==> OnlyGranted(mem[..], list, num_u, grant)
    {
      var n := Request(num_u);
      ghost var h := mem[..];
      WriteSize(grant, n);
      ghost var h1 := mem[..];
      Release(grant + 1);
      assert live == old(live);
      KeptTwice(h, h1, mem[..], live);
      OthersStaySmall(h, h1, mem[..], old(list), list, num_u, grant);
      p := freeptr.value;
    }

    /** up->s.size = num_u, in memory that is not in use yet. */
    method WriteSize(grant: nat, n: nat)
      requires Valid() && freeptr.Some? && Grantable(mem.Length, base, arena, grant, n)
      modifies mem
      ensures Valid() && grant !in live && mem[grant].size == n
      ensures Free() == old(Free()) && KeepsLive(old(mem[..]), mem[..], live)
      ensures forall i :: 0 <= i < |list| && list[i] < mem.Length ==> mem[list[i]] == old(mem[..])[list[i]]
    {
      ghost var h := mem[..];
      assert grant in Units(grant, n);
      GrantNotListed(h, list, base, live, arena, grant, n);
      mem[grant] := Header(mem[grant].ptr, n);
      FreshWrite(h, list, base, live, arena, grant, mem[..]);
    }

    ghost method SettleUnlinked(h: seq<Header>, k: nat)
      requires base < mem.Length && Ring(h, list, base) && Accounted(h, list, base, live, arena) && k < |list|
               && list[k] != base
      requires Before(list, k) < |h| && list[k] < |h| && Before(list, k) != list[k]
      requires mem[..] == Unlinked(h, Before(list, k), list[k]) && freeptr == Some(Before(list, k))
      modifies this`list, this`live, this`arena
      ensures Valid() && old(list[k]) !in old(live) && arena == old(arena)
      ensures list == Without(old(list), k) && live == old(live)[old(list[k]) := h[old(list[k])].size]
      ensures KeepsLive(h, mem[..], old(live))
    {
      AfterUnlink(h, list, base, live, arena, k, mem[..], Without(list, k));
      UnlinkedRing(h, list, base, k);
      BeforeRemains(list, k);
      Assign(Without(list, k), live[list[k] := h[list[k]].size], arena);
    }

    /** A block that fits exactly leaves the list. */
    method TakeWhole(prevptr: nat, p: nat, ghost k: nat)
      requires Valid() && freeptr.Some? && k < |list| && list[k] == p && prevptr == Before(list, k)
      requires p < mem.Length && 1 <= mem[p].size
      modifies this`freeptr, this`list, this`live, this`arena, mem
      ensures Valid() && freeptr == Some(prevptr) && p != prevptr && arena == old(arena)
      ensures p !in old(live) && live == old(live)[p := old(mem[p].size)] && list == Without(old(list), k)
      ensures Units(p, old(mem[p].size)) <= old(Free()) && Free() == old(Free()) - Units(p, old(mem[p].size))
      ensures KeepsLive(old(mem[..]), mem[..], old(live))
    {
      ghost var h := mem[..];
      assert BlockAt(h, list, base, k);
      UnlinkedRing(h, list, base, k);
      UnlinkedFree(h, list, base, k);
      mem[prevptr] := Header(mem[p].ptr, mem[prevptr].size);
      assert mem[..] == Unlinked(h, prevptr, p);
      freeptr := Some(prevptr);
      SettleUnlinked(h, k);
    }

    ghost method SettleCarved(h: seq<Header>, k: nat, n: nat, q: nat)
      requires base < mem.Length && Ring(h, list, base) && Accounted(h, list, base, live, arena) && k < |list|
               && list[k] < |h|
      requires 0 < n < h[list[k]].size && list[k] + h[list[k]].size <= |h| && q == list[k] + h[list[k]].size - n
      requires mem[..] == Carved(h, list[k], n) && freeptr == Some(Before(list, k))
      modifies this`list, this`live, this`arena
      ensures Valid() && q !in old(live) && live == old(live)[q := n] && arena == old(arena) && list == old(list)
              && q !in list
      ensures Units(q, n) <= FreeUnits(h, list) && Free() == FreeUnits(h, list) - Units(q, n)
      ensures KeepsLive(h, mem[..], old(live))
    {
      CarvedRing(h, list, base, k, n);
      TailNotListed(h, list, base, k, q);
      CarvedFree(h, list, base, k, n, q);
      AfterCarve(h, list, base, live, arena, k, n, q, mem[..]);
      Assign(list, live[q := n], arena);
    }

    /** A larger block stays where it is and gives up its last `nunits` units. */
    method CutTail(prevptr: nat, p: nat, nunits: nat, ghost k: nat) returns (q: nat)
      requires Valid() && freeptr.Some? && k < |list| && list[k] == p && prevptr == Before(list, k)
      requires p < mem.Length && 1 <= nunits < mem[p].size
      modifies this`freeptr, this`list, this`live, this`arena, mem
      ensures Valid() && freeptr == Some(prevptr) && q != prevptr && q < mem.Length && arena == old(arena)
      ensures q + nunits == p + old(mem[p].size) && list == old(list)
      ensures q !in old(live) && live == old(live)[q := nunits]
      ensures Units(q, nunits) <= old(Free()) && Free() == old(Free()) - Units(q, nunits)
      ensures KeepsLive(old(mem[..]), mem[..], old(live))
    {
      ghost var h := mem[..];
      assert BlockAt(h, list, base, k);
      mem[p] := Header(mem[p].ptr, mem[p].size - nunits);
      q := p + mem[p].size;
      mem[q] := Header(mem[q].ptr, nunits);
      assert mem[..] == Carved(h, p, nunits);
      freeptr := Some(prevptr);
      SettleCarved(h, k, nunits, q);
    }

    /** The block found: taken whole when it fits, otherwise cut off at its end. */
    method TakeBlock(prevptr: nat, p: nat, nunits: nat, ghost k: nat) returns (q: nat)
      requires Valid() && freeptr.Some? && k < |list| && list[k] == p && prevptr == Before(list, k)
      requires p < mem.Length && 1 <= nunits <= mem[p].size
      modifies this`freeptr, this`list, this`live, this`arena, mem
      ensures Valid() && freeptr == Some(prevptr) && q != prevptr && q < mem.Length && arena == old(arena)
      ensures q !in old(live) && live == old(live)[q := nunits] && q == p + old(mem[p].size) - nunits
      ensures list == old(list) || list == Without(old(list), k)
      ensures Units(q, nunits) <= old(Free()) && Free() == old(Free()) - Units(q, nunits)
      ensures KeepsLive(old(mem[..]), mem[..], old(live))
    {
      if mem[p].size == nunits {
        TakeWhole(prevptr, p, k);
        q := p;
      } else {
        q := CutTail(prevptr, p, nunits, k);
      }
    }

    /** What the program stores inside its own blocks disturbs nothing. */
    method Store(u: nat, x: Header, ghost a: nat)
      requires Valid() && a in live && a < u < a + live[a]
      modifies mem
      ensures Valid() && u < mem.Length && mem[..] == old(mem[..])[u := x] && Free() == old(Free())
    {
      ghost var h := mem[..];
      LiveBlock(h, live, a);
      assert u in Units(a, live[a]) && u in LiveUnits(|h|, live);
      mem[u] := x;
      StoredInside(h, live, a, u, mem[..]);
      if freeptr.Some? {
        FreshRing(h, list, base, u, mem[..]);
      }
    }

    /** The first call makes `base` a free list of its own. */
    method Start()
      requires Valid() && freeptr == None
      modifies this`freeptr, this`list, mem
      ensures Valid() && freeptr == Some(base) && list == [base] && Free() == old(Free())
      ensures NoFit(mem[..], list, 1)
    {
      mem[base] := Header(base, 0);
      freeptr := Some(base);
      list := [base];
      assert FreeUnits(mem[..], list) == {};
      assert LiveUnits(mem.Length, live) == {};
      assert old(Free()) == {};
    }

    ghost predicate Gained(c: Call, gained: set<nat>)
      reads this, mem
    {
      && Valid() && freeptr.Some? && KeepsLive(c.was, mem[..], c.live)
      && arena == c.arena + gained && live == c.live && Free() == c.free + gained
    }

    /** malloc looks for a block, and has arrived at block `p`. */
    ghost predicate Searching(c: Call, lap: Lap, prevptr: nat, p: nat)
      reads this, mem
    {
      && Gained(c, if lap.grown then c.added else {}) && c.added == Added(c.now, c.list, c.nunits, c.grant)
      && OnLap(mem[..], list, lap, c.nunits) && freeptr == Some(list[lap.f])
      && p == list[lap.k] && p < mem.Length && prevptr == Before(list, lap.k)
      && (if lap.grown then
            NoFit(c.now, c.list, c.nunits) && OnlyGranted(mem[..], list, c.nunits, c.grant) && |list| <= |c.list| + 1
          else
            && mem[..] == c.now && list == c.list && lap.f == c.f
            && Grantable(mem.Length, base, arena, c.grant, Request(c.nunits)))
    }

    /** malloc has taken block `q`. */
    ghost predicate Found(c: Call, q: nat)
      reads this, mem
    {
      && Valid() && freeptr.Some? && KeepsLive(c.was, mem[..], c.live)
      && q < mem.Length && q !in c.live && live == c.live[q := c.nunits]
      && arena == c.arena + c.added && Free() == c.free + c.added - Units(q, c.nunits)
    }

    /** The block found: taken whole when it fits, otherwise cut off at its end. */
    method TakeFound(prevptr: nat, p: nat, nunits: nat, ghost c: Call, ghost lap: Lap) returns (q: nat)
      requires Searching(c, lap, prevptr, p) && mem[p].size >= nunits >= 1 && c.nunits == nunits
      modifies this`freeptr, this`list, this`live, this`arena, mem
      ensures freeptr == Some(prevptr) && q != prevptr && Found(c, q) && Chosen(c, q, list, freeptr.value)
    {
      ghost var h := mem[..];
      ChosenBlock(c, lap, prevptr, p, list);
      ChosenBlock(c, lap, prevptr, p, Without(list, lap.k));
      q := TakeBlock(prevptr, p, nunits, lap.k);
      KeptTwice(c.was, h, mem[..], c.live);
    }

    /** What is known of the block at which the search ends. */
    lemma ChosenBlock(c: Call, lap: Lap, prevptr: nat, p: nat, rest: seq<nat>)
      requires Searching(c, lap, prevptr, p) && mem[p].size >= c.nunits >= 1
      requires rest == list || rest == Without(list, lap.k)
      ensures Chosen(c, p + mem[p].size - c.nunits, rest, prevptr)
    {
      assert BlockAt(mem[..], list, base, lap.k);
      BlockIsNotAlone(lap.k);
      BeforePrecedes(list, lap.k);
      if lap.grown {
        assert ContainedIn(mem[..], list, c.grant, Request(c.nunits), lap.k);
        forall u | u in Units(p, mem[p].size)
          ensures u in Free()
        {
          assert BlockAt(mem[..], list, base, lap.k) && InBlock(mem[..], list, lap.k, u);
        }
        assert Units(p, mem[p].size) <= c.free + c.added;
      } else {
        assert NextFitAt(c.now, c.list, c.f, c.nunits, p + mem[p].size - c.nunits, lap.k);
      }
    }

    lemma BlockIsNotAlone(k: nat)
      requires Valid() && freeptr.Some? && k < |list| && list[k] < mem.Length && mem[list[k]].size >= 1
      ensures |list| > 1
    {
      assert BlockAt(mem[..], list, base, k);
      var b :| 0 <= b < |list| && list[b] == base;
      assert BlockAt(mem[..], list, base, b);
    }

    /** The lap ended without a block: one more lap, over a list that has one. */
    method Extend(p: nat, nunits: nat, grant: nat, ghost c: Call, ghost lap: Lap, ghost prevptr: nat)
        returns (p': nat, ghost lap': Lap)
      requires Searching(c, lap, prevptr, p) && mem[p].size < nunits && freeptr == Some(p) && c.nunits == nunits
               && c.grant == grant
      modifies this`freeptr, this`list, this`live, this`arena, mem
      ensures !lap.grown && lap'.grown && p' < mem.Length && Searching(c, lap', p', mem[p'].ptr)
      ensures 0 <= Left(lap', |list|) < |list|
    {
      ghost var h := mem[..];
      LapEnds(h, list, base, nunits, lap);
      p' := Morecore(nunits, grant);
      KeptTwice(c.was, h, mem[..], c.live);
      ghost var f :| 0 <= f < |list| && list[f] == p';
      ghost var j :| 0 <= j < |list| && ContainedIn(mem[..], list, grant, Request(nunits), j);
      lap' := LapBegins(mem[..], list, base, nunits, f, j, true);
    }

    lemma GoesOn(c: Call, lap: Lap, prevptr: nat, p: nat) returns (lap': Lap)
      requires Searching(c, lap, prevptr, p) && mem[p].size < c.nunits && freeptr != Some(p)
      ensures Searching(c, lap', p, mem[p].ptr) && lap'.grown == lap.grown
              && 0 <= Left(lap', |list|) < Left(lap, |list|)
    {
      lap' := LapGoesOn(mem[..], list, base, c.nunits, lap);
    }

    lemma Begins(c: Call) returns (lap: Lap)
      requires Valid() && freeptr.Some? && c.now == mem[..] && c.list == list && KeepsLive(c.was, mem[..], c.live)
      requires c.arena == arena && c.live == live && c.free == Free()
               && c.added == Added(c.now, c.list, c.nunits, c.grant)
      requires Grantable(mem.Length, base, arena, c.grant, Request(c.nunits))
      requires c.f < |list| && list[c.f] == freeptr.value
      ensures freeptr.value < mem.Length && Searching(c, lap, freeptr.value, mem[freeptr.value].ptr) && !lap.grown
      ensures 0 <= Left(lap, |list|) < |list|
    {
      lap := LapBegins(mem[..], list, base, c.nunits, c.f, 0, false);
    }

    /** The start of malloc: the search begins behind `freeptr`. */
    method Begin(nunits: nat, grant: nat) returns (prevptr: nat, ghost c: Call, ghost lap: Lap)
      requires Valid() && Grantable(mem.Length, base, arena, grant, Request(nunits)) && nunits >= 1
      modifies this`freeptr, this`list, mem
      ensures prevptr < mem.Length && Searching(c, lap, prevptr, mem[prevptr].ptr) && c.nunits == nunits
              && c.grant == grant
      ensures c.was == old(mem[..]) && c.live == old(live) && c.free == old(Free()) && c.arena == old(arena)
      ensures c.added == Added(old(mem[..]), old(list), nunits, grant) && !lap.grown && 0 <= Left(lap, |list|) < |list|
      ensures NoFit(c.now, c.list, nunits) <==> NoFit(old(mem[..]), old(list), nunits)
      ensures old(freeptr).Some? ==>
              c.now == old(mem[..]) && c.list == old(list) && c.f < |c.list| && c.list[c.f] == old(freeptr).value
      ensures |c.list| == if old(freeptr).Some? then |old(list)| else 1
    {
      ghost var added := Added(mem[..], list, nunits, grant);
      if freeptr == None {
        Start();
      }
      prevptr := freeptr.value;
      ghost var f :| 0 <= f < |list| && list[f] == prevptr;
      c := Call(old(mem[..]), mem[..], list, live, Free(), arena, nunits, grant, added, f);
      lap := Begins(c);
    }

    /** One round of the search: the block at `p` is taken, or passed, or the heap grows. */
    method Visit(prevptr: nat, p: nat, nunits: nat, grant: nat, ghost c: Call, ghost lap: Lap)
      returns (at: nat, allocating: bool, result: nat, ghost lap': Lap)
      requires Searching(c, lap, prevptr, p) && c.nunits == nunits >= 1 && c.grant == grant
      modifies this`freeptr, this`list, this`live, this`arena, mem
      ensures at < mem.Length
      ensures allocating ==> Searching(c, lap', at, mem[at].ptr)
      ensures allocating ==>
                if lap'.grown == lap.grown then 0 <= Left(lap', |list|) < Left(lap, |old(list)|)
                else lap'.grown && 0 <= Left(lap', |list|) < |list|
      ensures allocating && lap'.grown == lap.grown ==> list == old(list)
      ensures !allocating ==> result == at + 1 && Found(c, at) && Chosen(c, at, list, freeptr.value)
    {
      at, allocating, result, lap' := p, true, 0, lap;
      if mem[p].size >= nunits {
        at := TakeFound(prevptr, p, nunits, c, lap);
        allocating := false;
        result := at + 1;
      }
      if allocating || freeptr == Some(at) {
        at, lap' := Proceed(at, nunits, grant, c, lap, prevptr);
      }
    }

    /** The end of a round: where the lap began the heap grows, elsewhere the search goes on. */
    method Proceed(p: nat, nunits: nat, grant: nat, ghost c: Call, ghost lap: Lap, ghost prevptr: nat)
        returns (at: nat, ghost lap': Lap)
      requires Searching(c, lap, prevptr, p) && mem[p].size < nunits && c.nunits == nunits && c.grant == grant
      modifies this`freeptr, this`list, this`live, this`arena, mem
      ensures at < mem.Length && Searching(c, lap', at, mem[at].ptr)
      ensures if lap'.grown == lap.grown then 0 <= Left(lap', |list|) < Left(lap, |list|) && list == old(list)
              else lap'.grown && 0 <= Left(lap', |list|) < |list|
    {
      at := p;
      if freeptr == Some(p) {
        at, lap' := Extend(p, nunits, grant, c, lap, prevptr);
      } else {
        lap' := GoesOn(c, lap, prevptr, p);
      }
    }

    /** malloc: the block found in one lap, or in a second lap after morecore. It is cut from the first large enough
        block behind the one where the last search ended; when there is none, from the memory that sbrk gave. */
    method Malloc(nbytes: nat, grant: nat) returns (result: nat, ghost visits: nat)
      requires Valid() && Grantable(mem.Length, base, arena, grant, Request(UnitsFor(nbytes)))
      requires Request(UnitsFor(nbytes)) * UNIT < 0x8000_0000
      modifies this`freeptr, this`list, this`live, this`arena, mem
      ensures Valid() && freeptr.Some? && result > 0
      ensures result - 1 !in old(live) && live == old(live)[result - 1 := UnitsFor(nbytes)]
      ensures result - 1 in live && var u := live[result - 1];
              u >= 1 && nbytes <= (u - 1) * 16 && (u == 1 || (u - 2) * 16 < nbytes)
      ensures arena == old(arena) + if NoFit(old(mem[..]), old(list), live[result - 1])
                                    then Units(grant, if live[result - 1] < 1024 then 1024 else live[result - 1])
                                        else {}
      ensures arena == old(arena) + Added(old(mem[..]), old(list), UnitsFor(nbytes), grant)
      ensures Free() == old(Free())
              + Added(old(mem[..]), old(list), UnitsFor(nbytes), grant) - Units(result - 1, UnitsFor(nbytes))
      ensures KeepsLive(old(mem[..]), mem[..], old(live))
      ensures if NoFit(old(mem[..]), old(list), UnitsFor(nbytes)) then
                FromGrant(old(Free()) + Units(grant, Request(UnitsFor(nbytes))), grant, UnitsFor(nbytes), result - 1,
                          list, freeptr.value)
              else
                old(freeptr).Some?
                && exists f :: 0 <= f < |old(list)| && old(list)[f] == old(freeptr).value
                               && NextFit(old(mem[..]), old(list), f, UnitsFor(nbytes), result - 1, list, freeptr.value)
      ensures visits <= if NoFit(old(mem[..]), old(list), UnitsFor(nbytes)) then 2 * |old(list)| + 3 else |old(list)|
    {
      var nunits := UnitsFor(nbytes);
      var prevptr;
      ghost var c, lap;
      prevptr, c, lap := Begin(nunits, grant);
      result, visits := Search(prevptr, nunits, grant, c, lap);
    }

    /** The loop of malloc, from the block behind `first` on: one lap at most, and after morecore one more. */
    method Search(first: nat, nunits: nat, grant: nat, ghost c: Call, ghost start: Lap)
        returns (result: nat, ghost visits: nat)
      requires first < mem.Length && Searching(c, start, first, mem[first].ptr) && c.nunits == nunits >= 1
               && c.grant == grant
      requires !start.grown && 0 <= Left(start, |list|) < |list|
      modifies this`freeptr, this`list, this`live, this`arena, mem
      ensures result > 0 && Found(c, result - 1) && Chosen(c, result - 1, list, freeptr.value)
      ensures visits <= if NoFit(c.now, c.list, nunits) then 2 * |c.list| + 1 else |c.list|
    {
      var prevptr, p, allocating := first, mem[first].ptr, true;
      ghost var lap := start;
      result, visits := 0, 0;
      while allocating
        invariant if allocating then Searching(c, lap, prevptr, p)
                  else result > 0 && Found(c, result - 1) && Chosen(c, result - 1, list, freeptr.value)
        invariant allocating ==> 0 <= Left(lap, |list|) < VisitsLeft(c, lap, |list|) - visits
        invariant !allocating ==> visits <= if NoFit(c.now, c.list, nunits) then 2 * |c.list| + 1 else |c.list|
        decreases allocating, !lap.grown, Left(lap, |list|)
      {
        visits := visits + 1;
        p, allocating, result, lap := Visit(prevptr, p, nunits, grant, c, lap);
        prevptr := p;
        p := mem[p].ptr;
      }
    }
  }

  /** Two heaps with the same free units have the same list, block for block, whatever calls led to them. */
  lemma SameFreeSameList(a: Heap, b: Heap)
    requires a.Valid() && b.Valid() && a.freeptr.Some? && b.freeptr.Some? && a.base == b.base && a.Free() == b.Free()
    ensures a.list == b.list
    ensures forall i :: 0 <= i < |a.list| ==>
            a.list[i] < a.mem.Length && a.list[i] < b.mem.Length && a.mem[a.list[i]] == b.mem[a.list[i]]
  {
    FreeInside(a.mem[..], a.list, a.base);
    FreeInside(b.mem[..], b.list, b.base);
    forall u: nat
      ensures IsFree(a.mem[..], a.list, u) <==> IsFree(b.mem[..], b.list, u)
    {
      assert u in a.Free() <==> u in b.Free();
    }
    CanonicalList(a.mem[..], a.list, b.mem[..], b.list, a.base);
  }

  lemma FreeInside(h: seq<Header>, list: seq<nat>, base: nat)
    requires Ring(h, list, base)
    ensures forall u: nat :: IsFree(h, list, u) ==> u < |h|
  {
    forall u: nat | IsFree(h, list, u)
      ensures u < |h|
    {
      var i :| 0 <= i < |list| && InBlock(h, list, i, u);
      assert BlockAt(h, list, base, i);
    }
  }

  /** Once everything is released the list has one block for each maximal run of memory obtained from sbrk, in
      whatever order the blocks were released. */
  lemma AllReleased(a: Heap, x: nat)
    requires a.Valid() && a.freeptr.Some? && a.live == map[] && x != a.base
    ensures a.Free() == a.arena
    ensures x in a.list <==> x in a.arena && !(x > 0 && x - 1 in a.arena)
  {
    var h := a.mem[..];
    assert LiveUnits(|h|, a.live) == {};
    FreeInside(h, a.list, a.base);
    BlockStarts(h, a.list, a.base, x);
    assert x in a.Free() <==> IsFree(h, a.list, x);
    if x > 0 {
      var y := x - 1;
      assert y in a.Free() <==> IsFree(h, a.list, y);
    }
  }

  /** Release order does not matter. */
  lemma AnyOrderSameList(a: Heap, b: Heap)
    requires a.Valid() && b.Valid() && a.freeptr.Some? && b.freeptr.Some? && a.base == b.base
    requires a.live == map[] && b.live == map[] && a.arena == b.arena
    ensures a.list == b.list
  {
    assert LiveUnits(a.mem.Length, a.live) == {} && LiveUnits(b.mem.Length, b.live) == {};
    SameFreeSameList(a, b);
  }
}
