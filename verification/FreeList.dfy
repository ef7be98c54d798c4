/** The free list of libc/malloc.c: a circular, address-ordered chain of blocks inside raw memory. Addresses count
    header units of 16 bytes. */
module FreeList {
  import opened Lists

  datatype Header = Header(ptr: nat, size: nat)

  function NextIn(list: seq<nat>, i: nat): nat
    requires i < |list|
  {
    if i + 1 < |list| then list[i + 1] else list[0]
  }

  /** The `i`-th block: linked to the next one, of at least one unit unless it is `base`, and neither overlapping nor
      touching the next block. */
  ghost predicate BlockAt(h: seq<Header>, list: seq<nat>, base: nat, i: nat)
    requires i < |list|
  {
    && list[i] < |h| && h[list[i]].ptr == NextIn(list, i)
    && (if list[i] == base then h[list[i]].size == 0 else h[list[i]].size >= 1)
    && list[i] + h[list[i]].size <= |h|
    && (i + 1 < |list| ==> list[i] + h[list[i]].size < list[i + 1])
  }

  ghost predicate Ascending(list: seq<nat>) {
    forall i, j :: 0 <= i < j < |list| ==> list[i] < list[j]
  }

  /** `list` holds, in address order, the blocks of one circular chain through `base`. */
  ghost predicate Ring(h: seq<Header>, list: seq<nat>, base: nat) {
    && base in list && Ascending(list)
    && forall i {:trigger BlockAt(h, list, base, i)} :: 0 <= i < |list| ==> BlockAt(h, list, base, i)
  }

  ghost predicate InBlock(h: seq<Header>, list: seq<nat>, i: nat, u: nat)
    requires i < |list|
  {
    list[i] < |h| && list[i] <= u < list[i] + h[list[i]].size
  }

  /** Unit `u` belongs to a free block. */
  ghost predicate IsFree(h: seq<Header>, list: seq<nat>, u: nat) {
    exists i :: 0 <= i < |list| && InBlock(h, list, i, u)
  }

  // ----- releasing a block

  /** Block `bp` lies between the blocks `t - 1` and `t`. */
  ghost predicate Fits(h: seq<Header>, list: seq<nat>, base: nat, bp: nat, t: nat) {
    && t <= |list| && bp < |h| && h[bp].size >= 1 && bp + h[bp].size <= |h| && bp + h[bp].size != base
    && (forall i :: 0 <= i < t ==> list[i] < bp && list[i] < |h| && list[i] + h[list[i]].size <= bp)
    && (forall i :: t <= i < |list| ==> bp + h[bp].size <= list[i])
  }

  /** The block before position `t` in the circle. */
  function Before(list: seq<nat>, t: nat): nat
    requires 0 < |list| && t <= |list|
  {
    if t == 0 then list[|list| - 1] else list[t - 1]
  }

  /** `p` is the last block of the list before address `b`, or, when there is none, the last of all. */
  ghost predicate Precedes(list: seq<nat>, p: nat, b: nat) {
    && p in list
    && (forall x :: x in list && x < b ==> p < b && x <= p)
    && (p >= b ==> forall x :: x in list ==> x <= p)
  }

  lemma PlacePrecedes(h: seq<Header>, list: seq<nat>, base: nat, bp: nat, t: nat)
    requires Ascending(list) && list != [] && Fits(h, list, base, bp, t)
    ensures Precedes(list, Before(list, t), bp)
  {
  }

  lemma BeforePrecedes(list: seq<nat>, k: nat)
    requires Ascending(list) && k < |list| && |list| > 1
    ensures Precedes(list, Before(list, k), list[k]) && Precedes(Without(list, k), Before(list, k), list[k])
  {
    var rest := Without(list, k);
    assert rest[if k == 0 then |list| - 2 else k - 1] == Before(list, k);
    forall x | x in rest
      ensures x in list
    {
    }
  }

  /** Joining `bp` with the block behind it, or linking it to that block. */
  function JoinUpper(h: seq<Header>, p: nat, bp: nat): seq<Header>
    requires p < |h| && bp < |h| && h[p].ptr < |h|
  {
    var nx := h[p].ptr;
    if bp + h[bp].size == nx then h[bp := Header(h[nx].ptr, h[bp].size + h[nx].size)]
    else h[bp := Header(nx, h[bp].size)]
  }

  /** Joining `bp` with the block `p` before it, or linking `p` to it. */
  function JoinLower(h: seq<Header>, p: nat, bp: nat): seq<Header>
    requires p < |h| && bp < |h|
  {
    if p + h[p].size == bp then h[p := Header(h[bp].ptr, h[p].size + h[bp].size)]
    else h[p := Header(bp, h[p].size)]
  }

  /** The list after `bp` was put at position `t`, joined with its neighbours as told. */
  function Joined(list: seq<nat>, t: nat, bp: nat, up: bool, down: bool): seq<nat>
    requires t <= |list| && (up ==> t < |list|)
  {
    list[..t] + (if down then [] else [bp]) + (if up then list[t + 1..] else list[t..])
  }

  ghost predicate Up(h: seq<Header>, list: seq<nat>, bp: nat, t: nat) {
    bp < |h| && t < |list| && bp + h[bp].size == list[t]
  }

  ghost predicate Down(h: seq<Header>, list: seq<nat>, bp: nat, t: nat) {
    0 < t <= |list| && list[t - 1] < |h| && list[t - 1] + h[list[t - 1]].size == bp
  }

  lemma BeforeLinks(h: seq<Header>, list: seq<nat>, base: nat, bp: nat, t: nat)
    requires Ring(h, list, base) && Fits(h, list, base, bp, t)
    ensures var p := Before(list, t);
            && p < |h| && p != bp && h[p].ptr == (if t < |list| then list[t] else list[0]) && h[p].ptr < |h|
            && (bp + h[bp].size == h[p].ptr <==> Up(h, list, bp, t))
            && (p + h[p].size == bp <==> Down(h, list, bp, t))
            && (Up(h, list, bp, t) ==> list[t] != base)
  {
    var k := if t == 0 then |list| - 1 else t - 1;
    assert BlockAt(h, list, base, k);
    assert BlockAt(h, list, base, 0);
    if t < |list| {
      assert BlockAt(h, list, base, t);
    }
  }

  function Released(h: seq<Header>, list: seq<nat>, bp: nat, t: nat): (h': seq<Header>)
    requires 0 < |list| && t <= |list| && bp < |h|
    ensures |h'| == |h|
  {
    var p := Before(list, t);
    if p < |h| && h[p].ptr < |h| then JoinLower(JoinUpper(h, p, bp), p, bp) else h
  }

  function ReleasedList(h: seq<Header>, list: seq<nat>, bp: nat, t: nat): seq<nat>
    requires t <= |list| && bp < |h|
  {
    Joined(list, t, bp, t < |list| && bp + h[bp].size == list[t], t > 0 && list[t - 1] < |h|
           && list[t - 1] + h[list[t - 1]].size == bp)
  }

  /** The headers after the release, block by block. */
  lemma ReleasedHeaders(h: seq<Header>, list: seq<nat>, base: nat, bp: nat, t: nat)
    requires Ring(h, list, base) && Fits(h, list, base, bp, t)
    ensures HeadersAfter(h, list, bp, t, Released(h, list, bp, t))
  {
    BeforeLinks(h, list, base, bp, t);
  }

  ghost predicate HeadersAfter(h: seq<Header>, list: seq<nat>, bp: nat, t: nat, h': seq<Header>)
    requires 0 < |list| && t <= |list| && bp < |h|
  {
    var p := Before(list, t);
    var up, down := Up(h, list, bp, t), Down(h, list, bp, t);
    var nx := if t < |list| then list[t] else list[0];
    && |h'| == |h| && p < |h| && nx < |h| && (up ==> list[t] < |h|)
    && h'[p] == Header(if down then (if up then h[list[t]].ptr else nx) else bp,
                       if down then h[p].size + h[bp].size + (if up then h[list[t]].size else 0) else h[p].size)
    && (!down ==> h'[bp] == Header(if up then h[list[t]].ptr else nx, h[bp].size + (if up then h[list[t]].size else 0)))
    && (forall x :: 0 <= x < |h| && x != p && x != bp ==> h'[x] == h[x])
  }

  ghost predicate ListAfter(list: seq<nat>, t: nat, bp: nat, up: bool, down: bool, list': seq<nat>)
    requires t <= |list| && (up ==> t < |list|)
  {
    var shift := (if down then 0 else 1) - (if up then 1 else 0);
    && |list'| == |list| + shift
    && (forall i :: 0 <= i < t ==> list'[i] == list[i])
    && (!down ==> list'[t] == bp)
    && (forall i :: t + (if down then 0 else 1) <= i < |list'| ==> list'[i] == list[i - shift])
  }

  /** The new list, element by element. */
  lemma JoinedAt(list: seq<nat>, t: nat, bp: nat, up: bool, down: bool)
    requires t <= |list| && (up ==> t < |list|)
    ensures ListAfter(list, t, bp, up, down, Joined(list, t, bp, up, down))
  {
  }

  /** The neighbourhood of a release, spelled out: the setting of the lemmas below. */
  ghost predicate Setting(h: seq<Header>, list: seq<nat>, base: nat, bp: nat, t: nat, h': seq<Header>,
                          list': seq<nat>) {
    && Ring(h, list, base) && Fits(h, list, base, bp, t)
    && HeadersAfter(h, list, bp, t, h')
    && ListAfter(list, t, bp, Up(h, list, bp, t), Down(h, list, bp, t), list')
    && (Up(h, list, bp, t) ==> list[t] != base)
  }

  /** The block before the released one. */
  lemma LowerBlock(h: seq<Header>, list: seq<nat>, base: nat, bp: nat, t: nat, h': seq<Header>, list': seq<nat>)
    requires Setting(h, list, base, bp, t, h', list') && t > 0
    ensures BlockAt(h', list', base, t - 1)
  {
    assert BlockAt(h, list, base, t - 1);
    if t < |list| {
      assert BlockAt(h, list, base, t);
    }
    assert BlockAt(h, list, base, 0);
  }

  /** The released block itself, when it was not joined to the one before it. */
  lemma ReleasedItself(h: seq<Header>, list: seq<nat>, base: nat, bp: nat, t: nat, h': seq<Header>, list': seq<nat>)
    requires Setting(h, list, base, bp, t, h', list') && !Down(h, list, bp, t)
    ensures BlockAt(h', list', base, t)
  {
    if t < |list| {
      assert BlockAt(h, list, base, t);
    }
    assert BlockAt(h, list, base, 0);
    var b :| 0 <= b < |list| && list[b] == base;
    assert bp != base;
  }

  /** Any other block. */
  lemma OtherBlock(h: seq<Header>, list: seq<nat>, base: nat, bp: nat, t: nat, h': seq<Header>, list': seq<nat>, i: nat)
    requires Setting(h, list, base, bp, t, h', list') && i < |list'|
    requires i + 1 < t || i >= t + (if Down(h, list, bp, t) then 0 else 1)
    ensures BlockAt(h', list', base, i)
  {
    var up, down := Up(h, list, bp, t), Down(h, list, bp, t);
    var shift := (if down then 0 else 1) - (if up then 1 else 0);
    if i < t {
      assert BlockAt(h, list, base, i);
    } else {
      LaterBlock(h, list, base, bp, t, h', list', i, i - shift);
    }
  }

  lemma LaterBlock(h: seq<Header>, list: seq<nat>, base: nat, bp: nat, t: nat, h': seq<Header>, list': seq<nat>, i: nat,
                   k: nat)
    requires Setting(h, list, base, bp, t, h', list') && i < |list'|
    requires i >= t + (if Down(h, list, bp, t) then 0 else 1)
    requires k == i - (if Down(h, list, bp, t) then 0 else 1) + (if Up(h, list, bp, t) then 1 else 0)
    ensures BlockAt(h', list', base, i)
  {
    assert k < |list| && list'[i] == list[k] && t <= k;
    assert BlockAt(h, list, base, k);
    assert i + 1 < |list'| ==> list'[i + 1] == list[k + 1];
    assert BlockAt(h, list, base, 0);
    assert list[k] != Before(list, t) || t == 0;
  }

  lemma SettingHolds(h: seq<Header>, list: seq<nat>, base: nat, bp: nat, t: nat)
    requires Ring(h, list, base) && Fits(h, list, base, bp, t)
    ensures Setting(h, list, base, bp, t, Released(h, list, bp, t), ReleasedList(h, list, bp, t))
  {
    ReleasedHeaders(h, list, base, bp, t);
    BeforeLinks(h, list, base, bp, t);
    JoinedAt(list, t, bp, Up(h, list, bp, t), Down(h, list, bp, t));
  }

  lemma SettingRing(h: seq<Header>, list: seq<nat>, base: nat, bp: nat, t: nat, h': seq<Header>, list': seq<nat>)
    requires Setting(h, list, base, bp, t, h', list')
    ensures Ring(h', list', base)
  {
    forall i | 0 <= i < |list'|
      ensures BlockAt(h', list', base, i)
    {
      if t > 0 && i == t - 1 {
        LowerBlock(h, list, base, bp, t, h', list');
      } else if i == t && !Down(h, list, bp, t) {
        ReleasedItself(h, list, base, bp, t, h', list');
      } else {
        OtherBlock(h, list, base, bp, t, h', list', i);
      }
    }
    BaseStays(h, list, base, bp, t, h', list');
    StillAscending(h, list, base, bp, t, h', list');
  }

  /** free, once it found the place: the list is a ring again. */
  lemma ReleasedRing(h: seq<Header>, list: seq<nat>, base: nat, bp: nat, t: nat)
    requires Ring(h, list, base) && Fits(h, list, base, bp, t)
    ensures Ring(Released(h, list, bp, t), ReleasedList(h, list, bp, t), base)
  {
    SettingHolds(h, list, base, bp, t);
    SettingRing(h, list, base, bp, t, Released(h, list, bp, t), ReleasedList(h, list, bp, t));
  }

  lemma BaseStays(h: seq<Header>, list: seq<nat>, base: nat, bp: nat, t: nat, h': seq<Header>, list': seq<nat>)
    requires Setting(h, list, base, bp, t, h', list')
    ensures base in list'
  {
    var up, down := Up(h, list, bp, t), Down(h, list, bp, t);
    var shift := (if down then 0 else 1) - (if up then 1 else 0);
    var b :| 0 <= b < |list| && list[b] == base;
    assert list'[if b < t then b else b + shift] == base;
  }

  lemma StillAscending(h: seq<Header>, list: seq<nat>, base: nat, bp: nat, t: nat, h': seq<Header>, list': seq<nat>)
    requires Setting(h, list, base, bp, t, h', list')
    ensures Ascending(list')
  {
    var up, down := Up(h, list, bp, t), Down(h, list, bp, t);
    var shift := (if down then 0 else 1) - (if up then 1 else 0);
    var behind := t + (if down then 0 else 1);
    forall i, j | 0 <= i < j < |list'|
      ensures list'[i] < list'[j]
    {
      assert i < t ==> list'[i] == list[i];
      assert i >= behind ==> list'[i] == list[i - shift];
      assert j < t ==> list'[j] == list[j];
      assert j >= behind ==> list'[j] == list[j - shift] && t <= j - shift;
    }
  }

  // ----- what the release adds

  lemma FreeStays(h: seq<Header>, list: seq<nat>, base: nat, bp: nat, t: nat, h': seq<Header>, list': seq<nat>, i: nat,
                  u: nat)
    requires Setting(h, list, base, bp, t, h', list') && i < |list| && InBlock(h, list, i, u)
    ensures IsFree(h', list', u)
  {
    var up, down := Up(h, list, bp, t), Down(h, list, bp, t);
    var j := if i < t then i else if up && i == t then (if down then t - 1 else t)
             else i + (if down then 0 else 1) - (if up then 1 else 0);
    assert BlockAt(h, list, base, i);
    assert InBlock(h', list', j, u);
  }

  /** One block of the new list contains the whole released block. */
  lemma BlockFreed(h: seq<Header>, list: seq<nat>, base: nat, bp: nat, t: nat, h': seq<Header>, list': seq<nat>)
      returns (j: nat)
    requires Setting(h, list, base, bp, t, h', list')
    ensures j < |list'| && list'[j] < |h'| && list'[j] <= bp && bp + h[bp].size <= list'[j] + h'[list'[j]].size
  {
    j := if Down(h, list, bp, t) then t - 1 else t;
  }

  /** At most one block more, and each is an old one of the same size, or contains the released block. */
  ghost predicate Grew(h: seq<Header>, list: seq<nat>, h': seq<Header>, list': seq<nat>, bp: nat, n: nat) {
    && |list'| <= |list| + 1
    && forall i :: 0 <= i < |list'| ==> GrewAt(h, list, h', list', bp, n, i)
  }

  ghost predicate GrewAt(h: seq<Header>, list: seq<nat>, h': seq<Header>, list': seq<nat>, bp: nat, n: nat, i: nat)
    requires i < |list'|
  {
    var b := list'[i];
    && b < |h'|
    && ((b <= bp && bp + n <= b + h'[b].size) || (b in list && b < |h| && h'[b].size == h[b].size))
  }

  lemma ReleasedGrew(h: seq<Header>, list: seq<nat>, base: nat, bp: nat, t: nat)
    requires Ring(h, list, base) && Fits(h, list, base, bp, t)
    ensures Grew(h, list, Released(h, list, bp, t), ReleasedList(h, list, bp, t), bp, h[bp].size)
  {
    var h', list' := Released(h, list, bp, t), ReleasedList(h, list, bp, t);
    SettingHolds(h, list, base, bp, t);
    forall i | 0 <= i < |list'|
      ensures GrewAt(h, list, h', list', bp, h[bp].size, i)
    {
      SettingGrew(h, list, base, bp, t, h', list', i);
    }
  }

  lemma SettingGrew(h: seq<Header>, list: seq<nat>, base: nat, bp: nat, t: nat, h': seq<Header>, list': seq<nat>,
                    i: nat)
    requires Setting(h, list, base, bp, t, h', list') && i < |list'|
    ensures GrewAt(h, list, h', list', bp, h[bp].size, i)
  {
    var up, down := Up(h, list, bp, t), Down(h, list, bp, t);
    var shift := (if down then 0 else 1) - (if up then 1 else 0);
    if i < t {
      assert list'[i] == list[i] && BlockAt(h, list, base, i);
    } else if i > t || down {
      assert list'[i] == list[i - shift] && BlockAt(h, list, base, i - shift);
    }
  }

  lemma NothingElse(h: seq<Header>, list: seq<nat>, base: nat, bp: nat, t: nat, h': seq<Header>, list': seq<nat>,
                    j: nat, u: nat)
    requires Setting(h, list, base, bp, t, h', list') && j < |list'| && InBlock(h', list', j, u)
    ensures IsFree(h, list, u) || bp <= u < bp + h[bp].size
  {
    var up, down := Up(h, list, bp, t), Down(h, list, bp, t);
    if up {
      assert InBlock(h, list, t, u) <==> list[t] <= u < list[t] + h[list[t]].size;
    }
    if j < t {
      assert BlockAt(h, list, base, j);
      assert InBlock(h, list, j, u) <==> list[j] <= u < list[j] + h[list[j]].size;
    } else if j >= t + (if down then 0 else 1) {
      var k := j - (if down then 0 else 1) + (if up then 1 else 0);
      assert list'[j] == list[k];
      assert BlockAt(h, list, base, k);
      assert list[k] != Before(list, t) || t == 0;
      assert InBlock(h, list, k, u);
    }
  }

  /** Releasing a block makes exactly its units free, in addition to those that were. */
  lemma ReleasedUnits(h: seq<Header>, list: seq<nat>, base: nat, bp: nat, t: nat, u: nat)
    requires Ring(h, list, base) && Fits(h, list, base, bp, t)
    ensures IsFree(Released(h, list, bp, t), ReleasedList(h, list, bp, t), u)
            <==> IsFree(h, list, u) || bp <= u < bp + h[bp].size
  {
    var h', list' := Released(h, list, bp, t), ReleasedList(h, list, bp, t);
    SettingHolds(h, list, base, bp, t);
    if IsFree(h, list, u) {
      var i :| 0 <= i < |list| && InBlock(h, list, i, u);
      FreeStays(h, list, base, bp, t, h', list', i, u);
    }
    if bp <= u < bp + h[bp].size {
      var j := BlockFreed(h, list, base, bp, t, h', list');
      assert InBlock(h', list', j, u);
    }
    if IsFree(h', list', u) {
      var j :| 0 <= j < |list'| && InBlock(h', list', j, u);
      NothingElse(h, list, base, bp, t, h', list', j, u);
    }
  }

  // ----- taking a block

  /** malloc takes a block that fits exactly out of the chain; `prev` is the block before it. */
  function Unlinked(h: seq<Header>, prev: nat, p: nat): (h': seq<Header>)
    requires prev < |h| && p < |h|
    ensures |h'| == |h|
  {
    h[prev := Header(h[p].ptr, h[prev].size)]
  }

  /** From a larger block it cuts off the last `n` units and leaves the block where it is. */
  function Carved(h: seq<Header>, p: nat, n: nat): (h': seq<Header>)
    requires p < |h| && 0 < n < h[p].size && p + h[p].size <= |h|
    ensures |h'| == |h|
  {
    var q := p + h[p].size - n;
    h[p := Header(h[p].ptr, h[p].size - n)][q := Header(h[q].ptr, n)]
  }

  ghost predicate Removed(list: seq<nat>, k: nat, list': seq<nat>) {
    && k < |list| && |list'| == |list| - 1
    && (forall i :: 0 <= i < k ==> list'[i] == list[i])
    && (forall i :: k <= i < |list'| ==> list'[i] == list[i + 1])
  }

  lemma UnlinkedBlock(h: seq<Header>, list: seq<nat>, base: nat, k: nat, list': seq<nat>, i: nat)
    requires Ring(h, list, base) && Removed(list, k, list') && list[k] != base && i < |list'|
    requires Before(list, k) < |h| && list[k] < |h|
    ensures BlockAt(Unlinked(h, Before(list, k), list[k]), list', base, i)
  {
    assert BlockAt(h, list, base, k) && BlockAt(h, list, base, 0);
    assert BlockAt(h, list, base, if i < k then i else i + 1);
  }

  lemma UnlinkedRing(h: seq<Header>, list: seq<nat>, base: nat, k: nat)
    requires Ring(h, list, base) && k < |list| && list[k] != base
    ensures Before(list, k) < |h| && list[k] < |h| && Before(list, k) != list[k] && h[Before(list, k)].ptr == list[k]
    ensures Ring(Unlinked(h, Before(list, k), list[k]), Without(list, k), base)
  {
    var list' := Without(list, k);
    assert Removed(list, k, list');
    assert BlockAt(h, list, base, k);
    assert BlockAt(h, list, base, if k == 0 then |list| - 1 else k - 1);
    var b :| 0 <= b < |list| && list[b] == base;
    assert list'[if b < k then b else b - 1] == base;
    forall i | 0 <= i < |list'|
      ensures BlockAt(Unlinked(h, Before(list, k), list[k]), list', base, i)
    {
      UnlinkedBlock(h, list, base, k, list', i);
    }
  }

  lemma UnlinkedUnits(h: seq<Header>, list: seq<nat>, base: nat, k: nat, u: nat)
    requires Ring(h, list, base) && k < |list| && list[k] != base
    ensures Before(list, k) < |h| && list[k] < |h|
    ensures IsFree(Unlinked(h, Before(list, k), list[k]), Without(list, k), u)
            <==> IsFree(h, list, u) && !(list[k] <= u < list[k] + h[list[k]].size)
  {
    UnlinkedRing(h, list, base, k);
    var list' := Without(list, k);
    assert Removed(list, k, list');
    UnlinkedUnit(h, list, base, k, Unlinked(h, Before(list, k), list[k]), list', u);
  }

  lemma UnlinkedUnit(h: seq<Header>, list: seq<nat>, base: nat, k: nat, h': seq<Header>, list': seq<nat>, u: nat)
    requires Ring(h, list, base) && Removed(list, k, list') && Before(list, k) < |h| && list[k] < |h|
    requires h' == Unlinked(h, Before(list, k), list[k])
    ensures IsFree(h', list', u) <==> IsFree(h, list, u) && !(list[k] <= u < list[k] + h[list[k]].size)
  {
    assert BlockAt(h, list, base, k);
    if IsFree(h, list, u) && !InBlock(h, list, k, u) {
      var j :| 0 <= j < |list| && InBlock(h, list, j, u);
      assert InBlock(h', list', if j < k then j else j - 1, u);
    }
    if IsFree(h', list', u) {
      var i :| 0 <= i < |list'| && InBlock(h', list', i, u);
      var j := if i < k then i else i + 1;
      assert InBlock(h, list, j, u);
      assert BlockAt(h, list, base, j);
    }
  }

  lemma CarvedRing(h: seq<Header>, list: seq<nat>, base: nat, k: nat, n: nat)
    requires Ring(h, list, base) && k < |list| && list[k] < |h| && 0 < n < h[list[k]].size
    ensures list[k] + h[list[k]].size <= |h|
    ensures Ring(Carved(h, list[k], n), list, base)
  {
    assert BlockAt(h, list, base, k);
    var h' := Carved(h, list[k], n);
    forall i | 0 <= i < |list|
      ensures BlockAt(h', list, base, i)
    {
      assert BlockAt(h, list, base, i);
    }
  }

  lemma CarvedUnits(h: seq<Header>, list: seq<nat>, base: nat, k: nat, n: nat, u: nat)
    requires Ring(h, list, base) && k < |list| && list[k] < |h| && 0 < n < h[list[k]].size
             && list[k] + h[list[k]].size <= |h|
    ensures var q := list[k] + h[list[k]].size - n;
            IsFree(Carved(h, list[k], n), list, u) <==> IsFree(h, list, u) && !(q <= u < q + n)
  {
    assert BlockAt(h, list, base, k);
    var h' := Carved(h, list[k], n);
    forall j | 0 <= j < |list|
      ensures j != k && InBlock(h, list, j, u) ==> InBlock(h', list, j, u) && !InBlock(h, list, k, u)
      ensures InBlock(h', list, j, u) ==> InBlock(h, list, j, u)
    {
      assert BlockAt(h, list, base, j);
    }
    if IsFree(h', list, u) {
      var i :| 0 <= i < |list| && InBlock(h', list, i, u);
      assert InBlock(h, list, i, u);
    }
    if IsFree(h, list, u) && !(list[k] + h[list[k]].size - n <= u < list[k] + h[list[k]].size) {
      var i :| 0 <= i < |list| && InBlock(h, list, i, u);
      assert InBlock(h', list, i, u);
    }
  }

  // ----- the list is determined by the free units

  /** An address begins a block exactly when its unit is free and the one before it is not. */
  lemma BlockStarts(h: seq<Header>, list: seq<nat>, base: nat, x: nat)
    requires Ring(h, list, base) && x != base
    ensures x in list <==> IsFree(h, list, x) && !(x > 0 && IsFree(h, list, x - 1))
  {
    if x in list {
      var i :| 0 <= i < |list| && list[i] == x;
      assert BlockAt(h, list, base, i);
      assert InBlock(h, list, i, x);
      if x > 0 {
        var y := x - 1;
        forall j | 0 <= j < |list|
          ensures !InBlock(h, list, j, y)
        {
          assert BlockAt(h, list, base, j);
        }
      }
    } else if IsFree(h, list, x) {
      var i :| 0 <= i < |list| && InBlock(h, list, i, x);
      assert InBlock(h, list, i, x - 1);
    }
  }

  /** A block ends at the first unit behind it that is not free. */
  lemma BlockEnds(h: seq<Header>, list: seq<nat>, base: nat, i: nat)
    requires Ring(h, list, base) && i < |list|
    ensures list[i] < |h|
    ensures forall u :: list[i] <= u < list[i] + h[list[i]].size ==> IsFree(h, list, u)
    ensures list[i] != base ==> !IsFree(h, list, list[i] + h[list[i]].size)
  {
    assert BlockAt(h, list, base, i);
    forall u | list[i] <= u < list[i] + h[list[i]].size
      ensures IsFree(h, list, u)
    {
      assert InBlock(h, list, i, u);
    }
    var e := list[i] + h[list[i]].size;
    forall j | 0 <= j < |list|
      ensures list[i] != base ==> !InBlock(h, list, j, e)
    {
      assert BlockAt(h, list, base, j);
    }
  }

  lemma {:induction false} AscendingUnique(a: seq<nat>, b: seq<nat>)
    requires Ascending(a) && Ascending(b) && forall x :: x in a <==> x in b
    ensures a == b
  {
    assert a != [] ==> a[0] in b;
    assert b != [] ==> b[0] in a;
    if a != [] && b != [] {
      var m, n := |a| - 1, |b| - 1;
      assert a[m] in b && b[n] in a;
      assert a[m] == b[n];
      forall x
        ensures x in a[..m] <==> x in b[..n]
      {
        assert x in a[..m] <==> x in a && x != a[m];
        assert x in b[..n] <==> x in b && x != b[n];
      }
      AscendingUnique(a[..m], b[..n]);
    }
  }

  /** Two rings with the same free units are the same ring, block for block. */
  lemma CanonicalList(h: seq<Header>, list: seq<nat>, h2: seq<Header>, list2: seq<nat>, base: nat)
    requires Ring(h, list, base) && Ring(h2, list2, base)
    requires forall u :: IsFree(h, list, u) <==> IsFree(h2, list2, u)
    ensures list == list2
    ensures forall i :: 0 <= i < |list| ==> list[i] < |h| && list[i] < |h2| && h[list[i]] == h2[list[i]]
  {
    forall x
      ensures x in list <==> x in list2
    {
      if x != base {
        BlockStarts(h, list, base, x);
        BlockStarts(h2, list2, base, x);
      }
    }
    AscendingUnique(list, list2);
    forall i | 0 <= i < |list|
      ensures list[i] < |h| && list[i] < |h2| && h[list[i]] == h2[list[i]]
    {
      SameBlock(h, h2, list, base, i);
    }
  }

  lemma SameBlock(h: seq<Header>, h2: seq<Header>, list: seq<nat>, base: nat, i: nat)
    requires Ring(h, list, base) && Ring(h2, list, base) && i < |list|
    requires forall u :: IsFree(h, list, u) <==> IsFree(h2, list, u)
    ensures list[i] < |h| && list[i] < |h2| && h[list[i]] == h2[list[i]]
  {
    assert BlockAt(h, list, base, i) && BlockAt(h2, list, base, i);
    BlockEnds(h, list, base, i);
    BlockEnds(h2, list, base, i);
  }
}
