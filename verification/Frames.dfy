/** Physical frames, the frame descriptors `pages[]` and the free list (sys/page.c).

    A 64-bit word is kept as its upper 52 bits, the page-frame number, and its lower 12 bits, the flags.
    The kernel reaches physical memory through the direct map at KERNBASE, so a frame is named by its number.
*/
module Frames {
  import opened Lists

  datatype Word = Word(pfn: nat, flags: bv12)

  const ZERO_WORD := Word(0, 0)

  type Frame = s: seq<Word> | |s| == 512 witness seq(512, _ => ZERO_WORD)

  function ZeroFrame(): (z: Frame)
    ensures forall i :: 0 <= i < 512 ==> z[i] == ZERO_WORD
  {
    seq(512, _ => ZERO_WORD)
  }

  predicate Present(w: Word) {
    w.flags & 1 != 0
  }

  predicate Writable(w: Word) {
    w.flags & 2 != 0
  }

  predicate ForUser(w: Word) {
    w.flags & 4 != 0
  }

  /** `phyaddr | flags`. */
  function WithFlags(w: Word, flags: bv12): Word {
    Word(w.pfn, w.flags | flags)
  }

  /** What a frame is used for. A table frame knows the address space that owns it, the indices that lead to it
      from the PML4, and the table that points to it. Only specifications look at roles. */
  datatype Role = Unused | Kernel | Data | Table(owner: nat, path: seq<nat>, parent: nat)

  /** The memory state. `role` and `free` are bookkeeping for the specification: `free` is the list that
      `head` and `next` represent, and no kernel step reads either of them. */
  datatype Machine = Machine(
    mem: seq<Frame>,
    next: seq<Option<nat>>,
    refs: seq<nat>,
    head: Option<nat>,
    tail: nat,
    kroot: nat,
    role: seq<Role>,
    free: seq<nat>)

  predicate Sized(m: Machine) {
    && |m.next| == |m.mem|
    && |m.refs| == |m.mem|
    && |m.role| == |m.mem|
    && m.tail < |m.mem|
  }

  /** `free` is exactly the list that starts at `head`; the frames on it are unused. */
  ghost predicate ListOk(m: Machine)
    requires Sized(m)
  {
    && m.head == LinkAt(m.free, 0)
    && Distinct(m.free)
    && Chained(m.next, m.free)
    && forall i :: 0 <= i < |m.free| ==> m.free[i] < |m.mem| && m.role[m.free[i]] == Unused
  }

  /** A frame is unused exactly when its count is zero; a table is referenced once. */
  ghost predicate CountsOk(m: Machine)
    requires Sized(m)
  {
    forall f :: 0 <= f < |m.mem| ==>
                  (m.role[f] == Unused <==> m.refs[f] == 0) && (m.role[f].Table? ==> m.refs[f] == 1)
  }

  ghost predicate AllocatorOk(m: Machine) {
    Sized(m) && ListOk(m) && CountsOk(m)
  }

  /** page_alloc, kmalloc and fetch_free_page change the state in the same way; they differ only in whether
      they return the frame's virtual or physical address. */
  function Take(m: Machine, r: Role): Machine
    requires m.head.Some? && m.head.value < |m.mem| == |m.refs| == |m.next| == |m.role|
  {
    var h := m.head.value;
    m.(mem := m.mem[h := ZeroFrame()],
       refs := m.refs[h := 1],
       head := m.next[h],
       role := m.role[h := r],
       free := if m.free == [] then [] else m.free[1..])
  }

  function IndexOf(xs: seq<nat>, x: nat): (i: nat)
    requires x in xs
    ensures i < |xs| && xs[i] == x
  {
    if xs[0] == x then 0 else 1 + IndexOf(xs[1..], x)
  }

  /** The list after add_to_free_pages: the new frame hangs off the tail pointer, and whatever used to follow
      the tail is cut off. When the tail frame itself has left the list, nothing is added. */
  function Relinked(free: seq<nat>, tail: nat, f: nat): seq<nat> {
    if tail in free then free[..IndexOf(free, tail) + 1] + [f] else free
  }

  function AddToFreePages(m: Machine, f: nat): Machine
    requires f < |m.next| && m.tail < |m.next|
  {
    m.(next := m.next[m.tail := Some(f)][f := None], free := Relinked(m.free, m.tail, f))
  }

  function FreePage(m: Machine, f: nat): Machine
    requires f < |m.mem| == |m.refs| == |m.next| == |m.role| && m.tail < |m.next|
  {
    if m.refs[f] > 1 then
      m.(refs := m.refs[f := m.refs[f] - 1])
    else
      AddToFreePages(m.(refs := m.refs[f := 0], mem := m.mem[f := ZeroFrame()], role := m.role[f := Unused]), f)
  }

  /** Any allocation hands out a frame nobody uses, zeroed, and keeps the allocator consistent. */
  lemma TakeOk(m: Machine, r: Role)
    requires AllocatorOk(m) && m.free != [] && r != Unused
    ensures m.head == Some(m.free[0]) && m.free[0] < |m.mem|
    ensures m.role[m.free[0]] == Unused && m.refs[m.free[0]] == 0
    ensures var m' := Take(m, r); AllocatorOk(m') && m'.free == m.free[1..] && m'.mem[m.free[0]] == ZeroFrame()
  {
    var m' := Take(m, r);
    var h := m.free[0];
    assert m.role[h] == Unused;
    assert LinkedAt(m.next, m.free, 0);
    forall i | 0 <= i < |m'.free|
      ensures LinkedAt(m'.next, m'.free, i)
      ensures m'.free[i] < |m'.mem| && m'.role[m'.free[i]] == Unused
    {
      assert LinkedAt(m.next, m.free, i + 1);
      assert m'.free[i] == m.free[i + 1];
    }
  }

  /** The frame handed out is counted once and wiped; no other frame changes. */
  lemma TakeEffect(m: Machine, r: Role)
    requires AllocatorOk(m) && m.free != []
    ensures m.head == Some(m.free[0]) && m.free[0] < |m.mem|
    ensures var h, m' := m.free[0], Take(m, r);
            && |m'.mem| == |m'.refs| == |m'.role| == |m.mem| && m'.head == LinkAt(m.free, 1) && m'.free == m.free[1..]
            && m'.refs[h] == 1 && m'.role[h] == r && (forall i :: 0 <= i < 512 ==> m'.mem[h][i] == ZERO_WORD)
            && forall x :: 0 <= x < |m.mem| && x != h ==>
                 m'.mem[x] == m.mem[x] && m'.refs[x] == m.refs[x] && m'.role[x] == m.role[x]
  {
    assert LinkedAt(m.next, m.free, 0) && m.role[m.free[0]] == Unused;
  }

  lemma RelinkedChained(next: seq<Option<nat>>, free: seq<nat>, tail: nat, f: nat)
    requires Chained(next, free) && Distinct(free) && tail < |next| && f < |next| && f !in free
    ensures var free' := Relinked(free, tail, f);
            && Chained(next[tail := Some(f)][f := None], free') && Distinct(free')
            && LinkAt(free', 0) == LinkAt(free, 0)
            && forall x :: x in free' ==> x in free || x == f
  {
    if tail in free {
      CutAtTail(next, free, IndexOf(free, tail), f);
    } else {
      var next' := next[tail := Some(f)][f := None];
      forall i | 0 <= i < |free|
        ensures LinkedAt(next', free, i)
      {
        assert LinkedAt(next, free, i) && free[i] != tail;
      }
    }
  }

  lemma CutAtTail(next: seq<Option<nat>>, free: seq<nat>, t: nat, f: nat)
    requires Chained(next, free) && Distinct(free) && t < |free| && free[t] < |next| && f < |next| && f !in free
    ensures var free' := free[..t + 1] + [f];
            && Chained(next[free[t] := Some(f)][f := None], free') && Distinct(free')
            && LinkAt(free', 0) == LinkAt(free, 0)
            && forall x :: x in free' ==> x in free || x == f
  {
    var next', free' := next[free[t] := Some(f)][f := None], free[..t + 1] + [f];
    forall i | 0 <= i < |free'|
      ensures LinkedAt(next', free', i)
    {
      if i <= t {
        assert LinkedAt(next, free, i);
        assert free'[i] == free[i];
      }
    }
  }

  /** Releasing a reference to a frame in use: the count drops, or the frame leaves use and the list is relinked. */
  lemma FreePageOk(m: Machine, f: nat)
    requires AllocatorOk(m) && f < |m.mem| && m.role[f] != Unused
    ensures AllocatorOk(FreePage(m, f))
  {
    assert f !in m.free;
    if m.refs[f] <= 1 {
      RelinkedChained(m.next, m.free, m.tail, f);
      var m' := FreePage(m, f);
      forall i | 0 <= i < |m'.free|
        ensures m'.free[i] < |m'.mem| && m'.role[m'.free[i]] == Unused
      {
        assert m'.free[i] in m'.free;
      }
    }
  }

  /** free_page drops one reference, and with the last one wipes the frame; it changes no other frame. */
  lemma FreePageEffect(m: Machine, f: nat)
    requires Sized(m) && f < |m.mem|
    ensures var m' := FreePage(m, f);
            && Sized(m') && |m'.mem| == |m.mem|
            && (if m.refs[f] > 1 then m'.refs[f] == m.refs[f] - 1 && m'.mem[f] == m.mem[f] && m'.role[f] == m.role[f]
                else m'.refs[f] == 0 && m'.role[f] == Unused && forall i :: 0 <= i < 512 ==> m'.mem[f][i] == ZERO_WORD)
            && forall x :: 0 <= x < |m.mem| && x != f ==>
                 m'.mem[x] == m.mem[x] && m'.refs[x] == m.refs[x] && m'.role[x] == m.role[x]
  {
  }

  /** The tail pointer designates the last frame of the list: what a caller can read off `free_page_end`. */
  ghost predicate TailIsLast(m: Machine)
    requires Sized(m)
  {
    m.tail in m.free && m.next[m.tail] == None
  }

  function Elements(xs: seq<nat>): set<nat> {
    set x | x in xs
  }

  /** Reclaiming a frame keeps all the frames that were on the list and adds the new one if and only if the tail
      pointer is the end of the list. add_to_free_pages never moves it, so this is exact, not a safe bound. */
  lemma ReclaimConservesIff(m: Machine, f: nat)
    requires AllocatorOk(m) && f < |m.mem| && m.refs[f] == 1
    ensures Elements(FreePage(m, f).free) == Elements(m.free) + {f} <==> TailIsLast(m)
  {
    var m' := FreePage(m, f);
    assert f !in m.free;
    if m.tail in m.free {
      var t := IndexOf(m.free, m.tail);
      assert LinkedAt(m.next, m.free, t);
      if t + 1 == |m.free| {
        assert m'.free == m.free + [f];
      } else {
        var lost := m.free[t + 1];
        assert lost in m.free;
        assert lost !in m'.free;
        assert lost in Elements(m.free) + {f} && lost !in Elements(m'.free);
      }
    } else {
      assert f in Elements(m.free) + {f} && f !in Elements(m'.free);
    }
  }

  datatype FrameOp = AllocOp | FreeOp(frame: nat)

  /** An allocation needs a list that is not empty, a release a frame that is in use. */
  predicate CanApply(m: Machine, op: FrameOp) {
    Sized(m) && match op
      case AllocOp => m.head.Some? && m.head.value < |m.mem|
      case FreeOp(f) => f < |m.mem| && m.role[f] != Unused
  }

  function Apply(m: Machine, op: FrameOp): Machine
    requires CanApply(m, op)
  {
    match op
    case AllocOp => Take(m, Kernel)
    case FreeOp(f) => FreePage(m, f)
  }

  predicate CanRun(m: Machine, ops: seq<FrameOp>)
    decreases |ops|
  {
    ops == [] || (CanApply(m, ops[0]) && CanRun(Apply(m, ops[0]), ops[1..]))
  }

  function RunOps(m: Machine, ops: seq<FrameOp>): Machine
    requires CanRun(m, ops)
    decreases |ops|
  {
    if ops == [] then m else RunOps(Apply(m, ops[0]), ops[1..])
  }

  lemma ApplyOk(m: Machine, op: FrameOp)
    requires AllocatorOk(m) && CanApply(m, op)
    ensures AllocatorOk(Apply(m, op))
  {
    match op {
      case AllocOp => TakeOk(m, Kernel);
      case FreeOp(f) => FreePageOk(m, f);
    }
  }

  /** Every run of allocations and releases keeps the allocator consistent, whatever became of the tail pointer. */
  lemma {:induction false} RunKeepsAllocator(m: Machine, ops: seq<FrameOp>)
    requires AllocatorOk(m) && CanRun(m, ops)
    ensures AllocatorOk(RunOps(m, ops))
    decreases |ops|
  {
    if ops != [] {
      ApplyOk(m, ops[0]);
      RunKeepsAllocator(Apply(m, ops[0]), ops[1..]);
    }
  }

  /** Once the tail pointer is not the end of the list, no run of allocations and releases ever repairs it. */
  lemma {:induction false} TailStaysStale(m: Machine, ops: seq<FrameOp>)
    requires AllocatorOk(m) && !TailIsLast(m) && CanRun(m, ops)
    ensures AllocatorOk(RunOps(m, ops)) && !TailIsLast(RunOps(m, ops))
    decreases |ops|
  {
    if ops != [] {
      var m' := Apply(m, ops[0]);
      ApplyOk(m, ops[0]);
      match ops[0] {
        case AllocOp =>
        case FreeOp(f) =>
          if m.refs[f] == 1 {
            ReclaimLeavesTailStale(m, f);
          }
      }
      assert !TailIsLast(m');
      TailStaysStale(m', ops[1..]);
    }
  }

  lemma ReclaimLeavesTailStale(m: Machine, f: nat)
    requires AllocatorOk(m) && f < |m.mem| && m.refs[f] == 1
    ensures Sized(FreePage(m, f)) && !TailIsLast(FreePage(m, f))
  {
    assert f !in m.free;
    var m' := FreePage(m, f);
    if m.tail in m'.free {
      assert m.tail in m.free;
      assert m'.next[m.tail] == Some(f);
    }
  }

  /** So at most one reclaimed frame ever reaches the list: after the first reclaim, and any run after it, every
      further reclaim loses a frame. */
  lemma OnlyFirstReclaimConserves(m: Machine, f: nat, ops: seq<FrameOp>, g: nat)
    requires AllocatorOk(m) && f < |m.mem| && m.refs[f] == 1
    requires CanRun(FreePage(m, f), ops)
    requires var m1 := RunOps(FreePage(m, f), ops); g < |m1.mem| == |m1.refs| && m1.refs[g] == 1
    ensures var m1 := RunOps(FreePage(m, f), ops);
            AllocatorOk(m1) && Elements(FreePage(m1, g).free) != Elements(m1.free) + {g}
  {
    FreePageOk(m, f);
    ReclaimLeavesTailStale(m, f);
    TailStaysStale(FreePage(m, f), ops);
    ReclaimConservesIff(RunOps(FreePage(m, f), ops), g);
  }
}
