/** The inference arena and its exact plans (src/foundation.inc:567-640, jb.c:5975-6089, jb.c:6269-6276). */
module Arena {
  const ALIGNMENT := 64

  function AlignUp(n: nat): (r: nat)
    ensures n <= r < n + ALIGNMENT && r % ALIGNMENT == 0
  {
    (n + (ALIGNMENT - 1)) / ALIGNMENT * ALIGNMENT
  }

  /** One step of a plan: a block of `bytes` behind what is already used. */
  function PlanAdd(used: nat, bytes: nat): nat {
    AlignUp(used) + bytes
  }

  /** The bytes used once blocks of these sizes have been placed one after the other. */
  function PlanFrom(used: nat, sizes: seq<nat>): nat
    decreases |sizes|
  {
    if sizes == [] then used else PlanFrom(PlanAdd(used, sizes[0]), sizes[1..])
  }

  function Max(a: nat, b: nat): nat {
    if a > b then a else b
  }

  lemma AlignShift(base: nat, n: nat)
    requires base % ALIGNMENT == 0
    ensures AlignUp(base + n) == base + AlignUp(n)
  {
    var k := base / ALIGNMENT;
    assert base == k * ALIGNMENT;
    assert (base + n + 63) / 64 == k + (n + 63) / 64;
  }

  lemma AlignMonotone(a: nat, b: nat)
    requires a <= b
    ensures AlignUp(a) <= AlignUp(b)
  {
  }

  /** A plan made from an aligned base is the plan made from zero, moved by the base. */
  lemma {:induction false} PlanShift(base: nat, used: nat, sizes: seq<nat>)
    requires base % ALIGNMENT == 0
    ensures PlanFrom(base + used, sizes) == base + PlanFrom(used, sizes)
    decreases |sizes|
  {
    if sizes != [] {
      AlignShift(base, used);
      PlanShift(base, PlanAdd(used, sizes[0]), sizes[1..]);
    }
  }

  /** Larger blocks from a later start need at least as much. */
  lemma {:induction false} PlanMonotone(a: nat, b: nat, x: seq<nat>, y: seq<nat>)
    requires a <= b && |x| == |y| && forall i | 0 <= i < |x| :: x[i] <= y[i]
    ensures PlanFrom(a, x) <= PlanFrom(b, y)
    decreases |x|
  {
    if x != [] {
      AlignMonotone(a, b);
      PlanMonotone(PlanAdd(a, x[0]), PlanAdd(b, y[0]), x[1..], y[1..]);
    }
  }

  lemma {:induction false} PlanGrows(used: nat, sizes: seq<nat>)
    ensures used <= PlanFrom(used, sizes)
    decreases |sizes|
  {
    if sizes != [] {
      PlanGrows(PlanAdd(used, sizes[0]), sizes[1..]);
    }
  }

  lemma {:induction false} PlanConcat(used: nat, x: seq<nat>, y: seq<nat>)
    ensures PlanFrom(used, x + y) == PlanFrom(PlanFrom(used, x), y)
    decreases |x|
  {
    if x == [] {
      assert x + y == y;
    } else {
      assert (x + y)[1..] == x[1..] + y;
      PlanConcat(PlanAdd(used, x[0]), x[1..], y);
    }
  }

  /** Two neighbouring blocks may be swapped when one has an aligned size and another block follows: the padding moves
      with the other one. */
  lemma PlanSwap(used: nat, odd: nat, even: nat, rest: seq<nat>)
    requires even % ALIGNMENT == 0 && rest != []
    ensures PlanFrom(used, [odd, even] + rest) == PlanFrom(used, [even, odd] + rest)
  {
    hide AlignUp;
    var a := AlignUp(used);
    PlanTwo(used, odd, even, rest);
    PlanTwo(used, even, odd, rest);
    AlignShift(a, odd);
    AlignShift(a, even);
    AlignedIs(even);
    AlignShift(a + even, odd);
    AlignShift(a + even, AlignUp(odd));
    AlignedIs(AlignUp(odd));
    SameAlignment(a + AlignUp(odd) + even, a + even + odd, rest);
  }

  lemma AlignedIs(n: nat)
    requires n % ALIGNMENT == 0
    ensures AlignUp(n) == n
  {
  }

  lemma AlignedSum(a: nat, b: nat)
    requires a % ALIGNMENT == 0 && b % ALIGNMENT == 0
    ensures (a + b) % ALIGNMENT == 0
  {
    assert a + b == (a / 64 + b / 64) * 64;
  }

  lemma SameAlignment(x: nat, y: nat, rest: seq<nat>)
    requires AlignUp(x) == AlignUp(y) && rest != []
    ensures PlanFrom(x, rest) == PlanFrom(y, rest)
  {
  }

  lemma PlanTwo(used: nat, x: nat, y: nat, rest: seq<nat>)
    ensures PlanFrom(used, [x, y] + rest) == PlanFrom(AlignUp(AlignUp(used) + x) + y, rest)
  {
    assert ([x, y] + rest)[1..] == [y] + rest && ([y] + rest)[1..] == rest;
  }

  lemma AlignIdempotent(n: nat)
    ensures AlignUp(AlignUp(n)) == AlignUp(n)
  {
  }

  // ----- the arena

  /** A live block: its offset from the 64-byte aligned base, and the offset after it. */
  datatype Block = Block(start: nat, end: nat)

  class JbArena {
    var size: nat
    var used: nat
    var peak: nat
    ghost var live: seq<Block>

    /** Live blocks are aligned, in bounds, and lie one after the other. */
    ghost predicate Valid()
      reads this
    {
      && used <= peak <= size
      && (forall i | 0 <= i < |live| :: live[i].start % ALIGNMENT == 0 && live[i].start <= live[i].end <= used)
      && (forall i, j | 0 <= i < j < |live| :: live[i].end <= live[j].start)
    }

    constructor (size: nat)
      ensures Valid() && this.size == size && used == peak == 0 && live == []
    {
      this.size, used, peak, live := size, 0, 0, [];
    }

    /** A new block, if the arena was planned large enough, and its offset. */
    method Alloc(count: nat, elementSize: nat) returns (ok: bool, start: nat)
      requires Valid()
      modifies this
      ensures Valid() && size == old(size)
      ensures ok <==> PlanAdd(old(used), count * elementSize) <= size
      ensures ok ==> used == PlanAdd(old(used), count * elementSize) && peak == Max(old(peak), used)
      ensures ok ==> start == AlignUp(old(used)) && live == old(live) + [Block(start, used)]
      ensures !ok ==> unchanged(this)
    {
      start := AlignUp(used);
      var end := start + count * elementSize;
      if end > size {
        return false, start;
      }
      used := end;
      if end > peak {
        peak := end;
      }
      live := live + [Block(start, end)];
      ok := true;
    }

    /** Forgets every block that reaches past `mark`, and keeps exactly the others. */
    method Reset(mark: nat)
      requires Valid() && mark <= used
      modifies this`used, this`live
      ensures Valid() && used == mark
      ensures |live| <= |old(live)| && live == old(live)[..|live|]
      ensures forall i | 0 <= i < |old(live)| :: i < |live| <==> old(live)[i].end <= mark
    {
      used := mark;
      ghost var n := 0;
      while n < |live| && live[n].end <= mark
        invariant n <= |live| && forall i | 0 <= i < n :: live[i].end <= mark
      {
        n := n + 1;
      }
      live := live[..n];
    }

    /** Places blocks of these sizes one after the other in an arena with room for all of them. */
    method AllocAll(sizes: seq<nat>)
      requires Valid() && PlanFrom(used, sizes) <= size
      modifies this
      ensures Valid() && size == old(size) && used == PlanFrom(old(used), sizes) && peak == Max(old(peak), used)
    {
      for i := 0 to |sizes|
        invariant Valid() && size == old(size) && PlanFrom(used, sizes[i..]) == PlanFrom(old(used), sizes)
        invariant peak == Max(old(peak), used)
      {
        assert sizes[i..][1..] == sizes[i + 1..];
        PlanGrows(PlanAdd(used, sizes[i]), sizes[i + 1..]);
        var ok, start := Alloc(sizes[i], 1);
      }
    }
  }
}
