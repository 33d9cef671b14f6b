/** The tracked allocation list, error frames and cleanup stack of one thread (src/foundation.inc:351-564). Every
    operation takes the step of Frames.Step that carries its name. */
module Allocations {
  import opened Frames
  import opened FrameRuns

  /** A block's header. */
  class Allocation {
    var previous: Allocation?
    var next: Allocation?
    var sequence: nat
    var tracked: bool
    var size: nat

    constructor (sequence: nat, tracked: bool, size: nat)
      ensures this.sequence == sequence && this.tracked == tracked && this.size == size && previous == null
        && next == null
    {
      this.previous, this.next, this.sequence, this.tracked, this.size := null, null, sequence, tracked, size;
    }
  }

  ghost function Ids(list: seq<Allocation>): (r: seq<nat>)
    reads list
    ensures |r| == |list| && forall i | 0 <= i < |list| :: r[i] == list[i].sequence
  {
    seq(|list|, i requires 0 <= i < |list| reads list => list[i].sequence)
  }

  /** `list` is the doubly linked list that starts at `head`. */
  ghost predicate Chain(list: seq<Allocation>, head: Allocation?)
    reads list
  {
    && (if list == [] then head == null
        else head == list[0] && list[0].previous == null && list[|list| - 1].next == null)
    && (forall i, j {:trigger list[i], list[j]} | 0 <= i < j < |list| && j == i + 1 ::
          list[i].next == list[j] && list[j].previous == list[i])
    && (forall i, j | 0 <= i < j < |list| :: list[i] != list[j])
  }

  function Cut<T>(s: seq<T>, i: nat): (r: seq<T>)
    requires i < |s|
    ensures |r| == |s| - 1 && forall j | 0 <= j < |r| :: r[j] == s[if j < i then j else j + 1]
  {
    s[..i] + s[i + 1..]
  }

  /** Removing an id that occurs once is cutting it out where it is. */
  lemma {:induction false} WithoutIsCut(s: seq<nat>, i: nat)
    requires Distinct(s) && i < |s|
    ensures Without(s, s[i]) == Cut(s, i)
  {
    hide Distinct;
    DistinctTail(s);
    if i == 0 {
      assert Cut(s, 0) == s[1..];
      assert Without(s, s[0]) == [] + Without(s[1..], s[0]);
    } else {
      WithoutIsCut(s[1..], i - 1);
      assert s[1..][i - 1] == s[i] && s[i] in s[1..];
      assert [s[0]] + Cut(s[1..], i - 1) == Cut(s, i);
    }
  }

  lemma ChainNeighbours(list: seq<Allocation>, head: Allocation?, i: nat)
    requires Chain(list, head) && i < |list|
    ensures list[i].previous == (if i > 0 then list[i - 1] else null)
    ensures list[i].next == (if i + 1 < |list| then list[i + 1] else null)
    ensures i == 0 ==> head == list[0]
  {
    if i > 0 {
      assert list[i - 1] != list[i];
    }
    if i + 1 < |list| {
      assert list[i] != list[i + 1];
    }
  }

  class Thread {
    var head: Allocation?
    var counter: nat
    var frames: seq<Frame>
    var status: Status
    var cleanups: seq<nat>
    var exited: bool
    ghost var list: seq<Allocation>
    ghost var untracked: set<nat>
    ghost var freed: seq<nat>
    ghost var armed: multiset<nat>
    ghost var disarmed: multiset<nat>
    ghost var ran: seq<nat>

    ghost function Nodes(): (r: set<Allocation>)
      reads this`list
      ensures forall a | a in list :: a in r
      ensures forall a | a in r :: a in list
    {
      set a | a in list
    }

    ghost function Abs(): State
      reads this, list
    {
      State(counter, Ids(list), untracked, freed, frames, status, cleanups, armed, disarmed, ran, exited)
    }

    ghost predicate Valid()
      reads this, list
    {
      Chain(list, head) && (forall a | a in list :: a.tracked) && Inv(Abs())
    }

    constructor ()
      ensures Valid() && Abs() == START
    {
      head, counter, frames, status, cleanups, exited := null, 0, [], 0, [], false;
      list, untracked, freed, armed, disarmed, ran := [], {}, [], multiset{}, multiset{}, [];
    }

    /** A live block: on the list if it is tracked, and otherwise known to be live. */
    ghost predicate Owns(a: Allocation)
      reads this, a
    {
      if a.tracked then a in list else a.sequence in untracked
    }

    method Link(a: Allocation)
      requires Chain(list, head) && a !in list
      modifies this`head, this`list, a`previous, a`next, Nodes()`previous
      ensures Chain(list, head) && list == [a] + old(list)
    {
      a.previous := null;
      a.next := head;
      if head != null {
        head.previous := a;
      }
      head := a;
      list := [a] + list;
    }

    method Unlink(a: Allocation, ghost i: nat)
      requires Chain(list, head) && i < |list| && list[i] == a
      modifies this`head, this`list, Nodes()`previous, Nodes()`next
      ensures Chain(list, head) && list == Cut(old(list), i)
      ensures a.next == old(a.next) && a.previous == old(a.previous)
    {
      ChainNeighbours(list, head, i);
      if a.previous != null {
        a.previous.next := a.next;
      } else {
        head := a.next;
      }
      if a.next != null {
        a.next.previous := a.previous;
      }
      list := Cut(list, i);
    }

    // ----- frames

    method Enter(entry: Status)
      requires Valid() && !exited
      modifies this`frames, this`status
      ensures Valid() && Abs() == Step(old(Abs()), Op.Enter(entry))
    {
      StepKeepsInv(Abs(), Op.Enter(entry));
      frames := frames + [Frame(counter, |cleanups|, status)];
      status := entry;
    }

    /** Runs the top frame's cleanups, last one first. */
    method CleanupRun()
      requires frames != [] && Top(Abs()).cleanupMark <= |cleanups|
      modifies this`cleanups, this`ran
      ensures Abs() == Cleaned(old(Abs()))
    {
      hide Inv;
      var mark := frames[|frames| - 1].cleanupMark;
      ghost var first, all := ran, cleanups;
      while |cleanups| > mark
        invariant mark <= |cleanups| <= |all| && cleanups == all[..|cleanups|]
        invariant ran + Reverse(cleanups[mark..]) == first + Reverse(all[mark..])
      {
        var n := |cleanups| - 1;
        ReverseLast(cleanups, mark);
        ran := ran + [cleanups[n]];
        cleanups := cleanups[..n];
      }
      assert cleanups[mark..] == [];
    }

    /** Releases the block at index `i` of the list if it is newer than `mark`. */
    method Visit(a: Allocation, mark: nat, ghost i: nat, ghost nodes: set<Allocation>)
      requires Chain(list, head) && i < |list| && list[i] == a && forall x | x in list :: x in nodes
      modifies this`head, this`list, this`freed, nodes`previous, nodes`next
      ensures Chain(list, head)
      ensures list == if a.sequence > mark then Cut(old(list), i) else old(list)
      ensures freed == old(freed) + if a.sequence > mark then [a.sequence] else []
    {
      if a.sequence > mark {
        Unlink(a, i);
        freed := freed + [a.sequence];
      }
    }

    /** Unlinks and releases every block allocated since the top frame's mark. */
    method Sweep(ghost nodes: set<Allocation>)
      requires Chain(list, head) && (forall a | a in list :: a.tracked && a in nodes) && frames != []
      modifies this`head, this`list, this`freed, nodes`previous, nodes`next
      ensures Chain(list, head) && (forall a | a in list :: a.tracked && a in nodes) && Abs() == Swept(old(Abs()))
    {
      hide Chain, UpTo, Above;
      SweepAbove(frames[|frames| - 1].mark, nodes);
    }

    /** Halfway through the walk: the list is the nodes kept so far, then those of the old list from index `j` on. */
    ghost predicate Sweeping(was: seq<Allocation>, ids: seq<nat>, kept: seq<Allocation>, j: nat, nodes: set<Allocation>)
      reads this, list, was
    {
      && j <= |was| == |ids| && Chain(list, head) && list == kept + was[j..]
      && (forall x | x in list :: x in nodes)
      && (forall k | 0 <= k < |was| :: was[k].sequence == ids[k] && was[k].tracked)
    }

    /** One node of the walk. */
    method SweepTurn(a: Allocation, mark: nat, ghost was: seq<Allocation>, ghost ids: seq<nat>,
                     ghost kept: seq<Allocation>,
                     ghost j: nat, ghost nodes: set<Allocation>)
                     returns (next: Allocation?, ghost kept': seq<Allocation>)
      requires Sweeping(was, ids, kept, j, nodes) && j < |was| && a == was[j]
      modifies this`head, this`list, this`freed, nodes`previous, nodes`next
      ensures Sweeping(was, ids, kept', j + 1, nodes) && next == if j + 1 < |was| then was[j + 1] else null
      ensures KeptFrom(kept', was, ids, j + 1, mark) == KeptFrom(kept, was, ids, j, mark)
      ensures FreedFrom(freed, ids, j + 1, mark) == FreedFrom(old(freed), ids, j, mark)
    {
      hide Chain, KeptFrom, FreedFrom;
      assert list[|kept|] == was[j];
      NextOf(list, head, |kept|);
      next := a.next;
      SweepStep(was, ids, kept, j, mark, freed);
      ghost var linked := list;
      Visit(a, mark, |kept|, nodes);
      kept' := if ids[j] <= mark then kept + [was[j]] else kept;
      assert list == kept' + was[j + 1..];
      assert forall x | x in list :: x in linked;
    }

    /** Walks the list once, releasing every block newer than `mark`. */
    method SweepAbove(mark: nat, ghost nodes: set<Allocation>)
      requires Chain(list, head) && forall a | a in list :: a.tracked && a in nodes
      modifies this`head, this`list, this`freed, nodes`previous, nodes`next
      ensures Chain(list, head) && (forall a | a in list :: a.tracked && a in nodes)
      ensures Ids(list) == UpTo(old(Ids(list)), mark) && freed == old(freed) + Above(old(Ids(list)), mark)
    {
      hide Chain, KeptFrom, FreedFrom, UpTo, Above, Sweeping, Ids;
      StartSweeping(nodes);
      var a := head;
      ghost var was, ids := list, Ids(list);
      ghost var kept: seq<Allocation> := [];
      ghost var j := 0;
      HeadOf(list, head);
      SweepBounds(was, ids, mark, [], freed);
      while a != null
        invariant 0 <= j <= |was| && Sweeping(was, ids, kept, j, nodes) && a == if j < |was| then was[j] else null
        invariant KeptFrom(kept, was, ids, j, mark) == KeptNodes(was, ids, mark)
        invariant FreedFrom(freed, ids, j, mark) == old(freed) + Above(ids, mark)
        decreases |was| - j
      {
        a, kept := SweepTurn(a, mark, was, ids, kept, j, nodes);
        j := j + 1;
      }
      SweepBounds(was, ids, mark, kept, freed);
      KeptIds(was, ids, mark);
      EndSweeping(was, ids, kept, nodes);
    }

    lemma StartSweeping(nodes: set<Allocation>)
      requires Chain(list, head) && forall a | a in list :: a.tracked && a in nodes
      ensures Sweeping(list, Ids(list), [], 0, nodes) && |Ids(list)| == |list|
    {
      hide Chain;
    }

    lemma EndSweeping(was: seq<Allocation>, ids: seq<nat>, kept: seq<Allocation>, nodes: set<Allocation>)
      requires Sweeping(was, ids, kept, |was|, nodes)
      ensures Chain(list, head) && list == kept && |was| == |ids|
    {
      hide Chain;
    }

    /** Halfway through handing the blocks over: those from index `j` on are still linked. */
    ghost predicate Handing(was: seq<Allocation>, ids: seq<nat>, j: nat, nodes: set<Allocation>)
      reads this, was
    {
      && j <= |was| == |ids| && list == was[j..] && head == (if j < |was| then was[j] else null)
      && (forall k | j <= k < |was| :: was[k].next == if k + 1 < |was| then was[k + 1] else null)
      && (forall k | 0 <= k < |was| :: was[k] in nodes && was[k].sequence == ids[k])
      && (forall k, i | 0 <= k < i < |was| :: was[k] != was[i])
      && (forall k | 0 <= k < j :: !was[k].tracked)
    }

    method HandOne(ghost was: seq<Allocation>, ghost ids: seq<nat>, ghost j: nat, ghost nodes: set<Allocation>)
      requires Handing(was, ids, j, nodes) && head != null
      modifies this`head, this`list, this`untracked, nodes`previous, nodes`next, nodes`tracked
      ensures Handing(was, ids, j + 1, nodes) && untracked == old(untracked) + {ids[j]}
    {
      var a := head;
      head := a.next;
      a.tracked := false;
      a.previous := null;
      a.next := null;
      untracked := untracked + {a.sequence};
      list := list[1..];
    }

    lemma StartHanding(nodes: set<Allocation>)
      requires Chain(list, head) && forall a | a in list :: a in nodes
      ensures Handing(list, Ids(list), 0, nodes)
    {
      HeadOf(list, head);
      forall k | 0 <= k < |list|
        ensures list[k].next == if k + 1 < |list| then list[k + 1] else null
      {
        NextOf(list, head, k);
      }
    }

    /** Leaving the outermost frame: every block still on the list belongs to its owner from now on. */
    method HandOver(ghost nodes: set<Allocation>)
      requires Chain(list, head) && forall a | a in list :: a in nodes
      modifies this`head, this`list, this`untracked, nodes`previous, nodes`next, nodes`tracked
      ensures list == [] && head == null && untracked == old(untracked) + SetOf(old(Ids(list)))
      ensures forall a | a in old(list) :: !a.tracked
    {
      hide Chain;
      ghost var was, ids := list, Ids(list);
      ghost var j := 0;
      StartHanding(nodes);
      while head != null
        invariant Handing(was, ids, j, nodes) && untracked == old(untracked) + SetOf(ids[..j])
        decreases |was| - j
      {
        HandOne(was, ids, j, nodes);
        assert SetOf(ids[..j + 1]) == SetOf(ids[..j]) + {ids[j]};
        j := j + 1;
      }
      assert ids[..j] == ids;
    }

    /** Pops the top frame and restores the status it found. */
    method PopFrame(ghost nodes: set<Allocation>)
      requires Chain(list, head) && (forall a | a in list :: a.tracked && a in nodes) && frames != []
      modifies this`head, this`list, this`untracked, this`frames, this`status, nodes`previous, nodes`next, nodes`tracked
      ensures Chain(list, head) && (forall a | a in list :: a.tracked) && Abs() == Popped(old(Abs()))
    {
      hide Chain;
      var f := frames[|frames| - 1];
      frames := frames[..|frames| - 1];
      status := f.previousStatus;
      if frames == [] {
        HandOver(nodes);
        EmptyChain();
      }
    }

    lemma EmptyChain()
      requires list == [] && head == null
      ensures Chain(list, head)
    {
    }

    /** Failed return: cleanups run, newer blocks go, the frame is popped. */
    method AbandonTop()
      requires Valid() && !exited && frames != []
      modifies this, Nodes()
      ensures Valid() && Abs() == Popped(Swept(Cleaned(old(Abs())))) && !exited
    {
      hide Inv, Cleaned, Swept, Popped, Chain;
      AbandonmentKeepsInv(Abs());
      ghost var nodes := Nodes();
      CleanupRun();
      SweepFrames(Abs());
      Sweep(nodes);
      PopFrame(nodes);
    }

    method Abandon()
      requires Valid() && !exited && frames != []
      modifies this, Nodes()
      ensures Valid() && Abs() == Step(old(Abs()), Op.Abandon)
    {
      hide Inv, Cleaned, Swept, Popped, Chain;
      AbandonTop();
    }

    /** A failure: the process exits without a frame, and otherwise control returns to the top one, which is
        abandoned. */
    method Die(code: Status)
      requires Valid() && !exited
      modifies this, Nodes()
      ensures Valid() && Abs() == Step(old(Abs()), Op.Die(code))
    {
      hide Inv;
      StepKeepsInv(Abs(), Op.Die(code));
      StatusKeeps(Abs(), code);
      status := code;
      if frames == [] {
        exited := true;
      } else {
        AbandonTop();
      }
    }

    /** Successful return; an armed cleanup is a failure of the frame itself. */
    method Leave()
      requires Valid() && !exited && frames != []
      modifies this, Nodes()
      ensures Valid() && Abs() == Step(old(Abs()), Op.Leave)
    {
      hide Inv, Cleaned, Swept, Popped, Chain;
      StepKeepsInv(Abs(), Op.Leave);
      if |cleanups| != frames[|frames| - 1].cleanupMark {
        StatusKeeps(Abs(), INTERNAL);
        status := INTERNAL;
        AbandonTop();
      } else {
        PopFrame(Nodes());
      }
    }

    // ----- cleanups

    method CleanupPush(frame: nat, cleanup: nat)
      requires Valid() && !exited
      modifies this, Nodes()
      ensures Valid() && Abs() == Step(old(Abs()), Op.Push(frame, cleanup))
    {
      hide Inv, Failed, Chain;
      StepKeepsInv(Abs(), Op.Push(frame, cleanup));
      if frames == [] || frame != |frames| || |cleanups| - frames[|frames| - 1].cleanupMark >= CLEANUP_MAX
         || |cleanups| >= CLEANUP_STACK_MAX {
        Die(INTERNAL);
      } else {
        cleanups := cleanups + [cleanup];
        armed := armed + multiset{cleanup};
      }
    }

    method CleanupDisarm(frame: nat, cleanup: nat)
      requires Valid() && !exited
      modifies this, Nodes()
      ensures Valid() && Abs() == Step(old(Abs()), Op.Disarm(frame, cleanup))
    {
      hide Inv, Failed, Chain;
      StepKeepsInv(Abs(), Op.Disarm(frame, cleanup));
      if frames == [] || frame != |frames| || |cleanups| == frames[|frames| - 1].cleanupMark {
        Die(INTERNAL);
        return;
      }
      CleanupsPresent(Abs());
      if cleanups[|cleanups| - 1] != cleanup {
        Die(INTERNAL);
        return;
      }
      cleanups := cleanups[..|cleanups| - 1];
      disarmed := disarmed + multiset{cleanup};
    }

    // ----- blocks

    /** Takes a tracked block off the list. */
    method TakeOff(a: Allocation)
      requires Valid() && !exited && a in list
      modifies this`head, this`list, Nodes()`previous, Nodes()`next
      ensures Chain(list, head) && a !in list && forall x | x in list :: x.tracked && x in old(list)
      ensures Abs() == old(Abs()).(tracked := Without(old(Abs()).tracked, a.sequence))
    {
      hide Inv, Chain, Without, Distinct, Cut;
      ghost var i :| 0 <= i < |list| && list[i] == a;
      CutIds(i);
      CutDistinct(i);
      ghost var cut, ids := Cut(list, i), Ids(Cut(list, i));
      Unlink(a, i);
      assert Ids(list) == ids;
    }

    /** Puts a tracked block at the front of the list. */
    method PutFirst(a: Allocation)
      requires Chain(list, head) && (forall x | x in list :: x.tracked) && a !in list && a.tracked
      modifies this`head, this`list, a`previous, a`next, Nodes()`previous
      ensures Chain(list, head) && list == [a] + old(list) && forall x | x in list :: x.tracked
      ensures Abs() == old(Abs()).(tracked := [a.sequence] + old(Abs()).tracked)
    {
      hide Chain;
      ghost var ids := Ids(list);
      Link(a);
      assert Ids(list) == [a.sequence] + ids;
    }

    /** A new block, or null when the allocator has none. It is tracked if a frame is open. */
    method TryAllocate(size: nat, available: bool) returns (a: Allocation?)
      requires Valid() && !exited
      modifies this`head, this`list, this`counter, this`untracked, Nodes()`previous
      ensures Valid() && Abs() == Step(old(Abs()), Op.TryAllocate(available))
      ensures a == null <==> !available
      ensures a == null ==> list == old(list)
      ensures a != null ==> fresh(a) && a.sequence == counter && a.size == size && Owns(a)
      ensures a != null ==> forall x | x in Nodes() :: x == a || x in old(Nodes())
    {
      hide Inv, Chain;
      StepKeepsInv(Abs(), Op.TryAllocate(available));
      if !available {
        return null;
      }
      counter := counter + 1;
      a := new Allocation(counter, frames != [], size);
      if a.tracked {
        PutFirst(a);
      } else {
        untracked := untracked + {a.sequence};
      }
    }

    /** A new block; without memory the call fails. */
    method Allocate(size: nat, available: bool) returns (a: Allocation?)
      requires Valid() && !exited
      modifies this, Nodes()
      ensures Valid() && Abs() == Step(old(Abs()), Op.Allocate(available))
      ensures a == null <==> !available
      ensures a != null ==> fresh(a) && a.sequence == counter && a.size == size && Owns(a)
      ensures a != null ==> forall x | x in Nodes() :: x == a || x in old(Nodes())
    {
      hide Inv, Failed, Chain;
      a := TryAllocate(size, available);
      if a == null {
        Die(OUT_OF_MEMORY);
      }
    }

    /** Gives a live block back. */
    method Release(a: Allocation)
      requires Valid() && !exited && Owns(a)
      modifies this`head, this`list, this`untracked, this`freed, Nodes()`previous, Nodes()`next
      ensures Valid() && Abs() == Step(old(Abs()), Op.Release(a.sequence))
    {
      hide Inv, Chain, Step, Allowed, Without;
      LiveId(a);
      ReleaseStep(Abs(), a.sequence);
      if a.tracked {
        TakeOff(a);
      }
      untracked := untracked - {a.sequence};
      freed := freed + [a.sequence];
    }

    /** Detaches a live block that a long-lived object now owns. */
    method Untrack(a: Allocation)
      requires Valid() && !exited && Owns(a)
      modifies this`head, this`list, this`untracked, Nodes()`previous, Nodes()`next, a
      ensures Valid() && Abs() == Step(old(Abs()), Op.Untrack(old(a.sequence)))
      ensures Owns(a) && !a.tracked && a.sequence == old(a.sequence)
      ensures forall x | x in Nodes() :: x in old(Nodes())
    {
      hide Inv, Chain, Step, Allowed, Without;
      LiveId(a);
      UntrackStep(Abs(), a.sequence);
      if a.tracked {
        TakeOff(a);
        untracked := untracked + {a.sequence};
        Detach(a);
      }
    }

    /** Clears the links of a block that is on no list. */
    method Detach(a: Allocation)
      requires Chain(list, head) && a !in list
      modifies a
      ensures Chain(list, head) && !a.tracked && a.sequence == old(a.sequence) && Abs() == old(Abs())
    {
      a.tracked := false;
      a.previous := null;
      a.next := null;
    }

    /** Moves a live block to a larger place; a tracked block goes to the front of the list, even when this fails. */
    method Reallocate(a: Allocation, size: nat, available: bool) returns (b: Allocation?)
      requires Valid() && !exited && Owns(a)
      modifies this, Nodes(), a
      ensures Valid() && Abs() == Step(old(Abs()), Op.Reallocate(old(a.sequence), available))
      ensures b == null <==> !available
      ensures b != null ==> fresh(b) && b.sequence == old(a.sequence) && b.tracked == old(a.tracked)
      ensures b != null ==> b.size == size && Owns(b)
    {
      hide Inv, Failed, Chain, Step, Allowed, Without, MovedToFront;
      LiveId(a);
      ghost var s, id := Abs(), a.sequence;
      ReallocateStep(s, id, available);
      var tracked := a.tracked;
      if tracked {
        TakeOff(a);
      }
      if available {
        b := new Allocation(a.sequence, tracked, size);
        if tracked {
          PutFirst(b);
        }
      } else {
        if tracked {
          PutFirst(a);
        }
        Die(OUT_OF_MEMORY);
        b := null;
      }
    }

    /** A live block's id is live. */
    lemma LiveId(a: Allocation)
      requires Valid() && !exited && Owns(a)
      ensures a.sequence in Abs().tracked <==> a.tracked
      ensures !a.tracked ==> a.sequence in Abs().untracked
    {
      if a.tracked {
        var i :| 0 <= i < |list| && list[i] == a;
        assert Ids(list)[i] == a.sequence;
      }
    }

    lemma CutIds(i: nat)
      requires Valid() && !exited && i < |list|
      ensures Ids(Cut(list, i)) == Without(Ids(list), list[i].sequence)
      ensures list[i].sequence !in untracked
    {
      WithoutIsCut(Ids(list), i);
    }

    lemma CutDistinct(i: nat)
      requires Chain(list, head) && i < |list|
      ensures list[i] !in Cut(list, i)
    {
    }
  }

  lemma ReleaseStep(s: State, id: nat)
    requires Inv(s) && !s.exited && (id in s.tracked || id in s.untracked)
    ensures Allowed(s, Op.Release(id)) && Inv(Step(s, Op.Release(id)))
    ensures Step(s, Op.Release(id))
            == s.(tracked := Without(s.tracked, id), untracked := s.untracked - {id}, freed := s.freed + [id])
    ensures id !in s.tracked ==> Without(s.tracked, id) == s.tracked
  {
    StepKeepsInv(s, Op.Release(id));
  }

  lemma UntrackStep(s: State, id: nat)
    requires Inv(s) && !s.exited && (id in s.tracked || id in s.untracked)
    ensures Allowed(s, Op.Untrack(id)) && Inv(Step(s, Op.Untrack(id)))
    ensures Step(s, Op.Untrack(id))
            == if id in s.tracked then s.(tracked := Without(s.tracked, id), untracked := s.untracked + {id}) else s
  {
    StepKeepsInv(s, Op.Untrack(id));
  }

  lemma ReallocateStep(s: State, id: nat, ok: bool)
    requires Inv(s) && !s.exited && (id in s.tracked || id in s.untracked)
    ensures Allowed(s, Op.Reallocate(id, ok)) && Inv(Step(s, Op.Reallocate(id, ok)))
    ensures var t := if id in s.tracked then s.(tracked := [id] + Without(s.tracked, id)) else s;
            && Inv(t) && Allowed(t, Op.Die(OUT_OF_MEMORY))
            && Step(s, Op.Reallocate(id, ok)) == if ok then t else Step(t, Op.Die(OUT_OF_MEMORY))
  {
    hide Failed;
    StepKeepsInv(s, Op.Reallocate(id, ok));
    MovedKeeps(s, id);
  }

  lemma CleanupsPresent(s: State)
    requires Inv(s) && !s.exited && s.frames != [] && |s.cleanups| != Top(s).cleanupMark
    ensures |s.cleanups| > 0
  {
  }

  lemma AbandonmentKeepsInv(s: State)
    requires Inv(s) && !s.exited && s.frames != []
    ensures Top(s).cleanupMark <= |s.cleanups|
    ensures Inv(Popped(Swept(Cleaned(s))))
    ensures Cleaned(s).frames == s.frames && Swept(Cleaned(s)).frames == s.frames
    ensures !Popped(Swept(Cleaned(s))).exited
  {
    AbandonKeepsInv(s);
  }

  lemma SweepFrames(s: State)
    requires s.frames != []
    ensures Swept(s).frames == s.frames
  {
  }

  /** The nodes whose ids are at most `mark`. */
  ghost function KeptNodes(nodes: seq<Allocation>, ids: seq<nat>, mark: nat): seq<Allocation>
    requires |nodes| == |ids|
  {
    if nodes == [] then [] else (if ids[0] <= mark then [nodes[0]] else []) + KeptNodes(nodes[1..], ids[1..], mark)
  }

  lemma {:induction false} KeptIds(nodes: seq<Allocation>, ids: seq<nat>, mark: nat)
    requires |nodes| == |ids| && forall k | 0 <= k < |nodes| :: nodes[k].sequence == ids[k]
    ensures Ids(KeptNodes(nodes, ids, mark)) == UpTo(ids, mark)
    ensures forall a | a in KeptNodes(nodes, ids, mark) :: a in nodes
  {
    if nodes != [] {
      KeptIds(nodes[1..], ids[1..], mark);
      var rest := KeptNodes(nodes[1..], ids[1..], mark);
      assert Ids([nodes[0]] + rest) == [ids[0]] + Ids(rest);
    }
  }

  lemma HeadOf(list: seq<Allocation>, head: Allocation?)
    requires Chain(list, head)
    ensures head == if list == [] then null else list[0]
  {
  }

  lemma NextOf(list: seq<Allocation>, head: Allocation?, i: nat)
    requires Chain(list, head) && i < |list|
    ensures list[i].next == if i + 1 < |list| then list[i + 1] else null
  {
    ChainNeighbours(list, head, i);
  }

  /** The nodes kept so far and those still to be kept from index `j` on; likewise the ids freed. */
  ghost function KeptFrom(kept: seq<Allocation>, was: seq<Allocation>, ids: seq<nat>, j: nat,
                          mark: nat): seq<Allocation>
    requires j <= |ids| == |was|
  {
    kept + KeptNodes(was[j..], ids[j..], mark)
  }

  ghost function FreedFrom(freed: seq<nat>, ids: seq<nat>, j: nat, mark: nat): seq<nat>
    requires j <= |ids|
  {
    freed + Above(ids[j..], mark)
  }

  lemma SweepStep(was: seq<Allocation>, ids: seq<nat>, kept: seq<Allocation>, j: nat, mark: nat, freed: seq<nat>)
    requires j < |ids| == |was|
    ensures Cut(kept + was[j..], |kept|) == kept + was[j + 1..]
    ensures kept + was[j..] == kept + [was[j]] + was[j + 1..]
    ensures KeptFrom(if ids[j] <= mark then kept + [was[j]] else kept, was, ids, j + 1, mark)
      == KeptFrom(kept, was, ids, j, mark)
    ensures FreedFrom(freed + (if ids[j] > mark then [ids[j]] else []), ids, j + 1, mark)
      == FreedFrom(freed, ids, j, mark)
    ensures forall x | x in kept + was[j + 1..] :: x in kept + was[j..]
  {
    assert ids[j..][1..] == ids[j + 1..] && was[j..][1..] == was[j + 1..];
    assert kept + was[j..] == kept + [was[j]] + was[j + 1..];
  }

  lemma SweepBounds(was: seq<Allocation>, ids: seq<nat>, mark: nat, kept: seq<Allocation>, freed: seq<nat>)
    requires |was| == |ids|
    ensures KeptFrom([], was, ids, 0, mark) == KeptNodes(was, ids, mark)
      && FreedFrom(freed, ids, 0, mark) == freed + Above(ids, mark)
    ensures KeptFrom(kept, was, ids, |ids|, mark) == kept && FreedFrom(freed, ids, |ids|, mark) == freed
    ensures kept + was[|was|..] == kept
  {
    assert was[0..] == was && ids[0..] == ids;
  }

  lemma ReverseLast(s: seq<nat>, mark: nat)
    requires mark < |s|
    ensures Reverse(s[mark..]) == [s[|s| - 1]] + Reverse(s[..|s| - 1][mark..])
  {
    assert s[mark..][..|s| - mark - 1] == s[..|s| - 1][mark..];
  }
}
