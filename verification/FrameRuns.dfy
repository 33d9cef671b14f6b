/** What holds over every run of the error-frame protocol (src/foundation.inc:351-564). */
module FrameRuns {
  import opened Frames

  lemma DistinctTail(s: seq<nat>)
    requires s != [] && Distinct(s)
    ensures Distinct(s[1..]) && s[0] !in s[1..]
  {
    assert forall j | 0 < j < |s| :: s[0] != s[j];
  }

  lemma DistinctCons(x: nat, s: seq<nat>)
    requires Distinct(s) && x !in s
    ensures Distinct([x] + s)
  {
    var t := [x] + s;
    forall i, j | 0 <= i < j < |t|
      ensures t[i] != t[j]
    {
      assert t[j] == s[j - 1] && (i > 0 ==> t[i] == s[i - 1]);
    }
  }

  lemma {:induction false} WithoutDistinct(s: seq<nat>, id: nat)
    requires Distinct(s)
    ensures Distinct(Without(s, id))
  {
    if s != [] {
      DistinctTail(s);
      WithoutDistinct(s[1..], id);
      DistinctCons(s[0], Without(s[1..], id));
    }
  }

  lemma {:induction false} FilterDistinct(s: seq<nat>, mark: nat)
    requires Distinct(s)
    ensures Distinct(UpTo(s, mark)) && Distinct(Above(s, mark))
  {
    if s != [] {
      DistinctTail(s);
      FilterDistinct(s[1..], mark);
      DistinctCons(s[0], UpTo(s[1..], mark));
      DistinctCons(s[0], Above(s[1..], mark));
    }
  }

  lemma {:induction false} ReverseKeepsItems(s: seq<nat>)
    ensures multiset(Reverse(s)) == multiset(s)
  {
    if s != [] {
      assert s == s[..|s| - 1] + [s[|s| - 1]];
      ReverseKeepsItems(s[..|s| - 1]);
    }
  }

  lemma SweptKeeps(s: State)
    requires s.frames != [] && Conserved(s)
    ensures Conserved(Swept(s))
  {
    FilterDistinct(s.tracked, Top(s).mark);
    var above := Above(s.tracked, Top(s).mark);
    forall i, j | 0 <= i < j < |s.freed + above|
      ensures (s.freed + above)[i] != (s.freed + above)[j]
    {
      if i < |s.freed| <= j {
        assert above[j - |s.freed|] in s.tracked;
      }
    }
  }

  lemma CleanedKeeps(s: State)
    requires s.frames != [] && Top(s).cleanupMark <= |s.cleanups| && CleanupsConserved(s)
    ensures CleanupsConserved(Cleaned(s))
  {
    var m := Top(s).cleanupMark;
    ReverseKeepsItems(s.cleanups[m..]);
    assert s.cleanups == s.cleanups[..m] + s.cleanups[m..];
  }

  lemma PoppedKeeps(s: State)
    requires s.frames != [] && Conserved(s)
    ensures Conserved(Popped(s))
  {
  }

  lemma AbandonNests(s: State)
    requires s.frames != [] && Nested(s)
    ensures Nested(Popped(Swept(Cleaned(s))))
  {
    hide Reverse, Above, UpTo;
    var n := |s.frames| - 1;
    assert forall i | 0 <= i < n :: s.frames[i].cleanupMark <= s.frames[n].cleanupMark;
    if n == 0 {
      assert s.cleanups[..0] == [];
    }
  }

  /** Abandoning the top frame keeps the invariant. */
  lemma AbandonKeepsInv(s: State)
    requires s.frames != [] && !s.exited && Conserved(s) && Nested(s) && CleanupsConserved(s)
    ensures Inv(Popped(Swept(Cleaned(s))))
  {
    hide Nested, Conserved, Swept;
    AbandonNests(s);
    CleanupsUnderTop(s);
    CleanedKeeps(s);
    CleanedBlocks(s);
    SweptKeeps(Cleaned(s));
    SweptCleanups(Cleaned(s));
    PoppedKeeps(Swept(Cleaned(s)));
  }

  lemma CleanupsUnderTop(s: State)
    requires s.frames != [] && Nested(s)
    ensures Top(s).cleanupMark <= |s.cleanups|
  {
  }

  lemma CleanedBlocks(s: State)
    requires s.frames != [] && Top(s).cleanupMark <= |s.cleanups| && Conserved(s)
    ensures Conserved(Cleaned(s)) && Cleaned(s).frames == s.frames && !Cleaned(s).exited == !s.exited
  {
  }

  lemma SweptCleanups(s: State)
    requires s.frames != [] && CleanupsConserved(s)
    ensures CleanupsConserved(Swept(s)) && Swept(s).frames == s.frames && Swept(s).exited == s.exited
  {
  }

  lemma MovedKeeps(s: State, id: nat)
    requires Inv(s) && !s.exited
    ensures Inv(MovedToFront(s, id))
  {
    WithoutDistinct(s.tracked, id);
    DistinctCons(id, Without(s.tracked, id));
  }

  lemma StatusKeeps(s: State, status: Status)
    requires Inv(s)
    ensures Inv(s.(status := status))
  {
  }

  lemma FailedKeepsInv(s: State)
    requires Inv(s) && !s.exited
    ensures Inv(Failed(s))
  {
    if s.frames != [] {
      AbandonKeepsInv(s);
    }
  }

  lemma AllocatedKeeps(s: State)
    requires Inv(s) && !s.exited
    ensures Inv(Allocated(s))
  {
    assert s.counter + 1 !in s.tracked;
    DistinctCons(s.counter + 1, s.tracked);
  }

  lemma ReleaseKeeps(s: State, id: nat)
    requires Inv(s) && Allowed(s, Release(id))
    ensures Inv(Step(s, Release(id)))
  {
    WithoutDistinct(s.tracked, id);
  }

  lemma UntrackKeeps(s: State, id: nat)
    requires Inv(s) && Allowed(s, Untrack(id))
    ensures Inv(Step(s, Untrack(id)))
  {
    WithoutDistinct(s.tracked, id);
  }

  lemma DisarmKeeps(s: State, frame: nat, cleanup: nat)
    requires Inv(s) && Allowed(s, Disarm(frame, cleanup))
    ensures Inv(Step(s, Disarm(frame, cleanup)))
  {
    hide Failed;
    var n := |s.cleanups|;
    if s.frames == [] || frame != |s.frames| || n == Top(s).cleanupMark || s.cleanups[n - 1] != cleanup {
      StatusKeeps(s, INTERNAL);
      FailedKeepsInv(s.(status := INTERNAL));
    } else {
      var k := |s.frames| - 1;
      assert forall i | 0 <= i < k :: s.frames[i].cleanupMark <= s.frames[k].cleanupMark;
      LastDisarmed(s, cleanup);
      hide Conserved, CleanupsConserved;
    }
  }

  lemma LastDisarmed(s: State, cleanup: nat)
    requires CleanupsConserved(s) && s.cleanups != [] && s.cleanups[|s.cleanups| - 1] == cleanup
    ensures CleanupsConserved(s.(cleanups := s.cleanups[..|s.cleanups| - 1],
                                 disarmed := s.disarmed + multiset{cleanup}))
    ensures Conserved(s) ==> Conserved(s.(cleanups := s.cleanups[..|s.cleanups| - 1],
                                          disarmed := s.disarmed + multiset{cleanup}))
  {
    assert s.cleanups == s.cleanups[..|s.cleanups| - 1] + [cleanup];
  }

  lemma LeaveKeeps(s: State)
    requires Inv(s) && Allowed(s, Leave)
    ensures Inv(Step(s, Leave))
  {
    if |s.cleanups| != Top(s).cleanupMark {
      FailedKeepsInv(s.(status := INTERNAL));
    } else {
      PoppedKeeps(s);
    }
  }

  /** Every step of the protocol keeps the invariant: blocks and cleanups are conserved and frames nest. */
  lemma StepKeepsInv(s: State, op: Op)
    requires Inv(s) && Allowed(s, op)
    ensures Inv(Step(s, op))
  {
    hide Inv, Failed, Allocated, MovedToFront;
    match op
    case Enter(status) => EnterKeeps(s, status);
    case Allocate(ok) =>
      AllocatedKeeps(s);
      StatusKeeps(s, OUT_OF_MEMORY);
      FailedKeepsInv(s.(status := OUT_OF_MEMORY));
    case TryAllocate(ok) => AllocatedKeeps(s);
    case Reallocate(id, ok) =>
      MovedKeeps(s, id);
      MovedStays(s, id);
      StatusKeeps(MovedToFront(s, id), OUT_OF_MEMORY);
      FailedKeepsInv(MovedToFront(s, id).(status := OUT_OF_MEMORY));
    case Release(id) => ReleaseKeeps(s, id);
    case Untrack(id) => UntrackKeeps(s, id);
    case Push(frame, cleanup) => PushKeeps(s, frame, cleanup);
    case Disarm(frame, cleanup) => DisarmKeeps(s, frame, cleanup);
    case Leave => LeaveKeeps(s);
    case Abandon => AbandonStepKeeps(s);
    case Die(status) =>
      StatusKeeps(s, status);
      FailedKeepsInv(s.(status := status));
  }

  lemma MovedStays(s: State, id: nat)
    ensures MovedToFront(s, id).exited == s.exited
  {
  }

  lemma EnterKeeps(s: State, status: Status)
    requires Inv(s) && Allowed(s, Enter(status))
    ensures Inv(Step(s, Enter(status)))
  {
  }

  lemma PushKeeps(s: State, frame: nat, cleanup: nat)
    requires Inv(s) && Allowed(s, Push(frame, cleanup))
    ensures Inv(Step(s, Push(frame, cleanup)))
  {
    if s.frames == [] || frame != |s.frames| || |s.cleanups| - Top(s).cleanupMark >= CLEANUP_MAX
       || |s.cleanups| >= CLEANUP_STACK_MAX {
      StatusKeeps(s, INTERNAL);
      FailedKeepsInv(s.(status := INTERNAL));
    } else {
      var t := Step(s, Push(frame, cleanup));
      assert Conserved(t) && Nested(t);
    }
  }

  lemma AbandonStepKeeps(s: State)
    requires Inv(s) && Allowed(s, Abandon)
    ensures Inv(Step(s, Abandon))
  {
    AbandonKeepsInv(s);
  }

  // ----- runs

  /** A run that only uses blocks it owns. */
  ghost predicate AllowedRun(s: State, ops: seq<Op>)
    requires Inv(s)
    decreases |ops|
  {
    ops == [] || (Allowed(s, ops[0]) && (StepKeepsInv(s, ops[0]); AllowedRun(Step(s, ops[0]), ops[1..])))
  }

  ghost function Run(s: State, ops: seq<Op>): (r: State)
    requires Inv(s) && AllowedRun(s, ops)
    ensures Inv(r)
    decreases |ops|
  {
    if ops == [] then s else StepKeepsInv(s, ops[0]); Run(Step(s, ops[0]), ops[1..])
  }

  /** From any start, after any operations, no block has been freed twice and without a frame nothing is tracked. */
  lemma EveryRunIsSafe(ops: seq<Op>)
    requires AllowedRun(START, ops)
    ensures var s := Run(START, ops);
            !s.exited ==>
              && Distinct(s.freed)
              && (forall id :: 1 <= id <= s.counter <==> id in s.tracked || id in s.untracked || id in s.freed)
              && (forall id | id in s.freed :: id !in s.tracked && id !in s.untracked)
              && (s.frames == [] ==> s.tracked == [] && s.cleanups == [])
  {
  }

  // ----- what happens while a frame is open

  /** The run never leaves, nor fails out of, the frame at depth `d`. */
  ghost predicate Stays(s: State, ops: seq<Op>, d: nat): (r: bool)
    requires Inv(s)
    ensures r ==> AllowedRun(s, ops)
    decreases |ops|
  {
    && !s.exited && |s.frames| >= d
    && (ops == [] || (Allowed(s, ops[0]) && (StepKeepsInv(s, ops[0]); Stays(Step(s, ops[0]), ops[1..], d))))
  }

  /** The blocks that a run allocates. */
  ghost function Born(s: State, ops: seq<Op>): set<nat>
    requires Inv(s) && AllowedRun(s, ops)
    decreases |ops|
  {
    if ops == [] then {}
    else
      StepKeepsInv(s, ops[0]);
      (if Allocates(ops[0]) then {s.counter + 1} else {})
      + Born(Step(s, ops[0]), ops[1..])
  }

  /** The blocks that a run releases itself. */
  function Released(ops: seq<Op>): set<nat> {
    if ops == [] then {} else (if ops[0].Release? then {ops[0].id} else {}) + Released(ops[1..])
  }

  /** What a step inside the frame at depth `d` leaves as it was: the frames up to it, the cleanups registered before
      it, and every older block that is not released by name. */
  ghost predicate Below(s: State, t: State, d: nat, released: set<nat>)
    requires 0 < d <= |s.frames|
  {
    var f := s.frames[d - 1];
    && !t.exited && |t.frames| >= d && t.frames[..d] == s.frames[..d]
    && s.counter <= t.counter
    && f.cleanupMark <= |s.cleanups| && f.cleanupMark <= |t.cleanups|
    && t.cleanups[..f.cleanupMark] == s.cleanups[..f.cleanupMark]
    && (forall id | id <= f.mark && id in s.tracked && id !in released :: id in t.tracked || id in t.untracked)
    && (forall id | id <= f.mark && id in s.untracked && id !in released :: id in t.untracked)
  }

  lemma FailedBelow(s: State, d: nat)
    requires Inv(s) && !s.exited && 0 < d < |s.frames|
    ensures Below(s, Failed(s), d, {})
  {
    hide Reverse, Distinct;
    var n := |s.frames| - 1;
    assert s.frames[d - 1].mark <= s.frames[n].mark && s.frames[d - 1].cleanupMark <= s.frames[n].cleanupMark;
    assert s.cleanups[..s.frames[n].cleanupMark][..s.frames[d - 1].cleanupMark]
      == s.cleanups[..s.frames[d - 1].cleanupMark];
  }

  lemma MovedBelow(s: State, id: nat, d: nat)
    requires Inv(s) && !s.exited && 0 < d <= |s.frames|
    ensures Below(s, MovedToFront(s, id), d, {}) && MovedToFront(s, id).frames == s.frames
  {
  }

  lemma BelowTrans(s: State, t: State, u: State, d: nat, a: set<nat>, b: set<nat>)
    requires 0 < d <= |s.frames| && Below(s, t, d, a) && Below(t, u, d, b)
    ensures Below(s, u, d, a + b)
  {
    assert t.frames[d - 1] == t.frames[..d][d - 1] && s.frames[d - 1] == s.frames[..d][d - 1];
    assert u.frames[..d] == s.frames[..d];
  }

  /** A failing step pops a frame, so one that stays at depth `d` failed above it. */
  lemma FailedStays(s: State, d: nat)
    requires Inv(s) && !s.exited && 0 < d && !Failed(s).exited && |Failed(s).frames| >= d
    ensures d < |s.frames|
  {
  }

  lemma FailingBelow(s: State, status: Status, d: nat)
    requires Inv(s) && !s.exited && 0 < d <= |s.frames|
    requires var t := Failed(s.(status := status)); !t.exited && |t.frames| >= d
    ensures Below(s, Failed(s.(status := status)), d, {})
  {
    StatusKeeps(s, status);
    FailedStays(s.(status := status), d);
    FailedBelow(s.(status := status), d);
  }

  lemma EnterBelow(s: State, status: Status, d: nat)
    requires Inv(s) && Allowed(s, Enter(status)) && 0 < d <= |s.frames|
    ensures Below(s, Step(s, Enter(status)), d, {})
  {
  }

  lemma AllocatedBelow(s: State, d: nat)
    requires Inv(s) && !s.exited && 0 < d <= |s.frames|
    ensures Below(s, Allocated(s), d, {}) && Below(s, s, d, {})
  {
  }

  lemma CleanupsAboveMark(s: State)
    requires Inv(s) && !s.exited
    ensures s.frames != [] ==> Top(s).cleanupMark <= |s.cleanups|
  {
  }

  lemma ReallocateBelow(s: State, id: nat, ok: bool, d: nat)
    requires Inv(s) && Allowed(s, Reallocate(id, ok)) && 0 < d <= |s.frames|
    requires !Step(s, Reallocate(id, ok)).exited && |Step(s, Reallocate(id, ok)).frames| >= d
    ensures Below(s, Step(s, Reallocate(id, ok)), d, {})
  {
    hide Inv, Failed, Below, MovedToFront;
    MovedBelow(s, id, d);
    MovedKeeps(s, id);
    MovedStays(s, id);
    if !ok {
      var t := MovedToFront(s, id);
      FailingBelow(t, OUT_OF_MEMORY, d);
      var none: set<nat> := {};
      CleanupsAboveMark(t);
      BelowTrans(s, t, Failed(t.(status := OUT_OF_MEMORY)), d, none, none);
      assert none + none == none;
    }
  }

  lemma ReleaseBelow(s: State, id: nat, d: nat)
    requires Inv(s) && Allowed(s, Release(id)) && 0 < d <= |s.frames|
    ensures Below(s, Step(s, Release(id)), d, {id})
  {
  }

  lemma UntrackBelow(s: State, id: nat, d: nat)
    requires Inv(s) && Allowed(s, Untrack(id)) && 0 < d <= |s.frames|
    ensures Below(s, Step(s, Untrack(id)), d, {})
  {
  }

  lemma PushBelow(s: State, frame: nat, cleanup: nat, d: nat)
    requires Inv(s) && Allowed(s, Push(frame, cleanup)) && 0 < d <= |s.frames|
    requires !Step(s, Push(frame, cleanup)).exited && |Step(s, Push(frame, cleanup)).frames| >= d
    ensures Below(s, Step(s, Push(frame, cleanup)), d, {})
  {
    hide Failed;
    if s.frames == [] || frame != |s.frames| || |s.cleanups| - Top(s).cleanupMark >= CLEANUP_MAX
       || |s.cleanups| >= CLEANUP_STACK_MAX {
      FailingBelow(s, INTERNAL, d);
    }
  }

  lemma DisarmBelow(s: State, frame: nat, cleanup: nat, d: nat)
    requires Inv(s) && Allowed(s, Disarm(frame, cleanup)) && 0 < d <= |s.frames|
    requires !Step(s, Disarm(frame, cleanup)).exited && |Step(s, Disarm(frame, cleanup)).frames| >= d
    ensures Below(s, Step(s, Disarm(frame, cleanup)), d, {})
  {
    hide Failed;
    if frame != |s.frames| || |s.cleanups| == Top(s).cleanupMark || s.cleanups[|s.cleanups| - 1] != cleanup {
      FailingBelow(s, INTERNAL, d);
    } else {
      assert s.frames[d - 1].cleanupMark <= Top(s).cleanupMark;
    }
  }

  lemma LeaveStepBelow(s: State, d: nat)
    requires Inv(s) && Allowed(s, Leave) && 0 < d <= |s.frames|
    requires !Step(s, Leave).exited && |Step(s, Leave).frames| >= d
    ensures Below(s, Step(s, Leave), d, {})
  {
    hide Failed;
    if |s.cleanups| != Top(s).cleanupMark {
      FailingBelow(s, INTERNAL, d);
    } else {
      LeaveBelow(s, d);
    }
  }

  lemma StepBelow(s: State, op: Op, d: nat)
    requires Inv(s) && Allowed(s, op) && 0 < d <= |s.frames|
    requires !Step(s, op).exited && |Step(s, op).frames| >= d
    ensures Below(s, Step(s, op), d, if op.Release? then {op.id} else {})
  {
    hide Inv, Failed, Below, Allocated, MovedToFront, Popped, Swept, Cleaned;
    match op
    case Enter(status) => EnterBelow(s, status, d);
    case Allocate(ok) =>
      if ok {
        AllocatedBelow(s, d);
      } else {
        FailingBelow(s, OUT_OF_MEMORY, d);
      }
    case TryAllocate(ok) => AllocatedBelow(s, d);
    case Reallocate(id, ok) => ReallocateBelow(s, id, ok, d);
    case Release(id) => ReleaseBelow(s, id, d);
    case Untrack(id) => UntrackBelow(s, id, d);
    case Push(frame, cleanup) => PushBelow(s, frame, cleanup, d);
    case Disarm(frame, cleanup) => DisarmBelow(s, frame, cleanup, d);
    case Leave => LeaveStepBelow(s, d);
    case Abandon => AbandonBelow(s, d);
    case Die(status) => FailingBelow(s, status, d);
  }

  lemma LeaveBelow(s: State, d: nat)
    requires Inv(s) && !s.exited && 0 < d <= |s.frames| && |Popped(s).frames| >= d
    ensures Below(s, Popped(s), d, {})
  {
  }

  lemma AbandonBelow(s: State, d: nat)
    requires Inv(s) && Allowed(s, Abandon) && 0 < d <= |s.frames| && |Step(s, Abandon).frames| >= d
    ensures Below(s, Step(s, Abandon), d, {})
  {
    FailedBelow(s, d);
  }

  lemma StaysStep(s: State, ops: seq<Op>, d: nat)
    requires Inv(s) && Stays(s, ops, d)
    ensures !s.exited && |s.frames| >= d
    ensures ops != [] ==> Allowed(s, ops[0]) && Inv(Step(s, ops[0])) && Stays(Step(s, ops[0]), ops[1..], d)
                          && !Step(s, ops[0]).exited && |Step(s, ops[0]).frames| >= d
                          && Run(s, ops) == Run(Step(s, ops[0]), ops[1..])
                          && Step(s, ops[0]).counter == s.counter + (if Allocates(ops[0]) then 1 else 0)
                          && Born(s, ops) == (if Allocates(ops[0]) then {s.counter + 1} else {})
                            + Born(Step(s, ops[0]), ops[1..])
    ensures ops == [] ==> Run(s, ops) == s && Born(s, ops) == {}
  {
    hide Inv, Step;
    if ops != [] {
      StepKeepsInv(s, ops[0]);
      CounterStep(s, ops[0]);
    }
  }

  /** Whatever runs inside a frame leaves what was there before it alone, and allocates consecutive numbers. */
  lemma {:induction false} InsideFrame(s: State, ops: seq<Op>, d: nat)
    requires Inv(s) && Stays(s, ops, d) && 0 < d
    ensures |s.frames| >= d && Below(s, Run(s, ops), d, Released(ops))
    ensures forall id :: id in Born(s, ops) <==> s.counter < id <= Run(s, ops).counter
    decreases |ops|
  {
    hide Inv, Step, Stays, Run, Born, Below, AllowedRun, Allowed;
    StaysStep(s, ops, d);
    if ops == [] {
      InvMarks(s, d);
    } else {
      var t := Step(s, ops[0]);
      StepBelow(s, ops[0], d);
      InsideFrame(t, ops[1..], d);
      BelowTrans(s, t, Run(t, ops[1..]), d, if ops[0].Release? then {ops[0].id} else {}, Released(ops[1..]));
      CounterBelow(t, Run(t, ops[1..]), d, Released(ops[1..]));
    }
  }

  lemma CounterBelow(s: State, t: State, d: nat, released: set<nat>)
    requires 0 < d <= |s.frames| && Below(s, t, d, released)
    ensures s.counter <= t.counter && |t.frames| >= d
  {
  }

  lemma InvMarks(s: State, d: nat)
    requires Inv(s) && !s.exited && 0 < d <= |s.frames|
    ensures Below(s, s, d, {})
  {
  }

  predicate Allocates(op: Op) {
    op == Allocate(true) || op == TryAllocate(true)
  }

  lemma FailedCounter(s: State)
    requires s.frames != [] ==> Top(s).cleanupMark <= |s.cleanups|
    ensures Failed(s).counter == s.counter
  {
  }

  lemma CounterStep(s: State, op: Op)
    requires Inv(s) && Allowed(s, op)
    ensures Step(s, op).counter == s.counter + if Allocates(op) then 1 else 0
  {
    hide Failed, Conserved, CleanupsConserved;
    var m := if op.Reallocate? then MovedToFront(s, op.id) else s;
    FailedCounter(m.(status := OUT_OF_MEMORY));
    FailedCounter(m.(status := INTERNAL));
    if op.Die? {
      FailedCounter(m.(status := op.status));
    }
  }

  /** A frame that fails takes with it exactly the tracked blocks first allocated since it was entered, runs exactly the
      cleanups registered since then, last one first, and leaves frames, status and cleanups as they were. A block that
      is older, or was only reallocated since, is not freed; without an outer frame nothing stays tracked. */
  lemma FrameFailure(s: State, entry: Status, ops: seq<Op>, s1: State, s2: State, status: Status)
    requires Inv(s) && !s.exited && s1 == Step(s, Enter(entry))
    requires Inv(s1) && Stays(s1, ops, |s.frames| + 1) && s2 == Run(s1, ops) && |s2.frames| == |s.frames| + 1
    ensures Allowed(s2, Die(status))
    ensures var s3 := Step(s2, Die(status));
            && s3.frames == s.frames && s3.status == s.status && s3.cleanups == s.cleanups
            && s2.freed <= s3.freed
            && (forall id :: id in s3.freed[|s2.freed|..] <==> id in s2.tracked && id in Born(s1, ops))
            && (forall id | id in s2.tracked && id !in Born(s1, ops) ::
                  id !in s3.freed && (id in s3.tracked || id in s3.untracked))
            && (forall id | id in s.tracked && id !in Released(ops) :: id in s3.tracked || id in s3.untracked)
            && |s.cleanups| <= |s2.cleanups| && s3.ran == s2.ran + Reverse(s2.cleanups[|s.cleanups|..])
            && (s.frames == [] ==> s3.tracked == [])
  {
    hide Reverse, Distinct, Stays, Run, Born, AllowedRun, Below;
    var d := |s.frames| + 1;
    InsideFrame(s1, ops, d);
    EnteredTop(s, entry, s2, Released(ops));
    FailureOf(s, s2, status);
  }

  lemma FailureOf(s: State, s2: State, status: Status)
    requires Inv(s) && !s.exited && Inv(s2) && !s2.exited && |s2.frames| == |s.frames| + 1
    requires Top(s2) == Frame(s.counter, |s.cleanups|, s.status) && s2.frames[..|s.frames|] == s.frames
    requires |s.cleanups| <= |s2.cleanups| && s2.cleanups[..|s.cleanups|] == s.cleanups
    ensures var s3 := Step(s2, Die(status));
            && s3.frames == s.frames && s3.status == s.status && s3.cleanups == s.cleanups
            && s2.freed <= s3.freed
            && (forall id :: id in s3.freed[|s2.freed|..] <==> id in s2.tracked && id > s.counter)
            && (forall id | id in s2.tracked && id <= s.counter ::
                  id !in s3.freed && (id in s3.tracked || id in s3.untracked))
            && (forall id | id in s2.untracked :: id in s3.untracked)
            && s3.ran == s2.ran + Reverse(s2.cleanups[|s.cleanups|..])
            && (s.frames == [] ==> s3.tracked == [])
  {
    hide Reverse, Distinct;
    var s3 := Step(s2, Die(status));
    assert s3.freed[|s2.freed|..] == Above(s2.tracked, s.counter);
  }

  /** What a frame's entry left is still there below it. */
  lemma EnteredTop(s: State, entry: Status, s2: State, released: set<nat>)
    requires Inv(s) && !s.exited && Below(Step(s, Enter(entry)), s2, |s.frames| + 1, released)
    requires |s2.frames| == |s.frames| + 1
    ensures Top(s2) == Frame(s.counter, |s.cleanups|, s.status) && s2.frames[..|s.frames|] == s.frames
    ensures |s.cleanups| <= |s2.cleanups| && s2.cleanups[..|s.cleanups|] == s.cleanups
    ensures forall id | id in s.tracked && id !in released ::
      id <= s.counter && (id in s2.tracked || id in s2.untracked)
    ensures !s2.exited && s.counter <= s2.counter
  {
    var s1 := Step(s, Enter(entry));
    var d := |s.frames| + 1;
    assert s2.frames == s2.frames[..d] == s1.frames[..d] == s1.frames;
  }
}
