/** Laws of the frame operations (src/foundation.inc:351-564): what one undoes of another, how much the cleanup stack
    holds over every run, and when an operation fails. */
module FrameLaws {
  import opened Frames
  import opened FrameRuns

  /** Leaving a frame at once undoes entering it. */
  lemma LeaveUndoesEnter(s: State, status: Status)
    requires Inv(s) && !s.exited && s.frames != []
    ensures var t := Step(s, Enter(status));
      Inv(t) && Allowed(t, Leave) && t.status == status && |t.frames| == |s.frames| + 1 && Step(t, Leave) == s
  {
    StepKeepsInv(s, Enter(status));
    var t := Step(s, Enter(status));
    assert t.frames[..|s.frames|] == s.frames;
  }

  /** So it does for the first frame, which finds no block on the list and leaves none. */
  lemma LeaveUndoesFirst(s: State, status: Status)
    requires Inv(s) && !s.exited && s.frames == []
    ensures var t := Step(s, Enter(status)); Inv(t) && Allowed(t, Leave) && Step(t, Leave) == s
  {
    StepKeepsInv(s, Enter(status));
    var t := Step(s, Enter(status));
    assert t.frames[..0] == [] && SetOf([]) == {};
    assert t.untracked + {} == t.untracked;
  }

  /** What was allocated in the only frame is the caller's once the frame is left: live and off the list. */
  lemma HandedOver(s: State, status: Status)
    requires Inv(s) && !s.exited && s.frames == []
    ensures var t := Step(s, Enter(status));
      Inv(t) && Allowed(t, Allocate(true))
      && var u := Step(t, Allocate(true));
      Inv(u) && Allowed(u, Leave)
      && var v := Step(u, Leave);
      v.frames == [] && v.tracked == [] && v.untracked == s.untracked + {s.counter + 1} && v.freed == s.freed
      && v.status == s.status
  {
    StepKeepsInv(s, Enter(status));
    var t := Step(s, Enter(status));
    StepKeepsInv(t, Allocate(true));
    var u := Step(t, Allocate(true));
    assert u.tracked == [s.counter + 1] && SetOf(u.tracked) == {s.counter + 1};
    assert u.frames[..0] == [];
  }

  // ----- the cleanup stack

  /** How many cleanups frame `f` has on the stack. */
  function Armed(s: State, f: nat): int
    requires f < |s.frames|
  {
    (if f + 1 < |s.frames| then s.frames[f + 1].cleanupMark else |s.cleanups|) - s.frames[f].cleanupMark
  }

  /** Sixteen cleanups a frame, and sixty-four in all. */
  predicate Bounded(s: State) {
    |s.cleanups| <= 64 && forall f | 0 <= f < |s.frames| :: Armed(s, f) <= 16
  }

  lemma StepBounded(s: State, op: Op)
    requires Inv(s) && !s.exited && Allowed(s, op) && Bounded(s)
    ensures !Step(s, op).exited ==> Bounded(Step(s, op))
  {
    StepKeepsInv(s, op);
    match op
    case Enter(status) =>
      var t := Step(s, op);
      forall f | 0 <= f < |t.frames|
        ensures Armed(t, f) <= 16
      {
        if f < |s.frames| {
          assert t.frames[f] == s.frames[f] && Armed(s, f) <= 16;
          assert f + 1 < |s.frames| ==> t.frames[f + 1] == s.frames[f + 1];
        }
      }
    case Allocate(ok) => SameStack(s, op);
    case TryAllocate(ok) => SameStack(s, op);
    case Reallocate(id, ok) => SameStack(s, op);
    case Release(id) => SameStack(s, op);
    case Untrack(id) => SameStack(s, op);
    case Push(frame, cleanup) => SameStack(s, op);
    case Disarm(frame, cleanup) => SameStack(s, op);
    case Leave => SameStack(s, op);
    case Abandon => SameStack(s, op);
    case Die(status) => SameStack(s, op);
  }

  /** Apart from entering a frame, an operation pushes one cleanup, pops some, or leaves the stack as it is. */
  lemma SameStack(s: State, op: Op)
    requires Inv(s) && !s.exited && Allowed(s, op) && !op.Enter? && Bounded(s)
    ensures !Step(s, op).exited ==> Bounded(Step(s, op))
  {
    hide Without, UpTo, Above, Reverse, SetOf, Conserved, CleanupsConserved;
    StackAfter(s, op);
    var t := Step(s, op);
    if !t.exited {
      forall f | 0 <= f < |t.frames|
        ensures Armed(t, f) <= 16
      {
        assert t.frames[f] == s.frames[f];
        if f + 1 < |t.frames| {
          assert t.frames[f + 1] == s.frames[f + 1];
        }
        if |t.frames| < |s.frames| && f + 1 == |t.frames| {
          assert Armed(s, f) == s.frames[f + 1].cleanupMark - s.frames[f].cleanupMark;
        }
        assert Armed(s, f) <= 16;
      }
    }
  }

  lemma StackAfter(s: State, op: Op)
    requires Inv(s) && !s.exited && Allowed(s, op) && !op.Enter?
    ensures var t := Step(s, op); !t.exited ==>
      || (t.frames == s.frames && t.cleanups == s.cleanups)
      || (t.frames == s.frames && |t.cleanups| + 1 == |s.cleanups|)
      || (t.frames == s.frames && s.frames != [] && |t.cleanups| == |s.cleanups| + 1
          && |t.cleanups| <= 64 && |t.cleanups| - Top(s).cleanupMark <= 16)
      || (s.frames != [] && t.frames == s.frames[..|s.frames| - 1] && t.cleanups == s.cleanups[..Top(s).cleanupMark])
  {
    hide Without, Failed, Conserved, CleanupsConserved, Popped, Swept, MovedToFront, Frames.Cleaned;
    TopMark(s);
    FailedStack(s);
    FailedStack(s.(status := OUT_OF_MEMORY));
    FailedStack(s.(status := INTERNAL));
    FailedStack(s.(status := if op.Die? then op.status else 0));
    if op.Reallocate? {
      MovedStack(s, op.id);
      FailedStack(MovedToFront(s, op.id).(status := OUT_OF_MEMORY));
    }
  }

  lemma TopMark(s: State)
    requires Inv(s) && !s.exited
    ensures s.frames != [] ==> Top(s).cleanupMark <= |s.cleanups|
  {
  }

  lemma MovedStack(s: State, id: nat)
    ensures MovedToFront(s, id).frames == s.frames && MovedToFront(s, id).cleanups == s.cleanups
  {
    hide Without;
  }

  /** Abandoning and leaving pop the innermost frame; abandoning pops its cleanups too. */
  lemma FailedStack(s: State)
    requires s.frames != [] ==> Top(s).cleanupMark <= |s.cleanups|
    ensures s.frames == [] ==> Failed(s).exited
    ensures s.frames != [] ==>
      Failed(s).frames == s.frames[..|s.frames| - 1] && Failed(s).cleanups == s.cleanups[..Top(s).cleanupMark]
    ensures s.frames != [] ==>
      Popped(s).frames == s.frames[..|s.frames| - 1] && Popped(s).cleanups == s.cleanups
    ensures s.frames != [] ==> Popped(Swept(Frames.Cleaned(s))) == Failed(s)
  {
    hide UpTo, Above, Reverse, SetOf;
  }

  /** Over every run: a frame never has more than sixteen cleanups, and there are never more than sixty-four. */
  lemma EveryRunIsBounded(ops: seq<Op>)
    requires AllowedRun(START, ops)
    ensures !Run(START, ops).exited ==> Bounded(Run(START, ops))
  {
    hide Run, AllowedRun;
    BoundedFrom(START, ops);
  }

  lemma {:induction false} BoundedFrom(s: State, ops: seq<Op>)
    requires Inv(s) && Bounded(s) && AllowedRun(s, ops)
    ensures !Run(s, ops).exited ==> Bounded(Run(s, ops))
    decreases |ops|
  {
    hide Step, Allowed, Bounded, Inv;
    if ops != [] {
      RunStep(s, ops);
      StepKeepsInv(s, ops[0]);
      StepBounded(s, ops[0]);
      var t := Step(s, ops[0]);
      if t.exited {
        ExitedStays(t, ops[1..]);
      } else {
        BoundedFrom(t, ops[1..]);
      }
    }
  }

  lemma RunStep(s: State, ops: seq<Op>)
    requires Inv(s) && AllowedRun(s, ops) && ops != []
    ensures Allowed(s, ops[0]) && !s.exited && Inv(Step(s, ops[0])) && AllowedRun(Step(s, ops[0]), ops[1..])
    ensures Run(s, ops) == Run(Step(s, ops[0]), ops[1..])
  {
    hide Step, Inv;
    StepKeepsInv(s, ops[0]);
  }

  lemma ExitedStays(t: State, ops: seq<Op>)
    requires Inv(t) && t.exited && AllowedRun(t, ops)
    ensures Run(t, ops).exited
  {
    hide Step, Inv;
  }

  /** A cleanup is taken exactly if its frame is the innermost and has fewer than sixteen, and there are fewer than
      sixty-four; otherwise the innermost frame is abandoned. */
  lemma PushIff(s: State, frame: nat, cleanup: nat)
    requires Inv(s) && !s.exited
    ensures var t := Step(s, Push(frame, cleanup));
      (t.frames == s.frames && t.cleanups == s.cleanups + [cleanup] && !t.exited)
      <==> s.frames != [] && frame == |s.frames| && Armed(s, |s.frames| - 1) < 16 && |s.cleanups| < 64
    ensures !(s.frames != [] && frame == |s.frames| && Armed(s, |s.frames| - 1) < 16 && |s.cleanups| < 64) ==>
      Step(s, Push(frame, cleanup)) == Step(s, Die(INTERNAL))
  {
    hide Without, UpTo, Above, Reverse, SetOf, Conserved, CleanupsConserved;
  }

  /** Disarming the cleanup that was just pushed undoes the push, and disarming any other fails. */
  lemma DisarmUndoesPush(s: State, cleanup: nat, other: nat)
    requires Inv(s) && !s.exited && s.frames != [] && Armed(s, |s.frames| - 1) < 16 && |s.cleanups| < 64
    ensures var f := |s.frames|;
      var t := Step(s, Push(f, cleanup));
      Inv(t) && Allowed(t, Disarm(f, other))
      && Step(t, Disarm(f, other)) ==
           if other == cleanup then s.(armed := s.armed + multiset{cleanup}, disarmed := s.disarmed + multiset{cleanup})
           else Step(t, Die(INTERNAL))
  {
    hide Without, UpTo, Above, Reverse, SetOf, Conserved;
    StepKeepsInv(s, Push(|s.frames|, cleanup));
    assert (s.cleanups + [cleanup])[..|s.cleanups|] == s.cleanups;
  }

  /** A cleanup of an outer frame cannot be disarmed from an inner one. */
  lemma InnerCannotDisarm(s: State, frame: nat, cleanup: nat)
    requires Inv(s) && !s.exited && s.frames != [] && (frame != |s.frames| || Armed(s, |s.frames| - 1) == 0)
    ensures Step(s, Disarm(frame, cleanup)) == Step(s, Die(INTERNAL))
  {
    hide Without, UpTo, Above, Reverse, SetOf, Conserved, CleanupsConserved;
  }

  /** Leaving a frame that has a cleanup armed is a failure: the frame is abandoned and the cleanup runs. */
  lemma LeaveNeedsDisarm(s: State)
    requires Inv(s) && !s.exited && s.frames != []
    ensures Armed(s, |s.frames| - 1) > 0 ==> Step(s, Leave) == Step(s, Die(INTERNAL))
    ensures Armed(s, |s.frames| - 1) == 0 ==>
      Step(s, Leave).frames == s.frames[..|s.frames| - 1] && Step(s, Leave).freed == s.freed
      && Step(s, Leave).status == Top(s).previousStatus && Step(s, Leave).ran == s.ran
  {
    hide Without, UpTo, Above, Reverse, SetOf, Conserved, CleanupsConserved;
  }
}
