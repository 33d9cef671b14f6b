/** Error frames and tracked allocations as steps on values (src/foundation.inc:207-564). Allocations.dfy holds the
    program, whose every operation takes one of these steps.

    A block is known by its allocation sequence number, which survives reallocation. */
module Frames {
  const CLEANUP_MAX := 16
  const CLEANUP_STACK_MAX := 64

  type Status = nat
  const INTERNAL: Status := 6
  const OUT_OF_MEMORY: Status := 5

  /** A frame: the sequence number and cleanup count at its entry, and the status it will restore. */
  datatype Frame = Frame(mark: nat, cleanupMark: nat, previousStatus: Status)

  /** One thread's state. `tracked` is the list, most recently linked first. `untracked` holds live blocks that are
      not on it. `freed`, `ran`, `disarmed` and `armed` record what has happened so far. */
  datatype State = State(
    counter: nat, tracked: seq<nat>, untracked: set<nat>, freed: seq<nat>,
    frames: seq<Frame>, status: Status, cleanups: seq<nat>,
    armed: multiset<nat>, disarmed: multiset<nat>, ran: seq<nat>, exited: bool)

  datatype Op =
    | Enter(status: Status)
    | Allocate(ok: bool)
    | TryAllocate(ok: bool)
    | Reallocate(id: nat, ok: bool)
    | Release(id: nat)
    | Untrack(id: nat)
    | Push(frame: nat, cleanup: nat)
    | Disarm(frame: nat, cleanup: nat)
    | Leave
    | Abandon
    | Die(status: Status)

  const START := State(0, [], {}, [], [], 0, [], multiset{}, multiset{}, [], false)

  function Without(s: seq<nat>, id: nat): (r: seq<nat>)
    ensures forall x :: x in r <==> x in s && x != id
    ensures id !in s ==> r == s
  {
    if s == [] then [] else (if s[0] == id then [] else [s[0]]) + Without(s[1..], id)
  }

  /** The ids of `s` that are at most `mark`, and the ids above it, in order. */
  function UpTo(s: seq<nat>, mark: nat): (r: seq<nat>)
    ensures forall x :: x in r <==> x in s && x <= mark
  {
    if s == [] then [] else (if s[0] <= mark then [s[0]] else []) + UpTo(s[1..], mark)
  }

  function Above(s: seq<nat>, mark: nat): (r: seq<nat>)
    ensures forall x :: x in r <==> x in s && x > mark
  {
    if s == [] then [] else (if s[0] > mark then [s[0]] else []) + Above(s[1..], mark)
  }

  function Reverse(s: seq<nat>): (r: seq<nat>)
    ensures |r| == |s| && forall i | 0 <= i < |s| :: r[i] == s[|s| - 1 - i]
  {
    if s == [] then [] else [s[|s| - 1]] + Reverse(s[..|s| - 1])
  }

  function SetOf(s: seq<nat>): set<nat> {
    set x | x in s
  }

  function Top(s: State): Frame
    requires s.frames != []
  {
    s.frames[|s.frames| - 1]
  }

  /** Popping the top frame; the outermost one hands every block still tracked to its owner. */
  function Popped(s: State): State
    requires s.frames != []
  {
    var t := s.(frames := s.frames[..|s.frames| - 1], status := Top(s).previousStatus);
    if |s.frames| == 1 then t.(tracked := [], untracked := s.untracked + SetOf(s.tracked)) else t
  }

  /** Running the top frame's cleanups, last one first. */
  function Cleaned(s: State): State
    requires s.frames != [] && Top(s).cleanupMark <= |s.cleanups|
  {
    var m := Top(s).cleanupMark;
    s.(cleanups := s.cleanups[..m], ran := s.ran + Reverse(s.cleanups[m..]))
  }

  /** Releasing every tracked block allocated since the top frame was entered. */
  function Swept(s: State): State
    requires s.frames != []
  {
    s.(tracked := UpTo(s.tracked, Top(s).mark), freed := s.freed + Above(s.tracked, Top(s).mark))
  }

  /** What becomes of a failure: the process exits without a frame, and otherwise the top frame is abandoned. */
  function Failed(s: State): State
    requires s.frames != [] ==> Top(s).cleanupMark <= |s.cleanups|
  {
    if s.frames == [] then s.(exited := true) else Popped(Swept(Cleaned(s)))
  }

  function Allocated(s: State): State {
    var id := s.counter + 1;
    if s.frames != [] then s.(counter := id, tracked := [id] + s.tracked)
    else s.(counter := id, untracked := s.untracked + {id})
  }

  /** A live block may be used; frames are left and abandoned innermost first. */
  predicate Allowed(s: State, op: Op) {
    && !s.exited
    && match op
       case Reallocate(id, _) => id in s.tracked || id in s.untracked
       case Release(id) => id in s.tracked || id in s.untracked
       case Untrack(id) => id in s.tracked || id in s.untracked
       case Leave => s.frames != []
       case Abandon => s.frames != []
       case _ => true
  }

  function MovedToFront(s: State, id: nat): State {
    if id in s.tracked then s.(tracked := [id] + Without(s.tracked, id)) else s
  }

  function Step(s: State, op: Op): State
    requires Inv(s) && Allowed(s, op)
  {
    match op
    case Enter(status) =>
      s.(frames := s.frames + [Frame(s.counter, |s.cleanups|, s.status)], status := status)
    case Allocate(ok) => if ok then Allocated(s) else Failed(s.(status := OUT_OF_MEMORY))
    case TryAllocate(ok) => if ok then Allocated(s) else s
    case Reallocate(id, ok) =>
      if ok then MovedToFront(s, id) else Failed(MovedToFront(s, id).(status := OUT_OF_MEMORY))
    case Release(id) =>
      s.(tracked := Without(s.tracked, id), untracked := s.untracked - {id}, freed := s.freed + [id])
    case Untrack(id) =>
      if id in s.tracked then s.(tracked := Without(s.tracked, id), untracked := s.untracked + {id}) else s
    case Push(frame, cleanup) =>
      if s.frames == [] || frame != |s.frames| || |s.cleanups| - Top(s).cleanupMark >= CLEANUP_MAX
         || |s.cleanups| >= CLEANUP_STACK_MAX
      then Failed(s.(status := INTERNAL))
      else s.(cleanups := s.cleanups + [cleanup], armed := s.armed + multiset{cleanup})
    case Disarm(frame, cleanup) =>
      if s.frames == [] || frame != |s.frames| || |s.cleanups| == Top(s).cleanupMark
         || s.cleanups[|s.cleanups| - 1] != cleanup
      then Failed(s.(status := INTERNAL))
      else s.(cleanups := s.cleanups[..|s.cleanups| - 1], disarmed := s.disarmed + multiset{cleanup})
    case Leave => if |s.cleanups| != Top(s).cleanupMark then Failed(s.(status := INTERNAL)) else Popped(s)
    case Abandon => Popped(Swept(Cleaned(s)))
    case Die(status) => Failed(s.(status := status))
  }

  // ----- what every step keeps

  predicate Distinct(s: seq<nat>) {
    forall i, j | 0 <= i < j < |s| :: s[i] != s[j]
  }

  /** Every block ever allocated is in exactly one place: tracked, live but untracked, or freed, once. */
  ghost predicate Conserved(s: State) {
    && Distinct(s.tracked) && Distinct(s.freed)
    && (forall id :: 1 <= id <= s.counter <==> id in s.tracked || id in s.untracked || id in s.freed)
    && (forall id | id in s.tracked :: id !in s.untracked && id !in s.freed)
    && (forall id | id in s.untracked :: id !in s.freed)
  }

  /** Frames nest: marks and cleanup marks only grow towards the top. */
  ghost predicate Nested(s: State) {
    && (forall i | 0 <= i < |s.frames| :: s.frames[i].mark <= s.counter && s.frames[i].cleanupMark <= |s.cleanups|)
    && (forall i, j | 0 <= i < j < |s.frames| ::
          s.frames[i].mark <= s.frames[j].mark && s.frames[i].cleanupMark <= s.frames[j].cleanupMark)
    && (s.frames == [] ==> s.tracked == [] && s.cleanups == [])
    && (s.frames != [] ==> s.frames[0].cleanupMark == 0)
  }

  /** Every cleanup ever registered is still registered, was disarmed, or has run, once each. */
  ghost predicate CleanupsConserved(s: State) {
    s.armed == multiset(s.cleanups) + s.disarmed + multiset(s.ran)
  }

  ghost predicate Inv(s: State) {
    s.exited || (Conserved(s) && Nested(s) && CleanupsConserved(s))
  }
}
