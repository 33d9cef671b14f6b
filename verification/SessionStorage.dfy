/** The memory a session owns, over its decide calls and its end (src/foundation.inc:584-643; src/api.inc:380-388;
    jb.c:6054-6103, 6254-6337, 8440-8470): three grow-only slabs and the two blocks of its prefix entry. A call's steps
    are those of Sessions, its blocks and frames those of Frames. */
module SessionStorage {
  import opened Wrappers
  import opened Frames
  import opened FrameRuns
  import opened Sessions
  import Allocations

  type Thread = Frames.State

  const REQUEST: Status := 4
  const CALL_CLEANUP := 1

  /** An arena that lives with the session: its block, if it ever had one, and how much that can hold. */
  datatype Slab = Slab(block: Option<nat>, capacity: nat)

  /** The thread and what the session names. `building` are the blocks of an entry that is not installed yet. */
  datatype Store = Store(thread: Thread, work: Slab, kv: Slab, control: Slab, prefix: seq<nat>, building: seq<nat>)

  /** What one step of a call asks for: a slab's size, or what it does with blocks of its own. */
  datatype Demand = Demand(bytes: nat, ops: seq<Op>)

  ghost predicate Names(s: Store, id: nat) {
    s.work.block == Some(id) || s.kv.block == Some(id) || s.control.block == Some(id) || id in s.prefix
  }

  /** No block serves twice. */
  ghost predicate Apart(s: Store) {
    && (forall id | s.work.block == Some(id) ::
          s.kv.block != Some(id) && s.control.block != Some(id) && id !in s.prefix)
    && (forall id | s.kv.block == Some(id) :: s.control.block != Some(id) && id !in s.prefix)
    && (forall id | s.control.block == Some(id) :: id !in s.prefix)
    && Distinct(s.prefix)
  }

  /** A step of the protocol, for a program that keeps to it. */
  ghost function Take(t: Thread, op: Op): Thread {
    if Inv(t) && Allowed(t, op) then Step(t, op) else t
  }

  /** Making room: a larger slab is allocated and taken off the list before the old one is released. */
  ghost function Reserved(t: Thread, a: Slab, bytes: nat): (Thread, Slab) {
    if bytes <= a.capacity then (t, a)
    else
      var grown := Take(t, Allocate(true));
      var kept := Take(grown, Untrack(grown.counter));
      (if a.block.Some? then Take(kept, Release(a.block.value)) else kept, Slab(Some(grown.counter), bytes))
  }

  ghost function ReleaseAll(t: Thread, ids: seq<nat>): Thread
    decreases |ids|
  {
    if ids == [] then t else ReleaseAll(Take(t, Release(ids[|ids| - 1])), ids[..|ids| - 1])
  }

  ghost function UntrackAll(t: Thread, ids: seq<nat>): Thread
    decreases |ids|
  {
    if ids == [] then t else UntrackAll(Take(t, Untrack(ids[0])), ids[1..])
  }

  /** A call allocates what it likes, and gives back or moves what it allocated, other than an entry it is building. */
  predicate Private(t: Thread, building: seq<nat>, op: Op) {
    match op
    case Allocate(ok) => ok
    case TryAllocate(_) => true
    case Reallocate(id, ok) => ok && id in t.tracked && id !in building && t.frames != [] && id > Top(t).mark
    case Release(id) => id in t.tracked && id !in building && t.frames != [] && id > Top(t).mark
    case _ => false
  }

  ghost function Worked(t: Thread, building: seq<nat>, ops: seq<Op>): Thread
    decreases |ops|
  {
    if ops == [] then t
    else Worked(if Private(t, building, ops[0]) then Take(t, ops[0]) else t, building, ops[1..])
  }

  /** What a step does to the session's memory. */
  ghost function Keep(s: Store, a: Action, d: Demand): Store {
    match a
    case Work => s.(thread := Worked(s.thread, s.building, d.ops))
    case Begin => var (t, w) := Reserved(s.thread, s.work, d.bytes); s.(thread := t, work := w)
    case KvBegin => var (t, w) := Reserved(s.thread, s.kv, d.bytes); s.(thread := t, kv := w)
    case ControlBegin => var (t, w) := Reserved(s.thread, s.control, d.bytes); s.(thread := t, control := w)
    case DropPrefix => s.(thread := ReleaseAll(s.thread, s.prefix), prefix := [], building := [])
    case NewEntry => var t := Take(s.thread, Allocate(true)); s.(thread := t, building := [t.counter])
    case FillKv(_) => var t := Take(s.thread, Allocate(true)); s.(thread := t, building := s.building + [t.counter])
    case Install => s.(thread := UntrackAll(s.thread, s.building), prefix := s.building, building := [])
    case _ => s
  }

  /** A failing step: work may have been done in part, a block of a new entry may have been allocated, and nothing else
      has had its effect. */
  ghost function Broken(s: Store, a: Action, d: Demand, part: nat): Store {
    if a.Work? && part <= |d.ops| then s.(thread := Worked(s.thread, s.building, d.ops[..part]))
    else if (a.NewEntry? || a.FillKv?) && part > 0 then Keep(s, a, d)
    else s
  }

  ghost function Through(s: Store, script: seq<Action>, ds: seq<Demand>, fault: nat, part: nat): (r: (Store, bool))
    requires |ds| == |script|
    decreases |script|
  {
    if script == [] then (s, true)
    else if fault == 0 then (Broken(s, script[0], ds[0], part), false)
    else Through(Keep(s, script[0], ds[0]), script[1..], ds[1..], fault - 1, part)
  }

  /** A call's frame is entered and its cleanup registered. */
  ghost function Started(b: Store): Store {
    var entered := Take(b.thread, Enter(REQUEST));
    b.(thread := Take(entered, Push(|entered.frames|, CALL_CLEANUP)))
  }

  /** A whole call: a frame with the call's cleanup, the steps, and on failure the abandonment of the frame. */
  ghost function Called(b: Store, script: seq<Action>, ds: seq<Demand>, fault: nat, part: nat,
                        status: Status): (r: (Store, bool))
    requires |ds| == |script|
  {
    if |b.thread.cleanups| >= CLEANUP_STACK_MAX then (Started(b), false)
    else
      var (s, ok) := Through(Started(b), script, ds, fault, part);
      if ok then (s.(thread := Take(Take(s.thread, Disarm(|s.thread.frames|, CALL_CLEANUP)), Leave), building := []),
        true)
      else (s.(thread := Take(s.thread, Die(status)), building := []), false)
  }

  // ----- what holds within a call

  /** The thread within the call's frame: what is outside is as it was. */
  ghost predicate Within(b: Thread, t: Thread) {
    && Inv(t) && !t.exited
    && t.frames == b.frames + [Frame(b.counter, |b.cleanups|, b.status)] && t.cleanups == b.cleanups + [CALL_CLEANUP]
    && b.counter <= t.counter
    && (forall id | id <= b.counter :: id in t.tracked <==> id in b.tracked)
    && (forall id | id in b.freed :: id in t.freed)
  }

  /** What a step of the call's own leaves alone. */
  ghost predicate OwnStep(t: Thread, t': Thread, building: seq<nat>) {
    && t'.untracked == t.untracked
    && (forall id | id in t.freed :: id in t'.freed)
    && (forall id | id in building && id in t.tracked :: id in t'.tracked)
  }

  lemma AllocateWithin(b: Thread, t: Thread)
    requires Within(b, t)
    ensures var t' := Take(t, Allocate(true));
      && Within(b, t') && t'.counter == t.counter + 1 && t'.tracked == [t.counter + 1] + t.tracked
      && t'.untracked == t.untracked && t'.freed == t.freed
    ensures t.counter + 1 !in t.tracked && t.counter + 1 !in t.untracked && t.counter + 1 !in t.freed
  {
    StepKeepsInv(t, Allocate(true));
  }

  lemma UntrackWithin(b: Thread, t: Thread, id: nat)
    requires Within(b, t) && id in t.tracked && id > b.counter
    ensures var t' := Take(t, Untrack(id));
      && Within(b, t') && t'.counter == t.counter && t'.untracked == t.untracked + {id} && t'.freed == t.freed
      && (forall x :: x in t'.tracked <==> x in t.tracked && x != id)
  {
    StepKeepsInv(t, Untrack(id));
  }

  lemma ReleaseWithin(b: Thread, t: Thread, id: nat)
    requires Within(b, t) && id in t.untracked
    ensures var t' := Take(t, Release(id));
      && Within(b, t') && t'.counter == t.counter && t'.untracked == t.untracked - {id} && t'.freed == t.freed + [id]
      && t'.tracked == t.tracked
  {
    StepKeepsInv(t, Release(id));
  }

  lemma PrivateWithin(b: Thread, t: Thread, building: seq<nat>, op: Op)
    requires Within(b, t) && Private(t, building, op)
    ensures Within(b, Take(t, op)) && OwnStep(t, Take(t, op), building)
  {
    hide Conserved, Nested, CleanupsConserved, Distinct;
    assert Top(t).mark == b.counter;
    assert Allowed(t, op);
    StepKeepsInv(t, op);
    if op.Allocate? || op.TryAllocate? {
      AllocateWithin(b, t);
    } else {
      OwnUnlisted(t, op.id);
    }
  }

  /** A tracked block is not on the other side. */
  lemma OwnUnlisted(t: Thread, id: nat)
    requires Inv(t) && !t.exited && id in t.tracked
    ensures id !in t.untracked && t.untracked - {id} == t.untracked
  {
  }

  lemma {:induction false} WorkWithin(b: Thread, t: Thread, building: seq<nat>, ops: seq<Op>)
    requires Within(b, t)
    ensures Within(b, Worked(t, building, ops)) && OwnStep(t, Worked(t, building, ops), building)
    decreases |ops|
  {
    hide Within, Private, Take;
    if ops != [] {
      var t' := if Private(t, building, ops[0]) then Take(t, ops[0]) else t;
      if Private(t, building, ops[0]) {
        PrivateWithin(b, t, building, ops[0]);
      }
      WorkWithin(b, t', building, ops[1..]);
    }
  }

  /** A slab is what it was, or was replaced by a larger one. */
  predicate Grown(a: Slab, a': Slab) {
    a' == a || (a'.capacity > a.capacity && a'.block.Some? && a'.block != a.block)
  }

  /** Live blocks that the session does not name are those there were before the call. */
  ghost predicate Accounted(b: Store, s: Store) {
    forall id :: id in s.thread.untracked && !Names(s, id) <==> id in b.thread.untracked && !Names(b, id)
  }

  /** What the session named is still named, or was released. */
  ghost predicate NoneLost(b: Store, s: Store) {
    forall id | Names(b, id) :: Names(s, id) || id in s.thread.freed
  }

  ghost predicate Owned(s: Store) {
    Apart(s) && forall id | Names(s, id) :: id in s.thread.untracked
  }

  ghost predicate Building(b: Store, s: Store) {
    Distinct(s.building) && forall id | id in s.building :: id in s.thread.tracked && id > b.thread.counter
  }

  ghost predicate SlabsGrown(b: Store, s: Store) {
    Grown(b.work, s.work) && Grown(b.kv, s.kv) && Grown(b.control, s.control)
  }

  /** A call that began on `b` has come to `s`. */
  ghost predicate During(b: Store, s: Store) {
    && Within(b.thread, s.thread) && Owned(s) && Building(b, s) && Accounted(b, s) && NoneLost(b, s) && SlabsGrown(b, s)
  }

  /** How far the replacement of a prefix entry has come: the old one is there (0), was dropped (1), the new one has its
      metadata (2), and its rows (3). */
  function Next(a: Action, phase: nat): nat {
    match a
    case DropPrefix => 1
    case NewEntry => 2
    case FillKv(_) => 3
    case Install => 0
    case _ => phase
  }

  predicate InOrder(a: Action, phase: nat) {
    (a.NewEntry? ==> phase == 1) && (a.FillKv? ==> phase == 2) && (a.Install? ==> phase == 3)
  }

  predicate Orderly(script: seq<Action>, phase: nat) {
    script == [] || (InOrder(script[0], phase) && Orderly(script[1..], Next(script[0], phase)))
  }

  ghost predicate InPhase(s: Store, phase: nat) {
    phase > 0 ==> s.prefix == [] && |s.building| == phase - 1
  }

  /** The thread after a larger slab took a smaller one's place. */
  lemma ReserveWithin(b: Thread, t: Thread, a: Slab, bytes: nat)
    requires Within(b, t) && bytes > a.capacity && (a.block.Some? ==> a.block.value in t.untracked)
    ensures var (t', a') := Reserved(t, a, bytes); var id := t.counter + 1;
      && Within(b, t') && a' == Slab(Some(id), bytes) && Grown(a, a')
      && t'.untracked == t.untracked + {id} - (if a.block.Some? then {a.block.value} else {})
      && (forall x | x in t.freed :: x in t'.freed) && (a.block.Some? ==> a.block.value in t'.freed)
      && (forall x | x in t.tracked :: x in t'.tracked)
      && id !in t.untracked && id !in t.freed && id !in t.tracked
  {
    hide Within, Take;
    AllocateWithin(b, t);
    var grown := Take(t, Allocate(true));
    CounterGrows(b, t);
    UntrackWithin(b, grown, grown.counter);
    var kept := Take(grown, Untrack(grown.counter));
    if a.block.Some? {
      ReleaseWithin(b, kept, a.block.value);
    }
  }

  lemma CounterGrows(b: Thread, t: Thread)
    requires Within(b, t)
    ensures b.counter <= t.counter
  {
  }

  /** One slab's replacement, for whichever slab it is. */
  lemma ReplaceDuring(b: Store, s: Store, s': Store, slab: Slab, bytes: nat)
    requires During(b, s) && bytes > slab.capacity && (slab.block.Some? ==> slab.block.value in s.thread.untracked)
    requires s'.thread == Reserved(s.thread, slab, bytes).0 && s'.building == s.building && s'.prefix == s.prefix
    requires SlabsGrown(b, s')
    requires forall id :: Names(s', id) <==> id == s.thread.counter + 1 || (Names(s, id) && slab.block != Some(id))
    requires slab.block.Some? ==> Names(s, slab.block.value)
    requires Apart(s')
    ensures During(b, s')
  {
    hide Within, Names, Apart, Grown, Reserved;
    ReserveWithin(b.thread, s.thread, slab, bytes);
  }

  lemma BeginDuring(b: Store, s: Store, d: Demand)
    requires During(b, s)
    ensures During(b, Keep(s, Begin, d))
  {
    hide Within, Take, Distinct, Reserved;
    if d.bytes > s.work.capacity {
      FreshBlock(b, s);
      ReserveWithin(b.thread, s.thread, s.work, d.bytes);
      ReplaceDuring(b, s, Keep(s, Begin, d), s.work, d.bytes);
    } else {
      ReserveNothing(s.thread, s.work, d.bytes);
    }
  }

  lemma KvBeginDuring(b: Store, s: Store, d: Demand)
    requires During(b, s)
    ensures During(b, Keep(s, KvBegin, d))
  {
    hide Within, Take, Distinct, Reserved;
    if d.bytes > s.kv.capacity {
      FreshBlock(b, s);
      ReserveWithin(b.thread, s.thread, s.kv, d.bytes);
      ReplaceDuring(b, s, Keep(s, KvBegin, d), s.kv, d.bytes);
    } else {
      ReserveNothing(s.thread, s.kv, d.bytes);
    }
  }

  lemma ControlBeginDuring(b: Store, s: Store, d: Demand)
    requires During(b, s)
    ensures During(b, Keep(s, ControlBegin, d))
  {
    hide Within, Take, Distinct, Reserved;
    if d.bytes > s.control.capacity {
      FreshBlock(b, s);
      ReserveWithin(b.thread, s.thread, s.control, d.bytes);
      ReplaceDuring(b, s, Keep(s, ControlBegin, d), s.control, d.bytes);
    } else {
      ReserveNothing(s.thread, s.control, d.bytes);
    }
  }

  lemma ReserveNothing(t: Thread, a: Slab, bytes: nat)
    requires bytes <= a.capacity
    ensures Reserved(t, a, bytes) == (t, a)
  {
  }

  lemma FreshBlock(b: Store, s: Store)
    requires During(b, s)
    ensures !Names(s, s.thread.counter + 1)
  {
    hide Names;
    AllocateWithin(b.thread, s.thread);
  }

  lemma {:induction false} ReleaseAllWithin(b: Thread, t: Thread, ids: seq<nat>)
    requires Within(b, t) && Distinct(ids) && forall id | id in ids :: id in t.untracked
    ensures var t' := ReleaseAll(t, ids);
      && Within(b, t') && t'.tracked == t.tracked
      && (forall id :: id in t'.untracked <==> id in t.untracked && id !in ids)
      && (forall id | id in t.freed || id in ids :: id in t'.freed)
    decreases |ids|
  {
    hide Within, Take;
    if ids != [] {
      var n := |ids| - 1;
      ReleaseWithin(b, t, ids[n]);
      assert ids == ids[..n] + [ids[n]] && ids[n] !in ids[..n];
      ReleaseAllWithin(b, Take(t, Release(ids[n])), ids[..n]);
    }
  }

  lemma {:induction false} UntrackAllWithin(b: Thread, t: Thread, ids: seq<nat>)
    requires Within(b, t) && Distinct(ids) && forall id | id in ids :: id in t.tracked && id > b.counter
    ensures var t' := UntrackAll(t, ids);
      && Within(b, t') && t'.freed == t.freed
      && (forall id :: id in t'.untracked <==> id in t.untracked || id in ids)
    decreases |ids|
  {
    hide Within, Take;
    if ids != [] {
      UntrackWithin(b, t, ids[0]);
      assert ids == [ids[0]] + ids[1..] && ids[0] !in ids[1..];
      UntrackAllWithin(b, Take(t, Untrack(ids[0])), ids[1..]);
    }
  }

  lemma DropDuring(b: Store, s: Store, d: Demand)
    requires During(b, s)
    ensures During(b, Keep(s, DropPrefix, d))
  {
    hide Within, Grown;
    ReleaseAllWithin(b.thread, s.thread, s.prefix);
  }

  lemma AddBlockDuring(b: Store, s: Store, a: Action, d: Demand)
    requires During(b, s) && (a.NewEntry? || a.FillKv?)
    ensures During(b, Keep(s, a, d))
  {
    hide Within, Grown, Take, Apart, Building, Names, Distinct, Reserved, ReleaseAll, UntrackAll, Worked;
    AllocateWithin(b.thread, s.thread);
    CounterGrows(b.thread, s.thread);
    var s' := Keep(s, a, d);
    SameNames(s, s');
    BuildingMore(b, s, s', if a.NewEntry? then [] else s.building);
  }

  lemma BuildingMore(b: Store, s: Store, s': Store, kept: seq<nat>)
    requires Building(b, s) && b.thread.counter <= s.thread.counter && (kept == [] || kept == s.building)
    requires s.thread.counter + 1 !in s.thread.tracked && s'.thread.tracked == [s.thread.counter + 1] + s.thread.tracked
    requires s'.building == kept + [s.thread.counter + 1]
    ensures Building(b, s')
  {
    assert s.thread.counter + 1 !in s.building;
  }

  lemma SameNames(s: Store, s': Store)
    requires s'.work == s.work && s'.kv == s.kv && s'.control == s.control && s'.prefix == s.prefix
    ensures (forall id :: Names(s', id) <==> Names(s, id)) && (Apart(s) ==> Apart(s'))
  {
  }

  lemma InstallDuring(b: Store, s: Store, d: Demand)
    requires During(b, s) && s.prefix == []
    ensures During(b, Keep(s, Install, d))
  {
    hide Within, Grown, Take, Distinct;
    UntrackAllWithin(b.thread, s.thread, s.building);
    BuildingApart(b, s);
    var s' := Keep(s, Install, d);
    InstalledNames(s, s');
    hide Names, Apart, UntrackAll;
  }

  lemma InstalledNames(s: Store, s': Store)
    requires s.prefix == [] && s' == s.(thread := s'.thread, prefix := s.building, building := [])
    requires Apart(s) && Distinct(s.building) && forall id | id in s.building :: !Names(s, id)
    ensures (forall id :: Names(s', id) <==> Names(s, id) || id in s.building) && Apart(s')
  {
    hide Distinct;
  }

  /** What is being built is not named yet. */
  lemma BuildingApart(b: Store, s: Store)
    requires During(b, s)
    ensures forall id | id in s.building :: id !in s.thread.untracked && !Names(s, id)
  {
    hide Names, Grown;
    assert forall id | id in s.thread.tracked :: id !in s.thread.untracked;
  }

  lemma WorkDuring(b: Store, s: Store, ops: seq<Op>)
    requires During(b, s)
    ensures During(b, s.(thread := Worked(s.thread, s.building, ops)))
  {
    hide Within, Worked, Grown;
    WorkWithin(b.thread, s.thread, s.building, ops);
  }

  /** Every step of a call keeps what the session owns. */
  lemma KeepDuring(b: Store, s: Store, a: Action, d: Demand, phase: nat)
    requires During(b, s) && InOrder(a, phase) && InPhase(s, phase)
    ensures During(b, Keep(s, a, d)) && InPhase(Keep(s, a, d), Next(a, phase))
  {
    hide During, Reserved, ReleaseAll, UntrackAll, Worked, Take;
    match a
    case Work => WorkDuring(b, s, d.ops);
    case Begin => BeginDuring(b, s, d);
    case KvBegin => KvBeginDuring(b, s, d);
    case ControlBegin => ControlBeginDuring(b, s, d);
    case DropPrefix => DropDuring(b, s, d);
    case NewEntry => AddBlockDuring(b, s, a, d);
    case FillKv(_) => AddBlockDuring(b, s, a, d);
    case Install => InstallDuring(b, s, d);
    case _ =>
  }

  lemma BrokenDuring(b: Store, s: Store, a: Action, d: Demand, part: nat)
    requires During(b, s)
    ensures During(b, Broken(s, a, d, part))
  {
    hide During, Keep, Worked;
    if a.Work? && part <= |d.ops| {
      WorkDuring(b, s, d.ops[..part]);
    } else if a.NewEntry? || a.FillKv? {
      AddBlockDuring(b, s, a, d);
    }
  }

  lemma {:induction false} ThroughDuring(b: Store, s: Store, script: seq<Action>, ds: seq<Demand>, fault: nat,
                                         part: nat, phase: nat)
    requires During(b, s) && Orderly(script, phase) && InPhase(s, phase) && |ds| == |script|
    ensures During(b, Through(s, script, ds, fault, part).0)
    ensures Through(s, script, ds, fault, part).1 <==> fault >= |script|
    decreases |script|
  {
    hide During, Keep, Worked, InOrder, InPhase, Next;
    if script != [] {
      if fault == 0 {
        BrokenDuring(b, s, script[0], ds[0], part);
      } else {
        KeepDuring(b, s, script[0], ds[0], phase);
        ThroughDuring(b, Keep(s, script[0], ds[0]), script[1..], ds[1..], fault - 1, part, Next(script[0], phase));
      }
    }
  }

  // ----- between calls

  /** An idle session's memory: what it names is live, off every list, and serves one purpose each. */
  ghost predicate Idle(s: Store) {
    Inv(s.thread) && !s.thread.exited && Owned(s) && s.building == []
  }

  /** What a call that began on `b`, and whose steps had come to `reached`, leaves: of the blocks off every list the
      session names some, and the others are those it did not name before and, from a successful call that was in the
      only frame, all that was on its list, which is now the caller's. What is on the list is what was there before
      and, from a successful call in another frame, what the call left there. */
  ghost predicate Settled(b: Store, reached: Store, s: Store, ok: bool) {
    && Idle(s)
    && s.thread.frames == b.thread.frames && s.thread.cleanups == b.thread.cleanups
      && s.thread.status == b.thread.status
    && NoneLost(b, s) && SlabsGrown(b, s)
    && (forall id | id in b.thread.freed :: id in s.thread.freed)
    && (forall id | id <= b.thread.counter :: id in s.thread.tracked <==> id in b.thread.tracked)
    && (forall id :: id in s.thread.untracked && !Names(s, id) <==>
          (id in b.thread.untracked && !Names(b, id)) || (ok && b.thread.frames == [] && id in reached.thread.tracked))
    && (forall id :: id in s.thread.tracked <==>
          id in reached.thread.tracked && if ok then b.thread.frames != [] else id <= b.thread.counter)
  }

  /** What abandoning a frame does to the blocks. */
  lemma AbandonedBlocks(t: Thread, status: Status)
    requires Inv(t) && !t.exited && t.frames != []
    ensures Allowed(t, Die(status)) && Top(t).cleanupMark <= |t.cleanups|
    ensures var t' := Step(t, Die(status)); var older := UpTo(t.tracked, Top(t).mark);
      if |t.frames| == 1 then t'.tracked == [] && t'.untracked == t.untracked + SetOf(older)
      else t'.tracked == older && t'.untracked == t.untracked
  {
    hide Reverse, CleanupsConserved, Distinct, Above, UpTo, SetOf;
  }

  /** A thread that has gone one frame deeper. */
  ghost predicate Deeper(b: Thread, t: Thread) {
    && Inv(t) && !t.exited && t.frames == b.frames + [Frame(b.counter, |b.cleanups|, b.status)]
    && |b.cleanups| <= |t.cleanups| && t.cleanups[..|b.cleanups|] == b.cleanups
    && (forall id | id <= b.counter :: id in t.tracked <==> id in b.tracked)
  }

  /** A failing call abandons its frame: what it allocated is freed unless it was untracked, and nothing else
      happens. */
  lemma FailThread(b: Thread, t: Thread, status: Status)
    requires Inv(b) && !b.exited && Deeper(b, t)
    ensures Allowed(t, Die(status))
    ensures var t' := Step(t, Die(status));
      && Inv(t') && !t'.exited && t'.frames == b.frames && t'.cleanups == b.cleanups && t'.status == b.status
      && t'.untracked == t.untracked && (forall id | id in t.freed :: id in t'.freed)
      && (forall id :: id in t'.tracked <==> id in t.tracked && id <= b.counter)
  {
    hide Inv, Step, Allowed;
    FailEntered(b, t);
    AbandonedBlocks(t, status);
    FailOutside(b, t, status);
    OldBlocks(b);
    var older := UpTo(t.tracked, b.counter);
    assert b.frames == [] ==> forall id :: id !in older;
    assert b.frames == [] ==> SetOf(older) == {};
  }

  lemma FailEntered(b: Thread, t: Thread)
    requires Deeper(b, t)
    ensures Inv(t) && !t.exited && t.frames != [] && |t.frames| == |b.frames| + 1
  {
    hide Inv;
  }

  lemma FailOutside(b: Thread, t: Thread, status: Status)
    requires Inv(b) && !b.exited && Deeper(b, t)
    ensures Allowed(t, Die(status)) && Top(t) == Frame(b.counter, |b.cleanups|, b.status)
    ensures var t' := Step(t, Die(status));
      && Inv(t') && !t'.exited && t'.frames == b.frames && t'.cleanups == b.cleanups && t'.status == b.status
      && (forall id | id in t.freed :: id in t'.freed)
  {
    StepKeepsInv(t, Die(status));
    assert t.frames[..|b.frames|] == b.frames;
    FailureOf(b, t, status);
    AbandonExits(t, status);
  }

  lemma AbandonExits(t: Thread, status: Status)
    requires Inv(t) && !t.exited && t.frames != []
    ensures Allowed(t, Die(status)) && !Step(t, Die(status)).exited
    ensures forall id | id in t.freed :: id in Step(t, Die(status)).freed
  {
    hide Reverse, CleanupsConserved, Distinct, Above, UpTo, SetOf;
  }

  lemma Deepened(b: Thread, t: Thread)
    requires Within(b, t)
    ensures Deeper(b, t)
  {
  }

  /** A call that ends well hands what it left on the list to the caller, if no frame is left. */
  lemma FinishThread(b: Thread, t: Thread)
    requires Inv(b) && !b.exited && Within(b, t)
    ensures var t' := Take(Take(t, Disarm(|t.frames|, CALL_CLEANUP)), Leave);
      && Inv(t') && !t'.exited && t'.frames == b.frames && t'.cleanups == b.cleanups && t'.status == b.status
      && t'.freed == t.freed
      && (forall id :: id in t'.untracked <==> id in t.untracked || (b.frames == [] && id in t.tracked))
      && (forall id :: id in t'.tracked <==> b.frames != [] && id in t.tracked)
  {
    StepKeepsInv(t, Disarm(|t.frames|, CALL_CLEANUP));
    var disarmed := Take(t, Disarm(|t.frames|, CALL_CLEANUP));
    assert disarmed.frames == t.frames && disarmed.cleanups == b.cleanups && Top(disarmed).cleanupMark == |b.cleanups|;
    StepKeepsInv(disarmed, Leave);
    hide Conserved, CleanupsConserved, Nested;
  }

  lemma StartThread(b: Thread)
    requires Inv(b) && !b.exited
    ensures var entered := Take(b, Enter(REQUEST)); var armed := Take(entered, Push(|entered.frames|, CALL_CLEANUP));
      |b.cleanups| < CLEANUP_STACK_MAX ==>
        Within(b, armed) && armed.untracked == b.untracked && armed.freed == b.freed
  {
    StepKeepsInv(b, Enter(REQUEST));
    var entered := Take(b, Enter(REQUEST));
    StepKeepsInv(entered, Push(|entered.frames|, CALL_CLEANUP));
    hide CleanupsConserved, Distinct, Failed;
  }

  lemma RefuseThread(b: Thread)
    requires Inv(b) && !b.exited && |b.cleanups| >= CLEANUP_STACK_MAX
    ensures var entered := Take(b, Enter(REQUEST)); var t := Take(entered, Push(|entered.frames|, CALL_CLEANUP));
      && Inv(t) && !t.exited && t.frames == b.frames && t.cleanups == b.cleanups
      && t.status == b.status && t.untracked == b.untracked && (forall id | id in b.freed :: id in t.freed)
      && (forall id :: id in t.tracked <==> id in b.tracked)
  {
    StepKeepsInv(b, Enter(REQUEST));
    OldBlocks(b);
    var entered := Take(b, Enter(REQUEST));
    hide CleanupsConserved, Distinct, Failed, Conserved;
    assert Deeper(b, entered);
    FailThread(b, entered, INTERNAL);
    assert Step(entered, Push(|entered.frames|, CALL_CLEANUP)) == Step(entered, Die(INTERNAL));
  }

  lemma StartDuring(b: Store)
    requires Idle(b) && |b.thread.cleanups| < CLEANUP_STACK_MAX
    ensures During(b, Started(b))
  {
    hide Take, Within, Inv;
    StartThread(b.thread);
  }

  /** With no room for its cleanup a call fails at once. */
  lemma CannotStart(b: Store, script: seq<Action>, ds: seq<Demand>, fault: nat, part: nat, status: Status)
    requires Idle(b) && |b.thread.cleanups| >= CLEANUP_STACK_MAX && |ds| == |script|
    ensures Settled(b, b, Called(b, script, ds, fault, part, status).0, false)
      && !Called(b, script, ds, fault, part, status).1
  {
    IdleStart(b);
    hide Take, Inv, Through, Settled, Idle;
    RefuseThread(b.thread);
    var entered := Take(b.thread, Enter(REQUEST));
    ThreadOnlySettles(b, Take(entered, Push(|entered.frames|, CALL_CLEANUP)));
  }

  lemma ThreadOnlySettles(b: Store, t: Thread)
    requires Idle(b) && Inv(t) && !t.exited && t.frames == b.thread.frames && t.cleanups == b.thread.cleanups
    requires t.status == b.thread.status && t.untracked == b.thread.untracked
    requires forall id | id in b.thread.freed :: id in t.freed
    requires forall id :: id in t.tracked <==> id in b.thread.tracked
    ensures Settled(b, b, b.(thread := t), false)
  {
    OldBlocks(b.thread);
    hide Inv, Distinct;
  }

  lemma OldBlocks(t: Thread)
    requires Inv(t) && !t.exited
    ensures forall id | id in t.tracked || id in t.untracked || id in t.freed :: 1 <= id <= t.counter
    ensures t.frames == [] ==> t.tracked == []
  {
  }

  lemma FailTaken(b: Thread, t: Thread, status: Status)
    requires Inv(b) && !b.exited && Within(b, t)
    ensures var t' := Take(t, Die(status));
      && Inv(t') && !t'.exited && t'.frames == b.frames && t'.cleanups == b.cleanups && t'.status == b.status
      && t'.untracked == t.untracked && (forall id | id in t.freed || id in b.freed :: id in t'.freed)
      && (forall id :: id in t'.tracked <==> id in t.tracked && id <= b.counter)
      && (forall id | id <= b.counter :: id in t'.tracked <==> id in b.tracked)
  {
    hide Step, Allowed;
    WithinMeans(b, t);
    Deepened(b, t);
    FailThread(b, t, status);
    FailEntered(b, t);
  }

  lemma FailSettles(b: Store, s: Store, status: Status)
    requires Idle(b) && During(b, s)
    ensures Settled(b, s, s.(thread := Take(s.thread, Die(status)), building := []), false)
  {
    hide Take, Within, Inv, Distinct, Grown;
    FailTaken(b.thread, s.thread, status);
  }

  lemma FinishTaken(b: Thread, t: Thread)
    requires Inv(b) && !b.exited && Within(b, t)
    ensures var t' := Take(Take(t, Disarm(|t.frames|, CALL_CLEANUP)), Leave);
      && Inv(t') && !t'.exited && t'.frames == b.frames && t'.cleanups == b.cleanups && t'.status == b.status
      && (forall id | id in t.freed || id in b.freed :: id in t'.freed)
      && (forall id :: id in t'.untracked <==> id in t.untracked || (b.frames == [] && id in t.tracked))
      && (forall id :: id in t'.tracked <==> b.frames != [] && id in t.tracked)
      && (forall id | id in t.tracked :: id !in t.untracked)
      && (forall id | id <= b.counter :: id in t'.tracked <==> id in b.tracked)
  {
    OldBlocks(b);
    WithinMeans(b, t);
    FinishThread(b, t);
    hide Inv, Within, Take;
  }

  lemma FinishSettles(b: Store, s: Store)
    requires Idle(b) && During(b, s)
    ensures Settled(b, s, s.(thread := Take(Take(s.thread, Disarm(|s.thread.frames|, CALL_CLEANUP)), Leave),
      building := []), true)
  {
    hide Take, Within, Inv, Distinct, Grown;
    FinishTaken(b.thread, s.thread);
  }

  lemma WithinMeans(b: Thread, t: Thread)
    requires Within(b, t)
    ensures forall id | id <= b.counter :: id in t.tracked <==> id in b.tracked
    ensures forall id | id in b.freed :: id in t.freed
  {
  }

  lemma IdleStart(b: Store)
    requires Idle(b)
    ensures Inv(b.thread) && !b.thread.exited
  {
  }

  /** How far a call's steps come: nowhere, if there is no room for its cleanup. */
  ghost function Reached(b: Store, script: seq<Action>, ds: seq<Demand>, fault: nat, part: nat): Store
    requires |ds| == |script|
  {
    if |b.thread.cleanups| >= CLEANUP_STACK_MAX then b else Through(Started(b), script, ds, fault, part).0
  }

  /** Any call, with any demands, failing anywhere or nowhere: the session's blocks stay its own. Each is live and off
      every list; what a slab or the entry was replaced for is freed; a call that fails leaves no other block behind,
      so that all it allocated is freed or named; and one that succeeds leaves off the list, besides, exactly what it
      hands to a caller with no frame. */
  lemma CallSettles(b: Store, script: seq<Action>, ds: seq<Demand>, fault: nat, part: nat, status: Status)
    requires Idle(b) && Orderly(script, 0) && |ds| == |script|
    ensures var (s, ok) := Called(b, script, ds, fault, part, status);
      && Settled(b, Reached(b, script, ds, fault, part), s, ok)
      && (ok <==> fault >= |script| && |b.thread.cleanups| < CLEANUP_STACK_MAX)
  {
    hide *;
    ReachedIs(b, script, ds, fault, part);
    if |b.thread.cleanups| >= CLEANUP_STACK_MAX {
      CannotStart(b, script, ds, fault, part, status);
    } else {
      CalledIs(b, script, ds, fault, part, status);
      StartDuring(b);
      InPhaseZero(Started(b));
      ThroughDuring(b, Started(b), script, ds, fault, part, 0);
      var s := Through(Started(b), script, ds, fault, part).0;
      if fault >= |script| {
        FinishSettles(b, s);
      } else {
        FailSettles(b, s, status);
      }
    }
  }

  lemma ReachedIs(b: Store, script: seq<Action>, ds: seq<Demand>, fault: nat, part: nat)
    requires |ds| == |script|
    ensures |b.thread.cleanups| >= CLEANUP_STACK_MAX ==> Reached(b, script, ds, fault, part) == b
    ensures |b.thread.cleanups| < CLEANUP_STACK_MAX ==>
      Reached(b, script, ds, fault, part) == Through(Started(b), script, ds, fault, part).0
  {
    hide Through;
  }

  lemma InPhaseZero(s: Store)
    ensures InPhase(s, 0)
  {
  }

  lemma CalledIs(b: Store, script: seq<Action>, ds: seq<Demand>, fault: nat, part: nat, status: Status)
    requires |b.thread.cleanups| < CLEANUP_STACK_MAX && |ds| == |script|
    ensures var (s, ok) := Through(Started(b), script, ds, fault, part);
      Called(b, script, ds, fault, part, status) ==
        if ok then (s.(thread := Take(Take(s.thread, Disarm(|s.thread.frames|, CALL_CLEANUP)), Leave),
          building := []), true)
        else (s.(thread := Take(s.thread, Die(status)), building := []), false)
  {
    hide Take, Through;
  }

  lemma {:induction false} ThroughStops(s: Store, script: seq<Action>, ds: seq<Demand>, fault: nat, part: nat)
    requires |ds| == |script| && fault < |script|
    ensures Through(s, script, ds, fault, part).0
      == Broken(Through(s, script[..fault], ds[..fault], fault, part).0, script[fault], ds[fault], part)
    ensures !Through(s, script, ds, fault, part).1
    decreases |script|
  {
    hide Keep, Broken;
    if fault > 0 {
      ThroughStops(Keep(s, script[0], ds[0]), script[1..], ds[1..], fault - 1, part);
      assert script[..fault][1..] == script[1..][..fault - 1] && ds[..fault][1..] == ds[1..][..fault - 1];
    }
  }

  /** The failing step itself changes nothing the session names: a slab that could not grow keeps its block and its
      capacity, and the entry is what the steps before made it. */
  lemma FailureChangesNothing(b: Store, script: seq<Action>, ds: seq<Demand>, fault: nat, part: nat, status: Status)
    requires Idle(b) && |b.thread.cleanups| < CLEANUP_STACK_MAX && |ds| == |script| && fault < |script|
    ensures var s := Called(b, script, ds, fault, part, status).0;
      var reached := Through(Started(b), script[..fault], ds[..fault], fault, part).0;
      s.work == reached.work && s.kv == reached.kv && s.control == reached.control && s.prefix == reached.prefix
  {
    hide Take, Through, Worked;
    CalledIs(b, script, ds, fault, part, status);
    ThroughStops(Started(b), script, ds, fault, part);
  }

  /** Running out of memory is a failure like any other. */
  lemma OutOfMemoryFails(t: Thread)
    requires Inv(t) && !t.exited
    ensures Step(t, Allocate(false)) == Step(t, Die(OUT_OF_MEMORY))
  {
    hide Failed;
  }

  // ----- the scripts of the calls

  /** Where a script leaves the replacement. */
  function Phase(script: seq<Action>, phase: nat): nat {
    if script == [] then phase else Phase(script[1..], Next(script[0], phase))
  }

  lemma {:induction false} OrderlySplit(a: seq<Action>, b: seq<Action>, phase: nat)
    ensures Orderly(a + b, phase) <==> Orderly(a, phase) && Orderly(b, Phase(a, phase))
    ensures Phase(a + b, phase) == Phase(b, Phase(a, phase))
    decreases |a|
  {
    hide InOrder, Next;
    if a == [] {
      assert a + b == b;
    } else {
      assert (a + b)[1..] == a[1..] + b;
      OrderlySplit(a[1..], b, Next(a[0], phase));
    }
  }

  /** Steps that leave the prefix alone. */
  predicate Neutral(script: seq<Action>) {
    forall i | 0 <= i < |script| :: !script[i].DropPrefix? && !script[i].NewEntry? && !script[i].FillKv?
      && !script[i].Install?
  }

  lemma {:induction false} NeutralOrderly(script: seq<Action>, phase: nat)
    requires Neutral(script)
    ensures Orderly(script, phase) && Phase(script, phase) == phase
    decreases |script|
  {
    if script != [] {
      NeutralOrderly(script[1..], phase);
    }
  }

  lemma {:induction false} ReadsNeutral(n: nat)
    ensures Neutral(Reads(n))
  {
    if n > 0 {
      ReadsNeutral(n - 1);
    }
  }

  lemma RowOrderly(r: Request)
    ensures Orderly(Row(r), 0) && Phase(Row(r), 0) == 0
  {
    ReadsNeutral(r.n);
    if r.Hit? {
      NeutralOrderly(Row(r), 0);
    } else {
      var first, last := [Work, KvBegin, Work], Reads(r.n) + [KvEnd, Work];
      var replace := [DropPrefix, NewEntry, FillSchema(r.text), FillIds(r.ids), Begin, Work, End, Work,
        FillKv(r.rows), Install];
      assert Row(r) == first + (replace + last);
      NeutralOrderly(first, 0);
      NeutralOrderly(last, 0);
      ReplaceOrderly(r.text, r.ids, r.rows);
      OrderlySplit(first, replace + last, 0);
      OrderlySplit(replace, last, 0);
    }
  }

  lemma ReplaceOrderly(text: Text, ids: seq<int>, rows: Rows)
    ensures var replace := [DropPrefix, NewEntry, FillSchema(text), FillIds(ids), Begin, Work, End, Work,
      FillKv(rows), Install];
      Orderly(replace, 0) && Phase(replace, 0) == 0
  {
    hide Orderly, Phase;
    var drop, begun, fill := [DropPrefix], [NewEntry], [FillSchema(text), FillIds(ids), Begin, Work, End, Work];
    var stored, last := [FillKv(rows)], [Install];
    ReplaceParts(text, ids, rows);
    OneStep(DropPrefix, 0);
    OneStep(NewEntry, 1);
    NeutralOrderly(fill, 2);
    OneStep(FillKv(rows), 2);
    OneStep(Install, 3);
    hide *;
    OrderlySplit(drop, begun + (fill + (stored + last)), 0);
    OrderlySplit(begun, fill + (stored + last), 1);
    OrderlySplit(fill, stored + last, 2);
    OrderlySplit(stored, last, 2);
  }

  lemma ReplaceParts(text: Text, ids: seq<int>, rows: Rows)
    ensures [DropPrefix, NewEntry, FillSchema(text), FillIds(ids), Begin, Work, End, Work, FillKv(rows), Install]
         == [DropPrefix] + ([NewEntry] + ([FillSchema(text), FillIds(ids), Begin, Work, End, Work]
           + ([FillKv(rows)] + [Install])))
  {
  }

  lemma OneStep(a: Action, phase: nat)
    requires InOrder(a, phase)
    ensures Orderly([a], phase) && Phase([a], phase) == Next(a, phase)
  {
    assert [a][1..] == [];
  }

  lemma {:induction false} RowsOrderly(rs: seq<Request>)
    ensures Orderly(EachRow(rs), 0)
    decreases |rs|
  {
    hide Row, Orderly;
    if rs == [] {
      NeutralOrderly([], 0);
    } else {
      RowOrderly(rs[0]);
      RowsOrderly(rs[1..]);
      OrderlySplit(Row(rs[0]), EachRow(rs[1..]), 0);
    }
  }

  /** Every call replaces its prefix entry in order, if at all. */
  lemma ScriptOrderly(c: Call)
    ensures Orderly(Script(c), 0)
  {
    match c
    case OneByOne(rows) =>
      RowsOrderly(rows);
      NeutralOrderly([Work], 0);
      OrderlySplit([Work], EachRow(rows), 0);
    case Together(n) =>
      ReadsNeutral(n);
      NeutralOrderly(Script(c), 0);
  }

  // ----- the session's flags and its memory together

  /** The session names an entry's two blocks exactly while it has an entry. */
  ghost predicate Linked(st: Sessions.State, s: Store) {
    if st.prefix.Some? then |s.prefix| == 2 else s.prefix == []
  }

  lemma {:induction false} ThroughLinked(st: Sessions.State, s: Store, script: seq<Action>, ds: seq<Demand>, fault: nat,
                                         part: nat, phase: nat)
    requires |ds| == |script| && Orderly(script, phase) && InPhase(s, phase) && Linked(st, s)
    requires Sessions.Run(st, script, |script|).1
    ensures Linked(Sessions.Run(st, script, fault).0, Through(s, script, ds, fault, part).0)
    decreases |script|
  {
    hide Reserved, ReleaseAll, UntrackAll, Worked, Take;
    if script != [] && fault > 0 {
      ThroughLinked(Do(st, script[0]).value, Keep(s, script[0], ds[0]), script[1..], ds[1..], fault - 1, part,
        Next(script[0], phase));
    }
  }

  /** A session, its flags and its memory. */
  datatype Held = Held(flags: Sessions.State, store: Store)

  /** What happens over time: a call with its demands and its failure, or anything else on the thread. */
  datatype Event =
    | Call(c: Sessions.Call, ds: seq<Demand>, fault: nat, part: nat, status: Status)
    | Elsewhere(op: Op)

  /** The rest of the program does not touch the session's blocks. */
  ghost predicate Foreign(s: Store, op: Op) {
    op.Reallocate? || op.Release? || op.Untrack? ==> !Names(s, op.id)
  }

  ghost function Happened(h: Held, e: Event): Held {
    match e
    case Call(c, ds, fault, part, status) =>
      if h.flags.poisoned || |ds| != |Script(c)| then h
      else
        var struck := if |h.store.thread.cleanups| >= CLEANUP_STACK_MAX then 0 else fault;
        Held(Sessions.Called(h.flags, c, struck).0, Called(h.store, Script(c), ds, fault, part, status).0)
    case Elsewhere(op) =>
      if Foreign(h.store, op) && !Take(h.store.thread, op).exited
        then h.(store := h.store.(thread := Take(h.store.thread, op))) else h
  }

  ghost function History(h: Held, es: seq<Event>): Held
    decreases |es|
  {
    if es == [] then h else Happened(History(h, es[..|es| - 1]), es[|es| - 1])
  }

  ghost predicate Sane(rowsOf: seq<int> -> Rows, h: Held) {
    !h.flags.Flagged() && PrefixOk(rowsOf, h.flags) && Idle(h.store) && Linked(h.flags, h.store)
  }

  lemma FailedStays(t: Thread)
    requires t.frames != [] ==> Top(t).cleanupMark <= |t.cleanups|
    ensures forall id | id in t.untracked :: id in Failed(t).untracked
    ensures forall id | id in t.freed :: id in Failed(t).freed
  {
    hide Reverse, Above, UpTo, SetOf;
  }

  lemma LeaveStays(t: Thread)
    requires t.frames != []
    ensures forall id | id in t.untracked :: id in Popped(t).untracked
    ensures Popped(t).freed == t.freed
    ensures Top(t).cleanupMark <= |t.cleanups| ==> Popped(Swept(Frames.Cleaned(t))) == Failed(t)
  {
    hide Reverse, Above, UpTo, SetOf;
  }

  lemma MoveStays(t: Thread, id: nat)
    ensures MovedToFront(t, id).untracked == t.untracked && MovedToFront(t, id).freed == t.freed
    ensures MovedToFront(t, id).frames == t.frames && MovedToFront(t, id).cleanups == t.cleanups
  {
    hide Without;
  }

  /** A thread's steps keep untracked blocks they do not name, and freed ones. */
  lemma BlocksStay(t: Thread, op: Op, id: nat)
    requires Inv(t) && Allowed(t, op)
    ensures id in t.untracked && op != Release(id) ==> id in Step(t, op).untracked
    ensures id in t.freed ==> id in Step(t, op).freed
  {
    hide Failed, Inv, Without, Popped, Swept, Frames.Cleaned, MovedToFront, Allocated;
    CleanupsAboveMark(t);
    AllocatedStays(t);
    var u := if op.Reallocate? then MovedToFront(t, op.id) else t;
    MoveStays(t, if op.Reallocate? then op.id else 0);
    FailedStays(t);
    FailedStays(u.(status := OUT_OF_MEMORY));
    FailedStays(u.(status := INTERNAL));
    FailedStays(u.(status := if op.Die? then op.status else 0));
    if t.frames != [] {
      LeaveStays(t);
    }
  }

  lemma AllocatedStays(t: Thread)
    ensures Allocated(t).freed == t.freed && forall id | id in t.untracked :: id in Allocated(t).untracked
  {
  }

  lemma ElsewhereKeeps(s: Store, op: Op)
    requires Idle(s) && Foreign(s, op) && !Take(s.thread, op).exited
    ensures var s' := s.(thread := Take(s.thread, op)); Idle(s') && NoneLost(s, s')
    ensures forall id | id in s.thread.freed :: id in Take(s.thread, op).freed
  {
    var s' := s.(thread := Take(s.thread, op));
    SameNames(s, s');
    if Allowed(s.thread, op) {
      StepKeepsInv(s.thread, op);
      forall id | Names(s, id)
        ensures id in s'.thread.untracked
      {
        BlocksStay(s.thread, op, id);
      }
      forall id | id in s.thread.freed
        ensures id in s'.thread.freed
      {
        BlocksStay(s.thread, op, id);
      }
    }
  }

  lemma HappenedKeeps(rowsOf: seq<int> -> Rows, h: Held, e: Event)
    requires Sane(rowsOf, h) && (e.Call? ==> Computes(rowsOf, e.c))
    ensures Sane(rowsOf, Happened(h, e)) && NoneLost(h.store, Happened(h, e).store)
    ensures forall id | id in h.store.thread.freed :: id in Happened(h, e).store.thread.freed
  {
    match e
    case Elsewhere(op) =>
      if Foreign(h.store, op) && !Take(h.store.thread, op).exited {
        ElsewhereKeeps(h.store, op);
      }
    case Call(c, ds, fault, part, status) =>
      if !h.flags.poisoned && |ds| == |Script(c)| {
        CallKeeps(rowsOf, h, c, ds, fault, part, status);
      }
  }

  lemma CallKeeps(rowsOf: seq<int> -> Rows, h: Held, c: Sessions.Call, ds: seq<Demand>, fault: nat, part: nat,
                  status: Status)
    requires Sane(rowsOf, h) && Computes(rowsOf, c) && !h.flags.poisoned && |ds| == |Script(c)|
    ensures var h' := Happened(h, Call(c, ds, fault, part, status));
      Sane(rowsOf, h') && NoneLost(h.store, h'.store)
      && forall id | id in h.store.thread.freed :: id in h'.store.thread.freed
  {
    var b := h.store;
    var full := |b.thread.cleanups| >= CLEANUP_STACK_MAX;
    var struck := if full then 0 else fault;
    CallOutcome(rowsOf, h.flags, c, struck);
    ScriptOrderly(c);
    CallSettles(b, Script(c), ds, fault, part, status);
    ScriptRun(rowsOf, h.flags, c, |Script(c)|);
    ThroughLinked(h.flags, Started(b), Script(c), ds, struck, part, 0);
    hide Script, Take, Names, Apart, During, Through;
  }

  /** A new session, on a thread at any point. */
  ghost function Created(t: Thread): Held {
    Held(FRESH, Store(t, Slab(None, 0), Slab(None, 0), Slab(None, 0), [], []))
  }

  /** Over every sequence of calls, with a failure at any step of any of them and anything else happening on the
      thread in between: a session is idle between calls; every arena and prefix block it names is live, off every
      list and not freed; it names an entry's blocks exactly while it has an entry, which is complete; and every block
      it ever named is still named or was freed. */
  lemma {:induction false} EverySessionKeepsItsMemory(rowsOf: seq<int> -> Rows, t: Thread, es: seq<Event>, i: nat)
    requires Inv(t) && !t.exited && i <= |es|
    requires forall k | 0 <= k < |es| && es[k].Call? :: Computes(rowsOf, es[k].c)
    ensures var h, past := History(Created(t), es), History(Created(t), es[..i]);
      && !h.flags.Flagged() && PrefixOk(rowsOf, h.flags) && Linked(h.flags, h.store)
      && (forall id | Names(h.store, id) :: id in h.store.thread.untracked && id !in h.store.thread.freed)
      && (forall id | Names(past.store, id) :: Names(h.store, id) || id in h.store.thread.freed)
      && Sane(rowsOf, h) && (forall id | id in past.store.thread.freed :: id in h.store.thread.freed)
    decreases |es|
  {
    hide Names, Apart, Take, Happened;
    var h := History(Created(t), es);
    if i == |es| {
      assert es[..i] == es;
      if es == [] {
        NothingNamed(t);
      } else {
        EverySessionKeepsItsMemory(rowsOf, t, es[..i - 1], i - 1);
        HappenedKeeps(rowsOf, History(Created(t), es[..i - 1]), es[i - 1]);
      }
    } else {
      var n := |es| - 1;
      EverySessionKeepsItsMemory(rowsOf, t, es[..n], i);
      assert es[..n][..i] == es[..i];
      HappenedKeeps(rowsOf, History(Created(t), es[..n]), es[n]);
    }
    LiveIsNotFreed(h.store);
  }

  lemma NothingNamed(t: Thread)
    requires Inv(t) && !t.exited
    ensures Idle(Created(t).store) && forall id :: !Names(Created(t).store, id)
  {
  }

  lemma LiveIsNotFreed(s: Store)
    requires Idle(s)
    ensures forall id | Names(s, id) :: id in s.thread.untracked && id !in s.thread.freed
  {
    hide Names;
  }

  // ----- the end of a session

  ghost function ReleaseSlab(t: Thread, a: Slab): Thread {
    if a.block.Some? then Take(t, Release(a.block.value)) else t
  }

  /** Freeing a session: the blocks of its three arenas, then those of its prefix entry. */
  ghost function Destroyed(s: Store): Store {
    var arenas := ReleaseSlab(ReleaseSlab(ReleaseSlab(s.thread, s.work), s.kv), s.control);
    Store(ReleaseAll(arenas, s.prefix), Slab(None, 0), Slab(None, 0), Slab(None, 0), [], [])
  }

  /** The blocks `gone` are released, and nothing else has changed. */
  ghost predicate ReleasedOnly(b: Thread, t: Thread, gone: set<nat>) {
    && Inv(t) && !t.exited && t.counter == b.counter && t.tracked == b.tracked && t.untracked == b.untracked - gone
    && t.frames == b.frames && t.cleanups == b.cleanups && t.status == b.status
    && (forall id :: id in t.freed <==> id in b.freed || id in gone)
  }

  lemma ReleaseMore(b: Thread, t: Thread, gone: set<nat>, id: nat)
    requires ReleasedOnly(b, t, gone) && id in b.untracked && id !in gone
    ensures ReleasedOnly(b, Take(t, Release(id)), gone + {id})
  {
    StepKeepsInv(t, Release(id));
  }

  lemma {:induction false} ReleaseRest(b: Thread, t: Thread, gone: set<nat>, ids: seq<nat>)
    requires ReleasedOnly(b, t, gone) && Distinct(ids)
    requires forall id | id in ids :: id in b.untracked && id !in gone
    ensures ReleasedOnly(b, ReleaseAll(t, ids), gone + SetOf(ids))
    decreases |ids|
  {
    hide Take, Inv;
    if ids == [] {
      assert gone + SetOf(ids) == gone;
    } else {
      var n := |ids| - 1;
      assert ids == ids[..n] + [ids[n]];
      ReleaseMore(b, t, gone, ids[n]);
      ReleaseRest(b, Take(t, Release(ids[n])), gone + {ids[n]}, ids[..n]);
      assert gone + {ids[n]} + SetOf(ids[..n]) == gone + SetOf(ids);
    }
  }

  /** The block of an arena, if it has one. */
  ghost function BlockOf(a: Slab): set<nat> {
    if a.block.Some? then {a.block.value} else {}
  }

  lemma ReleaseOneSlab(b: Thread, t: Thread, gone: set<nat>, a: Slab)
    requires ReleasedOnly(b, t, gone) && (a.block.Some? ==> a.block.value in b.untracked && a.block.value !in gone)
    ensures ReleasedOnly(b, ReleaseSlab(t, a), gone + BlockOf(a))
  {
    if a.block.Some? {
      ReleaseMore(b, t, gone, a.block.value);
    } else {
      assert gone + BlockOf(a) == gone;
    }
  }

  /** Freeing an idle session releases exactly the blocks it names, each once, and touches nothing else. */
  lemma DestroyedReleases(s: Store)
    requires Idle(s)
    ensures ReleasedOnly(s.thread, Destroyed(s).thread, set id | id in s.thread.untracked && Names(s, id))
    ensures forall id | Names(s, id) :: id in Destroyed(s).thread.freed && id !in s.thread.freed
    ensures forall id :: !Names(Destroyed(s), id)
  {
    var t, named := s.thread, set id | id in s.thread.untracked && Names(s, id);
    var one := BlockOf(s.work);
    var two := one + BlockOf(s.kv);
    var three := two + BlockOf(s.control);
    hide Take, Inv, ReleaseSlab, ReleaseAll;
    NoneReleased(t);
    LiveIsNotFreed(s);
    ReleaseOneSlab(t, t, {}, s.work);
    assert {} + one == one;
    ReleaseOneSlab(t, ReleaseSlab(t, s.work), one, s.kv);
    ReleaseOneSlab(t, ReleaseSlab(ReleaseSlab(t, s.work), s.kv), two, s.control);
    var arenas := ReleaseSlab(ReleaseSlab(ReleaseSlab(t, s.work), s.kv), s.control);
    ReleaseRest(t, arenas, three, s.prefix);
    assert three + SetOf(s.prefix) == named;
  }

  lemma NoneReleased(t: Thread)
    requires Inv(t) && !t.exited
    ensures ReleasedOnly(t, t, {})
  {
  }

  /** After a session is freed, at any point of its history, every block it ever named is freed. */
  lemma SessionFreeLeavesNothing(rowsOf: seq<int> -> Rows, t: Thread, es: seq<Event>, i: nat)
    requires Inv(t) && !t.exited && i <= |es|
    requires forall k | 0 <= k < |es| && es[k].Call? :: Computes(rowsOf, es[k].c)
    ensures var h, past := History(Created(t), es), History(Created(t), es[..i]);
      var end := Destroyed(h.store);
      && (forall id | Names(past.store, id) :: id in end.thread.freed)
      && (forall id :: id in end.thread.untracked <==> id in h.store.thread.untracked && !Names(h.store, id))
      && Inv(end.thread) && end.thread.tracked == h.store.thread.tracked
  {
    EverySessionKeepsItsMemory(rowsOf, t, es, i);
    var h := History(Created(t), es);
    DestroyedReleases(h.store);
    hide History, Names, Inv, Destroyed, Owned;
  }

  // ----- the arena object

  /** A grow-only arena of a session. */
  class SessionArena {
    var allocation: Allocations.Allocation?
    var capacity: nat
    var size: nat
    var used: nat
    var peak: nat

    function Value(): Slab
      reads this, allocation
    {
      Slab(if allocation == null then None else Some(allocation.sequence), capacity)
    }

    constructor ()
      ensures Value() == Slab(None, 0) && allocation == null
    {
      allocation, capacity, size, used, peak := null, 0, 0, 0, 0;
    }

    /** Makes the arena ready for a plan of `required` bytes, growing it if it must; without memory the call fails,
        and the arena is as it was. */
    method Reserve(thread: Allocations.Thread, required: nat, available: bool) returns (ok: bool)
      requires thread.Valid() && !thread.exited
      requires allocation != null ==> thread.Owns(allocation) && !allocation.tracked
      modifies this, thread, thread.Nodes()
      ensures thread.Valid() && (ok <==> required <= old(capacity) || available)
      ensures ok ==> (thread.Abs(), Value()) == Reserved(old(thread.Abs()), old(Value()), required)
      ensures ok ==> size == required && used == 0 && peak == 0
      ensures ok && allocation != null ==> thread.Owns(allocation) && !allocation.tracked
      ensures !ok ==> thread.Abs() == Step(old(thread.Abs()), Op.Die(OUT_OF_MEMORY))
      ensures !ok ==> Value() == old(Value()) && allocation == old(allocation) && size == old(size) && used == old(used)
    {
      hide Inv, Step, Take, Allocations.Chain, Allocations.Ids, Reserved, Allowed, Failed;
      hide Allocations.Thread.Valid, Allocations.Thread.Nodes, Allocations.Thread.Owns, Allocations.Thread.Abs;
      ReservedIs(thread.Abs(), Value(), required);
      IdleThread(thread);
      if required > capacity {
        OutOfMemoryFails(thread.Abs());
        var grown := Init(thread, required, available);
        if grown == null {
          return false;
        }
        Replace(thread, grown, required);
      }
      size, used, peak := required, 0, 0;
      ok := true;
    }

    /** Releases the arena's block, if it has one. */
    method Free(thread: Allocations.Thread)
      requires thread.Valid() && !thread.exited && (allocation != null ==> thread.Owns(allocation))
      modifies this, thread, thread.Nodes()
      ensures thread.Valid() && allocation == null && Value() == Slab(None, 0) && size == used == peak == 0
      ensures thread.Abs() == ReleaseSlab(old(thread.Abs()), old(Value()))
    {
      hide Inv, Step, Take, Allocations.Chain, Allocations.Ids, Allowed;
      hide Allocations.Thread.Valid, Allocations.Thread.Nodes, Allocations.Thread.Owns, Allocations.Thread.Abs;
      IdleThread(thread);
      if allocation != null {
        thread.LiveId(allocation);
        Allocations.ReleaseStep(thread.Abs(), allocation.sequence);
        TakeIsStep(thread.Abs(), Op.Release(allocation.sequence));
        thread.Release(allocation);
      }
      allocation, capacity, size, used, peak := null, 0, 0, 0, 0;
    }

    /** Installs a larger block and releases the old one. */
    method Replace(thread: Allocations.Thread, grown: Allocations.Allocation, required: nat)
      requires thread.Valid() && !thread.exited && thread.Owns(grown) && !grown.tracked
      requires allocation != null ==>
        thread.Owns(allocation) && !allocation.tracked && allocation.sequence != grown.sequence
      modifies this`allocation, this`capacity, thread, thread.Nodes()
      ensures thread.Valid() && allocation == grown && thread.Owns(grown) && !grown.tracked
        && grown.sequence == old(grown.sequence)
      ensures capacity == required
      ensures thread.Abs() == if old(allocation) == null then old(thread.Abs())
                              else Take(old(thread.Abs()), Op.Release(old(allocation.sequence)))
    {
      hide Inv, Step, Take, Allocations.Chain, Allocations.Ids;
      if allocation != null {
        Allocations.ReleaseStep(thread.Abs(), allocation.sequence);
        TakeIsStep(thread.Abs(), Op.Release(allocation.sequence));
        thread.Release(allocation);
      }
      allocation, capacity := grown, required;
    }

    /** A new block for an arena, off the list. */
    method Init(thread: Allocations.Thread, required: nat, available: bool) returns (grown: Allocations.Allocation?)
      requires thread.Valid() && !thread.exited
      requires allocation != null ==> thread.Owns(allocation) && !allocation.tracked
      modifies thread, thread.Nodes()
      ensures thread.Valid() && (grown == null <==> !available)
      ensures grown == null ==> thread.Abs() == Step(old(thread.Abs()), Op.Allocate(false))
      ensures grown != null ==> fresh(grown) && !thread.exited && thread.Owns(grown) && !grown.tracked
      ensures grown != null ==> forall x | x in thread.Nodes() :: x in old(thread.Nodes())
      ensures allocation != null ==> allocation.sequence == old(allocation.sequence) && !allocation.tracked
      ensures grown != null && allocation != null ==> thread.Owns(allocation) && allocation.sequence != grown.sequence
      ensures grown != null ==> var t := Take(old(thread.Abs()), Op.Allocate(true));
        grown.sequence == t.counter && thread.Abs() == Take(t, Op.Untrack(t.counter))
    {
      hide Inv, Step, Take, Allocations.Chain, Allocations.Ids;
      ghost var t := thread.Abs();
      TakeIsStep(t, Op.Allocate(true));
      AllocateKeepsUntracked(t);
      grown := thread.Allocate((if required == 0 then 1 else required) + 63, available);
      if grown != null {
        TakeIsStep(thread.Abs(), Op.Untrack(grown.sequence));
        thread.Untrack(grown);
      }
    }
  }

  lemma IdleThread(thread: Allocations.Thread)
    requires thread.Valid()
    ensures Inv(thread.Abs()) && thread.Abs().exited == thread.exited
  {
  }

  lemma ReservedIs(t: Thread, a: Slab, bytes: nat)
    ensures bytes <= a.capacity ==> Reserved(t, a, bytes) == (t, a)
    ensures bytes > a.capacity ==>
      var grown := Take(t, Allocate(true)); var kept := Take(grown, Untrack(grown.counter));
      Reserved(t, a, bytes) ==
        (if a.block.Some? then Take(kept, Release(a.block.value)) else kept, Slab(Some(grown.counter), bytes))
  {
    hide Take;
  }

  lemma TakeIsStep(t: Thread, op: Op)
    requires Inv(t)
    ensures Allowed(t, op) ==> Take(t, op) == Step(t, op)
  {
    hide Inv, Step;
  }

  lemma AllocateKeepsUntracked(t: Thread)
    requires Inv(t) && !t.exited
    ensures var u := Step(t, Allocate(true));
      !u.exited && Inv(u)
      && (forall id | id in t.untracked :: id in u.untracked && (id in Step(u, Untrack(u.counter)).untracked))
      && u.counter !in t.untracked && (u.counter in u.tracked || u.counter in u.untracked)
        && !Step(u, Untrack(u.counter)).exited
  {
    StepKeepsInv(t, Allocate(true));
  }
}
