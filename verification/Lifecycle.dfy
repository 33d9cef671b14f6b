/** Models, sessions and calls as interleaved atomic steps (src/api.inc:1-31, 190-215, 380-389, 574-606). Any number
    of calls are in progress, from any threads or from inside a log callback; clients respect ownership and nothing
    else. */
module Lifecycle {
  const UINT_MAX: nat := 0xFFFF_FFFF

  datatype Session = Session(busy: bool, poisoned: bool, error: bool)

  /** What a reference is being taken for: the client's own, a new session's, or a failure report's. */
  datatype Why = Client | Creation | Report(s: nat)

  /** Where a call in progress is. */
  datatype Op =
    | Loading(why: Why)                  // jb_model_retain, before its load
    | Swapping(why: Why, seen: nat)      // in its compare-and-exchange loop
    | Creating                           // jb_session_create_json, before the retain
    | Publishing                         // after it
    | Ready(s: nat)                      // a decide call that has set the busy flag
    | Running(s: nat)                    // past the poison check
    | Succeeded(s: nat)
    | Leaving(s: nat)                    // error text cleared
    | Failed(s: nat)
    | Clearing(s: nat)                   // error text copied, model retained
    | Logging                            // busy flag cleared; in the log callback
    | Dropping                           // jb_model_release, before its load
    | Subtracting                        // before its fetch-and-subtract
    | Destroying                         // the last reference is gone

  datatype World = World(refs: nat, client: nat, sessions: map<nat, Session>, ops: map<nat, Op>, destroyed: nat)

  /** A client may start a call with a reference or session it owns; a call in progress takes its next step. `luck` and
      `poison` settle what the model leaves open: whether a call fails, an exchange fails spuriously, a flag was set. */
  datatype Event =
    | Retain(id: nat)
    | Free(id: nat)
    | Create(id: nat)
    | Decide(id: nat, s: nat)
    | FreeSession(id: nat, s: nat)
    | Next(id: nat, luck: bool, poison: bool, name: nat)

  /** The model has been loaded and its caller holds it. */
  const INITIAL := World(1, 1, map[], map[], 0)

  /** The session whose memory a call touches next, or -1. */
  function On(op: Op): (s: int)
    ensures s >= -1
  {
    match op
    case Loading(why) => if why.Report? then why.s else -1
    case Swapping(why, _) => if why.Report? then why.s else -1
    case Ready(s) => s
    case Running(s) => s
    case Succeeded(s) => s
    case Leaving(s) => s
    case Failed(s) => s
    case Clearing(s) => s
    case _ => -1
  }

  /** Calls that work with a reference of the client, which must keep it until they return. */
  predicate Borrows(op: Op) {
    op.Creating? || ((op.Loading? || op.Swapping?) && !op.why.Report?)
  }

  /** Calls that hold a counted reference of their own. */
  predicate Holds(op: Op) {
    op.Publishing? || op.Clearing? || op.Logging? || op.Dropping? || op.Subtracting?
  }

  ghost predicate Used(w: World, s: nat) {
    exists id | id in w.ops :: On(w.ops[id]) == s
  }

  ghost predicate Borrowed(w: World) {
    exists id | id in w.ops :: Borrows(w.ops[id])
  }

  /** Ownership: only what is held may be used or given up, and not while it is lent to a call. */
  ghost predicate Enabled(w: World, e: Event) {
    match e
    case Retain(id) => id !in w.ops && w.client > 0
    case Free(id) => id !in w.ops && w.client > 0 && (w.client > 1 || !Borrowed(w))
    case Create(id) => id !in w.ops && w.client > 0
    case Decide(id, s) => id !in w.ops && s in w.sessions
    case FreeSession(id, s) => id !in w.ops && s in w.sessions && !Used(w, s)
    case Next(id, _, _, name) =>
      id in w.ops && (w.ops[id].Publishing? ==> name !in w.sessions)
  }

  /** Calls other than `id` are where they were. */
  ghost predicate OnlyOp(ops: map<nat, Op>, ops': map<nat, Op>, id: nat) {
    && (forall j | j in ops && j != id :: j in ops' && ops'[j] == ops[j])
    && (forall j | j in ops' && j != id :: j in ops)
  }

  /** Sessions other than `s` are what they were. */
  ghost predicate OnlySession(sessions: map<nat, Session>, sessions': map<nat, Session>, s: int) {
    && (forall t | t in sessions && t != s :: t in sessions' && sessions'[t] == sessions[t])
    && (forall t | t in sessions' && t != s :: t in sessions)
  }

  function Put(w: World, id: nat, op: Op): (w': World)
    ensures w' == w.(ops := w'.ops) && OnlyOp(w.ops, w'.ops, id) && id in w'.ops && w'.ops[id] == op
  {
    w.(ops := w.ops[id := op])
  }

  function End(w: World, id: nat): (w': World)
    ensures w' == w.(ops := w'.ops) && OnlyOp(w.ops, w'.ops, id) && id !in w'.ops
  {
    w.(ops := w.ops - {id})
  }

  function SetSession(w: World, s: nat, v: Session): (w': World)
    ensures w' == w.(sessions := w'.sessions) && OnlySession(w.sessions, w'.sessions, s)
    ensures s in w'.sessions && w'.sessions[s] == v
    ensures |w'.sessions| == |w.sessions| + if s in w.sessions then 0 else 1
  {
    assert w.sessions[s := v].Keys == w.sessions.Keys + {s};
    assert |w.sessions| == |w.sessions.Keys| && |w.sessions[s := v]| == |w.sessions[s := v].Keys|;
    w.(sessions := w.sessions[s := v])
  }

  function DropSession(w: World, s: nat): (w': World)
    requires s in w.sessions
    ensures w' == w.(sessions := w'.sessions) && OnlySession(w.sessions, w'.sessions, s)
    ensures s !in w'.sessions && |w'.sessions| == |w.sessions| - 1
  {
    assert (w.sessions - {s}).Keys == w.sessions.Keys - {s};
    assert |w.sessions| == |w.sessions.Keys| && |w.sessions - {s}| == |(w.sessions - {s}).Keys|;
    w.(sessions := w.sessions - {s})
  }

  function Retained(w: World, id: nat, why: Why): World {
    match why
    case Client => End(w.(client := w.client + 1), id)
    case Creation => Put(w, id, Publishing)
    case Report(s) => Put(w, id, Clearing(s))
  }

  /** A call's next step. */
  function Advance(w: World, id: nat, luck: bool, poison: bool, name: nat): World
    requires id in w.ops && (On(w.ops[id]) >= 0 ==> On(w.ops[id]) in w.sessions)
  {
    var op := w.ops[id];
    if op.Loading? || op.Swapping? then AdvanceRetain(w, id, op, luck)
    else if op.Creating? || op.Publishing? then AdvanceCreate(w, id, op, luck, name)
    else if On(op) >= 0 then AdvanceDecide(w, id, op, luck, poison)
    else AdvanceRelease(w, id, op)
  }

  function AdvanceRetain(w: World, id: nat, op: Op, luck: bool): World
    requires op.Loading? || op.Swapping?
  {
    if op.Swapping? && op.seen == UINT_MAX then Retained(w, id, op.why)
    else if op.Swapping? && op.seen == w.refs && luck then Retained(w.(refs := w.refs + 1), id, op.why)
    else Put(w, id, Swapping(op.why, w.refs))
  }

  function AdvanceCreate(w: World, id: nat, op: Op, luck: bool, name: nat): World {
    if op.Publishing? then End(SetSession(w, name, Session(false, false, false)), id)
    else if luck then Put(w, id, Loading(Creation))
    else End(w, id)
  }

  function AdvanceDecide(w: World, id: nat, op: Op, luck: bool, poison: bool): World
    requires On(op) in w.sessions && On(op) >= 0
  {
    var s := On(op);
    var session := w.sessions[s];
    match op
    case Ready(_) => Put(w, id, if session.poisoned then Failed(s) else Running(s))
    case Running(_) =>
      if luck then Put(w, id, Succeeded(s))
      else Put(SetSession(w, s, session.(poisoned := session.poisoned || poison)), id, Failed(s))
    case Succeeded(_) => Put(SetSession(w, s, session.(error := false)), id, Leaving(s))
    case Leaving(_) => End(SetSession(w, s, session.(busy := false)), id)
    case Failed(_) => Put(SetSession(w, s, session.(error := true)), id, Loading(Report(s)))
    case _ => Put(SetSession(w, s, session.(busy := false)), id, Logging)
  }

  function AdvanceRelease(w: World, id: nat, op: Op): World {
    match op
    case Logging => Put(w, id, Dropping)
    case Dropping => if w.refs == UINT_MAX then End(w, id) else Put(w, id, Subtracting)
    case Subtracting =>
      var rest := w.(refs := (w.refs + UINT_MAX) % (UINT_MAX + 1));
      if w.refs == 1 then Put(rest, id, Destroying) else End(rest, id)
    case _ => End(w.(destroyed := w.destroyed + 1), id)
  }

  predicate Applicable(w: World, e: Event) {
    match e
    case Retain(_) => true
    case Free(_) => w.client > 0
    case Create(_) => true
    case Decide(_, s) => s in w.sessions
    case FreeSession(_, s) => s in w.sessions
    case Next(id, _, _, _) => id in w.ops && (On(w.ops[id]) >= 0 ==> On(w.ops[id]) in w.sessions)
  }

  function Apply(w: World, e: Event): World
    requires Applicable(w, e)
  {
    match e
    case Retain(id) => Put(w, id, Loading(Client))
    case Free(id) => Put(w.(client := w.client - 1), id, Dropping)
    case Create(id) => Put(w, id, Creating)
    case Decide(id, s) =>
      if w.sessions[s].busy then w else Put(SetSession(w, s, w.sessions[s].(busy := true)), id, Ready(s))
    case FreeSession(id, s) => Put(DropSession(w, s), id, Dropping)
    case Next(id, luck, poison, name) => Advance(w, id, luck, poison, name)
  }

  /** The calls that satisfy `f`. */
  ghost function Those(ops: map<nat, Op>, f: Op -> bool): set<nat> {
    set id | id in ops && f(ops[id])
  }

  ghost function Holding(ops: map<nat, Op>): set<nat> {
    Those(ops, Holds)
  }

  predicate Dies(op: Op) {
    op.Destroying?
  }

  ghost function Dying(ops: map<nat, Op>): set<nat> {
    Those(ops, Dies)
  }

  /** How many references are held: by the client, by sessions, and by calls. */
  ghost function Holders(w: World): nat {
    w.client + |w.sessions| + |Holding(w.ops)|
  }

  /** The count is exact, and the model is destroyed, or being destroyed by one call, when it reaches zero. */
  ghost predicate Counted(w: World) {
    w.refs == Holders(w) && w.destroyed + |Dying(w.ops)| == if w.refs == 0 then 1 else 0
  }

  /** A session is touched by at most one call, exactly while its flag is set. */
  ghost predicate Exclusive(w: World) {
    && (forall id | id in w.ops && On(w.ops[id]) >= 0 :: On(w.ops[id]) in w.sessions && w.sessions[On(w.ops[id])].busy)
    && (forall i, j | i in w.ops && j in w.ops && On(w.ops[i]) == On(w.ops[j]) >= 0 :: i == j)
    && (forall s | s in w.sessions && w.sessions[s].busy :: Used(w, s))
  }

  ghost predicate Lent(w: World) {
    && (Borrowed(w) ==> w.client > 0)
    && (forall id | id in w.ops && w.ops[id].Swapping? :: w.ops[id].seen < UINT_MAX)
  }

  ghost predicate Inv(w: World) {
    Counted(w) && Exclusive(w) && Lent(w)
  }

  ghost function HoldsAt(ops: map<nat, Op>, id: nat): int {
    if id in ops && Holds(ops[id]) then 1 else 0
  }

  ghost function DiesAt(ops: map<nat, Op>, id: nat): int {
    if id in ops && Dies(ops[id]) then 1 else 0
  }

  lemma OneOp(ops: map<nat, Op>, ops': map<nat, Op>, f: Op -> bool, id: nat)
    requires OnlyOp(ops, ops', id)
    ensures |Those(ops', f)| - (if id in ops' && f(ops'[id]) then 1 else 0)
         == |Those(ops, f)| - (if id in ops && f(ops[id]) then 1 else 0)
  {
    hide OnlyOp;
    OtherOps(ops, ops', f, id);
    Without(Those(ops, f), id);
    Without(Those(ops', f), id);
  }

  lemma OtherOps(ops: map<nat, Op>, ops': map<nat, Op>, f: Op -> bool, id: nat)
    requires OnlyOp(ops, ops', id)
    ensures Those(ops', f) - {id} == Those(ops, f) - {id}
  {
    forall j | j != id
      ensures j in Those(ops', f) <==> j in Those(ops, f)
    {
    }
  }

  lemma Without(s: set<nat>, id: nat)
    ensures |s - {id}| == |s| - if id in s then 1 else 0
  {
  }

  /** A call under way holds a reference, or works with one that is held, unless it is destroying the model. */
  lemma NoneAfterTheLast(w: World, id: nat)
    requires Inv(w) && id in w.ops && !w.ops[id].Destroying?
    ensures w.refs > 0 && w.destroyed == 0 && Dying(w.ops) == {}
  {
    if Holds(w.ops[id]) {
      assert id in Holding(w.ops);
    } else if Borrows(w.ops[id]) {
      assert Borrowed(w);
    } else {
      SomeSession(w.sessions, On(w.ops[id]));
    }
  }

  lemma SomeSession(sessions: map<nat, Session>, s: nat)
    requires s in sessions
    ensures |sessions| > 0
  {
    assert s in sessions.Keys;
  }

  /** How a step changes the counts: by what the call at `id` holds before and after. */
  ghost predicate CountStep(w: World, w': World, id: nat) {
    && w'.refs - w.refs == w'.client - w.client + |w'.sessions| - |w.sessions|
      + HoldsAt(w'.ops, id) - HoldsAt(w.ops, id)
    && w'.destroyed + DiesAt(w'.ops, id) - w.destroyed - DiesAt(w.ops, id)
       == (if w'.refs == 0 then 1 else 0) - (if w.refs == 0 then 1 else 0)
  }

  /** At most session `s` changes, and the call at `id` is on it afterwards if its flag is set, and on none
      otherwise. */
  ghost predicate TouchStep(w: World, w': World, id: nat, s: int) {
    && OnlySession(w.sessions, w'.sessions, s)
    && (id in w.ops ==> On(w.ops[id]) == s || On(w.ops[id]) == -1)
    && (s >= 0 ==> (id in w.ops && On(w.ops[id]) == s) || !Used(w, s))
    && (id in w'.ops ==> On(w'.ops[id]) == s || On(w'.ops[id]) == -1)
    && (s >= 0 ==> ((id in w'.ops && On(w'.ops[id]) == s) <==> (s in w'.sessions && w'.sessions[s].busy)))
  }

  ghost predicate LentStep(w: World, w': World, id: nat) {
    && (w.client <= w'.client || w'.client > 0 || !Borrowed(w))
    && (id in w'.ops && Borrows(w'.ops[id]) ==> w'.client > 0)
    && (id in w'.ops && w'.ops[id].Swapping? ==> w'.ops[id].seen < UINT_MAX)
  }

  ghost predicate OneStep(w: World, w': World, id: nat, s: int) {
    OnlyOp(w.ops, w'.ops, id) && CountStep(w, w', id) && TouchStep(w, w', id, s) && LentStep(w, w', id)
  }

  lemma CountedChange(w: World, w': World, id: nat)
    requires Counted(w) && OnlyOp(w.ops, w'.ops, id) && CountStep(w, w', id)
    ensures Counted(w')
  {
    OneOp(w.ops, w'.ops, Holds, id);
    OneOp(w.ops, w'.ops, Dies, id);
  }

  lemma ExclusiveChange(w: World, w': World, id: nat, s: int)
    requires Exclusive(w) && OnlyOp(w.ops, w'.ops, id) && TouchStep(w, w', id, s)
    ensures Exclusive(w')
  {
    hide On;
    forall i, j | i in w'.ops && j in w'.ops && On(w'.ops[i]) == On(w'.ops[j]) >= 0
      ensures i == j
    {
      OneOnSession(w, w', id, s, i, j);
    }
    forall t | t in w'.sessions && w'.sessions[t].busy
      ensures Used(w', t)
    {
      BusyIsUsed(w, w', id, s, t);
    }
    hide Used;
  }

  lemma BusyIsUsed(w: World, w': World, id: nat, s: int, t: nat)
    requires Exclusive(w) && OnlyOp(w.ops, w'.ops, id) && TouchStep(w, w', id, s)
    requires t in w'.sessions && w'.sessions[t].busy
    ensures Used(w', t)
  {
    hide On;
    if t == s {
      assert On(w'.ops[id]) == t;
    } else {
      var j :| j in w.ops && On(w.ops[j]) == t;
      assert j in w'.ops && On(w'.ops[j]) == t;
    }
  }

  lemma OneOnSession(w: World, w': World, id: nat, s: int, i: nat, j: nat)
    requires Exclusive(w) && OnlyOp(w.ops, w'.ops, id) && TouchStep(w, w', id, s)
    requires i in w'.ops && j in w'.ops && On(w'.ops[i]) == On(w'.ops[j]) >= 0
    ensures i == j
  {
    hide On, OnlySession;
    if i != id && j != id {
      assert i in w.ops && j in w.ops;
    } else {
      assert i != j ==> Used(w, On(w'.ops[i]));
    }
  }

  lemma LentChange(w: World, w': World, id: nat)
    requires Lent(w) && OnlyOp(w.ops, w'.ops, id) && LentStep(w, w', id)
    ensures Lent(w')
  {
    hide Borrows;
    if j :| j in w'.ops && j != id && Borrows(w'.ops[j]) {
      assert Borrows(w.ops[j]);
    }
  }

  lemma OneStepKeepsInv(w: World, w': World, id: nat, s: int)
    requires Inv(w) && OneStep(w, w', id, s)
    ensures Inv(w')
  {
    hide Counted, Exclusive, Lent, CountStep, TouchStep, LentStep, OnlyOp;
    CountedChange(w, w', id);
    ExclusiveChange(w, w', id, s);
    LentChange(w, w', id);
  }

  /** What the invariant says about one call. */
  ghost predicate Sound(w: World, id: nat) {
    && id in w.ops && 0 < w.refs < UINT_MAX
    && (On(w.ops[id]) >= 0 ==> On(w.ops[id]) in w.sessions && w.sessions[On(w.ops[id])].busy)
    && (Borrows(w.ops[id]) ==> w.client > 0)
    && (w.ops[id].Swapping? ==> w.ops[id].seen < UINT_MAX)
  }

  lemma IsSound(w: World, id: nat)
    requires Inv(w) && id in w.ops && !w.ops[id].Destroying? && Holders(w) < UINT_MAX
    ensures Sound(w, id)
  {
    NoneAfterTheLast(w, id);
    hide On, Holding, Dying;
    assert Borrows(w.ops[id]) ==> Borrowed(w);
  }

  lemma SameSessions(sessions: map<nat, Session>, s: int)
    ensures OnlySession(sessions, sessions, s)
  {
  }

  lemma RetainStep(w: World, id: nat, luck: bool)
    requires Sound(w, id) && (w.ops[id].Loading? || w.ops[id].Swapping?)
    ensures OneStep(w, AdvanceRetain(w, id, w.ops[id], luck), id, On(w.ops[id]))
  {
    hide OnlyOp, OnlySession, Put, End, Used, Borrowed;
    SameSessions(w.sessions, On(w.ops[id]));
  }

  lemma CreateStep(w: World, id: nat, luck: bool, name: nat)
    requires Sound(w, id) && (w.ops[id].Creating? || w.ops[id].Publishing?)
    requires w.ops[id].Publishing? ==> name !in w.sessions && !Used(w, name)
    ensures OneStep(w, AdvanceCreate(w, id, w.ops[id], luck, name), id, if w.ops[id].Publishing? then name else -1)
  {
    hide OnlyOp, OnlySession, Put, End, SetSession, Used, Borrowed;
    SameSessions(w.sessions, -1);
  }

  lemma DecideStep(w: World, id: nat, luck: bool, poison: bool)
    requires Sound(w, id) && On(w.ops[id]) >= 0 && !w.ops[id].Loading? && !w.ops[id].Swapping?
    ensures OneStep(w, AdvanceDecide(w, id, w.ops[id], luck, poison), id, On(w.ops[id]))
  {
    hide AdvanceDecide, OneStep, CountStep, LentStep, TouchStep, OnlyOp;
    DecideCounts(w, id, luck, poison);
    DecideTouches(w, id, luck, poison);
    IsOneStep(w, AdvanceDecide(w, id, w.ops[id], luck, poison), id, On(w.ops[id]));
  }

  lemma IsOneStep(w: World, w': World, id: nat, s: int)
    requires OnlyOp(w.ops, w'.ops, id) && CountStep(w, w', id) && TouchStep(w, w', id, s) && LentStep(w, w', id)
    ensures OneStep(w, w', id, s)
  {
    hide OnlyOp, CountStep, TouchStep, LentStep;
  }

  lemma DecideCounts(w: World, id: nat, luck: bool, poison: bool)
    requires Sound(w, id) && On(w.ops[id]) >= 0 && !w.ops[id].Loading? && !w.ops[id].Swapping?
    ensures On(w.ops[id]) in w.sessions
    ensures var w' := AdvanceDecide(w, id, w.ops[id], luck, poison);
      OnlyOp(w.ops, w'.ops, id) && CountStep(w, w', id) && LentStep(w, w', id)
  {
    hide OnlyOp, OnlySession, Put, End, SetSession, Used, Borrowed;
  }

  lemma DecideTouches(w: World, id: nat, luck: bool, poison: bool)
    requires Sound(w, id) && On(w.ops[id]) >= 0 && !w.ops[id].Loading? && !w.ops[id].Swapping?
    ensures On(w.ops[id]) in w.sessions
    ensures TouchStep(w, AdvanceDecide(w, id, w.ops[id], luck, poison), id, On(w.ops[id]))
  {
    hide OnlyOp, OnlySession, Put, End, SetSession, Used, Borrowed;
    SameSessions(w.sessions, On(w.ops[id]));
  }

  lemma ReleaseStep(w: World, id: nat)
    requires Sound(w, id)
    requires w.ops[id].Logging? || w.ops[id].Dropping? || w.ops[id].Subtracting?
    ensures OneStep(w, AdvanceRelease(w, id, w.ops[id]), id, -1)
  {
    hide OnlyOp, OnlySession, Put, End, Used, Borrowed;
    SameSessions(w.sessions, -1);
    assert (w.refs + UINT_MAX) % (UINT_MAX + 1) == w.refs - 1;
  }

  lemma DestroyStep(w: World, id: nat)
    requires id in w.ops && w.ops[id].Destroying?
    ensures OneStep(w, AdvanceRelease(w, id, w.ops[id]), id, -1)
  {
    hide OnlyOp, OnlySession, Put, End, Used, Borrowed;
    SameSessions(w.sessions, -1);
  }

  lemma AdvanceStep(w: World, id: nat, luck: bool, poison: bool, name: nat)
    requires Inv(w) && id in w.ops && Holders(w) < UINT_MAX
    requires w.ops[id].Publishing? ==> name !in w.sessions
    ensures On(w.ops[id]) >= 0 ==> On(w.ops[id]) in w.sessions
    ensures Inv(Advance(w, id, luck, poison, name))
  {
    var op := w.ops[id];
    hide Counted, Lent, OneStep, Holders, AdvanceRetain, AdvanceCreate, AdvanceDecide, AdvanceRelease;
    var w', s;
    if op.Destroying? {
      DestroyStep(w, id);
      w', s := AdvanceRelease(w, id, op), -1;
    } else {
      IsSound(w, id);
      if op.Loading? || op.Swapping? {
        RetainStep(w, id, luck);
        w', s := AdvanceRetain(w, id, op, luck), On(op);
      } else if op.Creating? || op.Publishing? {
        CreateStep(w, id, luck, name);
        w', s := AdvanceCreate(w, id, op, luck, name), if op.Publishing? then name else -1;
      } else if On(op) >= 0 {
        DecideStep(w, id, luck, poison);
        w', s := AdvanceDecide(w, id, op, luck, poison), On(op);
      } else {
        ReleaseStep(w, id);
        w', s := AdvanceRelease(w, id, op), -1;
      }
    }
    OneStepKeepsInv(w, w', id, s);
  }

  function BeginsOn(e: Event): int {
    if e.Decide? || e.FreeSession? then e.s else -1
  }

  lemma ClientStep(w: World, e: Event)
    requires Enabled(w, e) && (e.Retain? || e.Free? || e.Create?) && w.refs > 0
    ensures OneStep(w, Apply(w, e), e.id, -1)
  {
    hide OnlyOp, OnlySession, Put, Used, Borrowed;
    SameSessions(w.sessions, -1);
  }

  lemma AcquireStep(w: World, e: Event)
    requires Enabled(w, e) && e.Decide? && w.refs > 0 && !w.sessions[e.s].busy && !Used(w, e.s)
    ensures OneStep(w, Apply(w, e), e.id, e.s)
  {
    hide OnlyOp, OnlySession, Put, SetSession, Used, Borrowed;
  }

  lemma FreeSessionStep(w: World, e: Event)
    requires Enabled(w, e) && e.FreeSession? && w.refs > 0
    ensures OneStep(w, Apply(w, e), e.id, e.s)
  {
    hide OnlyOp, OnlySession, Put, DropSession, Used, Borrowed;
  }

  lemma SomeoneHolds(w: World)
    requires Counted(w) && (w.client > 0 || w.sessions.Keys != {})
    ensures w.refs > 0
  {
    if s :| s in w.sessions {
      SomeSession(w.sessions, s);
    }
  }

  lemma FreeWhenIdle(w: World, s: nat)
    requires Exclusive(w) && s in w.sessions
    ensures w.sessions[s].busy <==> Used(w, s)
  {
  }

  /** A client's calls begin. */
  lemma BeginStep(w: World, e: Event)
    requires Inv(w) && Enabled(w, e) && !e.Next?
    ensures Applicable(w, e) && Inv(Apply(w, e))
  {
    hide Counted, Exclusive, Lent, OneStep, Used, Borrowed, Put, SetSession, DropSession;
    assert e.Decide? || e.FreeSession? ==> e.s in w.sessions.Keys;
    SomeoneHolds(w);
    if e.Decide? {
      FreeWhenIdle(w, e.s);
    }
    if e.Decide? && w.sessions[e.s].busy {
      assert Apply(w, e) == w;
    } else {
      if e.Decide? {
        AcquireStep(w, e);
      } else if e.FreeSession? {
        FreeSessionStep(w, e);
      } else {
        ClientStep(w, e);
      }
      hide Apply;
      OneStepKeepsInv(w, Apply(w, e), e.id, BeginsOn(e));
    }
  }

  /** Every step keeps the invariant while fewer references than the counter's maximum are held. */
  lemma StepKeepsInv(w: World, e: Event)
    requires Inv(w) && Enabled(w, e) && Holders(w) < UINT_MAX
    ensures Applicable(w, e) && Inv(Apply(w, e))
  {
    hide Inv, Holders, Advance;
    if e.Next? {
      AdvanceStep(w, e.id, e.luck, e.poison, e.name);
    } else {
      BeginStep(w, e);
    }
  }

  /** What the invariant means: no call uses a freed session or one that another call uses, no call under way outlives
      the model, and the model is destroyed once, when nothing holds it. */
  lemma InvMeans(w: World)
    requires Inv(w)
    ensures forall id | id in w.ops && On(w.ops[id]) >= 0 :: On(w.ops[id]) in w.sessions
    ensures forall i, j | i in w.ops && j in w.ops && On(w.ops[i]) == On(w.ops[j]) >= 0 :: i == j
    ensures w.destroyed <= 1
    ensures w.client > 0 || w.sessions.Keys != {} ==>
      w.destroyed == 0 && forall id | id in w.ops :: !w.ops[id].Destroying?
    ensures forall id | id in w.ops && !w.ops[id].Destroying? :: w.destroyed == 0
    ensures w.client == 0 && w.sessions.Keys == {} && w.ops.Keys == {} ==> w.refs == 0 && w.destroyed == 1
  {
    if w.client > 0 || w.sessions.Keys != {} {
      SomeoneHolds(w);
      forall id | id in w.ops
        ensures !w.ops[id].Destroying?
      {
        assert id !in Dying(w.ops);
      }
    }
    forall id | id in w.ops && !w.ops[id].Destroying?
      ensures w.destroyed == 0
    {
      NoneAfterTheLast(w, id);
    }
    if w.client == 0 && w.sessions.Keys == {} && w.ops.Keys == {} {
      assert |w.sessions| == 0;
      assert Holding(w.ops) == {} && Dying(w.ops) == {};
    }
  }

  /** The states of a run, in which fewer references than the counter's maximum are ever held. */
  ghost predicate IsRun(ws: seq<World>, es: seq<Event>) {
    && |ws| == |es| + 1 && ws[0] == INITIAL
    && forall i | 0 <= i < |es| ::
         Holders(ws[i]) < UINT_MAX && Enabled(ws[i], es[i])
           && (Applicable(ws[i], es[i]) ==> ws[i + 1] == Apply(ws[i], es[i]))
  }

  /** Every run, however its calls interleave, keeps the invariant, and no step of it needs a session that is gone. */
  lemma {:induction false} EveryRunIsSafe(ws: seq<World>, es: seq<Event>, n: nat)
    requires IsRun(ws, es) && n <= |es|
    ensures Inv(ws[n]) && (n < |es| ==> Applicable(ws[n], es[n]))
  {
    if n == 0 {
      assert Holding(INITIAL.ops) == {} && Dying(INITIAL.ops) == {};
    } else {
      EveryRunIsSafe(ws, es, n - 1);
      StepKeepsInv(ws[n - 1], es[n - 1]);
    }
    if n < |es| {
      StepKeepsInv(ws[n], es[n]);
    }
  }

  /** A log callback may free the very session whose failure it reports. */
  lemma LoggerMayFreeItsSession(w: World, id: nat, s: nat, luck: bool, poison: bool, name: nat, free: nat)
    requires Inv(w) && id in w.ops && w.ops[id] == Clearing(s) && Holders(w) < UINT_MAX && free !in w.ops
    ensures s in w.sessions
    ensures var w' := Advance(w, id, luck, poison, name);
      w'.ops[id].Logging? && Enabled(w', FreeSession(free, s)) && Inv(Apply(w', FreeSession(free, s)))
  {
    AdvanceStep(w, id, luck, poison, name);
    var w' := Advance(w, id, luck, poison, name);
    FreeWhenIdle(w', s);
    BeginStep(w', FreeSession(free, s));
  }

  // ----- at the limit of the count

  /** A call that has read the counter's maximum, of whatever kind. */
  lemma ReadsTheLimit(w: World, id: nat, why: Why, luck: bool, poison: bool, name: nat)
    requires w.refs == UINT_MAX && id in w.ops && w.ops[id] == Loading(why) && (why.Report? ==> why.s in w.sessions)
    ensures Advance(w, id, luck, poison, name) == Put(w, id, Swapping(why, UINT_MAX))
  {
  }

  /** The bound in `StepKeepsInv` is exact: with the counter's maximum of references held, a client's retain succeeds
      and is not counted. */
  lemma RetainAtTheLimit(w: World, id: nat, luck: bool, luck': bool, poison: bool, name: nat)
    requires Inv(w) && Holders(w) == UINT_MAX && Enabled(w, Retain(id))
    ensures var begun := Apply(w, Retain(id));
      && Enabled(begun, Next(id, luck, poison, name))
      && var read := Advance(begun, id, luck, poison, name);
      && Enabled(read, Next(id, luck', poison, name))
      && var w' := Advance(read, id, luck', poison, name);
      && w' == w.(client := w.client + 1) && w'.refs == UINT_MAX && Holders(w') == UINT_MAX + 1 && !Counted(w')
  {
    var begun := Apply(w, Retain(id));
    ReadsTheLimit(begun, id, Client, luck, poison, name);
    var read := Advance(begun, id, luck, poison, name);
    assert read.ops - {id} == w.ops;
  }

  lemma HolderGone(w: World, id: nat)
    requires id in w.ops && Holds(w.ops[id])
    ensures forall refs :: Holders(w.(ops := w.ops - {id}, refs := refs)) == Holders(w) - 1
  {
    assert Holding(w.ops - {id}) == Holding(w.ops) - {id} && id in Holding(w.ops);
  }

  /** A release that finds the counter at its maximum leaves it there: from then on the count is never too small, and
      the model is kept for good. */
  lemma ReleaseAtTheLimit(w: World, id: nat, luck: bool, poison: bool, name: nat)
    requires w.refs == UINT_MAX && id in w.ops && w.ops[id].Dropping?
    ensures var w' := Advance(w, id, luck, poison, name);
      && w' == w.(ops := w.ops - {id}) && w'.refs == UINT_MAX && Holders(w') == Holders(w) - 1
  {
    HolderGone(w, id);
  }

  /** But one that read the counter just before it reached its maximum still subtracts: references that were not
      counted are then still held, and the counter is below its maximum and counts again. */
  lemma StaleReleaseAtTheLimit(w: World, id: nat, luck: bool, poison: bool, name: nat)
    requires w.refs == UINT_MAX < Holders(w) && id in w.ops && w.ops[id].Subtracting?
    ensures var w' := Advance(w, id, luck, poison, name);
      && w' == w.(ops := w.ops - {id}, refs := UINT_MAX - 1)
      && Holders(w') - w'.refs == Holders(w) - w.refs > 0 && !Counted(w')
  {
    HolderGone(w, id);
    assert (UINT_MAX + UINT_MAX) % (UINT_MAX + 1) == UINT_MAX - 1;
    hide Holders, Holding;
  }

  // ----- what calls report

  /** A call past the poison check is on a session that is not poisoned; one that succeeded has cleared the error text,
      and one that failed has set it, by the time it gives the session back. */
  ghost predicate Reported(w: World) {
    forall id | id in w.ops && On(w.ops[id]) >= 0 && On(w.ops[id]) in w.sessions ::
      OpReports(w.ops[id], w.sessions[On(w.ops[id])])
  }

  predicate OpReports(op: Op, session: Session) {
    && (op.Running? || op.Succeeded? || op.Leaving? ==> !session.poisoned)
    && (op.Leaving? ==> !session.error)
    && (op.Loading? || op.Swapping? || op.Clearing? ==> session.error)
  }

  /** A step changes one call and the session it is on, so that other calls report what they did. */
  lemma ReportsChange(w: World, w': World, id: nat, s: int)
    requires Inv(w) && Reported(w) && OnlyOp(w.ops, w'.ops, id) && OnlySession(w.sessions, w'.sessions, s)
    requires forall j | j in w.ops && j != id :: On(w.ops[j]) != s || s < 0
    requires id in w'.ops && On(w'.ops[id]) >= 0 && On(w'.ops[id]) in w'.sessions ==>
      OpReports(w'.ops[id], w'.sessions[On(w'.ops[id])])
    ensures Reported(w')
  {
    hide Inv, On, OpReports;
    forall j | j in w'.ops && On(w'.ops[j]) >= 0 && On(w'.ops[j]) in w'.sessions
      ensures OpReports(w'.ops[j], w'.sessions[On(w'.ops[j])])
    {
      if j != id {
        assert j in w.ops && w'.ops[j] == w.ops[j];
        assert On(w.ops[j]) in w.sessions by {
          InvOn(w, j);
        }
      }
    }
  }

  lemma InvOn(w: World, j: nat)
    requires Inv(w) && j in w.ops && On(w.ops[j]) >= 0
    ensures On(w.ops[j]) in w.sessions
  {
  }

  /** The session that a step may change is touched by no other call. */
  lemma OthersElsewhere(w: World, id: nat)
    requires Inv(w) && id in w.ops
    ensures forall j | j in w.ops && j != id :: On(w.ops[j]) != On(w.ops[id]) || On(w.ops[id]) < 0
  {
    hide On;
  }

  lemma NewSessionUntouched(w: World, name: nat)
    requires Inv(w) && name !in w.sessions
    ensures forall j | j in w.ops :: On(w.ops[j]) != name
  {
    hide On;
  }

  /** Every step keeps this: no call on a poisoned session gets past the check, a session is only poisoned by a call
      that fails on it, and then for good. */
  lemma StepReports(w: World, e: Event)
    requires Inv(w) && Reported(w) && Enabled(w, e) && Applicable(w, e)
    ensures Reported(Apply(w, e))
    ensures forall s | s in w.sessions && s in Apply(w, e).sessions && w.sessions[s].poisoned ::
      Apply(w, e).sessions[s].poisoned
    ensures forall s | s in w.sessions && s in Apply(w, e).sessions && !w.sessions[s].poisoned ::
      Apply(w, e).sessions[s].poisoned ==>
        e.Next? && w.ops[e.id] == Running(s) && e.id in Apply(w, e).ops && Apply(w, e).ops[e.id] == Failed(s)
  {
    hide Inv, Reported;
    match e
    case Retain(id) => ReportsChange(w, Apply(w, e), id, -1);
    case Free(id) => ReportsChange(w, Apply(w, e), id, -1);
    case Create(id) => ReportsChange(w, Apply(w, e), id, -1);
    case Decide(id, s) =>
      if !w.sessions[s].busy {
        IdleUntouched(w, s);
        ReportsChange(w, Apply(w, e), id, s);
      }
    case FreeSession(id, s) =>
      ReportsChange(w, Apply(w, e), id, s);
    case Next(id, luck, poison, name) =>
      NextReports(w, id, luck, poison, name);
  }

  lemma IdleUntouched(w: World, s: nat)
    requires Inv(w) && s in w.sessions && !w.sessions[s].busy
    ensures forall j | j in w.ops :: On(w.ops[j]) != s
  {
    hide On;
  }

  lemma OwnReport(w: World, id: nat)
    requires Inv(w) && Reported(w) && id in w.ops && On(w.ops[id]) >= 0
    ensures On(w.ops[id]) in w.sessions && OpReports(w.ops[id], w.sessions[On(w.ops[id])])
  {
    hide On, OpReports;
    InvOn(w, id);
  }

  lemma NextReports(w: World, id: nat, luck: bool, poison: bool, name: nat)
    requires Inv(w) && Reported(w) && id in w.ops && (w.ops[id].Publishing? ==> name !in w.sessions)
    requires On(w.ops[id]) >= 0 ==> On(w.ops[id]) in w.sessions
    ensures var w' := Advance(w, id, luck, poison, name);
      && Reported(w')
      && (forall s | s in w.sessions && s in w'.sessions && w.sessions[s].poisoned :: w'.sessions[s].poisoned)
      && (forall s | s in w.sessions && s in w'.sessions && !w.sessions[s].poisoned && w'.sessions[s].poisoned ::
            w.ops[id] == Running(s) && w'.ops[id] == Failed(s))
  {
    hide Inv, Reported, Advance, AdvanceRetain, AdvanceCreate, AdvanceDecide, AdvanceRelease, On;
    var op := w.ops[id];
    AdvanceIs(w, id, luck, poison, name);
    if op.Loading? || op.Swapping? {
      RetainReports(w, id, luck);
    } else if op.Creating? || op.Publishing? {
      CreateReports(w, id, luck, name);
    } else if On(op) >= 0 {
      DecideReports(w, id, luck, poison);
    } else {
      ReleaseReports(w, id);
    }
  }

  lemma AdvanceIs(w: World, id: nat, luck: bool, poison: bool, name: nat)
    requires id in w.ops && (On(w.ops[id]) >= 0 ==> On(w.ops[id]) in w.sessions)
    ensures var op := w.ops[id];
      Advance(w, id, luck, poison, name) ==
        if op.Loading? || op.Swapping? then AdvanceRetain(w, id, op, luck)
        else if op.Creating? || op.Publishing? then AdvanceCreate(w, id, op, luck, name)
        else if On(op) >= 0 then AdvanceDecide(w, id, op, luck, poison)
        else AdvanceRelease(w, id, op)
  {
    hide AdvanceRetain, AdvanceCreate, AdvanceDecide, AdvanceRelease, On;
  }

  /** A step that leaves every session as it was. */
  lemma RetainReports(w: World, id: nat, luck: bool)
    requires Inv(w) && Reported(w) && id in w.ops && (w.ops[id].Loading? || w.ops[id].Swapping?)
    ensures var w' := AdvanceRetain(w, id, w.ops[id], luck); Reported(w') && w'.sessions == w.sessions
  {
    hide Inv, Reported;
    if On(w.ops[id]) >= 0 {
      OwnReport(w, id);
    }
    ReportsChange(w, AdvanceRetain(w, id, w.ops[id], luck), id, -1);
  }

  lemma CreateReports(w: World, id: nat, luck: bool, name: nat)
    requires Inv(w) && Reported(w) && id in w.ops && (w.ops[id].Creating? || w.ops[id].Publishing?)
    requires w.ops[id].Publishing? ==> name !in w.sessions
    ensures var w' := AdvanceCreate(w, id, w.ops[id], luck, name);
      Reported(w') && forall s | s in w.sessions :: s in w'.sessions && w'.sessions[s] == w.sessions[s]
  {
    hide Inv, Reported, On;
    var w' := AdvanceCreate(w, id, w.ops[id], luck, name);
    if w.ops[id].Publishing? {
      NewSessionUntouched(w, name);
      ReportsChange(w, w', id, name);
    } else {
      LoadsForNone(w.ops[id]);
      ReportsChange(w, w', id, -1);
    }
  }

  lemma LoadsForNone(op: Op)
    ensures On(Loading(Creation)) == -1
  {
  }

  lemma DecideReports(w: World, id: nat, luck: bool, poison: bool)
    requires Inv(w) && Reported(w) && id in w.ops && On(w.ops[id]) >= 0 && On(w.ops[id]) in w.sessions
    requires !w.ops[id].Loading? && !w.ops[id].Swapping?
    ensures var w' := AdvanceDecide(w, id, w.ops[id], luck, poison);
      && Reported(w')
      && (forall s | s in w.sessions && s in w'.sessions && w.sessions[s].poisoned :: w'.sessions[s].poisoned)
      && (forall s | s in w.sessions && s in w'.sessions && !w.sessions[s].poisoned && w'.sessions[s].poisoned ::
            w.ops[id] == Running(s) && w'.ops[id] == Failed(s))
  {
    hide Inv, Reported;
    OwnReport(w, id);
    OthersElsewhere(w, id);
    ReportsChange(w, AdvanceDecide(w, id, w.ops[id], luck, poison), id, On(w.ops[id]));
  }

  lemma ReleaseReports(w: World, id: nat)
    requires Inv(w) && Reported(w) && id in w.ops && On(w.ops[id]) < 0
    ensures var w' := AdvanceRelease(w, id, w.ops[id]); Reported(w') && w'.sessions == w.sessions
  {
    hide Inv, Reported;
    ReportsChange(w, AdvanceRelease(w, id, w.ops[id]), id, -1);
  }

  /** Over every run: whenever a call is about to give its session back, the error text is cleared if it succeeded and
      set if it failed, and no call that succeeds is on a poisoned session. */
  lemma {:induction false} EveryRunReports(ws: seq<World>, es: seq<Event>, n: nat)
    requires IsRun(ws, es) && n <= |es|
    ensures Reported(ws[n])
    ensures forall id, s | id in ws[n].ops && s in ws[n].sessions ::
      (ws[n].ops[id] == Leaving(s) ==> !ws[n].sessions[s].error && !ws[n].sessions[s].poisoned)
      && (ws[n].ops[id] == Clearing(s) ==> ws[n].sessions[s].error)
  {
    hide Inv, Apply, Enabled, Holders, Applicable;
    if n > 0 {
      EveryRunReports(ws, es, n - 1);
      EveryRunIsSafe(ws, es, n - 1);
      StepReports(ws[n - 1], es[n - 1]);
    } else {
      assert ws[0].ops == map[];
    }
  }

  /** A call on a session that is in use is refused and changes nothing. */
  lemma BusyIsRefused(w: World, id: nat, s: nat)
    requires Inv(w) && s in w.sessions && Used(w, s)
    ensures Apply(w, Decide(id, s)) == w
  {
    hide On;
  }
}
