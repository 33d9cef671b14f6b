/** Calls from their begin to their end, with no other call's step in between (src/api.inc:190-215, 331-389, 574-606):
    what each leaves behind. */
module LifecycleCalls {
  import opened Lifecycle

  /** What is open in a step: whether a failing call found a flag set, and a new session's name. */
  datatype Chance = Chance(poison: bool, name: nat)

  /** Steps of one call, each with its luck. */
  function Steps(w: World, id: nat, lucks: seq<bool>, c: Chance): World
    decreases |lucks|
  {
    if lucks == [] || !Applicable(w, Next(id, lucks[0], c.poison, c.name)) then w
    else Steps(Apply(w, Next(id, lucks[0], c.poison, c.name)), id, lucks[1..], c)
  }

  function Lucky(n: nat): seq<bool> {
    if n == 0 then [] else [true] + Lucky(n - 1)
  }

  predicate One(w: World, id: nat, luck: bool, c: Chance, w': World) {
    Applicable(w, Next(id, luck, c.poison, c.name)) && Apply(w, Next(id, luck, c.poison, c.name)) == w'
  }

  lemma StepsFirst(w: World, id: nat, luck: bool, rest: seq<bool>, c: Chance, w': World)
    requires One(w, id, luck, c, w')
    ensures Steps(w, id, [luck] + rest, c) == Steps(w', id, rest, c)
  {
    assert ([luck] + rest)[1..] == rest;
  }

  lemma StepsLucky(w: World, id: nat, n: nat, c: Chance, w': World)
    requires n > 0 && One(w, id, true, c, w')
    ensures Steps(w, id, Lucky(n), c) == Steps(w', id, Lucky(n - 1), c)
  {
    StepsFirst(w, id, true, Lucky(n - 1), c, w');
  }

  lemma StepsNone(w: World, id: nat, c: Chance)
    ensures Steps(w, id, Lucky(0), c) == w
  {
  }

  /** `b` with one more call. */
  function Here(b: World, id: nat, op: Op): World {
    b.(ops := b.ops[id := op])
  }

  /** `b` with a session as given. */
  function With(b: World, s: nat, v: Session): World {
    b.(sessions := b.sessions[s := v])
  }

  lemma HereMoves(b: World, id: nat, op: Op, op': Op)
    requires id !in b.ops
    ensures Put(Here(b, id, op), id, op') == Here(b, id, op') && End(Here(b, id, op), id) == b
    ensures id in Here(b, id, op).ops && Here(b, id, op).ops[id] == op
  {
    assert b.ops[id := op][id := op'] == b.ops[id := op'];
    assert b.ops[id := op] - {id} == b.ops;
  }

  lemma WithTwice(b: World, s: nat, v: Session, v': Session)
    ensures With(With(b, s, v), s, v') == With(b, s, v') && s in With(b, s, v).sessions
      && With(b, s, v).sessions[s] == v
  {
    assert b.sessions[s := v][s := v'] == b.sessions[s := v'];
  }

  // ----- single steps

  lemma ReadyStep(b: World, id: nat, s: nat, c: Chance)
    requires id !in b.ops && s in b.sessions
    ensures One(Here(b, id, Ready(s)), id, true, c,
      Here(b, id, if b.sessions[s].poisoned then Failed(s) else Running(s)))
  {
    HereMoves(b, id, Ready(s), if b.sessions[s].poisoned then Failed(s) else Running(s));
  }

  lemma RunningStep(b: World, id: nat, s: nat, c: Chance)
    requires id !in b.ops && s in b.sessions
    ensures One(Here(b, id, Running(s)), id, true, c, Here(b, id, Succeeded(s)))
    ensures var v := b.sessions[s];
      One(Here(b, id, Running(s)), id, false, c,
        Here(With(b, s, v.(poisoned := v.poisoned || c.poison)), id, Failed(s)))
  {
    HereMoves(b, id, Running(s), Succeeded(s));
    HereMoves(b, id, Running(s), Failed(s));
  }

  lemma SucceededStep(b: World, id: nat, s: nat, c: Chance)
    requires id !in b.ops && s in b.sessions
    ensures One(Here(b, id, Succeeded(s)), id, true, c,
      Here(With(b, s, b.sessions[s].(error := false)), id, Leaving(s)))
  {
    HereMoves(b, id, Succeeded(s), Leaving(s));
  }

  lemma LeavingStep(b: World, id: nat, s: nat, c: Chance)
    requires id !in b.ops && s in b.sessions
    ensures One(Here(b, id, Leaving(s)), id, true, c, With(b, s, b.sessions[s].(busy := false)))
  {
    HereMoves(b, id, Leaving(s), Leaving(s));
  }

  lemma FailedStep(b: World, id: nat, s: nat, c: Chance)
    requires id !in b.ops && s in b.sessions
    ensures One(Here(b, id, Failed(s)), id, true, c,
                Here(With(b, s, b.sessions[s].(error := true)), id, Loading(Report(s))))
  {
    HereMoves(b, id, Failed(s), Loading(Report(s)));
  }

  lemma ClearingStep(b: World, id: nat, s: nat, c: Chance)
    requires id !in b.ops && s in b.sessions
    ensures One(Here(b, id, Clearing(s)), id, true, c, Here(With(b, s, b.sessions[s].(busy := false)), id, Logging))
  {
    HereMoves(b, id, Clearing(s), Logging);
  }

  lemma LoadingStep(b: World, id: nat, why: Why, c: Chance)
    requires id !in b.ops && (why.Report? ==> why.s in b.sessions)
    ensures One(Here(b, id, Loading(why)), id, true, c, Here(b, id, Swapping(why, b.refs)))
  {
    HereMoves(b, id, Loading(why), Swapping(why, b.refs));
  }

  /** What a reference was taken for. */
  function Taken(b: World, id: nat, why: Why): World {
    var more := b.(refs := b.refs + 1);
    match why
    case Client => more.(client := b.client + 1)
    case Creation => Here(more, id, Publishing)
    case Report(s) => Here(more, id, Clearing(s))
  }

  lemma SwappingStep(b: World, id: nat, why: Why, c: Chance)
    requires id !in b.ops && (why.Report? ==> why.s in b.sessions) && b.refs < UINT_MAX
    ensures One(Here(b, id, Swapping(why, b.refs)), id, true, c, Taken(b, id, why))
  {
    var op := Swapping(why, b.refs);
    HereMoves(b, id, op, Publishing);
    if why.Report? {
      HereMoves(b, id, op, Clearing(why.s));
    }
  }

  lemma CreatingStep(b: World, id: nat, c: Chance)
    requires id !in b.ops
    ensures One(Here(b, id, Creating), id, true, c, Here(b, id, Loading(Creation)))
  {
    HereMoves(b, id, Creating, Loading(Creation));
  }

  lemma PublishingStep(b: World, id: nat, c: Chance)
    requires id !in b.ops && c.name !in b.sessions
    ensures One(Here(b, id, Publishing), id, true, c, With(b, c.name, Session(false, false, false)))
  {
    HereMoves(b, id, Publishing, Publishing);
  }

  lemma ReleaseSteps(b: World, id: nat, c: Chance)
    requires id !in b.ops
    ensures One(Here(b, id, Logging), id, true, c, Here(b, id, Dropping))
    ensures b.refs < UINT_MAX ==> One(Here(b, id, Dropping), id, true, c, Here(b, id, Subtracting))
    ensures 1 < b.refs <= UINT_MAX ==> One(Here(b, id, Subtracting), id, true, c, b.(refs := b.refs - 1))
    ensures b.refs == 1 ==> One(Here(b, id, Subtracting), id, true, c, Here(b.(refs := 0), id, Destroying))
    ensures One(Here(b, id, Destroying), id, true, c, b.(destroyed := b.destroyed + 1))
  {
    HereMoves(b, id, Logging, Dropping);
    HereMoves(b, id, Dropping, Subtracting);
    HereMoves(b, id, Subtracting, Destroying);
    HereMoves(b, id, Destroying, Destroying);
    if b.refs > 0 {
      assert b.refs <= UINT_MAX ==> (b.refs + UINT_MAX) % (UINT_MAX + 1) == b.refs - 1;
    }
  }

  // ----- whole calls

  lemma Begun(w: World, id: nat, s: nat)
    requires s in w.sessions && !w.sessions[s].busy
    ensures Applicable(w, Decide(id, s))
    ensures Apply(w, Decide(id, s)) == Here(With(w, s, w.sessions[s].(busy := true)), id, Ready(s))
  {
  }

  /** A call that succeeds leaves everything as it was, and no error text. */
  lemma SucceedingCall(w: World, id: nat, s: nat, c: Chance)
    requires id !in w.ops && s in w.sessions && !w.sessions[s].busy && !w.sessions[s].poisoned
    ensures Applicable(w, Decide(id, s))
    ensures Steps(Apply(w, Decide(id, s)), id, Lucky(4), c) == With(w, s, Session(false, false, false))
  {
    var v := w.sessions[s].(busy := true);
    var b, d := With(w, s, v), With(w, s, v.(error := false));
    WithTwice(w, s, v, v.(error := false));
    WithTwice(w, s, v.(error := false), v.(error := false).(busy := false));
    hide Apply, Applicable, Steps, One, Lucky, Here;
    Begun(w, id, s);
    ReadyStep(b, id, s, c);
    RunningStep(b, id, s, c);
    SucceededStep(b, id, s, c);
    LeavingStep(d, id, s, c);
    StepsLucky(Here(b, id, Ready(s)), id, 4, c, Here(b, id, Running(s)));
    StepsLucky(Here(b, id, Running(s)), id, 3, c, Here(b, id, Succeeded(s)));
    StepsLucky(Here(b, id, Succeeded(s)), id, 2, c, Here(d, id, Leaving(s)));
    var end := With(d, s, d.sessions[s].(busy := false));
    StepsLucky(Here(d, id, Leaving(s)), id, 1, c, end);
    StepsNone(end, id, c);
  }

  /** From a failure on: the session has an error text and is free again, and the reference that was taken for the log
      callback is given back. */
  lemma Reporting(b: World, id: nat, s: nat, c: Chance)
    requires id !in b.ops && s in b.sessions && 0 < b.refs && b.refs + 2 < UINT_MAX
    ensures Steps(Here(b, id, Failed(s)), id, Lucky(7), c) == With(b, s, b.sessions[s].(error := true, busy := false))
  {
    var v := b.sessions[s].(error := true);
    var d := With(b, s, v);
    var more := d.(refs := d.refs + 1);
    var free := With(more, s, v.(busy := false));
    WithTwice(b, s, v, v.(busy := false));
    assert free.(refs := free.refs - 1) == With(b, s, v.(busy := false));
    assert more.sessions[s] == v && Taken(d, id, Report(s)) == Here(more, id, Clearing(s));
    hide Apply, Applicable, Steps, One, Lucky, Here, Taken, With;
    FailedStep(b, id, s, c);
    LoadingStep(d, id, Report(s), c);
    SwappingStep(d, id, Report(s), c);
    ClearingStep(more, id, s, c);
    ReleaseSteps(free, id, c);
    StepsLucky(Here(b, id, Failed(s)), id, 7, c, Here(d, id, Loading(Report(s))));
    StepsLucky(Here(d, id, Loading(Report(s))), id, 6, c, Here(d, id, Swapping(Report(s), d.refs)));
    StepsLucky(Here(d, id, Swapping(Report(s), d.refs)), id, 5, c, Here(more, id, Clearing(s)));
    StepsLucky(Here(more, id, Clearing(s)), id, 4, c, Here(free, id, Logging));
    StepsLucky(Here(free, id, Logging), id, 3, c, Here(free, id, Dropping));
    StepsLucky(Here(free, id, Dropping), id, 2, c, Here(free, id, Subtracting));
    StepsLucky(Here(free, id, Subtracting), id, 1, c, free.(refs := free.refs - 1));
    StepsNone(free.(refs := free.refs - 1), id, c);
  }

  /** A call that fails leaves an error text, the session poisoned exactly if the failure found a flag set, and every
      reference as it was. */
  lemma FailingCall(w: World, id: nat, s: nat, c: Chance)
    requires id !in w.ops && s in w.sessions && !w.sessions[s].busy && !w.sessions[s].poisoned
    requires 0 < w.refs && w.refs + 2 < UINT_MAX
    ensures Applicable(w, Decide(id, s))
    ensures Steps(Apply(w, Decide(id, s)), id, [true] + ([false] + Lucky(7)), c)
      == With(w, s, Session(false, c.poison, true))
  {
    var v := w.sessions[s].(busy := true);
    var u := v.(poisoned := c.poison);
    var b, d := With(w, s, v), With(w, s, u);
    WithTwice(w, s, v, u);
    WithTwice(w, s, u, u.(error := true, busy := false));
    hide Apply, Applicable, Steps, One, Lucky, Here;
    Begun(w, id, s);
    ReadyStep(b, id, s, c);
    RunningStep(b, id, s, c);
    StepsFirst(Here(b, id, Ready(s)), id, true, [false] + Lucky(7), c, Here(b, id, Running(s)));
    StepsFirst(Here(b, id, Running(s)), id, false, Lucky(7), c, Here(d, id, Failed(s)));
    Reporting(d, id, s, c);
  }

  /** A call on a poisoned session does nothing but report that. */
  lemma PoisonedCall(w: World, id: nat, s: nat, c: Chance)
    requires id !in w.ops && s in w.sessions && !w.sessions[s].busy && w.sessions[s].poisoned
    requires 0 < w.refs && w.refs + 2 < UINT_MAX
    ensures Applicable(w, Decide(id, s))
    ensures Steps(Apply(w, Decide(id, s)), id, Lucky(8), c) == With(w, s, Session(false, true, true))
  {
    var v := w.sessions[s].(busy := true);
    var b := With(w, s, v);
    WithTwice(w, s, v, v.(error := true, busy := false));
    hide Apply, Applicable, Steps, One, Lucky, Here;
    Begun(w, id, s);
    ReadyStep(b, id, s, c);
    StepsLucky(Here(b, id, Ready(s)), id, 8, c, Here(b, id, Failed(s)));
    Reporting(b, id, s, c);
  }

  /** A release of one reference of several. */
  lemma Dropped(w: World, id: nat, c: Chance)
    requires id !in w.ops && 1 < w.refs < UINT_MAX
    ensures Steps(Here(w, id, Dropping), id, Lucky(2), c) == w.(refs := w.refs - 1)
  {
    hide Apply, Applicable, Steps, One, Lucky, Here;
    ReleaseSteps(w, id, c);
    StepsLucky(Here(w, id, Dropping), id, 2, c, Here(w, id, Subtracting));
    StepsLucky(Here(w, id, Subtracting), id, 1, c, w.(refs := w.refs - 1));
    StepsNone(w.(refs := w.refs - 1), id, c);
  }

  /** Creating a session takes a reference. */
  lemma CreatingCall(w: World, id: nat, c: Chance)
    requires id !in w.ops && c.name !in w.sessions && w.refs < UINT_MAX
    ensures Steps(Apply(w, Create(id)), id, Lucky(4), c)
      == With(w.(refs := w.refs + 1), c.name, Session(false, false, false))
  {
    assert Apply(w, Create(id)) == Here(w, id, Creating);
    var more := w.(refs := w.refs + 1);
    var end := With(more, c.name, Session(false, false, false));
    assert Taken(w, id, Creation) == Here(more, id, Publishing);
    hide Apply, Applicable, Steps, One, Lucky, Here, Taken, With;
    CreatingStep(w, id, c);
    LoadingStep(w, id, Creation, c);
    SwappingStep(w, id, Creation, c);
    PublishingStep(more, id, c);
    StepsLucky(Here(w, id, Creating), id, 4, c, Here(w, id, Loading(Creation)));
    StepsLucky(Here(w, id, Loading(Creation)), id, 3, c, Here(w, id, Swapping(Creation, w.refs)));
    StepsLucky(Here(w, id, Swapping(Creation, w.refs)), id, 2, c, Here(more, id, Publishing));
    StepsLucky(Here(more, id, Publishing), id, 1, c, end);
    StepsNone(end, id, c);
  }

  /** A session that is created and freed again leaves nothing: it took one reference and gave it back. */
  lemma FreeUndoesCreate(w: World, id: nat, c: Chance)
    requires id !in w.ops && c.name !in w.sessions && 0 < w.refs && w.refs + 1 < UINT_MAX
    ensures var made := Steps(Apply(w, Create(id)), id, Lucky(4), c);
      && made == With(w.(refs := w.refs + 1), c.name, Session(false, false, false))
      && Applicable(made, FreeSession(id, c.name))
      && Steps(Apply(made, FreeSession(id, c.name)), id, Lucky(2), c) == w
  {
    hide *;
    var more := w.(refs := w.refs + 1);
    CreatingCall(w, id, c);
    Freed(more, id, c.name, Session(false, false, false));
    Dropped(more, id, c);
  }

  lemma Freed(b: World, id: nat, s: nat, v: Session)
    requires s !in b.sessions
    ensures Applicable(With(b, s, v), FreeSession(id, s))
    ensures Apply(With(b, s, v), FreeSession(id, s)) == Here(b, id, Dropping)
  {
    assert b.sessions[s := v] - {s} == b.sessions;
    assert DropSession(With(b, s, v), s) == b;
  }

  /** A reference that is taken and given back leaves nothing. */
  lemma FreeUndoesRetain(w: World, id: nat, c: Chance)
    requires id !in w.ops && 0 < w.refs && w.refs + 1 < UINT_MAX
    ensures var held := Steps(Apply(w, Retain(id)), id, Lucky(2), c);
      && held == w.(refs := w.refs + 1, client := w.client + 1)
      && Applicable(held, Free(id)) && Steps(Apply(held, Free(id)), id, Lucky(2), c) == w
  {
    var held := w.(refs := w.refs + 1, client := w.client + 1);
    assert Apply(w, Retain(id)) == Here(w, id, Loading(Client));
    assert Apply(held, Free(id)) == Here(w.(refs := w.refs + 1), id, Dropping);
    assert Taken(w, id, Client) == held;
    hide Apply, Steps, One, Lucky, Here, Taken;
    LoadingStep(w, id, Client, c);
    SwappingStep(w, id, Client, c);
    StepsLucky(Here(w, id, Loading(Client)), id, 2, c, Here(w, id, Swapping(Client, w.refs)));
    StepsLucky(Here(w, id, Swapping(Client, w.refs)), id, 1, c, held);
    StepsNone(held, id, c);
    Dropped(w.(refs := w.refs + 1), id, c);
  }

  /** The last release destroys the model. */
  lemma LastFree(id: nat, c: Chance)
    ensures Applicable(INITIAL, Free(id))
    ensures Steps(Apply(INITIAL, Free(id)), id, Lucky(3), c) == World(0, 0, map[], map[], 1)
  {
    var b, d := World(1, 0, map[], map[], 0), World(0, 0, map[], map[], 0);
    assert Apply(INITIAL, Free(id)) == Here(b, id, Dropping);
    hide Apply, Steps, One, Lucky, Here;
    ReleaseSteps(b, id, c);
    ReleaseSteps(d, id, c);
    StepsLucky(Here(b, id, Dropping), id, 3, c, Here(b, id, Subtracting));
    StepsLucky(Here(b, id, Subtracting), id, 2, c, Here(d, id, Destroying));
    var end := World(0, 0, map[], map[], 1);
    StepsLucky(Here(d, id, Destroying), id, 1, c, end);
    StepsNone(end, id, c);
  }
}
