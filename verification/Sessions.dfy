/** One session over its decide calls (src/api.inc:21-44, 391-572, 600-679; jb.c:8411-8555, 8610-8747): which
    workspace flags are set when a call fails, when that poisons the session, and what the prefix cache holds
    afterwards. */
module Sessions {
  import opened Wrappers

  type Text(==, 0, !new)
  type Rows(==, 0, !new)

  /** A prefix entry, whole or under construction. */
  datatype Entry = Entry(schema: Option<Text>, ids: Option<seq<int>>, kv: Option<Rows>)

  const BLANK := Entry(None, None, None)

  /** What a call does to its session, step by step. Any step can fail before it has had its effect. */
  datatype Action =
    | Work                     // computing or allocating: touches no flag
    | Begin | End              // dg_workspace_begin and dg_workspace_end
    | KvBegin | KvEnd
    | ControlBegin | ControlEnd
    | DropPrefix
    | NewEntry                 // the replacement's metadata block
    | FillSchema(text: Text)
    | FillIds(ids: seq<int>)
    | FillKv(rows: Rows)
    | Install

  datatype State = State(poisoned: bool, active: bool, kv: bool, control: bool, prefix: Option<Entry>,
    building: Entry) {
    predicate Flagged() {
      active || kv || control
    }
  }

  /** An action's effect, if its own checks pass. */
  function Do(s: State, a: Action): Option<State> {
    match a
    case Work => Some(s)
    case Begin => if s.active then None else Some(s.(active := true))
    case End => if !s.active then None else Some(s.(active := false))
    case KvBegin => if s.kv then None else Some(s.(kv := true))
    case KvEnd => if !s.kv then None else Some(s.(kv := false))
    case ControlBegin => if s.control then None else Some(s.(control := true))
    case ControlEnd => if !s.control then None else Some(s.(control := false))
    case DropPrefix => Some(s.(prefix := None, building := BLANK))
    case NewEntry => Some(s)
    case FillSchema(text) => Some(s.(building := s.building.(schema := Some(text))))
    case FillIds(ids) => Some(s.(building := s.building.(ids := Some(ids))))
    case FillKv(rows) => Some(s.(building := s.building.(kv := Some(rows))))
    case Install => Some(s.(prefix := Some(s.building)))
  }

  /** A script's outcome when its step `fault` fails, or none does if it has fewer. */
  function Run(s: State, script: seq<Action>, fault: nat): (r: (State, bool))
    decreases |script|
  {
    if script == [] then (s, true)
    else if fault == 0 || Do(s, script[0]).None? then (s, false)
    else Run(Do(s, script[0]).value, script[1..], fault - 1)
  }

  /** The steps of one read: a decode in the workspace, its scoring in the workspace's tail. */
  function Reads(n: nat): seq<Action> {
    if n == 0 then [] else [Begin, Work, Work, End] + Reads(n - 1)
  }

  /** A request: its prefix is cached, or is built from a text, its tokens and the rows of a whole prefill. */
  datatype Request =
    | Hit(n: nat)
    | Miss(n: nat, text: Text, ids: seq<int>, rows: Rows)

  /** Between the K/V slab's begin and end. */
  function Hot(r: Request): seq<Action> {
    match r
    case Hit(n) => [Begin, Work, End] + Reads(n)
    case Miss(n, text, ids, rows) =>
      [Work, DropPrefix, NewEntry, FillSchema(text), FillIds(ids), Begin, Work, End, Work, FillKv(rows), Install]
        + Reads(n)
  }

  /** One request: it is parsed, executed and formatted. */
  function Row(r: Request): seq<Action> {
    [Work, KvBegin] + Hot(r) + [KvEnd, Work]
  }

  function EachRow(rs: seq<Request>): seq<Action> {
    if rs == [] then [] else Row(rs[0]) + EachRow(rs[1..])
  }

  /** A microbatch, all of whose requests hit. */
  function Batch(n: nat): seq<Action> {
    [Work, ControlBegin, Work, KvBegin, Begin, Work, End] + Reads(n) + [KvEnd, ControlEnd, Work]
  }

  /** A call's script: rows one after another, or one microbatch. */
  datatype Call = OneByOne(rows: seq<Request>) | Together(n: nat)

  function Script(c: Call): seq<Action> {
    match c
    case OneByOne(rows) => [Work] + EachRow(rows)
    case Together(n) => [Work] + Batch(n)
  }

  /** A failed call's cleanup (src/api.inc:31-44). */
  function Cleaned(s: State): State {
    s.(poisoned := s.poisoned || s.Flagged(), active := false, kv := false, control := false)
  }

  /** A whole call. A poisoned session refuses it. */
  function Called(s: State, c: Call, fault: nat): (r: (State, bool)) {
    if s.poisoned then (s, false)
    else
      var (t, ok) := Run(s, Script(c), fault);
      ((if ok then t else Cleaned(t)).(building := BLANK), ok)
  }

  /** Every prefix entry has its text, its tokens and their rows. */
  ghost predicate Complete(rowsOf: seq<int> -> Rows, e: Entry) {
    e.schema.Some? && e.ids.Some? && e.kv == Some(rowsOf(e.ids.value))
  }

  ghost predicate PrefixOk(rowsOf: seq<int> -> Rows, s: State) {
    s.prefix.Some? ==> Complete(rowsOf, s.prefix.value)
  }

  /** The rows a miss stores are those of its tokens, as the prefill computes them. */
  ghost predicate Computes(rowsOf: seq<int> -> Rows, c: Call) {
    c.OneByOne? ==> forall i | 0 <= i < |c.rows| && c.rows[i].Miss? :: c.rows[i].rows == rowsOf(c.rows[i].ids)
  }

  lemma {:induction false} RunSplit(s: State, a: seq<Action>, b: seq<Action>, fault: nat)
    ensures Run(s, a, fault).1 ==> fault >= |a|
    ensures Run(s, a + b, fault) == if Run(s, a, fault).1 then Run(Run(s, a, fault).0, b, fault - |a|)
      else Run(s, a, fault)
    decreases |a|
  {
    if a == [] {
      assert a + b == b;
    } else {
      assert (a + b)[1..] == a[1..] + b;
      if fault > 0 && Do(s, a[0]).Some? {
        RunSplit(Do(s, a[0]).value, a[1..], b, fault - 1);
      }
    }
  }

  /** Reads neither need nor leave the workspace in use, and fail only by a fault. */
  lemma {:induction false} ReadsRun(s: State, n: nat, fault: nat)
    requires !s.active
    ensures var (t, ok) := Run(s, Reads(n), fault);
      (ok <==> fault >= |Reads(n)|) && (ok ==> t == s) && t.(active := false) == s
  {
    if n > 0 {
      OneRead(s, fault);
      RunSplit(s, [Begin, Work, Work, End], Reads(n - 1), fault);
      if fault >= 4 {
        ReadsRun(s, n - 1, fault - 4);
      }
    }
  }

  lemma OneRead(s: State, fault: nat)
    requires !s.active
    ensures var (t, ok) := Run(s, [Begin, Work, Work, End], fault);
      (ok <==> fault >= 4) && (ok ==> t == s) && t.(active := false) == s
  {
    RunHead(s, Begin, [Work, Work, End], fault);
    if fault > 0 {
      var t := Do(s, Begin).value;
      RunHead(t, Work, [Work, End], fault - 1);
      if fault > 1 {
        RunHead(t, Work, [End], fault - 2);
        if fault > 2 {
          RunHead(t, End, [], fault - 3);
        }
      }
    }
  }

  lemma RunHead(s: State, a: Action, rest: seq<Action>, fault: nat)
    ensures Run(s, [a] + rest, fault) ==
      if fault == 0 || Do(s, a).None? then (s, false) else Run(Do(s, a).value, rest, fault - 1)
  {
    assert ([a] + rest)[1..] == rest;
  }

  /** A prefill's use of the workspace. */
  lemma OnePrefill(s: State, fault: nat)
    requires !s.active
    ensures var (t, ok) := Run(s, [Begin, Work, End], fault);
      (ok <==> fault >= 3) && (ok ==> t == s) && t.(active := false) == s
  {
    RunHead(s, Begin, [Work, End], fault);
    if fault > 0 {
      var t := Do(s, Begin).value;
      RunHead(t, Work, [End], fault - 1);
      if fault > 1 {
        RunHead(t, End, [], fault - 2);
      }
    }
  }

  /** Building an entry: the old one goes first, and the new one is installed when whole. */
  function Building(text: Text, ids: seq<int>): seq<Action> {
    [Work, DropPrefix, NewEntry, FillSchema(text), FillIds(ids)]
  }

  lemma BuildingRun(s: State, text: Text, ids: seq<int>, fault: nat)
    ensures var (t, ok) := Run(s, Building(text, ids), fault);
      (ok <==> fault >= 5) && t.(prefix := s.prefix, building := s.building) == s
        && (t.prefix == s.prefix || t.prefix == None)
      && (ok ==> t.prefix == None && t.building == Entry(Some(text), Some(ids), None))
  {
    hide Run;
    var fill := [FillSchema(text)] + ([FillIds(ids)] + []);
    assert Building(text, ids) == [Work] + ([DropPrefix] + ([NewEntry] + fill));
    RunHead(s, Work, [DropPrefix] + ([NewEntry] + fill), fault);
    if fault > 0 {
      RunHead(s, DropPrefix, [NewEntry] + fill, fault - 1);
    }
    if fault > 1 {
      var t := Do(s, DropPrefix).value;
      RunHead(t, NewEntry, fill, fault - 2);
      if fault > 2 {
        RunHead(t, FillSchema(text), [FillIds(ids)] + [], fault - 3);
      }
      if fault > 3 {
        var u := Do(t, FillSchema(text)).value;
        RunHead(u, FillIds(ids), [], fault - 4);
        RunNothing(Do(u, FillIds(ids)).value, fault - 4);
      }
    }
  }

  lemma InstallingRun(s: State, rows: Rows, fault: nat)
    ensures var (t, ok) := Run(s, [Work, FillKv(rows), Install], fault);
      (ok <==> fault >= 3) && t.(prefix := s.prefix, building := s.building) == s
      && (ok ==> t.prefix == Some(s.building.(kv := Some(rows)))) && (!ok ==> t.prefix == s.prefix)
  {
    RunHead(s, Work, [FillKv(rows), Install], fault);
    if fault > 0 {
      RunHead(s, FillKv(rows), [Install], fault - 1);
      if fault > 1 {
        RunHead(Do(s, FillKv(rows)).value, Install, [], fault - 2);
      }
    }
  }

  lemma HotIs(r: Request)
    ensures r.Hit? ==> Hot(r) == [Begin, Work, End] + Reads(r.n)
    ensures r.Miss? ==>
      Hot(r) == Building(r.text, r.ids) + ([Begin, Work, End] + ([Work, FillKv(r.rows), Install] + Reads(r.n)))
  {
  }

  /** With the K/V slab in use, a request's steps fail only by the fault, leave the slab in use, and leave a prefix
      that is the old one, none, or the whole new one: the old one on a hit, the new one on a completed miss. */
  lemma HotRun(s: State, r: Request, fault: nat)
    requires s.kv && !s.active && !s.control
    ensures var (t, ok) := Run(s, Hot(r), fault);
      && (ok <==> fault >= |Hot(r)|)
      && t.kv && !t.control && t.poisoned == s.poisoned && (ok ==> !t.active)
      && (r.Hit? ==> t.prefix == s.prefix)
      && (r.Miss? ==> t.prefix == s.prefix || t.prefix == None || t.prefix == Some(Whole(r)))
      && (r.Miss? && ok ==> t.prefix == Some(Whole(r)))
  {
    hide Run, Do, Hot, Reads;
    HotIs(r);
    var prefill, reading := [Begin, Work, End], Reads(r.n);
    if r.Hit? {
      RunSplit(s, prefill, reading, fault);
      OnePrefill(s, fault);
      if fault >= 3 {
        ReadsRun(s, r.n, fault - 3);
      }
    } else {
      var build, install := Building(r.text, r.ids), [Work, FillKv(r.rows), Install];
      RunSplit(s, build, prefill + (install + reading), fault);
      BuildingRun(s, r.text, r.ids, fault);
      if fault >= 5 {
        var t := Run(s, build, fault).0;
        RunSplit(t, prefill, install + reading, fault - 5);
        OnePrefill(t, fault - 5);
        if fault >= 8 {
          RunSplit(t, install, reading, fault - 8);
          InstallingRun(t, r.rows, fault - 8);
          if fault >= 11 {
            ReadsRun(Run(t, install, fault - 8).0, r.n, fault - 11);
          }
        }
      }
    }
  }

  function Whole(r: Request): Entry
    requires r.Miss?
  {
    Entry(Some(r.text), Some(r.ids), Some(r.rows))
  }

  /** The steps of a request whose failure finds a flag set: those after the slab's begin, to its end. */
  predicate RowArmed(r: Request, fault: nat) {
    2 <= fault <= 2 + |Hot(r)|
  }

  lemma RowRun(s: State, r: Request, fault: nat)
    requires !s.Flagged()
    ensures var (t, ok) := Run(s, Row(r), fault);
      && (ok <==> fault >= |Row(r)|)
      && t.poisoned == s.poisoned && (ok ==> !t.Flagged()) && (!ok ==> (t.Flagged() <==> RowArmed(r, fault)))
      && (r.Hit? ==> t.prefix == s.prefix)
      && (r.Miss? ==> t.prefix == s.prefix || t.prefix == None || t.prefix == Some(Whole(r)))
      && (r.Miss? && ok ==> t.prefix == Some(Whole(r)))
  {
    hide Run, Hot;
    assert Row(r) == [Work] + ([KvBegin] + (Hot(r) + ([KvEnd] + ([Work] + []))));
    RunHead(s, Work, [KvBegin] + (Hot(r) + ([KvEnd] + ([Work] + []))), fault);
    if fault > 0 {
      RunHead(s, KvBegin, Hot(r) + ([KvEnd] + ([Work] + [])), fault - 1);
      if fault > 1 {
        var t := Do(s, KvBegin).value;
        RunSplit(t, Hot(r), [KvEnd] + ([Work] + []), fault - 2);
        HotRun(t, r, fault - 2);
        if fault >= 2 + |Hot(r)| {
          var u := Run(t, Hot(r), fault - 2).0;
          RunHead(u, KvEnd, [Work] + [], fault - 2 - |Hot(r)|);
          if fault > 2 + |Hot(r)| {
            RunHead(Do(u, KvEnd).value, Work, [], fault - 3 - |Hot(r)|);
            RunNothing(Do(u, KvEnd).value, fault - 3 - |Hot(r)|);
          }
        }
      }
    }
  }

  lemma RunNothing(s: State, fault: nat)
    ensures fault > 0 ==> Run(s, [], fault - 1) == (s, true)
  {
  }

  predicate RowsArmed(rs: seq<Request>, fault: nat) {
    rs != [] && (if fault < |Row(rs[0])| then RowArmed(rs[0], fault) else RowsArmed(rs[1..], fault - |Row(rs[0])|))
  }

  lemma {:induction false} RowsRun(rowsOf: seq<int> -> Rows, s: State, rs: seq<Request>, fault: nat)
    requires !s.Flagged() && PrefixOk(rowsOf, s) && Computes(rowsOf, OneByOne(rs))
    ensures var (t, ok) := Run(s, EachRow(rs), fault);
      && (ok <==> fault >= |EachRow(rs)|)
      && t.poisoned == s.poisoned && (ok ==> !t.Flagged()) && (!ok ==> (t.Flagged() <==> RowsArmed(rs, fault)))
      && PrefixOk(rowsOf, t)
    decreases |rs|
  {
    hide Run, Row, RowArmed;
    if rs == [] {
      RunNothing(s, fault + 1);
    } else {
      RunSplit(s, Row(rs[0]), EachRow(rs[1..]), fault);
      RowRun(s, rs[0], fault);
      if fault >= |Row(rs[0])| {
        RowsRun(rowsOf, Run(s, Row(rs[0]), fault).0, rs[1..], fault - |Row(rs[0])|);
      }
    }
  }

  /** The steps of a microbatch whose failure finds a flag set. */
  predicate BatchArmed(n: nat, fault: nat) {
    2 <= fault <= 8 + |Reads(n)|
  }

  lemma BatchRun(s: State, n: nat, fault: nat)
    requires !s.Flagged()
    ensures var (t, ok) := Run(s, Batch(n), fault);
      && (ok <==> fault >= |Batch(n)|)
      && t.poisoned == s.poisoned && (ok ==> !t.Flagged()) && (!ok ==> (t.Flagged() <==> BatchArmed(n, fault)))
      && t.prefix == s.prefix
  {
    hide Run, Reads;
    var prefill, reading, ending := [Begin, Work, End], Reads(n), [KvEnd] + ([ControlEnd] + ([Work] + []));
    var slab := prefill + (reading + ending);
    assert Batch(n) == [Work] + ([ControlBegin] + ([Work] + ([KvBegin] + slab)));
    RunHead(s, Work, [ControlBegin] + ([Work] + ([KvBegin] + slab)), fault);
    if fault > 0 {
      RunHead(s, ControlBegin, [Work] + ([KvBegin] + slab), fault - 1);
    }
    if fault > 1 {
      var t := Do(s, ControlBegin).value;
      RunHead(t, Work, [KvBegin] + slab, fault - 2);
      if fault > 2 {
        RunHead(t, KvBegin, slab, fault - 3);
      }
      if fault > 3 {
        BatchSlab(Do(t, KvBegin).value, n, fault - 4);
      }
    }
  }

  lemma BatchSlab(s: State, n: nat, fault: nat)
    requires s.kv && s.control && !s.active
    ensures var (t, ok) := Run(s, [Begin, Work, End] + (Reads(n) + ([KvEnd] + ([ControlEnd] + ([Work] + [])))), fault);
      && (ok <==> fault >= |Reads(n)| + 6)
      && t.poisoned == s.poisoned && t.prefix == s.prefix
      && (ok ==> !t.Flagged()) && (!ok ==> (t.Flagged() <==> fault <= |Reads(n)| + 4))
  {
    hide Run, Reads;
    var ending := [KvEnd] + ([ControlEnd] + ([Work] + []));
    RunSplit(s, [Begin, Work, End], Reads(n) + ending, fault);
    OnePrefill(s, fault);
    if fault >= 3 {
      RunSplit(s, Reads(n), ending, fault - 3);
      ReadsRun(s, n, fault - 3);
      if fault >= 3 + |Reads(n)| {
        EndingRun(s, fault - 3 - |Reads(n)|);
      }
    }
  }

  lemma EndingRun(s: State, fault: nat)
    requires s.kv && s.control && !s.active
    ensures var (t, ok) := Run(s, [KvEnd] + ([ControlEnd] + ([Work] + [])), fault);
      && (ok <==> fault >= 3)
      && t.poisoned == s.poisoned && t.prefix == s.prefix
      && (ok ==> !t.Flagged()) && (!ok ==> (t.Flagged() <==> fault <= 1))
  {
    RunHead(s, KvEnd, [ControlEnd] + ([Work] + []), fault);
    if fault > 0 {
      var t := Do(s, KvEnd).value;
      RunHead(t, ControlEnd, [Work] + [], fault - 1);
      if fault > 1 {
        RunHead(Do(t, ControlEnd).value, Work, [], fault - 2);
      }
    }
  }

  /** The steps of a call whose failure poisons the session. */
  predicate Armed(c: Call, fault: nat) {
    fault > 0 && match c
      case OneByOne(rows) => RowsArmed(rows, fault - 1)
      case Together(n) => BatchArmed(n, fault - 1)
  }

  lemma ScriptRun(rowsOf: seq<int> -> Rows, s: State, c: Call, fault: nat)
    requires !s.Flagged() && PrefixOk(rowsOf, s) && Computes(rowsOf, c)
    ensures var (t, ok) := Run(s, Script(c), fault);
      && (ok <==> fault >= |Script(c)|)
      && t.poisoned == s.poisoned && (ok ==> !t.Flagged()) && (!ok ==> (t.Flagged() <==> Armed(c, fault)))
      && PrefixOk(rowsOf, t)
  {
    hide Run, EachRow, Batch, RowsArmed, BatchArmed;
    var rest := if c.OneByOne? then EachRow(c.rows) else Batch(c.n);
    RunHead(s, Work, rest, fault);
    if fault > 0 {
      if c.OneByOne? {
        RowsRun(rowsOf, s, c.rows, fault - 1);
      } else {
        BatchRun(s, c.n, fault - 1);
      }
    }
  }

  // ----- what the scripts are, apart from their steps' numbers

  function Count(script: seq<Action>, a: Action): nat {
    if script == [] then 0 else Count(script[..|script| - 1], a) + if script[|script| - 1] == a then 1 else 0
  }

  /** After `n` steps more slabs of a kind have begun than ended: a pass in the workspace, the K/V slab or the control
      slab. */
  predicate Open(script: seq<Action>, n: nat)
    requires n <= |script|
  {
    var done := script[..n];
    Count(done, Begin) > Count(done, End) || Count(done, KvBegin) > Count(done, KvEnd)
    || Count(done, ControlBegin) > Count(done, ControlEnd)
  }

  predicate Counts(s: State, t: State, done: seq<Action>) {
    && (if s.active then 1 else 0) + Count(done, Begin) - Count(done, End) == (if t.active then 1 else 0)
    && (if s.kv then 1 else 0) + Count(done, KvBegin) - Count(done, KvEnd) == (if t.kv then 1 else 0)
    && (if s.control then 1 else 0) + Count(done, ControlBegin) - Count(done, ControlEnd)
      == (if t.control then 1 else 0)
  }

  lemma {:induction false} CountFirst(a: Action, rest: seq<Action>, b: Action)
    ensures Count([a] + rest, b) == Count(rest, b) + if a == b then 1 else 0
    decreases |rest|
  {
    if rest == [] {
      assert [a] + rest == [a] && [a][..0] == [];
    } else {
      var n := |rest| - 1;
      CountFirst(a, rest[..n], b);
      assert ([a] + rest)[..n + 1] == [a] + rest[..n];
    }
  }

  lemma CountsFirst(s: State, a: Action, t: State, u: State, done: seq<Action>)
    requires Do(s, a) == Some(t) && Counts(t, u, done)
    ensures Counts(s, u, [a] + done)
  {
    CountFirst(a, done, Begin);
    CountFirst(a, done, End);
    CountFirst(a, done, KvBegin);
    CountFirst(a, done, KvEnd);
    CountFirst(a, done, ControlBegin);
    CountFirst(a, done, ControlEnd);
  }

  /** The flags say what is open, whatever the script. */
  lemma {:induction false} RunCounts(s: State, script: seq<Action>, fault: nat)
    requires fault <= |script| && Run(s, script, |script|).1
    ensures Counts(s, Run(s, script, fault).0, script[..fault])
    decreases |script|
  {
    hide Do, Counts;
    if fault == 0 {
      NothingCounted(s);
    } else {
      var t := Do(s, script[0]).value;
      RunCounts(t, script[1..], fault - 1);
      CountsFirst(s, script[0], t, Run(s, script, fault).0, script[1..][..fault - 1]);
      assert script[..fault] == [script[0]] + script[1..][..fault - 1];
    }
  }

  lemma NothingCounted(s: State)
    ensures Counts(s, s, [])
  {
  }

  /** The steps of a call whose failure poisons the session are those at which something is open. */
  lemma ArmedIsOpen(rowsOf: seq<int> -> Rows, s: State, c: Call, fault: nat)
    requires !s.Flagged() && PrefixOk(rowsOf, s) && Computes(rowsOf, c) && fault < |Script(c)|
    ensures Armed(c, fault) <==> Open(Script(c), fault)
  {
    hide Run, Script, Armed, Count;
    ScriptRun(rowsOf, s, c, |Script(c)|);
    ScriptRun(rowsOf, s, c, fault);
    RunCounts(s, Script(c), fault);
  }

  lemma {:induction false} CountConcat(x: seq<Action>, y: seq<Action>, a: Action)
    ensures Count(x + y, a) == Count(x, a) + Count(y, a)
    decreases |y|
  {
    if y == [] {
      assert x + y == x;
    } else {
      var n := |y| - 1;
      CountConcat(x, y[..n], a);
      assert (x + y)[..|x| + n] == x + y[..n];
    }
  }

  lemma CountOne(a: Action, b: Action)
    ensures Count([a], b) == (if a == b then 1 else 0) && Count([], b) == 0
  {
    CountFirst(a, [], b);
    assert [a] + [] == [a];
  }

  /** A decode is one pass. */
  lemma {:induction false} ReadsCount(n: nat, a: Action)
    requires a == Begin || a == KvBegin || a == ControlBegin || a == Install
    ensures Count(Reads(n), a) == if a == Begin then n else 0
  {
    if n > 0 {
      ReadsCount(n - 1, a);
      CountConcat([Begin, Work, Work, End], Reads(n - 1), a);
      CountFirst(Begin, [Work, Work, End], a);
      CountFirst(Work, [Work, End], a);
      CountFirst(Work, [End], a);
      CountOne(End, a);
      assert [Begin] + [Work, Work, End] == [Begin, Work, Work, End];
      assert [Work] + [Work, End] == [Work, Work, End] && [Work] + [End] == [Work, End];
    }
  }

  lemma PrefillCount(a: Action)
    ensures Count([Begin, Work, End], a) == (if a == Begin then 1 else 0) + (if a == Work then 1 else 0)
      + (if a == End then 1 else 0)
  {
    CountFirst(Begin, [Work, End], a);
    CountFirst(Work, [End], a);
    CountOne(End, a);
    assert [Begin] + [Work, End] == [Begin, Work, End] && [Work] + [End] == [Work, End];
  }

  lemma BuildingCount(text: Text, ids: seq<int>, rows: Rows, a: Action)
    requires a == Begin || a == KvBegin || a == ControlBegin || a == Install
    ensures Count(Building(text, ids), a) == 0
    ensures Count([Work, FillKv(rows), Install], a) == if a == Install then 1 else 0
  {
    CountFirst(Work, [DropPrefix, NewEntry, FillSchema(text), FillIds(ids)], a);
    CountFirst(DropPrefix, [NewEntry, FillSchema(text), FillIds(ids)], a);
    CountFirst(NewEntry, [FillSchema(text), FillIds(ids)], a);
    CountFirst(FillSchema(text), [FillIds(ids)], a);
    CountOne(FillIds(ids), a);
    assert Building(text, ids) == [Work] + ([DropPrefix] + ([NewEntry] + ([FillSchema(text)] + [FillIds(ids)])));
    CountFirst(Work, [FillKv(rows), Install], a);
    CountFirst(FillKv(rows), [Install], a);
    CountOne(Install, a);
    assert [Work] + ([FillKv(rows)] + [Install]) == [Work, FillKv(rows), Install];
    assert [NewEntry] + ([FillSchema(text)] + [FillIds(ids)]) == [NewEntry, FillSchema(text), FillIds(ids)];
    assert [FillSchema(text)] + [FillIds(ids)] == [FillSchema(text), FillIds(ids)];
    assert [DropPrefix] + [NewEntry, FillSchema(text), FillIds(ids)]
        == [DropPrefix, NewEntry, FillSchema(text), FillIds(ids)];
    assert [FillKv(rows)] + [Install] == [FillKv(rows), Install];
  }

  /** A request runs one pass over its prompt and one for each decode, in one K/V slab; on a miss it installs one
      entry. */
  lemma RowCount(r: Request, a: Action)
    requires a == Begin || a == KvBegin || a == ControlBegin || a == Install
    ensures Count(Row(r), a) == match a
      case Begin => 1 + r.n
      case KvBegin => 1
      case ControlBegin => 0
      case Install => if r.Miss? then 1 else 0
  {
    hide Hot, Reads, Count;
    HotIs(r);
    var prefill, reading := [Begin, Work, End], Reads(r.n);
    PrefillCount(a);
    ReadsCount(r.n, a);
    if r.Hit? {
      CountConcat(prefill, reading, a);
    } else {
      var build, install := Building(r.text, r.ids), [Work, FillKv(r.rows), Install];
      BuildingCount(r.text, r.ids, r.rows, a);
      CountConcat(build, prefill + (install + reading), a);
      CountConcat(prefill, install + reading, a);
      CountConcat(install, reading, a);
    }
    assert Row(r) == [Work] + ([KvBegin] + (Hot(r) + ([KvEnd] + [Work])));
    CountFirst(Work, [KvBegin] + (Hot(r) + ([KvEnd] + [Work])), a);
    CountFirst(KvBegin, Hot(r) + ([KvEnd] + [Work]), a);
    CountConcat(Hot(r), [KvEnd] + [Work], a);
    CountFirst(KvEnd, [Work], a);
    CountOne(Work, a);
  }

  function Passes(rs: seq<Request>): nat {
    if rs == [] then 0 else 1 + rs[0].n + Passes(rs[1..])
  }

  function Misses(rs: seq<Request>): nat {
    if rs == [] then 0 else (if rs[0].Miss? then 1 else 0) + Misses(rs[1..])
  }

  lemma {:induction false} RowsCount(rs: seq<Request>)
    ensures Count(EachRow(rs), Begin) == Passes(rs) && Count(EachRow(rs), Install) == Misses(rs)
    ensures Count(EachRow(rs), KvBegin) == |rs| && Count(EachRow(rs), ControlBegin) == 0
  {
    hide Row;
    if rs != [] {
      RowsCount(rs[1..]);
      CountConcat(Row(rs[0]), EachRow(rs[1..]), Begin);
      CountConcat(Row(rs[0]), EachRow(rs[1..]), KvBegin);
      CountConcat(Row(rs[0]), EachRow(rs[1..]), ControlBegin);
      CountConcat(Row(rs[0]), EachRow(rs[1..]), Install);
      RowCount(rs[0], Begin);
      RowCount(rs[0], KvBegin);
      RowCount(rs[0], ControlBegin);
      RowCount(rs[0], Install);
    }
  }

  lemma BatchCount(n: nat, a: Action)
    requires a == Begin || a == KvBegin || a == ControlBegin || a == Install
    ensures Count(Batch(n), a) == match a
      case Begin => 1 + n
      case KvBegin => 1
      case ControlBegin => 1
      case Install => 0
  {
    hide Reads, Count;
    var rest := [Begin, Work, End] + (Reads(n) + ([KvEnd] + ([ControlEnd] + [Work])));
    assert Batch(n) == [Work] + ([ControlBegin] + ([Work] + ([KvBegin] + rest)));
    PrefillCount(a);
    ReadsCount(n, a);
    CountConcat([Begin, Work, End], Reads(n) + ([KvEnd] + ([ControlEnd] + [Work])), a);
    CountConcat(Reads(n), [KvEnd] + ([ControlEnd] + [Work]), a);
    CountFirst(KvEnd, [ControlEnd] + [Work], a);
    CountFirst(ControlEnd, [Work], a);
    CountOne(Work, a);
    CountFirst(Work, [ControlBegin] + ([Work] + ([KvBegin] + rest)), a);
    CountFirst(ControlBegin, [Work] + ([KvBegin] + rest), a);
    CountFirst(Work, [KvBegin] + rest, a);
    CountFirst(KvBegin, rest, a);
  }

  /** A microbatch runs one pass over all prompts and one for each round of decodes, in one K/V slab and one control
      slab, and installs nothing. Rows have a pass for each prompt and each decode, and a K/V slab each. */
  lemma ScriptCounts(c: Call)
    ensures c.Together? ==>
      && Count(Script(c), Begin) == 1 + c.n && Count(Script(c), KvBegin) == Count(Script(c), ControlBegin) == 1
      && Count(Script(c), Install) == 0
    ensures c.OneByOne? ==>
      && Count(Script(c), Begin) == Passes(c.rows) && Count(Script(c), KvBegin) == |c.rows|
      && Count(Script(c), ControlBegin) == 0 && Count(Script(c), Install) == Misses(c.rows)
  {
    hide EachRow, Batch, Count;
    var rest := if c.OneByOne? then EachRow(c.rows) else Batch(c.n);
    if c.OneByOne? {
      RowsCount(c.rows);
    } else {
      BatchCount(c.n, Begin);
      BatchCount(c.n, KvBegin);
      BatchCount(c.n, ControlBegin);
      BatchCount(c.n, Install);
    }
    CountFirst(Work, rest, Begin);
    CountFirst(Work, rest, KvBegin);
    CountFirst(Work, rest, ControlBegin);
    CountFirst(Work, rest, Install);
  }

  /** One call on an idle session: it succeeds exactly if no step fails and the session is not poisoned; it leaves the
      session idle, with a prefix that is empty or complete; and it poisons the session exactly if the failure struck
      while a flag was set, which is between the begin and the end of a slab. */
  lemma CallOutcome(rowsOf: seq<int> -> Rows, s: State, c: Call, fault: nat)
    requires !s.Flagged() && PrefixOk(rowsOf, s) && Computes(rowsOf, c)
    ensures var (t, ok) := Called(s, c, fault);
      && (ok <==> !s.poisoned && fault >= |Script(c)|)
      && !t.Flagged() && PrefixOk(rowsOf, t)
      && (t.poisoned <==> s.poisoned || (fault < |Script(c)| && Armed(c, fault)))
      && (t.poisoned <==> s.poisoned || (fault < |Script(c)| && Open(Script(c), fault)))
      && (s.poisoned ==> t == s)
  {
    hide Run, Script, Armed, Open;
    ScriptRun(rowsOf, s, c, fault);
    if fault < |Script(c)| {
      ArmedIsOpen(rowsOf, s, c, fault);
    }
  }

  /** A session after some calls, the i-th failing at step `faults[i]` if it has that many. */
  function After(s: State, calls: seq<Call>, faults: seq<nat>): State
    requires |calls| == |faults|
  {
    if calls == [] then s
    else
      var n := |calls| - 1;
      Called(After(s, calls[..n], faults[..n]), calls[n], faults[n]).0
  }

  const FRESH := State(false, false, false, false, None, BLANK)

  /** Over any sequence of calls with any failures: the session is idle between calls, its prefix is empty or complete,
      and it is poisoned exactly if some call failed with a slab open. */
  lemma {:induction false} EverySession(rowsOf: seq<int> -> Rows, calls: seq<Call>, faults: seq<nat>)
    requires |calls| == |faults| && forall i | 0 <= i < |calls| :: Computes(rowsOf, calls[i])
    ensures var s := After(FRESH, calls, faults);
      && !s.Flagged() && PrefixOk(rowsOf, s)
      && (s.poisoned <==>
            exists i | 0 <= i < |calls| :: faults[i] < |Script(calls[i])| && Open(Script(calls[i]), faults[i]))
  {
    hide Called, Script, Open;
    if calls != [] {
      var n := |calls| - 1;
      EverySession(rowsOf, calls[..n], faults[..n]);
      CallOutcome(rowsOf, After(FRESH, calls[..n], faults[..n]), calls[n], faults[n]);
      var s := After(FRESH, calls[..n], faults[..n]);
      assert s.poisoned ==>
        exists i | 0 <= i < |calls| :: faults[i] < |Script(calls[i])| && Open(Script(calls[i]), faults[i]) by {
        if s.poisoned {
          var i :| 0 <= i < n && faults[..n][i] < |Script(calls[..n][i])|
            && Open(Script(calls[..n][i]), faults[..n][i]);
          assert faults[i] < |Script(calls[i])| && Open(Script(calls[i]), faults[i]);
        }
      }
      forall i | 0 <= i < |calls| && faults[i] < |Script(calls[i])| && Open(Script(calls[i]), faults[i])
        ensures After(FRESH, calls, faults).poisoned
      {
        if i < n {
          assert faults[..n][i] < |Script(calls[..n][i])| && Open(Script(calls[..n][i]), faults[..n][i]);
        }
      }
    }
  }

  /** The session object. */
  class Session {
    var poisoned: bool
    var active: bool
    var kvActive: bool
    var controlActive: bool
    var prefix: Option<Entry>

    /** The session's value. An entry is under construction only within a call, which owns it. */
    function Abs(): State
      reads this
    {
      State(poisoned, active, kvActive, controlActive, prefix, BLANK)
    }

    constructor ()
      ensures Abs() == FRESH
    {
      poisoned, active, kvActive, controlActive, prefix := false, false, false, false, None;
    }

    /** One action on the fields; `false` if its check fails. */
    method Act(a: Action, building: Entry) returns (ok: bool, built: Entry)
      modifies this
      ensures var s := old(Abs()).(building := building);
        (ok <==> Do(s, a).Some?) && Abs().(building := built) == if ok then Do(s, a).value else s
    {
      ok, built := true, building;
      match a
      case Work =>
      case NewEntry =>
      case Begin => if active { ok := false; } else { active := true; }
      case End => if !active { ok := false; } else { active := false; }
      case KvBegin => if kvActive { ok := false; } else { kvActive := true; }
      case KvEnd => if !kvActive { ok := false; } else { kvActive := false; }
      case ControlBegin => if controlActive { ok := false; } else { controlActive := true; }
      case ControlEnd => if !controlActive { ok := false; } else { controlActive := false; }
      case DropPrefix => prefix, built := None, BLANK;
      case FillSchema(text) => built := built.(schema := Some(text));
      case FillIds(ids) => built := built.(ids := Some(ids));
      case FillKv(rows) => built := built.(kv := Some(rows));
      case Install => prefix := Some(built);
    }

    method CallCleanup()
      modifies this
      ensures Abs() == Cleaned(old(Abs()))
    {
      if active || kvActive || controlActive {
        poisoned := true;
      }
      active, kvActive, controlActive := false, false, false;
    }

    /** A decide call whose step `fault` fails, if it has that many. */
    method Decide(c: Call, fault: nat) returns (ok: bool)
      modifies this
      ensures (Abs(), ok) == Called(old(Abs()), c, fault)
    {
      if poisoned {
        return false;
      }
      var script := Script(c);
      var i: nat, built: Entry := 0, BLANK;
      ok := true;
      while i < |script| && ok
        invariant i <= |script| && i <= fault
        invariant ok ==> Run(old(Abs()), script, fault) == Run(Abs().(building := built), script[i..], fault - i)
        invariant !ok ==> Run(old(Abs()), script, fault) == (Abs().(building := built), false)
        decreases |script| - i, ok
      {
        assert script[i..][1..] == script[i + 1..];
        if i == fault {
          ok := false;
        } else {
          ok, built := Act(script[i], built);
          if ok {
            i := i + 1;
          }
        }
      }
      if !ok {
        CallCleanup();
      }
    }
  }
}
