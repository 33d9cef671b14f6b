/** Several requests in one call (jb.c:8401-8526, 8610-8727; src/api.inc:460-467): whether they run as one microbatch or
    row by row, the answers, the success of the call and the prefix cache are the same. */
module Microbatch {
  import opened Wrappers
  import opened Transformer
  import opened Segments
  import opened Attention
  import opened Prefix
  import opened Reads
  import opened Rounds

  /** A prepared request: its schema, the tokens it may share, its prompt, and how its answers are read. */
  datatype Request = Request(sys: string, pre: seq<int>, prompt: seq<int>, questions: nat, plan: Plan, total: Total)

  /** How much K/V one microbatch may have. */
  datatype Room = Room(tokenBytes: nat, kvLimit: nat)

  /** What later requests can see of the prefix cache. */
  datatype Entry = Entry(schema: Option<string>, ids: seq<int>)

  ghost function EntryOf(cache: PrefixCache): Entry
    reads cache
  {
    Entry(cache.schema, cache.ids)
  }

  ghost predicate Prepared(qs: seq<Request>) {
    forall b | 0 <= b < |qs| :: qs[b].plan.Valid()
  }

  // ----- what a request's answers are, by itself

  /** A prompt's K and V by one causal pass over it. */
  ghost function Cached(net: Net, prompt: seq<int>): (r: seq<KvRows>)
    requires net.window > 0
    ensures Caches(net, r, |prompt|)
  {
    seq(net.layers, l requires 0 <= l < net.layers => Monolithic(net, prompt, l))
  }

  /** A request's totals, reads and order when it runs with no cache, no other request, and one read after the other. */
  ghost function Alone(net: Net, q: Request): Progress
    requires net.window > 0 && q.plan.Valid()
  {
    Sequential(net, q.plan, Cached(net, q.prompt), |q.prompt|, Progress(q.total, 0, true, []), 0)
  }

  /** The answers of a request: those of its reads over the K and V of its whole prompt, added in order. */
  ghost predicate Answered(net: Net, q: Request, state: Progress)
    requires net.window > 0
  {
    Answers(net, q.plan, Cached(net, q.prompt), |q.prompt|, q.total, state)
  }

  /** What a request leaves in the cache, or that it fails. */
  function AfterRow(e: Entry, q: Request): Option<Entry> {
    if Serves(e.schema, e.ids, q.sys, q.prompt) then
      if |e.ids| == |q.prompt| then None else Some(e)
    else
      var common := Common(q.pre, q.prompt);
      if 0 < common < |q.prompt| then Some(Entry(Some(q.sys), q.prompt[..common])) else None
  }

  /** The cache after one request after the other, up to the first that fails, and whether none does. */
  function Rowwise(e: Entry, qs: seq<Request>): (Entry, bool) {
    if qs == [] then (e, true)
    else
      var (past, ok) := Rowwise(e, qs[..|qs| - 1]);
      var more := AfterRow(past, qs[|qs| - 1]);
      if ok && more.Some? then (more.value, true) else (past, false)
  }

  // ----- storage

  /** Buffers of the given lengths. */
  method NewStorage(lens: seq<nat>) returns (kv: seq<KvBuffer>)
    ensures |kv| == |lens| && Separate(kv) && ValidAll(kv)
    ensures forall i | 0 <= i < |lens| :: fresh(kv[i]) && kv[i].n == lens[i]
  {
    var blank: Wide := *;
    kv := [];
    for i := 0 to |lens|
      invariant |kv| == i && Separate(kv) && ValidAll(kv)
      invariant forall j | 0 <= j < i :: fresh(kv[j]) && kv[j].n == lens[j]
    {
      var none := seq(lens[i], _ => blank);
      var one := new KvBuffer(none, none);
      assert one.Rows().k == none;
      kv := kv + [one];
    }
  }

  /** The rows in one document's buffers. */
  method ReadCache(net: Net, kv: seq<KvBuffer>, prompt: seq<int>, b: nat, batch: nat) returns (rows: seq<KvRows>)
    requires net.window > 0 && b < batch && |kv| == batch * net.layers
    requires forall l {:trigger At(b, l, batch, net.layers)} | 0 <= l < net.layers ::
      kv[At(b, l, batch, net.layers)].Rows() == Monolithic(net, prompt, l)
    ensures rows == Cached(net, prompt)
  {
    hide Monolithic, At;
    rows := [];
    for l := 0 to net.layers
      invariant rows == Cached(net, prompt)[..l]
    {
      var one := kv[At(b, l, batch, net.layers)];
      assert one.Rows() == Monolithic(net, prompt, l);
      rows := rows + [KvRows(one.k, one.v)];
    }
  }

  // ----- one request

  /** One request through the prefix cache. */
  method RunRow(net: Net, cache: PrefixCache, q: Request) returns (ok: bool, state: Progress)
    requires net.window > 0 && cache.Valid(net) && q.plan.Valid()
    modifies cache
    ensures cache.Valid(net)
    ensures ok <==> AfterRow(old(EntryOf(cache)), q).Some?
    ensures EntryOf(cache) == if ok then AfterRow(old(EntryOf(cache)), q).value else old(EntryOf(cache))
    ensures ok ==> state == Alone(net, q) && Answered(net, q, state)
  {
    hide Monolithic, PrefixCache.Valid, Plan.Valid, Sequential, Caches, Answers;
    var kv := NewStorage(seq(net.layers, _ => |q.prompt|));
    var r, processed := PrefillThrough(net, cache, q.sys, q.pre, q.prompt, kv);
    if r.NoReusablePrefix? || r.PrefixConsumesPrompt? {
      return false, Progress(q.total, 0, true, []);
    }
    OneDocument(net, kv, q.prompt);
    var rows := ReadCache(net, kv, q.prompt, 0, 1);
    var job := new Job(q.plan, q.total);
    RunShared(net, job, rows, |q.prompt|);
    return true, job.state;
  }

  lemma OneDocument(net: Net, kv: seq<KvBuffer>, prompt: seq<int>)
    requires net.window > 0 && |kv| == net.layers
    requires forall l | 0 <= l < net.layers :: kv[l].Rows() == Monolithic(net, prompt, l)
    ensures forall l {:trigger At(0, l, 1, net.layers)} | 0 <= l < net.layers ::
      kv[At(0, l, 1, net.layers)].Rows() == Monolithic(net, prompt, l)
  {
    hide Monolithic;
  }

  /** One request after the other, until one fails. */
  method RunRows(net: Net, cache: PrefixCache, qs: seq<Request>) returns (ok: bool, states: seq<Progress>)
    requires net.window > 0 && cache.Valid(net) && Prepared(qs)
    modifies cache
    ensures cache.Valid(net) && (EntryOf(cache), ok) == Rowwise(old(EntryOf(cache)), qs)
    ensures ok ==> |states| == |qs| && forall b | 0 <= b < |qs| ::
      states[b] == Alone(net, qs[b]) && Answered(net, qs[b], states[b])
  {
    hide PrefixCache.Valid, Plan.Valid, Alone, Answered, AfterRow, Rowwise;
    states := [];
    RowwiseNone(old(EntryOf(cache)));
    assert qs[..0] == [];
    for b := 0 to |qs|
      invariant cache.Valid(net) && (EntryOf(cache), true) == Rowwise(old(EntryOf(cache)), qs[..b])
      invariant |states| == b
      invariant forall i | 0 <= i < b :: states[i] == Alone(net, qs[i]) && Answered(net, qs[i], states[i])
    {
      RowwiseMore(old(EntryOf(cache)), qs, b);
      var state;
      ok, state := RunRow(net, cache, qs[b]);
      if !ok {
        RowwiseStops(old(EntryOf(cache)), qs, b + 1);
        return;
      }
      states := states + [state];
    }
    assert qs[..|qs|] == qs;
    ok := true;
  }

  lemma RowwiseNone(e: Entry)
    ensures Rowwise(e, []) == (e, true)
  {
  }

  lemma RowwiseMore(e: Entry, qs: seq<Request>, b: nat)
    requires b < |qs|
    ensures Rowwise(e, qs[..b + 1]) ==
      var (past, ok) := Rowwise(e, qs[..b]);
      var more := AfterRow(past, qs[b]);
      (if ok && more.Some? then (more.value, true) else (past, false))
  {
    assert qs[..b + 1][..b] == qs[..b];
  }

  /** Nothing follows a failure. */
  lemma {:induction false} RowwiseStops(e: Entry, qs: seq<Request>, b: nat)
    requires b <= |qs| && !Rowwise(e, qs[..b]).1
    ensures Rowwise(e, qs) == Rowwise(e, qs[..b])
    decreases |qs| - b
  {
    hide AfterRow;
    if b < |qs| {
      RowwiseMore(e, qs, b);
      RowwiseStops(e, qs, b + 1);
    } else {
      assert qs[..b] == qs;
    }
  }

  // ----- one microbatch

  function Tokens(qs: seq<Request>): nat {
    if qs == [] then 0 else Tokens(qs[..|qs| - 1]) + |qs[|qs| - 1].prompt|
  }

  /** The test for running requests together: the cached entry serves all of them, their canvases are of one shape, and
      canvases, padded suffixes and K/V have room. */
  predicate Together(e: Entry, qs: seq<Request>, room: Room) {
    && |qs| >= 2 && e.schema.Some?
    && (forall b | 0 <= b < |qs| :: Serves(e.schema, e.ids, qs[b].sys, qs[b].prompt) && SameShape(qs[b], qs[0]))
    && |qs| * qs[0].plan.groups * qs[0].plan.width <= MAX_CTX
    && (forall b | 0 <= b < |qs| :: |qs| * (|qs[b].prompt| - |e.ids|) <= MAX_CTX)
    && Tokens(qs) * room.tokenBytes <= room.kvLimit
  }

  predicate SameShape(p: Request, q: Request) {
    p.plan.width == q.plan.width && p.plan.groups == q.plan.groups && p.questions == q.questions
  }

  /** All the test compares: requests of one schema whose prompts start with the cached ids, canvases of one shape that
      fit the context side by side, suffixes that fit it when padded to the longest, and K/V rows for every token. */
  lemma TogetherIs(e: Entry, qs: seq<Request>, room: Room, longest: nat)
    requires forall b | 0 <= b < |qs| :: |qs[b].prompt| <= |e.ids| + longest
    requires exists b | 0 <= b < |qs| :: |qs[b].prompt| == |e.ids| + longest
    ensures Together(e, qs, room) <==>
      && |qs| >= 2
      && (forall b | 0 <= b < |qs| :: e.schema == Some(qs[b].sys) && e.ids <= qs[b].prompt)
      && (forall b | 0 <= b < |qs| :: qs[b].plan.width == qs[0].plan.width && qs[b].plan.groups == qs[0].plan.groups
                                      && qs[b].questions == qs[0].questions)
      && |qs| * qs[0].plan.groups * qs[0].plan.width <= 4096 && |qs| * longest <= 4096
      && Tokens(qs) * room.tokenBytes <= room.kvLimit
  {
    hide Serves, SameShape, Tokens;
    ServedAlike(e, qs);
    if forall b | 0 <= b < |qs| :: Serves(e.schema, e.ids, qs[b].sys, qs[b].prompt) {
      LongestTimes(qs, |e.ids|, longest);
    }
  }

  lemma ServedAlike(e: Entry, qs: seq<Request>)
    requires qs != []
    ensures (forall b | 0 <= b < |qs| ::
              Serves(e.schema, e.ids, qs[b].sys, qs[b].prompt) && SameShape(qs[b], qs[0])) <==>
      && (forall b | 0 <= b < |qs| :: e.schema == Some(qs[b].sys) && e.ids <= qs[b].prompt)
      && (forall b | 0 <= b < |qs| :: qs[b].plan.width == qs[0].plan.width && qs[b].plan.groups == qs[0].plan.groups
                                      && qs[b].questions == qs[0].questions)
    ensures (forall b | 0 <= b < |qs| :: Serves(e.schema, e.ids, qs[b].sys, qs[b].prompt)) ==>
      e.schema.Some? && forall b | 0 <= b < |qs| :: |e.ids| <= |qs[b].prompt|
  {
    if forall b | 0 <= b < |qs| :: Serves(e.schema, e.ids, qs[b].sys, qs[b].prompt) {
      assert Serves(e.schema, e.ids, qs[0].sys, qs[0].prompt);
    }
  }

  /** The code's test: flags, the longest suffix, and the sums. */
  method CheckTogether(cache: PrefixCache, qs: seq<Request>, room: Room) returns (ok: bool)
    ensures ok <==> Together(EntryOf(cache), qs, room)
  {
    if |qs| < 2 || cache.schema.None? {
      return false;
    }
    ok := true;
    for b := 0 to |qs|
      invariant ok <==> forall i | 0 <= i < b ::
        Serves(cache.schema, cache.ids, qs[i].sys, qs[i].prompt) && SameShape(qs[i], qs[0])
    {
      if !Serves(cache.schema, cache.ids, qs[b].sys, qs[b].prompt) || !SameShape(qs[b], qs[0]) {
        ok := false;
      }
    }
    if !ok || |qs| * qs[0].plan.groups * qs[0].plan.width > MAX_CTX {
      return false;
    }
    var longest := Longest(qs, |cache.ids|);
    LongestTimes(qs, |cache.ids|, longest);
    if |qs| * longest > MAX_CTX {
      return false;
    }
    var tokens := CountTokens(qs);
    ok := tokens * room.tokenBytes <= room.kvLimit;
  }

  method CountTokens(qs: seq<Request>) returns (tokens: nat)
    ensures tokens == Tokens(qs)
  {
    tokens := 0;
    for b := 0 to |qs|
      invariant tokens == Tokens(qs[..b])
    {
      assert qs[..b + 1][..b] == qs[..b];
      tokens := tokens + |qs[b].prompt|;
    }
    assert qs[..|qs|] == qs;
  }

  method Longest(qs: seq<Request>, n: nat) returns (longest: nat)
    requires forall b | 0 <= b < |qs| :: n <= |qs[b].prompt|
    ensures forall b | 0 <= b < |qs| :: |qs[b].prompt| - n <= longest
    ensures longest == 0 || exists b | 0 <= b < |qs| :: |qs[b].prompt| - n == longest
  {
    longest := 0;
    for b := 0 to |qs|
      invariant forall i | 0 <= i < b :: |qs[i].prompt| - n <= longest
      invariant longest == 0 || exists i | 0 <= i < b :: |qs[i].prompt| - n == longest
    {
      if |qs[b].prompt| - n > longest {
        longest := |qs[b].prompt| - n;
      }
    }
  }

  lemma LongestTimes(qs: seq<Request>, n: nat, longest: nat)
    requires forall b | 0 <= b < |qs| :: n <= |qs[b].prompt| && |qs[b].prompt| - n <= longest
    requires longest == 0 || exists b | 0 <= b < |qs| :: |qs[b].prompt| - n == longest
    ensures |qs| * longest <= MAX_CTX <==> forall b | 0 <= b < |qs| :: |qs| * (|qs[b].prompt| - n) <= MAX_CTX
  {
    forall b | 0 <= b < |qs|
      ensures |qs| * (|qs[b].prompt| - n) <= |qs| * longest
    {
      TimesGrows(|qs|, |qs[b].prompt| - n, longest);
    }
  }

  lemma TimesGrows(a: nat, x: nat, y: nat)
    requires x <= y
    ensures a * x <= a * y
  {
    assert a * y == a * x + a * (y - x);
  }

  datatype Batched = Refused | ConsumesPrompt | Done

  /** The lengths of all documents' buffers. */
  method Lengths(qs: seq<Request>, layers: nat) returns (lens: seq<nat>)
    ensures |lens| == |qs| * layers
    ensures forall b, l {:trigger At(b, l, |qs|, layers)} | 0 <= b < |qs| && 0 <= l < layers ::
      lens[At(b, l, |qs|, layers)] == |qs[b].prompt|
  {
    lens := [];
    for b: nat := 0 to |qs|
      invariant |lens| == b * layers
      invariant forall i, l {:trigger At(i, l, |qs|, layers)} | 0 <= i < b && 0 <= l < layers ::
        At(i, l, |qs|, layers) < |lens| && lens[At(i, l, |qs|, layers)] == |qs[i].prompt|
    {
      ghost var was := lens;
      lens := lens + seq(layers, _ => |qs[b].prompt|);
      assert b * layers + layers == (b + 1) * layers;
      forall i, l {:trigger At(i, l, |qs|, layers)} | 0 <= i <= b && 0 <= l < layers
        ensures At(i, l, |qs|, layers) < |lens| && lens[At(i, l, |qs|, layers)] == |qs[i].prompt|
      {
        if i < b {
          assert At(i, l, |qs|, layers) < |was|;
        } else {
          assert At(b, l, |qs|, layers) == |was| + l;
        }
      }
    }
  }

  /** Prefills the documents of a microbatch in one pass: each one's K and V are those of its own pass. */
  method PrefillDocuments(net: Net, cache: PrefixCache, qs: seq<Request>) returns (caches: seq<seq<KvRows>>)
    requires net.window > 0 && cache.Valid(net) && |qs| > 0 && cache.schema.Some?
    requires forall b | 0 <= b < |qs| :: Serves(cache.schema, cache.ids, qs[b].sys, qs[b].prompt)
    ensures |caches| == |qs| && forall b | 0 <= b < |qs| :: caches[b] == Cached(net, qs[b].prompt)
  {
    hide Monolithic, PrefixCache.Valid, At, Cached;
    var batch := |qs|;
    var lens := Lengths(qs, net.layers);
    var kv := NewStorage(lens);
    var prompts := seq(batch, b requires 0 <= b < batch => qs[b].prompt);
    var n := |cache.ids|;
    var suffixes: seq<nat> := seq(batch, b requires 0 <= b < batch => |qs[b].prompt[n..]|);
    PrefillBatch(net, cache, cache.schema.value, prompts, kv, suffixes);
    forall b, l {:trigger At(b, l, batch, net.layers)} | 0 <= b < batch && 0 <= l < net.layers
      ensures kv[At(b, l, batch, net.layers)].Rows() == Monolithic(net, qs[b].prompt, l)
    {
      assert kv[At(b, l, |prompts|, net.layers)].Rows() == Monolithic(net, prompts[b], l);
    }
    caches := ReadCaches(net, kv, qs);
  }

  method ReadCaches(net: Net, kv: seq<KvBuffer>, qs: seq<Request>) returns (caches: seq<seq<KvRows>>)
    requires net.window > 0 && |kv| == |qs| * net.layers
    requires forall b, l {:trigger At(b, l, |qs|, net.layers)} | 0 <= b < |qs| && 0 <= l < net.layers ::
      kv[At(b, l, |qs|, net.layers)].Rows() == Monolithic(net, qs[b].prompt, l)
    ensures |caches| == |qs| && forall b | 0 <= b < |qs| :: caches[b] == Cached(net, qs[b].prompt)
  {
    hide Monolithic, At, Cached;
    caches := [];
    for b := 0 to |qs|
      invariant |caches| == b && forall i | 0 <= i < b :: caches[i] == Cached(net, qs[i].prompt)
    {
      var rows := ReadCache(net, kv, qs[b].prompt, b, |qs|);
      caches := caches + [rows];
    }
  }

  /** Decodes a microbatch in rounds: every request's answers are its own. */
  method DecodeDocuments(net: Net, qs: seq<Request>, caches: seq<seq<KvRows>>) returns (states: seq<Progress>)
    requires net.window > 0 && Prepared(qs) && |qs| > 0 && forall b | 0 <= b < |qs| :: SameShape(qs[b], qs[0])
    requires |caches| == |qs| && forall b | 0 <= b < |qs| :: caches[b] == Cached(net, qs[b].prompt)
    ensures |states| == |qs| && forall b | 0 <= b < |qs| ::
      states[b] == Alone(net, qs[b]) && Answered(net, qs[b], states[b])
  {
    hide Plan.Valid, Sequential, Cached, Caches, Jobs.Valid, Answers;
    var batch := |qs|;
    var plans := seq(batch, b requires 0 <= b < batch => qs[b].plan);
    var lengths: seq<nat> := seq(batch, b requires 0 <= b < batch => |qs[b].prompt|);
    var j := Jobs(plans, qs[0].plan.width, caches, lengths);
    JobsValid(net, qs, j);
    var start := new Progress[batch](b requires 0 <= b < batch => Progress(qs[b].total, 0, true, []));
    RunRounds(net, j, start);
    states := start[..];
  }

  lemma JobsValid(net: Net, qs: seq<Request>, j: Jobs)
    requires net.window > 0 && Prepared(qs) && |qs| > 0 && forall b | 0 <= b < |qs| :: SameShape(qs[b], qs[0])
    requires |j.plans| == |j.caches| == |j.past| == |qs| && j.width == qs[0].plan.width
    requires forall b | 0 <= b < |qs| ::
      j.plans[b] == qs[b].plan && j.caches[b] == Cached(net, qs[b].prompt) && j.past[b] == |qs[b].prompt|
    ensures j.Valid(net)
  {
    hide Cached, Caches;
    PlanFacts(qs[0].plan, 0);
    assert qs[0].plan.width > 0;
  }

  /** Requests that run as one microbatch, if they can. */
  method RunTogether(net: Net, cache: PrefixCache, qs: seq<Request>, room: Room)
    returns (r: Batched, states: seq<Progress>)
    requires net.window > 0 && cache.Valid(net) && Prepared(qs)
    ensures r.Refused? <==> !Together(EntryOf(cache), qs, room)
    ensures !r.Refused? ==> Rowwise(EntryOf(cache), qs) == (EntryOf(cache), r.Done?)
    ensures r.Done? ==> |states| == |qs| && forall b | 0 <= b < |qs| ::
      states[b] == Alone(net, qs[b]) && Answered(net, qs[b], states[b])
  {
    states := [];
    hide PrefixCache.Valid, Plan.Valid, Alone, Answered, Rowwise;
    var ok := CheckTogether(cache, qs, room);
    if !ok {
      return Refused, states;
    }
    HitRows(EntryOf(cache), qs, room);
    for b := 0 to |qs|
      invariant forall i | 0 <= i < b :: |cache.ids| < |qs[i].prompt|
    {
      if |qs[b].prompt| - |cache.ids| < 1 {
        return ConsumesPrompt, states;
      }
    }
    var caches := PrefillDocuments(net, cache, qs);
    states := DecodeDocuments(net, qs, caches);
    r := Done;
  }

  /** Row by row, requests that the entry serves all hit, and fail exactly if the entry is some whole prompt. */
  lemma HitRows(e: Entry, qs: seq<Request>, room: Room)
    requires Together(e, qs, room)
    ensures Rowwise(e, qs) == (e, forall b | 0 <= b < |qs| :: |e.ids| < |qs[b].prompt|)
  {
    HitSome(e, qs, |qs|);
    assert qs[..|qs|] == qs;
  }

  lemma {:induction false} HitSome(e: Entry, qs: seq<Request>, n: nat)
    requires n <= |qs| && forall b | 0 <= b < |qs| :: Serves(e.schema, e.ids, qs[b].sys, qs[b].prompt)
    ensures Rowwise(e, qs[..n]) == (e, forall b | 0 <= b < n :: |e.ids| < |qs[b].prompt|)
  {
    if n > 0 {
      HitSome(e, qs, n - 1);
      RowwiseMore(e, qs, n - 1);
    }
  }

  /** A call with several requests: together if they can be, and otherwise row by row. Which it was makes no difference:
      the answers are those of each request by itself, and the call's success and the cache are those of the requests
      one after the other, however much room a microbatch has. */
  method RunCall(net: Net, cache: PrefixCache, qs: seq<Request>, room: Room) returns (ok: bool, states: seq<Progress>)
    requires net.window > 0 && cache.Valid(net) && Prepared(qs)
    modifies cache
    ensures cache.Valid(net) && (EntryOf(cache), ok) == Rowwise(old(EntryOf(cache)), qs)
    ensures ok ==> |states| == |qs| && forall b | 0 <= b < |qs| ::
      states[b] == Alone(net, qs[b]) && Answered(net, qs[b], states[b])
  {
    hide PrefixCache.Valid, Plan.Valid, Alone, Answered, Rowwise, Together;
    var r;
    r, states := RunTogether(net, cache, qs, room);
    ok := r.Done?;
    if r.Refused? {
      ok, states := RunRows(net, cache, qs);
    }
  }
}
