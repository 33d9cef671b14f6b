/** Byte-pair encoding of one piece of text (jb.c:2046-2131). BpeHeap models its candidate heap.

    The specification is a full rescan: find the lowest-ranked adjacent pair, leftmost first, merge it,
    start again. The program keeps a linked list of ids and a heap of candidates that may be stale. */
module Bpe {
  import opened Wrappers
  import opened Utf8
  import opened BpeHeap

  /** UINT32_MAX: the end of the linked list, and the id of a slot that has been merged away. */
  const NIL: nat := 0xFFFF_FFFF

  /** A vocabulary (id to bytes, and back), and the merge table from id pairs to ranks. */
  datatype Tokenizer = Tokenizer(byId: seq<seq<byte>>, vocab: map<seq<byte>, nat>, ranks: map<(nat, nat), nat>) {
    /** What loading a tokenizer establishes: ids and byte strings in bijection, merges between known ids. */
    ghost predicate Valid() {
      && |byId| < NIL
      && (forall id | 0 <= id < |byId| :: byId[id] in vocab && vocab[byId[id]] == id)
      && (forall s | s in vocab :: vocab[s] < |byId| && byId[vocab[s]] == s)
      && (forall m | m in ranks :: m.0 < |byId| && m.1 < |byId|)
    }

    predicate Known(ids: seq<nat>) {
      forall i | 0 <= i < |ids| :: ids[i] < |byId|
    }

    function Find(s: seq<byte>): Option<nat> {
      if s in vocab then Some(vocab[s]) else None
    }

    /** The bytes that a sequence of ids stands for. */
    function Text(ids: seq<nat>): seq<byte>
      requires Known(ids)
    {
      if ids == [] then [] else Text(ids[..|ids| - 1]) + byId[ids[|ids| - 1]]
    }
  }

  /** The ids a piece is encoded as, or the error the encoder dies with. */
  datatype Outcome = Encoded(ids: seq<nat>) | InvalidUtf8 | FallbackAbsent | MergedAbsent

  // ----- specification: repeated full rescans

  predicate Mergeable(t: Tokenizer, ids: seq<nat>, p: nat) {
    p + 1 < |ids| && (ids[p], ids[p + 1]) in t.ranks
  }

  function RankAt(t: Tokenizer, ids: seq<nat>, p: nat): nat
    requires Mergeable(t, ids, p)
  {
    t.ranks[(ids[p], ids[p + 1])]
  }

  /** One scan over the first `n` pairs, keeping a later pair only when its rank is strictly lower. */
  function Rescan(t: Tokenizer, ids: seq<nat>, n: nat): (r: Option<nat>)
    ensures r.Some? ==> r.value < n && Mergeable(t, ids, r.value)
  {
    if n == 0 then None
    else
      var best := Rescan(t, ids, n - 1);
      if Mergeable(t, ids, n - 1) && (best.None? || RankAt(t, ids, n - 1) < RankAt(t, ids, best.value))
      then Some(n - 1) else best
  }

  /** The pair at `p` has the lowest rank of all, and is the leftmost of those with its rank. */
  ghost predicate LowestLeftmost(t: Tokenizer, ids: seq<nat>, p: nat) {
    && Mergeable(t, ids, p)
    && (forall q: nat | Mergeable(t, ids, q) :: RankAt(t, ids, p) <= RankAt(t, ids, q))
    && (forall q: nat | Mergeable(t, ids, q) && q < p :: RankAt(t, ids, p) < RankAt(t, ids, q))
  }

  lemma {:induction false} RescanScans(t: Tokenizer, ids: seq<nat>, n: nat)
    ensures Rescan(t, ids, n).None? ==> forall q: nat | Mergeable(t, ids, q) :: q >= n
    ensures Rescan(t, ids, n).Some? ==>
              var p := Rescan(t, ids, n).value;
              && (forall q: nat | Mergeable(t, ids, q) && q < n :: RankAt(t, ids, p) <= RankAt(t, ids, q))
              && (forall q: nat | Mergeable(t, ids, q) && q < p :: RankAt(t, ids, p) < RankAt(t, ids, q))
  {
    if n > 0 {
      RescanScans(t, ids, n - 1);
    }
  }

  /** A full rescan finds a pair exactly when it is the lowest-ranked, leftmost one. */
  lemma RescanIsLowestLeftmost(t: Tokenizer, ids: seq<nat>, p: nat)
    ensures Rescan(t, ids, |ids|) == Some(p) <==> LowestLeftmost(t, ids, p)
    ensures Rescan(t, ids, |ids|).None? <==> forall q: nat :: !Mergeable(t, ids, q)
  {
    RescanScans(t, ids, |ids|);
  }

  /** The bytes of the pair at `p`, joined. */
  function Joined(t: Tokenizer, ids: seq<nat>, p: nat): seq<byte>
    requires t.Known(ids) && p + 1 < |ids|
  {
    t.byId[ids[p]] + t.byId[ids[p + 1]]
  }

  function Merged(ids: seq<nat>, p: nat, v: nat): (r: seq<nat>)
    requires p + 1 < |ids|
    ensures |r| == |ids| - 1
  {
    ids[..p] + [v] + ids[p + 2..]
  }

  /** Merging until no pair is left to merge. */
  ghost function MergeAll(t: Tokenizer, ids: seq<nat>): Outcome
    requires t.Valid() && t.Known(ids)
    decreases |ids|
  {
    match Rescan(t, ids, |ids|)
    case None => Encoded(ids)
    case Some(p) =>
      match t.Find(Joined(t, ids, p))
      case None => MergedAbsent
      case Some(v) => MergeAll(t, Merged(ids, p, v))
  }

  lemma {:induction false} TextConcat(t: Tokenizer, x: seq<nat>, y: seq<nat>)
    requires t.Known(x) && t.Known(y)
    ensures t.Known(x + y) && t.Text(x + y) == t.Text(x) + t.Text(y)
    decreases |y|
  {
    if y == [] {
      assert x + y == x;
    } else {
      TextConcat(t, x, y[..|y| - 1]);
      assert (x + y)[..|x + y| - 1] == x + y[..|y| - 1];
    }
  }

  lemma TextReplace(t: Tokenizer, a: seq<nat>, b: seq<nat>, c: seq<nat>, z: seq<nat>)
    requires t.Known(a) && t.Known(b) && t.Known(c) && t.Known(z) && t.Text(b) == t.Text(c)
    ensures t.Known(a + b + z) && t.Known(a + c + z) && t.Text(a + b + z) == t.Text(a + c + z)
  {
    TextConcat(t, a + b, z);
    TextConcat(t, a, b);
    TextConcat(t, a + c, z);
    TextConcat(t, a, c);
  }

  /** A merge replaces two ids by one that stands for the same bytes. */
  lemma MergeKeepsText(t: Tokenizer, ids: seq<nat>, p: nat)
    requires t.Valid() && t.Known(ids) && p + 1 < |ids| && t.Find(Joined(t, ids, p)).Some?
    ensures var m := Merged(ids, p, t.Find(Joined(t, ids, p)).value);
            t.Known(m) && t.Text(m) == t.Text(ids)
  {
    var v := t.Find(Joined(t, ids, p)).value;
    var b := [ids[p], ids[p + 1]];
    assert ids == ids[..p] + b + ids[p + 2..];
    TextPair(t, ids[p], ids[p + 1]);
    TextOne(t, v);
    TextReplace(t, ids[..p], b, [v], ids[p + 2..]);
  }

  lemma TextPair(t: Tokenizer, x: nat, y: nat)
    requires x < |t.byId| && y < |t.byId|
    ensures t.Text([x, y]) == t.byId[x] + t.byId[y]
  {
    TextOne(t, x);
    assert [x, y][..1] == [x];
  }

  lemma TextOne(t: Tokenizer, id: nat)
    requires id < |t.byId|
    ensures t.Text([id]) == t.byId[id]
  {
    assert [id][..0] == [];
  }

  /** Encoding loses nothing: the result stands for the same bytes as the ids it started from. */
  lemma {:induction false} MergeAllKeepsText(t: Tokenizer, ids: seq<nat>)
    requires t.Valid() && t.Known(ids)
    ensures var r := MergeAll(t, ids);
            r.Encoded? ==> t.Known(r.ids) && t.Text(r.ids) == t.Text(ids) && forall q: nat :: !Mergeable(t, r.ids, q)
    decreases |ids|
  {
    RescanIsLowestLeftmost(t, ids, 0);
    match Rescan(t, ids, |ids|)
    case None =>
    case Some(p) =>
      if t.Find(Joined(t, ids, p)).Some? {
        MergeKeepsText(t, ids, p);
        MergeAllKeepsText(t, Merged(ids, p, t.Find(Joined(t, ids, p)).value));
      }
  }

  // ----- the linked list

  /** The slots in `live`, in order, are the nodes of the list. */
  ghost predicate Chained(next: seq<nat>, prev: seq<nat>, live: seq<nat>, k: nat) {
    && |next| >= k && |prev| >= k && k < NIL
    && (k > 0 ==> |live| > 0 && live[0] == 0)
    && (forall i | 0 <= i < |live| :: live[i] < k)
    && (forall i, j | 0 <= i < j < |live| :: live[i] < live[j])
    && (forall i, j {:trigger live[i], live[j]} | 0 <= i < j < |live| && j == i + 1 ::
          next[live[i]] == live[j] && prev[live[j]] == live[i])
    && (|live| > 0 ==> prev[live[0]] == NIL && next[live[|live| - 1]] == NIL)
  }

  /** Every slot outside `live` has been merged away. */
  ghost predicate Cleared(ids: seq<nat>, live: seq<nat>, k: nat) {
    && |ids| >= k
    && (forall p | 0 <= p < k && p !in live :: ids[p] == NIL)
  }

  ghost predicate Linked(next: seq<nat>, prev: seq<nat>, ids: seq<nat>, live: seq<nat>, k: nat): (r: bool)
    ensures r ==> forall i | 0 <= i < |live| :: live[i] < |ids|
  {
    Chained(next, prev, live, k) && Cleared(ids, live, k)
  }

  /** The ids of the live nodes, in order. */
  ghost function Current(ids: seq<nat>, live: seq<nat>): (r: seq<nat>)
    requires forall i | 0 <= i < |live| :: live[i] < |ids|
    ensures |r| == |live|
    ensures forall i | 0 <= i < |live| :: r[i] == ids[live[i]]
  {
    seq(|live|, i requires 0 <= i < |live| => ids[live[i]])
  }

  // ----- the heap of candidates

  ghost function CandAt(t: Tokenizer, cur: seq<nat>, live: seq<nat>, i: nat): Cand
    requires |cur| == |live| && Mergeable(t, cur, i)
  {
    Cand(RankAt(t, cur, i), live[i], cur[i], cur[i + 1])
  }

  /** Every pair that can merge has its candidate in the heap; a candidate may be stale, never wrong. */
  ghost predicate Covers(t: Tokenizer, heap: seq<Cand>, cur: seq<nat>, live: seq<nat>, k: nat)
    requires |cur| == |live|
  {
    CoversFirst(t, heap, cur, live, k, |cur|)
  }

  /** The same for the pairs before `n` only. */
  ghost predicate CoversFirst(t: Tokenizer, heap: seq<Cand>, cur: seq<nat>, live: seq<nat>, k: nat, n: nat)
    requires |cur| == |live|
  {
    && (forall i: nat | i < n && Mergeable(t, cur, i) :: CandAt(t, cur, live, i) in heap)
    && (forall c | c in heap :: c.pos < k && (c.a, c.b) in t.ranks && c.rank == t.ranks[(c.a, c.b)])
  }

  /** The pair whose candidate is no greater than any other in the heap is the one a full rescan finds. */
  lemma LeastCandidateIsBest(t: Tokenizer, heap: seq<Cand>, next: seq<nat>, prev: seq<nat>, ids: seq<nat>,
                             cur: seq<nat>,
                             live: seq<nat>, k: nat, c: Cand, i: nat)
    requires |cur| == |live| && Covers(t, heap, cur, live, k)
    requires Linked(next, prev, ids, live, k)
    requires forall x | x in heap :: !Less(x, c)
    requires Mergeable(t, cur, i) && c == CandAt(t, cur, live, i)
    ensures Rescan(t, cur, |cur|) == Some(i)
  {
    forall q: nat | Mergeable(t, cur, q)
      ensures RankAt(t, cur, i) <= RankAt(t, cur, q)
      ensures q < i ==> RankAt(t, cur, i) < RankAt(t, cur, q)
    {
      assert CandAt(t, cur, live, q) in heap;
    }
    RescanIsLowestLeftmost(t, cur, i);
  }

  /** Popping a candidate that fails the program's validity test loses no mergeable pair. */
  lemma StaleCandidate(t: Tokenizer, heap: seq<Cand>, rest: seq<Cand>, c: Cand,
                       next: seq<nat>, prev: seq<nat>, ids: seq<nat>, live: seq<nat>, k: nat)
    requires Linked(next, prev, ids, live, k) && Covers(t, heap, Current(ids, live), live, k)
    requires c in heap && multiset(rest) == multiset(heap) - multiset{c}
    requires var bt := next[c.pos]; ids[c.pos] != c.a || bt == NIL || bt >= |ids| || ids[bt] != c.b
    ensures Covers(t, rest, Current(ids, live), live, k)
  {
    var cur := Current(ids, live);
    forall i: nat | Mergeable(t, cur, i)
      ensures CandAt(t, cur, live, i) in rest
    {
      var x := CandAt(t, cur, live, i);
      assert x in heap && x != c;
      assert x in multiset(rest);
    }
    forall x | x in rest
      ensures x in heap
    {
      assert x in multiset(rest);
      assert x in multiset(heap);
    }
  }

  /** A candidate that passes the test is the candidate of a pair of live neighbours. */
  lemma FreshCandidate(t: Tokenizer, heap: seq<Cand>, c: Cand, next: seq<nat>, prev: seq<nat>, ids: seq<nat>,
                       live: seq<nat>, k: nat) returns (i: nat)
    requires t.Valid() && Linked(next, prev, ids, live, k) && Covers(t, heap, Current(ids, live), live, k)
    requires c in heap && ids[c.pos] == c.a
    requires next[c.pos] != NIL && next[c.pos] < |ids| && ids[next[c.pos]] == c.b
    ensures i + 1 < |live| && live[i] == c.pos && live[i + 1] == next[c.pos]
    ensures Mergeable(t, Current(ids, live), i) && c == CandAt(t, Current(ids, live), live, i)
    ensures c.a == Current(ids, live)[i] && c.b == Current(ids, live)[i + 1]
  {
    assert c.a < |t.byId|;
    assert c.pos in live;
    i :| 0 <= i < |live| && live[i] == c.pos;
    assert i + 1 < |live| ==> next[live[i]] == live[i + 1];
  }

  /** The list after the node at index `i` absorbs its right neighbour. */
  ghost function Unlinked(live: seq<nat>, i: nat): (r: seq<nat>)
    requires i + 1 < |live|
    ensures |r| == |live| - 1
    ensures forall j | 0 <= j < |r| :: r[j] == live[if j <= i then j else j + 1]
  {
    live[..i + 1] + live[i + 2..]
  }

  lemma MergeChain(next: seq<nat>, prev: seq<nat>, live: seq<nat>, k: nat, i: nat)
    requires Chained(next, prev, live, k) && i + 1 < |live|
    ensures var next' := next[live[i] := next[live[i + 1]]];
            var prev' := if i + 2 < |live| then prev[live[i + 2] := live[i]] else prev;
            Chained(next', prev', Unlinked(live, i), k)
  {
    var next' := next[live[i] := next[live[i + 1]]];
    var prev' := if i + 2 < |live| then prev[live[i + 2] := live[i]] else prev;
    var live' := Unlinked(live, i);
    forall j, j' {:trigger live'[j], live'[j']} | 0 <= j < j' < |live'| && j' == j + 1
      ensures next'[live'[j]] == live'[j'] && prev'[live'[j']] == live'[j]
    {
      if j < i {
        assert live'[j] == live[j] && live'[j'] == live[j'];
      } else if j == i {
        assert live'[j] == live[i] && live'[j'] == live[i + 2] && next[live[i + 1]] == live[i + 2];
      } else {
        assert live'[j] == live[j + 1] && live'[j'] == live[j' + 1];
      }
    }
  }

  lemma MergeClears(ids: seq<nat>, live: seq<nat>, k: nat, i: nat, v: nat)
    requires Cleared(ids, live, k) && i + 1 < |live|
    requires forall x | 0 <= x < |live| :: live[x] < k
    requires forall x, y | 0 <= x < y < |live| :: live[x] < live[y]
    ensures Cleared(ids[live[i] := v][live[i + 1] := NIL], Unlinked(live, i), k)
  {
    var ids' := ids[live[i] := v][live[i + 1] := NIL];
    var live' := Unlinked(live, i);
    assert forall j | 0 <= j < |live| && j != i + 1 :: live[j] in live' by {
      forall j | 0 <= j < |live| && j != i + 1
        ensures live[j] in live'
      {
        assert live[j] == live'[if j <= i then j else j - 1];
      }
    }
    assert forall p | 0 <= p < k && p !in live' :: ids'[p] == NIL;
  }

  lemma MergeCurrent(ids: seq<nat>, live: seq<nat>, i: nat, v: nat)
    requires i + 1 < |live|
    requires forall x | 0 <= x < |live| :: live[x] < |ids|
    requires forall x, y | 0 <= x < y < |live| :: live[x] < live[y]
    ensures Current(ids[live[i] := v][live[i + 1] := NIL], Unlinked(live, i)) == Merged(Current(ids, live), i, v)
  {
    var ids' := ids[live[i] := v][live[i + 1] := NIL];
    var live' := Unlinked(live, i);
    var cur, cur' := Current(ids, live), Merged(Current(ids, live), i, v);
    forall j | 0 <= j < |live'|
      ensures Current(ids', live')[j] == cur'[j]
    {
      var o := if j <= i then j else j + 1;
      assert live'[j] == live[o] && cur[o] == ids[live[o]];
    }
  }

  /** Joining a node with its right neighbour removes exactly that neighbour from the list. */
  lemma Merging(next: seq<nat>, prev: seq<nat>, ids: seq<nat>, live: seq<nat>, k: nat, i: nat, v: nat)
    requires Linked(next, prev, ids, live, k) && i + 1 < |live|
    ensures live[i] < |next| && live[i] < |ids| && live[i + 1] < |next| && live[i + 1] < |ids|
    ensures i + 2 < |live| ==> live[i + 2] < |prev|
    ensures var next' := next[live[i] := next[live[i + 1]]];
            var prev' := if i + 2 < |live| then prev[live[i + 2] := live[i]] else prev;
            var ids' := ids[live[i] := v][live[i + 1] := NIL];
            Linked(next', prev', ids', Unlinked(live, i), k)
            && Current(ids', Unlinked(live, i)) == Merged(Current(ids, live), i, v)
  {
    MergeChain(next, prev, live, k, i);
    MergeClears(ids, live, k, i, v);
    MergeCurrent(ids, live, i, v);
  }

  /** The candidates pushed for the pair of slots at list index `i`, if there is such a pair and it can merge. */
  ghost function Pushed(t: Tokenizer, cur: seq<nat>, live: seq<nat>, i: int): multiset<Cand>
    requires |cur| == |live|
  {
    if i >= 0 && Mergeable(t, cur, i) then multiset{CandAt(t, cur, live, i)} else multiset{}
  }

  /** After a merge, the popped heap and the two pairs pushed for the merged node cover the new list. */
  lemma MergeCovers(t: Tokenizer, heap: seq<Cand>, after: seq<Cand>, next: seq<nat>, prev: seq<nat>, ids: seq<nat>,
                    cur: seq<nat>, live: seq<nat>, k: nat, i: nat, v: nat)
    requires |cur| == |live| && Covers(t, heap, cur, live, k)
    requires Linked(next, prev, ids, live, k)
    requires Mergeable(t, cur, i)
    requires var cur', live' := Merged(cur, i, v), Unlinked(live, i);
             multiset(after) == multiset(heap) - multiset{CandAt(t, cur, live, i)}
                                + Pushed(t, cur', live', i - 1) + Pushed(t, cur', live', i)
    ensures Covers(t, after, Merged(cur, i, v), Unlinked(live, i), k)
  {
    var cur', live' := Merged(cur, i, v), Unlinked(live, i);
    var c := CandAt(t, cur, live, i);
    forall j: nat | Mergeable(t, cur', j)
      ensures CandAt(t, cur', live', j) in after
    {
      var x := CandAt(t, cur', live', j);
      if j != i && j != i - 1 {
        var o: nat := if j < i then j else j + 1;
        assert Mergeable(t, cur, o) && x == CandAt(t, cur, live, o);
        assert x in heap && x.pos != c.pos;
      }
      assert x in multiset(after);
    }
    forall x | x in after
      ensures x.pos < k && (x.a, x.b) in t.ranks && x.rank == t.ranks[(x.a, x.b)]
    {
      assert x in multiset(after);
      assert x in multiset(heap) || x in Pushed(t, cur', live', i - 1) || x in Pushed(t, cur', live', i);
    }
  }

  /** An empty heap means that no pair can merge. */
  lemma NothingLeft(t: Tokenizer, cur: seq<nat>, live: seq<nat>, k: nat)
    requires t.Valid() && t.Known(cur) && |cur| == |live| && Covers(t, [], cur, live, k)
    ensures MergeAll(t, cur) == Encoded(cur)
  {
    RescanScans(t, cur, |cur|);
  }

  lemma PushCovers(t: Tokenizer, heap: seq<Cand>, after: seq<Cand>, cur: seq<nat>, live: seq<nat>, k: nat, i: nat)
    requires |cur| == |live| && i < |live| && live[i] < k && CoversFirst(t, heap, cur, live, k, i)
    requires multiset(after) == multiset(heap) + Pushed(t, cur, live, i)
    ensures CoversFirst(t, after, cur, live, k, i + 1)
  {
    forall j: nat | j < i + 1 && Mergeable(t, cur, j)
      ensures CandAt(t, cur, live, j) in after
    {
      assert CandAt(t, cur, live, j) in multiset(after);
    }
    forall c | c in after
      ensures c.pos < k && (c.a, c.b) in t.ranks && c.rank == t.ranks[(c.a, c.b)]
    {
      assert c in multiset(after);
      assert c in multiset(heap) || c in Pushed(t, cur, live, i);
    }
  }

  /** Merging the best pair is one step of the specification. */
  lemma MergeAllStep(t: Tokenizer, cur: seq<nat>, x: nat)
    requires t.Valid() && t.Known(cur) && Mergeable(t, cur, x) && Rescan(t, cur, |cur|) == Some(x)
    ensures var found := t.Find(t.byId[cur[x]] + t.byId[cur[x + 1]]);
            && (found.None? ==> MergeAll(t, cur) == MergedAbsent)
            && (found.Some? ==> t.Known(Merged(cur, x, found.value))
                                && MergeAll(t, cur) == MergeAll(t, Merged(cur, x, found.value)))
  {
  }

  lemma StartLinked(next: seq<nat>, prev: seq<nat>, ids: seq<nat>, live: seq<nat>, k: nat)
    requires |next| >= k && |prev| >= k && |ids| >= k && k < NIL
    requires forall p | 0 <= p < k :: next[p] == if p + 1 < k then p + 1 else NIL
    requires forall p | 0 <= p < k :: prev[p] == if p > 0 then p - 1 else NIL
    requires |live| == k && forall i | 0 <= i < k :: live[i] == i
    ensures Linked(next, prev, ids, live, k) && Current(ids, live) == ids[..k]
  {
    forall p | 0 <= p < k
      ensures p in live
    {
      assert live[p] == p;
    }
    assert Current(ids, live) == ids[..k];
  }

  /** A node's two links lead to its neighbours. */
  lemma Neighbours(next: seq<nat>, prev: seq<nat>, ids: seq<nat>, live: seq<nat>, k: nat, x: nat)
    requires Linked(next, prev, ids, live, k) && x < |live|
    ensures live[x] < k <= |next| && k <= |prev| && k <= |ids| && k < NIL
    ensures prev[live[x]] == if x > 0 then live[x - 1] else NIL
    ensures next[live[x]] == if x + 1 < |live| then live[x + 1] else NIL
    ensures x > 0 ==> live[x - 1] < k
    ensures x + 1 < |live| ==> live[x + 1] < k
  {
    if x > 0 {
      assert live[x - 1] < live[x];
    }
    if x + 1 < |live| {
      assert live[x] < live[x + 1];
    }
  }

  /** Testing a candidate reads only slots of the list. */
  lemma TestInBounds(t: Tokenizer, heap: seq<Cand>, c: Cand, next: seq<nat>, prev: seq<nat>, ids: seq<nat>,
                     live: seq<nat>, k: nat)
    requires t.Valid() && Linked(next, prev, ids, live, k) && Covers(t, heap, Current(ids, live), live, k)
    requires c in heap
    ensures c.pos < k <= |ids| && k <= |next| && c.a < |t.byId| && c.b < |t.byId|
    ensures ids[c.pos] == c.a ==> next[c.pos] == NIL || next[c.pos] < k
  {
    if ids[c.pos] == c.a {
      assert c.pos in live;
      var i :| 0 <= i < |live| && live[i] == c.pos;
      Neighbours(next, prev, ids, live, k, i);
    }
  }

  // ----- the program

  /** Pushes the candidate for slots `i` and `j` when their ids can merge. */
  method PushPair(t: Tokenizer, heap: array<Cand>, nh: nat, ids: array<nat>, i: nat, j: nat) returns (n: nat)
    requires nh < heap.Length && Ordered(heap[..nh])
    requires i < ids.Length && j < ids.Length
    modifies heap
    ensures n == if (ids[i], ids[j]) in t.ranks then nh + 1 else nh
    ensures Ordered(heap[..n])
    ensures multiset(heap[..n]) == old(multiset(heap[..nh])) +
              if (ids[i], ids[j]) in t.ranks
              then multiset{Cand(t.ranks[(ids[i], ids[j])], i, ids[i], ids[j])} else multiset{}
  {
    if (ids[i], ids[j]) !in t.ranks {
      return nh;
    }
    ghost var h := heap[..nh];
    var c := Cand(t.ranks[(ids[i], ids[j])], i, ids[i], ids[j]);
    PushKeepsHeap(h, c);
    Push(heap, nh, c);
    n := nh + 1;
  }

  /** Links the first `k` slots in order. */
  method LinkAll(next: array<nat>, prev: array<nat>, k: nat)
    requires k <= next.Length && k <= prev.Length && next != prev
    modifies next, prev
    ensures forall p | 0 <= p < k :: next[p] == if p + 1 < k then p + 1 else NIL
    ensures forall p | 0 <= p < k :: prev[p] == if p > 0 then p - 1 else NIL
  {
    for i := 0 to k
      invariant forall p | 0 <= p < i :: next[p] == if p + 1 < k then p + 1 else NIL
      invariant forall p | 0 <= p < i :: prev[p] == if p > 0 then p - 1 else NIL
    {
      next[i] := if i + 1 < k then i + 1 else NIL;
      prev[i] := if i > 0 then i - 1 else NIL;
    }
  }

  /** Fills the heap with the candidates of the first `k` slots' neighbours. */
  method PushAll(t: Tokenizer, heap: array<Cand>, ids: array<nat>, ghost live: seq<nat>, k: nat) returns (nh: nat)
    requires k <= ids.Length && k <= heap.Length
    requires |live| == k && forall i | 0 <= i < k :: live[i] == i
    modifies heap
    ensures nh <= heap.Length && (if k == 0 then nh == 0 else nh < k)
    ensures Ordered(heap[..nh]) && Covers(t, heap[..nh], ids[..k], live, k)
  {
    nh := 0;
    var i: nat := 0;
    ghost var cur := ids[..k];
    while i + 1 < k
      invariant i < k || i == 0
      invariant nh <= i && nh <= heap.Length
      invariant Ordered(heap[..nh])
      invariant CoversFirst(t, heap[..nh], cur, live, k, i)
    {
      ghost var h := heap[..nh];
      nh := PushPair(t, heap, nh, ids, i, i + 1);
      PushCovers(t, h, heap[..nh], cur, live, k, i);
      i := i + 1;
    }
  }

  /** Joins slot `at`, which has id `c.a`, with its right neighbour, which has id `c.b`. */
  method MergeAt(ids: array<nat>, next: array<nat>, prev: array<nat>, k: nat, at: nat, v: nat,
                 ghost live: seq<nat>, ghost x: nat)
    requires Linked(next[..], prev[..], ids[..], live, k)
    requires ids != next && ids != prev && next != prev
    requires x + 1 < |live| && live[x] == at
    modifies ids, next, prev
    ensures Linked(next[..], prev[..], ids[..], Unlinked(live, x), k)
    ensures Current(ids[..], Unlinked(live, x)) == Merged(old(Current(ids[..], live)), x, v)
  {
    hide Linked, Chained, Cleared;
    Neighbours(next[..], prev[..], ids[..], live, k, x);
    Neighbours(next[..], prev[..], ids[..], live, k, x + 1);
    Merging(next[..], prev[..], ids[..], live, k, x, v);
    var bt := next[at];
    ids[at] := v;
    ids[bt] := NIL;
    next[at] := next[bt];
    if next[at] != NIL {
      prev[next[at]] := at;
    }
    assert next[..] == old(next[..])[at := old(next[..])[bt]];
    assert ids[..] == old(ids[..])[at := v][bt := NIL];
    assert prev[..] == if x + 2 < |live| then old(prev[..])[live[x + 2] := at] else old(prev[..]);
  }

  /** Pushes the merged node's candidates with its two neighbours. */
  method PushNeighbours(t: Tokenizer, heap: array<Cand>, nh: nat, ids: array<nat>, left: nat, at: nat, right: nat,
                        ghost cur: seq<nat>, ghost live: seq<nat>, ghost x: nat) returns (n: nat)
    requires nh + 2 <= heap.Length && Ordered(heap[..nh])
    requires |cur| == |live| && x < |live| && live[x] == at && at < ids.Length && cur[x] == ids[at]
    requires left == if x > 0 then live[x - 1] else NIL
    requires right == if x + 1 < |live| then live[x + 1] else NIL
    requires x > 0 ==> left < ids.Length && left != NIL && cur[x - 1] == ids[left]
    requires x + 1 < |live| ==> right < ids.Length && right != NIL && cur[x + 1] == ids[right]
    modifies heap
    ensures nh <= n <= nh + 2 && Ordered(heap[..n])
    ensures multiset(heap[..n]) == old(multiset(heap[..nh])) + Pushed(t, cur, live, x - 1) + Pushed(t, cur, live, x)
  {
    hide Ordered;
    n := nh;
    if left != NIL {
      n := PushPair(t, heap, n, ids, left, at);
    }
    assert multiset(heap[..n]) == old(multiset(heap[..nh])) + Pushed(t, cur, live, x - 1);
    if right != NIL {
      n := PushPair(t, heap, n, ids, at, right);
    }
  }

  /** One merge: the node at `live[x]` takes id `v`, and the heap gains its new pairs. `h` is the heap
      before its root, that node's candidate, was popped. */
  method MergeNode(t: Tokenizer, ids: array<nat>, next: array<nat>, prev: array<nat>, heap: array<Cand>, nh: nat,
                   k: nat, at: nat, v: nat, ghost h: seq<Cand>, ghost live: seq<nat>, ghost x: nat) returns (n: nat)
    requires ids != next && ids != prev && next != prev
    requires Linked(next[..], prev[..], ids[..], live, k)
    requires x + 1 < |live| && live[x] == at && Mergeable(t, Current(ids[..], live), x)
    requires Covers(t, h, Current(ids[..], live), live, k)
    requires nh + 2 <= heap.Length && Ordered(heap[..nh])
    requires multiset(heap[..nh]) == multiset(h) - multiset{CandAt(t, Current(ids[..], live), live, x)}
    modifies ids, next, prev, heap
    ensures Linked(next[..], prev[..], ids[..], Unlinked(live, x), k)
    ensures Current(ids[..], Unlinked(live, x)) == Merged(old(Current(ids[..], live)), x, v)
    ensures nh <= n <= nh + 2 && Ordered(heap[..n])
    ensures Covers(t, heap[..n], Current(ids[..], Unlinked(live, x)), Unlinked(live, x), k)
  {
    hide *;
    ghost var cur, live' := Current(ids[..], live), Unlinked(live, x);
    MergeAt(ids, next, prev, k, at, v, live, x);
    ghost var cur' := Current(ids[..], live');
    Neighbours(next[..], prev[..], ids[..], live', k, x);
    n := PushNeighbours(t, heap, nh, ids, prev[at], at, next[at], cur', live', x);
    MergeCovers(t, h, heap[..n], old(next[..]), old(prev[..]), old(ids[..]), cur, live, k, x, v);
  }

  /** Reads the list from slot 0: exactly the live nodes, in order. */
  method Walk(ids: array<nat>, next: array<nat>, ghost prev: seq<nat>, k: nat, ghost live: seq<nat>)
    returns (out: seq<nat>)
    requires Linked(next[..], prev, ids[..], live, k)
    ensures out == Current(ids[..], live)
  {
    out := [];
    var i := 0;
    ghost var done := 0;
    while i < k
      invariant done <= |live| && out == Current(ids[..], live)[..done]
      invariant i == if done < |live| then live[done] else if k == 0 then 0 else NIL
      decreases |live| - done
    {
      assert done + 1 < |live| ==> next[live[done]] == live[done + 1];
      out := out + [ids[i]];
      i := next[i];
      done := done + 1;
    }
  }

  /** The merge loop's invariant: a list and a heap that covers it, with room for two more candidates per merge. */
  ghost predicate Good(t: Tokenizer, next: seq<nat>, prev: seq<nat>, ids: seq<nat>, h: seq<Cand>, live: seq<nat>,
                       k: nat)
  {
    && Linked(next, prev, ids, live, k)
    && t.Known(Current(ids, live))
    && Ordered(h) && Covers(t, h, Current(ids, live), live, k)
    && (k == |live| == |h| == 0 || |h| + 2 * |live| < 3 * k)
  }

  lemma GoodMeans(t: Tokenizer, next: seq<nat>, prev: seq<nat>, ids: seq<nat>, h: seq<Cand>, live: seq<nat>, k: nat)
    ensures Good(t, next, prev, ids, h, live, k) <==>
            && Linked(next, prev, ids, live, k)
            && t.Known(Current(ids, live))
            && Ordered(h) && Covers(t, h, Current(ids, live), live, k)
            && (k == |live| == |h| == 0 || |h| + 2 * |live| < 3 * k)
  {
  }

  /** One turn of the loop: pops the root, and merges if it is not stale. */
  method Turn(t: Tokenizer, ids: array<nat>, next: array<nat>, prev: array<nat>, heap: array<Cand>, nh: nat, k: nat,
              ghost live: seq<nat>) returns (ok: bool, n: nat, ghost live': seq<nat>)
    requires ids != next && ids != prev && next != prev
    requires t.Valid() && 0 < nh <= heap.Length && 3 * k <= heap.Length
    requires Good(t, next[..], prev[..], ids[..], heap[..nh], live, k)
    modifies ids, next, prev, heap
    ensures ok ==> n <= heap.Length && Good(t, next[..], prev[..], ids[..], heap[..n], live', k)
    ensures var cur := old(Current(ids[..], live));
            MergeAll(t, cur) == if ok then MergeAll(t, Current(ids[..], live')) else MergedAbsent
    ensures ok ==> |live'| < |live| || (|live'| == |live| && n < nh)
  {
    hide *;
    ghost var h := heap[..nh];
    GoodMeans(t, next[..], prev[..], ids[..], h, live, k);
    ghost var cur := Current(ids[..], live);
    RestKeepsHeap(h);
    var c := Pop(heap, nh);
    n := nh - 1;
    ghost var rest := heap[..n];
    assert rest == Rest(h);
    var at := c.pos;
    TestInBounds(t, h, c, next[..], prev[..], ids[..], live, k);
    var bt := next[at];
    if ids[at] != c.a || bt == NIL || ids[bt] != c.b {
      StaleCandidate(t, h, rest, c, next[..], prev[..], ids[..], live, k);
      GoodMeans(t, next[..], prev[..], ids[..], rest, live, k);
      return true, n, live;
    }
    ghost var x := FreshCandidate(t, h, c, next[..], prev[..], ids[..], live, k);
    LeastCandidateIsBest(t, h, next[..], prev[..], ids[..], cur, live, k, c, x);
    MergeAllStep(t, cur, x);
    var found := t.Find(t.byId[c.a] + t.byId[c.b]);
    if found.None? {
      return false, n, live;
    }
    n := MergeNode(t, ids, next, prev, heap, n, k, at, found.value, h, live, x);
    live' := Unlinked(live, x);
    GoodMeans(t, next[..], prev[..], ids[..], heap[..n], live', k);
    return true, n, live';
  }

  /** Merges until the heap is empty. The heap never holds more candidates than its three slots per id. */
  method MergeLoop(t: Tokenizer, ids: array<nat>, next: array<nat>, prev: array<nat>, heap: array<Cand>, k: nat)
    returns (out: Outcome)
    requires k <= ids.Length && t.Valid() && t.Known(ids[..k])
    requires k <= next.Length && k <= prev.Length && 3 * k <= heap.Length && k < NIL
    requires ids != next && ids != prev && next != prev
    modifies ids, next, prev, heap
    ensures out == MergeAll(t, old(ids[..k]))
  {
    hide Linked, Covers, Ordered, Current, MergeAll, Tokenizer.Known, Tokenizer.Valid;
    LinkAll(next, prev, k);
    ghost var live: seq<nat> := seq(k, i => i);
    StartLinked(next[..], prev[..], ids[..], live, k);
    var nh: nat := PushAll(t, heap, ids, live, k);
    while nh > 0
      invariant nh <= heap.Length && Good(t, next[..], prev[..], ids[..], heap[..nh], live, k)
      invariant MergeAll(t, Current(ids[..], live)) == MergeAll(t, old(ids[..k]))
      decreases |live|, nh
    {
      var ok;
      ok, nh, live := Turn(t, ids, next, prev, heap, nh, k, live);
      if !ok {
        return MergedAbsent;
      }
    }
    NothingLeft(t, Current(ids[..], live), live, k);
    var walked := Walk(ids, next, prev[..], k, live);
    out := Encoded(walked);
  }
}
