/** Choosing a token's experts (jb.c:6630-6666). Router logits are finite floats, compared as reals; `lowest` is
    -FLT_MAX, the least finite float, which the program also uses to mark an empty slot. */
module TopK {

  /** Expert `i` ranks ahead of expert `j`: a greater logit, or the same one and a smaller number. */
  predicate Ahead(rt: seq<real>, i: nat, j: nat)
    requires i < |rt| && j < |rt|
  {
    rt[i] > rt[j] || (rt[i] == rt[j] && i < j)
  }

  /** `sel` lists distinct experts, each ahead of the next. */
  ghost predicate Ranked(rt: seq<real>, sel: seq<nat>) {
    && (forall i | 0 <= i < |sel| :: sel[i] < |rt|)
    && (forall i, j | 0 <= i < j < |sel| :: Ahead(rt, sel[i], sel[j]))
  }

  /** `sel` is the ranking's first `k` experts. */
  ghost predicate Best(rt: seq<real>, sel: seq<nat>, k: nat) {
    && |sel| == k && Ranked(rt, sel)
    && (forall i, e | 0 <= i < k && 0 <= e < |rt| && e !in sel :: Ahead(rt, sel[i], e))
  }

  lemma OneWay(rt: seq<real>, a: seq<nat>, b: seq<nat>, k: nat, i: nat)
    requires Best(rt, a, k) && Best(rt, b, k) && i < k && a[..i] == b[..i]
    ensures a[i] == b[i] || Ahead(rt, b[i], a[i])
  {
    assert forall j | 0 <= j < i :: a[j] == a[..i][j] && b[j] == b[..i][j];
    if a[i] in b {
      var j :| 0 <= j < k && b[j] == a[i];
      assert j >= i;
    }
  }

  /** The experts with a greater logit than `e`, or the same one and a smaller number. */
  ghost function Better(rt: seq<real>, e: nat): set<nat>
    requires e < |rt|
  {
    set i: nat | i < |rt| && (rt[i] > rt[e] || (rt[i] == rt[e] && i < e))
  }

  /** Its first `k` experts are the ones that 0, 1, 2, ... experts are better than. */
  ghost predicate ByRank(rt: seq<real>, sel: seq<nat>, k: nat) {
    |sel| == k && forall i | 0 <= i < k :: sel[i] < |rt| && |Better(rt, sel[i])| == i
  }

  lemma FewerBetter(rt: seq<real>, i: nat, j: nat)
    requires i < |rt| && j < |rt| && Ahead(rt, i, j)
    ensures |Better(rt, i)| < |Better(rt, j)|
  {
    var a, b := Better(rt, i), Better(rt, j);
    assert i in b && i !in a;
    assert a <= b - {i};
    Smaller(a, b - {i});
  }

  lemma Smaller<T>(a: set<T>, b: set<T>)
    requires a <= b
    ensures |a| <= |b|
  {
    if x :| x in a {
      Smaller(a - {x}, b - {x});
    }
  }

  /** The first members of a list without repetitions. */
  ghost function Members(sel: seq<nat>, n: nat): (m: set<nat>)
    requires n <= |sel|
    ensures forall e :: e in m <==> exists i | 0 <= i < n :: sel[i] == e
    ensures (forall i, j | 0 <= i < j < n :: sel[i] != sel[j]) ==> |m| == n
  {
    if n == 0 then {} else Members(sel, n - 1) + {sel[n - 1]}
  }

  lemma BetterComesFirst(rt: seq<real>, sel: seq<nat>, k: nat, i: nat, e: nat)
    requires Best(rt, sel, k) && i < k && e < |rt|
    ensures Ahead(rt, e, sel[i]) <==> exists j | 0 <= j < i :: sel[j] == e
  {
    if e in sel {
      var j :| 0 <= j < k && sel[j] == e;
      assert j < i ==> Ahead(rt, sel[j], sel[i]);
      assert i < j ==> Ahead(rt, sel[i], sel[j]);
    }
  }

  lemma BestByRank(rt: seq<real>, sel: seq<nat>, k: nat)
    requires Best(rt, sel, k)
    ensures ByRank(rt, sel, k)
  {
    hide Best, Ahead;
    BestRanked(rt, sel, k);
    forall i | 0 <= i < k
      ensures |Better(rt, sel[i])| == i
    {
      forall e
        ensures e in Better(rt, sel[i]) <==> e in Members(sel, i)
      {
        if 0 <= e < |rt| {
          BetterIs(rt, e, sel[i]);
          BetterComesFirst(rt, sel, k, i, e);
        }
      }
      assert Better(rt, sel[i]) == Members(sel, i);
    }
  }

  lemma BetterIs(rt: seq<real>, e: nat, f: nat)
    requires e < |rt| && f < |rt|
    ensures e in Better(rt, f) <==> Ahead(rt, e, f)
  {
  }

  lemma BestRanked(rt: seq<real>, sel: seq<nat>, k: nat)
    requires Best(rt, sel, k)
    ensures |sel| == k && (forall i | 0 <= i < k :: sel[i] < |rt|)
    ensures forall i, j | 0 <= i < j < k :: sel[i] != sel[j]
  {
    assert forall i, j | 0 <= i < j < k :: Ahead(rt, sel[i], sel[j]);
  }

  lemma ByRankBest(rt: seq<real>, sel: seq<nat>, k: nat)
    requires ByRank(rt, sel, k)
    ensures Best(rt, sel, k)
  {
    forall i, j | 0 <= i < j < k
      ensures Ahead(rt, sel[i], sel[j])
    {
      if Ahead(rt, sel[j], sel[i]) {
        FewerBetter(rt, sel[j], sel[i]);
      }
    }
    forall i, e: nat | 0 <= i < k && e < |rt| && e !in sel
      ensures Ahead(rt, sel[i], e)
    {
      if Ahead(rt, e, sel[i]) {
        FewerBetter(rt, e, sel[i]);
        var at := |Better(rt, e)|;
        if Ahead(rt, e, sel[at]) {
          FewerBetter(rt, e, sel[at]);
        } else {
          FewerBetter(rt, sel[at], e);
        }
      }
    }
  }

  /** The best list is the one by rank. */
  lemma BestIsByRank(rt: seq<real>, sel: seq<nat>, k: nat)
    ensures Best(rt, sel, k) <==> ByRank(rt, sel, k)
  {
    if Best(rt, sel, k) {
      BestByRank(rt, sel, k);
    }
    if ByRank(rt, sel, k) {
      ByRankBest(rt, sel, k);
    }
  }

  /** There is only one such list. */
  lemma {:induction false} BestIsUnique(rt: seq<real>, a: seq<nat>, b: seq<nat>, k: nat, n: nat)
    requires Best(rt, a, k) && Best(rt, b, k) && n <= k
    ensures a[..n] == b[..n]
  {
    if n > 0 {
      BestIsUnique(rt, a, b, k, n - 1);
      OneWay(rt, a, b, k, n - 1);
      OneWay(rt, b, a, k, n - 1);
      assert a[..n] == a[..n - 1] + [a[n - 1]] && b[..n] == b[..n - 1] + [b[n - 1]];
    }
  }

  /** How many of the first `n` logits are above the lowest. */
  function Above(rt: seq<real>, lowest: real, n: nat): (c: nat)
    requires n <= |rt|
    ensures c <= n
  {
    if n == 0 then 0 else Above(rt, lowest, n - 1) + if rt[n - 1] > lowest then 1 else 0
  }

  /** After the first `n` experts: the best `k` of those above the lowest logit, or all of them if they are fewer. */
  ghost predicate Kept(rt: seq<real>, lowest: real, k: nat, n: nat, sel: seq<nat>) {
    && n <= |rt| && |sel| == (if Above(rt, lowest, n) < k then Above(rt, lowest, n) else k)
    && Ranked(rt, sel) && (forall i | 0 <= i < |sel| :: sel[i] < n && rt[sel[i]] > lowest)
    && (forall e | 0 <= e < n && rt[e] > lowest && e !in sel :: |sel| == k && forall i | 0 <= i < k ::
      Ahead(rt, sel[i], e))
  }

  function Put(sel: seq<nat>, p: nat, e: nat): (r: seq<nat>)
    requires p <= |sel|
    ensures |r| == |sel| + 1 && e in r && (forall x | x in sel :: x in r) && (forall x | x in r :: x == e || x in sel)
    ensures forall i {:trigger r[i]} | 0 <= i < |r| :: r[i] == if i < p then sel[i] else if i == p then e
      else sel[i - 1]
  {
    assert sel == sel[..p] + sel[p..];
    sel[..p] + [e] + sel[p..]
  }

  function First(s: seq<nat>, k: nat): (r: seq<nat>)
    ensures |r| == (if |s| <= k then |s| else k) && forall i | 0 <= i < |r| :: r[i] == s[i]
  {
    if |s| <= k then s else s[..k]
  }

  /** Expert `n` belongs behind those that are at least as good and ahead of the others. */
  lemma PutKeepsRanked(rt: seq<real>, sel: seq<nat>, n: nat, p: nat)
    requires Ranked(rt, sel) && n < |rt| && p <= |sel| && forall i | 0 <= i < |sel| :: sel[i] < n
    requires forall i | 0 <= i < p :: rt[n] <= rt[sel[i]]
    requires p < |sel| ==> rt[n] > rt[sel[p]]
    ensures Ranked(rt, Put(sel, p, n))
  {
    var s := Put(sel, p, n);
    assert forall i | 0 <= i < |s| :: s[i] == if i < p then sel[i] else if i == p then n else sel[i - 1];
    forall i, j | 0 <= i < j < |s|
      ensures Ahead(rt, s[i], s[j])
    {
      if i == p && j > p + 1 {
        assert Ahead(rt, sel[p], sel[j - 1]);
      }
    }
  }

  lemma PutKeepsKept(rt: seq<real>, lowest: real, k: nat, n: nat, sel: seq<nat>, p: nat)
    requires Kept(rt, lowest, k, n, sel) && n < |rt| && p <= |sel| && p < k
    requires rt[n] > lowest && forall i | 0 <= i < p :: rt[n] <= rt[sel[i]]
    requires p < |sel| ==> rt[n] > rt[sel[p]]
    ensures Kept(rt, lowest, k, n + 1, First(Put(sel, p, n), k))
  {
    hide Put, First;
    PutKeepsRanked(rt, sel, n, p);
    var all := Put(sel, p, n);
    var r := First(all, k);
    assert forall x | x in all :: x < n + 1 && rt[x] > lowest;
    assert forall i | 0 <= i < |r| :: r[i] == all[i] && all[i] in all;
    forall e | 0 <= e < n + 1 && rt[e] > lowest && e !in r
      ensures |r| == k && forall i | 0 <= i < k :: Ahead(rt, r[i], e)
    {
      LeftOut(rt, lowest, k, n, sel, p, e);
    }
  }

  lemma LeftOut(rt: seq<real>, lowest: real, k: nat, n: nat, sel: seq<nat>, p: nat, e: nat)
    requires Kept(rt, lowest, k, n, sel) && n < |rt| && p <= |sel| && p < k && (p < |sel| ==> rt[n] > rt[sel[p]])
    requires Ranked(rt, Put(sel, p, n))
    requires e < n + 1 && rt[e] > lowest && e !in First(Put(sel, p, n), k)
    ensures var r := First(Put(sel, p, n), k); |r| == k && forall i | 0 <= i < k :: Ahead(rt, r[i], e)
  {
    hide Put, First;
    var all := Put(sel, p, n);
    var r := First(all, k);
    if e in all {
      var j :| 0 <= j < |all| && all[j] == e;
      assert forall i | 0 <= i < |r| :: r[i] in r && r[i] == all[i];
      assert j >= k;
    } else {
      assert e != n && e !in sel;
      assert |sel| == k;
      Outranked(rt, k, n, sel, p, e);
      assert forall i | 0 <= i < k :: r[i] == all[i] && all[i] in all;
    }
  }

  /** An expert behind all `k` kept ones is behind the new one as well. */
  lemma Outranked(rt: seq<real>, k: nat, n: nat, sel: seq<nat>, p: nat, e: nat)
    requires |sel| == k && p < k && n < |rt| && e < |rt|
    requires forall i | 0 <= i < k :: sel[i] < |rt| && Ahead(rt, sel[i], e)
    requires rt[n] > rt[sel[p]]
    ensures forall x | x in Put(sel, p, n) :: x < |rt| && Ahead(rt, x, e)
  {
  }

  /** The program's slots: the kept experts, then the initial numbers, moved back. */
  ghost predicate Slots(rt: seq<real>, lowest: real, k: nat, ix: seq<nat>, ev: seq<real>, sel: seq<nat>) {
    && |ix| == |ev| == k && |sel| <= k
    && (forall i | 0 <= i < |sel| :: sel[i] < |rt| && ix[i] == sel[i] && ev[i] == rt[sel[i]])
    && (forall i | |sel| <= i < k :: ix[i] == i - |sel| && ev[i] == lowest)
  }

  /** Shifting the slots from `p` on one back and writing there is inserting into what is kept. */
  lemma ShiftIsPut(rt: seq<real>, lowest: real, k: nat, ix: seq<nat>, ev: seq<real>, sel: seq<nat>, p: nat, n: nat,
                   ix': seq<nat>, ev': seq<real>)
    requires |ix| == |ev| == k && Slots(rt, lowest, k, ix, ev, sel) && p <= |sel| && p < k && n < |rt|
      && |ix'| == |ev'| == k
    requires forall i {:trigger ix'[i]} | 0 <= i < k ::
      ix'[i] == (if i < p then ix[i] else if i == p then n else ix[i - 1])
    requires forall i {:trigger ev'[i]} | 0 <= i < k ::
      ev'[i] == (if i < p then ev[i] else if i == p then rt[n] else ev[i - 1])
    ensures Slots(rt, lowest, k, ix', ev', First(Put(sel, p, n), k))
  {
    hide Put, First;
    var all := Put(sel, p, n);
    var s := First(all, k);
    forall i | 0 <= i < |s|
      ensures s[i] < |rt| && ix'[i] == s[i] && ev'[i] == rt[s[i]]
    {
      assert s[i] == all[i];
      assert i < p ==> all[i] == sel[i] && ix[i] == sel[i] && ev[i] == rt[sel[i]];
      assert i == p ==> all[i] == n;
      assert i > p ==> all[i] == sel[i - 1];
      assert i > p ==> ix[i - 1] == sel[i - 1] && ev[i - 1] == rt[sel[i - 1]];
    }
    forall i | |s| <= i < k
      ensures ix'[i] == i - |s| && ev'[i] == lowest
    {
      assert ix[i - 1] == i - 1 - |sel| && ev[i - 1] == lowest;
    }
  }

  /** The selection loop over all experts: the ranking's first `k`, in order, if and only if there are enough logits
      above the lowest. In any case the best of those come first, and the slots left over count up from expert
      zero. */
  method Select(rt: seq<real>, lowest: real, k: nat) returns (top: seq<nat>)
    requires forall e | 0 <= e < |rt| :: rt[e] >= lowest
    ensures |top| == k
    ensures k <= |rt| ==> (Best(rt, top, k) <==> Enough(rt, lowest, k))
    ensures k <= |rt| ==> (Distinct(top) <==> Enough(rt, lowest, k)) && forall i | 0 <= i < k :: top[i] < |rt|
    ensures exists ev, sel :: Kept(rt, lowest, k, |rt|, sel) && Slots(rt, lowest, k, top, ev, sel)
  {
    hide Kept, Put, First, Slots, Best, Enough, Distinct;
    var ix, values := new nat[k], new real[k];
    for i := 0 to k
      invariant forall j | 0 <= j < i :: ix[j] == j && values[j] == lowest
    {
      ix[i] := i;
      values[i] := lowest;
    }
    ghost var sel: seq<nat> := [];
    NoneKept(rt, lowest, k, ix[..], values[..]);
    for e := 0 to |rt|
      invariant Kept(rt, lowest, k, e, sel) && Slots(rt, lowest, k, ix[..], values[..], sel)
    {
      var p: nat := 0;
      while p < k && rt[e] <= values[p]
        invariant p <= k && forall i | 0 <= i < p :: rt[e] <= values[i]
      {
        p := p + 1;
      }
      ghost var (ix0, values0) := (ix[..], values[..]);
      if p < k {
        SlotBound(rt, lowest, k, ix0, values0, sel, p, e);
        PutKeepsKept(rt, lowest, k, e, sel, p);
        InsertAt(ix, values, p, e, rt[e]);
        ShiftIsPut(rt, lowest, k, ix0, values0, sel, p, e, ix[..], values[..]);
        sel := First(Put(sel, p, e), k);
      } else {
        SkipKeepsKept(rt, lowest, k, e, ix0, values0, sel);
      }
    }
    top := ix[..];
    if k <= |rt| {
      SelectIsBestIff(rt, lowest, k, top, values[..], sel);
      DistinctIffEnough(rt, lowest, k, top, values[..], sel);
    }
    SlotsLength(rt, lowest, k, top, values[..], sel);
  }

  lemma NoneKept(rt: seq<real>, lowest: real, k: nat, ix: seq<nat>, ev: seq<real>)
    requires |ix| == |ev| == k && forall j | 0 <= j < k :: ix[j] == j && ev[j] == lowest
    ensures Kept(rt, lowest, k, 0, []) && Slots(rt, lowest, k, ix, ev, [])
  {
  }

  lemma SlotBound(rt: seq<real>, lowest: real, k: nat, ix: seq<nat>, ev: seq<real>, sel: seq<nat>, p: nat, n: nat)
    requires |ix| == |ev| == k && Slots(rt, lowest, k, ix, ev, sel) && n < |rt| && p < k && rt[n] >= lowest
    requires rt[n] > ev[p] && (forall i | 0 <= i < p :: rt[n] <= ev[i])
    requires Kept(rt, lowest, k, n, sel)
    ensures p <= |sel| && rt[n] > lowest && (forall i | 0 <= i < p :: rt[n] <= rt[sel[i]])
    ensures p < |sel| ==> rt[n] > rt[sel[p]]
  {
    assert |sel| < k ==> ev[|sel|] == lowest;
  }

  /** A logit above no slot changes nothing. */
  lemma SkipKeepsKept(rt: seq<real>, lowest: real, k: nat, n: nat, ix: seq<nat>, ev: seq<real>, sel: seq<nat>)
    requires |ev| == k && Kept(rt, lowest, k, n, sel) && Slots(rt, lowest, k, ix, ev, sel) && n < |rt|
      && rt[n] >= lowest
    requires forall i | 0 <= i < k :: rt[n] <= ev[i]
    ensures Kept(rt, lowest, k, n + 1, sel)
  {
    if |sel| < k {
      assert ev[|sel|] == lowest;
    }
  }

  method InsertAt(ix: array<nat>, ev: array<real>, p: nat, e: nat, v: real)
    requires p < ix.Length == ev.Length
    modifies ix, ev
    ensures forall i | 0 <= i < ix.Length ::
      ix[i] == (if i < p then old(ix[i]) else if i == p then e else old(ix[i - 1]))
    ensures forall i | 0 <= i < ix.Length ::
      ev[i] == (if i < p then old(ev[i]) else if i == p then v else old(ev[i - 1]))
  {
    var q := ix.Length - 1;
    while q > p
      invariant p <= q < ix.Length
      invariant forall i | 0 <= i < ix.Length :: ix[i] == if i <= q then old(ix[i]) else old(ix[i - 1])
      invariant forall i | 0 <= i < ix.Length :: ev[i] == if i <= q then old(ev[i]) else old(ev[i - 1])
    {
      ev[q] := ev[q - 1];
      ix[q] := ix[q - 1];
      q := q - 1;
    }
    ev[p] := v;
    ix[p] := e;
  }

  /** When the selection is right: enough logits are above the lowest, or else the experts that fill the remaining
      slots, which are always the first ones, are themselves at the lowest. */
  predicate Enough(rt: seq<real>, lowest: real, k: nat)
    requires k <= |rt|
  {
    var c := Above(rt, lowest, |rt|);
    c >= k || forall e | 0 <= e < k - c :: rt[e] == lowest
  }

  /** The selection is the ranking's first `k` experts exactly when there are enough logits above the lowest. */
  lemma SelectIsBestIff(rt: seq<real>, lowest: real, k: nat, top: seq<nat>, ev: seq<real>, sel: seq<nat>)
    requires k <= |rt| && forall e | 0 <= e < |rt| :: rt[e] >= lowest
    requires Kept(rt, lowest, k, |rt|, sel) && Slots(rt, lowest, k, top, ev, sel)
    ensures Best(rt, top, k) <==> Enough(rt, lowest, k)
  {
    var c := |sel|;
    if c == k {
      assert top == sel;
    } else if Enough(rt, lowest, k) {
      FilledIsBest(rt, lowest, k, top, ev, sel);
    } else {
      var e :| 0 <= e < k - c && rt[e] != lowest;
      assert top[c + e] == e;
      assert e in sel;
      var j :| 0 <= j < c && sel[j] == e;
      assert !Ahead(rt, top[j], top[c + e]);
    }
  }

  lemma FilledIsBest(rt: seq<real>, lowest: real, k: nat, top: seq<nat>, ev: seq<real>, sel: seq<nat>)
    requires k <= |rt| && (forall e | 0 <= e < |rt| :: rt[e] >= lowest) && |sel| < k
    requires Kept(rt, lowest, k, |rt|, sel) && Slots(rt, lowest, k, top, ev, sel)
    requires forall e | 0 <= e < k - |sel| :: rt[e] == lowest
    ensures Best(rt, top, k)
  {
    forall e | 0 <= e < k - |sel|
      ensures e in top
    {
      assert top[|sel| + e] == e;
    }
    forall i, e | 0 <= i < k && 0 <= e < |rt| && e !in top
      ensures Ahead(rt, top[i], e)
    {
      assert forall j | 0 <= j < |sel| :: top[j] == sel[j];
      assert e !in sel;
      assert rt[e] == lowest;
    }
  }

  /** No expert is chosen twice. */
  predicate Distinct(top: seq<nat>) {
    forall i, j | 0 <= i < j < |top| :: top[i] != top[j]
  }

  lemma SlotsLength(rt: seq<real>, lowest: real, k: nat, top: seq<nat>, ev: seq<real>, sel: seq<nat>)
    requires Slots(rt, lowest, k, top, ev, sel)
    ensures |top| == k
  {
  }

  /** Under the same condition, and only then, the selection chooses no expert twice. */
  lemma DistinctIffEnough(rt: seq<real>, lowest: real, k: nat, top: seq<nat>, ev: seq<real>, sel: seq<nat>)
    requires k <= |rt| && forall e | 0 <= e < |rt| :: rt[e] >= lowest
    requires Kept(rt, lowest, k, |rt|, sel) && Slots(rt, lowest, k, top, ev, sel)
    ensures Distinct(top) <==> Enough(rt, lowest, k)
    ensures forall i | 0 <= i < k :: top[i] < |rt|
  {
    SelectIsBestIff(rt, lowest, k, top, ev, sel);
    if !Enough(rt, lowest, k) {
      var c := |sel|;
      var e :| 0 <= e < k - c && rt[e] != lowest;
      assert top[c + e] == e && e in sel;
      var j :| 0 <= j < c && sel[j] == e;
      assert top[j] == top[c + e];
    }
  }

  /** Eight chosen among 128 experts of which two have logits above the marker: expert zero is chosen twice. */
  lemma TooFewLogits(lowest: real, rt: seq<real>)
    requires lowest < -1.0 && |rt| == 128 && rt[0] == 1.0 && rt[1] == 0.0 && forall e | 2 <= e < 128 :: rt[e] == lowest
    ensures var sel, top := [0, 1], [0, 1, 0, 1, 2, 3, 4, 5];
            && Kept(rt, lowest, 8, 128, sel)
            && Slots(rt, lowest, 8, top, [1.0, 0.0, lowest, lowest, lowest, lowest, lowest, lowest], sel)
            && !Enough(rt, lowest, 8) && !Best(rt, top, 8) && !Distinct(top)
  {
    var sel, top := [0, 1], [0, 1, 0, 1, 2, 3, 4, 5];
    assert Above(rt, lowest, 1) == 1 && Above(rt, lowest, 2) == 2;
    NoneAbove(rt, lowest, 2, 128);
    assert rt[0] != lowest && sel[0] == 0 && sel[1] == 1;
    assert !Ahead(rt, top[0], top[2]);
    assert top[0] == top[2];
  }

  lemma {:induction false} NoneAbove(rt: seq<real>, lowest: real, m: nat, n: nat)
    requires m <= n <= |rt| && forall e | m <= e < n :: rt[e] <= lowest
    ensures Above(rt, lowest, n) == Above(rt, lowest, m)
    decreases n
  {
    if m < n {
      NoneAbove(rt, lowest, m, n - 1);
    }
  }
}
