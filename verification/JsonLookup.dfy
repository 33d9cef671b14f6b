/** Scans over the flat array (src/json.inc:154-201, 219-249): they find exactly a container's own children, so that
    lookups and the check for duplicate keys compute what the tree says. */
module JsonLookup {
  import opened Wrappers
  import opened Utf8
  import opened JsonStrings
  import opened JsonOrder
  import opened JsonParse

  /** A tree as the parser builds them: strings and primitives are leaves, an object's keys are strings. */
  ghost predicate Shaped(s: seq<byte>, n: Node) {
    && (n.kind == String ==> n.kids == [] && n.start <= n.end < |s| && Scan(s, n.start) == Some(n.end))
    && (n.kind == Primitive ==> n.kids == [] && n.start < n.end <= |s| && PrimitiveValid(s[n.start..n.end])
                                && PrimitiveEnd(s[n.start..n.end], 0) == n.end - n.start)
    && (n.kind == Object ==> |n.kids| % 2 == 0 && forall k | 0 <= k < |n.kids| && k % 2 == 0 ::
      n.kids[k].kind == String)
    && forall k | 0 <= k < |n.kids| :: Shaped(s, n.kids[k])
  }

  lemma PrimitiveEnds(s: seq<byte>, p: nat, e: nat, q: nat)
    requires p <= q <= e <= |s| && e == PrimitiveEnd(s, p)
    ensures PrimitiveEnd(s[p..e], q - p) == e - p
    decreases e - q
  {
    if q < e {
      PrimitiveEnds(s, p, e, q + 1);
    }
  }

  lemma {:induction false} ValueIsShaped(s: seq<byte>, pos: nat, depth: nat)
    requires pos <= |s| && ParseValue(s, pos, depth).Some?
    ensures Shaped(s, ParseValue(s, pos, depth).value.0)
    decreases |s| - pos, 0
  {
    hide PrimitiveValid;
    var p := Skip(s, pos);
    if s[p] == QUOTE {
      ScanEnds(s, p + 1);
    } else if Opens(s[p]).Some? {
      KidsAreShaped(s, p + 1, depth + 1, Opens(s[p]).value, p, []);
    } else {
      PrimitiveEnds(s, p, PrimitiveEnd(s, p), p);
    }
  }

  ghost predicate KidsShaped(s: seq<byte>, kind: Kind, kids: seq<Node>) {
    && (kind == Object ==> |kids| % 2 == 0 && forall k | 0 <= k < |kids| && k % 2 == 0 :: kids[k].kind == String)
    && forall k | 0 <= k < |kids| :: Shaped(s, kids[k])
  }

  lemma {:induction false} KidsAreShaped(s: seq<byte>, pos: nat, depth: nat, kind: Kind, start: nat, kids: seq<Node>)
    requires pos <= |s| && depth > 0 && (kind == Object || kind == Array) && KidsShaped(s, kind, kids)
    requires ParseKids(s, pos, depth, kind, start, kids).Some?
    ensures Shaped(s, ParseKids(s, pos, depth, kind, start, kids).value.0)
    decreases |s| - pos, 2
  {
    hide ParseValue, ParseString, PrimitiveValid, ParseKids, ParseKid;
    KidsStep(s, pos, depth, kind, start, kids);
    var p := Skip(s, pos);
    if s[p] != Closes(kind) {
      var q := if kids != [] then Skip(s, p + 1) else p;
      KidIsShaped(s, q, depth, kind);
      var kid := ParseKid(s, q, depth, kind).value;
      hide Shaped, ParseKids, ParseKid;
      KidsAreShaped(s, kid.1, depth, kind, start, kids + kid.0);
    }
  }

  lemma {:induction false} KidIsShaped(s: seq<byte>, q: nat, depth: nat, kind: Kind)
    requires q <= |s| && depth > 0 && (kind == Object || kind == Array) && ParseKid(s, q, depth, kind).Some?
    ensures KidsShaped(s, kind, ParseKid(s, q, depth, kind).value.0)
    decreases |s| - q, 1
  {
    hide PrimitiveValid, ParseValue;
    if kind == Object {
      ScanEnds(s, q + 1);
      ValueIsShaped(s, Skip(s, ParseString(s, q).value.1) + 1, depth);
    } else {
      ValueIsShaped(s, q, depth);
    }
  }

  /** The tokens of `n` are stored from `at` on, and what follows them, if anything, belongs to an outer value. */
  ghost predicate Placed(toks: seq<Tok>, n: Node, at: nat, parent: int) {
    && parent < at && at + Count(n) <= |toks| && toks[at..at + Count(n)] == Flat(n, at, parent)
    && (at + Count(n) < |toks| ==> toks[at + Count(n)].parent < at)
  }

  /** Where the k-th value in `n` is stored. */
  function KidAt(n: Node, at: nat, k: nat): nat
    requires k <= |n.kids|
  {
    at + 1 + CountAll(n.kids[..k])
  }

  lemma KidAtNext(n: Node, at: nat, k: nat)
    requires k < |n.kids|
    ensures KidAt(n, at, k + 1) == KidAt(n, at, k) + Count(n.kids[k])
    ensures KidAt(n, at, 0) == at + 1 && KidAt(n, at, |n.kids|) == at + Count(n)
  {
    KidAtEnds(n, at);
    CountPrefix(n.kids, k);
    KidAtIs(n, at, k);
    KidAtIs(n, at, k + 1);
    hide KidAt, CountAll, Count;
  }

  lemma CountPrefix(kids: seq<Node>, k: nat)
    requires k < |kids|
    ensures CountAll(kids[..k + 1]) == CountAll(kids[..k]) + Count(kids[k])
  {
    hide Count;
    assert kids[..k + 1][..k] == kids[..k];
  }

  lemma {:induction false} KidAtGrows(n: Node, at: nat, j: nat, k: nat)
    requires j <= k <= |n.kids|
    ensures KidAt(n, at, j) <= KidAt(n, at, k) && (j < k ==> KidAt(n, at, j) + Count(n.kids[j]) <= KidAt(n, at, k))
    decreases k
  {
    hide KidAt, CountAll;
    if j < k {
      KidAtGrows(n, at, j, k - 1);
      KidAtNext(n, at, k - 1);
    }
  }

  lemma SliceOf<T>(x: seq<T>, y: seq<T>, i: nat, j: nat)
    requires i <= j <= |x + y|
    ensures j <= |x| ==> (x + y)[i..j] == x[i..j]
    ensures |x| <= i ==> (x + y)[i..j] == y[i - |x|..j - |x|]
  {
  }

  lemma LastKid(kids: seq<Node>, base: nat, parent: int)
    requires kids != []
    ensures var n := |kids| - 1;
      CountAll(kids) == CountAll(kids[..n]) + Count(kids[n])
      && FlatAll(kids, base, parent) == FlatAll(kids[..n], base, parent)
        + Flat(kids[n], base + CountAll(kids[..n]), parent)
  {
    hide Flat, Count;
  }

  /** The part of `FlatAll` that is a child's. */
  lemma {:induction false} FlatAllAt(kids: seq<Node>, base: nat, parent: int, k: nat)
    requires k < |kids|
    ensures CountAll(kids[..k]) + Count(kids[k]) <= CountAll(kids)
    ensures FlatAll(kids, base, parent)[CountAll(kids[..k])..CountAll(kids[..k]) + Count(kids[k])]
         == Flat(kids[k], base + CountAll(kids[..k]), parent)
    decreases |kids|
  {
    hide Flat, FlatAll, CountAll, Count;
    var n := |kids| - 1;
    LastKid(kids, base, parent);
    var i := CountAll(kids[..k]);
    if k < n {
      FlatAllAt(kids[..n], base, parent, k);
      assert kids[..n][..k] == kids[..k];
    }
    SliceOf(FlatAll(kids[..n], base, parent), Flat(kids[n], base + CountAll(kids[..n]), parent), i, i + Count(kids[k]));
  }

  /** Each child is placed as the whole is. */
  lemma KidPlaced(toks: seq<Tok>, n: Node, at: nat, parent: int, k: nat)
    requires Placed(toks, n, at, parent) && k < |n.kids|
    ensures Placed(toks, n.kids[k], KidAt(n, at, k), at)
  {
    KidTokens(toks, n, at, parent, k);
    KidFollows(toks, n, at, parent, k);
    IsPlaced(toks, n.kids[k], KidAt(n, at, k), at);
  }

  lemma IsPlaced(toks: seq<Tok>, n: Node, at: nat, parent: int)
    requires parent < at && at + Count(n) <= |toks| && toks[at..at + Count(n)] == Flat(n, at, parent)
    requires at + Count(n) < |toks| ==> toks[at + Count(n)].parent < at
    ensures Placed(toks, n, at, parent)
  {
    hide Flat, Count;
  }

  lemma KidFollows(toks: seq<Tok>, n: Node, at: nat, parent: int, k: nat)
    requires Placed(toks, n, at, parent) && k < |n.kids|
    ensures var e := KidAt(n, at, k) + Count(n.kids[k]); e < |toks| ==> toks[e].parent < KidAt(n, at, k)
  {
    hide Flat, FlatAll, CountAll, Count;
    KidTokens(toks, n, at, parent, k);
    KidAtNext(n, at, k);
    if k + 1 < |n.kids| {
      HeadAt(toks, n, at, parent, k + 1);
    }
  }

  lemma KidTokens(toks: seq<Tok>, n: Node, at: nat, parent: int, k: nat)
    requires Placed(toks, n, at, parent) && k < |n.kids|
    ensures at < KidAt(n, at, k) && KidAt(n, at, k) + Count(n.kids[k]) <= at + Count(n) <= |toks|
    ensures toks[KidAt(n, at, k)..KidAt(n, at, k) + Count(n.kids[k])] == Flat(n.kids[k], KidAt(n, at, k), at)
  {
    hide *;
    FlatIs(n, at, parent);
    PlacedIs(toks, n, at, parent);
    KidAtIs(n, at, k);
    FlatAllAt(n.kids, at + 1, at, k);
    ThirdSlice(toks, at, [Tok(n.kind, n.start, n.end, parent, |n.kids|)], FlatAll(n.kids, at + 1, at),
               CountAll(n.kids[..k]), Count(n.kids[k]));
  }

  lemma KidAtIs(n: Node, at: nat, k: nat)
    requires k <= |n.kids|
    ensures KidAt(n, at, k) == at + 1 + CountAll(n.kids[..k])
  {
    hide CountAll;
  }

  lemma PlacedIs(toks: seq<Tok>, n: Node, at: nat, parent: int)
    requires Placed(toks, n, at, parent)
    ensures at + Count(n) <= |toks| && toks[at..at + Count(n)] == Flat(n, at, parent)
  {
  }

  lemma ThirdSlice<T>(x: seq<T>, at: nat, head: seq<T>, all: seq<T>, c: nat, d: nat)
    requires |head| == 1 && c + d <= |all| && at + 1 + |all| <= |x| && x[at..at + 1 + |all|] == head + all
    ensures x[at + 1 + c..at + 1 + c + d] == all[c..c + d]
  {
    SliceOf(head, all, c + 1, c + 1 + d);
    SliceOfSlice(x, at, at + 1 + |all|, c + 1, c + 1 + d);
  }

  lemma FlatIs(n: Node, at: nat, parent: int)
    ensures Flat(n, at, parent) == [Tok(n.kind, n.start, n.end, parent, |n.kids|)] + FlatAll(n.kids, at + 1, at)
    ensures Count(n) == 1 + CountAll(n.kids)
  {
    hide FlatAll;
  }

  lemma SliceOfSlice<T>(x: seq<T>, a: nat, b: nat, i: nat, j: nat)
    requires a <= b <= |x| && i <= j <= b - a
    ensures x[a..b][i..j] == x[a + i..a + j]
  {
    var u, v := x[a..b][i..j], x[a + i..a + j];
    assert forall k | 0 <= k < j - i :: u[k] == v[k];
  }

  lemma HeadAt(toks: seq<Tok>, n: Node, at: nat, parent: int, k: nat)
    requires Placed(toks, n, at, parent) && k < |n.kids|
    ensures KidAt(n, at, k) < |toks|
    ensures toks[KidAt(n, at, k)] == Tok(n.kids[k].kind, n.kids[k].start, n.kids[k].end, at, |n.kids[k].kids|)
  {
    KidTokens(toks, n, at, parent, k);
    var i, d := KidAt(n, at, k), Count(n.kids[k]);
    assert toks[i] == toks[i..i + d][0];
  }

  /** All tokens of a tree but the first have their parents in it. */
  lemma {:induction false} InsideParents(toks: seq<Tok>, n: Node, at: nat, parent: int, i: nat)
    requires Placed(toks, n, at, parent) && at < i < at + Count(n)
    ensures toks[i].parent >= at
    ensures forall k | 0 <= k < |n.kids| && KidAt(n, at, k) < i < KidAt(n, at, k) + Count(n.kids[k]) ::
      toks[i].parent > at
    decreases n
  {
    var k := Owner(n, at, i);
    KidPlaced(toks, n, at, parent, k);
    if i == KidAt(n, at, k) {
      HeadAt(toks, n, at, parent, k);
    } else {
      InsideParents(toks, n.kids[k], KidAt(n, at, k), at, i);
    }
    forall j | 0 <= j < |n.kids| && KidAt(n, at, j) < i < KidAt(n, at, j) + Count(n.kids[j])
      ensures j == k
    {
      if j < k {
        KidAtGrows(n, at, j, k);
      } else if k < j {
        KidAtGrows(n, at, k, j);
      }
    }
  }

  /** Which child a token belongs to. */
  lemma {:induction false} OwnerUpTo(n: Node, at: nat, i: nat, m: nat) returns (k: nat)
    requires m <= |n.kids| && at < i < KidAt(n, at, m)
    ensures k < m && KidAt(n, at, k) <= i < KidAt(n, at, k) + Count(n.kids[k])
    decreases m
  {
    assert m > 0 by {
      assert n.kids[..0] == [];
    }
    KidAtNext(n, at, m - 1);
    if i < KidAt(n, at, m - 1) {
      k := OwnerUpTo(n, at, i, m - 1);
    } else {
      k := m - 1;
    }
  }

  lemma Owner(n: Node, at: nat, i: nat) returns (k: nat)
    requires at < i < at + Count(n)
    ensures k < |n.kids| && KidAt(n, at, k) <= i < KidAt(n, at, k) + Count(n.kids[k])
  {
    assert n.kids[..|n.kids|] == n.kids;
    k := OwnerUpTo(n, at, i, |n.kids|);
  }

  /** Tokens between the heads of two neighbouring children are not the container's. */
  lemma BetweenKids(toks: seq<Tok>, n: Node, at: nat, parent: int, k: nat, i: nat)
    requires Placed(toks, n, at, parent) && k < |n.kids| && KidAt(n, at, k) < i < KidAt(n, at, k + 1)
    ensures i < |toks| && toks[i].parent > at
  {
    hide Flat, KidAt, CountAll;
    KidAtNext(n, at, k);
    KidTokens(toks, n, at, parent, k);
    InsideParents(toks, n, at, parent, i);
  }

  /** The result of comparing a string token with a text, or the failure of decoding it. */
  function KeyEquals(s: seq<byte>, start: nat, end: nat, z: seq<byte>): Option<bool>
    requires start <= end < |s| && Scan(s, start) == Some(end)
  {
    if BACKSLASH !in s[start..end] then Some(s[start..end] == z)
    else
      match TextOf(s, start, end)
      case None => None
      case Some(text) => Some(text == z)
  }

  /** The comparison decodes a token only if it has to. */
  method Matches(s: seq<byte>, t: Tok, z: seq<byte>) returns (r: Option<bool>)
    requires t.kind == String ==> 0 <= t.start <= t.end < |s| && Scan(s, t.start) == Some(t.end)
    ensures r == if t.kind == String then KeyEquals(s, t.start, t.end, z) else Some(false)
  {
    if t.kind != String {
      return Some(false);
    }
    if BACKSLASH !in s[t.start..t.end] {
      return Some(s[t.start..t.end] == z);
    }
    var text := CopyString(s, t.start, t.end);
    r := match text case None => None case Some(x) => Some(x == z);
  }

  lemma {:induction false} WithoutEscapes(s: seq<byte>, i: nat, end: nat)
    requires i <= end < |s| && Scan(s, i) == Some(end) && BACKSLASH !in s[i..end]
    ensures Unescaped(s, i, end) == Some(s[i..end])
    decreases end - i
  {
    if i < end {
      assert s[i..end] == [s[i]] + s[i + 1..end];
      assert s[i] in s[i..end];
      ScanEnds(s, i + 1);
      WithoutEscapes(s, i + 1, end);
    } else {
      assert s[i..end] == [];
    }
  }

  /** The comparison is of decoded texts, for tokens that have one. */
  lemma KeyEqualsIsDecoded(s: seq<byte>, start: nat, end: nat, z: seq<byte>)
    requires start <= end < |s| && Scan(s, start) == Some(end) && TextOf(s, start, end).Some?
    ensures KeyEquals(s, start, end, z) == Some(TextOf(s, start, end).value == z)
  {
    if BACKSLASH !in s[start..end] {
      WithoutEscapes(s, start, end);
    }
  }

  /** Every other child is a string token. */
  predicate Keyed(s: seq<byte>, n: Node) {
    |n.kids| % 2 == 0
    && forall k | 0 <= k < |n.kids| && k % 2 == 0 ::
         n.kids[k].kind == String && n.kids[k].kids == []
         && n.kids[k].start <= n.kids[k].end < |s| && Scan(s, n.kids[k].start) == Some(n.kids[k].end)
  }

  /** What looking a key up among the members from the m-th on finds: the index of a value, -1, or a failure to
      decode. */
  function Lookup(s: seq<byte>, n: Node, at: nat, key: seq<byte>, m: nat): Option<int>
    requires Keyed(s, n) && 2 * m <= |n.kids|
    decreases |n.kids| - 2 * m
  {
    if 2 * m == |n.kids| then Some(-1)
    else
      match KeyEquals(s, n.kids[2 * m].start, n.kids[2 * m].end, key)
      case None => None
      case Some(equal) => if equal then Some(KidAt(n, at, 2 * m + 1)) else Lookup(s, n, at, key, m + 1)
  }

  lemma ShapedObject(s: seq<byte>, n: Node)
    requires Shaped(s, n) && n.kind == Object
    ensures Keyed(s, n)
  {
    forall k | 0 <= k < |n.kids| && k % 2 == 0
      ensures n.kids[k].kids == []
      ensures n.kids[k].start <= n.kids[k].end < |s| && Scan(s, n.kids[k].start) == Some(n.kids[k].end)
    {
      assert Shaped(s, n.kids[k]);
    }
  }

  /** The linear scan for a key of the object stored at `obj`. */
  method ObjGet(s: seq<byte>, toks: seq<Tok>, obj: nat, key: seq<byte>, ghost n: Node, ghost parent: int)
    returns (r: Option<int>)
    requires Placed(toks, n, obj, parent) && Shaped(s, n)
    ensures n.kind != Object ==> r == Some(-1)
    ensures n.kind == Object ==> Keyed(s, n) && r == Lookup(s, n, obj, key, 0)
  {
    hide *;
    PlacedHead(toks, n, obj, parent);
    if toks[obj].kind != Object {
      return Some(-1);
    }
    ShapedObject(s, n);
    var i := obj + 1;
    ghost var m: nat := 0;
    ScanStart(n, obj);
    KeyedHalf(s, n);
    while i + 1 < |toks|
      invariant 2 * m <= |n.kids| && Lookup(s, n, obj, key, m) == Lookup(s, n, obj, key, 0)
      invariant i > obj && ScanAt(n, obj, 2 * m, i)
      decreases |toks| - i
    {
      ScanPlace(toks, n, obj, parent, 2 * m, i);
      if toks[i].parent < obj {
        break;
      }
      if toks[i].parent == obj && toks[i].kind == String {
        LookupStep(s, n, obj, key, m);
        ScanMember(n, obj, 2 * m, i);
        var same := Matches(s, toks[i], key);
        if same.None? {
          return None;
        }
        if same.value {
          return Some(i + 1);
        }
        i := i + 1;
        m := m + 1;
      } else {
        ScanPast(n, obj, 2 * m, i);
      }
      i := i + 1;
    }
    ScanEnd(toks, n, obj, parent, 2 * m, i);
    LookupNone(s, n, obj, key, m);
    return Some(-1);
  }

  lemma KeyedHalf(s: seq<byte>, n: Node)
    requires Keyed(s, n)
    ensures |n.kids| % 2 == 0
  {
  }

  lemma LookupStep(s: seq<byte>, n: Node, at: nat, key: seq<byte>, m: nat)
    requires Keyed(s, n) && n.kind == Object && 2 * m < |n.kids|
    ensures 2 * m + 1 < |n.kids|
    ensures var k := n.kids[2 * m];
      k.kind == String && k.kids == [] && k.start <= k.end < |s| && Scan(s, k.start) == Some(k.end)
      && (match KeyEquals(s, k.start, k.end, key)
          case None => Lookup(s, n, at, key, m) == None
          case Some(equal) =>
            Lookup(s, n, at, key, m) == if equal then Some(KidAt(n, at, 2 * m + 1)) else Lookup(s, n, at, key, m + 1))
  {
  }

  lemma LookupNone(s: seq<byte>, n: Node, at: nat, key: seq<byte>, m: nat)
    requires Keyed(s, n) && n.kind == Object && 2 * m == |n.kids|
    ensures Lookup(s, n, at, key, m) == Some(-1)
  {
  }

  lemma PlacedHead(toks: seq<Tok>, n: Node, at: nat, parent: int)
    requires Placed(toks, n, at, parent)
    ensures at < |toks| && toks[at] == Tok(n.kind, n.start, n.end, parent, |n.kids|)
  {
    assert toks[at] == toks[at..at + Count(n)][0];
  }

  /** Where a scan that has passed `k` children stands: before the next one, on it, or past the container. */
  ghost predicate ScanAt(n: Node, at: nat, k: nat, i: nat) {
    k <= |n.kids| && if k == 0 then i == KidAt(n, at, 0) else KidAt(n, at, k - 1) < i <= KidAt(n, at, k)
  }

  lemma ScanStart(n: Node, at: nat)
    ensures ScanAt(n, at, 0, at + 1)
  {
    assert n.kids[..0] == [];
  }

  /** Passing a child's head. */
  lemma ScanKid(n: Node, at: nat, k: nat, i: nat)
    requires ScanAt(n, at, k, i) && k < |n.kids| && i == KidAt(n, at, k)
    ensures ScanAt(n, at, k + 1, i + 1)
  {
    KidAtNext(n, at, k);
  }

  /** Passing a leaf and the head after it. */
  lemma ScanMember(n: Node, at: nat, k: nat, i: nat)
    requires ScanAt(n, at, k, i) && k + 1 < |n.kids| && i == KidAt(n, at, k) && n.kids[k].kids == []
    ensures i + 1 == KidAt(n, at, k + 1) && ScanAt(n, at, k + 2, i + 2)
  {
    KidAtNext(n, at, k);
    KidAtNext(n, at, k + 1);
    assert Count(n.kids[k]) == 1;
  }

  lemma ScanPast(n: Node, at: nat, k: nat, i: nat)
    requires ScanAt(n, at, k, i) && i < KidAt(n, at, k)
    ensures ScanAt(n, at, k, i + 1)
  {
    hide KidAt;
    KidAtEnds(n, at);
  }

  lemma KidAtEnds(n: Node, at: nat)
    ensures KidAt(n, at, 0) == at + 1 && KidAt(n, at, |n.kids|) == at + Count(n)
  {
    assert n.kids[..|n.kids|] == n.kids;
  }

  lemma ScanPlace(toks: seq<Tok>, n: Node, at: nat, parent: int, k: nat, i: nat)
    requires Placed(toks, n, at, parent) && i < |toks| && ScanAt(n, at, k, i)
    ensures k <= |n.kids| && i <= KidAt(n, at, k)
    ensures i < KidAt(n, at, k) ==> toks[i].parent > at
    ensures i == KidAt(n, at, k) && k < |n.kids| ==>
      toks[i] == Tok(n.kids[k].kind, n.kids[k].start, n.kids[k].end, at, |n.kids[k].kids|)
    ensures i == KidAt(n, at, k) && k == |n.kids| ==> toks[i].parent < at
  {
    KidAtEnds(n, at);
    hide KidAt, Count, CountAll, Flat;
    if i < KidAt(n, at, k) {
      BetweenKids(toks, n, at, parent, k - 1, i);
    } else if k < |n.kids| {
      HeadAt(toks, n, at, parent, k);
    }
  }

  /** When a scan's loop ends, it has passed every child. */
  lemma ScanEnd(toks: seq<Tok>, n: Node, at: nat, parent: int, k: nat, i: nat)
    requires Placed(toks, n, at, parent) && ScanAt(n, at, k, i) && k % 2 == 0 && |n.kids| % 2 == 0
    requires i + 1 >= |toks| || toks[i].parent < at
    ensures k == |n.kids|
  {
    hide Flat, KidAt, CountAll;
    if k < |n.kids| {
      KidTokens(toks, n, at, parent, k);
      KidTokens(toks, n, at, parent, k + 1);
      KidAtNext(n, at, k);
      ScanPlace(toks, n, at, parent, k, i);
    }
  }

  /** The text of the m-th key. */
  function KeyText(s: seq<byte>, n: Node, m: nat): Option<seq<byte>>
    requires Keyed(s, n) && 2 * m < |n.kids|
  {
    TextOf(s, n.kids[2 * m].start, n.kids[2 * m].end)
  }

  /** The texts of an object's first `m` keys, if they all have one. */
  function Keys(s: seq<byte>, n: Node, m: nat): (r: Option<seq<(seq<byte>, ())>>)
    requires Keyed(s, n) && 2 * m <= |n.kids|
    ensures r.Some? ==> |r.value| == m
  {
    if m == 0 then Some([])
    else if Keys(s, n, m - 1).None? || KeyText(s, n, m - 1).None? then None
    else Some(Keys(s, n, m - 1).value + [(KeyText(s, n, m - 1).value, ())])
  }

  lemma {:induction false} KeysAre(s: seq<byte>, n: Node, m: nat, i: nat)
    requires Keyed(s, n) && 2 * m <= |n.kids| && i < m && Keys(s, n, m).Some?
    ensures KeyText(s, n, i) == Some(Keys(s, n, m).value[i].0)
    decreases m
  {
    hide TextOf, Scan;
    if i < m - 1 {
      KeysAre(s, n, m - 1, i);
    }
  }

  /** All keys have texts, and no two the same. */
  ghost predicate KeysApart(s: seq<byte>, n: Node)
    requires Keyed(s, n)
  {
    Keys(s, n, |n.kids| / 2).Some? && Distinct(Keys(s, n, |n.kids| / 2).value)
  }

  lemma {:induction false} LookupFrom(s: seq<byte>, n: Node, at: nat, key: seq<byte>, m: nat)
    requires n.kind == Object && Keyed(s, n) && KeysApart(s, n) && 2 * m <= |n.kids|
    ensures (forall i | m <= i < |n.kids| / 2 :: KeyText(s, n, i) != Some(key)) ==> Lookup(s, n, at, key, m) == Some(-1)
    ensures forall i | m <= i < |n.kids| / 2 && KeyText(s, n, i) == Some(key) ::
      Lookup(s, n, at, key, m) == Some(KidAt(n, at, 2 * i + 1))
    decreases |n.kids| - 2 * m
  {
    hide *;
    KeyedHalf(s, n);
    if 2 * m < |n.kids| {
      LookupFrom(s, n, at, key, m + 1);
      LookupStep(s, n, at, key, m);
      KeyMatches(s, n, key, m);
    } else {
      LookupNone(s, n, at, key, m);
    }
  }

  /** A key that matches is the only one. */
  lemma KeyMatches(s: seq<byte>, n: Node, key: seq<byte>, m: nat)
    requires Keyed(s, n) && KeysApart(s, n) && 2 * m < |n.kids|
    ensures var k := n.kids[2 * m];
      k.start <= k.end < |s| && Scan(s, k.start) == Some(k.end)
      && KeyEquals(s, k.start, k.end, key) == Some(KeyText(s, n, m) == Some(key))
    ensures forall i | m < i < |n.kids| / 2 && KeyText(s, n, i) == Some(key) :: KeyText(s, n, m) != Some(key)
  {
    hide KeyEquals, Scan, TextOf, Keys;
    var h := |n.kids| / 2;
    KeysAre(s, n, h, m);
    KeyEqualsIsDecoded(s, n.kids[2 * m].start, n.kids[2 * m].end, key);
    forall i | m < i < h && KeyText(s, n, i) == Some(key)
      ensures KeyText(s, n, m) != Some(key)
    {
      KeysAre(s, n, h, i);
    }
  }

  /** For an object whose keys have passed the check, the scan is the lookup in a map from texts to values: it finds the
      one value whose key decodes to the text, and reports -1 exactly if there is none. */
  lemma LookupIsMapLookup(s: seq<byte>, n: Node, at: nat, key: seq<byte>)
    requires n.kind == Object && Keyed(s, n) && KeysApart(s, n)
    ensures forall i | 0 <= i < |n.kids| / 2 :: KeyText(s, n, i) == Some(key) <==>
      Lookup(s, n, at, key, 0) == Some(KidAt(n, at, 2 * i + 1))
    ensures Lookup(s, n, at, key, 0) == Some(-1) <==> forall i | 0 <= i < |n.kids| / 2 :: KeyText(s, n, i) != Some(key)
  {
    hide *;
    LookupFrom(s, n, at, key, 0);
    KeyedHalf(s, n);
    forall i | 0 <= i < |n.kids| / 2
      ensures KidAt(n, at, 2 * i + 1) > at
      ensures Lookup(s, n, at, key, 0) == Some(KidAt(n, at, 2 * i + 1)) ==> KeyText(s, n, i) == Some(key)
    {
      AfterHead(n, at, 2 * i + 1);
      forall j | 0 <= j < |n.kids| / 2 && i != j
        ensures KidAt(n, at, 2 * i + 1) != KidAt(n, at, 2 * j + 1)
      {
        KidsApart(n, at, 2 * i + 1, 2 * j + 1);
      }
    }
  }

  lemma AfterHead(n: Node, at: nat, k: nat)
    requires k <= |n.kids|
    ensures KidAt(n, at, k) > at
  {
  }

  lemma KidsApart(n: Node, at: nat, j: nat, k: nat)
    requires j < |n.kids| && k < |n.kids| && j != k
    ensures KidAt(n, at, j) != KidAt(n, at, k)
  {
    hide KidAt;
    if j < k {
      KidAtGrows(n, at, j, k);
    } else {
      KidAtGrows(n, at, k, j);
    }
  }

  /** The check of an object with more than one key. */
  ghost predicate LocalOk(s: seq<byte>, n: Node)
    requires Shaped(s, n)
  {
    n.kind == Object && |n.kids| >= 4 ==> (ShapedObject(s, n); KeysApart(s, n))
  }

  /** The check of all objects in a tree. */
  ghost predicate KeysOk(s: seq<byte>, n: Node)
    requires Shaped(s, n)
  {
    LocalOk(s, n) && forall k | 0 <= k < |n.kids| :: KeysOk(s, n.kids[k])
  }

  /** Every token is the head of some value in the tree. */
  ghost function NodeAt(n: Node, at: nat, i: nat): Node
    requires at <= i < at + Count(n)
    decreases n
  {
    if i == at then n
    else
      var k := OwnerOf(n, at, i);
      NodeAt(n.kids[k], KidAt(n, at, k), i)
  }

  ghost function OwnerOf(n: Node, at: nat, i: nat): (k: nat)
    requires at < i < at + Count(n)
    ensures k < |n.kids| && KidAt(n, at, k) <= i < KidAt(n, at, k) + Count(n.kids[k])
  {
    OwnerExists(n, at, i);
    var k: nat :| k < |n.kids| && KidAt(n, at, k) <= i < KidAt(n, at, k) + Count(n.kids[k]);
    k
  }

  lemma OwnerExists(n: Node, at: nat, i: nat)
    requires at < i < at + Count(n)
    ensures exists k: nat :: k < |n.kids| && KidAt(n, at, k) <= i < KidAt(n, at, k) + Count(n.kids[k])
  {
    var k := Owner(n, at, i);
  }

  lemma {:induction false} NodeIsPlaced(s: seq<byte>, toks: seq<Tok>, n: Node, at: nat, parent: int, i: nat)
    requires Placed(toks, n, at, parent) && at <= i < at + Count(n) && Shaped(s, n)
    ensures exists p :: Placed(toks, NodeAt(n, at, i), i, p)
    ensures Shaped(s, NodeAt(n, at, i)) && (KeysOk(s, n) ==> LocalOk(s, NodeAt(n, at, i)))
    decreases n
  {
    hide Placed, KidAt, Count, CountAll, Flat;
    if i > at {
      var k := OwnerOf(n, at, i);
      KidPlaced(toks, n, at, parent, k);
      NodeIsPlaced(s, toks, n.kids[k], KidAt(n, at, k), at, i);
      assert NodeAt(n, at, i) == NodeAt(n.kids[k], KidAt(n, at, k), i);
      var p :| Placed(toks, NodeAt(n.kids[k], KidAt(n, at, k), i), i, p);
      assert Placed(toks, NodeAt(n, at, i), i, p);
    } else {
      assert Placed(toks, NodeAt(n, at, i), i, parent);
    }
  }

  /** All values of a tree are met by going through the tokens. */
  lemma {:induction false} AllNodesMet(s: seq<byte>, n: Node, at: nat)
    requires Shaped(s, n)
    requires forall i | at <= i < at + Count(n) :: Shaped(s, NodeAt(n, at, i)) && LocalOk(s, NodeAt(n, at, i))
    ensures KeysOk(s, n)
    decreases n
  {
    assert NodeAt(n, at, at) == n;
    forall k | 0 <= k < |n.kids|
      ensures KeysOk(s, n.kids[k])
    {
      var base := KidAt(n, at, k);
      KidAtGrows(n, at, 0, k);
      KidAtGrows(n, at, k, |n.kids|);
      KidAtEnds(n, at);
      forall i | base <= i < base + Count(n.kids[k])
        ensures NodeAt(n.kids[k], base, i) == NodeAt(n, at, i)
      {
        var j := OwnerOf(n, at, i);
        if j < k {
          KidAtGrows(n, at, j, k);
        } else if k < j {
          KidAtGrows(n, at, k, j);
        }
      }
      AllNodesMet(s, n.kids[k], base);
    }
  }

  /** The keys of the object stored at `obj`, decoded. */
  method CollectKeys(s: seq<byte>, toks: seq<Tok>, obj: nat, ghost n: Node, ghost parent: int)
    returns (keys: Option<seq<(seq<byte>, ())>>)
    requires Placed(toks, n, obj, parent) && Keyed(s, n)
    ensures keys == Keys(s, n, |n.kids| / 2)
  {
    hide *;
    KeyedHalf(s, n);
    var all: seq<(seq<byte>, ())> := [];
    var i := obj + 1;
    ghost var m: nat := 0;
    ScanStart(n, obj);
    NoKeys(s, n);
    while i < |toks| && toks[i].parent >= obj
      invariant 2 * m <= |n.kids| && Keys(s, n, m) == Some(all)
      invariant i > obj && ScanAt(n, obj, 2 * m, i)
      decreases |toks| - i
    {
      ScanPlace(toks, n, obj, parent, 2 * m, i);
      if toks[i].parent == obj {
        KeysStep(s, n, m);
        ScanMember(n, obj, 2 * m, i);
        var text := CopyString(s, toks[i].start, toks[i].end);
        if text.None? {
          KeysFail(s, n, m + 1, |n.kids| / 2);
          return None;
        }
        all := all + [(text.value, ())];
        i := i + 1;
        m := m + 1;
      } else {
        ScanPast(n, obj, 2 * m, i);
      }
      i := i + 1;
    }
    ScanEnd(toks, n, obj, parent, 2 * m, i);
    return Some(all);
  }

  lemma NoKeys(s: seq<byte>, n: Node)
    requires Keyed(s, n)
    ensures Keys(s, n, 0) == Some([])
  {
  }

  lemma KeysStep(s: seq<byte>, n: Node, m: nat)
    requires Keyed(s, n) && 2 * m < |n.kids|
    ensures 2 * m + 1 < |n.kids|
    ensures var k := n.kids[2 * m];
      k.kind == String && k.kids == [] && k.start <= k.end < |s| && Scan(s, k.start) == Some(k.end)
      && Keys(s, n, m + 1) == if Keys(s, n, m).None? || TextOf(s, k.start, k.end).None? then None
                              else Some(Keys(s, n, m).value + [(TextOf(s, k.start, k.end).value, ())])
  {
  }

  lemma {:induction false} KeysFail(s: seq<byte>, n: Node, m: nat, h: nat)
    requires Keyed(s, n) && m <= h && 2 * h <= |n.kids| && Keys(s, n, m).None?
    ensures Keys(s, n, h).None?
    decreases h
  {
    if m < h {
      KeysFail(s, n, m, h - 1);
    }
  }

  /** The check for duplicate keys, object by object: by sorting and comparing neighbours. */
  method CheckKeys(s: seq<byte>, toks: seq<Tok>, ghost root: Node) returns (ok: bool)
    requires toks == Flat(root, 0, -1) && Shaped(s, root)
    ensures ok <==> KeysOk(s, root)
  {
    hide *;
    RootPlaced(toks, root);
    for obj: nat := 0 to |toks|
      invariant forall i | 0 <= i < obj :: Shaped(s, NodeAt(root, 0, i)) && LocalOk(s, NodeAt(root, 0, i))
    {
      ghost var n := NodeAt(root, 0, obj);
      NodeIsPlaced(s, toks, root, 0, -1, obj);
      ghost var parent :| Placed(toks, n, obj, parent);
      PlacedHead(toks, n, obj, parent);
      LocalMeans(s, n);
      if toks[obj].kind != Object || toks[obj].size < 4 {
        continue;
      }
      var keys := CollectKeys(s, toks, obj, n, parent);
      if keys.None? {
        return false;
      }
      var sorted := Sort(keys.value);
      NeighboursTell(keys.value);
      for i := 0 to |sorted|
        invariant forall j | 0 < j < i :: sorted[j - 1].0 != sorted[j].0
      {
        if i > 0 && sorted[i - 1].0 == sorted[i].0 {
          return false;
        }
      }
    }
    AllNodesMet(s, root, 0);
    return true;
  }

  lemma RootPlaced(toks: seq<Tok>, root: Node)
    requires toks == Flat(root, 0, -1)
    ensures Placed(toks, root, 0, -1) && |toks| == Count(root)
  {
    assert toks[0..|toks|] == toks;
  }

  lemma LocalMeans(s: seq<byte>, n: Node)
    requires Shaped(s, n)
    ensures n.kind == Object ==> Keyed(s, n)
    ensures n.kind == Object && |n.kids| >= 4 ==>
      (LocalOk(s, n) <==> Keys(s, n, |n.kids| / 2).Some? && Distinct(Keys(s, n, |n.kids| / 2).value))
    ensures n.kind != Object || |n.kids| < 4 ==> LocalOk(s, n)
  {
    if n.kind == Object {
      ShapedObject(s, n);
    }
  }
}
