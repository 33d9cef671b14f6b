/** Ordering object keys: strcmp's order on UTF-8 is the order of code points, and sorting distinct keys by it has one
    result (src/json.inc:148-150, jb.c:7377-7379). */
module JsonOrder {
  import opened Utf8
  import opened JsonStrings

  /** strcmp(a, b) < 0, for strings without NUL. */
  predicate Less(a: seq<byte>, b: seq<byte>) {
    b != [] && (a == [] || a[0] < b[0] || (a[0] == b[0] && Less(a[1..], b[1..])))
  }

  lemma {:induction false} LessIsTotal(a: seq<byte>, b: seq<byte>)
    ensures Less(a, b) || a == b || Less(b, a)
    ensures !(Less(a, b) && Less(b, a)) && !Less(a, a)
    decreases |a|
  {
    if a != [] {
      LessIsTotal(a[1..], a[1..]);
      if b != [] && a[0] == b[0] {
        LessIsTotal(a[1..], b[1..]);
        assert a[1..] == b[1..] ==> a == [a[0]] + b[1..] == b;
      }
    }
  }

  lemma {:induction false} LessIsTransitive(a: seq<byte>, b: seq<byte>, c: seq<byte>)
    requires Less(a, b) && Less(b, c)
    ensures Less(a, c)
    decreases |a|
  {
    if a != [] && a[0] == b[0] == c[0] {
      LessIsTransitive(a[1..], b[1..], c[1..]);
    }
  }

  /** The code points of a well-formed string. */
  function CodePoints(s: seq<byte>): (cps: seq<nat>)
    requires WellFormed(s, 0)
    decreases |s|
  {
    if s == [] then []
    else
      PutOfNext(s, 0);
      Remainder(s);
      [Next(s, 0).cp] + CodePoints(s[Next(s, 0).end..])
  }

  /** Decoding does not depend on what comes before. */
  lemma NextShifts(s: seq<byte>, k: nat, i: nat)
    requires k <= i < |s|
    ensures Next(s, i).Cp? <==> Next(s[k..], i - k).Cp?
    ensures Next(s, i).Cp? ==> Next(s, i).cp == Next(s[k..], i - k).cp && Next(s, i).end == Next(s[k..], i - k).end + k
  {
    hide Next, Put, Scalar;
    if Next(s, i).Cp? {
      PutOfNext(s, i);
      var d := Next(s, i);
      assert s[k..][i - k..d.end - k] == s[i..d.end];
      NextOfPut(s[k..], i - k, d.cp);
    } else if Next(s[k..], i - k).Cp? {
      PutOfNext(s[k..], i - k);
      var d := Next(s[k..], i - k);
      assert s[i..d.end + k] == s[k..][i - k..d.end];
      NextOfPut(s, i, d.cp);
    }
  }

  lemma {:induction false} WellFormedShifts(s: seq<byte>, k: nat, i: nat)
    requires k <= i <= |s|
    ensures WellFormed(s[k..], i - k) <==> WellFormed(s, i)
    decreases |s| - i
  {
    hide Next;
    if i < |s| {
      NextShifts(s, k, i);
      if Next(s, i).Cp? {
        PutOfNext(s, i);
        WellFormedShifts(s, k, Next(s, i).end);
      }
    }
  }

  lemma Remainder(s: seq<byte>)
    requires s != [] && WellFormed(s, 0)
    ensures Next(s, 0).Cp? && 0 < Next(s, 0).end <= |s| && WellFormed(s[Next(s, 0).end..], 0)
    ensures s == Put(Next(s, 0).cp) + s[Next(s, 0).end..] && Scalar(Next(s, 0).cp)
  {
    hide Next, Put, Scalar;
    PutOfNext(s, 0);
    WellFormedShifts(s, Next(s, 0).end, Next(s, 0).end);
  }

  predicate LessCps(a: seq<nat>, b: seq<nat>) {
    b != [] && (a == [] || a[0] < b[0] || (a[0] == b[0] && LessCps(a[1..], b[1..])))
  }

  /** Encodings of different code points first differ in a byte both have, and differ there as the code points do. */
  lemma PutsDiffer(c: nat, d: nat) returns (k: nat)
    requires c < d <= 0x10FFFF
    ensures k < |Put(c)| && k < |Put(d)| && Put(c)[..k] == Put(d)[..k] && Put(c)[k] < Put(d)[k]
  {
    if c <= 0x7F || |Put(c)| != |Put(d)| {
      k := 0;
    } else if d <= 0x7FF {
      k := if c / 64 < d / 64 then 0 else 1;
    } else if d <= 0xFFFF {
      k := ThreeBytesDiffer(c, d);
    } else {
      k := FourBytesDiffer(c, d);
    }
  }

  lemma ThreeBytesDiffer(c: nat, d: nat) returns (k: nat)
    requires 0x800 <= c < d <= 0xFFFF
    ensures k < 3 && |Put(c)| == |Put(d)| == 3 && Put(c)[..k] == Put(d)[..k] && Put(c)[k] < Put(d)[k]
  {
    Shifts(c);
    Shifts(d);
    var x, y := c / 64, d / 64;
    var u, v := x / 64, y / 64;
    var f: seq<byte>, g: seq<byte> := [0xE0 + u, 0x80 + x % 64, 0x80 + c % 64],
      [0xE0 + v, 0x80 + y % 64, 0x80 + d % 64];
    assert Put(c) == f && Put(d) == g;
    hide Put;
    k := if u < v then 0 else if x < y then 1 else 2;
  }

  lemma PutFour(c: nat)
    requires 0x10000 <= c <= 0x10FFFF
    ensures Put(c) == [0xF0 + c / 64 / 64 / 64, 0x80 + c / 64 / 64 % 64, 0x80 + c / 64 % 64, 0x80 + c % 64]
  {
    Shifts(c);
  }

  lemma FourBytesDiffer(c: nat, d: nat) returns (k: nat)
    requires 0x10000 <= c < d <= 0x10FFFF
    ensures k < 4 && |Put(c)| == |Put(d)| == 4 && Put(c)[..k] == Put(d)[..k] && Put(c)[k] < Put(d)[k]
  {
    hide Put;
    PutFour(c);
    PutFour(d);
    var x, y := c / 64, d / 64;
    var u, v := x / 64, y / 64;
    k := if u / 64 < v / 64 then 0 else if u < v then 1 else if x < y then 2 else 3;
  }

  lemma {:induction false} LessBySplit(p: seq<byte>, a: seq<byte>, b: seq<byte>)
    ensures Less(p + a, p + b) <==> Less(a, b)
    decreases |p|
  {
    if p == [] {
      assert p + a == a && p + b == b;
    } else {
      assert (p + a)[1..] == p[1..] + a && (p + b)[1..] == p[1..] + b;
      LessBySplit(p[1..], a, b);
    }
  }

  lemma FirstDiffers(x: seq<byte>, y: seq<byte>, k: nat, a: seq<byte>, b: seq<byte>)
    requires k < |x| && k < |y| && x[..k] == y[..k] && x[k] < y[k]
    ensures Less(x + a, y + b) && !Less(y + b, x + a)
  {
    LessBySplit(x[..k], x[k..] + a, y[k..] + b);
    LessBySplit(x[..k], y[k..] + b, x[k..] + a);
    assert x + a == x[..k] + (x[k..] + a) && y + b == x[..k] + (y[k..] + b);
  }

  /** strcmp's order on well-formed UTF-8 is the order of code points. */
  lemma {:induction false} BytesOrderAsCodePoints(s: seq<byte>, t: seq<byte>)
    requires WellFormed(s, 0) && WellFormed(t, 0)
    ensures Less(s, t) <==> LessCps(CodePoints(s), CodePoints(t))
    decreases |s|
  {
    if s != [] && t != [] {
      Remainder(s);
      Remainder(t);
      var c, d := Next(s, 0), Next(t, 0);
      var u, v := s[c.end..], t[d.end..];
      hide Next, Put, Scalar;
      if c.cp == d.cp {
        LessBySplit(Put(c.cp), u, v);
        BytesOrderAsCodePoints(u, v);
        assert CodePoints(s)[1..] == CodePoints(u) && CodePoints(t)[1..] == CodePoints(v);
      } else if c.cp < d.cp {
        var k := PutsDiffer(c.cp, d.cp);
        FirstDiffers(Put(c.cp), Put(d.cp), k, u, v);
      } else {
        var k := PutsDiffer(d.cp, c.cp);
        FirstDiffers(Put(d.cp), Put(c.cp), k, v, u);
      }
    }
  }

  /** Items in the strict order of their keys. */
  ghost predicate Sorted<T>(items: seq<(seq<byte>, T)>) {
    forall i, j | 0 <= i < j < |items| :: Less(items[i].0, items[j].0)
  }

  ghost predicate Distinct<T>(items: seq<(seq<byte>, T)>) {
    forall i, j | 0 <= i < j < |items| :: items[i].0 != items[j].0
  }

  function Insert<T>(items: seq<(seq<byte>, T)>, x: (seq<byte>, T)): seq<(seq<byte>, T)> {
    if items == [] then [x]
    else if Less(x.0, items[|items| - 1].0) then Insert(items[..|items| - 1], x) + [items[|items| - 1]]
    else items + [x]
  }

  /** The items sorted by key. */
  function Sort<T>(items: seq<(seq<byte>, T)>): seq<(seq<byte>, T)> {
    if items == [] then [] else Insert(Sort(items[..|items| - 1]), items[|items| - 1])
  }

  lemma {:induction false} InsertPermutes<T>(items: seq<(seq<byte>, T)>, x: (seq<byte>, T))
    ensures multiset(Insert(items, x)) == multiset(items) + multiset{x}
    decreases |items|
  {
    hide Less;
    if items != [] {
      assert items == items[..|items| - 1] + [items[|items| - 1]];
      InsertPermutes(items[..|items| - 1], x);
    }
  }

  /** Sorting keeps every item. */
  lemma {:induction false} SortPermutes<T>(items: seq<(seq<byte>, T)>)
    ensures multiset(Sort(items)) == multiset(items) && |Sort(items)| == |items|
    decreases |items|
  {
    hide Insert;
    if items != [] {
      var n := |items| - 1;
      assert items == items[..n] + [items[n]];
      SortPermutes(items[..n]);
      InsertPermutes(Sort(items[..n]), items[n]);
    }
    assert |Sort(items)| == |multiset(Sort(items))| == |multiset(items)| == |items|;
  }

  lemma {:induction false} InsertSorts<T>(items: seq<(seq<byte>, T)>, x: (seq<byte>, T))
    requires Sorted(items) && forall i | 0 <= i < |items| :: items[i].0 != x.0
    ensures Sorted(Insert(items, x))
    decreases |items|
  {
    hide Less;
    if items != [] {
      var n := |items| - 1;
      var last := items[n];
      LessIsTotal(last.0, x.0);
      if Less(x.0, last.0) {
        InsertSorts(items[..n], x);
        InsertedFrom(items[..n], x);
        AppendSorted(Insert(items[..n], x), last);
      } else {
        forall i | 0 <= i < n
          ensures Less(items[i].0, x.0)
        {
          LessIsTransitive(items[i].0, last.0, x.0);
        }
        AppendSorted(items, x);
      }
    }
  }

  /** What an insertion leaves is the new item or an old one. */
  lemma InsertedFrom<T>(items: seq<(seq<byte>, T)>, x: (seq<byte>, T))
    ensures forall i | 0 <= i < |Insert(items, x)| :: Insert(items, x)[i] == x || Insert(items, x)[i] in items
  {
    hide Insert;
    InsertPermutes(items, x);
    var r := Insert(items, x);
    forall i | 0 <= i < |r|
      ensures r[i] == x || r[i] in items
    {
      assert r[i] in multiset(r);
    }
  }

  lemma AppendSorted<T>(items: seq<(seq<byte>, T)>, x: (seq<byte>, T))
    requires Sorted(items) && forall i | 0 <= i < |items| :: Less(items[i].0, x.0)
    ensures Sorted(items + [x])
  {
    hide Less;
  }

  /** Distinct keys can be sorted. */
  lemma {:induction false} SortSorts<T>(items: seq<(seq<byte>, T)>)
    requires Distinct(items)
    ensures Sorted(Sort(items))
    decreases |items|
  {
    hide Less, Insert;
    if items != [] {
      var n := |items| - 1;
      SortSorts(items[..n]);
      forall i | 0 <= i < |Sort(items[..n])|
        ensures Sort(items[..n])[i].0 != items[n].0
      {
        SortPermutes(items[..n]);
        assert Sort(items[..n])[i] in multiset(items[..n]);
        var j :| 0 <= j < n && items[..n][j] == Sort(items[..n])[i];
      }
      InsertSorts(Sort(items[..n]), items[n]);
    }
  }

  /** Any sorting routine gives the same result, whatever it does with equal keys, since there are none. */
  lemma {:induction false} SortedIsUnique<T>(x: seq<(seq<byte>, T)>, y: seq<(seq<byte>, T)>)
    requires Sorted(x) && Sorted(y) && multiset(x) == multiset(y)
    ensures x == y
    decreases |x|
  {
    hide *;
    assert |x| == |multiset(x)| && |y| == |multiset(y)|;
    if x != [] {
      var n := |x| - 1;
      LastIsSame(x, y);
      WithoutLast(x);
      WithoutLast(y);
      SortedPrefix(x, n);
      SortedPrefix(y, n);
      SortedIsUnique(x[..n], y[..n]);
      assert x == x[..n] + [x[n]] && y == y[..n] + [y[n]];
    }
  }

  lemma SortedPrefix<T>(x: seq<(seq<byte>, T)>, n: nat)
    requires Sorted(x) && n <= |x|
    ensures Sorted(x[..n])
  {
    hide Less;
  }

  lemma WithoutLast<A>(x: seq<A>)
    requires x != []
    ensures multiset(x[..|x| - 1]) == multiset(x) - multiset{x[|x| - 1]}
  {
    assert x == x[..|x| - 1] + [x[|x| - 1]];
  }

  lemma LastIsSame<T>(x: seq<(seq<byte>, T)>, y: seq<(seq<byte>, T)>)
    requires Sorted(x) && Sorted(y) && multiset(x) == multiset(y) && |x| == |y| > 0
    ensures x[|x| - 1] == y[|y| - 1]
  {
    hide Less;
    var n := |x| - 1;
    assert x[n] in multiset(y) && y[n] in multiset(x);
    var i :| 0 <= i <= n && y[i] == x[n];
    var j :| 0 <= j <= n && x[j] == y[n];
    LessIsTotal(x[n].0, y[n].0);
  }

  /** Sorting what is sorted changes nothing. */
  lemma SortOfSorted<T>(x: seq<(seq<byte>, T)>)
    requires Sorted(x)
    ensures Sort(x) == x
  {
    forall i, j | 0 <= i < j < |x|
      ensures x[i].0 != x[j].0
    {
      LessIsTotal(x[i].0, x[j].0);
    }
    SortSorts(x);
    SortPermutes(x);
    SortedIsUnique(Sort(x), x);
  }

  /** In order, but for equal keys. */
  ghost predicate Ordered<T>(items: seq<(seq<byte>, T)>) {
    forall i, j | 0 <= i < j < |items| :: !Less(items[j].0, items[i].0)
  }

  lemma {:induction false} InsertOrders<T>(items: seq<(seq<byte>, T)>, x: (seq<byte>, T))
    requires Ordered(items)
    ensures Ordered(Insert(items, x))
    decreases |items|
  {
    hide Less;
    if items != [] {
      var n := |items| - 1;
      var last := items[n];
      LessIsTotal(x.0, last.0);
      if Less(x.0, last.0) {
        InsertOrders(items[..n], x);
        InsertedFrom(items[..n], x);
        LessIsTotal(last.0, last.0);
      } else {
        forall i | 0 <= i < n
          ensures !Less(x.0, items[i].0)
        {
          if Less(x.0, items[i].0) {
            LessIsTotal(items[i].0, last.0);
            LessIsTotal(last.0, x.0);
            LessOrEqualThenLess(last.0, x.0, items[i].0);
          }
        }
      }
    }
  }

  lemma LessOrEqualThenLess(a: seq<byte>, b: seq<byte>, c: seq<byte>)
    requires (a == b || Less(a, b)) && Less(b, c)
    ensures Less(a, c)
  {
    if a != b {
      LessIsTransitive(a, b, c);
    }
  }

  lemma {:induction false} SortOrders<T>(items: seq<(seq<byte>, T)>)
    ensures Ordered(Sort(items))
    decreases |items|
  {
    hide Less, Insert;
    if items != [] {
      SortOrders(items[..|items| - 1]);
      InsertOrders(Sort(items[..|items| - 1]), items[|items| - 1]);
    }
  }

  lemma DistinctIffOnce(keys: seq<(seq<byte>, ())>)
    ensures Distinct(keys) <==> forall x :: multiset(keys)[x] <= 1
  {
    if Distinct(keys) {
      forall x
        ensures multiset(keys)[x] <= 1
      {
        DistinctCounts(keys, x);
      }
    } else {
      var i, j :| 0 <= i < j < |keys| && keys[i].0 == keys[j].0;
      assert keys[i].1 == () == keys[j].1;
      assert keys[i] == keys[j];
      TwiceCounts(keys, i, j);
    }
  }

  lemma TwiceCounts<A>(x: seq<A>, i: nat, j: nat)
    requires i < j < |x| && x[i] == x[j]
    ensures multiset(x)[x[i]] >= 2
  {
    assert x == x[..j] + x[j..];
    assert x[i] in x[..j] && x[j] in x[j..];
  }

  lemma {:induction false} DistinctCounts(keys: seq<(seq<byte>, ())>, x: (seq<byte>, ()))
    requires Distinct(keys)
    ensures multiset(keys)[x] <= 1
    decreases |keys|
  {
    if keys != [] {
      var n := |keys| - 1;
      assert keys == keys[..n] + [keys[n]];
      DistinctCounts(keys[..n], x);
      assert x in keys[..n] ==> x != keys[n] by {
        if x in keys[..n] {
          var i :| 0 <= i < n && keys[..n][i] == x;
          assert keys[i].0 != keys[n].0;
        }
      }
    }
  }

  /** After sorting, equal keys are neighbours. */
  lemma NeighboursTell(keys: seq<(seq<byte>, ())>)
    ensures |Sort(keys)| == |keys|
    ensures Distinct(keys) <==> forall i | 0 < i < |keys| :: Sort(keys)[i - 1].0 != Sort(keys)[i].0
  {
    var r := Sort(keys);
    SortPermutes(keys);
    SortOrders(keys);
    DistinctIffOnce(keys);
    DistinctIffOnce(r);
    if forall i | 0 < i < |keys| :: r[i - 1].0 != r[i].0 {
      forall i, j | 0 <= i < j < |r|
        ensures r[i].0 != r[j].0
      {
        ApartStaysApart(r, i, j);
      }
    }
  }

  lemma {:induction false} ApartStaysApart<T>(r: seq<(seq<byte>, T)>, i: nat, j: nat)
    requires i < j < |r| && Ordered(r) && forall k | 0 < k < |r| :: r[k - 1].0 != r[k].0
    ensures Less(r[i].0, r[j].0) && r[i].0 != r[j].0
    decreases j
  {
    hide Less;
    LessIsTotal(r[j - 1].0, r[j].0);
    if i < j - 1 {
      ApartStaysApart(r, i, j - 1);
      LessIsTransitive(r[i].0, r[j - 1].0, r[j].0);
    }
    LessIsTotal(r[i].0, r[j].0);
  }
}
