/** The ids a piece starts from (jb.c:2063-2079), read back: what each of them says, and when there are none. */
module BpeFirst {
  import opened Wrappers
  import opened Utf8
  import opened Bpe
  import opened BpePiece

  /** The value of an upper-case hexadecimal digit. */
  function Digit(d: byte): Option<nat> {
    if 0x30 <= d <= 0x39 then Some(d - 0x30) else if 0x41 <= d <= 0x46 then Some(d - 0x41 + 10) else None
  }

  /** Reads `<0xNN>`: the byte it names. */
  function Named(z: seq<byte>): Option<byte> {
    if |z| == 6 && z[0] == 0x3C && z[1] == 0x30 && z[2] == 0x78 && z[5] == 0x3E && Digit(z[3]).Some?
      && Digit(z[4]).Some?
    then Some(16 * Digit(z[3]).value + Digit(z[4]).value) else None
  }

  /** A byte's spelling names it, and is the only text that does. */
  lemma FallbackNames(b: byte, z: seq<byte>)
    ensures Named(z) == Some(b) <==> z == Fallback(b)
  {
    var hi, lo := b / 16, b % 16;
    assert Digit(HexDigit(hi)) == Some(hi) && Digit(HexDigit(lo)) == Some(lo);
    if Named(z) == Some(b) {
      assert Digit(z[3]).value == hi && Digit(z[4]).value == lo;
      assert z[3] == HexDigit(hi) && z[4] == HexDigit(lo);
    }
  }

  /** What a token says: the byte it names, if it names one, and otherwise its own text. */
  function Said(z: seq<byte>): seq<byte> {
    if Named(z).Some? then [Named(z).value] else z
  }

  function ReadIds(t: Tokenizer, ids: seq<nat>): seq<byte>
    requires t.Known(ids)
  {
    if ids == [] then [] else ReadIds(t, ids[..|ids| - 1]) + Said(t.byId[ids[|ids| - 1]])
  }

  lemma {:induction false} ReadConcat(t: Tokenizer, x: seq<nat>, y: seq<nat>)
    requires t.Known(x) && t.Known(y)
    ensures ReadIds(t, x + y) == ReadIds(t, x) + ReadIds(t, y)
    decreases |y|
  {
    if y == [] {
      assert x + y == x;
    } else {
      var n := |y| - 1;
      assert (x + y)[..|x| + n] == x + y[..n];
      ReadConcat(t, x, y[..n]);
    }
  }

  lemma ReadOne(t: Tokenizer, id: nat)
    requires id < |t.byId|
    ensures ReadIds(t, [id]) == Said(t.byId[id])
  {
    assert [id][..0] == [];
  }

  lemma SaidFallback(b: byte)
    ensures Said(Fallback(b)) == [b]
  {
    FallbackNames(b, Fallback(b));
  }

  lemma {:induction false} BytesRead(t: Tokenizer, z: seq<byte>)
    requires t.Valid() && BytesOf(t, z).Some?
    ensures ReadIds(t, BytesOf(t, z).value) == z
  {
    hide Said, ReadIds;
    ReadNone(t);
    if z != [] {
      var n := |z| - 1;
      BytesRead(t, z[..n]);
      var v := t.Find(Fallback(z[n])).value;
      SaidFallback(z[n]);
      ReadConcat(t, BytesOf(t, z[..n]).value, [v]);
      ReadOne(t, v);
      assert z == z[..n] + [z[n]];
    }
  }

  lemma ReadNone(t: Tokenizer)
    ensures ReadIds(t, []) == []
  {
  }

  lemma OneRead(t: Tokenizer, z: seq<byte>)
    requires t.Valid() && 0 < |z| <= 4 && OneOf(t, z).Some?
    ensures ReadIds(t, OneOf(t, z).value) == z
  {
    if t.Find(z).Some? {
      ReadOne(t, t.Find(z).value);
    } else {
      BytesRead(t, z);
    }
  }

  lemma {:induction false} StartRead(t: Tokenizer, s: seq<byte>, p: nat, ids: seq<nat>)
    requires t.Valid() && p <= |s| && t.Known(ids) && |ids| <= p && ReadIds(t, ids) == s[..p]
    ensures Start(t, s, p, ids).Encoded? ==> ReadIds(t, Start(t, s, p, ids).ids) == s
    decreases |s| - p
  {
    hide Tokenizer.Valid, Tokenizer.Find, OneOf, EndAt;
    if p == |s| {
      assert s[..p] == s;
    } else if EndAt(s, p).Some? {
      var q := EndAt(s, p).value;
      EndNear(s, p);
      if OneOf(t, s[p..q]).Some? {
        var more := OneOf(t, s[p..q]).value;
        OneRead(t, s[p..q]);
        ReadConcat(t, ids, more);
        assert s[..p] + s[p..q] == s[..q];
        StartRead(t, s, q, ids + more);
      }
    }
  }

  lemma EndNear(s: seq<byte>, p: nat)
    requires p < |s| && EndAt(s, p).Some?
    ensures p < EndAt(s, p).value <= p + 4
  {
    PutOfNext(s, p);
    assert s[p..EndAt(s, p).value] == Put(Next(s, p).cp);
  }

  /** The first ids of any piece, read back one by one, say the piece. */
  lemma FirstIdsSayThePiece(t: Tokenizer, s: seq<byte>)
    requires t.Valid() && Start(t, s, 0, []).Encoded?
    ensures ReadIds(t, Start(t, s, 0, []).ids) == s
  {
    ReadNone(t);
    StartRead(t, s, 0, []);
  }

  // ----- failures

  /** A place in a piece where a code point begins, all before it being well-formed. */
  ghost predicate Boundary(s: seq<byte>, p: nat)
    decreases p
  {
    p <= |s| && (p == 0 || exists q: nat | q < p :: q < |s| && Boundary(s, q) && EndAt(s, q) == Some(p))
  }

  /** No token is the code point itself, and for some byte of it no token names that byte. */
  ghost predicate Unsayable(t: Tokenizer, z: seq<byte>) {
    && (forall id | 0 <= id < |t.byId| :: t.byId[id] != z)
    && exists k | 0 <= k < |z| :: Nameless(t, z[k])
  }

  ghost predicate Nameless(t: Tokenizer, b: byte) {
    forall id | 0 <= id < |t.byId| :: Named(t.byId[id]) != Some(b)
  }

  lemma NamelessIs(t: Tokenizer, b: byte)
    requires t.Valid()
    ensures Nameless(t, b) <==> t.Find(Fallback(b)).None?
  {
    if t.Find(Fallback(b)).Some? {
      var id := t.Find(Fallback(b)).value;
      FallbackNames(b, t.byId[id]);
    } else {
      forall id | 0 <= id < |t.byId|
        ensures Named(t.byId[id]) != Some(b)
      {
        FallbackNames(b, t.byId[id]);
      }
    }
  }

  lemma {:induction false} BytesFail(t: Tokenizer, z: seq<byte>)
    requires t.Valid()
    ensures BytesOf(t, z).None? <==> exists k | 0 <= k < |z| :: Nameless(t, z[k])
  {
    hide Nameless;
    if z != [] {
      var n := |z| - 1;
      BytesFail(t, z[..n]);
      NamelessIs(t, z[n]);
      assert forall k | 0 <= k < n :: z[..n][k] == z[k];
    }
  }

  lemma OneFails(t: Tokenizer, z: seq<byte>)
    requires t.Valid() && |z| > 0
    ensures OneOf(t, z).None? <==> Unsayable(t, z)
  {
    hide Nameless;
    BytesFail(t, z);
    if t.Find(z).None? {
      assert forall id | 0 <= id < |t.byId| :: t.byId[id] != z;
    } else {
      assert t.byId[t.Find(z).value] == z;
    }
  }

  /** The code point at `p` cannot be encoded. */
  ghost predicate Fails(t: Tokenizer, s: seq<byte>, p: nat) {
    p < |s| && EndAt(s, p).Some? && Unsayable(t, s[p..EndAt(s, p).value])
  }

  /** Code points do not overlap: the next place after one is where it ends. */
  lemma {:induction false} Chain(s: seq<byte>, p: nat, r: nat)
    requires Boundary(s, p) && Boundary(s, r) && p < r
    ensures p < |s| && EndAt(s, p).Some? && EndAt(s, p).value <= r
    decreases r
  {
    hide EndAt;
    var q: nat :| q < r && q < |s| && Boundary(s, q) && EndAt(s, q) == Some(r);
    if q < p {
      Chain(s, q, p);
    } else if q > p {
      Chain(s, p, q);
    }
  }

  lemma NextBoundary(s: seq<byte>, p: nat)
    requires p < |s| && Boundary(s, p) && EndAt(s, p).Some?
    ensures Boundary(s, EndAt(s, p).value)
    ensures forall r: nat | p < r && Boundary(s, r) :: EndAt(s, p).value <= r
  {
    hide EndAt;
    forall r: nat | p < r && Boundary(s, r)
      ensures EndAt(s, p).value <= r
    {
      Chain(s, p, r);
    }
  }

  lemma NoneAfter(s: seq<byte>, p: nat)
    requires p < |s| && Boundary(s, p) && EndAt(s, p).None?
    ensures forall r: nat | Boundary(s, r) :: r <= p
  {
    hide EndAt;
    forall r: nat | Boundary(s, r)
      ensures r <= p
    {
      if p < r {
        Chain(s, p, r);
      }
    }
  }

  lemma {:induction false} StartFails(t: Tokenizer, s: seq<byte>, p: nat, ids: seq<nat>)
    requires t.Valid() && p <= |s| && t.Known(ids) && |ids| <= p && Boundary(s, p)
    requires forall q: nat | q < p && q < |s| && Boundary(s, q) :: EndAt(s, q).Some? && !Fails(t, s, q)
    ensures Start(t, s, p, ids).FallbackAbsent? <==> exists q: nat :: Boundary(s, q) && Fails(t, s, q)
    ensures Start(t, s, p, ids).InvalidUtf8? ==> exists q: nat :: q < |s| && Boundary(s, q) && EndAt(s, q).None?
    ensures Start(t, s, p, ids).Encoded? ==> forall q: nat | q < |s| && Boundary(s, q) :: EndAt(s, q).Some?
    ensures !Start(t, s, p, ids).MergedAbsent?
    decreases |s| - p
  {
    hide Tokenizer.Valid, Tokenizer.Find, OneOf, EndAt, Unsayable;
    if p < |s| && EndAt(s, p).Some? {
      var q := EndAt(s, p).value;
      OneFails(t, s[p..q]);
      NextBoundary(s, p);
      if OneOf(t, s[p..q]).Some? {
        StartFails(t, s, q, ids + OneOf(t, s[p..q]).value);
      } else {
        assert Fails(t, s, p);
      }
    } else if p < |s| {
      NoneAfter(s, p);
    }
  }

  /** Encoding fails for an absent fallback exactly if the code points up to some place are well-formed and the next one
      is no token and has a byte that no token names. */
  lemma FallbackAbsentIff(t: Tokenizer, s: seq<byte>)
    requires t.Valid()
    ensures Encode(t, s).FallbackAbsent? <==> exists p: nat :: Boundary(s, p) && Fails(t, s, p)
    ensures Encode(t, s).InvalidUtf8? ==> exists p: nat :: p < |s| && Boundary(s, p) && EndAt(s, p).None?
  {
    hide EndAt, Unsayable, Start, MergeAll;
    StartFails(t, s, 0, []);
    if Start(t, s, 0, []).Encoded? {
      MergeAllFails(t, Start(t, s, 0, []).ids);
    }
  }

  lemma {:induction false} MergeAllFails(t: Tokenizer, ids: seq<nat>)
    requires t.Valid() && t.Known(ids)
    ensures MergeAll(t, ids).Encoded? || MergeAll(t, ids).MergedAbsent?
    decreases |ids|
  {
    if Rescan(t, ids, |ids|).Some? {
      var p := Rescan(t, ids, |ids|).value;
      if t.Find(Joined(t, ids, p)).Some? {
        MergeKeepsText(t, ids, p);
        MergeAllFails(t, Merged(ids, p, t.Find(Joined(t, ids, p)).value));
      }
    }
  }
}
