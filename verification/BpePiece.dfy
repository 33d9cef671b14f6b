/** Encoding a whole piece of text: its first ids, one per code point or per byte, then the merges
    (jb.c:2046-2131). */
module BpePiece {
  import opened Wrappers
  import opened Utf8
  import opened BpeHeap
  import opened Bpe

  function HexDigit(d: nat): byte
    requires d < 16
  {
    if d < 10 then 48 + d else 55 + d
  }

  /** The vocabulary's spelling of a byte that no token covers: `<0xNN>`. */
  function Fallback(b: byte): (r: seq<byte>)
    ensures |r| == 6
  {
    [60, 48, 120, HexDigit(b / 16), HexDigit(b % 16), 62]
  }

  /** One id per byte of `z`, by its spelled-out token. */
  function BytesOf(t: Tokenizer, z: seq<byte>): (r: Option<seq<nat>>)
    requires t.Valid()
    ensures r.Some? ==> |r.value| == |z| && t.Known(r.value)
  {
    if z == [] then Some([])
    else
      match BytesOf(t, z[..|z| - 1])
      case None => None
      case Some(ids) =>
        match t.Find(Fallback(z[|z| - 1]))
        case None => None
        case Some(v) => Some(ids + [v])
  }

  /** The ids of one code point: its own token, or its bytes'. */
  function OneOf(t: Tokenizer, z: seq<byte>): (r: Option<seq<nat>>)
    requires t.Valid() && |z| > 0
    ensures r.Some? ==> |r.value| <= |z| && t.Known(r.value)
  {
    match t.Find(z)
    case Some(v) => Some([v])
    case None => BytesOf(t, z)
  }

  /** Where the code point at `p` ends, if it is well-formed. */
  function EndAt(s: seq<byte>, p: nat): (r: Option<nat>)
    requires p < |s|
    ensures r.Some? ==> p < r.value <= |s|
  {
    if Next(s, p).Invalid? then None else PutOfNext(s, p); Some(Next(s, p).end)
  }

  /** The ids a piece starts from, read from position `p` on, behind the ids already produced. */
  function Start(t: Tokenizer, s: seq<byte>, p: nat, ids: seq<nat>): (r: Outcome)
    requires t.Valid() && p <= |s| && t.Known(ids) && |ids| <= p
    ensures r.Encoded? ==> t.Known(r.ids) && |r.ids| <= |s|
    decreases |s| - p
  {
    if p == |s| then Encoded(ids)
    else
      match EndAt(s, p)
      case None => InvalidUtf8
      case Some(q) =>
        match OneOf(t, s[p..q])
        case None => FallbackAbsent
        case Some(more) => Start(t, s, q, ids + more)
  }

  /** The specification of encoding a piece. */
  ghost function Encode(t: Tokenizer, s: seq<byte>): Outcome
    requires t.Valid()
  {
    match Start(t, s, 0, [])
    case Encoded(ids) => MergeAll(t, ids)
    case failed => failed
  }

  function SpelledOut(z: seq<byte>): seq<byte> {
    if z == [] then [] else SpelledOut(z[..|z| - 1]) + Fallback(z[|z| - 1])
  }

  /** The text that the ids stand for: each code point itself, or its bytes spelled out. */
  function Spelling(t: Tokenizer, s: seq<byte>, p: nat): seq<byte>
    requires p <= |s|
    decreases |s| - p
  {
    if p == |s| || EndAt(s, p).None? then []
    else
      var z := s[p..EndAt(s, p).value];
      (if t.Find(z).Some? then z else SpelledOut(z)) + Spelling(t, s, EndAt(s, p).value)
  }

  /** Every code point from `p` on is a token of its own. */
  predicate AllTokens(t: Tokenizer, s: seq<byte>, p: nat)
    requires p <= |s|
    decreases |s| - p
  {
    p == |s| ||
    match EndAt(s, p)
    case None => false
    case Some(q) => t.Find(s[p..q]).Some? && AllTokens(t, s, q)
  }

  lemma {:induction false} BytesOfText(t: Tokenizer, z: seq<byte>)
    requires t.Valid() && BytesOf(t, z).Some?
    ensures t.Text(BytesOf(t, z).value) == SpelledOut(z)
  {
    if z != [] {
      BytesOfText(t, z[..|z| - 1]);
      var ids := BytesOf(t, z[..|z| - 1]).value;
      var v := t.Find(Fallback(z[|z| - 1])).value;
      TextConcat(t, ids, [v]);
      TextOne(t, v);
    }
  }

  lemma OneOfText(t: Tokenizer, z: seq<byte>)
    requires t.Valid() && |z| > 0 && OneOf(t, z).Some?
    ensures t.Text(OneOf(t, z).value) == if t.Find(z).Some? then z else SpelledOut(z)
  {
    if t.Find(z).Some? {
      TextOne(t, t.Find(z).value);
    } else {
      BytesOfText(t, z);
    }
  }

  lemma {:induction false} StartText(t: Tokenizer, s: seq<byte>, p: nat, ids: seq<nat>)
    requires t.Valid() && p <= |s| && t.Known(ids) && |ids| <= p
    ensures var r := Start(t, s, p, ids); r.Encoded? ==> t.Text(r.ids) == t.Text(ids) + Spelling(t, s, p)
    decreases |s| - p
  {
    hide Tokenizer.Valid, Tokenizer.Known, Tokenizer.Find, Tokenizer.Text, OneOf, EndAt;
    if p < |s| && EndAt(s, p).Some? {
      var q := EndAt(s, p).value;
      if OneOf(t, s[p..q]).Some? {
        var more := OneOf(t, s[p..q]).value;
        OneOfText(t, s[p..q]);
        TextConcat(t, ids, more);
        StartText(t, s, q, ids + more);
      }
    }
  }

  lemma {:induction false} SpellingOfTokens(t: Tokenizer, s: seq<byte>, p: nat)
    requires p <= |s| && AllTokens(t, s, p)
    ensures Spelling(t, s, p) == s[p..]
    decreases |s| - p
  {
    if p < |s| {
      SpellingOfTokens(t, s, EndAt(s, p).value);
    }
  }

  /** Encoding loses no text: what comes out stands for the piece, with the bytes of code points the
      vocabulary lacks spelled out; and no pair of the result can merge any further. */
  lemma EncodeKeepsText(t: Tokenizer, s: seq<byte>)
    requires t.Valid()
    ensures var r := Encode(t, s);
            r.Encoded? ==>
              && t.Known(r.ids)
              && t.Text(r.ids) == Spelling(t, s, 0)
              && (AllTokens(t, s, 0) ==> t.Text(r.ids) == s)
              && forall q: nat :: !Mergeable(t, r.ids, q)
  {
    var first := Start(t, s, 0, []);
    if first.Encoded? {
      StartText(t, s, 0, []);
      assert t.Text([]) == [];
      MergeAllKeepsText(t, first.ids);
      if AllTokens(t, s, 0) {
        SpellingOfTokens(t, s, 0);
      }
    }
  }

  /** One byte without a token fails the whole code point. */
  lemma {:induction false} NoBytes(t: Tokenizer, s: seq<byte>, p0: nat, p: nat, q: nat)
    requires t.Valid() && p0 <= p < q <= |s| && t.Find(Fallback(s[p])).None?
    ensures BytesOf(t, s[p0..q]).None?
    decreases q
  {
    var z := s[p0..q];
    assert z[..|z| - 1] == s[p0..q - 1];
    if p < q - 1 {
      NoBytes(t, s, p0, p, q - 1);
    }
  }

  /** Appends the byte tokens of the code point in `s[p..q]` to the first `k` ids. */
  method PushBytes(t: Tokenizer, s: seq<byte>, p: nat, q: nat, ids: array<nat>, k: nat) returns (ok: bool, n: nat)
    requires t.Valid() && p <= q <= |s| && k + (q - p) <= ids.Length
    modifies ids
    ensures ok <==> BytesOf(t, s[p..q]).Some?
    ensures ok ==> n == k + (q - p) && ids[..n] == old(ids[..k]) + BytesOf(t, s[p..q]).value
  {
    n := k;
    ghost var before := ids[..k];
    for i := p to q
      invariant n == k + (i - p)
      invariant BytesOf(t, s[p..i]).Some? && ids[..n] == before + BytesOf(t, s[p..i]).value
    {
      var v := t.Find(Fallback(s[i]));
      assert s[p..i + 1][..i - p] == s[p..i];
      if v.None? {
        NoBytes(t, s, p, i, q);
        return false, n;
      }
      ids[n] := v.value;
      n := n + 1;
    }
    ok := true;
  }

  /** Encodes a piece. */
  method Piece(t: Tokenizer, s: seq<byte>) returns (out: Outcome)
    requires t.Valid() && |s| < NIL
    ensures out == Encode(t, s)
  {
    hide Tokenizer.Valid, BytesOf, Next, MergeAll;
    var slots := if |s| > 0 then |s| else 1;
    var ids, next, prev := new nat[slots], new nat[slots], new nat[slots];
    var heap := new Cand[slots * 3];
    var k: nat := 0;
    var p: nat := 0;
    assert ids[..k] == [];
    while p < |s|
      invariant k <= p <= |s|
      invariant t.Known(ids[..k])
      invariant Start(t, s, p, ids[..k]) == Start(t, s, 0, [])
      decreases |s| - p
    {
      var d := NextCp(s, p);
      if d.Invalid? {
        return InvalidUtf8;
      }
      var q := d.end;
      assert EndAt(s, p) == Some(q);
      var v := t.Find(s[p..q]);
      ghost var before := ids[..k];
      if v.Some? {
        ids[k] := v.value;
        k := k + 1;
        assert ids[..k] == before + [v.value];
      } else {
        var ok;
        ok, k := PushBytes(t, s, p, q, ids, k);
        if !ok {
          return FallbackAbsent;
        }
      }
      p := q;
    }
    out := MergeLoop(t, ids, next, prev, heap, k);
  }
}
