/** UTF-8 encoding and decoding of one code point (src/foundation.inc:808-850). */
module Utf8 {
  import opened Wrappers

  type byte = x: int | 0 <= x < 256

  /** A decoded code point and the position after it, or the failure the decoder dies with. */
  datatype Decoded = Cp(cp: nat, end: nat) | Invalid

  /** The Unicode scalar values: code points that are not surrogates. */
  predicate Scalar(c: nat) {
    c <= 0x10FFFF && !(0xD800 <= c <= 0xDFFF)
  }

  /** The bytes written for a code point. */
  function Put(c: nat): (r: seq<byte>)
    requires c <= 0x10FFFF
    ensures 1 <= |r| <= 4
  {
    if c <= 0x7F then [c]
    else if c <= 0x7FF then [0xC0 + c / 64, 0x80 + c % 64]
    else if c <= 0xFFFF then [0xE0 + c / 4096, 0x80 + c / 64 % 64, 0x80 + c % 64]
    else [0xF0 + c / 0x40000, 0x80 + c / 4096 % 64, 0x80 + c / 64 % 64, 0x80 + c % 64]
  }

  /** How many continuation bytes a lead byte asks for, or -1. */
  function More(c: byte): (m: int)
    ensures -1 <= m <= 3
  {
    if c >= 0xF0 then 3 else if c >= 0xE0 then 2 else if c >= 0xC2 then 1 else -1
  }

  /** The bits a lead byte contributes: `c & (0x7f >> more)`. */
  function LeadBits(c: byte, more: nat): (v: nat)
    requires more <= 3
  {
    c % (if more == 1 then 64 else if more == 2 then 32 else if more == 3 then 16 else 128)
  }

  predicate Continuation(q: byte) {
    0x80 <= q < 0xC0
  }

  /** Accumulates `more` continuation bytes from `i` on top of `v`. */
  function Tail(s: seq<byte>, i: nat, more: nat, v: nat): Option<nat>
    requires i + more <= |s|
    decreases more
  {
    if more == 0 then Some(v)
    else if !Continuation(s[i]) then None
    else Tail(s, i + 1, more - 1, v * 64 + s[i] % 64)
  }

  /** Over-long forms, values past U+10FFFF and surrogates are refused. */
  predicate InRange(more: int, v: nat) {
    && !((more == 1 && v < 0x80) || (more == 2 && v < 0x800) || (more == 3 && v < 0x10000))
    && Scalar(v)
  }

  /** What decoding one code point at `i` gives. */
  function Next(s: seq<byte>, i: nat): Decoded
    requires i < |s|
  {
    var c := s[i];
    if c < 0x80 then Cp(c, i + 1)
    else
      var more := More(c);
      if more < 0 || i + more >= |s| then Invalid
      else
        match Tail(s, i + 1, more, LeadBits(c, more))
        case None => Invalid
        case Some(v) => if InRange(more, v) then Cp(v, i + 1 + more) else Invalid
  }

  /** The decoder: one loop over the continuation bytes, advancing the cursor. */
  method NextCp(s: seq<byte>, i: nat) returns (d: Decoded)
    requires i < |s|
    ensures d == Next(s, i)
  {
    var p := i + 1;
    var c := s[i];
    if c < 0x80 {
      return Cp(c, p);
    }
    var more := More(c);
    if more < 0 || i + more >= |s| {
      return Invalid;
    }
    var v: nat := LeadBits(c, more);
    for k := 0 to more
      invariant p == i + 1 + k
      invariant Tail(s, p, more - k, v) == Tail(s, i + 1, more, LeadBits(c, more))
    {
      var q := s[p];
      p := p + 1;
      if !Continuation(q) {
        return Invalid;
      }
      v := v * 64 + q % 64;
    }
    if !InRange(more, v) {
      return Invalid;
    }
    return Cp(v, p);
  }

  lemma TailIs(s: seq<byte>, i: nat, more: nat, v: nat)
    requires i + more <= |s| && more <= 3
    decreases more
    ensures Tail(s, i, more, v) ==
            if exists k :: i <= k < i + more && !Continuation(s[k]) then None
            else if more == 0 then Some(v)
            else if more == 1 then Some(v * 64 + s[i] % 64)
            else if more == 2 then Some((v * 64 + s[i] % 64) * 64 + s[i + 1] % 64)
            else Some(((v * 64 + s[i] % 64) * 64 + s[i + 1] % 64) * 64 + s[i + 2] % 64)
  {
    if more > 0 && Continuation(s[i]) {
      TailIs(s, i + 1, more - 1, v * 64 + s[i] % 64);
    }
  }

  /** Shifting by twelve and eighteen bits is shifting by six, twice and three times. */
  lemma Shifts(c: nat)
    ensures c / 4096 == c / 64 / 64 && c / 0x40000 == c / 64 / 64 / 64
  {
  }

  /** The value that a lead byte and its continuation bytes spell. */
  function Spelled(z: seq<byte>): (v: nat)
    requires 2 <= |z| <= 4
  {
    var a := LeadBits(z[0], |z| - 1) * 64 + z[1] % 64;
    if |z| == 2 then a
    else if |z| == 3 then a * 64 + z[2] % 64
    else (a * 64 + z[2] % 64) * 64 + z[3] % 64
  }

  lemma NextIs(s: seq<byte>, i: nat, z: seq<byte>)
    requires 2 <= |z| <= 4 && i + |z| <= |s| && s[i..i + |z|] == z && More(z[0]) == |z| - 1
    ensures Next(s, i) == if (forall k | 1 <= k < |z| :: Continuation(z[k])) && InRange(|z| - 1, Spelled(z))
                          then Cp(Spelled(z), i + |z|) else Invalid
  {
    assert forall k {:trigger z[k]} :: 0 <= k < |z| ==> s[i..i + |z|][k] == s[i + k];
    assert forall k {:trigger s[k]} :: i <= k < i + |z| ==> s[k] == z[k - i];
    TailIs(s, i + 1, |z| - 1, LeadBits(s[i], |z| - 1));
  }

  lemma DivMod64(q: nat, r: nat)
    requires r < 64
    ensures (q * 64 + r) / 64 == q && (q * 64 + r) % 64 == r
  {
  }

  lemma LeadBitsOf(h: nat, more: nat)
    requires (more == 1 && 2 <= h < 32) || (more == 2 && h < 16) || (more == 3 && h < 16)
    ensures var c := h + (if more == 1 then 0xC0 else if more == 2 then 0xE0 else 0xF0);
            More(c) == more && LeadBits(c, more) == h
  {
  }

  lemma SpelledPut(c: nat)
    requires 0x7F < c <= 0x10FFFF
    ensures var z := Put(c);
            |z| >= 2 && More(z[0]) == |z| - 1 && Spelled(z) == c && forall k | 1 <= k < |z| :: Continuation(z[k])
  {
    var z := Put(c);
    var (a, b) := (c / 64, c / 64 / 64);
    Shifts(c);
    assert forall k | 1 <= k < |z| :: Continuation(z[k]);
    assert z[|z| - 1] % 64 == c % 64 by { ContinuationBits(z[|z| - 1]); }
    if c <= 0x7FF {
      LeadBitsOf(a, 1);
    } else if c <= 0xFFFF {
      LeadBitsOf(b, 2);
      ContinuationBits(z[1]);
      assert Spelled(z) == (b * 64 + a % 64) * 64 + c % 64;
    } else {
      LeadBitsOf(b / 64, 3);
      ContinuationBits(z[1]);
      ContinuationBits(z[2]);
      assert Spelled(z) == ((b / 64 * 64 + b % 64) * 64 + a % 64) * 64 + c % 64;
    }
  }

  lemma PutSpelledTwo(h: nat, x: nat)
    requires 2 <= h < 32 && x < 64
    ensures Put(h * 64 + x) == [0xC0 + h, 0x80 + x]
  {
    DivMod64(h, x);
  }

  lemma PutSpelledThree(h: nat, x: nat, y: nat)
    requires h < 16 && x < 64 && y < 64 && 0x800 <= (h * 64 + x) * 64 + y
    ensures Put((h * 64 + x) * 64 + y) == [0xE0 + h, 0x80 + x, 0x80 + y]
  {
    Shifts((h * 64 + x) * 64 + y);
    DivMod64(h, x);
    DivMod64(h * 64 + x, y);
  }

  lemma PutSpelledFour(h: nat, x: nat, y: nat, w: nat)
    requires x < 64 && y < 64 && w < 64 && 0x10000 <= ((h * 64 + x) * 64 + y) * 64 + w <= 0x10FFFF
    ensures h < 8 && Put(((h * 64 + x) * 64 + y) * 64 + w) == [0xF0 + h, 0x80 + x, 0x80 + y, 0x80 + w]
  {
    Shifts(((h * 64 + x) * 64 + y) * 64 + w);
    DivMod64(h, x);
    DivMod64(h * 64 + x, y);
    DivMod64((h * 64 + x) * 64 + y, w);
  }

  lemma ContinuationBits(q: byte)
    requires Continuation(q)
    ensures q == 0x80 + q % 64
  {
  }

  lemma SpelledByLength(z: seq<byte>)
    requires 2 <= |z| <= 4 && More(z[0]) == |z| - 1 && InRange(|z| - 1, Spelled(z))
    ensures var h := LeadBits(z[0], |z| - 1);
            && (|z| == 2 ==> 2 <= h < 32 && z[0] == 0xC0 + h && Spelled(z) == h * 64 + z[1] % 64)
            && (|z| == 3 ==> h < 16 && z[0] == 0xE0 + h && 0x800 <= Spelled(z)
                             && Spelled(z) == (h * 64 + z[1] % 64) * 64 + z[2] % 64)
            && (|z| == 4 ==> z[0] == 0xF0 + h && 0x10000 <= Spelled(z) <= 0x10FFFF
                             && Spelled(z) == ((h * 64 + z[1] % 64) * 64 + z[2] % 64) * 64 + z[3] % 64)
  {
  }

  lemma PutSpelled(z: seq<byte>)
    requires 2 <= |z| <= 4 && More(z[0]) == |z| - 1 && InRange(|z| - 1, Spelled(z))
    requires forall k | 1 <= k < |z| :: Continuation(z[k])
    ensures Put(Spelled(z)) == z
  {
    hide Put, Scalar, Spelled;
    var h := LeadBits(z[0], |z| - 1);
    SpelledByLength(z);
    ContinuationBits(z[1]);
    if |z| == 2 {
      assert z == [0xC0 + h, 0x80 + z[1] % 64];
      PutSpelledTwo(h, z[1] % 64);
    } else if |z| == 3 {
      ContinuationBits(z[2]);
      assert z == [0xE0 + h, 0x80 + z[1] % 64, 0x80 + z[2] % 64];
      PutSpelledThree(h, z[1] % 64, z[2] % 64);
    } else {
      ContinuationBits(z[2]);
      ContinuationBits(z[3]);
      PutSpelledFour(h, z[1] % 64, z[2] % 64, z[3] % 64);
      assert z == [0xF0 + h, 0x80 + z[1] % 64, 0x80 + z[2] % 64, 0x80 + z[3] % 64];
    }
  }

  /** Decoding what was encoded, at any place in a string, gives the code point back. */
  lemma NextOfPut(s: seq<byte>, i: nat, c: nat)
    requires Scalar(c) && i + |Put(c)| <= |s| && s[i..i + |Put(c)|] == Put(c)
    ensures Next(s, i) == Cp(c, i + |Put(c)|)
  {
    if c > 0x7F {
      SpelledPut(c);
      NextIs(s, i, Put(c));
    } else {
      assert s[i] == s[i..i + 1][0];
    }
  }

  /** Whatever the decoder accepts is the encoding of the scalar value it returns. */
  lemma PutOfNext(s: seq<byte>, i: nat)
    requires i < |s| && Next(s, i).Cp?
    ensures var d := Next(s, i);
            Scalar(d.cp) && i < d.end <= |s| && s[i..d.end] == Put(d.cp)
  {
    if s[i] >= 0x80 {
      var z := s[i..i + 1 + More(s[i])];
      NextIs(s, i, z);
      PutSpelled(z);
    }
  }

  /** The decoder accepts exactly the encodings of scalar values. */
  lemma NextAcceptsExactlyPut(s: seq<byte>, i: nat, c: nat, end: nat)
    requires i < |s|
    ensures Next(s, i) == Cp(c, end) <==>
            Scalar(c) && end == i + |Put(c)| && end <= |s| && s[i..end] == Put(c)
  {
    if Next(s, i) == Cp(c, end) {
      PutOfNext(s, i);
    }
    if Scalar(c) && end == i + |Put(c)| && end <= |s| && s[i..end] == Put(c) {
      NextOfPut(s, i, c);
    }
  }
}
