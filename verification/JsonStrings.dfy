/** JSON string escapes (RFC 8259, section 7): writing them (jb.c:7338-7370), scanning them (src/json.inc:71-94) and
    reading them back (src/json.inc:263-330). */
module JsonStrings {
  import opened Wrappers
  import opened Utf8

  const QUOTE: byte := 0x22
  const BACKSLASH: byte := 0x5C
  const U: byte := 0x75

  function HexDigit(v: nat): byte
    requires v < 16
  {
    if v < 10 then 0x30 + v else 0x61 + v - 10
  }

  /** Four lower-case hexadecimal digits. */
  function Hex4(v: nat): (z: seq<byte>)
    requires v < 0x10000
    ensures |z| == 4
  {
    [HexDigit(v / 4096), HexDigit(v / 256 % 16), HexDigit(v / 16 % 16), HexDigit(v % 16)]
  }

  predicate IsHex(b: byte) {
    0x30 <= b <= 0x39 || 0x41 <= b <= 0x46 || 0x61 <= b <= 0x66
  }

  /** A hexadecimal digit's value, of either case. */
  function HexValue(b: byte): (v: nat)
    requires IsHex(b)
    ensures v < 16
  {
    if b <= 0x39 then b - 0x30 else if b <= 0x46 then b - 0x41 + 10 else b - 0x61 + 10
  }

  predicate AllHex(z: seq<byte>) {
    forall k | 0 <= k < |z| :: IsHex(z[k])
  }

  function HexOf(z: seq<byte>): (v: nat)
    requires |z| == 4 && AllHex(z)
    ensures v < 0x10000
  {
    ((HexValue(z[0]) * 16 + HexValue(z[1])) * 16 + HexValue(z[2])) * 16 + HexValue(z[3])
  }

  /** The letter of a two-character escape, for the characters that have one. */
  function Short(c: nat): Option<byte> {
    if c == 0x22 || c == 0x5C then Some(c)
    else if c == 8 then Some(0x62)
    else if c == 12 then Some(0x66)
    else if c == 10 then Some(0x6E)
    else if c == 13 then Some(0x72)
    else if c == 9 then Some(0x74)
    else None
  }

  /** What is written for a code point. */
  function EscapeCp(c: nat, ascii: bool): (z: seq<byte>)
    requires Scalar(c)
    ensures |z| > 0
  {
    if Short(c).Some? then [BACKSLASH, Short(c).value]
    else if c < 32 || (ascii && c > 127) then
      if c <= 0xFFFF then [BACKSLASH, U] + Hex4(c)
      else [BACKSLASH, U] + Hex4(0xD800 + (c - 0x10000) / 1024) + ([BACKSLASH, U] + Hex4(0xDC00 + (c - 0x10000) % 1024))
    else Put(c)
  }

  function Then(z: seq<byte>, rest: Option<seq<byte>>): Option<seq<byte>> {
    if rest.None? then None else Some(z + rest.value)
  }

  /** The escaped form of a string from byte `i` on, without its quotes, if it is well-formed UTF-8. */
  function EscapeFrom(s: seq<byte>, i: nat, ascii: bool): Option<seq<byte>>
    requires i <= |s|
    decreases |s| - i
  {
    if i == |s| then Some([])
    else
      match Next(s, i)
      case Invalid => None
      case Cp(c, end) =>
        PutOfNext(s, i);
        Then(EscapeCp(c, ascii), EscapeFrom(s, end, ascii))
  }

  function Escape(s: seq<byte>, ascii: bool): Option<seq<byte>> {
    EscapeFrom(s, 0, ascii)
  }

  /** What is written for the code point at `s[at..end]`. */
  method WriteCp(s: seq<byte>, at: nat, end: nat, c: nat, ascii: bool) returns (z: seq<byte>)
    requires Scalar(c) && at <= end <= |s| && s[at..end] == Put(c)
    ensures z == EscapeCp(c, ascii)
  {
    var cp := c;
    if cp == 0x22 || cp == 0x5C {
      z := [BACKSLASH, cp];
    } else if cp == 8 {
      z := [BACKSLASH, 0x62];
    } else if cp == 12 {
      z := [BACKSLASH, 0x66];
    } else if cp == 10 {
      z := [BACKSLASH, 0x6E];
    } else if cp == 13 {
      z := [BACKSLASH, 0x72];
    } else if cp == 9 {
      z := [BACKSLASH, 0x74];
    } else if cp < 32 || (ascii && cp > 127) {
      if cp <= 0xFFFF {
        z := [BACKSLASH, U] + Hex4(cp);
      } else {
        cp := cp - 0x10000;
        z := [BACKSLASH, U] + Hex4(0xD800 + cp / 1024) + ([BACKSLASH, U] + Hex4(0xDC00 + cp % 1024));
      }
    } else {
      z := s[at..end];
    }
  }

  /** One step of the escaped form. */
  lemma EscapeStep(s: seq<byte>, i: nat, ascii: bool)
    requires i < |s|
    ensures Next(s, i).Invalid? ==> EscapeFrom(s, i, ascii).None?
    ensures Next(s, i).Cp? ==>
      var d := Next(s, i);
      Scalar(d.cp) && i < d.end <= |s| && s[i..d.end] == Put(d.cp)
      && EscapeFrom(s, i, ascii) == Then(EscapeCp(d.cp, ascii), EscapeFrom(s, d.end, ascii))
  {
    hide Next, EscapeCp, Put;
    if Next(s, i).Cp? {
      PutOfNext(s, i);
    }
  }

  /** Writes a quoted string after what is in the buffer. */
  method WriteString(b: seq<byte>, s: seq<byte>, ascii: bool) returns (ok: bool, out: seq<byte>)
    ensures ok <==> Escape(s, ascii).Some?
    ensures ok ==> out == b + [QUOTE] + Escape(s, ascii).value + [QUOTE]
  {
    hide Next, EscapeFrom, EscapeCp, Put, Scalar;
    out := b + [QUOTE];
    var i: nat := 0;
    ghost var done: seq<byte> := [];
    NothingThen(EscapeFrom(s, 0, ascii));
    while i < |s|
      invariant i <= |s| && out == b + [QUOTE] + done
      invariant EscapeFrom(s, 0, ascii) == Then(done, EscapeFrom(s, i, ascii))
      decreases |s| - i
    {
      var at := i;
      EscapeStep(s, at, ascii);
      var d := NextCp(s, i);
      if d.Invalid? {
        return false, [];
      }
      i := d.end;
      var z := WriteCp(s, at, i, d.cp, ascii);
      ThenThen(done, z, EscapeFrom(s, i, ascii));
      out := out + z;
      done := done + z;
    }
    EscapeEnd(s, ascii);
    return true, out + [QUOTE];
  }

  lemma NothingThen(rest: Option<seq<byte>>)
    ensures Then([], rest) == rest
  {
    if rest.Some? {
      assert [] + rest.value == rest.value;
    }
  }

  lemma ThenThen(x: seq<byte>, y: seq<byte>, rest: Option<seq<byte>>)
    ensures Then(x, Then(y, rest)) == Then(x + y, rest)
  {
    if rest.Some? {
      assert x + (y + rest.value) == (x + y) + rest.value;
    }
  }

  lemma EscapeEnd(s: seq<byte>, ascii: bool)
    ensures EscapeFrom(s, |s|, ascii) == Some([])
  {
  }

  predicate EscapeLetter(b: byte) {
    b == 0x22 || b == 0x5C || b == 0x2F || b == 0x62 || b == 0x66 || b == 0x6E || b == 0x72 || b == 0x74
  }

  /** Where a string token that starts at `i` ends: the place of its closing quote. */
  function Scan(s: seq<byte>, i: nat): Option<nat>
    decreases |s| - i
  {
    if i >= |s| then None
    else if s[i] == QUOTE then Some(i)
    else if s[i] == BACKSLASH then
      if i + 1 >= |s| then None
      else if s[i + 1] == U then
        if i + 6 > |s| || exists k | i + 2 <= k < i + 6 :: !IsHex(s[k]) then None else Scan(s, i + 6)
      else if !EscapeLetter(s[i + 1]) then None
      else Scan(s, i + 2)
    else if s[i] < 0x20 then None
    else Scan(s, i + 1)
  }

  /** The scanner's loop. */
  method ScanString(s: seq<byte>, i: nat) returns (end: Option<nat>)
    ensures end == Scan(s, i)
  {
    var pos := i;
    while pos < |s|
      invariant Scan(s, pos) == Scan(s, i)
      decreases |s| - pos
    {
      var at := pos;
      var c := s[pos];
      pos := pos + 1;
      if c == QUOTE {
        return Some(pos - 1);
      }
      if c == BACKSLASH {
        if pos >= |s| {
          return None;
        }
        c := s[pos];
        pos := pos + 1;
        if c == U {
          for k := 0 to 4
            invariant pos == at + 2 + k <= |s|
            invariant forall j | at + 2 <= j < pos :: IsHex(s[j])
          {
            if pos >= |s| {
              return None;
            }
            pos := pos + 1;
            if !IsHex(s[pos - 1]) {
              return None;
            }
          }
        } else if !EscapeLetter(c) {
          return None;
        }
      } else if c < 0x20 {
        return None;
      }
    }
    return None;
  }

  /** The bytes that one escape letter stands for. */
  function LetterOf(b: byte): byte {
    if b == 0x62 then 8 else if b == 0x66 then 12 else if b == 0x6E then 10 else if b == 0x72 then 13
    else if b == 0x74 then 9 else b
  }

  /** The text of a scanned token from `i` to `end`, before it is checked to be UTF-8: failing on lone surrogates and
      NUL. */
  function Unescaped(s: seq<byte>, i: nat, end: nat): (z: Option<seq<byte>>)
    requires i <= end < |s| && Scan(s, i) == Some(end)
    ensures z.Some? ==> |z.value| <= end - i
    decreases end - i
  {
    if i == end then Some([])
    else if s[i] != BACKSLASH then Then([s[i]], Unescaped(s, i + 1, end))
    else
      ScanEnds(s, i);
      if s[i + 1] != U then Then([LetterOf(s[i + 1])], Unescaped(s, i + 2, end))
      else
        var u := HexOf(s[i + 2..i + 6]);
        if 0xD800 <= u <= 0xDBFF then
          if i + 11 >= end || s[i + 6] != BACKSLASH || s[i + 7] != U then None
          else
            ScanEnds(s, i + 6);
            var v := HexOf(s[i + 8..i + 12]);
            if v < 0xDC00 || v > 0xDFFF then None
            else Then(Put(0x10000 + (u - 0xD800) * 1024 + (v - 0xDC00)), Unescaped(s, i + 12, end))
        else if 0xDC00 <= u <= 0xDFFF || u == 0 then None
        else Then(Put(u), Unescaped(s, i + 6, end))
  }

  lemma ScanEnds(s: seq<byte>, i: nat)
    requires Scan(s, i).Some?
    ensures i <= Scan(s, i).value < |s| && s[Scan(s, i).value] == QUOTE
    ensures i < |s| && s[i] == BACKSLASH && s[i + 1] != U ==> Scan(s, i) == Scan(s, i + 2) && i + 2 <= Scan(s, i).value
    ensures i < |s| && s[i] == BACKSLASH && s[i + 1] == U ==>
      Scan(s, i) == Scan(s, i + 6) && i + 6 <= Scan(s, i).value && AllHex(s[i + 2..i + 6])
    decreases |s| - i
  {
    if s[i] == QUOTE {
    } else if s[i] == BACKSLASH {
      ScanEnds(s, if s[i + 1] == U then i + 6 else i + 2);
    } else {
      ScanEnds(s, i + 1);
    }
  }

  /** Well-formed UTF-8 from byte `i` on. */
  predicate WellFormed(s: seq<byte>, i: nat)
    requires i <= |s|
    decreases |s| - i
  {
    i == |s| || (Next(s, i).Cp? && (PutOfNext(s, i); WellFormed(s, Next(s, i).end)))
  }

  /** A string token's text. */
  function TextOf(s: seq<byte>, i: nat, end: nat): Option<seq<byte>>
    requires i <= end < |s| && Scan(s, i) == Some(end)
  {
    var z := Unescaped(s, i, end);
    if z.Some? && WellFormed(z.value, 0) then z else None
  }

  lemma {:induction false} EscapesWellFormed(s: seq<byte>, i: nat, ascii: bool)
    requires i <= |s|
    ensures EscapeFrom(s, i, ascii).Some? <==> WellFormed(s, i)
    decreases |s| - i
  {
    if i < |s| && Next(s, i).Cp? {
      EscapeStep(s, i, ascii);
      EscapesWellFormed(s, Next(s, i).end, ascii);
    }
  }

  lemma HexDigits(v: nat)
    requires v < 16
    ensures IsHex(HexDigit(v)) && HexValue(HexDigit(v)) == v
  {
  }

  lemma HexRoundTrip(v: nat)
    requires v < 0x10000
    ensures AllHex(Hex4(v)) && HexOf(Hex4(v)) == v
  {
    hide HexDigit, HexValue, IsHex;
    HexDigits(v / 4096);
    HexDigits(v / 256 % 16);
    HexDigits(v / 16 % 16);
    HexDigits(v % 16);
    FourDigits(v);
  }

  lemma FourDigits(v: nat)
    requires v < 0x10000
    ensures ((v / 4096 * 16 + v / 256 % 16) * 16 + v / 16 % 16) * 16 + v % 16 == v && v / 4096 < 16
  {
    assert v / 256 == v / 4096 * 16 + v / 256 % 16 && v / 16 == v / 256 * 16 + v / 16 % 16;
  }

  /** Bytes that a string holds as they are. */
  predicate Plain(b: byte) {
    b >= 0x20 && b != QUOTE && b != BACKSLASH
  }

  lemma {:induction false} PlainRun(z: seq<byte>, i: nat, n: nat)
    requires i + n <= |z| && forall k | i <= k < i + n :: Plain(z[k])
    ensures Scan(z, i) == Scan(z, i + n)
    ensures forall end | i + n <= end < |z| && Scan(z, i) == Some(end) ::
      Unescaped(z, i, end) == Then(z[i..i + n], Unescaped(z, i + n, end))
    decreases n
  {
    if n == 0 {
      assert z[i..i] == [];
      forall end | i <= end < |z| && Scan(z, i) == Some(end)
        ensures Unescaped(z, i, end) == Then(z[i..i], Unescaped(z, i, end))
      {
        NothingThen(Unescaped(z, i, end));
      }
    } else {
      PlainRun(z, i + 1, n - 1);
      assert z[i..i + n] == [z[i]] + z[i + 1..i + n];
      forall end | i + n <= end < |z| && Scan(z, i) == Some(end)
        ensures Unescaped(z, i, end) == Then(z[i..i + n], Unescaped(z, i + n, end))
      {
        ThenThen([z[i]], z[i + 1..i + n], Unescaped(z, i + n, end));
      }
    }
  }

  /** Place `i` of `z` holds `e`. */
  predicate Reads(z: seq<byte>, i: nat, e: seq<byte>) {
    i + |e| <= |z| && z[i..i + |e|] == e
  }

  /** What reading back the escape of one code point gives. */
  ghost predicate ReadBack(z: seq<byte>, i: nat, e: seq<byte>, text: seq<byte>) {
    Scan(z, i) == Scan(z, i + |e|)
    && forall end | i + |e| <= end < |z| && Scan(z, i) == Some(end) ::
         Unescaped(z, i, end) == Then(text, Unescaped(z, i + |e|, end))
  }

  lemma ShortReadBack(z: seq<byte>, i: nat, c: nat)
    requires Short(c).Some? && Reads(z, i, [BACKSLASH, Short(c).value])
    ensures ReadBack(z, i, [BACKSLASH, Short(c).value], [c])
  {
    assert z[i..i + 2][0] == z[i] && z[i..i + 2][1] == z[i + 1];
    assert EscapeLetter(Short(c).value) && Short(c).value != U && LetterOf(Short(c).value) == c;
  }

  lemma HexAt(z: seq<byte>, i: nat, v: nat)
    requires v < 0x10000 && Reads(z, i, [BACKSLASH, U] + Hex4(v))
    ensures i + 6 <= |z| && z[i] == BACKSLASH && z[i + 1] == U && z[i + 2..i + 6] == Hex4(v)
    ensures Scan(z, i) == Scan(z, i + 6)
    ensures AllHex(z[i + 2..i + 6]) && HexOf(z[i + 2..i + 6]) == v
  {
    var e := [BACKSLASH, U] + Hex4(v);
    assert z[i] == z[i..i + 6][0] == e[0] && z[i + 1] == z[i..i + 6][1] == e[1];
    assert z[i + 2..i + 6] == z[i..i + 6][2..] == e[2..] == Hex4(v);
    HexRoundTrip(v);
    assert forall k | i + 2 <= k < i + 6 :: IsHex(z[k]) by {
      forall k | i + 2 <= k < i + 6
        ensures IsHex(z[k])
      {
        assert z[k] == z[i + 2..i + 6][k - (i + 2)];
      }
    }
  }

  lemma HexReadBack(z: seq<byte>, i: nat, c: nat)
    requires Scalar(c) && 0 < c <= 0xFFFF && Reads(z, i, [BACKSLASH, U] + Hex4(c))
    ensures ReadBack(z, i, [BACKSLASH, U] + Hex4(c), Put(c))
  {
    hide Hex4, HexOf, Put;
    HexAt(z, i, c);
  }

  lemma PairReadBack(z: seq<byte>, i: nat, c: nat, u: nat, v: nat)
    requires 0x10000 <= c <= 0x10FFFF && u == 0xD800 + (c - 0x10000) / 1024 && v == 0xDC00 + (c - 0x10000) % 1024
    requires u < 0x10000 && v < 0x10000 && Reads(z, i, [BACKSLASH, U] + Hex4(u) + ([BACKSLASH, U] + Hex4(v)))
    ensures ReadBack(z, i, [BACKSLASH, U] + Hex4(u) + ([BACKSLASH, U] + Hex4(v)), Put(c))
  {
    hide Hex4, HexOf, Put;
    var e, f := [BACKSLASH, U] + Hex4(u), [BACKSLASH, U] + Hex4(v);
    assert z[i..i + 6] == z[i..i + 12][..6] == (e + f)[..6] == e;
    assert z[i + 6..i + 12] == z[i..i + 12][6..] == (e + f)[6..] == f;
    HexAt(z, i, u);
    HexAt(z, i + 6, v);
    assert 0xD800 <= u <= 0xDBFF && 0xDC00 <= v <= 0xDFFF;
    assert 0x10000 + (u - 0xD800) * 1024 + (v - 0xDC00) == c;
  }

  /** No byte of a character beyond ASCII is an ASCII byte. */
  lemma PutIsPlain(c: nat)
    requires Scalar(c) && c >= 32 && Short(c).None?
    ensures forall k | 0 <= k < |Put(c)| :: Plain(Put(c)[k])
  {
  }

  lemma PlainReadBack(z: seq<byte>, i: nat, c: nat)
    requires Scalar(c) && c >= 32 && Short(c).None? && Reads(z, i, Put(c))
    ensures ReadBack(z, i, Put(c), Put(c))
  {
    hide Put, Short;
    PutIsPlain(c);
    assert forall k | i <= k < i + |Put(c)| :: z[k] == z[i..i + |Put(c)|][k - i];
    PlainRun(z, i, |Put(c)|);
  }

  /** Reading back what was written for any code point but NUL gives its bytes, wherever it stands. */
  lemma EscapeReadBack(z: seq<byte>, i: nat, c: nat, ascii: bool)
    requires Scalar(c) && c > 0 && Reads(z, i, EscapeCp(c, ascii))
    ensures ReadBack(z, i, EscapeCp(c, ascii), Put(c))
  {
    hide Hex4, ReadBack, Reads;
    if Short(c).Some? {
      ShortReadBack(z, i, c);
    } else if c < 32 || (ascii && c > 127) {
      if c <= 0xFFFF {
        HexReadBack(z, i, c);
      } else {
        PairReadBack(z, i, c, 0xD800 + (c - 0x10000) / 1024, 0xDC00 + (c - 0x10000) % 1024);
      }
    } else {
      PlainReadBack(z, i, c);
    }
  }

  /** An escaped string between quotes is scanned to its closing quote and read back whole, from any character on. */
  lemma {:induction false} ReadBackFrom(s: seq<byte>, k: nat, ascii: bool, z: seq<byte>, i: nat)
    requires k <= |s| && EscapeFrom(s, k, ascii).Some? && forall j | 0 <= j < |s| :: s[j] != 0
    requires Reads(z, i, EscapeFrom(s, k, ascii).value + [QUOTE])
    ensures Scan(z, i) == Some(i + |EscapeFrom(s, k, ascii).value|)
    ensures Unescaped(z, i, i + |EscapeFrom(s, k, ascii).value|) == Some(s[k..])
    decreases |s| - k
  {
    hide Next, Put, EscapeCp, Scalar, EscapeFrom, Unescaped, Scan, Reads;
    var e := EscapeFrom(s, k, ascii).value;
    if k == |s| {
      EscapeEnd(s, ascii);
      assert s[k..] == [] && e + [QUOTE] == [QUOTE];
      QuoteEnds(z, i);
    } else {
      EscapeStep(s, k, ascii);
      var d := Next(s, k);
      var f, rest := EscapeCp(d.cp, ascii), EscapeFrom(s, d.end, ascii).value;
      assert e + [QUOTE] == f + (rest + [QUOTE]);
      ReadsParts(z, i, f, rest + [QUOTE]);
      NotNul(s, k);
      EscapeReadBack(z, i, d.cp, ascii);
      ReadBackFrom(s, d.end, ascii, z, i + |f|);
      assert s[k..] == s[k..d.end] + s[d.end..];
    }
  }

  lemma QuoteEnds(z: seq<byte>, i: nat)
    requires Reads(z, i, [QUOTE])
    ensures i < |z| && Scan(z, i) == Some(i) && Unescaped(z, i, i) == Some([])
  {
    assert z[i] == z[i..i + 1][0];
  }

  lemma ReadsParts(z: seq<byte>, i: nat, e: seq<byte>, f: seq<byte>)
    requires Reads(z, i, e + f)
    ensures Reads(z, i, e) && Reads(z, i + |e|, f)
  {
    assert z[i..i + |e|] == z[i..i + |e + f|][..|e|] == e;
    assert z[i + |e|..i + |e| + |f|] == z[i..i + |e + f|][|e|..] == f;
  }

  lemma NotNul(s: seq<byte>, k: nat)
    requires k < |s| && s[k] != 0 && Next(s, k).Cp?
    ensures Next(s, k).cp > 0
  {
    PutOfNext(s, k);
    assert s[k] == s[k..Next(s, k).end][0];
  }

  /** A NUL-free string is escaped exactly if it is well-formed UTF-8, and is then read back unchanged, in either mode
      and whatever follows. */
  lemma RoundTrip(s: seq<byte>, ascii: bool, z: seq<byte>, i: nat)
    requires forall j | 0 <= j < |s| :: s[j] != 0
    ensures Escape(s, ascii).Some? <==> WellFormed(s, 0)
    ensures Escape(s, ascii).Some? && Reads(z, i, Escape(s, ascii).value + [QUOTE]) ==>
      var end := i + |Escape(s, ascii).value|;
      Scan(z, i) == Some(end) && end < |z| && TextOf(z, i, end) == Some(s)
  {
    hide EscapeFrom, Unescaped, Scan, WellFormed, Next, Put, EscapeCp;
    EscapesWellFormed(s, 0, ascii);
    if Escape(s, ascii).Some? && Reads(z, i, Escape(s, ascii).value + [QUOTE]) {
      ReadBackFrom(s, 0, ascii, z, i);
      assert s[0..] == s;
    }
  }

  lemma {:induction false} UnescapedHasNoNul(s: seq<byte>, i: nat, end: nat)
    requires i <= end < |s| && Scan(s, i) == Some(end) && Unescaped(s, i, end).Some?
    ensures 0 !in Unescaped(s, i, end).value
    decreases end - i
  {
    if i < end {
      ScanEnds(s, i);
      var z := Unescaped(s, i, end).value;
      if s[i] != BACKSLASH {
        UnescapedHasNoNul(s, i + 1, end);
      } else if s[i + 1] != U {
        UnescapedHasNoNul(s, i + 2, end);
      } else {
        var u := HexOf(s[i + 2..i + 6]);
        if 0xD800 <= u <= 0xDBFF {
          ScanEnds(s, i + 6);
          PutHasNoNul(0x10000 + (u - 0xD800) * 1024 + (HexOf(s[i + 8..i + 12]) - 0xDC00));
          UnescapedHasNoNul(s, i + 12, end);
        } else {
          PutHasNoNul(u);
          UnescapedHasNoNul(s, i + 6, end);
        }
      }
    }
  }

  lemma PutHasNoNul(c: nat)
    requires 0 < c <= 0x10FFFF
    ensures 0 !in Put(c)
  {
  }

  /** Whatever a token decodes to can be written again, in either mode. */
  lemma DecodedCanBeWritten(s: seq<byte>, i: nat, end: nat, ascii: bool)
    requires i <= end < |s| && Scan(s, i) == Some(end) && TextOf(s, i, end).Some?
    ensures Escape(TextOf(s, i, end).value, ascii).Some? && 0 !in TextOf(s, i, end).value
  {
    UnescapedHasNoNul(s, i, end);
    EscapesWellFormed(TextOf(s, i, end).value, 0, ascii);
  }

  lemma UnescapedStep(s: seq<byte>, i: nat, end: nat)
    requires i < end < |s| && Scan(s, i) == Some(end)
    ensures s[i] != BACKSLASH ==>
      Scan(s, i + 1) == Some(end) && Unescaped(s, i, end) == Then([s[i]], Unescaped(s, i + 1, end))
    ensures s[i] == BACKSLASH ==> i + 2 <= end
    ensures s[i] == BACKSLASH && s[i + 1] != U ==>
      Scan(s, i + 2) == Some(end) && Unescaped(s, i, end) == Then([LetterOf(s[i + 1])], Unescaped(s, i + 2, end))
    ensures s[i] == BACKSLASH && s[i + 1] == U ==>
      i + 6 <= end && AllHex(s[i + 2..i + 6]) && Scan(s, i + 6) == Some(end)
    ensures s[i] == BACKSLASH && s[i + 1] == U ==> var u := HexOf(s[i + 2..i + 6]);
      if 0xD800 <= u <= 0xDBFF then
        if i + 11 >= end || s[i + 6] != BACKSLASH || s[i + 7] != U then Unescaped(s, i, end).None?
        else
          AllHex(s[i + 8..i + 12]) && i + 12 <= end && Scan(s, i + 12) == Some(end)
          && (var v := HexOf(s[i + 8..i + 12]);
            if v < 0xDC00 || v > 0xDFFF then Unescaped(s, i, end).None?
            else Unescaped(s, i, end) == Then(Put(0x10000 + (u - 0xD800) * 1024 + (v - 0xDC00)),
              Unescaped(s, i + 12, end)))
      else if 0xDC00 <= u <= 0xDFFF || u == 0 then Unescaped(s, i, end).None?
      else Unescaped(s, i, end) == Then(Put(u), Unescaped(s, i + 6, end))
  {
    hide HexOf, AllHex, Put;
    ScanEnds(s, i);
    if s[i] == BACKSLASH && s[i + 1] == U && i + 11 < end && s[i + 6] == BACKSLASH && s[i + 7] == U {
      ScanEnds(s, i + 6);
    }
  }

  /** Copies a token's text out, undoing escapes, and then checks that it is UTF-8. */
  method CopyString(s: seq<byte>, start: nat, end: nat) returns (z: Option<seq<byte>>)
    requires start <= end < |s| && Scan(s, start) == Some(end)
    ensures z == TextOf(s, start, end)
  {
    hide Scan, Unescaped, HexOf, AllHex, Put, Then, WellFormed, Next;
    var out: seq<byte> := [];
    var i := start;
    NothingThen(Unescaped(s, start, end));
    while i < end
      invariant start <= i <= end && Scan(s, i) == Some(end)
      invariant Unescaped(s, start, end) == Then(out, Unescaped(s, i, end))
      decreases end - i
    {
      UnescapedStep(s, i, end);
      ghost var at := i;
      ghost var past := out;
      var c := s[i];
      if c != BACKSLASH {
        out := out + [c];
        i := i + 1;
      } else {
        i := i + 1;
        c := s[i];
        if c == U {
          var u := HexOf(s[i + 1..i + 5]);
          i := i + 4;
          if 0xD800 <= u <= 0xDBFF {
            if i + 6 >= end || s[i + 1] != BACKSLASH || s[i + 2] != U {
              NoneThen(past);
              return None;
            }
            var v := HexOf(s[i + 3..i + 7]);
            if v < 0xDC00 || v > 0xDFFF {
              NoneThen(past);
              return None;
            }
            u := 0x10000 + (u - 0xD800) * 1024 + (v - 0xDC00);
            i := i + 6;
          } else if 0xDC00 <= u <= 0xDFFF {
            NoneThen(past);
            return None;
          } else if u == 0 {
            NoneThen(past);
            return None;
          }
          out := out + Put(u);
        } else {
          out := out + [LetterOf(c)];
        }
        i := i + 1;
      }
      ThenThen(past, out[|past|..], Unescaped(s, i, end));
      assert out == past + out[|past|..];
    }
    TextEnds(s, end, out);
    var at: nat := 0;
    while at < |out|
      invariant at <= |out| && (WellFormed(out, at) <==> WellFormed(out, 0))
      decreases |out| - at
    {
      WellFormedStep(out, at);
      var d := NextCp(out, at);
      if d.Invalid? {
        return None;
      }
      at := d.end;
    }
    AllWellFormed(out);
    return Some(out);
  }

  lemma NoneThen(z: seq<byte>)
    ensures Then(z, None) == None
  {
  }

  lemma TextEnds(s: seq<byte>, end: nat, out: seq<byte>)
    requires end < |s| && Scan(s, end) == Some(end)
    ensures Then(out, Unescaped(s, end, end)) == Some(out)
  {
    assert out + [] == out;
  }

  lemma WellFormedStep(s: seq<byte>, i: nat)
    requires i < |s|
    ensures Next(s, i).Cp? ==> i < Next(s, i).end <= |s| && (WellFormed(s, i) <==> WellFormed(s, Next(s, i).end))
    ensures Next(s, i).Invalid? ==> !WellFormed(s, i)
  {
    hide Next;
    if Next(s, i).Cp? {
      PutOfNext(s, i);
    }
  }

  lemma AllWellFormed(s: seq<byte>)
    ensures WellFormed(s, |s|)
  {
  }
}
