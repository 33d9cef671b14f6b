/** What a JSON string stands for (RFC 8259, section 7), apart from how it is scanned, read and written: which texts
    spell a code point, and that reading and writing are about those (jb.c:7338-7370, src/json.inc:71-94, 263-330). */
module JsonEscapes {
  import opened Wrappers
  import opened Utf8
  import opened JsonStrings
  import opened JsonOrder

  const UPPER := "0123456789ABCDEF"
  const LOWER := "0123456789abcdef"

  /** A hexadecimal digit of either case. */
  predicate Says(b: byte, v: nat) {
    v < 16 && (b == UPPER[v] as int || b == LOWER[v] as int)
  }

  /** Four hexadecimal digits, the most significant one first. */
  predicate FourSay(z: seq<byte>, v: nat) {
    && |z| == 4 && v < 0x10000
    && Says(z[0], v / 4096) && Says(z[1], v / 256 % 16) && Says(z[2], v / 16 % 16) && Says(z[3], v % 16)
  }

  /** The two-character escapes: the letter after the backslash, and the character it stands for. */
  predicate LetterSays(b: byte, c: nat) {
    || (b == '"' as int && c == 0x22) || (b == '\\' as int && c == 0x5C) || (b == '/' as int && c == 0x2F)
    || (b == 'b' as int && c == 0x08) || (b == 'f' as int && c == 0x0C) || (b == 'n' as int && c == 0x0A)
    || (b == 'r' as int && c == 0x0D) || (b == 't' as int && c == 0x09)
  }

  /** An escape of one UTF-16 unit. */
  predicate UnitSays(z: seq<byte>, u: nat) {
    |z| == 6 && z[0] == '\\' as int && z[1] == 'u' as int && FourSay(z[2..], u)
  }

  /** A surrogate pair. */
  predicate PairSays(z: seq<byte>, c: nat) {
    && |z| == 12 && 0x10000 <= c <= 0x10FFFF
    && UnitSays(z[..6], 0xD800 + (c - 0x10000) / 0x400) && UnitSays(z[6..], 0xDC00 + (c - 0x10000) % 0x400)
  }

  /** The texts that spell a code point inside a string: itself, unless it is a control, a quote or a backslash; an
      escape with a letter; its own unit; or its two surrogates. */
  predicate Spells(z: seq<byte>, c: nat) {
    && Scalar(c)
    && (|| (c >= 0x20 && c != 0x22 && c != 0x5C && z == Put(c))
        || (|z| == 2 && z[0] == '\\' as int && LetterSays(z[1], c))
        || (c <= 0xFFFF && UnitSays(z, c))
        || PairSays(z, c))
  }

  // ----- they are read back

  lemma DigitRead(b: byte, v: nat)
    requires Says(b, v)
    ensures IsHex(b) && HexValue(b) == v
  {
  }

  lemma DigitSaid(b: byte)
    requires IsHex(b)
    ensures Says(b, HexValue(b))
  {
  }

  lemma FourRead(z: seq<byte>, v: nat)
    requires FourSay(z, v)
    ensures AllHex(z) && HexOf(z) == v
  {
    hide Says, IsHex, HexValue;
    DigitRead(z[0], v / 4096);
    DigitRead(z[1], v / 256 % 16);
    DigitRead(z[2], v / 16 % 16);
    DigitRead(z[3], v % 16);
    FourDigits(v);
  }

  lemma FourSaid(z: seq<byte>)
    requires |z| == 4 && AllHex(z)
    ensures FourSay(z, HexOf(z))
  {
    hide Says, HexValue, IsHex;
    DigitSaid(z[0]);
    DigitSaid(z[1]);
    DigitSaid(z[2]);
    DigitSaid(z[3]);
    DigitsOf(HexValue(z[0]), HexValue(z[1]), HexValue(z[2]), HexValue(z[3]));
  }

  lemma DigitsOf(a: nat, b: nat, c: nat, d: nat)
    requires a < 16 && b < 16 && c < 16 && d < 16
    ensures var v := ((a * 16 + b) * 16 + c) * 16 + d;
      v / 4096 == a && v / 256 % 16 == b && v / 16 % 16 == c && v % 16 == d && v < 0x10000
  {
  }

  /** One unit's escape, wherever it stands. */
  lemma UnitAt(z: seq<byte>, i: nat, e: seq<byte>, u: nat)
    requires UnitSays(e, u) && Reads(z, i, e)
    ensures i + 6 <= |z| && z[i] == BACKSLASH && z[i + 1] == U && Scan(z, i) == Scan(z, i + 6)
    ensures AllHex(z[i + 2..i + 6]) && HexOf(z[i + 2..i + 6]) == u
  {
    FourRead(e[2..], u);
    assert z[i] == z[i..i + 6][0] && z[i + 1] == z[i..i + 6][1];
    assert z[i + 2..i + 6] == z[i..i + 6][2..] == e[2..];
    assert forall k | i + 2 <= k < i + 6 :: z[k] == z[i + 2..i + 6][k - (i + 2)];
  }

  lemma LetterReadBack(z: seq<byte>, i: nat, e: seq<byte>, c: nat)
    requires |e| == 2 && e[0] == '\\' as int && LetterSays(e[1], c) && Reads(z, i, e)
    ensures ReadBack(z, i, e, Put(c))
  {
    assert z[i] == z[i..i + 2][0] && z[i + 1] == z[i..i + 2][1];
    assert EscapeLetter(e[1]) && e[1] != U && LetterOf(e[1]) == c && Put(c) == [c];
  }

  lemma UnitReadBack(z: seq<byte>, i: nat, e: seq<byte>, c: nat)
    requires Scalar(c) && 0 < c <= 0xFFFF && UnitSays(e, c) && Reads(z, i, e)
    ensures ReadBack(z, i, e, Put(c))
  {
    hide UnitSays, HexOf, Put;
    UnitLength(e, c);
    UnitAt(z, i, e, c);
  }

  lemma UnitLength(e: seq<byte>, u: nat)
    requires UnitSays(e, u)
    ensures |e| == 6
  {
  }

  lemma PairReadBack(z: seq<byte>, i: nat, e: seq<byte>, c: nat)
    requires PairSays(e, c) && Reads(z, i, e)
    ensures ReadBack(z, i, e, Put(c))
  {
    hide UnitSays, HexOf, Put;
    assert e == e[..6] + e[6..];
    ReadsParts(z, i, e[..6], e[6..]);
    UnitAt(z, i, e[..6], 0xD800 + (c - 0x10000) / 0x400);
    UnitAt(z, i + 6, e[6..], 0xDC00 + (c - 0x10000) % 0x400);
  }

  /** Every spelling of a code point but NUL is read back as its bytes, wherever it stands. */
  lemma SpellingReadBack(z: seq<byte>, i: nat, e: seq<byte>, c: nat)
    requires Spells(e, c) && c > 0 && Reads(z, i, e)
    ensures |e| > 0 && ReadBack(z, i, e, Put(c))
  {
    hide Put, ReadBack;
    if |e| == 2 && e[0] == '\\' as int && LetterSays(e[1], c) {
      LetterReadBack(z, i, e, c);
    } else if c <= 0xFFFF && UnitSays(e, c) {
      UnitReadBack(z, i, e, c);
    } else if PairSays(e, c) {
      PairReadBack(z, i, e, c);
    } else {
      RawReadBack(z, i, c);
    }
  }

  lemma RawReadBack(z: seq<byte>, i: nat, c: nat)
    requires Scalar(c) && c >= 0x20 && c != 0x22 && c != 0x5C && Reads(z, i, Put(c))
    ensures ReadBack(z, i, Put(c), Put(c))
  {
    PlainReadBack(z, i, c);
  }

  /** The second half of a pair. */
  ghost predicate LowHalf(e: seq<byte>) {
    exists v: nat :: 0xDC00 <= v <= 0xDFFF && UnitSays(e, v)
  }

  /** NUL cannot be spelled, and neither can half of a surrogate pair: a token that has such an escape has no text. */
  lemma NoHalves(z: seq<byte>, i: nat, end: nat, u: nat)
    requires i < end < |z| && Scan(z, i) == Some(end) && i + 6 <= |z| && UnitSays(z[i..i + 6], u)
    requires u == 0 || 0xDC00 <= u <= 0xDFFF
      || (0xD800 <= u <= 0xDBFF && !(i + 12 <= end && LowHalf(z[i + 6..i + 12])))
    ensures Unescaped(z, i, end).None?
  {
    hide HexOf, FourSay;
    UnitAt(z, i, z[i..i + 6], u);
    UnescapedStep(z, i, end);
    if 0xD800 <= u <= 0xDBFF && i + 11 < end && z[i + 6] == BACKSLASH && z[i + 7] == U {
      var v := HexOf(z[i + 8..i + 12]);
      FourSaid(z[i + 8..i + 12]);
      assert z[i + 6..i + 12][2..] == z[i + 8..i + 12];
      assert UnitSays(z[i + 6..i + 12], v);
    }
  }

  // ----- whole strings

  /** A code point and a text that spells it. */
  datatype Spelling = Spelling(text: seq<byte>, cp: nat)

  predicate AllSpelled(es: seq<Spelling>) {
    forall k | 0 <= k < |es| :: Spells(es[k].text, es[k].cp) && es[k].cp > 0
  }

  /** The spellings one after the other, and the bytes they stand for. */
  function Whole(es: seq<Spelling>): seq<byte> {
    if es == [] then [] else es[0].text + Whole(es[1..])
  }

  function Stands(es: seq<Spelling>): seq<byte>
    requires AllSpelled(es)
  {
    if es == [] then [] else Put(es[0].cp) + Stands(es[1..])
  }

  lemma {:induction false} WholeReadBack(z: seq<byte>, i: nat, es: seq<Spelling>)
    requires AllSpelled(es) && Reads(z, i, Whole(es) + [QUOTE])
    ensures Scan(z, i) == Some(i + |Whole(es)|)
    ensures Unescaped(z, i, i + |Whole(es)|) == Some(Stands(es))
    decreases |es|
  {
    hide Spells, Put, Reads, Scan, Unescaped;
    if es == [] {
      assert [] + [QUOTE] == [QUOTE];
      QuoteEnds(z, i);
    } else {
      var e, rest := es[0].text, Whole(es[1..]);
      assert Whole(es) + [QUOTE] == e + (rest + [QUOTE]);
      ReadsParts(z, i, e, rest + [QUOTE]);
      SpellingReadBack(z, i, e, es[0].cp);
      WholeReadBack(z, i + |e|, es[1..]);
      assert i + |Whole(es)| < |z| by {
        ReadsEnd(z, i, Whole(es) + [QUOTE]);
      }
    }
  }

  lemma ReadsEnd(z: seq<byte>, i: nat, e: seq<byte>)
    requires Reads(z, i, e)
    ensures i + |e| <= |z|
  {
  }

  lemma {:induction false} StandsWellFormed(es: seq<Spelling>)
    requires AllSpelled(es)
    ensures WellFormed(Stands(es), 0)
    decreases |es|
  {
    hide Spells, Put;
    if es != [] {
      StandsWellFormed(es[1..]);
      SpelledScalar(es[0].text, es[0].cp);
      PutBefore(es[0].cp, Stands(es[1..]));
    }
  }

  lemma PutBefore(c: nat, rest: seq<byte>)
    requires Scalar(c)
    ensures WellFormed(Put(c) + rest, 0) <==> WellFormed(rest, 0)
    ensures Next(Put(c) + rest, 0) == Cp(c, |Put(c)|)
  {
    hide Put, Next;
    var z, n := Put(c) + rest, |Put(c)|;
    assert z[0..n] == Put(c) && z[n..] == rest;
    NextOfPut(z, 0, c);
    WellFormedStep(z, 0);
    WellFormedShifts(z, n, n);
  }

  lemma PutBytes(c: nat)
    requires c <= 0x10FFFF
    ensures !Continuation(Put(c)[0]) && forall k | 1 <= k < |Put(c)| :: Continuation(Put(c)[k])
    ensures c < 0x80 ==> Put(c) == [c]
    ensures c >= 0x80 ==> |Put(c)| > 1
  {
  }

  /** Bytes of a text that can only continue a character stand in the token as they are. */
  lemma {:induction false} RawMore(s: seq<byte>, i: nat, end: nat, text: seq<byte>, n: nat)
    requires i <= end < |s| && Scan(s, i) == Some(end) && Unescaped(s, i, end) == Some(text)
    requires n <= |text| && forall k | 0 <= k < n :: Continuation(text[k])
    ensures i + n <= end && s[i..i + n] == text[..n]
    ensures Scan(s, i + n) == Some(end) && Unescaped(s, i + n, end) == Some(text[n..])
    decreases n
  {
    hide Unescaped, Scan, Continuation;
    if n == 0 {
      assert text[0..] == text;
    } else {
      AtEnd(s, i, end, text);
      var rest := RawNext(s, i, end, text);
      TextCut(text, s[i], rest, n);
      assert forall k | 0 <= k < n - 1 :: rest[k] == text[k + 1];
      RawMore(s, i + 1, end, rest, n - 1);
      CutOne(s, i, n);
    }
  }

  lemma CutOne(s: seq<byte>, i: nat, n: nat)
    requires 0 < n && i + n <= |s|
    ensures s[i..i + n] == [s[i]] + s[i + 1..i + 1 + (n - 1)]
  {
  }

  lemma TextCut(text: seq<byte>, b: byte, rest: seq<byte>, n: nat)
    requires text == [b] + rest && 0 < n <= |text|
    ensures text[..n] == [b] + rest[..n - 1] && text[n..] == rest[n - 1..]
  {
  }

  lemma AtEnd(s: seq<byte>, i: nat, end: nat, text: seq<byte>)
    requires i <= end < |s| && Scan(s, i) == Some(end) && Unescaped(s, i, end) == Some(text)
    ensures i == end <==> text == []
  {
    hide HexOf, AllHex;
    if i < end {
      UnescapedStep(s, i, end);
    }
  }

  lemma RawNext(s: seq<byte>, i: nat, end: nat, text: seq<byte>) returns (rest: seq<byte>)
    requires i < end < |s| && Scan(s, i) == Some(end) && Unescaped(s, i, end) == Some(text) && text != []
    requires Continuation(text[0])
    ensures Scan(s, i + 1) == Some(end) && Unescaped(s, i + 1, end) == Some(rest) && text == [s[i]] + rest
  {
    hide Scan, HexOf, AllHex, Put;
    UnescapedStep(s, i, end);
    if s[i] == BACKSLASH {
      var e, c := EscapeAt(s, i, end, text);
      PutBytes(c);
      assert false;
    }
    rest := Unescaped(s, i + 1, end).value;
  }

  /** An escape in a token that has a text. */
  lemma EscapeAt(s: seq<byte>, i: nat, end: nat, text: seq<byte>) returns (e: seq<byte>, c: nat)
    requires i < end < |s| && Scan(s, i) == Some(end) && s[i] == BACKSLASH && Unescaped(s, i, end) == Some(text)
    ensures c > 0 && Scalar(c) && |e| > 1 && i + |e| <= end && s[i..i + |e|] == e
    ensures Scan(s, i + |e|) == Some(end)
    ensures Unescaped(s, i + |e|, end).Some? && text == Put(c) + Unescaped(s, i + |e|, end).value
    ensures Spells(e, c)
  {
    hide HexOf, AllHex, Put, FourSay;
    UnescapedStep(s, i, end);
    if s[i + 1] != U {
      e, c := s[i..i + 2], LetterOf(s[i + 1]);
      LetterScanned(s, i, end);
      PutBytes(c);
    } else {
      var u := HexOf(s[i + 2..i + 6]);
      FourSaid(s[i + 2..i + 6]);
      assert s[i..i + 6][2..] == s[i + 2..i + 6];
      if 0xD800 <= u <= 0xDBFF {
        var v := HexOf(s[i + 8..i + 12]);
        FourSaid(s[i + 8..i + 12]);
        e, c := s[i..i + 12], 0x10000 + (u - 0xD800) * 1024 + (v - 0xDC00);
        assert e[..6] == s[i..i + 6] && e[6..] == s[i + 6..i + 12] && e[6..][2..] == s[i + 8..i + 12];
      } else {
        e, c := s[i..i + 6], u;
      }
    }
  }

  lemma LetterScanned(s: seq<byte>, i: nat, end: nat)
    requires i < end < |s| && Scan(s, i) == Some(end) && s[i] == BACKSLASH && s[i + 1] != U
    ensures LetterSays(s[i + 1], LetterOf(s[i + 1])) && 0 < LetterOf(s[i + 1]) < 0x80
  {
  }

  lemma RawScanned(s: seq<byte>, i: nat, end: nat)
    requires i < end < |s| && Scan(s, i) == Some(end) && s[i] != BACKSLASH
    ensures s[i] >= 0x20 && s[i] != QUOTE
  {
  }

  /** A token that has a text is a text of spellings. */
  lemma {:induction false} DecodedIsSpelled(s: seq<byte>, i: nat, end: nat, text: seq<byte>) returns (es: seq<Spelling>)
    requires i <= end < |s| && Scan(s, i) == Some(end) && Unescaped(s, i, end) == Some(text) && WellFormed(text, 0)
    ensures AllSpelled(es) && s[i..end] == Whole(es) && text == Stands(es)
    decreases end - i
  {
    hide Scan, Unescaped, Spells, Put, Next, WellFormed;
    AtEnd(s, i, end, text);
    if i == end {
      es := [];
    } else {
      var e, c, rest := FirstAt(s, i, end, text);
      var more := DecodedIsSpelled(s, i + |e|, end, rest);
      es := [Spelling(e, c)] + more;
      OneMore(e, c, more);
      assert s[i..end] == s[i..i + |e|] + s[i + |e|..end];
    }
  }

  lemma OneMore(e: seq<byte>, c: nat, more: seq<Spelling>)
    requires Spells(e, c) && c > 0 && AllSpelled(more)
    ensures var es := [Spelling(e, c)] + more;
      AllSpelled(es) && Whole(es) == e + Whole(more) && Stands(es) == Put(c) + Stands(more)
  {
    hide Spells, Put;
    var es := [Spelling(e, c)] + more;
    assert es[1..] == more;
  }

  /** The first spelling of a token that has a text. */
  lemma FirstAt(s: seq<byte>, i: nat, end: nat, text: seq<byte>) returns (e: seq<byte>, c: nat, rest: seq<byte>)
    requires i < end < |s| && Scan(s, i) == Some(end) && Unescaped(s, i, end) == Some(text)
    requires text != [] && WellFormed(text, 0)
    ensures c > 0 && Scalar(c) && |e| > 0 && i + |e| <= end && s[i..i + |e|] == e
    ensures Scan(s, i + |e|) == Some(end)
    ensures Unescaped(s, i + |e|, end) == Some(rest) && text == Put(c) + rest && WellFormed(rest, 0)
    ensures Spells(e, c)
  {
    hide Scan, Unescaped, Spells, Put, Next, WellFormed;
    if s[i] == BACKSLASH {
      e, c := EscapeAt(s, i, end, text);
      rest := Unescaped(s, i + |e|, end).value;
    } else {
      e, c, rest := RawAt(s, i, end, text);
    }
    PutBefore(c, rest);
  }

  lemma SpelledScalar(e: seq<byte>, c: nat)
    requires Spells(e, c)
    ensures Scalar(c)
  {
  }

  lemma RawAt(s: seq<byte>, i: nat, end: nat, text: seq<byte>) returns (e: seq<byte>, c: nat, rest: seq<byte>)
    requires i < end < |s| && Scan(s, i) == Some(end) && s[i] != BACKSLASH
    requires Unescaped(s, i, end) == Some(text) && text != [] && WellFormed(text, 0)
    ensures c > 0 && Scalar(c) && |e| > 0 && i + |e| <= end && s[i..i + |e|] == e
    ensures Scan(s, i + |e|) == Some(end)
    ensures Unescaped(s, i + |e|, end) == Some(rest) && text == Put(c) + rest
    ensures Spells(e, c)
  {
    hide *;
    var more := RawStep(s, i, end, text);
    c := FirstOf(text);
    var n := |Put(c)|;
    PutIsText(text, more, s[i], c, n);
    RawMore(s, i + 1, end, more, n - 1);
    RawSame(s, i, text, more, Put(c), n);
    e, rest := Put(c), more[n - 1..];
    RawSpells(c, s[i]);
  }

  lemma RawSame(s: seq<byte>, i: nat, text: seq<byte>, more: seq<byte>, z: seq<byte>, n: nat)
    requires 0 < n == |z| <= |text| && i + n <= |s| && text == [s[i]] + more && text[..n] == z
    requires s[i + 1..i + 1 + (n - 1)] == more[..n - 1]
    ensures s[i..i + n] == z && text == z + more[n - 1..]
  {
    CutOne(s, i, n);
    TextCut(text, s[i], more, n);
    assert text == text[..n] + text[n..];
  }

  lemma RawStep(s: seq<byte>, i: nat, end: nat, text: seq<byte>) returns (more: seq<byte>)
    requires i < end < |s| && Scan(s, i) == Some(end) && s[i] != BACKSLASH && Unescaped(s, i, end) == Some(text)
    ensures Scan(s, i + 1) == Some(end) && Unescaped(s, i + 1, end) == Some(more) && text == [s[i]] + more
    ensures s[i] >= 0x20 && s[i] != QUOTE
  {
    UnescapedStep(s, i, end);
    RawScanned(s, i, end);
    hide Scan, Unescaped, HexOf, AllHex, Put;
    more := Unescaped(s, i + 1, end).value;
  }

  lemma FirstOf(text: seq<byte>) returns (c: nat)
    requires text != [] && WellFormed(text, 0)
    ensures c <= 0x10FFFF && Scalar(c) && |Put(c)| <= |text| && text[..|Put(c)|] == Put(c)
  {
    hide Put, Next, WellFormed;
    Remainder(text);
    c := Next(text, 0).cp;
  }

  /** A text that begins with a character: its first byte, and the rest of it. */
  lemma PutIsText(text: seq<byte>, more: seq<byte>, b: byte, c: nat, n: nat)
    requires c <= 0x10FFFF && n == |Put(c)| && text == [b] + more && n <= |text| && text[..n] == Put(c)
    ensures n > 0 && b == Put(c)[0] && |more| >= n - 1 && more[..n - 1] == text[1..n]
    ensures forall k | 0 <= k < n - 1 :: Continuation(more[k])
  {
    PutBytes(c);
    hide Put, Continuation;
    assert b == text[..n][0];
    forall k | 0 <= k < n - 1
      ensures Continuation(more[k])
    {
      assert more[k] == text[k + 1] == text[..n][k + 1];
    }
  }

  lemma RawSpells(c: nat, b: byte)
    requires Scalar(c) && b == Put(c)[0] && b >= 0x20 && b != QUOTE && b != BACKSLASH
    ensures Spells(Put(c), c) && c > 0
  {
    PutBytes(c);
  }

  /** A scanned token has a text exactly if it is a text of spellings of code points other than NUL, and then it is the
      bytes of these. */
  lemma TextIff(s: seq<byte>, i: nat, end: nat, text: seq<byte>)
    requires i <= end < |s| && Scan(s, i) == Some(end)
    ensures TextOf(s, i, end) == Some(text) <==>
      exists es :: AllSpelled(es) && s[i..end] == Whole(es) && text == Stands(es)
  {
    hide Scan, Unescaped, Spells, Put;
    ScanEnds(s, i);
    if TextOf(s, i, end) == Some(text) {
      var es := DecodedIsSpelled(s, i, end, text);
    }
    forall es | AllSpelled(es) && s[i..end] == Whole(es) && text == Stands(es)
      ensures TextOf(s, i, end) == Some(text)
    {
      assert s[i..i + |Whole(es) + [QUOTE]|] == Whole(es) + [QUOTE];
      WholeReadBack(s, i, es);
      StandsWellFormed(es);
    }
  }

  // ----- they are written

  /** What is written for a code point is a spelling of it, as short as any, and in ASCII where that is asked for; its
      digits are lower-case. */
  lemma EscapeIsShortest(c: nat, ascii: bool, e: seq<byte>)
    requires Scalar(c)
    ensures Spells(EscapeCp(c, ascii), c)
    ensures ascii ==> forall k | 0 <= k < |EscapeCp(c, ascii)| :: EscapeCp(c, ascii)[k] < 0x80
    ensures Spells(e, c) && (ascii ==> forall k | 0 <= k < |e| :: e[k] < 0x80) ==> |EscapeCp(c, ascii)| <= |e|
    ensures |EscapeCp(c, ascii)| > 4 ==>
      forall k | 0 <= k < |EscapeCp(c, ascii)| :: !('A' as int <= EscapeCp(c, ascii)[k] <= 'F' as int)
  {
    hide FourSay, Hex4;
    var z := EscapeCp(c, ascii);
    PutBytes(c);
    if Short(c).Some? {
    } else if c < 32 || (ascii && c > 127) {
      if c <= 0xFFFF {
        HexSays(c);
        UnitOf(c);
        assert c >= 0x80 ==> Put(c)[0] >= 0x80;
      } else {
        var u, v := 0xD800 + (c - 0x10000) / 1024, 0xDC00 + (c - 0x10000) % 1024;
        UnitOf(u);
        UnitOf(v);
        var x, y := [BACKSLASH, U] + Hex4(u), [BACKSLASH, U] + Hex4(v);
        assert z == x + y && z[..6] == x && z[6..] == y;
        assert forall k | 0 <= k < 12 :: z[k] == if k < 6 then x[k] else y[k - 6];
      }
    }
  }

  lemma UnitOf(u: nat)
    requires u < 0x10000
    ensures var z := [BACKSLASH, U] + Hex4(u);
      && UnitSays(z, u) && |z| == 6
      && forall k | 0 <= k < 6 :: z[k] < 0x80 && !('A' as int <= z[k] <= 'F' as int)
  {
    hide FourSay, Hex4;
    HexSays(u);
    var z := [BACKSLASH, U] + Hex4(u);
    assert z[2..] == Hex4(u);
    assert forall k | 2 <= k < 6 :: z[k] == Hex4(u)[k - 2];
  }

  lemma HexSays(u: nat)
    requires u < 0x10000
    ensures FourSay(Hex4(u), u)
    ensures forall k | 0 <= k < 4 :: Hex4(u)[k] < 0x80 && !('A' as int <= Hex4(u)[k] <= 'F' as int)
  {
    hide Says, HexDigit;
    LowerSays(u / 4096);
    LowerSays(u / 256 % 16);
    LowerSays(u / 16 % 16);
    LowerSays(u % 16);
  }

  lemma LowerSays(v: nat)
    requires v < 16
    ensures Says(HexDigit(v), v) && HexDigit(v) < 0x80 && !('A' as int <= HexDigit(v) <= 'F' as int)
  {
  }

  /** In ASCII mode an escaped string is ASCII. */
  lemma {:induction false} EscapedIsAscii(s: seq<byte>, i: nat)
    requires i <= |s| && EscapeFrom(s, i, true).Some?
    ensures forall k | 0 <= k < |EscapeFrom(s, i, true).value| :: EscapeFrom(s, i, true).value[k] < 0x80
    decreases |s| - i
  {
    hide EscapeCp, EscapeFrom;
    if i == |s| {
      EscapeEnd(s, true);
    } else {
      EscapeStep(s, i, true);
      EscapeIsShortest(Next(s, i).cp, true, []);
      EscapedIsAscii(s, Next(s, i).end);
    }
  }
}
