/** The JSON grammar (RFC 8259, sections 2 to 7), apart from the parser (src/json.inc:33-146): trees with their white
    space, and how they are spelled. The parser accepts exactly the spellings of trees that are nested at most 256
    deep. White space is what the C locale's isspace takes for it, vertical tabs and form feeds included. */
module JsonGrammar {
  import opened Wrappers
  import opened Utf8
  import opened JsonStrings
  import opened JsonEscapes
  import opened JsonParse
  import JsonNumber

  const COMMA_BYTE: byte := ',' as int
  const COLON_BYTE: byte := ':' as int
  const QUOTE_BYTE: byte := '"' as int

  /** A value: a string by what is between its quotes, a primitive by its text, or a container with its entries and the
      white space before its closing bracket. */
  datatype Tree =
    | Quoted(body: seq<byte>)
    | Word(text: seq<byte>)
    | Box(keyed: bool, entries: seq<Entry>, gap: seq<byte>)

  /** An entry: the white space before its comma and after it, its key in an object, and its value. */
  datatype Entry = Entry(lead: seq<byte>, before: seq<byte>, key: Option<Key>, value: Tree)

  /** A key, the white space before its colon and after it. */
  datatype Key = Key(body: seq<byte>, mid: seq<byte>, after: seq<byte>)

  // ----- how a tree is spelled

  function Spell(v: Tree): seq<byte>
    decreases v
  {
    match v
    case Quoted(body) => [QUOTE_BYTE] + (body + [QUOTE_BYTE])
    case Word(text) => text
    case Box(keyed, entries, gap) => [Opening(keyed)] + (Inner(entries) + (gap + [Closing(keyed)]))
  }

  function Opening(keyed: bool): byte {
    if keyed then '{' as int else '[' as int
  }

  function Closing(keyed: bool): byte {
    if keyed then '}' as int else ']' as int
  }

  function Inner(entries: seq<Entry>): seq<byte>
    decreases entries
  {
    if entries == [] then []
    else
      var n := |entries| - 1;
      Inner(entries[..n]) + (Head(entries[n], n == 0) + Spell(entries[n].value))
  }

  /** What stands before an entry's value. */
  function Head(e: Entry, first: bool): seq<byte> {
    Lead(e, first) + (e.before + KeyText(e.key))
  }

  function Lead(e: Entry, first: bool): seq<byte> {
    if first then [] else e.lead + [COMMA_BYTE]
  }

  function KeyText(key: Option<Key>): seq<byte> {
    if key.None? then []
    else [QUOTE_BYTE] + (key.value.body + ([QUOTE_BYTE] + (key.value.mid + ([COLON_BYTE] + key.value.after))))
  }

  // ----- which trees are proper

  predicate White(z: seq<byte>) {
    forall k | 0 <= k < |z| :: z[k] in {0x20, 0x09, 0x0A, 0x0B, 0x0C, 0x0D}
  }

  ghost predicate HexByte(b: byte) {
    exists v: nat :: Says(b, v)
  }

  /** What a string consists of: a byte that needs no escape, an escape with a letter, or one with four digits. */
  ghost predicate Piece(z: seq<byte>) {
    || (|z| == 1 && z[0] >= 0x20 && z[0] != '"' as int && z[0] != '\\' as int)
    || (|z| == 2 && z[0] == '\\' as int && exists c: nat :: LetterSays(z[1], c))
    || (|z| == 6 && z[0] == '\\' as int && z[1] == 'u' as int
        && HexByte(z[2]) && HexByte(z[3]) && HexByte(z[4]) && HexByte(z[5]))
  }

  ghost predicate Body(z: seq<byte>)
    decreases |z|
  {
    z == [] || exists n | 1 <= n <= |z| :: Cut(z, n)
  }

  ghost predicate Cut(z: seq<byte>, n: nat)
    requires 1 <= n <= |z|
    decreases |z|, 0
  {
    Piece(z[..n]) && Body(z[n..])
  }

  /** A literal or a number. */
  ghost predicate IsWord(z: seq<byte>) {
    || z == ['t' as int, 'r' as int, 'u' as int, 'e' as int]
    || z == ['n' as int, 'u' as int, 'l' as int, 'l' as int]
    || z == ['f' as int, 'a' as int, 'l' as int, 's' as int, 'e' as int]
    || exists n :: JsonNumber.Proper(n) && JsonNumber.Text(n) == z
  }

  ghost predicate Proper(v: Tree)
    decreases v
  {
    match v
    case Quoted(body) => Body(body)
    case Word(text) => IsWord(text)
    case Box(keyed, entries, gap) => White(gap) && AllProper(keyed, entries)
  }

  ghost predicate AllProper(keyed: bool, entries: seq<Entry>)
    decreases entries
  {
    entries != [] ==>
      var n := |entries| - 1;
      AllProper(keyed, entries[..n]) && EntryOk(keyed, entries[n], n == 0) && Proper(entries[n].value)
  }

  ghost predicate EntryOk(keyed: bool, e: Entry, first: bool) {
    && White(e.lead) && White(e.before) && (first ==> e.lead == []) && (e.key.Some? <==> keyed)
    && (e.key.Some? ==> Body(e.key.value.body) && White(e.key.value.mid) && White(e.key.value.after))
  }

  /** Containers are nested at most `d` deep. */
  predicate Within(v: Tree, d: nat)
    decreases v
  {
    v.Box? ==> d > 0 && AllWithin(v.entries, d - 1)
  }

  predicate AllWithin(entries: seq<Entry>, d: nat)
    decreases entries
  {
    entries != [] ==>
      var n := |entries| - 1;
      AllWithin(entries[..n], d) && Within(entries[n].value, d)
  }

  // ----- the nodes of a spelled tree

  function NodeOf(v: Tree, at: nat): Node
    decreases v, 0
  {
    match v
    case Quoted(body) => Node(String, at + 1, at + 1 + |body|, [])
    case Word(text) => Node(Primitive, at, at + |text|, [])
    case Box(keyed, entries, gap) =>
      Node(if keyed then Object else Array, at, at + |Spell(v)|, KidsOf(entries, at + 1))
  }

  function KidsOf(entries: seq<Entry>, at: nat): seq<Node>
    decreases entries, 0
  {
    if entries == [] then []
    else
      var n := |entries| - 1;
      KidsOf(entries[..n], at) + KidOf(entries[n], at + |Inner(entries[..n])|, n == 0)
  }

  /** The nodes of an entry that begins at `at`. */
  function KidOf(e: Entry, at: nat, first: bool): (r: seq<Node>)
    ensures |r| > 0
    decreases e, 0
  {
    KidAt(e.key, e.value, at + |Lead(e, first)| + |e.before|)
  }

  /** The nodes of a key and a value from `q` on: the key's, if there is one, and the value's. */
  function KidAt(key: Option<Key>, value: Tree, q: nat): (r: seq<Node>)
    ensures |r| > 0
    decreases value, 1
  {
    (if key.None? then [] else [Node(String, q + 1, q + 1 + |key.value.body|, [])])
    + [NodeOf(value, q + |KeyText(key)|)]
  }

  // ----- strings

  lemma HexByteIs(b: byte)
    ensures HexByte(b) <==> IsHex(b)
  {
    if IsHex(b) {
      DigitSaid(b);
    }
    forall v: nat | Says(b, v)
      ensures IsHex(b)
    {
      DigitRead(b, v);
    }
  }

  lemma LetterIs(b: byte)
    ensures (exists c: nat :: LetterSays(b, c)) <==> EscapeLetter(b)
  {
    if EscapeLetter(b) {
      assert LetterSays(b, LetterOf(b));
    }
  }

  /** One step of the scanner passes one piece. */
  lemma PieceScans(s: seq<byte>, i: nat, n: nat)
    requires 1 <= n && i + n <= |s| && Piece(s[i..i + n])
    ensures Scan(s, i) == Scan(s, i + n)
    ensures s[i] != QUOTE
  {
    hide HexByte;
    var z := s[i..i + n];
    assert s[i] == z[0] && (n > 1 ==> s[i + 1] == z[1]);
    if n == 2 {
      LetterIs(z[1]);
    } else if n == 6 {
      HexByteIs(z[2]);
      HexByteIs(z[3]);
      HexByteIs(z[4]);
      HexByteIs(z[5]);
      assert s[i + 2] == z[2] && s[i + 3] == z[3] && s[i + 4] == z[4] && s[i + 5] == z[5];
    }
  }

  lemma ScansPiece(s: seq<byte>, i: nat) returns (n: nat)
    requires Scan(s, i).Some? && s[i] != QUOTE
    ensures 1 <= n && i + n <= |s| && Piece(s[i..i + n]) && Scan(s, i) == Scan(s, i + n)
  {
    hide HexByte;
    if s[i] != BACKSLASH {
      n := 1;
    } else if s[i + 1] == U {
      n := 6;
      HexByteIs(s[i + 2]);
      HexByteIs(s[i + 3]);
      HexByteIs(s[i + 4]);
      HexByteIs(s[i + 5]);
    } else {
      n := 2;
      LetterIs(s[i + 1]);
    }
  }

  lemma {:induction false} BodyScans(s: seq<byte>, i: nat, end: nat)
    requires i <= end < |s| && s[end] == QUOTE && Body(s[i..end])
    ensures Scan(s, i) == Some(end)
    decreases end - i
  {
    hide Piece;
    if i < end {
      var z := s[i..end];
      var n :| 1 <= n <= |z| && Cut(z, n);
      assert z[..n] == s[i..i + n] && z[n..] == s[i + n..end];
      PieceScans(s, i, n);
      BodyScans(s, i + n, end);
    }
  }

  lemma {:induction false} ScansBody(s: seq<byte>, i: nat, end: nat)
    requires Scan(s, i) == Some(end)
    ensures i <= end < |s| && s[end] == QUOTE && Body(s[i..end])
    decreases |s| - i
  {
    hide Piece, Scan;
    ScanEnds(s, i);
    if i < end {
      ScanStops(s, i, end);
      var n := ScansPiece(s, i);
      ScansBody(s, i + n, end);
      var z := s[i..end];
      assert z[..n] == s[i..i + n] && z[n..] == s[i + n..end];
      assert Cut(z, n);
    }
  }

  lemma ScanStops(s: seq<byte>, i: nat, end: nat)
    requires Scan(s, i) == Some(end) && i < end
    ensures i < |s| && s[i] != QUOTE
  {
  }

  /** The scanner finds the end of exactly the strings of such pieces. */
  lemma ScanIff(s: seq<byte>, i: nat, end: nat)
    ensures Scan(s, i) == Some(end) <==> i <= end < |s| && s[end] == '"' as int && Body(s[i..end])
  {
    hide Scan, Body;
    if Scan(s, i) == Some(end) {
      ScansBody(s, i, end);
    }
    if i <= end < |s| && s[end] == '"' as int && Body(s[i..end]) {
      BodyScans(s, i, end);
    }
  }

  // ----- primitives

  /** The bytes of a number. */
  predicate NumberByte(b: byte) {
    0x30 <= b <= 0x39 || b in {0x2B, 0x2D, 0x2E, 0x45, 0x65}
  }

  lemma NumberBytes(n: JsonNumber.Number)
    requires JsonNumber.Proper(n)
    ensures JsonNumber.Text(n) != [] && forall k | 0 <= k < |JsonNumber.Text(n)| :: NumberByte(JsonNumber.Text(n)[k])
  {
    var a, b := JsonNumber.Sign(n), n.whole;
    var c, d := JsonNumber.Fraction(n.fraction), JsonNumber.ExponentText(n.exponent);
    assert forall k | 0 <= k < |a| :: NumberByte(a[k]);
    assert forall k | 0 <= k < |b| :: NumberByte(b[k]);
    assert forall k | 0 <= k < |c| :: NumberByte(c[k]);
    ExponentBytes(n);
    hide JsonNumber.Sign, JsonNumber.Fraction, JsonNumber.ExponentText;
    forall k | 0 <= k < |JsonNumber.Text(n)|
      ensures NumberByte(JsonNumber.Text(n)[k])
    {
      ByteOfFour(a, b, c, d, k);
    }
  }

  lemma ExponentBytes(n: JsonNumber.Number)
    requires JsonNumber.Proper(n)
    ensures var d := JsonNumber.ExponentText(n.exponent); forall k | 0 <= k < |d| :: NumberByte(d[k])
  {
    if n.exponent.Some? {
      var e := n.exponent.value;
      assert forall k | 0 <= k < |e.sign| :: NumberByte(e.sign[k]);
      assert forall k | 0 <= k < |e.digits| :: NumberByte(e.digits[k]);
    }
  }

  lemma ByteOfFour(a: seq<byte>, b: seq<byte>, c: seq<byte>, d: seq<byte>, k: nat)
    requires k < |a + b + c + d|
    ensures (a + b + c + d)[k] ==
      if k < |a| then a[k] else if k < |a| + |b| then b[k - |a|]
      else if k < |a| + |b| + |c| then c[k - |a| - |b|] else d[k - |a| - |b| - |c|]
  {
  }

  /** The words are the primitives the parser takes, and nothing in them stops one. */
  lemma WordIs(z: seq<byte>)
    ensures IsWord(z) <==> PrimitiveValid(z)
    ensures IsWord(z) ==> z != [] && z[0] != QUOTE && Opens(z[0]).None?
    ensures IsWord(z) ==> forall k | 0 <= k < |z| :: !Stops(z[k])
  {
    JsonNumber.NumberGrammar(z);
    forall n | JsonNumber.Proper(n) && JsonNumber.Text(n) == z
      ensures z != [] && forall k | 0 <= k < |z| :: NumberByte(z[k])
    {
      NumberBytes(n);
    }
    hide JsonNumber.Proper, JsonNumber.Text, NumberValid;
  }

  // ----- what is spelled is parsed

  /** White space is skipped to its end. */
  lemma {:induction false} SkipWhite(s: seq<byte>, pos: nat, at: nat)
    requires pos <= at <= |s| && White(s[pos..at]) && (at < |s| ==> !Space(s[at]))
    ensures Skip(s, pos) == at
    decreases at - pos
  {
    if pos < at {
      assert s[pos] == s[pos..at][0];
      assert s[pos + 1..at] == s[pos..at][1..];
      SkipWhite(s, pos + 1, at);
    }
  }

  /** A proper value begins with a byte that is no white space, separator or closing bracket. */
  lemma FirstByte(v: Tree)
    requires Proper(v)
    ensures Spell(v) != []
    ensures !Space(Spell(v)[0]) && Spell(v)[0] != COMMA && Spell(v)[0] != 0x5D && Spell(v)[0] != 0x7D
  {
    hide Body;
    if v.Word? {
      WordIs(v.text);
      hide IsWord;
      assert !Stops(v.text[0]);
    }
  }

  /** A value is followed by something that ends it, or by nothing. */
  predicate Ended(s: seq<byte>, end: nat) {
    end < |s| ==> Stops(s[end])
  }

  lemma ReadsAt(s: seq<byte>, i: nat, z: seq<byte>, k: nat)
    requires Reads(s, i, z) && k < |z|
    ensures i + k < |s| && s[i + k] == z[k]
  {
    assert s[i..i + |z|][k] == s[i + k];
  }

  lemma QuotedParses(s: seq<byte>, at: nat, body: seq<byte>)
    requires Reads(s, at, [QUOTE_BYTE] + (body + [QUOTE_BYTE])) && Body(body)
    ensures at + |body| + 2 <= |s| && s[at] == QUOTE
    ensures ParseString(s, at) == Some((Node(String, at + 1, at + 1 + |body|, []), at + |body| + 2))
  {
    hide Body, Scan, Reads;
    var end := at + 1 + |body|;
    ReadsParts(s, at, [QUOTE_BYTE], body + [QUOTE_BYTE]);
    ReadsParts(s, at + 1, body, [QUOTE_BYTE]);
    ReadsAt(s, at, [QUOTE_BYTE], 0);
    ReadsAt(s, end, [QUOTE_BYTE], 0);
    ReadsIs(s, at + 1, body);
    ScanIff(s, at + 1, end);
  }

  lemma ReadsIs(s: seq<byte>, i: nat, z: seq<byte>)
    requires Reads(s, i, z)
    ensures i + |z| <= |s| && s[i..i + |z|] == z
  {
  }

  lemma {:induction false} EndOfWord(s: seq<byte>, i: nat, end: nat)
    requires i <= end <= |s| && (forall k | i <= k < end :: !Stops(s[k])) && Ended(s, end)
    ensures PrimitiveEnd(s, i) == end
    decreases end - i
  {
    if i < end {
      EndOfWord(s, i + 1, end);
    }
  }

  lemma WordParses(s: seq<byte>, at: nat, text: seq<byte>)
    requires Reads(s, at, text) && IsWord(text) && Ended(s, at + |text|)
    ensures at < |s| && s[at] != QUOTE && Opens(s[at]).None?
    ensures ParsePrimitive(s, at) == Some((Node(Primitive, at, at + |text|, []), at + |text|))
  {
    WordIs(text);
    hide IsWord, PrimitiveValid;
    ReadsAt(s, at, text, 0);
    forall k | at <= k < at + |text|
      ensures !Stops(s[k])
    {
      ReadsAt(s, at, text, k - at);
    }
    EndOfWord(s, at, at + |text|);
  }

  /** Where a container's k-th entry stands. */
  lemma {:induction false} InnerReads(s: seq<byte>, p: nat, entries: seq<Entry>, k: nat)
    requires Reads(s, p, Inner(entries)) && k < |entries|
    ensures Reads(s, p + |Inner(entries[..k])|, Head(entries[k], k == 0) + Spell(entries[k].value))
    decreases |entries|
  {
    hide Spell, Head, Reads;
    var n := |entries| - 1;
    ReadsParts(s, p, Inner(entries[..n]), Head(entries[n], n == 0) + Spell(entries[n].value));
    if k < n {
      InnerReads(s, p, entries[..n], k);
      assert entries[..n][..k] == entries[..k];
    }
  }

  lemma KidsCount(entries: seq<Entry>, at: nat)
    ensures KidsOf(entries, at) == [] <==> entries == []
  {
  }

  lemma KidsMore(entries: seq<Entry>, k: nat, at: nat)
    requires k < |entries|
    ensures KidsOf(entries[..k + 1], at)
      == KidsOf(entries[..k], at) + KidOf(entries[k], at + |Inner(entries[..k])|, k == 0)
    ensures |Inner(entries[..k + 1])| == |Inner(entries[..k])| + |Head(entries[k], k == 0)| + |Spell(entries[k].value)|
  {
    hide Spell, Head, KidOf;
    assert entries[..k + 1][..k] == entries[..k];
  }

  /** A spelled value is parsed to its node, wherever it stands, after any white space. */
  lemma {:induction false} ValueParses(s: seq<byte>, pos: nat, at: nat, depth: nat, v: Tree)
    requires pos <= at && Reads(s, at, Spell(v)) && White(s[pos..at]) && Proper(v) && Ended(s, at + |Spell(v)|)
    requires depth <= MAX_DEPTH && Within(v, MAX_DEPTH - depth)
    ensures ParseValue(s, pos, depth) == Some((NodeOf(v, at), at + |Spell(v)|))
    decreases v, 0, 0
  {
    hide Reads, Skip, Inner, ParseString, ParsePrimitive, Body, IsWord, AllProper, AllWithin, KidsOf;
    FirstByte(v);
    ReadsAt(s, at, Spell(v), 0);
    SkipWhite(s, pos, at);
    ClosesIs(v.Box? && v.keyed);
    match v
    case Quoted(body) =>
      QuotedParses(s, at, body);
    case Word(text) =>
      WordParses(s, at, text);
    case Box(keyed, entries, gap) =>
      assert entries[..0] == [];
      NoInner();
      KidsParse(s, at, depth, v, 0);
  }

  lemma {:induction false} KidsParse(s: seq<byte>, at: nat, depth: nat, v: Tree, k: nat)
    requires v.Box? && Reads(s, at, Spell(v)) && Proper(v) && k <= |v.entries|
    requires depth < MAX_DEPTH && AllWithin(v.entries, MAX_DEPTH - depth - 1)
    ensures at + 1 + |Inner(v.entries[..k])| <= |s|
    ensures ParseKids(s, at + 1 + |Inner(v.entries[..k])|, depth + 1, if v.keyed then Object else Array, at,
                      KidsOf(v.entries[..k], at + 1))
      == Some((NodeOf(v, at), at + |Spell(v)|))
    decreases v.entries, |v.entries| - k, 1
  {
    hide Reads, Proper, Within, AllWithin, Spell, Inner, KidsOf, KidOf, Head, KeyText, Lead, White, EntryOk, Skip;
    hide ParseKids, ParseKid;
    var kind := if v.keyed then Object else Array;
    var kids := KidsOf(v.entries[..k], at + 1);
    var pos := at + 1 + |Inner(v.entries[..k])|;
    if k == |v.entries| {
      assert v.entries[..k] == v.entries;
      LastPart(s, at, v);
      KidsStep(s, pos, depth + 1, kind, at, kids);
      BoxNode(v, at);
    } else {
      var e := v.entries[k];
      BoxProper(v, k);
      EntryWithin(v.entries, k, MAX_DEPTH - depth - 1);
      var q := EntryPart(s, at, v, k);
      KidsStep(s, pos, depth + 1, kind, at, kids);
      KidsCount(v.entries[..k], at + 1);
      KidParses(s, q, depth + 1, v.keyed, e, pos, k == 0);
      KidsMore(v.entries, k, at + 1);
      HeadLength(e, k == 0);
      KidsParse(s, at, depth, v, k + 1);
    }
  }

  lemma BoxNode(v: Tree, at: nat)
    requires v.Box?
    ensures NodeOf(v, at) == Node(if v.keyed then Object else Array, at, at + |Spell(v)|, KidsOf(v.entries, at + 1))
  {
  }

  lemma HeadLength(e: Entry, first: bool)
    ensures |Head(e, first)| == |Lead(e, first)| + |e.before| + |KeyText(e.key)|
  {
  }

  lemma {:induction false} EntryWithin(entries: seq<Entry>, k: nat, d: nat)
    requires AllWithin(entries, d) && k < |entries|
    ensures Within(entries[k].value, d)
    decreases |entries|
  {
    hide Within;
    if k < |entries| - 1 {
      EntryWithin(entries[..|entries| - 1], k, d);
    }
  }

  lemma NoInner()
    ensures Inner([]) == [] && forall at: nat :: KidsOf([], at) == []
  {
  }

  lemma ClosesIs(keyed: bool)
    ensures Closes(if keyed then Object else Array) == Closing(keyed)
    ensures Opens(Opening(keyed)) == Some(if keyed then Object else Array)
  {
  }

  lemma LastPart(s: seq<byte>, at: nat, v: Tree)
    requires v.Box? && Reads(s, at, Spell(v)) && Proper(v)
    ensures var pos, p := at + 1 + |Inner(v.entries)|, at + |Spell(v)| - 1;
      pos <= p < |s| && Skip(s, pos) == p && s[p] == Closes(if v.keyed then Object else Array)
  {
    hide Inner, AllProper, Reads;
    BoxReads(s, at, v);
    var p := at + 1 + |Inner(v.entries)|;
    ReadsAt(s, p + |v.gap|, [Closing(v.keyed)], 0);
    ClosesIs(v.keyed);
    ReadsIs(s, p, v.gap);
    SkipWhite(s, p, p + |v.gap|);
  }

  /** The parts of a container. */
  lemma BoxReads(s: seq<byte>, at: nat, v: Tree)
    requires v.Box? && Reads(s, at, Spell(v))
    ensures Reads(s, at, [Opening(v.keyed)]) && Reads(s, at + 1, Inner(v.entries))
    ensures var p := at + 1 + |Inner(v.entries)|;
      Reads(s, p, v.gap) && Reads(s, p + |v.gap|, [Closing(v.keyed)]) && p + |v.gap| + 1 == at + |Spell(v)|
  {
    hide Inner, Reads;
    var x, y := v.gap + [Closing(v.keyed)], [Closing(v.keyed)];
    ReadsParts(s, at, [Opening(v.keyed)], Inner(v.entries) + x);
    ReadsParts(s, at + 1, Inner(v.entries), x);
    ReadsParts(s, at + 1 + |Inner(v.entries)|, v.gap, y);
  }

  lemma WhiteAt(z: seq<byte>, k: nat)
    requires White(z) && k < |z|
    ensures Stops(z[k])
  {
  }

  /** What follows an entry ends its value. */
  lemma AfterEntry(s: seq<byte>, at: nat, v: Tree, k: nat)
    requires v.Box? && Reads(s, at, Spell(v)) && Proper(v) && k < |v.entries|
    ensures Ended(s, at + 1 + |Inner(v.entries[..k + 1])|)
  {
    hide Reads, Spell, Inner, Head, Proper, EntryOk;
    BoxReads(s, at, v);
    var p := at + 1 + |Inner(v.entries[..k + 1])|;
    if k + 1 < |v.entries| {
      var e := v.entries[k + 1];
      BoxProper(v, k + 1);
      InnerReads(s, at + 1, v.entries, k + 1);
      ReadsParts(s, p, Head(e, false), Spell(e.value));
      HeadStops(s, p, e, v.keyed);
    } else {
      assert v.entries[..k + 1] == v.entries;
      GapWhite(v);
      if v.gap == [] {
        ReadsAt(s, p, [Closing(v.keyed)], 0);
      } else {
        ReadsAt(s, p, v.gap, 0);
        WhiteAt(v.gap, 0);
      }
    }
  }

  lemma GapWhite(v: Tree)
    requires v.Box? && Proper(v)
    ensures White(v.gap)
  {
  }

  lemma HeadStops(s: seq<byte>, p: nat, e: Entry, keyed: bool)
    requires Reads(s, p, Head(e, false)) && EntryOk(keyed, e, false)
    ensures Ended(s, p)
  {
    hide Reads, KeyText, Body;
    ReadsAt(s, p, Head(e, false), 0);
    if e.lead != [] {
      WhiteAt(e.lead, 0);
    }
  }

  lemma {:induction false} AllEntriesOk(keyed: bool, entries: seq<Entry>, k: nat)
    requires AllProper(keyed, entries) && k < |entries|
    ensures EntryOk(keyed, entries[k], k == 0) && Proper(entries[k].value)
    decreases |entries|
  {
    hide Proper, EntryOk;
    var n := |entries| - 1;
    if k < n {
      AllEntriesOk(keyed, entries[..n], k);
    }
  }

  /** Where an entry's key or value begins: behind the white space and, unless it is the first, the comma. */
  lemma EntryPart(s: seq<byte>, at: nat, v: Tree, k: nat) returns (q: nat)
    requires v.Box? && Reads(s, at, Spell(v)) && Proper(v) && k < |v.entries|
    ensures var e, pos := v.entries[k], at + 1 + |Inner(v.entries[..k])|;
      && q == pos + |Lead(e, k == 0)| + |e.before|
      && pos <= |s| && Skip(s, pos) < |s|
      && s[Skip(s, pos)] != Closes(if v.keyed then Object else Array)
      && (if k == 0 then Skip(s, pos) == q else s[Skip(s, pos)] == COMMA && Skip(s, Skip(s, pos) + 1) == q)
      && Reads(s, q, KeyText(e.key)) && Reads(s, q + |KeyText(e.key)|, Spell(e.value))
      && Ended(s, q + |KeyText(e.key)| + |Spell(e.value)|)
  {
    hide Inner, AllProper, Spell, Proper, Reads, EntryOk, Head, Lead, KeyText;
    var e, pos := v.entries[k], at + 1 + |Inner(v.entries[..k])|;
    BoxProper(v, k);
    BoxReads(s, at, v);
    InnerReads(s, at + 1, v.entries, k);
    ReadsParts(s, pos, Head(e, k == 0), Spell(e.value));
    AfterEntry(s, at, v, k);
    KidsMore(v.entries, k, 0);
    q := HeadPart(s, pos, e, k == 0, v.keyed);
  }

  lemma BoxProper(v: Tree, k: nat)
    requires v.Box? && Proper(v) && k < |v.entries|
    ensures EntryOk(v.keyed, v.entries[k], k == 0) && Proper(v.entries[k].value)
  {
    AllEntriesOk(v.keyed, v.entries, k);
  }

  /** The part of an entry before its value. */
  lemma HeadPart(s: seq<byte>, pos: nat, e: Entry, first: bool, keyed: bool) returns (q: nat)
    requires Reads(s, pos, Head(e, first)) && Reads(s, pos + |Head(e, first)|, Spell(e.value))
    requires EntryOk(keyed, e, first) && Proper(e.value)
    ensures q == pos + |Lead(e, first)| + |e.before|
    ensures pos <= |s| && Skip(s, pos) < |s| && s[Skip(s, pos)] != Closes(if keyed then Object else Array)
    ensures if first then Skip(s, pos) == q else s[Skip(s, pos)] == COMMA && Skip(s, Skip(s, pos) + 1) == q
    ensures Reads(s, q, KeyText(e.key)) && q + |KeyText(e.key)| == pos + |Head(e, first)|
  {
    hide Proper, Spell, Body, Reads, Skip, White, KeyText;
    var p := pos + |Lead(e, first)|;
    q := p + |e.before|;
    ReadsParts(s, pos, Lead(e, first), e.before + KeyText(e.key));
    ReadsParts(s, p, e.before, KeyText(e.key));
    BeginsRight(s, q, e);
    ReadsIs(s, p, e.before);
    SkipWhite(s, p, q);
    if !first {
      ReadsParts(s, pos, e.lead, [COMMA_BYTE]);
      ReadsAt(s, pos + |e.lead|, [COMMA_BYTE], 0);
      ReadsIs(s, pos, e.lead);
      SkipWhite(s, pos, pos + |e.lead|);
    }
  }

  /** The first byte of a key or value. */
  lemma BeginsRight(s: seq<byte>, q: nat, e: Entry)
    requires Reads(s, q, KeyText(e.key)) && Reads(s, q + |KeyText(e.key)|, Spell(e.value)) && Proper(e.value)
    ensures q < |s| && !Space(s[q]) && s[q] != 0x5D && s[q] != 0x7D
  {
    hide Proper, Spell, Reads;
    FirstByte(e.value);
    if e.key.Some? {
      ReadsAt(s, q, KeyText(e.key), 0);
    } else {
      ReadsAt(s, q, Spell(e.value), 0);
    }
  }

  /** An entry's key and value are parsed to its nodes. */
  lemma {:induction false} KidParses(s: seq<byte>, q: nat, depth: nat, keyed: bool, e: Entry, start: nat, first: bool)
    requires Reads(s, q, KeyText(e.key)) && Reads(s, q + |KeyText(e.key)|, Spell(e.value))
    requires Ended(s, q + |KeyText(e.key)| + |Spell(e.value)|)
    requires EntryOk(keyed, e, first) && Proper(e.value) && 0 < depth <= MAX_DEPTH && Within(e.value, MAX_DEPTH - depth)
    requires q == start + |Lead(e, first)| + |e.before|
    ensures q <= |s|
    ensures ParseKid(s, q, depth, if keyed then Object else Array)
      == Some((KidOf(e, start, first), q + |KeyText(e.key)| + |Spell(e.value)|))
    decreases e, 0, 0
  {
    hide Spell, Proper, Body, Within, EntryOk, Reads, ParseString, NodeOf, Lead, ParseKid, ParseValue, KidAt, KeyText;
    hide Skip;
    KeyOk(keyed, e, first);
    ReadsIs(s, q + |KeyText(e.key)|, Spell(e.value));
    if keyed {
      var r := KeyParses(s, q, e.key.value);
      ValueParses(s, r + 1, q + |KeyText(e.key)|, depth, e.value);
      KeyedKid(e.key, e.value, q);
      KeyedStep(s, q, depth, r);
    } else {
      NoKeyText(e.key);
      assert s[q..q] == [];
      ValueParses(s, q, q, depth, e.value);
      BareKid(e.key, e.value, q);
      BareStep(s, q, depth);
    }
  }

  lemma KeyedStep(s: seq<byte>, q: nat, depth: nat, r: nat)
    requires q < |s| && s[q] == QUOTE && ParseString(s, q).Some? && depth > 0
    requires r == Skip(s, ParseString(s, q).value.1) < |s| && s[r] == COLON && ParseValue(s, r + 1, depth).Some?
    ensures var key, value := ParseString(s, q).value, ParseValue(s, r + 1, depth).value;
      ParseKid(s, q, depth, Object) == Some(([key.0, value.0], value.1))
  {
    hide ParseString, ParseValue, Skip;
  }

  lemma BareStep(s: seq<byte>, q: nat, depth: nat)
    requires q <= |s| && depth > 0 && ParseValue(s, q, depth).Some?
    ensures var value := ParseValue(s, q, depth).value; ParseKid(s, q, depth, Array) == Some(([value.0], value.1))
  {
    hide ParseValue;
  }

  lemma NoKeyText(key: Option<Key>)
    requires key.None?
    ensures KeyText(key) == []
  {
  }

  lemma KeyedKid(key: Option<Key>, value: Tree, q: nat)
    requires key.Some?
    ensures KidAt(key, value, q)
      == [Node(String, q + 1, q + 1 + |key.value.body|, []), NodeOf(value, q + |KeyText(key)|)]
  {
    hide NodeOf, KeyText;
  }

  lemma BareKid(key: Option<Key>, value: Tree, q: nat)
    requires key.None?
    ensures KidAt(key, value, q) == [NodeOf(value, q)]
  {
    hide NodeOf;
  }

  lemma KeyOk(keyed: bool, e: Entry, first: bool)
    requires EntryOk(keyed, e, first)
    ensures e.key.Some? <==> keyed
    ensures e.key.Some? ==> Body(e.key.value.body) && White(e.key.value.mid) && White(e.key.value.after)
  {
  }

  /** A key: its string, and the colon behind it. */
  lemma KeyParses(s: seq<byte>, q: nat, key: Key) returns (r: nat)
    requires Reads(s, q, KeyText(Some(key))) && Body(key.body) && White(key.mid) && White(key.after)
    ensures q + |key.body| + 2 <= |s| && s[q] == QUOTE
    ensures ParseString(s, q) == Some((Node(String, q + 1, q + 1 + |key.body|, []), q + |key.body| + 2))
    ensures r == Skip(s, q + |key.body| + 2) < |s| && s[r] == COLON
    ensures r < q + |KeyText(Some(key))| <= |s| && White(s[r + 1..q + |KeyText(Some(key))|])
  {
    hide Body, ParseString, Reads, White, Skip;
    var more := [COLON_BYTE] + key.after;
    var p := q + |key.body| + 2;
    r := p + |key.mid|;
    KeyReads(s, q, key);
    QuotedParses(s, q, key.body);
    ReadsParts(s, p, key.mid, more);
    ReadsParts(s, r, [COLON_BYTE], key.after);
    ReadsAt(s, r, [COLON_BYTE], 0);
    ReadsIs(s, p, key.mid);
    ReadsIs(s, r + 1, key.after);
    SkipWhite(s, p, r);
  }

  lemma KeyReads(s: seq<byte>, q: nat, key: Key)
    requires Reads(s, q, KeyText(Some(key)))
    ensures Reads(s, q, [QUOTE_BYTE] + (key.body + [QUOTE_BYTE]))
    ensures Reads(s, q + |key.body| + 2, key.mid + ([COLON_BYTE] + key.after))
    ensures |KeyText(Some(key))| == |key.body| + |key.mid| + |key.after| + 3
  {
    hide Reads;
    var more := key.mid + ([COLON_BYTE] + key.after);
    var x := [QUOTE_BYTE] + (key.body + [QUOTE_BYTE]);
    assert KeyText(Some(key)) == x + more;
    ReadsParts(s, q, x, more);
  }

  // ----- what is parsed is spelled

  lemma {:induction false} SkippedIsWhite(s: seq<byte>, pos: nat)
    requires pos <= |s|
    ensures White(s[pos..Skip(s, pos)])
    decreases |s| - pos
  {
    if pos < |s| && Space(s[pos]) {
      SkippedIsWhite(s, pos + 1);
      var end := Skip(s, pos);
      assert s[pos..end] == [s[pos]] + s[pos + 1..end];
    }
  }

  lemma ReadsHere(s: seq<byte>, i: nat, end: nat)
    requires i <= end <= |s|
    ensures Reads(s, i, s[i..end]) && |s[i..end]| == end - i
  {
  }

  lemma ReadsJoin(s: seq<byte>, i: nat, x: seq<byte>, y: seq<byte>)
    requires Reads(s, i, x) && Reads(s, i + |x|, y)
    ensures Reads(s, i, x + y)
  {
    assert s[i..i + |x + y|] == s[i..i + |x|] + s[i + |x|..i + |x| + |y|];
  }

  lemma ReadsByte(s: seq<byte>, i: nat, b: byte)
    requires i < |s| && s[i] == b
    ensures Reads(s, i, [b])
  {
  }

  lemma QuotedSpelled(s: seq<byte>, at: nat) returns (body: seq<byte>)
    requires at < |s| && s[at] == QUOTE && ParseString(s, at).Some?
    ensures Body(body) && Reads(s, at, [QUOTE_BYTE] + (body + [QUOTE_BYTE]))
    ensures ParseString(s, at) == Some((Node(String, at + 1, at + 1 + |body|, []), at + |body| + 2))
  {
    hide Body, Scan, Reads;
    var end := Scan(s, at + 1).value;
    ScanIff(s, at + 1, end);
    body := s[at + 1..end];
    ReadsByte(s, at, QUOTE_BYTE);
    ReadsHere(s, at + 1, end);
    ReadsByte(s, end, QUOTE_BYTE);
    ReadsJoin(s, at + 1, body, [QUOTE_BYTE]);
    ReadsJoin(s, at, [QUOTE_BYTE], body + [QUOTE_BYTE]);
  }

  /** Whatever value is parsed is the spelling of a proper tree, after white space. */
  lemma {:induction false} ValueSpelled(s: seq<byte>, pos: nat, depth: nat) returns (v: Tree, at: nat)
    requires pos <= |s| && depth <= MAX_DEPTH && ParseValue(s, pos, depth).Some?
    ensures pos <= at <= |s| && White(s[pos..at]) && Reads(s, at, Spell(v)) && at == Skip(s, pos)
    ensures Proper(v) && Within(v, MAX_DEPTH - depth)
    ensures ParseValue(s, pos, depth) == Some((NodeOf(v, at), at + |Spell(v)|))
    decreases |s| - pos, 0
  {
    hide Reads, Skip, Inner, ParseString, ParsePrimitive, Body, IsWord, AllProper, AllWithin, KidsOf, White, ParseKids;
    at := Skip(s, pos);
    SkippedIsWhite(s, pos);
    if s[at] == QUOTE {
      var body := QuotedSpelled(s, at);
      v := Quoted(body);
    } else if Opens(s[at]).Some? {
      var keyed := s[at] == 0x7B;
      ClosesIs(keyed);
      NoInner();
      ReadsByte(s, at, Opening(keyed));
      ReadsNothing(s, at + 1);
      NoEntries(keyed, MAX_DEPTH - depth - 1);
      v := KidsSpelled(s, at + 1, depth + 1, keyed, at, []);
    } else {
      v := WordSpelled(s, at);
    }
  }

  lemma ReadsNothing(s: seq<byte>, i: nat)
    requires i <= |s|
    ensures Reads(s, i, [])
  {
  }

  lemma NoWhite()
    ensures White([])
  {
  }

  lemma NoEntries(keyed: bool, d: nat)
    ensures AllProper(keyed, []) && AllWithin([], d)
  {
  }

  lemma WordSpelled(s: seq<byte>, at: nat) returns (v: Tree)
    requires at < |s| && ParsePrimitive(s, at).Some?
    ensures v.Word? && IsWord(v.text) && Reads(s, at, v.text)
    ensures ParsePrimitive(s, at) == Some((Node(Primitive, at, at + |v.text|, []), at + |v.text|))
  {
    hide PrimitiveValid, IsWord;
    var e := PrimitiveEnd(s, at);
    v := Word(s[at..e]);
    WordIs(s[at..e]);
  }

  lemma {:induction false} KidsSpelled(s: seq<byte>, pos: nat, depth: nat, keyed: bool, start: nat, entries: seq<Entry>)
    returns (v: Tree)
    requires 0 < depth <= MAX_DEPTH && pos == start + 1 + |Inner(entries)| <= |s|
    requires Reads(s, start, [Opening(keyed)]) && Reads(s, start + 1, Inner(entries))
    requires AllProper(keyed, entries) && AllWithin(entries, MAX_DEPTH - depth)
    requires ParseKids(s, pos, depth, if keyed then Object else Array, start, KidsOf(entries, start + 1)).Some?
    ensures Proper(v) && Within(v, MAX_DEPTH - depth + 1) && Reads(s, start, Spell(v))
    ensures ParseKids(s, pos, depth, if keyed then Object else Array, start, KidsOf(entries, start + 1))
      == Some((NodeOf(v, start), start + |Spell(v)|))
    decreases |s| - pos, 2
  {
    hide Reads, Skip, Inner, ParseKids, ParseKid, AllProper, AllWithin, KidsOf, White, Proper, Within, Spell, NodeOf;
    hide Head, Lead, KeyText, EntryOk, KidAt, Body;
    var kind := if keyed then Object else Array;
    var kids := KidsOf(entries, start + 1);
    KidsStep(s, pos, depth, kind, start, kids);
    KidsCount(entries, start + 1);
    SkippedIsWhite(s, pos);
    ClosesIs(keyed);
    var p := Skip(s, pos);
    if s[p] == Closes(kind) {
      v := Box(keyed, entries, s[pos..p]);
      ClosedBox(s, pos, p, keyed, start, entries, MAX_DEPTH - depth);
    } else {
      var first := entries == [];
      var q := if first then p else Skip(s, p + 1);
      SkipTwice(s, pos);
      if !first {
        SkippedIsWhite(s, p + 1);
        SkipTwice(s, p + 1);
      }
      var key, value := KidSpelled(s, q, depth, keyed);
      var lead := if first then [] else s[pos..p];
      var before := if first then s[pos..p] else s[p + 1..q];
      var e := Entry(lead, before, key, value);
      NoWhite();
      LeadLength(e, first);
      MoreEntries(s, pos, p, q, depth, keyed, start, entries, e);
      v := KidsSpelled(s, q + |KeyText(key)| + |Spell(value)|, depth, keyed, start, entries + [e]);
    }
  }

  lemma ClosedBox(s: seq<byte>, pos: nat, p: nat, keyed: bool, start: nat, entries: seq<Entry>, d: nat)
    requires pos <= p < |s| && White(s[pos..p]) && s[p] == Closing(keyed) && pos == start + 1 + |Inner(entries)|
    requires Reads(s, start, [Opening(keyed)]) && Reads(s, start + 1, Inner(entries))
    requires AllProper(keyed, entries) && AllWithin(entries, d)
    ensures var v := Box(keyed, entries, s[pos..p]);
      && Proper(v) && Within(v, d + 1) && Reads(s, start, Spell(v)) && start + |Spell(v)| == p + 1
      && NodeOf(v, start) == Node(if keyed then Object else Array, start, p + 1, KidsOf(entries, start + 1))
  {
    hide Reads, Inner, AllProper, AllWithin, KidsOf, White;
    var v, gap := Box(keyed, entries, s[pos..p]), s[pos..p];
    ReadsHere(s, pos, p);
    ReadsByte(s, p, Closing(keyed));
    ReadsJoin(s, pos, gap, [Closing(keyed)]);
    ReadsJoin(s, start + 1, Inner(entries), gap + [Closing(keyed)]);
    ReadsJoin(s, start, [Opening(keyed)], Inner(entries) + (gap + [Closing(keyed)]));
  }

  lemma MoreEntries(s: seq<byte>, pos: nat, p: nat, q: nat, depth: nat, keyed: bool, start: nat, entries: seq<Entry>,
                    e: Entry)
    requires 0 < depth <= MAX_DEPTH && pos == start + 1 + |Inner(entries)| && pos <= p <= q <= |s|
    requires Reads(s, start + 1, Inner(entries)) && AllProper(keyed, entries) && AllWithin(entries, MAX_DEPTH - depth)
    requires if entries == [] then p == q && e.lead == [] && e.before == s[pos..p]
             else p < q && s[p] == COMMA && e.lead == s[pos..p] && e.before == s[p + 1..q]
    requires White(e.lead) && White(e.before) && (e.key.Some? <==> keyed)
    requires e.key.Some? ==> Body(e.key.value.body) && White(e.key.value.mid) && White(e.key.value.after)
    requires Proper(e.value) && Within(e.value, MAX_DEPTH - depth)
    requires Reads(s, q, KeyText(e.key)) && Reads(s, q + |KeyText(e.key)|, Spell(e.value))
    ensures var more := entries + [e];
      && AllProper(keyed, more) && AllWithin(more, MAX_DEPTH - depth)
      && start + 1 + |Inner(more)| == q + |KeyText(e.key)| + |Spell(e.value)| && Reads(s, start + 1, Inner(more))
      && KidsOf(more, start + 1) == KidsOf(entries, start + 1) + KidOf(e, pos, entries == [])
  {
    hide Reads, Inner, KidsOf, KidOf, White, Proper, Within, Spell, KeyText, Body, AllProper, AllWithin, Head;
    var more, k := entries + [e], |entries|;
    assert more[..k] == entries && more[..k + 1] == more;
    KidsMore(more, k, start + 1);
    AppendProper(keyed, entries, e, MAX_DEPTH - depth);
    HeadReads(s, pos, p, q, entries == [], e);
    HeadLength(e, entries == []);
    ReadsJoin(s, pos, Head(e, entries == []), Spell(e.value));
    ReadsJoin(s, start + 1, Inner(entries), Head(e, entries == []) + Spell(e.value));
    InnerMore(entries, e);
    LeadLength(e, entries == []);
  }

  lemma LeadLength(e: Entry, first: bool)
    ensures |Lead(e, first)| == if first then 0 else |e.lead| + 1
  {
  }

  lemma InnerMore(entries: seq<Entry>, e: Entry)
    ensures Inner(entries + [e]) == Inner(entries) + (Head(e, entries == []) + Spell(e.value))
  {
    hide Head, Spell;
    var more := entries + [e];
    assert more[..|more| - 1] == entries;
  }

  lemma AppendProper(keyed: bool, entries: seq<Entry>, e: Entry, d: nat)
    requires AllProper(keyed, entries) && AllWithin(entries, d) && Proper(e.value) && Within(e.value, d)
    requires EntryOk(keyed, e, entries == [])
    ensures AllProper(keyed, entries + [e]) && AllWithin(entries + [e], d)
  {
    hide Proper, Within, EntryOk;
    var more := entries + [e];
    assert more[..|more| - 1] == entries;
  }

  lemma HeadReads(s: seq<byte>, pos: nat, p: nat, q: nat, first: bool, e: Entry)
    requires pos <= p <= q <= |s| && Reads(s, q, KeyText(e.key))
    requires if first then p == q && e.lead == [] && e.before == s[pos..p]
             else p < q && s[p] == COMMA && e.lead == s[pos..p] && e.before == s[p + 1..q]
    ensures Reads(s, pos, Head(e, first)) && pos + |Head(e, first)| == q + |KeyText(e.key)|
  {
    hide Reads, KeyText;
    if first {
      ReadsNothing(s, pos);
      ReadsHere(s, pos, q);
    } else {
      ReadsHere(s, pos, p);
      ReadsByte(s, p, COMMA_BYTE);
      ReadsJoin(s, pos, e.lead, [COMMA_BYTE]);
      ReadsHere(s, p + 1, q);
    }
    var b := q - |e.before|;
    ReadsJoin(s, b, e.before, KeyText(e.key));
    ReadsJoin(s, pos, Lead(e, first), e.before + KeyText(e.key));
  }

  lemma {:induction false} KidSpelled(s: seq<byte>, q: nat, depth: nat, keyed: bool)
    returns (key: Option<Key>, value: Tree)
    requires q <= |s| && 0 < depth <= MAX_DEPTH && Skip(s, q) == q
    requires ParseKid(s, q, depth, if keyed then Object else Array).Some?
    ensures key.Some? <==> keyed
    ensures key.Some? ==> Body(key.value.body) && White(key.value.mid) && White(key.value.after)
    ensures Proper(value) && Within(value, MAX_DEPTH - depth)
    ensures Reads(s, q, KeyText(key)) && Reads(s, q + |KeyText(key)|, Spell(value))
    ensures ParseKid(s, q, depth, if keyed then Object else Array)
      == Some((KidAt(key, value, q), q + |KeyText(key)| + |Spell(value)|))
    decreases |s| - q, 1
  {
    hide Reads, Skip, ParseKid, White, Proper, Within, Spell, NodeOf, Body, ParseString, KidOf, KidAt, Lead, ParseValue;
    hide KeyText;
    var at;
    if keyed {
      KeyedParts(s, q, depth);
      var body := QuotedSpelled(s, q);
      var p := q + |body| + 2;
      var r := Skip(s, p);
      SkippedIsWhite(s, p);
      value, at := ValueSpelled(s, r + 1, depth);
      var k := Key(body, s[p..r], s[r + 1..at]);
      key := Some(k);
      KeySpelled(s, q, r, at, k);
      KeyedStep(s, q, depth, r);
      KeyedKid(key, value, q);
    } else {
      key := None;
      NoKeyText(key);
      ReadsNothing(s, q);
      BareParts(s, q, depth);
      value, at := ValueSpelled(s, q, depth);
      BareKid(key, value, q);
      BareStep(s, q, depth);
    }
  }

  lemma BareParts(s: seq<byte>, q: nat, depth: nat)
    requires q <= |s| && depth > 0 && ParseKid(s, q, depth, Array).Some?
    ensures ParseValue(s, q, depth).Some?
  {
    hide ParseValue;
  }

  lemma KeyedParts(s: seq<byte>, q: nat, depth: nat)
    requires q <= |s| && depth > 0 && ParseKid(s, q, depth, Object).Some?
    ensures q < |s| && s[q] == QUOTE && ParseString(s, q).Some?
    ensures var r := Skip(s, ParseString(s, q).value.1); r < |s| && s[r] == COLON && ParseValue(s, r + 1, depth).Some?
  {
    hide ParseString, ParseValue, Skip;
  }

  lemma KeySpelled(s: seq<byte>, q: nat, r: nat, at: nat, k: Key)
    requires Reads(s, q, [QUOTE_BYTE] + (k.body + [QUOTE_BYTE])) && q + |k.body| + 2 <= r < at <= |s| && s[r] == COLON
    requires k.mid == s[q + |k.body| + 2..r] && k.after == s[r + 1..at]
    ensures Reads(s, q, KeyText(Some(k))) && q + |KeyText(Some(k))| == at
  {
    hide Reads;
    var x := [QUOTE_BYTE] + (k.body + [QUOTE_BYTE]);
    var more := k.mid + ([COLON_BYTE] + k.after);
    ReadsHere(s, r + 1, at);
    ReadsByte(s, r, COLON_BYTE);
    ReadsJoin(s, r, [COLON_BYTE], k.after);
    ReadsHere(s, q + |k.body| + 2, r);
    ReadsJoin(s, q + |k.body| + 2, k.mid, [COLON_BYTE] + k.after);
    ReadsJoin(s, q, x, more);
    assert KeyText(Some(k)) == x + more;
  }

  lemma {:induction false} SkipTwice(s: seq<byte>, pos: nat)
    requires pos <= |s|
    ensures Skip(s, Skip(s, pos)) == Skip(s, pos)
    decreases |s| - pos
  {
    if pos < |s| && Space(s[pos]) {
      SkipTwice(s, pos + 1);
    }
  }

  lemma DocumentParses(s: seq<byte>, lead: seq<byte>, v: Tree, tail: seq<byte>)
    requires IsDocument(s, lead, v, tail)
    ensures ParseValue(s, 0, 0) == Some((NodeOf(v, |lead|), |lead| + |Spell(v)|))
    ensures Skip(s, |lead| + |Spell(v)|) == |s|
  {
    hide ParseValue, Skip, White, Proper, Within, Spell, NodeOf;
    var at, end := |lead|, |lead| + |Spell(v)|;
    assert s[at..end] == Spell(v) && s[0..at] == lead && s[end..|s|] == tail;
    TailEnds(s, end);
    ValueParses(s, 0, at, 0, v);
    SkipWhite(s, end, |s|);
  }

  lemma DocumentSpelled(s: seq<byte>) returns (lead: seq<byte>, v: Tree, tail: seq<byte>)
    requires ParseValue(s, 0, 0).Some? && Skip(s, ParseValue(s, 0, 0).value.1) == |s|
    ensures IsDocument(s, lead, v, tail) && ParseValue(s, 0, 0).value.0 == NodeOf(v, |lead|)
  {
    hide ParseValue, Skip, White, Proper, Within, Spell, NodeOf;
    var at;
    v, at := ValueSpelled(s, 0, 0);
    var end := at + |Spell(v)|;
    SkippedIsWhite(s, end);
    lead, tail := s[0..at], s[end..|s|];
    ReadsIs(s, at, Spell(v));
    assert s == s[0..at] + s[at..end] + s[end..|s|];
  }

  /** A text that is one value with white space around it. */
  predicate Parses(s: seq<byte>) {
    ParseValue(s, 0, 0).Some? && Skip(s, ParseValue(s, 0, 0).value.1) == |s|
  }

  /** The parser takes exactly the spellings of proper trees that are nested at most 256 deep, with white space around,
      and gives their nodes. */
  lemma DocumentIff(s: seq<byte>, n: Node)
    ensures Parses(s) && ParseValue(s, 0, 0).value.0 == n
      <==> exists lead, v, tail :: IsDocument(s, lead, v, tail) && n == NodeOf(v, |lead|)
  {
    hide ParseValue, Skip, IsDocument, NodeOf, Spell;
    if Parses(s) {
      var lead, v, tail := DocumentSpelled(s);
    }
    forall lead, v, tail | IsDocument(s, lead, v, tail)
      ensures Parses(s) && ParseValue(s, 0, 0).value.0 == NodeOf(v, |lead|)
    {
      DocumentParses(s, lead, v, tail);
    }
  }

  lemma TailEnds(s: seq<byte>, end: nat)
    requires end <= |s| && White(s[end..|s|])
    ensures Ended(s, end)
  {
    if end < |s| {
      WhiteAt(s[end..|s|], 0);
    }
  }

  ghost predicate IsDocument(s: seq<byte>, lead: seq<byte>, v: Tree, tail: seq<byte>) {
    White(lead) && White(tail) && Proper(v) && Within(v, 256) && s == lead + Spell(v) + tail
  }
}
