/** The JSON parser (src/json.inc:1-146): it appends tokens to one flat array, which is always the preorder of a
    tree. */
module JsonParse {
  import opened Wrappers
  import opened Utf8
  import opened JsonStrings

  const MAX_DEPTH: nat := 256
  const MAX_JSON: nat := 64 * 1024 * 1024

  const COMMA: byte := 0x2C
  const COLON: byte := 0x3A

  datatype Kind = Object | Array | String | Primitive

  /** A token as it is stored: its place in the text, the index of its parent, and how many children it has. */
  datatype Tok = Tok(kind: Kind, start: int, end: int, parent: int, size: nat)

  /** A value and the values directly in it: an object's are its keys, each followed by what it maps to. */
  datatype Node = Node(kind: Kind, start: nat, end: nat, kids: seq<Node>)

  function Count(n: Node): (c: nat)
    ensures c == 1 + CountAll(n.kids)
  {
    1 + CountAll(n.kids)
  }

  function CountAll(kids: seq<Node>): nat {
    if kids == [] then 0 else CountAll(kids[..|kids| - 1]) + Count(kids[|kids| - 1])
  }

  /** A tree's tokens in preorder, when the first is stored at `base`. */
  function Flat(n: Node, base: nat, parent: int): (toks: seq<Tok>)
    ensures |toks| == Count(n)
  {
    [Tok(n.kind, n.start, n.end, parent, |n.kids|)] + FlatAll(n.kids, base + 1, base)
  }

  function FlatAll(kids: seq<Node>, base: nat, parent: int): (toks: seq<Tok>)
    ensures |toks| == CountAll(kids)
  {
    if kids == [] then []
    else
      FlatAll(kids[..|kids| - 1], base, parent)
      + Flat(kids[|kids| - 1], base + CountAll(kids[..|kids| - 1]), parent)
  }

  lemma FlatAppend(kids: seq<Node>, kid: Node, base: nat, parent: int)
    ensures CountAll(kids + [kid]) == CountAll(kids) + Count(kid)
    ensures FlatAll(kids + [kid], base, parent)
      == FlatAll(kids, base, parent) + Flat(kid, base + CountAll(kids), parent)
  {
    assert (kids + [kid])[..|kids|] == kids;
  }

  predicate Space(b: byte) {
    9 <= b <= 13 || b == 32
  }

  predicate Digit(b: byte) {
    0x30 <= b <= 0x39
  }

  /** The first place from `pos` on that is not white space. */
  function Skip(s: seq<byte>, pos: nat): (p: nat)
    requires pos <= |s|
    ensures pos <= p <= |s| && (p < |s| ==> !Space(s[p]))
    decreases |s| - pos
  {
    if pos < |s| && Space(s[pos]) then Skip(s, pos + 1) else pos
  }

  /** What ends a primitive: white space, punctuation, or a NUL, which is in every C string. */
  predicate Stops(b: byte) {
    Space(b) || b == COMMA || b == 0x5D || b == 0x7D || b == COLON || b == 0
  }

  function PrimitiveEnd(s: seq<byte>, pos: nat): (p: nat)
    requires pos <= |s|
    ensures pos <= p <= |s| && (p < |s| ==> Stops(s[p])) && forall k | pos <= k < p :: !Stops(s[k])
    decreases |s| - pos
  {
    if pos < |s| && !Stops(s[pos]) then PrimitiveEnd(s, pos + 1) else pos
  }

  function Digits(z: seq<byte>, i: nat): (j: nat)
    requires i <= |z|
    ensures i <= j <= |z|
    decreases |z| - i
  {
    if i < |z| && Digit(z[i]) then Digits(z, i + 1) else i
  }

  /** The literals and the number grammar of section 6 of RFC 8259. */
  predicate PrimitiveValid(z: seq<byte>) {
    z == [0x74, 0x72, 0x75, 0x65] || z == [0x6E, 0x75, 0x6C, 0x6C] || z == [0x66, 0x61, 0x6C, 0x73, 0x65]
      || NumberValid(z)
  }

  predicate NumberValid(z: seq<byte>) {
    var i: nat := if |z| > 0 && z[0] == 0x2D then 1 else 0;
    i < |z| && Digit(z[i])
    && var j := if z[i] == 0x30 then i + 1 else Digits(z, i);
      FractionValid(z, j)
  }

  predicate FractionValid(z: seq<byte>, i: nat)
    requires i <= |z|
  {
    if i < |z| && z[i] == 0x2E then Digits(z, i + 1) > i + 1 && ExponentValid(z, Digits(z, i + 1))
      else ExponentValid(z, i)
  }

  predicate ExponentValid(z: seq<byte>, i: nat)
    requires i <= |z|
  {
    if i < |z| && (z[i] == 0x65 || z[i] == 0x45) then
      var j := if i + 1 < |z| && (z[i + 1] == 0x2B || z[i + 1] == 0x2D) then i + 2 else i + 1;
      Digits(z, j) > j && Digits(z, j) == |z|
    else i == |z|
  }

  /** The primitive check's scan. */
  method CheckPrimitive(z: seq<byte>) returns (valid: bool)
    ensures valid == PrimitiveValid(z)
  {
    if z == [0x74, 0x72, 0x75, 0x65] || z == [0x6E, 0x75, 0x6C, 0x6C] || z == [0x66, 0x61, 0x6C, 0x73, 0x65] {
      return true;
    }
    valid := CheckNumber(z);
  }

  method CheckNumber(z: seq<byte>) returns (valid: bool)
    ensures valid == NumberValid(z)
  {
    hide FractionValid, ExponentValid, Digits;
    var i: nat := 0;
    if i < |z| && z[i] == 0x2D {
      i := i + 1;
    }
    if i >= |z| {
      return false;
    }
    if z[i] == 0x30 {
      i := i + 1;
    } else {
      if z[i] < 0x31 || z[i] > 0x39 {
        return false;
      }
      i := PassDigits(z, i);
    }
    valid := CheckFraction(z, i);
  }

  method CheckFraction(z: seq<byte>, at: nat) returns (valid: bool)
    requires at <= |z|
    ensures valid == FractionValid(z, at)
  {
    hide ExponentValid, Digits;
    var i := at;
    if i < |z| && z[i] == 0x2E {
      i := i + 1;
      var begin := i;
      i := PassDigits(z, i);
      if i == begin {
        return false;
      }
    }
    valid := CheckExponent(z, i);
  }

  method CheckExponent(z: seq<byte>, at: nat) returns (valid: bool)
    requires at <= |z|
    ensures valid == ExponentValid(z, at)
  {
    hide Digits;
    var i := at;
    if i < |z| && (z[i] == 0x65 || z[i] == 0x45) {
      i := i + 1;
      if i < |z| && (z[i] == 0x2B || z[i] == 0x2D) {
        i := i + 1;
      }
      var begin := i;
      i := PassDigits(z, i);
      if i == begin {
        return false;
      }
    }
    return i == |z|;
  }

  method PassDigits(z: seq<byte>, i: nat) returns (j: nat)
    requires i <= |z|
    ensures j == Digits(z, i)
  {
    j := i;
    while j < |z| && Digit(z[j])
      invariant i <= j <= |z| && Digits(z, j) == Digits(z, i)
    {
      j := j + 1;
    }
  }

  /** A value and the place after it, or the failure the parser dies with. */
  type Parsed = Option<(Node, nat)>

  function Opens(b: byte): Option<Kind> {
    if b == 0x7B then Some(Object) else if b == 0x5B then Some(Array) else None
  }

  function Closes(kind: Kind): byte {
    if kind == Object then 0x7D else 0x5D
  }

  function ParseString(s: seq<byte>, p: nat): (r: Parsed)
    requires p < |s|
    ensures r.Some? ==> p < r.value.1 <= |s|
  {
    if Scan(s, p + 1).None? then None
    else
      ScanEnds(s, p + 1);
      Some((Node(String, p + 1, Scan(s, p + 1).value, []), Scan(s, p + 1).value + 1))
  }

  function ParsePrimitive(s: seq<byte>, p: nat): (r: Parsed)
    requires p < |s|
    ensures r.Some? ==> p < r.value.1 <= |s|
  {
    var e := PrimitiveEnd(s, p);
    if e == p || !PrimitiveValid(s[p..e]) then None else Some((Node(Primitive, p, e, []), e))
  }

  /** The grammar: a value from `pos` on, inside `depth` containers. */
  function ParseValue(s: seq<byte>, pos: nat, depth: nat): (r: Parsed)
    requires pos <= |s|
    ensures r.Some? ==> pos < r.value.1 <= |s|
    decreases |s| - pos, 0
  {
    var p := Skip(s, pos);
    if p >= |s| then None
    else if s[p] == QUOTE then ParseString(s, p)
    else if Opens(s[p]).Some? then
      if depth + 1 > MAX_DEPTH then None else ParseKids(s, p + 1, depth + 1, Opens(s[p]).value, p, [])
    else ParsePrimitive(s, p)
  }

  /** The rest of a container that starts at `start` and holds `kids` so far. */
  function ParseKids(s: seq<byte>, pos: nat, depth: nat, kind: Kind, start: nat, kids: seq<Node>): (r: Parsed)
    requires pos <= |s| && depth > 0
    ensures r.Some? ==> pos < r.value.1 <= |s|
    decreases |s| - pos, 2
  {
    var p := Skip(s, pos);
    if p >= |s| then None
    else if s[p] == Closes(kind) then Some((Node(kind, start, p + 1, kids), p + 1))
    else if kids != [] && s[p] != COMMA then None
    else
      var kid := ParseKid(s, if kids != [] then Skip(s, p + 1) else p, depth, kind);
      if kid.None? then None else ParseKids(s, kid.value.1, depth, kind, start, kids + kid.value.0)
  }

  /** What a container adds at a time: an array a value, an object a key and a value. */
  function ParseKid(s: seq<byte>, q: nat, depth: nat, kind: Kind): (r: Option<(seq<Node>, nat)>)
    requires q <= |s| && depth > 0
    ensures r.Some? ==> q < r.value.1 <= |s| && |r.value.0| == if kind == Object then 2 else 1
    decreases |s| - q, 1
  {
    if kind == Object then
      if q >= |s| || s[q] != QUOTE then None
      else
        var key := ParseString(s, q);
        if key.None? then None
        else
          var r := Skip(s, key.value.1);
          if r >= |s| || s[r] != COLON then None
          else
            var value := ParseValue(s, r + 1, depth);
            if value.None? then None else Some(([key.value.0, value.value.0], value.value.1))
    else
      var value := ParseValue(s, q, depth);
      if value.None? then None else Some(([value.value.0], value.value.1))
  }

  lemma KidsStep(s: seq<byte>, pos: nat, depth: nat, kind: Kind, start: nat, kids: seq<Node>)
    requires pos <= |s| && depth > 0
    ensures var p, r := Skip(s, pos), ParseKids(s, pos, depth, kind, start, kids);
      if p >= |s| then r.None?
      else if s[p] == Closes(kind) then r == Some((Node(kind, start, p + 1, kids), p + 1))
      else if kids != [] && s[p] != COMMA then r.None?
      else
        var kid := ParseKid(s, if kids != [] then Skip(s, p + 1) else p, depth, kind);
        if kid.None? then r.None? else r == ParseKids(s, kid.value.1, depth, kind, start, kids + kid.value.0)
  {
  }

  /** The parser's state: a cursor, the depth, and a token array that grows. */
  class Parser {
    const s: seq<byte>
    var pos: nat
    var depth: nat
    var toks: seq<Tok>

    constructor (text: seq<byte>)
      ensures s == text && pos == 0 && depth == 0 && toks == []
    {
      s, pos, depth, toks := text, 0, 0, [];
    }

    /** Adds a token, and counts it at its parent. */
    method New(kind: Kind, start: int, parent: int) returns (i: nat)
      requires -1 <= parent < |toks|
      modifies this`toks
      ensures i == |old(toks)| && toks == Counted(old(toks), parent) + [Tok(kind, start, -1, parent, 0)]
    {
      i := |toks|;
      toks := toks + [Tok(kind, start, -1, parent, 0)];
      if parent >= 0 {
        toks := toks[parent := toks[parent].(size := toks[parent].size + 1)];
      }
    }

    method SkipSpace()
      requires pos <= |s|
      modifies this`pos
      ensures pos == Skip(s, old(pos))
    {
      while pos < |s| && Space(s[pos])
        invariant pos <= |s| && Skip(s, pos) == Skip(s, old(pos))
      {
        pos := pos + 1;
      }
    }

    method StringToken(parent: int) returns (ok: bool)
      requires pos < |s| && -1 <= parent < |toks|
      modifies this`pos, this`toks
      ensures ok <==> ParseString(s, old(pos)).Some?
      ensures ok ==> var r := ParseString(s, old(pos)).value;
        pos == r.1 && toks == Counted(old(toks), parent) + Flat(r.0, |old(toks)|, parent)
    {
      pos := pos + 1;
      var i := New(String, pos, parent);
      var end := ScanString(s, pos);
      if end.None? {
        return false;
      }
      ScanEnds(s, pos);
      pos := end.value + 1;
      toks := toks[i := toks[i].(end := end.value)];
      return true;
    }

    method PrimitiveToken(parent: int) returns (ok: bool)
      requires pos < |s| && -1 <= parent < |toks|
      modifies this`pos, this`toks
      ensures ok <==> ParsePrimitive(s, old(pos)).Some?
      ensures ok ==> var r := ParsePrimitive(s, old(pos)).value;
        pos == r.1 && toks == Counted(old(toks), parent) + Flat(r.0, |old(toks)|, parent)
    {
      var start := pos;
      var i := New(Primitive, pos, parent);
      while pos < |s| && !Stops(s[pos])
        invariant toks == Counted(old(toks), parent) + [Tok(Primitive, start, -1, parent, 0)]
        invariant start <= pos <= |s| && PrimitiveEnd(s, pos) == PrimitiveEnd(s, start)
      {
        pos := pos + 1;
      }
      toks := toks[i := toks[i].(end := pos)];
      if pos == start {
        return false;
      }
      ok := CheckPrimitive(s[start..pos]);
    }

    /** Parses a value: it succeeds exactly on the grammar, leaves the depth as it was, and appends the value's tokens
        in preorder, counted at their parent. */
    method Value(parent: int) returns (ok: bool)
      requires pos <= |s| && -1 <= parent < |toks|
      modifies this`pos, this`toks, this`depth
      ensures ok <==> ParseValue(s, old(pos), old(depth)).Some?
      ensures ok ==> depth == old(depth)
      ensures ok ==> var r := ParseValue(s, old(pos), old(depth)).value;
        pos == r.1 && toks == Counted(old(toks), parent) + Flat(r.0, |old(toks)|, parent)
      decreases |s| - pos, 1
    {
      hide PrimitiveValid, Scan, Flat, Counted, ParsePrimitive, ParseString;
      SkipSpace();
      if pos >= |s| {
        return false;
      }
      if s[pos] == QUOTE {
        ok := StringToken(parent);
      } else if s[pos] == 0x7B || s[pos] == 0x5B {
        ok := Container(parent);
      } else {
        ok := PrimitiveToken(parent);
      }
    }

    method Container(parent: int) returns (ok: bool)
      requires pos < |s| && -1 <= parent < |toks| && Opens(s[pos]).Some?
      modifies this`pos, this`toks, this`depth
      ensures var r := if old(depth) + 1 > MAX_DEPTH then None
                       else ParseKids(s, old(pos) + 1, old(depth) + 1, Opens(s[old(pos)]).value, old(pos), []);
        && (ok <==> r.Some?)
        && (ok ==> depth == old(depth) && pos == r.value.1
                   && toks == Counted(old(toks), parent) + Flat(r.value.0, |old(toks)|, parent))
      decreases |s| - pos, 0
    {
      hide PrimitiveValid, Scan, Flat, FlatAll, Counted, Open, ParseValue, ParseKids, ParseString, ParseKid, Skip;
      var kind := if s[pos] == 0x7B then Object else Array;
      var start := pos;
      var i := New(kind, pos, parent);
      pos := pos + 1;
      depth := depth + 1;
      if depth > MAX_DEPTH {
        return false;
      }
      ghost var kids: seq<Node> := [];
      ghost var past := Counted(old(toks), parent);
      ghost var whole := ParseKids(s, pos, depth, kind, start, []);
      OpenNone(past, kind, start, parent);
      while true
        invariant start < pos <= |s| && depth == old(depth) + 1
        invariant i == |past| && toks == Open(past, kind, start, parent, kids)
        invariant ParseKids(s, pos, depth, kind, start, kids) == whole
        decreases |s| - pos
      {
        KidsStep(s, pos, depth, kind, start, kids);
        SkipSpace();
        if pos >= |s| {
          return false;
        }
        if s[pos] == Closes(kind) {
          pos := pos + 1;
          toks := toks[i := toks[i].(end := pos)];
          depth := depth - 1;
          OpenClosed(past, kind, start, parent, kids, pos);
          return true;
        }
        if toks[i].size != 0 {
          pos := pos + 1;
          if s[pos - 1] != COMMA {
            return false;
          }
          SkipSpace();
        }
        ghost var kid := ParseKid(s, pos, depth, kind);
        ok := Kid(kind, i, past, start, parent, kids);
        if !ok {
          return false;
        }
        kids := kids + kid.value.0;
      }
    }

    /** A container's next value, with its key in an object. */
    method Kid(kind: Kind, i: nat, ghost past: seq<Tok>, ghost start: nat, ghost parent: int, ghost kids: seq<Node>)
      returns (ok: bool)
      requires pos <= |s| && depth > 0 && i == |past| && toks == Open(past, kind, start, parent, kids)
      modifies this`pos, this`toks, this`depth
      ensures var r := ParseKid(s, old(pos), old(depth), kind);
        && (ok <==> r.Some?)
        && (ok ==> depth == old(depth) && pos == r.value.1 && toks == Open(past, kind, start, parent, kids + r.value.0))
      decreases |s| - pos, 2
    {
      hide PrimitiveValid, Scan, Flat, FlatAll, Counted, Open, ParseValue, ParseString;
      if kind == Object {
        if pos >= |s| || s[pos] != QUOTE {
          return false;
        }
        ghost var key := ParseString(s, pos);
        ok := StringToken(i);
        if !ok {
          return false;
        }
        OpenKid(past, kind, start, parent, kids, key.value.0);
        SkipSpace();
        if pos >= |s| {
          return false;
        }
        pos := pos + 1;
        if s[pos - 1] != COLON {
          return false;
        }
        ghost var value := ParseValue(s, pos, depth);
        ok := Value(i);
        if ok {
          OpenKid(past, kind, start, parent, kids + [key.value.0], value.value.0);
          assert kids + [key.value.0] + [value.value.0] == kids + [key.value.0, value.value.0];
        }
      } else {
        ghost var value := ParseValue(s, pos, depth);
        ok := Value(i);
        if ok {
          OpenKid(past, kind, start, parent, kids, value.value.0);
        }
      }
    }
  }

  /** The token array while a container is being read: its end is not known yet, its children are there and counted. */
  function Open(past: seq<Tok>, kind: Kind, start: nat, parent: int, kids: seq<Node>): (toks: seq<Tok>)
    ensures |past| < |toks| && toks[|past|] == Tok(kind, start, -1, parent, |kids|)
  {
    past + [Tok(kind, start, -1, parent, |kids|)] + FlatAll(kids, |past| + 1, |past|)
  }

  lemma OpenNone(past: seq<Tok>, kind: Kind, start: nat, parent: int)
    ensures Open(past, kind, start, parent, []) == past + [Tok(kind, start, -1, parent, 0)]
  {
  }

  lemma OpenKid(past: seq<Tok>, kind: Kind, start: nat, parent: int, kids: seq<Node>, kid: Node)
    ensures var toks := Open(past, kind, start, parent, kids);
      Counted(toks, |past|) + Flat(kid, |toks|, |past|) == Open(past, kind, start, parent, kids + [kid])
  {
    hide Flat, FlatAll, CountAll, Count;
    FlatAppend(kids, kid, |past| + 1, |past|);
    var t, t' := Tok(kind, start, -1, parent, |kids|), Tok(kind, start, -1, parent, |kids| + 1);
    var rest, more := FlatAll(kids, |past| + 1, |past|), Flat(kid, |past| + 1 + CountAll(kids), |past|);
    ReplaceThenAppend(past, t, t', rest, more);
  }

  lemma ReplaceThenAppend(past: seq<Tok>, t: Tok, t': Tok, rest: seq<Tok>, more: seq<Tok>)
    ensures (past + [t] + rest)[|past| := t'] + more == past + [t'] + (rest + more)
    ensures |past + [t] + rest| == |past| + 1 + |rest| && (past + [t] + rest)[|past|] == t
  {
  }

  lemma OpenClosed(past: seq<Tok>, kind: Kind, start: nat, parent: int, kids: seq<Node>, end: nat)
    ensures var toks := Open(past, kind, start, parent, kids);
      toks[|past| := toks[|past|].(end := end)] == past + Flat(Node(kind, start, end, kids), |past|, parent)
  {
  }

  function Counted(toks: seq<Tok>, parent: int): (r: seq<Tok>)
    requires -1 <= parent < |toks|
    ensures |r| == |toks|
  {
    if parent < 0 then toks else toks[parent := toks[parent].(size := toks[parent].size + 1)]
  }
}
