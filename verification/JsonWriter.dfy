/** The printer itself (jb.c:7381-7437), which walks the flat token array, and the parser's entry
    (src/json.inc:203-217). */
module JsonWriter {
  import opened Wrappers
  import opened Utf8
  import opened JsonStrings
  import opened JsonOrder
  import opened JsonParse
  import opened JsonLookup
  import opened JsonPrint

  /** Accepts a document and gives its tokens. */
  method Tokens(s: seq<byte>) returns (ok: bool, toks: seq<Tok>)
    ensures ok <==> Accepted(s)
    ensures ok ==> toks == Flat(Root(s), 0, -1)
  {
    if |s| > MAX_JSON {
      return false, [];
    }
    hide ParseValue, Flat, Scan, Shaped, KeysOk, Skip;
    var p := new Parser(s);
    ok := FromParser(p, s);
    toks := p.toks;
  }

  method FromParser(p: Parser, s: seq<byte>) returns (ok: bool)
    requires p.s == s && p.pos == 0 && p.depth == 0 && |s| <= MAX_JSON && p.toks == []
    modifies p
    ensures ok <==> Accepted(s)
    ensures ok ==> p.toks == Flat(Root(s), 0, -1)
  {
    hide ParseValue, Flat, Scan, Shaped, KeysOk, Skip;
    RootParent(p.toks);
    ok := p.Value(-1);
    if !ok {
      return;
    }
    ghost var n := ParseValue(s, 0, 0).value.0;
    ValueIsShaped(s, 0, 0);
    p.SkipSpace();
    if p.pos != |s| {
      return false;
    }
    assert [] + Flat(n, 0, -1) == Flat(n, 0, -1);
    ok := CheckKeys(s, p.toks, n);
  }

  lemma RootParent(toks: seq<Tok>)
    ensures Counted(toks, -1) == toks
  {
  }

  /** The written form of the items so far. */
  function ItemsText(items: seq<Json>, ascii: bool): seq<byte> {
    if items == [] then []
    else ItemsText(items[..|items| - 1], ascii) + Separator(|items| - 1) + Write(items[|items| - 1], ascii)
  }

  lemma {:induction false} ItemsTextIs(j: Json, k: nat, ascii: bool)
    requires j.List? && k <= |j.items|
    ensures ItemsText(j.items[..k], ascii) + WriteItems(j, k, ascii) == ItemsText(j.items, ascii) + [0x5D]
    decreases |j.items| - k
  {
    hide Write, Separator;
    if k < |j.items| {
      ItemsTextIs(j, k + 1, ascii);
      assert j.items[..k + 1][..k] == j.items[..k];
    } else {
      assert j.items[..k] == j.items;
    }
  }

  lemma ListText(items: seq<Json>, ascii: bool)
    ensures Write(List(items), ascii) == [0x5B] + ItemsText(items, ascii) + [0x5D]
  {
    hide WriteItems, ItemsText;
    ItemsTextIs(List(items), 0, ascii);
    assert items[..0] == [];
    NoItemsText(ascii);
    assert [] + WriteItems(List(items), 0, ascii) == WriteItems(List(items), 0, ascii);
  }

  lemma NoItemsText(ascii: bool)
    ensures ItemsText([], ascii) == [] && MembersText([], ascii) == []
  {
  }

  function MemberOf(member: (seq<byte>, Json), ascii: bool): seq<byte> {
    Quoted(member.0, ascii) + ([COLON, 0x20] + Write(member.1, ascii))
  }

  function MembersText(members: seq<(seq<byte>, Json)>, ascii: bool): seq<byte> {
    if members == [] then []
    else
      MembersText(members[..|members| - 1], ascii) + Separator(|members| - 1)
      + MemberOf(members[|members| - 1], ascii)
  }

  lemma {:induction false} MembersTextIs(j: Json, k: nat, ascii: bool)
    requires j.Map? && k <= |j.members|
    ensures MembersText(j.members[..k], ascii) + WriteMembers(j, k, ascii) == MembersText(j.members, ascii) + [0x7D]
    decreases |j.members| - k
  {
    hide MemberOf, Separator, MemberText;
    if k < |j.members| {
      MembersTextIs(j, k + 1, ascii);
      assert j.members[..k + 1][..k] == j.members[..k];
      MemberIsOf(j, k, ascii);
      var x, rest := MembersText(j.members[..k], ascii), WriteMembers(j, k + 1, ascii);
      var sep, text := Separator(k), MemberOf(j.members[k], ascii);
      assert MembersText(j.members[..k + 1], ascii) == x + sep + text;
      assert WriteMembers(j, k, ascii) == sep + (text + rest);
      assert x + (sep + (text + rest)) == x + sep + text + rest;
    } else {
      assert j.members[..k] == j.members;
    }
  }

  lemma MemberIsOf(j: Json, k: nat, ascii: bool)
    requires j.Map? && k < |j.members|
    ensures MemberText(j, k, ascii) == MemberOf(j.members[k], ascii)
  {
    hide Write, Quoted;
  }

  lemma MapText(members: seq<(seq<byte>, Json)>, ascii: bool)
    ensures Write(Map(members), ascii) == [0x7B] + MembersText(members, ascii) + [0x7D]
  {
    hide WriteMembers, MembersText;
    MembersTextIs(Map(members), 0, ascii);
    assert members[..0] == [];
    NoItemsText(ascii);
    assert [] + WriteMembers(Map(members), 0, ascii) == WriteMembers(Map(members), 0, ascii);
  }

  /** The canonical forms of an array's first items. */
  ghost function CanonicalItems(s: seq<byte>, n: Node, k: nat, sort: bool): (r: seq<Json>)
    requires Shaped(s, n) && k <= |n.kids| && Items(s, n, k).Some?
    ensures |r| == k
  {
    seq(k, i requires 0 <= i < k => Canonical(Items(s, n, k).value[i], sort))
  }

  lemma ItemStep(s: seq<byte>, n: Node, k: nat, sort: bool, ascii: bool)
    requires Shaped(s, n) && k < |n.kids| && Items(s, n, k).Some?
    ensures Shaped(s, n.kids[k])
    ensures Items(s, n, k + 1).Some? <==> Meaning(s, n.kids[k]).Some?
    ensures Items(s, n, k + 1).Some? ==>
      ItemsText(CanonicalItems(s, n, k + 1, sort), ascii)
        == ItemsText(CanonicalItems(s, n, k, sort), ascii) + Separator(k)
          + Write(Canonical(Meaning(s, n.kids[k]).value, sort), ascii)
  {
    hide Meaning, Canonical, Write, Separator;
    if Items(s, n, k + 1).Some? {
      var all, some := CanonicalItems(s, n, k + 1, sort), CanonicalItems(s, n, k, sort);
      assert all[..k] == some && all[k] == Canonical(Meaning(s, n.kids[k]).value, sort);
    }
  }

  lemma {:induction false} ItemsFail(s: seq<byte>, n: Node, k: nat, h: nat)
    requires Shaped(s, n) && k <= h <= |n.kids| && Items(s, n, k).None?
    ensures Items(s, n, h).None?
    decreases h
  {
    if k < h {
      ItemsFail(s, n, k, h - 1);
    }
  }

  lemma NoItems(s: seq<byte>, n: Node, sort: bool, ascii: bool)
    requires Shaped(s, n)
    ensures Items(s, n, 0).Some? && ItemsText(CanonicalItems(s, n, 0, sort), ascii) == []
  {
  }

  lemma ArrayMeans(s: seq<byte>, n: Node, sort: bool, ascii: bool)
    requires Shaped(s, n) && n.kind == Array
    ensures Meaning(s, n).Some? <==> Items(s, n, |n.kids|).Some?
    ensures Meaning(s, n).Some? ==>
      Write(Canonical(Meaning(s, n).value, sort), ascii)
        == [0x5B] + ItemsText(CanonicalItems(s, n, |n.kids|, sort), ascii) + [0x5D]
  {
    hide Items, Write, ItemsText, Shaped;
    if Meaning(s, n).Some? {
      ListText(CanonicalItems(s, n, |n.kids|, sort), ascii);
    }
  }

  lemma LeafMeans(s: seq<byte>, n: Node, sort: bool, ascii: bool)
    requires Shaped(s, n) && (n.kind == String || n.kind == Primitive)
    ensures n.kind == String ==> n.start <= n.end < |s| && Scan(s, n.start) == Some(n.end)
    ensures n.kind == String ==> Meaning(s, n) == if TextOf(s, n.start, n.end).None? then None
      else Some(Text(TextOf(s, n.start, n.end).value))
    ensures n.kind == String && Meaning(s, n).Some? ==> var z := TextOf(s, n.start, n.end).value;
      Escape(z, ascii).Some? && Write(Canonical(Meaning(s, n).value, sort), ascii)
        == [QUOTE] + Escape(z, ascii).value + [QUOTE]
    ensures n.kind == Primitive ==>
      n.start < n.end <= |s| && Meaning(s, n).Some?
        && Write(Canonical(Meaning(s, n).value, sort), ascii) == s[n.start..n.end]
  {
    hide Scan, TextOf;
    if n.kind == String && TextOf(s, n.start, n.end).Some? {
      DecodedCanBeWritten(s, n.start, n.end, ascii);
    }
  }

  /** Writes a value at `at` after what is in the buffer: its canonical form, or nothing that counts if some string in
      it has no text. */
  method PrintValue(b: seq<byte>, s: seq<byte>, toks: seq<Tok>, at: nat, sort: bool, ascii: bool, ghost n: Node,
                    ghost parent: int) returns (ok: bool, out: seq<byte>)
    requires Placed(toks, n, at, parent) && Shaped(s, n)
    ensures ok <==> Meaning(s, n).Some?
    ensures ok ==> out == b + Write(Canonical(Meaning(s, n).value, sort), ascii)
    decreases n, 2
  {
    hide *;
    PlacedHead(toks, n, at, parent);
    if toks[at].kind == String {
      LeafMeans(s, n, sort, ascii);
      var z := CopyString(s, toks[at].start, toks[at].end);
      if z.None? {
        return false, [];
      }
      ok, out := WriteString(b, z.value, ascii);
      assert out == b + ([QUOTE] + Escape(z.value, ascii).value + [QUOTE]);
    } else if toks[at].kind == Primitive {
      LeafMeans(s, n, sort, ascii);
      return true, b + s[toks[at].start..toks[at].end];
    } else if toks[at].kind == Array {
      ok, out := PrintArray(b, s, toks, at, sort, ascii, n, parent);
    } else {
      ok, out := PrintObject(b, s, toks, at, sort, ascii, n, parent);
    }
  }

  method PrintArray(b: seq<byte>, s: seq<byte>, toks: seq<Tok>, at: nat, sort: bool, ascii: bool, ghost n: Node,
                    ghost parent: int) returns (ok: bool, out: seq<byte>)
    requires Placed(toks, n, at, parent) && Shaped(s, n) && n.kind == Array
    ensures ok <==> Meaning(s, n).Some?
    ensures ok ==> out == b + Write(Canonical(Meaning(s, n).value, sort), ascii)
    decreases n, 0
  {
    hide *;
    out := b + [0x5B];
    var first := true;
    var i := at + 1;
    ghost var k: nat := 0;
    ScanStart(n, at);
    NoItems(s, n, sort, ascii);
    ArrayMeans(s, n, sort, ascii);
    while i < |toks|
      invariant i > at && ScanAt(n, at, k, i) && k <= |n.kids| && Items(s, n, k).Some? && first == (k == 0)
      invariant out == b + ([0x5B] + ItemsText(CanonicalItems(s, n, k, sort), ascii))
      decreases |toks| - i
    {
      ScanPlace(toks, n, at, parent, k, i);
      if toks[i].parent < at {
        break;
      }
      if toks[i].parent == at {
        ItemStep(s, n, k, sort, ascii);
        SeparatorIs(k);
        if !first {
          out := out + [COMMA, 0x20];
        }
        KidPlaced(toks, n, at, parent, k);
        ok, out := PrintValue(out, s, toks, i, sort, ascii, n.kids[k], at);
        if !ok {
          ItemsFail(s, n, k + 1, |n.kids|);
          return false, [];
        }
        first := false;
        ScanKid(n, at, k, i);
        k := k + 1;
      } else {
        ScanPast(n, at, k, i);
      }
      i := i + 1;
    }
    ScanDone(toks, n, at, parent, k, i);
    out := out + [0x5D];
    return true, out;
  }

  lemma SeparatorIs(k: nat)
    ensures Separator(k) == if k == 0 then [] else [COMMA, 0x20]
  {
  }

  lemma ScanDone(toks: seq<Tok>, n: Node, at: nat, parent: int, k: nat, i: nat)
    requires Placed(toks, n, at, parent) && ScanAt(n, at, k, i)
    requires i >= |toks| || toks[i].parent < at
    ensures k == |n.kids|
  {
    hide Flat, KidAt, CountAll;
    if k < |n.kids| {
      KidTokens(toks, n, at, parent, k);
      ScanPlace(toks, n, at, parent, k, i);
    }
  }

  /** An object's keys with the tokens they are in. */
  ghost function KeyToks(s: seq<byte>, n: Node, at: nat, m: nat): (r: Option<seq<(seq<byte>, nat)>>)
    requires Keyed(s, n) && 2 * m <= |n.kids|
    ensures r.Some? ==> |r.value| == m
  {
    if m == 0 then Some([])
    else if KeyToks(s, n, at, m - 1).None? || KeyText(s, n, m - 1).None? then None
    else Some(KeyToks(s, n, at, m - 1).value + [(KeyText(s, n, m - 1).value, KidAt(n, at, 2 * m - 2))])
  }

  lemma KeyToksStep(s: seq<byte>, n: Node, at: nat, m: nat)
    requires Keyed(s, n) && 2 * m < |n.kids|
    ensures 2 * m + 1 < |n.kids|
    ensures var k := n.kids[2 * m];
      k.kind == String && k.kids == [] && k.start <= k.end < |s| && Scan(s, k.start) == Some(k.end)
      && KeyToks(s, n, at, m + 1) ==
         if KeyToks(s, n, at, m).None? || TextOf(s, k.start, k.end).None? then None
         else Some(KeyToks(s, n, at, m).value + [(TextOf(s, k.start, k.end).value, KidAt(n, at, 2 * m))])
  {
    hide TextOf, KidAt, Scan;
  }

  lemma NoKeyToks(s: seq<byte>, n: Node, at: nat)
    requires Keyed(s, n)
    ensures KeyToks(s, n, at, 0) == Some([])
  {
  }

  lemma {:induction false} KeyToksFail(s: seq<byte>, n: Node, at: nat, m: nat, h: nat)
    requires Shaped(s, n) && Keyed(s, n) && m <= h && 2 * h <= |n.kids| && KeyToks(s, n, at, m).None?
    ensures KeyToks(s, n, at, h).None?
    decreases h
  {
    hide KidAt, KeyText;
    if m < h {
      KeyToksFail(s, n, at, m, h - 1);
    }
  }

  /** Without a key's text an object has no meaning. */
  lemma {:induction false} MembersNeedKeys(s: seq<byte>, n: Node, at: nat, m: nat)
    requires Shaped(s, n) && Keyed(s, n) && 2 * m <= |n.kids|
    ensures Members(s, n, m).Some? ==> KeyToks(s, n, at, m).Some?
    decreases m
  {
    hide KidAt, KeyText, Meaning, Shaped;
    if m > 0 {
      MembersNeedKeys(s, n, at, m - 1);
    }
  }

  /** Collects an object's keys. */
  method CollectKeyToks(s: seq<byte>, toks: seq<Tok>, obj: nat, ghost n: Node, ghost parent: int)
    returns (keys: Option<seq<(seq<byte>, nat)>>)
    requires Placed(toks, n, obj, parent) && Shaped(s, n) && Keyed(s, n)
    ensures keys == KeyToks(s, n, obj, |n.kids| / 2)
  {
    hide *;
    KeyedHalf(s, n);
    var all: seq<(seq<byte>, nat)> := [];
    var i := obj + 1;
    ghost var m: nat := 0;
    ScanStart(n, obj);
    NoKeyToks(s, n, obj);
    while i + 1 < |toks|
      invariant 2 * m <= |n.kids| && KeyToks(s, n, obj, m) == Some(all)
      invariant i > obj && ScanAt(n, obj, 2 * m, i)
      decreases |toks| - i
    {
      ScanPlace(toks, n, obj, parent, 2 * m, i);
      if toks[i].parent < obj {
        break;
      }
      if toks[i].parent == obj {
        KeyToksStep(s, n, obj, m);
        ScanMember(n, obj, 2 * m, i);
        var text := CopyString(s, toks[i].start, toks[i].end);
        if text.None? {
          KeyToksFail(s, n, obj, m + 1, |n.kids| / 2);
          return None;
        }
        all := all + [(text.value, i)];
        i := i + 1;
        m := m + 1;
      } else {
        ScanPast(n, obj, 2 * m, i);
      }
      i := i + 1;
    }
    ScanEnd(toks, n, obj, parent, 2 * m, i);
    return Some(all);
  }

  /** The canonical value of the member whose key is in token `t`, if there is one and it has one. */
  ghost function ValueFor(s: seq<byte>, n: Node, at: nat, sort: bool, t: nat): Json
    requires Shaped(s, n)
  {
    if m: nat :| 2 * m + 1 < |n.kids| && KidAt(n, at, 2 * m) == t && Meaning(s, n.kids[2 * m + 1]).Some?
    then Canonical(Meaning(s, n.kids[2 * m + 1]).value, sort) else Plain([])
  }

  ghost predicate HasValue(s: seq<byte>, n: Node, at: nat, t: nat)
    requires Shaped(s, n)
  {
    exists m: nat :: 2 * m + 1 < |n.kids| && KidAt(n, at, 2 * m) == t && Meaning(s, n.kids[2 * m + 1]).Some?
  }

  /** There is only one member at a token. */
  lemma ValueForIs(s: seq<byte>, n: Node, at: nat, sort: bool, m: nat)
    requires Shaped(s, n) && 2 * m + 1 < |n.kids|
    ensures HasValue(s, n, at, KidAt(n, at, 2 * m)) <==> Meaning(s, n.kids[2 * m + 1]).Some?
    ensures Meaning(s, n.kids[2 * m + 1]).Some? ==>
      ValueFor(s, n, at, sort, KidAt(n, at, 2 * m)) == Canonical(Meaning(s, n.kids[2 * m + 1]).value, sort)
  {
    hide Meaning, KidAt, Canonical, Shaped;
    forall k: nat | 2 * k + 1 < |n.kids| && KidAt(n, at, 2 * k) == KidAt(n, at, 2 * m)
      ensures k == m
    {
      if k != m {
        KidsApart(n, at, 2 * k, 2 * m);
      }
    }
  }

  /** Keys with their members' canonical values. */
  ghost function WithValues(s: seq<byte>, n: Node, at: nat, sort: bool,
                            x: seq<(seq<byte>, nat)>): (r: seq<(seq<byte>, Json)>)
    requires Shaped(s, n)
    ensures |r| == |x| && forall i | 0 <= i < |x| :: r[i] == (x[i].0, ValueFor(s, n, at, sort, x[i].1))
  {
    seq(|x|, i requires 0 <= i < |x| => (x[i].0, ValueFor(s, n, at, sort, x[i].1)))
  }

  lemma {:induction false} InsertValues(s: seq<byte>, n: Node, at: nat, sort: bool, x: seq<(seq<byte>, nat)>,
                                        y: (seq<byte>, nat))
    requires Shaped(s, n)
    ensures WithValues(s, n, at, sort, Insert(x, y))
      == Insert(WithValues(s, n, at, sort, x), (y.0, ValueFor(s, n, at, sort, y.1)))
    decreases |x|
  {
    hide Less, ValueFor, Shaped;
    if x != [] {
      var m := |x| - 1;
      InsertValues(s, n, at, sort, x[..m], y);
      assert WithValues(s, n, at, sort, x)[..m] == WithValues(s, n, at, sort, x[..m]);
    }
  }

  /** Sorting does not look at values. */
  lemma {:induction false} SortValues(s: seq<byte>, n: Node, at: nat, sort: bool, x: seq<(seq<byte>, nat)>)
    requires Shaped(s, n)
    ensures WithValues(s, n, at, sort, Sort(x)) == Sort(WithValues(s, n, at, sort, x))
    decreases |x|
  {
    hide Insert, ValueFor, Shaped;
    if x != [] {
      var m := |x| - 1;
      SortValues(s, n, at, sort, x[..m]);
      InsertValues(s, n, at, sort, Sort(x[..m]), x[m]);
      assert WithValues(s, n, at, sort, x)[..m] == WithValues(s, n, at, sort, x[..m]);
    }
  }

  lemma {:induction false} KeyToksAre(s: seq<byte>, n: Node, at: nat, m: nat, i: nat)
    requires Keyed(s, n) && 2 * m <= |n.kids| && i < m && KeyToks(s, n, at, m).Some?
    ensures KeyText(s, n, i).Some? && KeyToks(s, n, at, m).value[i] == (KeyText(s, n, i).value, KidAt(n, at, 2 * i))
    decreases m
  {
    hide TextOf, Scan, KidAt;
    if i < m - 1 {
      KeyToksAre(s, n, at, m - 1, i);
    }
  }

  /** An object's members are its keys with their values. */
  lemma {:induction false} MembersAre(s: seq<byte>, n: Node, at: nat, sort: bool, m: nat)
    requires Shaped(s, n) && Keyed(s, n) && 2 * m <= |n.kids| && KeyToks(s, n, at, m).Some?
    requires forall i | 0 <= i < m :: HasValue(s, n, at, KeyToks(s, n, at, m).value[i].1)
    ensures Members(s, n, m).Some?
    ensures var members := Members(s, n, m).value;
      seq(m, i requires 0 <= i < m => (members[i].0, Canonical(members[i].1, sort)))
        == WithValues(s, n, at, sort, KeyToks(s, n, at, m).value)
    decreases m
  {
    hide Meaning, Canonical, KidAt, KeyText, Shaped, HasValue, ValueFor;
    if m > 0 {
      var keys, less := KeyToks(s, n, at, m).value, KeyToks(s, n, at, m - 1).value;
      assert keys[..m - 1] == less && keys[m - 1] == (KeyText(s, n, m - 1).value, KidAt(n, at, 2 * m - 2));
      forall i | 0 <= i < m - 1
        ensures HasValue(s, n, at, less[i].1)
      {
        assert less[i] == keys[i];
      }
      MembersAre(s, n, at, sort, m - 1);
      ValueForIs(s, n, at, sort, m - 1);
      MembersStep(s, n, m);
    }
  }

  lemma {:induction false} MembersNeedValues(s: seq<byte>, n: Node, m: nat, i: nat)
    requires Shaped(s, n) && Keyed(s, n) && 2 * m <= |n.kids| && i < m && Members(s, n, m).Some?
    ensures Meaning(s, n.kids[2 * i + 1]).Some?
    decreases m
  {
    hide Meaning, KeyText, Shaped;
    if i < m - 1 {
      MembersNeedValues(s, n, m - 1, i);
    }
  }

  /** All keys have texts and all values meanings. */
  ghost predicate AllThere(s: seq<byte>, n: Node, at: nat)
    requires Shaped(s, n) && Keyed(s, n)
  {
    KeyToks(s, n, at, |n.kids| / 2).Some?
    && forall i | 0 <= i < |n.kids| / 2 :: HasValue(s, n, at, KeyToks(s, n, at, |n.kids| / 2).value[i].1)
  }

  lemma ObjectMeans(s: seq<byte>, n: Node, at: nat)
    requires Shaped(s, n) && n.kind == Object
    ensures Keyed(s, n)
    ensures Meaning(s, n) == if Members(s, n, |n.kids| / 2).None? then None
      else Some(Map(Members(s, n, |n.kids| / 2).value))
    ensures Meaning(s, n).Some? ==> KeyToks(s, n, at, |n.kids| / 2).Some?
  {
    ShapedObject(s, n);
    MembersNeedKeys(s, n, at, |n.kids| / 2);
    hide Members, KeyToks;
  }

  /** An object whose keys and values are all there is written as its keys, in order, with their values. */
  lemma ObjectWritten(s: seq<byte>, n: Node, at: nat, sort: bool, ascii: bool)
    requires Shaped(s, n) && n.kind == Object && Keyed(s, n) && AllThere(s, n, at)
    ensures Meaning(s, n).Some?
    ensures var keys := KeyToks(s, n, at, |n.kids| / 2).value;
      Write(Canonical(Meaning(s, n).value, sort), ascii)
        == [0x7B] + MembersText(WithValues(s, n, at, sort, if sort then Sort(keys) else keys), ascii) + [0x7D]
  {
    var h := |n.kids| / 2;
    var keys := KeyToks(s, n, at, h).value;
    ObjectMeans(s, n, at);
    MembersAre(s, n, at, sort, h);
    var members := Members(s, n, h).value;
    SortValues(s, n, at, sort, keys);
    hide *;
    CanonicalMap(members, sort, WithValues(s, n, at, sort, keys));
    MapText(WithValues(s, n, at, sort, if sort then Sort(keys) else keys), ascii);
  }

  lemma CanonicalMap(members: seq<(seq<byte>, Json)>, sort: bool, all: seq<(seq<byte>, Json)>)
    requires all == seq(|members|, i requires 0 <= i < |members| => (members[i].0, Canonical(members[i].1, sort)))
    ensures Canonical(Map(members), sort) == Map(if sort then Sort(all) else all)
  {
    hide Sort;
  }

  /** The member that a collected key belongs to. */
  lemma KeyOwner(s: seq<byte>, n: Node, at: nat, keys: seq<(seq<byte>, nat)>, key: (seq<byte>, nat)) returns (m: nat)
    requires Keyed(s, n) && KeyToks(s, n, at, |n.kids| / 2) == Some(keys) && key in keys
    ensures 2 * m + 1 < |n.kids| && KeyText(s, n, m) == Some(key.0) && key.1 == KidAt(n, at, 2 * m)
    ensures KidAt(n, at, 2 * m + 1) == key.1 + 1
  {
    hide KeyToks, KidAt, KeyText;
    var i :| 0 <= i < |keys| && keys[i] == key;
    m := i;
    KeyToksAre(s, n, at, |n.kids| / 2, i);
    KidAtNext(n, at, 2 * m);
    assert n.kids[2 * m].kids == [];
    assert Count(n.kids[2 * m]) == 1;
  }

  lemma KeyCanBeWritten(s: seq<byte>, n: Node, m: nat, ascii: bool)
    requires Keyed(s, n) && 2 * m < |n.kids| && KeyText(s, n, m).Some?
    ensures Escape(KeyText(s, n, m).value, ascii).Some?
  {
    DecodedCanBeWritten(s, n.kids[2 * m].start, n.kids[2 * m].end, ascii);
  }

  lemma SortedFrom(keys: seq<(seq<byte>, nat)>)
    ensures |Sort(keys)| == |keys|
    ensures forall i | 0 <= i < |keys| :: Sort(keys)[i] in keys
    ensures forall i | 0 <= i < |keys| :: keys[i] in Sort(keys)
  {
    hide Sort;
    SortPermutes(keys);
    forall i | 0 <= i < |keys|
      ensures Sort(keys)[i] in keys && keys[i] in Sort(keys)
    {
      assert Sort(keys)[i] in multiset(keys) && keys[i] in multiset(Sort(keys));
    }
  }

  /** Writing the i-th member in order appends `tail`. */
  ghost predicate Extends(s: seq<byte>, n: Node, at: nat, sort: bool, ascii: bool, sorted: seq<(seq<byte>, nat)>,
                          i: nat,
                          tail: seq<byte>)
    requires Shaped(s, n) && i < |sorted|
  {
    MembersText(WithValues(s, n, at, sort, sorted[..i + 1]), ascii)
      == MembersText(WithValues(s, n, at, sort, sorted[..i]), ascii) + tail
  }

  lemma MemberExtends(s: seq<byte>, n: Node, at: nat, sort: bool, ascii: bool, sorted: seq<(seq<byte>, nat)>, i: nat,
                      m: nat)
    requires Shaped(s, n) && i < |sorted| && 2 * m + 1 < |n.kids| && sorted[i].1 == KidAt(n, at, 2 * m)
    requires Meaning(s, n.kids[2 * m + 1]).Some? && Escape(sorted[i].0, ascii).Some?
    ensures HasValue(s, n, at, sorted[i].1)
    ensures Extends(s, n, at, sort, ascii, sorted, i,
      Separator(i) + ([QUOTE] + Escape(sorted[i].0, ascii).value + [QUOTE])
      + ([COLON, 0x20] + Write(Canonical(Meaning(s, n.kids[2 * m + 1]).value, sort), ascii)))
  {
    KidShaped(s, n, 2 * m + 1);
    hide *;
    ValueForIs(s, n, at, sort, m);
    var some := WithValues(s, n, at, sort, sorted[..i]);
    var j := Canonical(Meaning(s, n.kids[2 * m + 1]).value, sort);
    WithOneMore(s, n, at, sort, sorted, i);
    MembersTextAppend(some, sorted[i].0, j, ascii);
    IsExtension(s, n, at, sort, ascii, sorted, i,
      Separator(i) + ([QUOTE] + Escape(sorted[i].0, ascii).value + [QUOTE]) + ([COLON, 0x20] + Write(j, ascii)));
  }

  lemma MembersTextAppend(members: seq<(seq<byte>, Json)>, key: seq<byte>, j: Json, ascii: bool)
    requires Escape(key, ascii).Some?
    ensures MembersText(members + [(key, j)], ascii) == MembersText(members, ascii)
      + (Separator(|members|) + ([QUOTE] + Escape(key, ascii).value + [QUOTE]) + ([COLON, 0x20] + Write(j, ascii)))
  {
    hide *;
    MembersTextLast(members, (key, j), ascii);
    MemberOfIs(key, j, ascii);
    var x, sep := MembersText(members, ascii), Separator(|members|);
    var q, v := [QUOTE] + Escape(key, ascii).value + [QUOTE], [COLON, 0x20] + Write(j, ascii);
    Regroup(x, sep, q, v);
  }

  lemma Regroup(x: seq<byte>, sep: seq<byte>, q: seq<byte>, v: seq<byte>)
    ensures x + sep + (q + v) == x + (sep + q + v)
  {
  }

  lemma RegroupFour(b: seq<byte>, sep: seq<byte>, q: seq<byte>, c: seq<byte>, v: seq<byte>, out: seq<byte>)
    requires out == b + sep + q + c + v
    ensures out == b + (sep + q + (c + v))
  {
  }

  lemma MembersTextLast(members: seq<(seq<byte>, Json)>, member: (seq<byte>, Json), ascii: bool)
    ensures MembersText(members + [member], ascii)
      == MembersText(members, ascii) + Separator(|members|) + MemberOf(member, ascii)
  {
    hide MemberOf, Separator;
    assert (members + [member])[..|members|] == members;
  }

  lemma MemberOfIs(key: seq<byte>, j: Json, ascii: bool)
    requires Escape(key, ascii).Some?
    ensures MemberOf((key, j), ascii) == ([QUOTE] + Escape(key, ascii).value + [QUOTE])
      + ([COLON, 0x20] + Write(j, ascii))
  {
    hide Escape, Write;
  }

  lemma WithOneMore(s: seq<byte>, n: Node, at: nat, sort: bool, sorted: seq<(seq<byte>, nat)>, i: nat)
    requires Shaped(s, n) && i < |sorted|
    ensures WithValues(s, n, at, sort, sorted[..i + 1])
         == WithValues(s, n, at, sort, sorted[..i]) + [(sorted[i].0, ValueFor(s, n, at, sort, sorted[i].1))]
  {
    hide ValueFor, Shaped;
  }

  lemma IsExtension(s: seq<byte>, n: Node, at: nat, sort: bool, ascii: bool, sorted: seq<(seq<byte>, nat)>, i: nat,
                    tail: seq<byte>)
    requires Shaped(s, n) && i < |sorted|
    requires MembersText(WithValues(s, n, at, sort, sorted[..i + 1]), ascii)
      == MembersText(WithValues(s, n, at, sort, sorted[..i]), ascii) + tail
    ensures Extends(s, n, at, sort, ascii, sorted, i, tail)
  {
  }

  method PrintObject(b: seq<byte>, s: seq<byte>, toks: seq<Tok>, at: nat, sort: bool, ascii: bool, ghost n: Node,
                     ghost parent: int) returns (ok: bool, out: seq<byte>)
    requires Placed(toks, n, at, parent) && Shaped(s, n) && n.kind == Object
    ensures ok <==> Meaning(s, n).Some?
    ensures ok ==> out == b + Write(Canonical(Meaning(s, n).value, sort), ascii)
    decreases n, 1
  {
    hide *;
    ObjectMeans(s, n, at);
    ghost var h := |n.kids| / 2;
    var keys := CollectKeyToks(s, toks, at, n, parent);
    if keys.None? {
      return false, [];
    }
    var sorted := if sort then Sort(keys.value) else keys.value;
    SortedFrom(keys.value);
    out := b + [0x7B];
    NoMembersText(s, n, at, sort, ascii);
    assert sorted[..0] == [];
    for i: nat := 0 to |sorted|
      invariant out == b + ([0x7B] + MembersText(WithValues(s, n, at, sort, sorted[..i]), ascii))
      invariant forall k | 0 <= k < i :: HasValue(s, n, at, sorted[k].1)
    {
      ghost var tail;
      ok, out, tail := PrintMember(out, s, toks, at, sort, ascii, i, sorted[i], sorted, keys.value, n, parent);
      if !ok {
        return false, [];
      }
      ExtendsMeans(s, n, at, sort, ascii, sorted, i, tail);
    }
    assert sorted[..|sorted|] == sorted;
    AllPrinted(s, n, at, keys.value, sorted);
    ObjectWritten(s, n, at, sort, ascii);
    out := out + [0x7D];
    return true, out;
  }

  lemma ExtendsMeans(s: seq<byte>, n: Node, at: nat, sort: bool, ascii: bool, sorted: seq<(seq<byte>, nat)>, i: nat,
                     tail: seq<byte>)
    requires Shaped(s, n) && i < |sorted| && Extends(s, n, at, sort, ascii, sorted, i, tail)
    ensures MembersText(WithValues(s, n, at, sort, sorted[..i + 1]), ascii)
      == MembersText(WithValues(s, n, at, sort, sorted[..i]), ascii) + tail
  {
  }

  lemma AllPrinted(s: seq<byte>, n: Node, at: nat, keys: seq<(seq<byte>, nat)>, sorted: seq<(seq<byte>, nat)>)
    requires Shaped(s, n) && Keyed(s, n) && KeyToks(s, n, at, |n.kids| / 2) == Some(keys)
    requires forall i | 0 <= i < |keys| :: keys[i] in sorted
    requires forall k | 0 <= k < |sorted| :: HasValue(s, n, at, sorted[k].1)
    ensures AllThere(s, n, at)
  {
    hide HasValue, KeyToks, Shaped, Keyed;
    forall i | 0 <= i < |keys|
      ensures HasValue(s, n, at, keys[i].1)
    {
      assert keys[i] in sorted;
      var k :| 0 <= k < |sorted| && sorted[k] == keys[i];
    }
  }

  lemma NoMembersText(s: seq<byte>, n: Node, at: nat, sort: bool, ascii: bool)
    requires Shaped(s, n)
    ensures MembersText(WithValues(s, n, at, sort, []), ascii) == []
  {
  }

  lemma MissingValue(s: seq<byte>, n: Node, m: nat)
    requires Shaped(s, n) && n.kind == Object && Keyed(s, n) && 2 * m + 1 < |n.kids|
      && Meaning(s, n.kids[2 * m + 1]).None?
    ensures Meaning(s, n).None?
  {
    ObjectMeans(s, n, 0);
    if Members(s, n, |n.kids| / 2).Some? {
      MembersNeedValues(s, n, |n.kids| / 2, m);
    }
  }

  /** Writes the i-th member in order. */
  method PrintMember(b: seq<byte>, s: seq<byte>, toks: seq<Tok>, at: nat, sort: bool, ascii: bool, i: nat,
                     key: (seq<byte>, nat), ghost sorted: seq<(seq<byte>, nat)>, ghost keys: seq<(seq<byte>, nat)>,
                     ghost n: Node, ghost parent: int) returns (ok: bool, out: seq<byte>, ghost tail: seq<byte>)
    requires Placed(toks, n, at, parent) && Shaped(s, n) && n.kind == Object && Keyed(s, n)
    requires KeyToks(s, n, at, |n.kids| / 2) == Some(keys) && i < |sorted| && key == sorted[i] && key in keys
    ensures !ok ==> Meaning(s, n).None?
    ensures ok ==> HasValue(s, n, at, key.1)
    ensures ok ==> out == b + tail && Extends(s, n, at, sort, ascii, sorted, i, tail)
    decreases n, 0
  {
    hide *;
    ghost var m := KeyOwner(s, n, at, keys, key);
    KeyCanBeWritten(s, n, m, ascii);
    SeparatorIs(i);
    out := if i > 0 then b + [COMMA, 0x20] else b;
    assert out == b + Separator(i);
    ghost var quoted := [QUOTE] + Escape(key.0, ascii).value + [QUOTE];
    ok, out := WriteQuoted(out, key.0, ascii);
    assert out == b + Separator(i) + quoted;
    out := out + [COLON, 0x20];
    KidPlaced(toks, n, at, parent, 2 * m + 1);
    KidShaped(s, n, 2 * m + 1);
    ok, out := PrintValue(out, s, toks, key.1 + 1, sort, ascii, n.kids[2 * m + 1], at);
    if !ok {
      MissingValue(s, n, m);
      return false, [], [];
    }
    ghost var value := Write(Canonical(Meaning(s, n.kids[2 * m + 1]).value, sort), ascii);
    tail := Separator(i) + quoted + ([COLON, 0x20] + value);
    RegroupFour(b, Separator(i), quoted, [COLON, 0x20], value, out);
    MemberExtends(s, n, at, sort, ascii, sorted, i, m);
  }

  /** Writes a string that is known to be writable. */
  method WriteQuoted(b: seq<byte>, z: seq<byte>, ascii: bool) returns (ok: bool, out: seq<byte>)
    requires Escape(z, ascii).Some?
    ensures ok && out == b + ([QUOTE] + Escape(z, ascii).value + [QUOTE])
  {
    hide Escape;
    ok, out := WriteString(b, z, ascii);
    ghost var e := Escape(z, ascii).value;
    assert b + [QUOTE] + e + [QUOTE] == b + ([QUOTE] + e + [QUOTE]);
  }

  lemma KidShaped(s: seq<byte>, n: Node, k: nat)
    requires Shaped(s, n) && k < |n.kids|
    ensures Shaped(s, n.kids[k])
  {
  }

  /** Canonical text of an accepted document, from its tokens: what printing its tree gives, or a failure if some
      string in it has no text. */
  method PrintDocument(s: seq<byte>, sort: bool, ascii: bool) returns (ok: bool, out: seq<byte>)
    ensures ok <==> Accepted(s) && Printed(s, sort, ascii).Some?
    ensures ok ==> Some(out) == Printed(s, sort, ascii)
  {
    hide Accepted, Root, Placed, Flat, Write, Canonical, Meaning;
    var toks;
    ok, toks := Tokens(s);
    if !ok {
      return false, [];
    }
    RootPlaced(toks, Root(s));
    ok, out := PrintValue([], s, toks, 0, sort, ascii, Root(s), -1);
    if ok {
      ghost var w := Write(Canonical(Meaning(s, Root(s)).value, sort), ascii);
      assert [] + w == w;
    }
  }
}
