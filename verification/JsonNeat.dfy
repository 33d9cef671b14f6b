/** The form in which a document is printed (jb.c:7338-7445), apart from the printer: the tree that says it, with one
    space after every comma and colon and no other white space, in ASCII where that is asked for. */
module JsonNeat {
  import opened Wrappers
  import opened Utf8
  import opened JsonStrings
  import opened JsonEscapes
  import opened JsonOrder
  import opened JsonParse
  import opened JsonPrint
  import opened JsonWriter
  import G = JsonGrammar

  const SPACE: byte := ' ' as int

  function Body(text: seq<byte>, ascii: bool): seq<byte> {
    if Escape(text, ascii).Some? then Escape(text, ascii).value else []
  }

  /** A tree of values, spaced neatly. */
  function Neat(j: Json, ascii: bool): G.Tree
    decreases j
  {
    match j
    case Text(text) => G.Quoted(Body(text, ascii))
    case Plain(text) => G.Word(text)
    case List(items) =>
      G.Box(false, seq(|items|, k requires 0 <= k < |items| =>
        G.Entry([], Gap(k), None, Neat(items[k], ascii))), [])
    case Map(members) =>
      G.Box(true, seq(|members|, k requires 0 <= k < |members| =>
        G.Entry([], Gap(k), Some(G.Key(Body(members[k].0, ascii), [], [SPACE])), Neat(members[k].1, ascii))), [])
  }

  /** A space after every comma. */
  function Gap(k: nat): seq<byte> {
    if k == 0 then [] else [SPACE]
  }

  function ListEntries(items: seq<Json>, ascii: bool): (entries: seq<G.Entry>)
    ensures |entries| == |items|
  {
    seq(|items|, k requires 0 <= k < |items| => G.Entry([], Gap(k), None, Neat(items[k], ascii)))
  }

  function MapEntries(members: seq<(seq<byte>, Json)>, ascii: bool): (entries: seq<G.Entry>)
    ensures |entries| == |members|
  {
    seq(|members|, k requires 0 <= k < |members| =>
      G.Entry([], Gap(k), Some(G.Key(Body(members[k].0, ascii), [], [SPACE])), Neat(members[k].1, ascii)))
  }

  /** What is printed is the spelling of that tree. */
  lemma {:induction false} WriteIs(j: Json, ascii: bool)
    ensures Write(j, ascii) == G.Spell(Neat(j, ascii))
    decreases j, 1
  {
    hide Write, Neat, G.Spell, G.Inner, ItemsText, MembersText;
    match j
    case Text(text) =>
      LeafIs(j, ascii);
    case Plain(text) =>
      LeafIs(j, ascii);
    case List(items) =>
      ItemsAre(j, |items|, ascii);
      ListText(items, ascii);
      assert items[..|items|] == items;
      NeatList(items, ascii);
      Regroup([0x5B], ItemsText(items, ascii), [0x5D]);
    case Map(members) =>
      MembersAre(j, |members|, ascii);
      MapText(members, ascii);
      assert members[..|members|] == members;
      NeatMap(members, ascii);
      Regroup([0x7B], MembersText(members, ascii), [0x7D]);
  }

  lemma Regroup(x: seq<byte>, y: seq<byte>, z: seq<byte>)
    ensures x + y + z == x + (y + z)
  {
  }

  lemma LeafIs(j: Json, ascii: bool)
    requires j.Text? || j.Plain?
    ensures Write(j, ascii) == G.Spell(Neat(j, ascii))
  {
    hide Escape;
    if j.Text? {
      Regroup([QUOTE], Body(j.text, ascii), [QUOTE]);
    }
  }

  lemma NeatList(items: seq<Json>, ascii: bool)
    ensures G.Spell(Neat(List(items), ascii)) == [0x5B] + (G.Inner(ListEntries(items, ascii)) + [0x5D])
  {
    hide G.Inner;
    assert [] + [0x5D as byte] == [0x5D];
  }

  lemma NeatMap(members: seq<(seq<byte>, Json)>, ascii: bool)
    ensures G.Spell(Neat(Map(members), ascii)) == [0x7B] + (G.Inner(MapEntries(members, ascii)) + [0x7D])
  {
    hide G.Inner;
    assert [] + [0x7D as byte] == [0x7D];
  }

  lemma {:induction false} ItemsAre(j: Json, k: nat, ascii: bool)
    requires j.List? && k <= |j.items|
    ensures ItemsText(j.items[..k], ascii) == G.Inner(ListEntries(j.items[..k], ascii))
    decreases j, 0, k
  {
    hide Write, Neat, G.Spell, G.Inner, G.Head, Separator, ItemsText;
    if k == 0 {
      assert ListEntries([], ascii) == [];
      G.NoInner();
      NoItemsText(ascii);
    } else {
      ItemsAre(j, k - 1, ascii);
      WriteIs(j.items[k - 1], ascii);
      var items := j.items[..k];
      assert items[..k - 1] == j.items[..k - 1];
      var e := G.Entry([], Gap(k - 1), None, Neat(j.items[k - 1], ascii));
      assert ListEntries(items, ascii) == ListEntries(items[..k - 1], ascii) + [e];
      G.InnerMore(ListEntries(items[..k - 1], ascii), e);
      OneItem(k - 1, j.items[k - 1], ascii);
      ItemsTextStep(items, ascii);
    }
  }

  lemma ItemsTextStep(items: seq<Json>, ascii: bool)
    requires items != []
    ensures var n := |items| - 1;
      ItemsText(items, ascii) == ItemsText(items[..n], ascii) + (Separator(n) + Write(items[n], ascii))
  {
    hide Write, Separator;
    var n := |items| - 1;
    Regroup(ItemsText(items[..n], ascii), Separator(n), Write(items[n], ascii));
  }

  lemma MembersTextStep(members: seq<(seq<byte>, Json)>, ascii: bool)
    requires members != []
    ensures var n := |members| - 1;
      MembersText(members, ascii) == MembersText(members[..n], ascii) + (Separator(n) + MemberOf(members[n], ascii))
  {
    hide MemberOf, Separator;
    var n := |members| - 1;
    Regroup(MembersText(members[..n], ascii), Separator(n), MemberOf(members[n], ascii));
  }

  lemma OneItem(k: nat, item: Json, ascii: bool)
    ensures G.Head(G.Entry([], Gap(k), None, Neat(item, ascii)), k == 0) == Separator(k)
  {
    hide Neat;
  }

  lemma {:induction false} MembersAre(j: Json, k: nat, ascii: bool)
    requires j.Map? && k <= |j.members|
    ensures MembersText(j.members[..k], ascii) == G.Inner(MapEntries(j.members[..k], ascii))
    decreases j, 0, k
  {
    hide Write, Neat, G.Spell, MemberOf, G.Head, Separator, G.Inner, MembersText;
    if k == 0 {
      assert MapEntries([], ascii) == [];
      G.NoInner();
      NoItemsText(ascii);
    } else {
      MembersAre(j, k - 1, ascii);
      WriteIs(j.members[k - 1].1, ascii);
      var members := j.members[..k];
      assert members[..k - 1] == j.members[..k - 1];
      var m := j.members[k - 1];
      var e := G.Entry([], Gap(k - 1), Some(G.Key(Body(m.0, ascii), [], [SPACE])), Neat(m.1, ascii));
      assert MapEntries(members, ascii) == MapEntries(members[..k - 1], ascii) + [e];
      G.InnerMore(MapEntries(members[..k - 1], ascii), e);
      OneMember(k - 1, m, ascii);
      MembersTextStep(members, ascii);
    }
  }

  lemma OneMember(k: nat, member: (seq<byte>, Json), ascii: bool)
    ensures var e := G.Entry([], Gap(k), Some(G.Key(Body(member.0, ascii), [], [SPACE])), Neat(member.1, ascii));
      G.Head(e, k == 0) + Write(member.1, ascii) == Separator(k) + MemberOf(member, ascii)
  {
    hide Neat, Write, Body, JsonPrint.Quoted;
    var key := Some(G.Key(Body(member.0, ascii), [], [SPACE]));
    var w := Write(member.1, ascii);
    KeyIs(Body(member.0, ascii));
    QuotedBody(member.0, ascii);
    LeadIs(k, key, Neat(member.1, ascii));
    hide G.Head, G.KeyText, Separator;
    var q := JsonPrint.Quoted(member.0, ascii);
    assert Separator(k) + (q + [COLON, 0x20]) + w == Separator(k) + (q + ([COLON, 0x20] + w));
  }

  lemma KeyIs(body: seq<byte>)
    ensures G.KeyText(Some(G.Key(body, [], [SPACE]))) == [QUOTE] + body + [QUOTE] + [COLON, 0x20]
  {
    assert [] + ([COLON] + [SPACE as byte]) == [COLON, 0x20];
  }

  lemma LeadIs(k: nat, key: Option<G.Key>, value: G.Tree)
    ensures G.Head(G.Entry([], Gap(k), key, value), k == 0) == Separator(k) + G.KeyText(key)
  {
    hide G.KeyText;
  }

  lemma QuotedBody(text: seq<byte>, ascii: bool)
    ensures JsonPrint.Quoted(text, ascii) == [QUOTE] + Body(text, ascii) + [QUOTE]
  {
  }

  // ----- ASCII

  predicate Ascii(z: seq<byte>) {
    forall k | 0 <= k < |z| :: z[k] < 0x80
  }

  /** In ASCII mode a document is printed in ASCII. */
  lemma {:induction false} WrittenIsAscii(j: Json, depth: nat)
    requires Good(j, depth)
    ensures Ascii(Write(j, true))
    decreases j, 1
  {
    hide Write, ItemsText, MembersText, Good, Ascii;
    match j
    case Text(text) =>
      LeafIsAscii(j, depth);
    case Plain(text) =>
      LeafIsAscii(j, depth);
    case List(items) =>
      ItemsAreAscii(j, depth, |items|);
      ListText(items, true);
      assert items[..|items|] == items;
      Bracketed(0x5B, ItemsText(items, true), 0x5D);
    case Map(members) =>
      MembersAreAscii(j, depth, |members|);
      MapText(members, true);
      assert members[..|members|] == members;
      Bracketed(0x7B, MembersText(members, true), 0x7D);
  }

  lemma Bracketed(open: byte, z: seq<byte>, close: byte)
    requires Ascii(z) && open < 0x80 && close < 0x80
    ensures Ascii([open] + z + [close])
  {
  }

  lemma LeafIsAscii(j: Json, depth: nat)
    requires Good(j, depth) && (j.Text? || j.Plain?)
    ensures Ascii(Write(j, true))
  {
    hide PlainOk, Ascii;
    if j.Text? {
      TextIsAscii(j.text);
    } else {
      PlainIsAscii(j.text);
    }
  }

  lemma TextIsAscii(text: seq<byte>)
    ensures Ascii(JsonPrint.Quoted(text, true))
  {
    if Escape(text, true).Some? {
      EscapedIsAscii(text, 0);
    }
  }

  lemma PlainIsAscii(text: seq<byte>)
    requires PlainOk(text)
    ensures Ascii(text)
  {
    G.WordIs(text);
    forall n | G.JsonNumber.Proper(n) && G.JsonNumber.Text(n) == text
      ensures Ascii(text)
    {
      G.NumberBytes(n);
    }
    hide PrimitiveValid, G.JsonNumber.Proper, G.JsonNumber.Text;
  }

  lemma AsciiJoin(x: seq<byte>, y: seq<byte>)
    requires Ascii(x) && Ascii(y)
    ensures Ascii(x + y)
  {
  }

  lemma SeparatorIsAscii(k: nat)
    ensures Ascii(Separator(k)) && Ascii([COLON, 0x20])
  {
  }

  lemma {:induction false} ItemsAreAscii(j: Json, depth: nat, k: nat)
    requires j.List? && Good(j, depth) && k <= |j.items|
    ensures Ascii(ItemsText(j.items[..k], true))
    decreases j, 0, k
  {
    if k > 0 {
      ItemsAreAscii(j, depth, k - 1);
      WrittenIsAscii(j.items[k - 1], depth + 1);
      hide Write, Separator, Ascii;
      var items := j.items[..k];
      assert items[..k - 1] == j.items[..k - 1];
      SeparatorIsAscii(k - 1);
      AsciiJoin(ItemsText(items[..k - 1], true), Separator(k - 1));
      AsciiJoin(ItemsText(items[..k - 1], true) + Separator(k - 1), Write(j.items[k - 1], true));
    }
  }

  lemma {:induction false} MembersAreAscii(j: Json, depth: nat, k: nat)
    requires j.Map? && Good(j, depth) && k <= |j.members|
    ensures Ascii(MembersText(j.members[..k], true))
    decreases j, 0, k
  {
    if k > 0 {
      MembersAreAscii(j, depth, k - 1);
      var m := j.members[k - 1];
      WrittenIsAscii(m.1, depth + 1);
      TextIsAscii(m.0);
      hide Write, Separator, Ascii, JsonPrint.Quoted;
      var members := j.members[..k];
      assert members[..k - 1] == j.members[..k - 1];
      SeparatorIsAscii(k - 1);
      AsciiJoin([COLON, 0x20], Write(m.1, true));
      AsciiJoin(JsonPrint.Quoted(m.0, true), [COLON, 0x20] + Write(m.1, true));
      AsciiJoin(MembersText(members[..k - 1], true), Separator(k - 1));
      AsciiJoin(MembersText(members[..k - 1], true) + Separator(k - 1), MemberOf(m, true));
    }
  }

  /** A document that is printed in ASCII mode is printed in ASCII. */
  lemma PrintedIsAscii(s: seq<byte>, sort: bool)
    requires Accepted(s) && Printed(s, sort, true).Some?
    ensures Ascii(Printed(s, sort, true).value)
  {
    hide ParseValue, Write, Canonical, Meaning, Good, Ascii;
    var j := Meaning(s, Root(s)).value;
    MeaningIsGood(s, Root(s), 0);
    CanonicalIsGood(j, 0, sort);
    WrittenIsAscii(Canonical(j, sort), 0);
  }

  // ----- sorting

  /** `c` says what `j` does, with the keys of every object in order. */
  ghost predicate Ordered(j: Json, c: Json)
    decreases j
  {
    match j
    case Text(_) => c == j
    case Plain(_) => c == j
    case List(items) =>
      c.List? && |c.items| == |items| && forall k | 0 <= k < |items| :: Ordered(items[k], c.items[k])
    case Map(members) =>
      && c.Map? && |c.members| == |members| && Sorted(c.members)
      && forall k | 0 <= k < |members| :: exists i | 0 <= i < |c.members| ::
           c.members[i].0 == members[k].0 && Ordered(members[k].1, c.members[i].1)
  }

  /** Without sorting a tree is printed as it is; with sorting, with the keys of every object in order. */
  lemma {:induction false} CanonicalIs(j: Json, depth: nat)
    requires Good(j, depth)
    ensures Canonical(j, false) == j && Ordered(j, Canonical(j, true))
    decreases j
  {
    match j
    case Text(_) =>
    case Plain(_) =>
    case List(items) =>
      forall k | 0 <= k < |items|
        ensures Canonical(items[k], false) == items[k] && Ordered(items[k], Canonical(items[k], true))
      {
        CanonicalIs(items[k], depth + 1);
      }
      assert Canonical(j, false).items == items;
    case Map(members) =>
      forall k | 0 <= k < |members|
        ensures Canonical(members[k].1, false) == members[k].1 && Ordered(members[k].1, Canonical(members[k].1, true))
      {
        CanonicalIs(members[k].1, depth + 1);
      }
      assert Canonical(j, false).members == members;
      MapOrdered(members);
  }

  lemma MapOrdered(members: seq<(seq<byte>, Json)>)
    requires Distinct(members)
    requires forall k | 0 <= k < |members| :: Ordered(members[k].1, Canonical(members[k].1, true))
    ensures Ordered(Map(members), Canonical(Map(members), true))
  {
    hide Canonical, Sort;
    var all := seq(|members|, i requires 0 <= i < |members| => (members[i].0, Canonical(members[i].1, true)));
    assert Distinct(all);
    SortSorts(all);
    SortPermutes(all);
    CanonicalMap(members);
    forall k | 0 <= k < |members|
      ensures exists i | 0 <= i < |Sort(all)| ::
        Sort(all)[i].0 == members[k].0 && Ordered(members[k].1, Sort(all)[i].1)
    {
      assert all[k] in multiset(all) && multiset(all) == multiset(Sort(all));
      var i :| 0 <= i < |Sort(all)| && Sort(all)[i] == all[k];
    }
  }

  lemma CanonicalMap(members: seq<(seq<byte>, Json)>)
    ensures Canonical(Map(members), true)
      == Map(Sort(seq(|members|, i requires 0 <= i < |members| => (members[i].0, Canonical(members[i].1, true)))))
  {
    hide Sort;
  }
}
