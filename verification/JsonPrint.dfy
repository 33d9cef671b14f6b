/** Canonical printing (jb.c:7381-7445). A printed document parses back to the tree it was printed from, with its keys
    sorted if they were to be, and prints to the same bytes again. */
module JsonPrint {
  import opened Wrappers
  import opened Utf8
  import opened JsonStrings
  import opened JsonOrder
  import opened JsonParse
  import opened JsonLookup

  /** What a document says. */
  datatype Json =
    | Text(text: seq<byte>)
    | Plain(text: seq<byte>)
    | List(items: seq<Json>)
    | Map(members: seq<(seq<byte>, Json)>)

  /** What a parsed value says, if all its strings have texts. */
  ghost function Meaning(s: seq<byte>, n: Node): (j: Option<Json>)
    requires Shaped(s, n)
    decreases n, |n.kids| + 1
  {
    match n.kind
    case String => (match TextOf(s, n.start, n.end) case None => None case Some(z) => Some(Text(z)))
    case Primitive => Some(Plain(s[n.start..n.end]))
    case Array => (match Items(s, n, |n.kids|) case None => None case Some(items) => Some(List(items)))
    case Object =>
      ShapedObject(s, n);
      match Members(s, n, |n.kids| / 2) case None => None case Some(members) => Some(Map(members))
  }

  ghost function Items(s: seq<byte>, n: Node, k: nat): (r: Option<seq<Json>>)
    requires Shaped(s, n) && k <= |n.kids|
    ensures r.Some? ==> |r.value| == k
    decreases n, k
  {
    if k == 0 then Some([])
    else
      match Items(s, n, k - 1)
      case None => None
      case Some(items) => match Meaning(s, n.kids[k - 1]) case None => None case Some(j) => Some(items + [j])
  }

  ghost function Members(s: seq<byte>, n: Node, m: nat): (r: Option<seq<(seq<byte>, Json)>>)
    requires Shaped(s, n) && Keyed(s, n) && 2 * m <= |n.kids|
    ensures r.Some? ==> |r.value| == m
    decreases n, m
  {
    if m == 0 then Some([])
    else
      match Members(s, n, m - 1)
      case None => None
      case Some(members) =>
        if KeyText(s, n, m - 1).None? || Meaning(s, n.kids[2 * m - 1]).None? then None
        else Some(members + [(KeyText(s, n, m - 1).value, Meaning(s, n.kids[2 * m - 1]).value)])
  }

  /** A tree with its keys sorted throughout, if they are to be. */
  function Canonical(j: Json, sort: bool): Json {
    match j
    case Text(_) => j
    case Plain(_) => j
    case List(items) => List(seq(|items|, i requires 0 <= i < |items| => Canonical(items[i], sort)))
    case Map(members) =>
      var all := seq(|members|, i requires 0 <= i < |members| => (members[i].0, Canonical(members[i].1, sort)));
      Map(if sort then Sort(all) else all)
  }

  function Quoted(z: seq<byte>, ascii: bool): seq<byte> {
    [QUOTE] + (if Escape(z, ascii).Some? then Escape(z, ascii).value else []) + [QUOTE]
  }

  function Width(j: Json): nat {
    if j.List? then |j.items| else if j.Map? then |j.members| else 0
  }

  /** The bytes a tree is written as. */
  function Write(j: Json, ascii: bool): seq<byte>
    decreases j, Width(j) + 1
  {
    match j
    case Text(text) => Quoted(text, ascii)
    case Plain(text) => text
    case List(items) => [0x5B] + WriteItems(j, 0, ascii)
    case Map(members) => [0x7B] + WriteMembers(j, 0, ascii)
  }

  function Separator(k: nat): seq<byte> {
    if k > 0 then [COMMA, 0x20] else []
  }

  /** A list from its k-th item on. */
  function WriteItems(j: Json, k: nat, ascii: bool): seq<byte>
    requires j.List? && k <= |j.items|
    decreases j, |j.items| - k
  {
    if k == |j.items| then [0x5D]
    else Separator(k) + (Write(j.items[k], ascii) + WriteItems(j, k + 1, ascii))
  }

  /** An object's k-th member. */
  function MemberText(j: Json, k: nat, ascii: bool): seq<byte>
    requires j.Map? && k < |j.members|
    decreases j, 0
  {
    Quoted(j.members[k].0, ascii) + ([COLON, 0x20] + Write(j.members[k].1, ascii))
  }

  /** An object from its k-th member on. */
  function WriteMembers(j: Json, k: nat, ascii: bool): seq<byte>
    requires j.Map? && k <= |j.members|
    decreases j, |j.members| - k
  {
    if k == |j.members| then [0x7D]
    else Separator(k) + (MemberText(j, k, ascii) + WriteMembers(j, k + 1, ascii))
  }

  ghost predicate TextOk(z: seq<byte>) {
    WellFormed(z, 0) && 0 !in z
  }

  ghost predicate PlainOk(z: seq<byte>) {
    z != [] && PrimitiveValid(z) && PrimitiveEnd(z, 0) == |z|
  }

  /** What can stand inside `depth` containers: proper texts and primitives, distinct keys, and not too deep. */
  ghost predicate Good(j: Json, depth: nat) {
    match j
    case Text(text) => TextOk(text)
    case Plain(text) => PlainOk(text)
    case List(items) => depth < MAX_DEPTH && forall i | 0 <= i < |items| :: Good(items[i], depth + 1)
    case Map(members) =>
      depth < MAX_DEPTH && Distinct(members)
      && forall i | 0 <= i < |members| :: TextOk(members[i].0) && Good(members[i].1, depth + 1)
  }

  /** No value is nested too deep when its parse began inside `depth` containers. */
  ghost predicate Fits(n: Node, depth: nat) {
    (n.kind == Object || n.kind == Array ==> depth < MAX_DEPTH) && forall k | 0 <= k < |n.kids| ::
      Fits(n.kids[k], depth + 1)
  }

  lemma {:induction false} ValueFits(s: seq<byte>, pos: nat, depth: nat)
    requires pos <= |s| && ParseValue(s, pos, depth).Some?
    ensures Fits(ParseValue(s, pos, depth).value.0, depth)
    decreases |s| - pos, 0
  {
    hide PrimitiveValid, Scan;
    var p := Skip(s, pos);
    if s[p] != QUOTE && Opens(s[p]).Some? {
      KidsFit(s, p + 1, depth + 1, Opens(s[p]).value, p, []);
    }
  }

  lemma {:induction false} KidsFit(s: seq<byte>, pos: nat, depth: nat, kind: Kind, start: nat, kids: seq<Node>)
    requires pos <= |s| && 0 < depth <= MAX_DEPTH && ParseKids(s, pos, depth, kind, start, kids).Some?
    requires forall k | 0 <= k < |kids| :: Fits(kids[k], depth)
    ensures Fits(ParseKids(s, pos, depth, kind, start, kids).value.0, depth - 1)
    decreases |s| - pos, 2
  {
    hide ParseKids, ParseKid, Skip;
    KidsStep(s, pos, depth, kind, start, kids);
    var p := Skip(s, pos);
    if s[p] != Closes(kind) {
      var q := if kids != [] then Skip(s, p + 1) else p;
      KidFits(s, q, depth, kind);
      var kid := ParseKid(s, q, depth, kind).value;
      KidsFit(s, kid.1, depth, kind, start, kids + kid.0);
    }
  }

  lemma {:induction false} KidFits(s: seq<byte>, q: nat, depth: nat, kind: Kind)
    requires q <= |s| && depth > 0 && ParseKid(s, q, depth, kind).Some?
    ensures forall k | 0 <= k < |ParseKid(s, q, depth, kind).value.0| ::
      Fits(ParseKid(s, q, depth, kind).value.0[k], depth)
    decreases |s| - q, 1
  {
    hide Scan, ParseValue;
    if kind == Object {
      ValueFits(s, Skip(s, ParseString(s, q).value.1) + 1, depth);
    } else {
      ValueFits(s, q, depth);
    }
  }

  lemma {:induction false} MeaningIsGood(s: seq<byte>, n: Node, depth: nat)
    requires Shaped(s, n) && Fits(n, depth) && KeysOk(s, n) && Meaning(s, n).Some?
    ensures Good(Meaning(s, n).value, depth)
    decreases n, |n.kids| + 1
  {
    hide PrimitiveValid, Scan, TextOf, Unescaped;
    match n.kind
    case String => TextIsOk(s, n.start, n.end);
    case Primitive =>
    case Array => ItemsAreGood(s, n, depth, |n.kids|);
    case Object =>
      ShapedObject(s, n);
      MembersAreGood(s, n, depth, |n.kids| / 2);
      MembersApart(s, n);
  }

  lemma TextIsOk(s: seq<byte>, start: nat, end: nat)
    requires start <= end < |s| && Scan(s, start) == Some(end) && TextOf(s, start, end).Some?
    ensures TextOk(TextOf(s, start, end).value)
  {
    UnescapedHasNoNul(s, start, end);
  }

  lemma {:induction false} ItemsAreGood(s: seq<byte>, n: Node, depth: nat, k: nat)
    requires Shaped(s, n) && Fits(n, depth) && KeysOk(s, n) && k <= |n.kids| && Items(s, n, k).Some?
    ensures forall i | 0 <= i < k :: Good(Items(s, n, k).value[i], depth + 1)
    decreases n, k
  {
    if k > 0 {
      ItemsAreGood(s, n, depth, k - 1);
      MeaningIsGood(s, n.kids[k - 1], depth + 1);
    }
  }

  lemma {:induction false} MembersAreGood(s: seq<byte>, n: Node, depth: nat, m: nat)
    requires Shaped(s, n) && Keyed(s, n) && Fits(n, depth) && KeysOk(s, n) && 2 * m <= |n.kids|
      && Members(s, n, m).Some?
    ensures var members := Members(s, n, m).value;
      forall i | 0 <= i < m :: TextOk(members[i].0) && Good(members[i].1, depth + 1)
    decreases n, m
  {
    hide Good, TextOk, Members, Meaning, TextOf, Scan, KeyText;
    if m > 0 {
      MembersStep(s, n, m);
      MembersAreGood(s, n, depth, m - 1);
      MeaningIsGood(s, n.kids[2 * m - 1], depth + 1);
      KeyTextIsOk(s, n, m - 1);
    }
  }

  lemma KeyTextIsOk(s: seq<byte>, n: Node, m: nat)
    requires Keyed(s, n) && 2 * m < |n.kids| && KeyText(s, n, m).Some?
    ensures TextOk(KeyText(s, n, m).value)
  {
    TextIsOk(s, n.kids[2 * m].start, n.kids[2 * m].end);
  }

  lemma MembersStep(s: seq<byte>, n: Node, m: nat)
    requires Shaped(s, n) && Keyed(s, n) && 0 < m && 2 * m <= |n.kids|
    ensures Members(s, n, m) ==
      if Members(s, n, m - 1).None? || KeyText(s, n, m - 1).None? || Meaning(s, n.kids[2 * m - 1]).None? then None
      else Some(Members(s, n, m - 1).value + [(KeyText(s, n, m - 1).value, Meaning(s, n.kids[2 * m - 1]).value)])
  {
    hide Meaning, KeyText;
  }

  /** Members have the keys of the key list. */
  lemma {:induction false} MemberKeys(s: seq<byte>, n: Node, m: nat)
    requires Shaped(s, n) && Keyed(s, n) && 2 * m <= |n.kids| && Members(s, n, m).Some?
    ensures Keys(s, n, m).Some? && forall i | 0 <= i < m :: Members(s, n, m).value[i].0 == Keys(s, n, m).value[i].0
    decreases m
  {
    hide Meaning, KeyText;
    if m > 0 {
      MemberKeys(s, n, m - 1);
    }
  }

  lemma MembersApart(s: seq<byte>, n: Node)
    requires Shaped(s, n) && n.kind == Object && Keyed(s, n) && KeysOk(s, n) && Members(s, n, |n.kids| / 2).Some?
    ensures Distinct(Members(s, n, |n.kids| / 2).value)
  {
    hide Members, Keys;
    MemberKeys(s, n, |n.kids| / 2);
    LocalMeans(s, n);
  }

  /** Sorting keys does not make a tree worse. */
  lemma {:induction false} CanonicalIsGood(j: Json, depth: nat, sort: bool)
    requires Good(j, depth)
    ensures Good(Canonical(j, sort), depth)
    decreases j
  {
    hide PlainOk, TextOk;
    match j
    case Text(_) =>
    case Plain(_) =>
    case List(items) =>
      forall i | 0 <= i < |items|
        ensures Good(Canonical(items[i], sort), depth + 1)
      {
        CanonicalIsGood(items[i], depth + 1, sort);
      }
    case Map(members) =>
      var all := seq(|members|, i requires 0 <= i < |members| => (members[i].0, Canonical(members[i].1, sort)));
      forall i | 0 <= i < |members|
        ensures Good(all[i].1, depth + 1) && TextOk(all[i].0)
      {
        CanonicalIsGood(members[i].1, depth + 1, sort);
      }
      if sort {
        SortedIsGood(all, depth + 1);
      }
  }

  lemma SortedIsGood(all: seq<(seq<byte>, Json)>, depth: nat)
    requires Distinct(all) && forall i | 0 <= i < |all| :: TextOk(all[i].0) && Good(all[i].1, depth)
    ensures var r := Sort(all);
      Distinct(r) && forall i | 0 <= i < |r| :: TextOk(r[i].0) && Good(r[i].1, depth)
  {
    hide TextOk, Good, Sort;
    var r := Sort(all);
    SortPermutes(all);
    SortSorts(all);
    forall i, k | 0 <= i < k < |r|
      ensures r[i].0 != r[k].0
    {
      LessIsTotal(r[i].0, r[k].0);
    }
    forall i | 0 <= i < |r|
      ensures TextOk(r[i].0) && Good(r[i].1, depth)
    {
      assert r[i] in multiset(all);
      var k :| 0 <= k < |all| && all[k] == r[i];
    }
  }

  /** Sorting a tree again changes nothing. */
  lemma {:induction false} CanonicalTwice(j: Json, depth: nat, sort: bool)
    requires Good(j, depth)
    ensures Canonical(Canonical(j, sort), sort) == Canonical(j, sort)
    decreases j
  {
    hide PlainOk, TextOk;
    match j
    case Text(_) =>
    case Plain(_) =>
    case List(items) =>
      forall i | 0 <= i < |items|
        ensures Canonical(Canonical(items[i], sort), sort) == Canonical(items[i], sort)
      {
        CanonicalTwice(items[i], depth + 1, sort);
      }
    case Map(members) =>
      var all := seq(|members|, i requires 0 <= i < |members| => (members[i].0, Canonical(members[i].1, sort)));
      forall i | 0 <= i < |members|
        ensures Canonical(all[i].1, sort) == all[i].1
      {
        CanonicalTwice(members[i].1, depth + 1, sort);
      }
      CanonicalMembers(all, sort);
  }

  lemma CanonicalMembers(all: seq<(seq<byte>, Json)>, sort: bool)
    requires Distinct(all) && forall i | 0 <= i < |all| :: Canonical(all[i].1, sort) == all[i].1
    ensures var r := if sort then Sort(all) else all; Canonical(Map(r), sort) == Map(r)
  {
    var r := if sort then Sort(all) else all;
    if sort {
      SortPermutes(all);
      SortSorts(all);
      SortOfSorted(r);
      forall i | 0 <= i < |r|
        ensures Canonical(r[i].1, sort) == r[i].1
      {
        assert r[i] in multiset(all);
        var k :| 0 <= k < |all| && all[k] == r[i];
      }
    }
    hide Sort;
    assert seq(|r|, i requires 0 <= i < |r| => (r[i].0, Canonical(r[i].1, sort))) == r;
  }

  /** A node that says `j` and has proper keys. */
  ghost predicate Says(z: seq<byte>, n: Node, j: Json) {
    Shaped(z, n) && KeysOk(z, n) && Meaning(z, n) == Some(j)
  }

  /** What must follow a value that is written at the end of `z[..end]`. */
  predicate Delimited(z: seq<byte>, end: nat, j: Json) {
    j.Plain? && end < |z| ==> Stops(z[end])
  }

  /** A written value's first byte. */
  lemma WrittenHead(j: Json, depth: nat, ascii: bool)
    requires Good(j, depth)
    ensures var w := Write(j, ascii);
      |w| > 0 && !Space(w[0]) && w[0] != 0x5D && w[0] != 0x7D
      && (j.Text? ==> w[0] == QUOTE) && (j.List? ==> w[0] == 0x5B) && (j.Map? ==> w[0] == 0x7B)
      && (j.Plain? ==> w[0] != QUOTE && Opens(w[0]).None?)
  {
  }

  lemma SkipNothing(z: seq<byte>, pos: nat)
    requires pos < |z| && !Space(z[pos])
    ensures Skip(z, pos) == pos
  {
  }

  lemma ReadsAt(z: seq<byte>, pos: nat, w: seq<byte>, k: nat)
    requires Reads(z, pos, w) && k < |w|
    ensures pos + k < |z| && z[pos + k] == w[k]
  {
    assert z[pos..pos + |w|][k] == w[k];
  }

  lemma QuotedParses(z: seq<byte>, pos: nat, text: seq<byte>, ascii: bool)
    requires TextOk(text) && Reads(z, pos, Quoted(text, ascii))
    ensures pos < |z| && z[pos] == QUOTE
    ensures var end := pos + |Quoted(text, ascii)|;
      end >= pos + 2 && Scan(z, pos + 1) == Some(end - 1) && end <= |z| && TextOf(z, pos + 1, end - 1) == Some(text)
      && ParseString(z, pos) == Some((Node(String, pos + 1, end - 1, []), end))
  {
    hide WellFormed, Escape, TextOf, Scan;
    var e := Escape(text, ascii);
    assert forall j | 0 <= j < |text| :: text[j] != 0;
    RoundTrip(text, ascii, z, pos + 1);
    QuotedIs(text, ascii);
    hide Quoted;
    ReadsParts(z, pos, [QUOTE], e.value + [QUOTE]);
    ReadsAt(z, pos, Quoted(text, ascii), 0);
  }

  lemma QuotedIs(text: seq<byte>, ascii: bool)
    requires Escape(text, ascii).Some?
    ensures Quoted(text, ascii) == [QUOTE] + (Escape(text, ascii).value + [QUOTE])
  {
    hide Escape;
  }

  lemma {:induction false} PrimitiveEndAt(z: seq<byte>, pos: nat, w: seq<byte>, i: nat)
    requires Reads(z, pos, w) && i <= |w| && PrimitiveEnd(w, i) == |w| && (pos + |w| < |z| ==> Stops(z[pos + |w|]))
    ensures PrimitiveEnd(z, pos + i) == pos + |w|
    decreases |w| - i
  {
    if i < |w| {
      ReadsAt(z, pos, w, i);
      PrimitiveEndAt(z, pos, w, i + 1);
    }
  }

  lemma PlainParses(z: seq<byte>, pos: nat, depth: nat, text: seq<byte>)
    requires PlainOk(text) && Reads(z, pos, text) && Delimited(z, pos + |text|, Plain(text))
    requires !Space(text[0]) && text[0] != QUOTE && Opens(text[0]).None?
    ensures var n := Node(Primitive, pos, pos + |text|, []);
      ParseValue(z, pos, depth) == Some((n, pos + |text|)) && Says(z, n, Plain(text))
  {
    ReadsAt(z, pos, text, 0);
    SkipNothing(z, pos);
    PrimitiveEndAt(z, pos, text, 0);
    hide PrimitiveValid;
  }

  lemma TextParses(z: seq<byte>, pos: nat, depth: nat, text: seq<byte>, ascii: bool)
    requires TextOk(text) && Reads(z, pos, Quoted(text, ascii))
    ensures var end := pos + |Quoted(text, ascii)|;
      end >= pos + 2 && ParseValue(z, pos, depth) == Some((Node(String, pos + 1, end - 1, []), end))
      && Says(z, Node(String, pos + 1, end - 1, []), Text(text))
  {
    QuotedParses(z, pos, text, ascii);
    SkipNothing(z, pos);
    hide TextOk, Quoted, TextOf, Scan, ParseString;
  }

  /** The nodes of a list's first items. */
  ghost predicate ItemsSay(z: seq<byte>, kids: seq<Node>, items: seq<Json>) {
    |kids| == |items| && forall i | 0 <= i < |kids| :: Says(z, kids[i], items[i])
  }

  lemma {:induction false} ItemsMean(z: seq<byte>, n: Node, items: seq<Json>, k: nat)
    requires n.kind == Array && Shaped(z, n) && ItemsSay(z, n.kids, items) && k <= |items|
    ensures Items(z, n, k) == Some(items[..k])
    decreases k
  {
    hide Meaning;
    if k > 0 {
      ItemsMean(z, n, items, k - 1);
      assert Says(z, n.kids[k - 1], items[k - 1]);
      assert items[..k] == items[..k - 1] + [items[k - 1]];
    }
  }

  lemma ListSays(z: seq<byte>, n: Node, items: seq<Json>)
    requires n.kind == Array && ItemsSay(z, n.kids, items)
    ensures Says(z, n, List(items))
  {
    assert forall i | 0 <= i < |n.kids| :: Says(z, n.kids[i], items[i]);
    assert Shaped(z, n) by {
      hide Meaning, KeysOk;
    }
    ItemsMean(z, n, items, |items|);
    assert items[..|items|] == items;
    hide Says;
    assert KeysOk(z, n) by {
      forall k | 0 <= k < |n.kids|
        ensures KeysOk(z, n.kids[k])
      {
        SaysKeys(z, n.kids[k], items[k]);
      }
    }
    IsSaid(z, n, List(items));
  }

  lemma SaysKeys(z: seq<byte>, n: Node, j: Json)
    requires Says(z, n, j)
    ensures Shaped(z, n) && KeysOk(z, n) && Meaning(z, n) == Some(j)
  {
  }

  lemma IsSaid(z: seq<byte>, n: Node, j: Json)
    requires Shaped(z, n) && KeysOk(z, n) && Meaning(z, n) == Some(j)
    ensures Says(z, n, j)
  {
  }

  /** The nodes of an object's first members. */
  ghost predicate MembersSay(z: seq<byte>, kids: seq<Node>, members: seq<(seq<byte>, Json)>) {
    |kids| == 2 * |members|
    && forall i | 0 <= i < |members| ::
         Says(z, kids[2 * i], Text(members[i].0)) && kids[2 * i].kind == String
           && Says(z, kids[2 * i + 1], members[i].1)
  }

  lemma {:induction false} MembersMean(z: seq<byte>, n: Node, members: seq<(seq<byte>, Json)>, m: nat)
    requires n.kind == Object && Shaped(z, n) && Keyed(z, n) && MembersSay(z, n.kids, members) && m <= |members|
    ensures Members(z, n, m) == Some(members[..m])
    ensures Keys(z, n, m).Some? && forall i | 0 <= i < m :: Keys(z, n, m).value[i].0 == members[i].0
    decreases m
  {
    hide *;
    if m > 0 {
      MembersSayCount(z, n.kids, members);
      MembersMean(z, n, members, m - 1);
      MemberMeans(z, n, members, m - 1);
      MembersStep(z, n, m);
      KeysStep(z, n, m - 1);
      KeyTextIs(z, n, m - 1);
      assert members[..m] == members[..m - 1] + [members[m - 1]];
    } else {
      NoKeys(z, n);
      NoMembers(z, n);
    }
  }

  lemma NoMembers(z: seq<byte>, n: Node)
    requires Shaped(z, n) && Keyed(z, n)
    ensures Members(z, n, 0) == Some([])
  {
  }

  lemma MembersSayCount(z: seq<byte>, kids: seq<Node>, members: seq<(seq<byte>, Json)>)
    requires MembersSay(z, kids, members)
    ensures |kids| == 2 * |members|
  {
  }

  lemma KeyTextIs(z: seq<byte>, n: Node, m: nat)
    requires Keyed(z, n) && 2 * m < |n.kids|
    ensures var k := n.kids[2 * m];
      k.start <= k.end < |z| && Scan(z, k.start) == Some(k.end) && KeyText(z, n, m) == TextOf(z, k.start, k.end)
  {
    hide Scan, TextOf;
  }

  lemma MemberMeans(z: seq<byte>, n: Node, members: seq<(seq<byte>, Json)>, i: nat)
    requires Shaped(z, n) && Keyed(z, n) && MembersSay(z, n.kids, members) && i < |members|
    ensures 2 * i + 1 < |n.kids| && KeyText(z, n, i) == Some(members[i].0)
    ensures Shaped(z, n.kids[2 * i + 1]) && Meaning(z, n.kids[2 * i + 1]) == Some(members[i].1)
  {
    hide Scan, TextOf;
    assert Says(z, n.kids[2 * i], Text(members[i].0)) && Says(z, n.kids[2 * i + 1], members[i].1);
  }

  lemma MapSays(z: seq<byte>, n: Node, members: seq<(seq<byte>, Json)>)
    requires n.kind == Object && MembersSay(z, n.kids, members) && Distinct(members)
    ensures Says(z, n, Map(members))
  {
    var m := |members|;
    forall k | 0 <= k < |n.kids|
      ensures Shaped(z, n.kids[k]) && KeysOk(z, n.kids[k])
      ensures k % 2 == 0 ==> n.kids[k].kind == String
    {
      var i := k / 2;
      assert Says(z, n.kids[2 * i], Text(members[i].0)) && Says(z, n.kids[2 * i + 1], members[i].1);
    }
    assert Shaped(z, n);
    ShapedObject(z, n);
    MembersMean(z, n, members, m);
    assert members[..m] == members;
    hide Says, Keys, Members, Keyed, Shaped, MembersSay;
    assert |n.kids| / 2 == m;
    assert Distinct(Keys(z, n, m).value);
    LocalMeans(z, n);
    MapKeysOk(z, n);
    MapMeaning(z, n, members);
    IsSaid(z, n, Map(members));
  }

  lemma MapKeysOk(z: seq<byte>, n: Node)
    requires Shaped(z, n) && LocalOk(z, n) && forall k | 0 <= k < |n.kids| :: KeysOk(z, n.kids[k])
    ensures KeysOk(z, n)
  {
    hide LocalOk;
  }

  lemma MapMeaning(z: seq<byte>, n: Node, members: seq<(seq<byte>, Json)>)
    requires n.kind == Object && Shaped(z, n) && Keyed(z, n) && 2 * |members| == |n.kids|
    requires Members(z, n, |members|) == Some(members)
    ensures Meaning(z, n) == Some(Map(members))
  {
    hide Members, Shaped;
  }

  /** Where a value starts that is written after its separator, and how the parser gets there. */
  lemma SeparatorRead(z: seq<byte>, pos: nat, k: nat, w: seq<byte>) returns (q: nat)
    requires Reads(z, pos, Separator(k) + w) && w != [] && !Space(w[0])
    ensures q == pos + |Separator(k)| && Reads(z, q, w) && pos < |z| && Skip(z, pos) == pos && Skip(z, q) == q
    ensures q < |z| && z[q] == w[0]
    ensures k > 0 ==> z[pos] == COMMA && Skip(z, pos + 1) == q
    ensures k == 0 ==> q == pos
  {
    q := pos + |Separator(k)|;
    ReadsParts(z, pos, Separator(k), w);
    ReadsAt(z, q, w, 0);
    SkipNothing(z, q);
    if k > 0 {
      ReadsAt(z, pos, Separator(k), 0);
      ReadsAt(z, pos, Separator(k), 1);
      SkipNothing(z, pos);
    }
  }

  lemma AfterItem(j: Json, k: nat, ascii: bool)
    requires j.List? && k <= |j.items|
    ensures WriteItems(j, k, ascii) != [] && (k > 0 ==> Stops(WriteItems(j, k, ascii)[0]))
    ensures k == |j.items| ==> WriteItems(j, k, ascii) == [0x5D]
    ensures k < |j.items| ==>
      WriteItems(j, k, ascii) == Separator(k) + (Write(j.items[k], ascii) + WriteItems(j, k + 1, ascii))
    decreases |j.items| - k
  {
    hide Write;
    if k < |j.items| {
      AfterItem(j, k + 1, ascii);
    }
  }

  lemma ArrayKid(z: seq<byte>, q: nat, depth: nat, n: Node, end: nat)
    requires q <= |z| && depth > 0 && ParseValue(z, q, depth) == Some((n, end))
    ensures ParseKid(z, q, depth, Array) == Some(([n], end))
  {
    hide ParseValue;
  }

  lemma ItemsSayMore(z: seq<byte>, kids: seq<Node>, items: seq<Json>, k: nat, n: Node)
    requires k < |items| && ItemsSay(z, kids, items[..k]) && Says(z, n, items[k])
    ensures ItemsSay(z, kids + [n], items[..k + 1])
  {
    hide Says;
  }

  /** A written value parses to a node that says it. */
  lemma {:induction false} WrittenParses(z: seq<byte>, pos: nat, depth: nat, j: Json, ascii: bool) returns (n: Node)
    requires Good(j, depth) && Reads(z, pos, Write(j, ascii)) && Delimited(z, pos + |Write(j, ascii)|, j)
    ensures ParseValue(z, pos, depth) == Some((n, pos + |Write(j, ascii)|)) && Says(z, n, j)
    decreases j, Width(j) + 1
  {
    hide ParseKids, ParseString, ParsePrimitive, Says, TextOk, PlainOk, ItemsSay, MembersSay, WriteItems, WriteMembers,
         Quoted, Skip, Distinct;
    WrittenHead(j, depth, ascii);
    ReadsAt(z, pos, Write(j, ascii), 0);
    SkipNothing(z, pos);
    match j
    case Text(text) =>
      TextParses(z, pos, depth, text, ascii);
      n := Node(String, pos + 1, pos + |Write(j, ascii)| - 1, []);
    case Plain(text) =>
      PlainParses(z, pos, depth, text);
      n := Node(Primitive, pos, pos + |text|, []);
    case List(items) =>
      ReadsParts(z, pos, [0x5B], WriteItems(j, 0, ascii));
      NothingSays(z, items);
      n := ItemsParse(z, pos + 1, depth + 1, j, 0, ascii, pos, []);
      ListSays(z, n, items);
    case Map(members) =>
      ReadsParts(z, pos, [0x7B], WriteMembers(j, 0, ascii));
      NoMemberSays(z, members);
      n := MembersParse(z, pos + 1, depth + 1, j, 0, ascii, pos, []);
      MapSays(z, n, members);
  }

  lemma NothingSays(z: seq<byte>, items: seq<Json>)
    ensures ItemsSay(z, [], items[..0])
  {
  }

  lemma NoMemberSays(z: seq<byte>, members: seq<(seq<byte>, Json)>)
    ensures MembersSay(z, [], members[..0])
  {
  }

  lemma {:induction false} ItemsParse(z: seq<byte>, pos: nat, depth: nat, j: Json, k: nat, ascii: bool, start: nat,
                                      kids: seq<Node>) returns (n: Node)
    requires j.List? && 0 < depth <= MAX_DEPTH && k <= |j.items| && forall i | 0 <= i < |j.items| ::
      Good(j.items[i], depth)
    requires ItemsSay(z, kids, j.items[..k]) && Reads(z, pos, WriteItems(j, k, ascii)) && |kids| == k
    ensures pos <= |z| && ParseKids(z, pos, depth, Array, start, kids) == Some((n, pos + |WriteItems(j, k, ascii)|))
    ensures n.kind == Array && ItemsSay(z, n.kids, j.items)
    decreases j, |j.items| - k
  {
    hide *;
    AfterItem(j, k, ascii);
    ReadsAt(z, pos, WriteItems(j, k, ascii), 0);
    KidsStep(z, pos, depth, Array, start, kids);
    ClosesAre();
    if k == |j.items| {
      SpaceIs();
      SkipNothing(z, pos);
      assert j.items[..k] == j.items;
      n := Node(Array, start, pos + 1, kids);
    } else {
      var item, rest := Write(j.items[k], ascii), WriteItems(j, k + 1, ascii);
      WrittenHead(j.items[k], depth, ascii);
      var q := SeparatorRead(z, pos, k, item + rest);
      ReadsParts(z, q, item, rest);
      AfterItem(j, k + 1, ascii);
      ReadsAt(z, q + |item|, rest, 0);
      IsDelimited(z, q + |item|, j.items[k]);
      var kid := WrittenParses(z, q, depth, j.items[k], ascii);
      ArrayKid(z, q, depth, kid, q + |item|);
      ItemsSayMore(z, kids, j.items, k, kid);
      n := ItemsParse(z, q + |item|, depth, j, k + 1, ascii, start, kids + [kid]);
    }
  }

  lemma IsDelimited(z: seq<byte>, end: nat, j: Json)
    requires end < |z| && Stops(z[end])
    ensures Delimited(z, end, j)
  {
  }

  lemma ClosesAre()
    ensures Closes(Array) == 0x5D && Closes(Object) == 0x7D && COMMA == 0x2C && COLON == 0x3A && QUOTE == 0x22
  {
  }

  lemma SpaceIs()
    ensures !Space(0x5D) && !Space(0x7D) && !Space(QUOTE) && !Space(COLON) && Space(0x20)
  {
  }

  lemma AfterMember(j: Json, k: nat, ascii: bool)
    requires j.Map? && k <= |j.members|
    ensures WriteMembers(j, k, ascii) != [] && (k > 0 ==> Stops(WriteMembers(j, k, ascii)[0]))
    ensures k == |j.members| ==> WriteMembers(j, k, ascii) == [0x7D]
    ensures k < |j.members| ==>
      WriteMembers(j, k, ascii) == Separator(k) + (MemberText(j, k, ascii) + WriteMembers(j, k + 1, ascii))
    decreases |j.members| - k
  {
    hide Write, Quoted;
    if k < |j.members| {
      AfterMember(j, k + 1, ascii);
    }
  }

  lemma ObjectKid(z: seq<byte>, q: nat, depth: nat, key: Node, r: nat, value: Node, end: nat)
    requires q < |z| && depth > 0 && z[q] == QUOTE && ParseString(z, q) == Some((key, r)) && r < |z|
    requires Skip(z, r) == r && z[r] == COLON && ParseValue(z, r + 1, depth) == Some((value, end))
    ensures ParseKid(z, q, depth, Object) == Some(([key, value], end))
  {
    hide ParseValue, ParseString, Skip;
  }

  /** White space before a value does not matter. */
  lemma SpaceBefore(z: seq<byte>, pos: nat, depth: nat)
    requires pos < |z| && Space(z[pos])
    ensures ParseValue(z, pos, depth) == ParseValue(z, pos + 1, depth)
  {
    hide ParseKids, ParseString, ParsePrimitive;
    assert Skip(z, pos) == Skip(z, pos + 1);
  }

  lemma MembersSayMore(z: seq<byte>, kids: seq<Node>, members: seq<(seq<byte>, Json)>, k: nat, key: Node, value: Node)
    requires k < |members| && MembersSay(z, kids, members[..k])
    requires key.kind == String && Says(z, key, Text(members[k].0)) && Says(z, value, members[k].1)
    ensures MembersSay(z, kids + [key, value], members[..k + 1])
  {
    hide Says;
    var all := kids + [key, value];
    forall i | 0 <= i < k + 1
      ensures Says(z, all[2 * i], Text(members[i].0)) && all[2 * i].kind == String
        && Says(z, all[2 * i + 1], members[i].1)
    {
      if i < k {
        assert all[2 * i] == kids[2 * i] && all[2 * i + 1] == kids[2 * i + 1] && members[..k][i] == members[i];
      }
    }
  }

  lemma KeySays(z: seq<byte>, q: nat, text: seq<byte>, ascii: bool) returns (key: Node)
    requires TextOk(text) && Reads(z, q, Quoted(text, ascii))
    ensures q < |z| && z[q] == QUOTE && ParseString(z, q) == Some((key, q + |Quoted(text, ascii)|))
    ensures key.kind == String && Says(z, key, Text(text))
  {
    QuotedParses(z, q, text, ascii);
    TextParses(z, q, 0, text, ascii);
    key := Node(String, q + 1, q + |Quoted(text, ascii)| - 1, []);
  }

  lemma {:induction false} MembersParse(z: seq<byte>, pos: nat, depth: nat, j: Json, k: nat, ascii: bool, start: nat,
                                        kids: seq<Node>) returns (n: Node)
    requires j.Map? && 0 < depth <= MAX_DEPTH && k <= |j.members|
    requires forall i | 0 <= i < |j.members| :: TextOk(j.members[i].0) && Good(j.members[i].1, depth)
    requires MembersSay(z, kids, j.members[..k]) && Reads(z, pos, WriteMembers(j, k, ascii)) && |kids| == 2 * k
    ensures pos <= |z| && ParseKids(z, pos, depth, Object, start, kids) == Some((n, pos + |WriteMembers(j, k, ascii)|))
    ensures n.kind == Object && MembersSay(z, n.kids, j.members)
    decreases j, |j.members| - k
  {
    hide *;
    AfterMember(j, k, ascii);
    ReadsAt(z, pos, WriteMembers(j, k, ascii), 0);
    KidsStep(z, pos, depth, Object, start, kids);
    ClosesAre();
    SpaceIs();
    if k == |j.members| {
      SkipNothing(z, pos);
      assert j.members[..k] == j.members;
      n := Node(Object, start, pos + 1, kids);
    } else {
      var text, rest := MemberText(j, k, ascii), WriteMembers(j, k + 1, ascii);
      MemberHead(j, k, ascii);
      var q := SeparatorRead(z, pos, k, text + rest);
      ReadsParts(z, q, text, rest);
      AfterMember(j, k + 1, ascii);
      ReadsAt(z, q + |text|, rest, 0);
      var key, kid := MemberParses(z, q, depth, j, k, ascii);
      MembersSayMore(z, kids, j.members, k, key, kid);
      n := MembersParse(z, q + |text|, depth, j, k + 1, ascii, start, kids + [key, kid]);
    }
  }

  lemma {:induction false} MemberParses(z: seq<byte>, q: nat, depth: nat, j: Json, k: nat, ascii: bool)
    returns (key: Node, kid: Node)
    requires j.Map? && 0 < depth <= MAX_DEPTH && k < |j.members|
    requires TextOk(j.members[k].0) && Good(j.members[k].1, depth) && Reads(z, q, MemberText(j, k, ascii))
    requires var end := q + |MemberText(j, k, ascii)|; end < |z| && Stops(z[end])
    ensures q <= |z| && ParseKid(z, q, depth, Object) == Some(([key, kid], q + |MemberText(j, k, ascii)|))
    ensures key.kind == String && Says(z, key, Text(j.members[k].0)) && Says(z, kid, j.members[k].1)
    decreases j, 0
  {
    hide *;
    MemberIs(j, k, ascii);
    MemberReads(z, q, Quoted(j.members[k].0, ascii), Write(j.members[k].1, ascii));
    key := KeySays(z, q, j.members[k].0, ascii);
    var r := q + |Quoted(j.members[k].0, ascii)|;
    var end := r + 2 + |Write(j.members[k].1, ascii)|;
    IsDelimited(z, end, j.members[k].1);
    kid := WrittenParses(z, r + 2, depth, j.members[k].1, ascii);
    SpaceBefore(z, r + 1, depth);
    ObjectKid(z, q, depth, key, r, kid, end);
  }

  lemma MemberReads(z: seq<byte>, q: nat, quoted: seq<byte>, value: seq<byte>)
    requires Reads(z, q, quoted + ([COLON, 0x20] + value))
    ensures var r := q + |quoted|;
      Reads(z, q, quoted) && r + 1 < |z| && z[r] == COLON && Space(z[r + 1]) && Skip(z, r) == r
        && Reads(z, r + 2, value)
  {
    hide Reads;
    ReadsParts(z, q, quoted, [COLON, 0x20] + value);
    var r := q + |quoted|;
    ReadsParts(z, r, [COLON, 0x20], value);
    ReadsAt(z, r, [COLON, 0x20], 0);
    ReadsAt(z, r, [COLON, 0x20], 1);
    SkipNothing(z, r);
  }

  lemma MemberIs(j: Json, k: nat, ascii: bool)
    requires j.Map? && k < |j.members|
    ensures MemberText(j, k, ascii) == Quoted(j.members[k].0, ascii) + ([COLON, 0x20] + Write(j.members[k].1, ascii))
    ensures |MemberText(j, k, ascii)| == |Quoted(j.members[k].0, ascii)| + 2 + |Write(j.members[k].1, ascii)|
  {
    hide Quoted, Write;
  }

  lemma MemberHead(j: Json, k: nat, ascii: bool)
    requires j.Map? && k < |j.members|
    ensures MemberText(j, k, ascii) != [] && MemberText(j, k, ascii)[0] == QUOTE
  {
    hide Write;
  }

  /** A document's tree, if its text is accepted: one value, white space around it, and no duplicate keys. */
  ghost predicate Accepted(s: seq<byte>) {
    |s| <= MAX_JSON
    && var r := ParseValue(s, 0, 0);
      r.Some? && Skip(s, r.value.1) == |s| && (ValueIsShaped(s, 0, 0); KeysOk(s, r.value.0))
  }

  ghost function Root(s: seq<byte>): (n: Node)
    requires Accepted(s)
    ensures Shaped(s, n) && KeysOk(s, n) && Fits(n, 0)
  {
    ValueIsShaped(s, 0, 0);
    ValueFits(s, 0, 0);
    ParseValue(s, 0, 0).value.0
  }

  /** What printing a document's tree gives. */
  ghost function Printed(s: seq<byte>, sort: bool, ascii: bool): Option<seq<byte>>
    requires Accepted(s)
  {
    match Meaning(s, Root(s)) case None => None case Some(j) => Some(Write(Canonical(j, sort), ascii))
  }

  /** Canonical printing is a fixed point, in all four modes: what is printed is accepted, says the same with its keys
      in order, and prints to itself. */
  lemma PrintingIsAFixedPoint(s: seq<byte>, sort: bool, ascii: bool)
    requires Accepted(s) && Printed(s, sort, ascii).Some? && |Printed(s, sort, ascii).value| <= MAX_JSON
    ensures var w := Printed(s, sort, ascii).value;
      Accepted(w)
      && Meaning(w, Root(w)) == Some(Canonical(Meaning(s, Root(s)).value, sort))
      && Printed(w, sort, ascii) == Some(w)
  {
    hide ParseValue, Write, Canonical, Meaning, Good, KeysOk, Shaped, Says, Fits;
    var j := Meaning(s, Root(s)).value;
    var c, w := Canonical(j, sort), Printed(s, sort, ascii).value;
    MeaningIsGood(s, Root(s), 0);
    CanonicalIsGood(j, 0, sort);
    CanonicalTwice(j, 0, sort);
    assert w[0..0 + |w|] == w;
    var n := WrittenParses(w, 0, 0, c, ascii);
    SaysKeys(w, n, c);
  }
}
