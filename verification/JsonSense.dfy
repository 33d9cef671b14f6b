/** What a JSON text says, apart from the parser and its token array (src/json.inc:96-201): the meaning of a grammar
    tree, that it is the meaning of the parsed document, and which texts are accepted. */
module JsonSense {
  import opened Wrappers
  import opened Utf8
  import opened JsonStrings
  import opened JsonEscapes
  import opened JsonParse
  import opened JsonLookup
  import opened JsonPrint
  import G = JsonGrammar

  /** The text of a string is that of the code points its body spells. */
  ghost predicate BodyMeans(body: seq<byte>, text: seq<byte>) {
    exists es :: AllSpelled(es) && body == Whole(es) && text == Stands(es)
  }

  /** What a tree says: strings their texts, primitives themselves, lists and objects their entries in order. */
  ghost predicate Means(v: G.Tree, j: Json)
    decreases v
  {
    match v
    case Quoted(body) => j.Text? && BodyMeans(body, j.text)
    case Word(text) => j == Plain(text)
    case Box(keyed, entries, gap) =>
      if keyed then
        j.Map? && |j.members| == |entries|
        && forall k | 0 <= k < |entries| :: EntryMeans(entries[k], j.members[k])
      else
        j.List? && |j.items| == |entries| && forall k | 0 <= k < |entries| :: Means(entries[k].value, j.items[k])
  }

  ghost predicate EntryMeans(e: G.Entry, member: (seq<byte>, Json))
    decreases e
  {
    e.key.Some? && BodyMeans(e.key.value.body, member.0) && Means(e.value, member.1)
  }

  // ----- the nodes of a container's entries

  /** How many nodes an entry has. */
  function Each(keyed: bool): nat {
    if keyed then 2 else 1
  }

  lemma {:induction false} KidsLength(keyed: bool, entries: seq<G.Entry>, at: nat)
    requires G.AllProper(keyed, entries)
    ensures |G.KidsOf(entries, at)| == Each(keyed) * |entries|
    decreases |entries|
  {
    hide G.Proper, G.EntryOk, G.KidOf, G.Inner, G.KidsOf, G.AllProper;
    if entries == [] {
      G.KidsCount(entries, at);
    } else {
      var n := |entries| - 1;
      ProperInit(keyed, entries);
      KidsLength(keyed, entries[..n], at);
      LastCount(keyed, entries, at);
      G.KidsMore(entries, n, at);
      assert entries[..n + 1] == entries;
    }
  }

  lemma {:induction false} KidsAt(keyed: bool, entries: seq<G.Entry>, at: nat, k: nat)
    requires G.AllProper(keyed, entries) && k < |entries|
    ensures |G.KidsOf(entries, at)| == Each(keyed) * |entries|
    ensures PartOf(G.KidsOf(entries, at), keyed, k) == G.KidOf(entries[k], at + |G.Inner(entries[..k])|, k == 0)
    decreases |entries|
  {
    hide G.Proper, G.EntryOk, G.KidOf, G.Inner, G.KidsOf, G.AllProper, PartOf;
    var n := |entries| - 1;
    KidsLength(keyed, entries, at);
    ProperInit(keyed, entries);
    KidsLength(keyed, entries[..n], at);
    G.KidsMore(entries, n, at);
    assert entries[..n + 1] == entries;
    var before, last := G.KidsOf(entries[..n], at), G.KidOf(entries[n], at + |G.Inner(entries[..n])|, n == 0);
    LastCount(keyed, entries, at);
    SliceOf(before, last, keyed, n, k);
    if k < n {
      KidsAt(keyed, entries[..n], at, k);
      assert entries[..n][..k] == entries[..k];
    }
  }

  lemma ProperInit(keyed: bool, entries: seq<G.Entry>)
    requires G.AllProper(keyed, entries) && entries != []
    ensures G.AllProper(keyed, entries[..|entries| - 1])
  {
    hide G.Proper, G.EntryOk;
  }

  /** The nodes of the k-th entry among those of all. */
  function PartOf(kids: seq<Node>, keyed: bool, k: nat): seq<Node>
  {
    if |kids| < Each(keyed) * k + Each(keyed) then [] else kids[Each(keyed) * k..Each(keyed) * k + Each(keyed)]
  }

  lemma SliceOf(before: seq<Node>, last: seq<Node>, keyed: bool, n: nat, k: nat)
    requires |before| == Each(keyed) * n && |last| == Each(keyed) && k <= n
    ensures k < n ==> PartOf(before + last, keyed, k) == PartOf(before, keyed, k)
    ensures k == n ==> PartOf(before + last, keyed, k) == last
  {
  }

  lemma LastCount(keyed: bool, entries: seq<G.Entry>, at: nat)
    requires G.AllProper(keyed, entries) && entries != []
    ensures var n := |entries| - 1;
      |G.KidOf(entries[n], at + |G.Inner(entries[..n])|, n == 0)| == Each(keyed)
  {
    hide G.Proper, G.EntryOk, G.KidOf, G.Inner;
    var n := |entries| - 1;
    G.AllEntriesOk(keyed, entries, n);
    KidCount(keyed, entries[n], at + |G.Inner(entries[..n])|, n == 0);
  }

  lemma KidCount(keyed: bool, e: G.Entry, at: nat, first: bool)
    requires G.EntryOk(keyed, e, first)
    ensures |G.KidOf(e, at, first)| == Each(keyed)
  {
  }

  /** Where an entry's value stands, and its node. */
  lemma EntryNodes(s: seq<byte>, at: nat, v: G.Tree, k: nat) returns (q: nat)
    requires v.Box? && Reads(s, at, G.Spell(v)) && G.Proper(v) && k < |v.entries|
    ensures var e, n := v.entries[k], G.NodeOf(v, at);
      && |n.kids| == Each(v.keyed) * |v.entries| && n.kind == (if v.keyed then Object else Array)
      && Reads(s, q + |G.KeyText(e.key)|, G.Spell(e.value)) && G.Proper(e.value) && (e.key.Some? <==> v.keyed)
      && (if v.keyed then
            2 * k + 1 < |n.kids| && n.kids[2 * k] == Node(String, q + 1, q + 1 + |e.key.value.body|, [])
            && n.kids[2 * k + 1] == G.NodeOf(e.value, q + |G.KeyText(e.key)|)
            && q + 1 + |e.key.value.body| < |s| && s[q + 1..q + 1 + |e.key.value.body|] == e.key.value.body
          else k < |n.kids| && n.kids[k] == G.NodeOf(e.value, q + |G.KeyText(e.key)|))
  {
    hide G.Proper, G.EntryOk, Reads, G.Spell, G.Inner, G.KidsOf, G.KidAt, G.KeyText, G.Body, Skip, G.Lead;
    var e := v.entries[k];
    G.BoxProper(v, k);
    G.KeyOk(v.keyed, e, k == 0);
    q := G.EntryPart(s, at, v, k);
    BoxEntries(v);
    KidsAt(v.keyed, v.entries, at + 1, k);
    G.BoxNode(v, at);
    var kids := G.KidsOf(v.entries, at + 1);
    var own := G.KidOf(e, at + 1 + |G.Inner(v.entries[..k])|, k == 0);
    if v.keyed {
      G.KeyedKid(e.key, e.value, q);
      assert own == kids[2 * k..2 * k + 2] == PartOf(kids, true, k);
      assert kids[2 * k] == own[0] && kids[2 * k + 1] == own[1];
      G.KeyReads(s, q, e.key.value);
      BodyReads(s, q, e.key.value.body);
    } else {
      G.BareKid(e.key, e.value, q);
      G.NoKeyText(e.key);
      assert own == kids[k..k + 1] == PartOf(kids, false, k);
    }
  }

  lemma BoxEntries(v: G.Tree)
    requires v.Box? && G.Proper(v)
    ensures G.AllProper(v.keyed, v.entries)
  {
  }

  lemma BodyReads(s: seq<byte>, q: nat, body: seq<byte>)
    requires Reads(s, q, [G.QUOTE_BYTE] + (body + [G.QUOTE_BYTE]))
    ensures q + 1 + |body| < |s| && s[q + 1..q + 1 + |body|] == body
  {
    hide Reads;
    ReadsParts(s, q, [G.QUOTE_BYTE], body + [G.QUOTE_BYTE]);
    ReadsParts(s, q + 1, body, [G.QUOTE_BYTE]);
    G.ReadsIs(s, q + 1, body);
    G.ReadsAt(s, q + 1 + |body|, [G.QUOTE_BYTE], 0);
  }

  // ----- a document says what its tree says

  /** A string token's text is what its body means. */
  lemma BodyText(s: seq<byte>, i: nat, body: seq<byte>, text: seq<byte>)
    requires i + |body| < |s| && s[i..i + |body|] == body && Scan(s, i) == Some(i + |body|)
    ensures TextOf(s, i, i + |body|) == Some(text) <==> BodyMeans(body, text)
  {
    hide Scan, Spells, TextOf;
    TextIff(s, i, i + |body|, text);
  }

  /** The node of a spelled tree says what the tree means. */
  lemma {:induction false} MeaningIs(s: seq<byte>, at: nat, v: G.Tree, j: Json)
    requires Reads(s, at, G.Spell(v)) && G.Proper(v) && Shaped(s, G.NodeOf(v, at))
    ensures Meaning(s, G.NodeOf(v, at)) == Some(j) <==> Means(v, j)
    decreases v, 1
  {
    hide G.Proper, G.Inner, BodyMeans, TextOf, Scan, Items, Members, Keyed;
    var n := G.NodeOf(v, at);
    match v
    case Quoted(body) =>
      BodyReads(s, at, body);
      ShapedLeaf(s, n);
      if j.Text? {
        BodyText(s, at + 1, body, j.text);
      }
    case Word(text) =>
      G.ReadsIs(s, at, text);
    case Box(keyed, entries, gap) =>
      BoxShape(s, at, v);
      if keyed {
        ShapedObject(s, n);
        if j.Map? {
          MembersIff(s, at, v, |entries|, j.members);
        }
      } else if j.List? {
        ItemsIff(s, at, v, |entries|, j.items);
      }
  }

  lemma ShapedLeaf(s: seq<byte>, n: Node)
    requires Shaped(s, n) && n.kind == String
    ensures n.start <= n.end < |s| && Scan(s, n.start) == Some(n.end)
  {
  }

  lemma BoxShape(s: seq<byte>, at: nat, v: G.Tree)
    requires v.Box? && G.Proper(v)
    ensures var n := G.NodeOf(v, at);
      |n.kids| == Each(v.keyed) * |v.entries| && n.kind == if v.keyed then Object else Array
  {
    hide G.Proper, G.KidsOf;
    G.BoxNode(v, at);
    BoxEntries(v);
    if v.entries == [] {
      G.KidsCount(v.entries, at + 1);
    } else {
      KidsAt(v.keyed, v.entries, at + 1, 0);
    }
  }

  lemma {:induction false} ItemsIff(s: seq<byte>, at: nat, v: G.Tree, k: nat, items: seq<Json>)
    requires v.Box? && !v.keyed && Reads(s, at, G.Spell(v)) && G.Proper(v) && Shaped(s, G.NodeOf(v, at))
    requires k <= |v.entries| == |G.NodeOf(v, at).kids| && G.NodeOf(v, at).kind == Array
    ensures Items(s, G.NodeOf(v, at), k) == Some(items) <==>
      |items| == k && forall i | 0 <= i < k :: Means(v.entries[i].value, items[i])
    decreases v, 0, k
  {
    hide G.Proper, G.Spell, G.NodeOf, Meaning, Means, Reads, G.KeyText;
    var n := G.NodeOf(v, at);
    if k > 0 {
      var q := EntryNodes(s, at, v, k - 1);
      var e := v.entries[k - 1];
      ShapedKid(s, n, k - 1);
      if |items| == k {
        ItemsIff(s, at, v, k - 1, items[..k - 1]);
        MeaningIs(s, q + |G.KeyText(e.key)|, e.value, items[k - 1]);
        assert items == items[..k - 1] + [items[k - 1]];
      }
    }
  }

  lemma ShapedKid(s: seq<byte>, n: Node, k: nat)
    requires Shaped(s, n) && k < |n.kids|
    ensures Shaped(s, n.kids[k])
  {
  }

  lemma {:induction false} MembersIff(s: seq<byte>, at: nat, v: G.Tree, m: nat, members: seq<(seq<byte>, Json)>)
    requires v.Box? && v.keyed && Reads(s, at, G.Spell(v)) && G.Proper(v) && Shaped(s, G.NodeOf(v, at))
    requires m <= |v.entries| && |G.NodeOf(v, at).kids| == 2 * |v.entries| && G.NodeOf(v, at).kind == Object
    requires Keyed(s, G.NodeOf(v, at))
    ensures Members(s, G.NodeOf(v, at), m) == Some(members) <==>
      |members| == m && forall i | 0 <= i < m :: EntryMeans(v.entries[i], members[i])
    decreases v, 0, m
  {
    hide G.Proper, G.Spell, G.NodeOf, Meaning, Means, Reads, G.KeyText, BodyMeans, TextOf, Scan, Members, KeyText;
    hide Keyed, EntryMeans, Shaped;
    var n := G.NodeOf(v, at);
    if m == 0 {
      NoMembers(s, n);
    } else {
      MembersStep(s, n, m);
      var q := EntryNodes(s, at, v, m - 1);
      var e := v.entries[m - 1];
      ShapedKid(s, n, 2 * m - 1);
      if |members| == m {
        var member := members[m - 1];
        MembersIff(s, at, v, m - 1, members[..m - 1]);
        MeaningIs(s, q + |G.KeyText(e.key)|, e.value, member.1);
        KeyIff(s, n, m - 1, q, e.key.value.body, member.0);
        EntryMeansIs(e, member);
        assert members == members[..m - 1] + [member];
      }
    }
  }

  lemma EntryMeansIs(e: G.Entry, member: (seq<byte>, Json))
    requires e.key.Some?
    ensures EntryMeans(e, member) <==> BodyMeans(e.key.value.body, member.0) && Means(e.value, member.1)
  {
    hide BodyMeans, Means;
  }

  lemma KeyIff(s: seq<byte>, n: Node, m: nat, q: nat, body: seq<byte>, text: seq<byte>)
    requires Keyed(s, n) && 2 * m < |n.kids| && n.kids[2 * m] == Node(String, q + 1, q + 1 + |body|, [])
    requires q + 1 + |body| < |s| && s[q + 1..q + 1 + |body|] == body
    ensures KeyText(s, n, m) == Some(text) <==> BodyMeans(body, text)
  {
    hide BodyMeans, TextOf, Scan;
    KeyTextIs(s, n, m);
    BodyText(s, q + 1, body, text);
  }

  /** An accepted document says exactly what the tree it spells means. */
  lemma DocumentMeans(s: seq<byte>, lead: seq<byte>, v: G.Tree, tail: seq<byte>, j: Json)
    requires Accepted(s) && G.IsDocument(s, lead, v, tail)
    ensures Meaning(s, Root(s)) == Some(j) <==> Means(v, j)
  {
    hide G.Proper, G.Spell, G.NodeOf, Means, Meaning, ParseValue, Skip, Shaped, KeysOk;
    G.DocumentParses(s, lead, v, tail);
    assert s[|lead|..|lead| + |G.Spell(v)|] == G.Spell(v);
    assert Root(s) == G.NodeOf(v, |lead|);
    MeaningIs(s, |lead|, v, j);
  }

  // ----- which documents are accepted

  /** The texts of an object's keys, in order. */
  ghost predicate KeysMean(entries: seq<G.Entry>, texts: seq<seq<byte>>) {
    |texts| == |entries|
    && forall k | 0 <= k < |entries| :: entries[k].key.Some? && BodyMeans(entries[k].key.value.body, texts[k])
  }

  /** In every object with more than one key, the keys have texts and no two the same. */
  ghost predicate KeysDiffer(v: G.Tree)
    decreases v
  {
    v.Box? ==>
      && (v.keyed && |v.entries| > 1 ==>
            exists texts :: KeysMean(v.entries, texts) && forall i, k | 0 <= i < k < |texts| :: texts[i] != texts[k])
      && forall k | 0 <= k < |v.entries| :: KeysDiffer(v.entries[k].value)
  }

  lemma {:induction false} KeysAreMeant(s: seq<byte>, at: nat, v: G.Tree, m: nat)
    requires v.Box? && v.keyed && Reads(s, at, G.Spell(v)) && G.Proper(v) && Keyed(s, G.NodeOf(v, at))
    requires m <= |v.entries| && |G.NodeOf(v, at).kids| == 2 * |v.entries|
    ensures Keys(s, G.NodeOf(v, at), m).Some? ==>
      forall i | 0 <= i < m ::
        v.entries[i].key.Some? && BodyMeans(v.entries[i].key.value.body, Keys(s, G.NodeOf(v, at), m).value[i].0)
    ensures Keys(s, G.NodeOf(v, at), m).None? ==>
      exists i :: 0 <= i < m && v.entries[i].key.Some?
        && forall text :: !BodyMeans(v.entries[i].key.value.body, text)
    decreases m
  {
    hide G.Proper, G.Spell, G.NodeOf, Reads, G.KeyText, BodyMeans, TextOf, Scan, Keyed, KeyText;
    var n := G.NodeOf(v, at);
    if m > 0 {
      KeysAreMeant(s, at, v, m - 1);
      var q := EntryNodes(s, at, v, m - 1);
      var body := v.entries[m - 1].key.value.body;
      if KeyText(s, n, m - 1).Some? {
        KeyIff(s, n, m - 1, q, body, KeyText(s, n, m - 1).value);
      } else {
        forall text
          ensures !BodyMeans(body, text)
        {
          KeyIff(s, n, m - 1, q, body, text);
        }
      }
    }
  }

  /** A body means one text at most. */
  lemma OneText(s: seq<byte>, i: nat, body: seq<byte>, x: seq<byte>, y: seq<byte>)
    requires i + |body| < |s| && s[i..i + |body|] == body && Scan(s, i) == Some(i + |body|)
    requires BodyMeans(body, x) && BodyMeans(body, y)
    ensures x == y
  {
    BodyText(s, i, body, x);
    BodyText(s, i, body, y);
  }

  lemma ApartIff(s: seq<byte>, at: nat, v: G.Tree)
    requires v.Box? && v.keyed && Reads(s, at, G.Spell(v)) && G.Proper(v) && Keyed(s, G.NodeOf(v, at))
    requires |G.NodeOf(v, at).kids| == 2 * |v.entries|
    ensures KeysApart(s, G.NodeOf(v, at)) <==>
      exists texts :: KeysMean(v.entries, texts) && forall i, k | 0 <= i < k < |texts| :: texts[i] != texts[k]
  {
    hide G.Proper, G.Spell, G.NodeOf, Reads, BodyMeans, Scan, Keyed, Keys;
    var n, m := G.NodeOf(v, at), |v.entries|;
    KeysAreMeant(s, at, v, m);
    if Keys(s, n, m).Some? {
      var keys := Keys(s, n, m).value;
      var texts := seq(m, i requires 0 <= i < m => keys[i].0);
      assert KeysMean(v.entries, texts);
      forall other | KeysMean(v.entries, other)
        ensures other == texts
      {
        forall i | 0 <= i < m
          ensures other[i] == texts[i]
        {
          TextsAgree(s, at, v, i, other[i], texts[i]);
        }
      }
    }
  }

  lemma TextsAgree(s: seq<byte>, at: nat, v: G.Tree, i: nat, x: seq<byte>, y: seq<byte>)
    requires v.Box? && v.keyed && Reads(s, at, G.Spell(v)) && G.Proper(v) && i < |v.entries| && v.entries[i].key.Some?
    requires Keyed(s, G.NodeOf(v, at))
    requires BodyMeans(v.entries[i].key.value.body, x) && BodyMeans(v.entries[i].key.value.body, y)
    ensures x == y
  {
    hide G.Proper, G.Spell, G.NodeOf, Reads, BodyMeans, Scan;
    var q := EntryNodes(s, at, v, i);
    var n := G.NodeOf(v, at);
    assert Keyed(s, n) && n.kids[2 * i].kind == String;
    OneText(s, q + 1, v.entries[i].key.value.body, x, y);
  }

  /** The node of an entry's value passes the check exactly if the value's keys differ, and its key's node passes. */
  ghost predicate EntryChecked(s: seq<byte>, n: Node, v: G.Tree, k: nat)
    requires v.Box? && k < |v.entries|
  {
    var i := Each(v.keyed) * k + Each(v.keyed) - 1;
    && i < |n.kids| && Shaped(s, n.kids[i]) && (KeysOk(s, n.kids[i]) <==> KeysDiffer(v.entries[k].value))
    && (v.keyed ==> Shaped(s, n.kids[2 * k]) && KeysOk(s, n.kids[2 * k]))
  }

  /** The check of duplicate keys passes exactly if the keys of the spelled tree differ. */
  lemma {:induction false} KeysOkIff(s: seq<byte>, at: nat, v: G.Tree)
    requires Reads(s, at, G.Spell(v)) && G.Proper(v) && Shaped(s, G.NodeOf(v, at))
    ensures KeysOk(s, G.NodeOf(v, at)) <==> KeysDiffer(v)
    decreases v
  {
    if v.Box? {
      hide G.Proper, G.Spell, G.NodeOf, Reads, KeysApart, KeysMean, Shaped, KeysDiffer, KeysOk, Keyed, EntryChecked;
      var n := G.NodeOf(v, at);
      BoxShape(s, at, v);
      if v.keyed {
        ShapedObject(s, n);
        ApartIff(s, at, v);
      }
      forall k | 0 <= k < |v.entries|
        ensures EntryChecked(s, n, v, k)
      {
        var p := EntryFacts(s, at, v, k);
        KeysOkIff(s, p, v.entries[k].value);
        EntryIsChecked(s, n, v, k, p);
      }
      KidsOk(s, n, v);
    } else {
      LeafOk(s, G.NodeOf(v, at));
    }
  }

  lemma EntryFacts(s: seq<byte>, at: nat, v: G.Tree, k: nat) returns (p: nat)
    requires v.Box? && Reads(s, at, G.Spell(v)) && G.Proper(v) && Shaped(s, G.NodeOf(v, at)) && k < |v.entries|
    ensures var n, value, i := G.NodeOf(v, at), v.entries[k].value, Each(v.keyed) * k + Each(v.keyed) - 1;
      && Reads(s, p, G.Spell(value)) && G.Proper(value) && |n.kids| == Each(v.keyed) * |v.entries|
      && i < |n.kids| && n.kids[i] == G.NodeOf(value, p) && Shaped(s, G.NodeOf(value, p))
      && (v.keyed ==> 2 * k < |n.kids| && n.kids[2 * k].kind == String && n.kids[2 * k].kids == [])
  {
    hide G.Proper, G.Spell, G.NodeOf, Reads, Shaped, G.KeyText;
    var q := EntryNodes(s, at, v, k);
    p := q + |G.KeyText(v.entries[k].key)|;
    ShapedKid(s, G.NodeOf(v, at), Each(v.keyed) * k + Each(v.keyed) - 1);
  }

  lemma EntryIsChecked(s: seq<byte>, n: Node, v: G.Tree, k: nat, p: nat)
    requires v.Box? && k < |v.entries| && Shaped(s, n) && |n.kids| == Each(v.keyed) * |v.entries|
    requires var i := Each(v.keyed) * k + Each(v.keyed) - 1;
      i < |n.kids| && n.kids[i] == G.NodeOf(v.entries[k].value, p)
    requires Shaped(s, G.NodeOf(v.entries[k].value, p))
      && (KeysOk(s, G.NodeOf(v.entries[k].value, p)) <==> KeysDiffer(v.entries[k].value))
    requires v.keyed ==> 2 * k < |n.kids| && n.kids[2 * k].kind == String && n.kids[2 * k].kids == []
    ensures EntryChecked(s, n, v, k)
  {
    hide G.NodeOf, KeysOk, KeysDiffer, Shaped;
    if v.keyed {
      ShapedKid(s, n, 2 * k);
      LeafOk(s, n.kids[2 * k]);
    }
  }

  lemma LeafOk(s: seq<byte>, n: Node)
    requires Shaped(s, n) && n.kind != Object && n.kids == []
    ensures KeysOk(s, n)
  {
  }

  lemma AllChecked(s: seq<byte>, n: Node, v: G.Tree)
    requires v.Box? && Shaped(s, n) && |n.kids| == Each(v.keyed) * |v.entries|
    requires forall k | 0 <= k < |v.entries| :: EntryChecked(s, n, v, k)
    ensures (forall i | 0 <= i < |n.kids| :: Shaped(s, n.kids[i]))
    ensures (forall i | 0 <= i < |n.kids| :: KeysOk(s, n.kids[i]))
      <==> forall k | 0 <= k < |v.entries| :: KeysDiffer(v.entries[k].value)
  {
    hide KeysOk, KeysDiffer;
    forall i | 0 <= i < |n.kids|
      ensures Shaped(s, n.kids[i])
    {
      ShapedKid(s, n, i);
    }
    hide Shaped;
    if forall k | 0 <= k < |v.entries| :: KeysDiffer(v.entries[k].value) {
      forall i | 0 <= i < |n.kids|
        ensures KeysOk(s, n.kids[i])
      {
        var k := i / Each(v.keyed);
        assert EntryChecked(s, n, v, k);
      }
    }
    if forall i | 0 <= i < |n.kids| :: KeysOk(s, n.kids[i]) {
      forall k | 0 <= k < |v.entries|
        ensures KeysDiffer(v.entries[k].value)
      {
        assert EntryChecked(s, n, v, k);
      }
    }
  }

  lemma KidsOk(s: seq<byte>, n: Node, v: G.Tree)
    requires v.Box? && Shaped(s, n) && |n.kids| == Each(v.keyed) * |v.entries|
    requires n.kind == if v.keyed then Object else Array
    requires v.keyed ==> Keyed(s, n) && (KeysApart(s, n) <==>
      exists texts :: KeysMean(v.entries, texts) && forall i, k | 0 <= i < k < |texts| :: texts[i] != texts[k])
    requires forall k | 0 <= k < |v.entries| :: EntryChecked(s, n, v, k)
    ensures KeysOk(s, n) <==> KeysDiffer(v)
  {
    hide KeysApart, KeysMean, Keyed, EntryChecked, Shaped;
    AllChecked(s, n, v);
  }

  /** A text is accepted exactly if it is not too long, spells a tree that is nested at most 256 deep, and in every
      object of it with more than one key the keys have texts and differ. */
  lemma AcceptedIff(s: seq<byte>)
    ensures Accepted(s) <==>
      |s| <= 64 * 1024 * 1024 && exists lead, v, tail :: G.IsDocument(s, lead, v, tail) && KeysDiffer(v)
  {
    hide G.Proper, G.Spell, G.NodeOf, ParseValue, Skip, Shaped, KeysOk, KeysDiffer, G.White, G.Within;
    if Accepted(s) {
      var lead, v, tail := G.DocumentSpelled(s);
      OneDocument(s, lead, v, tail);
    }
    forall lead, v, tail | |s| <= 64 * 1024 * 1024 && G.IsDocument(s, lead, v, tail) && KeysDiffer(v)
      ensures Accepted(s)
    {
      OneDocument(s, lead, v, tail);
    }
  }

  lemma OneDocument(s: seq<byte>, lead: seq<byte>, v: G.Tree, tail: seq<byte>)
    requires G.IsDocument(s, lead, v, tail) && |s| <= MAX_JSON
    ensures Accepted(s) <==> KeysDiffer(v)
  {
    hide G.Proper, G.Spell, G.NodeOf, ParseValue, Skip, Shaped, KeysOk, KeysDiffer, G.White, G.Within;
    G.DocumentParses(s, lead, v, tail);
    assert s[|lead|..|lead| + |G.Spell(v)|] == G.Spell(v);
    ValueIsShaped(s, 0, 0);
    KeysOkIff(s, |lead|, v);
  }
}
