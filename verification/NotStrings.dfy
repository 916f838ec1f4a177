/** The rule for the keys of additional properties: `_not_strings` puts the listed names in
    a trie and writes a grammar that walks it. */
module NotStrings {
  import opened Common
  import opened Gbnf
  import GrammarText

  datatype Trie = Node(isEnd: bool, kids: seq<Edge>)
  datatype Edge = Edge(c: char, child: Trie)

  /** Edges are kept in the order of their characters, as `std::map` keeps them. */
  predicate Ordered(kids: seq<Edge>) {
    |kids| < 2 || (kids[0].c < kids[1].c && Ordered(kids[1..]))
  }

  /** Every edge list is ordered, and only the root may be a leaf that ends no word. */
  predicate Valid(t: Trie)
    decreases t, 0
  {
    Ordered(t.kids) && ValidKids(t.kids)
  }

  predicate ValidKids(kids: seq<Edge>)
    decreases kids, 1
  {
    kids == [] || (ValidEdge(kids[0]) && ValidKids(kids[1..]))
  }

  predicate ValidEdge(e: Edge)
    decreases e, 0
  {
    Valid(e.child) && (e.child.kids == [] ==> e.child.isEnd)
  }

  /** `w` is one of the words inserted. */
  predicate Contains(t: Trie, w: string)
    decreases |w|
  {
    if w == "" then t.isEnd
    else exists i :: 0 <= i < |t.kids| && t.kids[i].c == w[0] && Contains(t.kids[i].child, w[1..])
  }

  // ----- insertion -----

  function Insert(t: Trie, w: string): (r: Trie)
    decreases |w|, 1
  {
    if w == "" then t.(isEnd := true)
    else t.(kids := InsertKid(t.kids, w))
  }

  /** `node->children[c]`, created empty when absent, with the rest of the word below it. */
  function InsertKid(kids: seq<Edge>, w: string): (r: seq<Edge>)
    requires w != ""
    decreases |w|, 0, kids
  {
    if kids == [] || w[0] < kids[0].c then [Edge(w[0], Insert(Node(false, []), w[1..]))] + kids
    else if kids[0].c == w[0] then [Edge(w[0], Insert(kids[0].child, w[1..]))] + kids[1..]
    else [kids[0]] + InsertKid(kids[1..], w)
  }

  /** The words below an edge list. */
  predicate KidsContain(kids: seq<Edge>, w: string) {
    w != "" && exists i :: 0 <= i < |kids| && kids[i].c == w[0] && Contains(kids[i].child, w[1..])
  }

  lemma {:induction false} InsertContains(t: Trie, w: string, v: string)
    requires Valid(t)
    ensures Valid(Insert(t, w)) && (Insert(t, w).kids == [] ==> Insert(t, w).isEnd || w != "")
    ensures Insert(t, w).kids == [] <==> t.kids == [] && w == ""
    ensures Contains(Insert(t, w), v) <==> v == w || Contains(t, v)
    decreases |w|, 1
  {
    if w == "" {
    } else {
      InsertKidContains(t.kids, w, v);
      if v != "" {
        assert Contains(Insert(t, w), v) <==> KidsContain(InsertKid(t.kids, w), v);
        assert Contains(t, v) <==> KidsContain(t.kids, v);
      }
    }
  }

  lemma KidsStep(kids: seq<Edge>, v: string)
    requires kids != []
    ensures KidsContain(kids, v)
            <==> (v != "" && kids[0].c == v[0] && Contains(kids[0].child, v[1..])) || KidsContain(kids[1..], v)
  {
    if KidsContain(kids[1..], v) {
      var i :| 0 <= i < |kids[1..]| && kids[1..][i].c == v[0] && Contains(kids[1..][i].child, v[1..]);
      assert kids[i + 1] == kids[1..][i];
    }
    if KidsContain(kids, v) {
      var i :| 0 <= i < |kids| && kids[i].c == v[0] && Contains(kids[i].child, v[1..]);
      assert i > 0 ==> kids[i] == kids[1..][i - 1];
    }
  }

  lemma {:induction false} InsertKidOrder(kids: seq<Edge>, w: string)
    requires w != "" && Ordered(kids)
    ensures Ordered(InsertKid(kids, w)) && InsertKid(kids, w) != []
    ensures InsertKid(kids, w)[0].c == if kids == [] || w[0] < kids[0].c then w[0] else kids[0].c
    decreases |kids|
  {
    var r := InsertKid(kids, w);
    if kids == [] || w[0] < kids[0].c || kids[0].c == w[0] {
      assert r[1..] == kids || r[1..] == kids[1..];
    } else {
      InsertKidOrder(kids[1..], w);
      assert r[1..] == InsertKid(kids[1..], w);
    }
  }

  lemma {:induction false} HeadLeast(kids: seq<Edge>)
    requires Ordered(kids)
    ensures forall i :: 0 < i < |kids| ==> kids[0].c < kids[i].c
  {
    if |kids| > 1 {
      HeadLeast(kids[1..]);
      forall i | 0 < i < |kids| ensures kids[0].c < kids[i].c {
        assert kids[i] == kids[1..][i - 1];
      }
    }
  }

  lemma {:induction false} InsertKidContains(kids: seq<Edge>, w: string, v: string)
    requires w != "" && Ordered(kids) && ValidKids(kids)
    ensures Ordered(InsertKid(kids, w)) && ValidKids(InsertKid(kids, w)) && InsertKid(kids, w) != []
    ensures KidsContain(InsertKid(kids, w), v) <==> v == w || KidsContain(kids, v)
    decreases |w|, 0, kids
  {
    InsertKidOrder(kids, w);
    assert kids != [] ==> Ordered(kids[1..]);
    hide Ordered, KidsContain, Contains;
    var r := InsertKid(kids, w);
    var tail := if v == "" then "" else v[1..];
    KidsStep(r, v);
    if kids != [] { KidsStep(kids, v); }
    if kids == [] || w[0] < kids[0].c {
      InsertContains(Node(false, []), w[1..], tail);
      assert r[1..] == kids;
      EmptyContains(tail);
      NoKids(v);
    } else if kids[0].c == w[0] {
      assert ValidEdge(kids[0]);
      InsertContains(kids[0].child, w[1..], tail);
      assert r[1..] == kids[1..];
    } else {
      InsertKidContains(kids[1..], w, v);
      assert r[1..] == InsertKid(kids[1..], w);
    }
    if v != "" && v[0] == w[0] && v[1..] == w[1..] {
      assert v == [v[0]] + v[1..] && w == [w[0]] + w[1..];
    }
  }

  lemma EmptyContains(v: string)
    ensures Ordered([]) && Valid(Node(false, [])) && !Contains(Node(false, []), v)
  {}

  lemma NoKids(v: string)
    ensures !KidsContain([], v)
  {}

  function Build(names: seq<string>): (t: Trie)
  {
    if names == [] then Node(false, []) else Insert(Build(names[..|names| - 1]), names[|names| - 1])
  }

  lemma {:induction false} BuildContains(names: seq<string>, v: string)
    ensures Valid(Build(names))
    ensures Contains(Build(names), v) <==> v in names
    ensures Build(names).kids == [] <==> forall i :: 0 <= i < |names| ==> names[i] == ""
  {
    if names != [] {
      var front := names[..|names| - 1];
      BuildContains(front, v);
      InsertContains(Build(front), names[|names| - 1], v);
      assert names == front + [names[|names| - 1]];
    }
  }

  // ----- the grammar -----

  const HEX := AnyOf("0123456789abcdefABCDEF")

  function Controls(): (cs: string) { seq(0x20, i requires 0 <= i < 0x20 => i as char) }

  /** The built-in rule `char`: one character of a JSON string, or one escape. */
  function CharRule(): (e: Expr) {
    Alt(NoneOf(Excluded()), Seq(Class('\\', '\\'), Escaped()))
  }

  function Excluded(): (cs: string) { "\"\\" + [0x7f as char] + Controls() }

  function Escaped(): (e: Expr) {
    Group(Alt(AnyOf("\"\\bfnrt"), Seq(Lit("u"), Repeat(HEX, 4, AtMost(4)))))
  }

  /** Characters that stand for themselves in JSON strings. */
  predicate Ordinary(c: char) {
    c >= ' ' && c != 0x7f as char && c !in "\"\\"
  }

  predicate AllOrdinary(w: string) {
    forall i :: 0 <= i < |w| ==> Ordinary(w[i])
  }

  function First(kids: seq<Edge>): (cs: string) {
    if kids == [] then "" else [kids[0].c] + First(kids[1..])
  }

  /** `visit(node)`, for a node with children. The characters are written into the classes as
      they are; what stands here is what the grammar parser makes of those classes. */
  function Walk(t: Trie, chr: string): (e: Expr)
    decreases t, 0
  {
    WalkKids(t.kids, First(t.kids), chr)
  }

  function WalkKids(kids: seq<Edge>, rejects: string, chr: string): (e: Expr)
    decreases kids, 1
  {
    if kids == [] then Seq(GrammarText.NoneBut(rejects), Repeat(Ref(chr), 0, NoLimit))
    else Alt(WalkEdge(kids[0], chr), WalkKids(kids[1..], rejects, chr))
  }

  function WalkEdge(e: Edge, chr: string): (r: Expr)
    decreases e, 0
  {
    if e.child.kids != [] then Seq(GrammarText.OneChar(e.c), Group(Walk(e.child, chr)))
    else if e.child.isEnd then Seq(GrammarText.OneChar(e.c), Repeat(Ref(chr), 1, NoLimit))
    else GrammarText.OneChar(e.c)
  }

  /** What stands between the quotes. */
  function KeyBody(t: Trie, chr: string): (e: Expr) {
    var group := Group(if t.kids == [] then Lit("") else Walk(t, chr));
    if t.isEnd then group else Repeat(group, 0, AtMost(1))
  }

  function NotStringsRule(names: seq<string>, chr: string): (e: Expr) {
    Seq(Class('"', '"'), Seq(KeyBody(Build(names), chr), Seq(Class('"', '"'), Ref("space"))))
  }

  // ----- when the classes are read as they are meant -----

  /** Characters of the ASCII range that stand for themselves in a class, and no `-` where it
      makes a range. */
  predicate PlainTrie(t: Trie)
    decreases t, 0
  {
    GrammarText.Clean(First(t.kids)) && GrammarText.DashFits('"', First(t.kids)) && PlainKids(t.kids)
  }

  predicate PlainKids(kids: seq<Edge>)
    decreases kids, 1
  {
    kids == [] || (PlainEdge(kids[0]) && PlainKids(kids[1..]))
  }

  predicate PlainEdge(e: Edge)
    decreases e, 0
  {
    PlainTrie(e.child)
  }

  /** Every class of the rule accepts the characters it was written for. */
  ghost predicate AsMeant(env: Env, t: Trie)
    decreases t, 0
  {
    && GrammarText.ReadsNoneBut(env, First(t.kids))
    && KidsAsMeant(env, t.kids)
  }

  ghost predicate KidsAsMeant(env: Env, kids: seq<Edge>)
    decreases kids, 1
  {
    kids == [] || (EdgeAsMeant(env, kids[0]) && KidsAsMeant(env, kids[1..]))
  }

  ghost predicate EdgeAsMeant(env: Env, e: Edge)
    decreases e, 0
  {
    GrammarText.ReadsOne(env, e.c) && AsMeant(env, e.child)
  }

  /** Names of the ASCII range. */
  predicate AsciiTrie(t: Trie)
    decreases t, 0
  {
    AsciiKids(t.kids)
  }

  predicate AsciiKids(kids: seq<Edge>)
    decreases kids, 1
  {
    kids == [] || (AsciiEdge(kids[0]) && AsciiKids(kids[1..]))
  }

  predicate AsciiEdge(e: Edge)
    decreases e, 0
  {
    e.c < 0x80 as char && AsciiTrie(e.child)
  }

  lemma {:induction false} OrderedAscends(kids: seq<Edge>)
    requires Ordered(kids)
    ensures GrammarText.Ascending(First(kids)) && |First(kids)| == |kids|
    ensures kids != [] ==> First(kids)[0] == kids[0].c
  {
    if kids != [] {
      OrderedAscends(kids[1..]);
      var rest := First(kids[1..]);
      forall i | 0 <= i < |First(kids)| - 1 ensures First(kids)[i] < First(kids)[i + 1] {
        assert First(kids)[i + 1] == rest[i] && (i > 0 ==> First(kids)[i] == rest[i - 1]);
      }
    }
  }

  lemma CleanStep(kids: seq<Edge>)
    requires kids != []
    ensures GrammarText.Clean(First(kids)) <==>
      GrammarText.StandsAlone(kids[0].c) && kids[0].c < 0x80 as char && GrammarText.Clean(First(kids[1..]))
  {
    var rest := First(kids[1..]);
    assert First(kids) == [kids[0].c] + rest;
    if GrammarText.Clean(First(kids)) {
      assert forall i :: 0 <= i < |rest| ==> rest[i] == First(kids)[i + 1];
      assert First(kids)[0] == kids[0].c;
    }
    hide GrammarText.StandsAlone;
  }

  /** The classes of the rule are read as they are meant if and only if no name holds `^`, `]`,
      a backslash or a zero character and every `-` comes last among the characters that may
      stand there, or between `,` and `.`. */
  lemma {:induction false} AsMeantIff(env: Env, t: Trie)
    requires Valid(t) && AsciiTrie(t)
    ensures AsMeant(env, t) <==> PlainTrie(t)
    decreases t, 0
  {
    OrderedAscends(t.kids);
    KidsAsMeantIff(env, t.kids);
    if GrammarText.Clean(First(t.kids)) {
      GrammarText.NoneButIff(env, First(t.kids));
    }
    hide GrammarText.Clean, GrammarText.DashFits, GrammarText.Ascending, GrammarText.ReadsNoneBut, KidsAsMeant;
  }

  lemma {:induction false} KidsAsMeantIff(env: Env, kids: seq<Edge>)
    requires ValidKids(kids) && AsciiKids(kids)
    ensures KidsAsMeant(env, kids) <==> GrammarText.Clean(First(kids)) && PlainKids(kids)
    decreases kids, 1
  {
    if kids != [] {
      EdgeAsMeantIff(env, kids[0]);
      KidsAsMeantIff(env, kids[1..]);
      CleanStep(kids);
      hide GrammarText.Clean, EdgeAsMeant, PlainEdge, AsciiEdge;
    }
  }

  lemma {:induction false} EdgeAsMeantIff(env: Env, e: Edge)
    requires ValidEdge(e) && AsciiEdge(e)
    ensures EdgeAsMeant(env, e) <==> GrammarText.StandsAlone(e.c) && PlainEdge(e)
    ensures e.c < 0x80 as char
    decreases e, 0
  {
    AsMeantIff(env, e.child);
    GrammarText.OneCharIff(env, e.c);
    hide GrammarText.ReadsOne, GrammarText.StandsAlone, AsMeant, PlainTrie;
  }

  // Names without any of those characters are fine.

  predicate PlainName(w: string) {
    GrammarText.Clean(w) && '-' !in w
  }

  predicate Dashless(kids: seq<Edge>)
    decreases kids, 1
  {
    kids == [] || (DashlessEdge(kids[0]) && Dashless(kids[1..]))
  }

  predicate DashlessEdge(e: Edge)
    decreases e, 0
  {
    GrammarText.StandsAlone(e.c) && e.c < 0x80 as char && e.c != '-' && Dashless(e.child.kids)
  }

  lemma {:induction false} InsertDashless(t: Trie, w: string)
    requires Dashless(t.kids) && PlainName(w)
    ensures Dashless(Insert(t, w).kids)
    decreases |w|, 1
  {
    if w != "" {
      InsertKidDashless(t.kids, w);
    }
  }

  lemma {:induction false} InsertKidDashless(kids: seq<Edge>, w: string)
    requires Dashless(kids) && PlainName(w) && w != ""
    ensures Dashless(InsertKid(kids, w))
    decreases |w|, 0, kids
  {
    assert PlainName(w[1..]) && w[0] in w;
    var r := InsertKid(kids, w);
    if kids == [] || w[0] < kids[0].c {
      InsertDashless(Node(false, []), w[1..]);
      assert r[1..] == kids;
    } else if kids[0].c == w[0] {
      InsertDashless(kids[0].child, w[1..]);
      assert r[1..] == kids[1..];
    } else {
      InsertKidDashless(kids[1..], w);
      assert r[1..] == InsertKid(kids[1..], w);
    }
  }

  lemma {:induction false} DashlessFirst(kids: seq<Edge>)
    requires Dashless(kids)
    ensures GrammarText.Clean(First(kids)) && '-' !in First(kids)
  {
    if kids != [] {
      DashlessFirst(kids[1..]);
    }
  }

  lemma {:induction false} DashlessPlain(t: Trie)
    requires Dashless(t.kids)
    ensures PlainTrie(t)
    decreases t, 0
  {
    DashlessFirst(t.kids);
    DashlessKidsPlain(t.kids);
  }

  lemma {:induction false} DashlessKidsPlain(kids: seq<Edge>)
    requires Dashless(kids)
    ensures PlainKids(kids)
    decreases kids, 1
  {
    if kids != [] {
      DashlessEdgePlain(kids[0]);
      DashlessKidsPlain(kids[1..]);
    }
  }

  lemma DashlessEdgePlain(e: Edge)
    requires DashlessEdge(e)
    ensures PlainEdge(e)
    decreases e, 0
  {
    DashlessPlain(e.child);
  }

  lemma {:induction false} PlainNamesPlain(names: seq<string>)
    requires forall n :: n in names ==> PlainName(n)
    ensures PlainTrie(Build(names))
  {
    BuildDashless(names);
    DashlessPlain(Build(names));
  }

  lemma {:induction false} BuildDashless(names: seq<string>)
    requires forall n :: n in names ==> PlainName(n)
    ensures Dashless(Build(names).kids)
  {
    if names != [] {
      BuildDashless(names[..|names| - 1]);
      InsertDashless(Build(names[..|names| - 1]), names[|names| - 1]);
    }
  }

  // ----- what it accepts -----

  /** On ordinary text, `char` matches single characters. */
  ghost predicate CharMeansOne(env: Env, chr: string) {
    forall w :: AllOrdinary(w) ==> (env(chr, w) <==> |w| == 1)
  }

  lemma CharRuleMeansOne(env: Env, chr: string)
    requires forall w :: env(chr, w) <==> Accepts(env, CharRule(), w)
    ensures CharMeansOne(env, chr)
  {
    forall w | AllOrdinary(w) ensures env(chr, w) <==> |w| == 1 {
      OrdinaryChar(env, w);
    }
  }

  lemma OrdinaryChar(env: Env, w: string)
    requires AllOrdinary(w)
    ensures Accepts(env, CharRule(), w) <==> |w| == 1
  {
    SeqOfClass(env, '\\', '\\', Escaped(), w);
    AltCases(env, NoneOf(Excluded()), Seq(Class('\\', '\\'), Escaped()), w);
    NoneOfCases(env, Excluded(), w);
    hide Accepts, Excluded, Escaped;
    if |w| > 0 {
      assert Ordinary(w[0]);
      OrdinaryAllowed(w[0]);
    }
  }

  lemma NoneOfCases(env: Env, cs: string, w: string)
    ensures Accepts(env, NoneOf(cs), w) <==> |w| == 1 && w[0] !in cs
  {}

  lemma OrdinaryAllowed(c: char)
    requires Ordinary(c)
    ensures c !in Excluded() && c != '\\'
  {
    assert c !in Controls();
  }

  lemma {:induction false} OrdinaryConcat(ws: seq<string>, i: nat)
    requires AllOrdinary(Concat(ws)) && i < |ws|
    ensures AllOrdinary(ws[i])
  {
    assert Concat(ws) == ws[0] + Concat(ws[1..]);
    assert forall k :: 0 <= k < |ws[0]| ==> Concat(ws)[k] == ws[0][k];
    assert forall k :: 0 <= k < |Concat(ws[1..])| ==> Concat(ws)[|ws[0]| + k] == Concat(ws[1..])[k];
    if i > 0 {
      OrdinaryConcat(ws[1..], i - 1);
    }
  }

  lemma RepeatedChar(env: Env, chr: string, min: nat, w: string)
    requires CharMeansOne(env, chr) && AllOrdinary(w)
    ensures Accepts(env, Repeat(Ref(chr), min, NoLimit), w) <==> |w| >= min
  {
    if Accepts(env, Repeat(Ref(chr), min, NoLimit), w) {
      var ws: seq<string> :| Within(|ws|, min, NoLimit) && Concat(ws) == w
                             && forall i :: 0 <= i < |ws| ==> Accepts(env, Ref(chr), ws[i]);
      forall i | 0 <= i < |ws| ensures |ws[i]| == 1 {
        OrdinaryConcat(ws, i);
      }
      ConcatOfSingles(ws);
    }
    if |w| >= min {
      ConcatSingles(w);
      var ws := Singles(w);
      forall i | 0 <= i < |ws| ensures Accepts(env, Ref(chr), ws[i]) {
        assert AllOrdinary(ws[i]);
      }
    }
  }

  /** `k` leads to a node of the trie. */
  predicate Reaches(t: Trie, k: string)
    decreases |k|
  {
    k == "" || exists i :: 0 <= i < |t.kids| && t.kids[i].c == k[0] && Reaches(t.kids[i].child, k[1..])
  }

  predicate KidsReach(kids: seq<Edge>, k: string) {
    k != "" && exists i :: 0 <= i < |kids| && kids[i].c == k[0] && Reaches(kids[i].child, k[1..])
  }

  lemma ReachStep(kids: seq<Edge>, k: string)
    requires kids != []
    ensures KidsReach(kids, k)
            <==> (k != "" && kids[0].c == k[0] && Reaches(kids[0].child, k[1..])) || KidsReach(kids[1..], k)
  {
    if KidsReach(kids[1..], k) {
      var i :| 0 <= i < |kids[1..]| && kids[1..][i].c == k[0] && Reaches(kids[1..][i].child, k[1..]);
      assert kids[i + 1] == kids[1..][i];
    }
    if KidsReach(kids, k) {
      var i :| 0 <= i < |kids| && kids[i].c == k[0] && Reaches(kids[i].child, k[1..]);
      assert i > 0 ==> kids[i] == kids[1..][i - 1];
    }
  }

  lemma {:induction false} InFirst(kids: seq<Edge>, c: char)
    ensures c in First(kids) <==> exists i :: 0 <= i < |kids| && kids[i].c == c
  {
    if kids != [] {
      InFirst(kids[1..], c);
      assert forall i :: 0 < i < |kids| ==> kids[i] == kids[1..][i - 1];
      if c in First(kids[1..]) {
        var i :| 0 <= i < |kids[1..]| && kids[1..][i].c == c;
        assert kids[i + 1].c == c;
      }
    }
  }

  lemma {:induction false} WalkExact(env: Env, chr: string, t: Trie, k: string)
    requires CharMeansOne(env, chr) && Valid(t) && PlainTrie(t) && AllOrdinary(k)
    ensures Accepts(env, Walk(t, chr), k) <==> k != "" && !Reaches(t, k)
    decreases |k|, 1
  {
    var rejects := First(t.kids);
    OrderedAscends(t.kids);
    WalkKidsExact(env, chr, t.kids, rejects, k);
    if k != "" {
      InFirst(t.kids, k[0]);
      assert Ordinary(k[0]);
      assert Reaches(t, k) <==> KidsReach(t.kids, k);
    }
  }

  /** Either the first character leads into the trie, and the rest must leave it again, or
      it is none of the characters the node lists. */
  lemma {:induction false} WalkKidsExact(env: Env, chr: string, kids: seq<Edge>, rejects: string, k: string)
    requires CharMeansOne(env, chr) && Ordered(kids) && ValidKids(kids) && AllOrdinary(k)
    requires PlainKids(kids) && GrammarText.Clean(First(kids)) && PlainRejects(rejects)
    ensures Accepts(env, WalkKids(kids, rejects, chr), k) <==>
      k != "" && (k[0] !in rejects || (k[0] in First(kids) && !KidsReach(kids, k)))
    decreases |k|, 0, kids
  {
    if kids == [] {
      NoneThenChars(env, chr, rejects, k);
    } else {
      ReachStep(kids, k);
      HeadLeast(kids);
      CleanStep(kids);
      AltCases(env, WalkEdge(kids[0], chr), WalkKids(kids[1..], rejects, chr), k);
      hide Accepts, GrammarText.Clean, PlainRejects, PlainEdge, ValidEdge, Reaches, WalkEdge;
      WalkKidsExact(env, chr, kids[1..], rejects, k);
      WalkEdgeExact(env, chr, kids[0], k);
      if k != "" && kids[0].c == k[0] {
        InFirst(kids[1..], k[0]);
        assert forall i :: 0 <= i < |kids[1..]| ==> kids[1..][i] == kids[i + 1];
      }
    }
  }

  predicate PlainRejects(rejects: string) {
    GrammarText.Ascending(rejects) && GrammarText.Clean(rejects) && GrammarText.DashFits('"', rejects)
  }

  lemma NoneThenChars(env: Env, chr: string, rejects: string, k: string)
    requires CharMeansOne(env, chr) && AllOrdinary(k) && PlainRejects(rejects)
    ensures Accepts(env, WalkKids([], rejects, chr), k) <==> k != "" && k[0] !in rejects
  {
    var none, more := GrammarText.NoneBut(rejects), Repeat(Ref(chr), 0, NoLimit);
    GrammarText.NoneButIff(env, rejects);
    hide Accepts, GrammarText.NoneBut, PlainRejects;
    if k != "" {
      assert AllOrdinary(k[1..]) && Ordinary(k[0]);
      RepeatedChar(env, chr, 0, k[1..]);
      ReadsNone(env, rejects, k[..1]);
      if k[0] !in rejects {
        SeqJoin(env, none, more, k[..1], k[1..]);
        assert k == k[..1] + k[1..];
      }
    }
    if Accepts(env, WalkKids([], rejects, chr), k) {
      var i := SeqCut(env, none, more, k);
      ReadsNone(env, rejects, k[..i]);
    }
  }

  lemma ReadsNone(env: Env, rejects: string, w: string)
    requires GrammarText.ReadsNoneBut(env, rejects)
    ensures Accepts(env, GrammarText.NoneBut(rejects), w) <==> |w| == 1 && w[0] != '"' && w[0] !in rejects
  {}

  lemma ReadsOne(env: Env, c: char, w: string)
    requires GrammarText.ReadsOne(env, c)
    ensures Accepts(env, GrammarText.OneChar(c), w) <==> w == [c]
  {}

  /** How a sequence headed by a class of one character reads that character. */
  lemma SeqOfOne(env: Env, c: char, rest: Expr, w: string)
    requires GrammarText.StandsAlone(c)
    ensures Accepts(env, Seq(GrammarText.OneChar(c), rest), w) <==> w != "" && w[0] == c && Accepts(env, rest, w[1..])
    ensures Accepts(env, GrammarText.OneChar(c), w) <==> w == [c]
  {
    GrammarText.OneCharIff(env, c);
    hide Accepts, GrammarText.OneChar;
    ReadsOne(env, c, w);
    ReadsOne(env, c, [c]);
    if Accepts(env, Seq(GrammarText.OneChar(c), rest), w) {
      var i := SeqCut(env, GrammarText.OneChar(c), rest, w);
      ReadsOne(env, c, w[..i]);
      assert w == [c] + w[1..];
    }
    if w != "" && w[0] == c && Accepts(env, rest, w[1..]) {
      assert [c] + w[1..] == w;
      SeqJoin(env, GrammarText.OneChar(c), rest, [c], w[1..]);
    }
  }

  lemma WalkEdgeExact(env: Env, chr: string, e: Edge, k: string)
    requires CharMeansOne(env, chr) && ValidEdge(e) && PlainEdge(e) && GrammarText.StandsAlone(e.c) && AllOrdinary(k)
    ensures Accepts(env, WalkEdge(e, chr), k) <==> k != "" && k[0] == e.c && !Reaches(e.child, k[1..])
    decreases |k|, 0, e
  {
    var rest := if e.child.kids != [] then Group(Walk(e.child, chr)) else Repeat(Ref(chr), 1, NoLimit);
    SeqOfOne(env, e.c, rest, k);
    hide GrammarText.OneChar;
    if k != "" {
      assert AllOrdinary(k[1..]);
      if e.child.kids != [] {
        WalkExact(env, chr, e.child, k[1..]);
      } else {
        RepeatedChar(env, chr, 1, k[1..]);
      }
    }
  }

  /** Reaching a node means being a beginning of an inserted word. */
  lemma {:induction false} ReachesIsPrefix(t: Trie, k: string)
    requires Valid(t) && (t.kids == [] ==> t.isEnd || k != "")
    ensures Reaches(t, k) <==> exists s :: Contains(t, k + s)
    decreases |k|
  {
    if k == "" {
      var s := SomeWord(t);
      assert Contains(t, k + s) by { assert k + s == s; }
    } else {
      forall i | 0 <= i < |t.kids| ensures Reaches(t.kids[i].child, k[1..]) <==> exists s :: Contains(t.kids[i].child, k[1..] + s) {
        KidValid(t.kids, i);
        ReachesIsPrefix(t.kids[i].child, k[1..]);
      }
      forall s ensures Contains(t, k + s) <==> exists i :: 0 <= i < |t.kids| && t.kids[i].c == k[0] && Contains(t.kids[i].child, k[1..] + s) {
        assert (k + s)[1..] == k[1..] + s;
      }
    }
  }

  lemma {:induction false} KidValid(kids: seq<Edge>, i: nat)
    requires ValidKids(kids) && i < |kids|
    ensures ValidEdge(kids[i])
  {
    if i > 0 { KidValid(kids[1..], i - 1); }
  }

  lemma {:induction false} SomeWord(t: Trie) returns (s: string)
    requires Valid(t) && (t.kids == [] ==> t.isEnd)
    ensures Contains(t, s)
    decreases t
  {
    if t.kids == [] {
      s := "";
    } else {
      var e := t.kids[0];
      assert ValidEdge(e);
      var v := SomeWord(e.child);
      s := [e.c] + v;
      assert s[1..] == v;
    }
  }

  // ----- the theorems -----

  ghost predicate BeginsSome(names: seq<string>, k: string) {
    exists i :: 0 <= i < |names| && k <= names[i]
  }

  ghost predicate OnlyEmpty(names: seq<string>) {
    forall i :: 0 <= i < |names| ==> names[i] == ""
  }

  /** A non-empty key is accepted exactly when it is no listed name and no beginning of one,
      as long as some listed name is not empty and the classes are read as they are meant. */
  lemma KeyBodyExact(env: Env, chr: string, names: seq<string>, k: string)
    requires CharMeansOne(env, chr) && AllOrdinary(k) && k != "" && PlainTrie(Build(names))
    ensures Accepts(env, KeyBody(Build(names), chr), k) <==> !BeginsSome(names, k) && !OnlyEmpty(names)
  {
    var t := Build(names);
    BuildContains(names, "");
    var x := if t.kids == [] then Lit("") else Walk(t, chr);
    OptionalGroup(env, x, k);
    if t.kids != [] {
      WalkExact(env, chr, t, k);
      ReachesIsPrefix(t, k);
      BeginsIsPrefix(names, k);
    }
    GroupSame(env, x, k);
    assert t.kids == [] ==> !Accepts(env, x, k);
    hide Build, Walk, BeginsSome, Reaches, Contains, Accepts, PlainTrie;
  }

  lemma BeginsIsPrefix(names: seq<string>, k: string)
    ensures BeginsSome(names, k) <==> exists s :: Contains(Build(names), k + s)
  {
    hide Build, Contains;
    forall s ensures Contains(Build(names), k + s) <==> k + s in names {
      BuildContains(names, k + s);
    }
    if BeginsSome(names, k) {
      var i :| 0 <= i < |names| && k <= names[i];
      var s := names[i][|k|..];
      assert names[i] == k + s;
      assert Contains(Build(names), k + s);
    }
    if s :| Contains(Build(names), k + s) {
      assert k + s in names && k <= k + s;
    }
  }

  /** The empty key is accepted unless it is listed, and also when nothing else is listed. */
  lemma EmptyKeyExact(env: Env, chr: string, names: seq<string>)
    requires CharMeansOne(env, chr) && PlainTrie(Build(names))
    ensures Accepts(env, KeyBody(Build(names), chr), "") <==> "" !in names || OnlyEmpty(names)
  {
    var t := Build(names);
    BuildContains(names, "");
    OptionalGroup(env, if t.kids == [] then Lit("") else Walk(t, chr), "");
    if t.kids != [] {
      WalkExact(env, chr, t, "");
    }
  }

  /** No listed name is ever accepted, with one exception: the empty name listed alone. */
  lemma ListedNamesRejected(env: Env, chr: string, names: seq<string>, k: string)
    requires CharMeansOne(env, chr) && k in names && AllOrdinary(k) && PlainTrie(Build(names))
    ensures Accepts(env, KeyBody(Build(names), chr), k) <==> k == "" && OnlyEmpty(names)
  {
    if k == "" {
      EmptyKeyExact(env, chr, names);
    } else {
      KeyBodyExact(env, chr, names, k);
      var i :| 0 <= i < |names| && names[i] == k;
      assert k <= names[i];
    }
  }

  /** The promise "any string that is none of the listed ones" holds for a key if and only if
      the key is not a proper beginning of a listed name (and no empty name is involved). */
  lemma PromiseKeptIff(env: Env, chr: string, names: seq<string>, k: string)
    requires CharMeansOne(env, chr) && AllOrdinary(k) && k != "" && !OnlyEmpty(names) && PlainTrie(Build(names))
    ensures (Accepts(env, KeyBody(Build(names), chr), k) <==> k !in names)
            <==> (BeginsSome(names, k) ==> k in names)
  {
    KeyBodyExact(env, chr, names, k);
    if k in names {
      ListedNamesRejected(env, chr, names, k);
    }
  }

  /** A dash in the middle: beside `a-b` and `ab` the key `aX` is neither listed nor the
      beginning of a name, and is rejected all the same, because the class written for "neither
      a quote nor `-` nor `b`" is read as one that leaves out everything from the quote to `b`. */
  lemma DashMakesRange(env: Env, chr: string)
    ensures !BeginsSome(["a-b", "ab"], "aX") && !OnlyEmpty(["a-b", "ab"])
    ensures !Accepts(env, KeyBody(Build(["a-b", "ab"]), chr), "aX")
  {
    var names := ["a-b", "ab"];
    BuildOfTwo();
    XIsLeftOut(env);
    WalkOfTwo(chr);
    hide Accepts, Walk, Build, WalkEdge, WalkKids, GrammarText.NoneBut;
    var below := Below();
    OptionalGroup(env, Walk(Whole(), chr), "aX");
    AltCases(env, WalkEdge(Whole().kids[0], chr), WalkKids([], "a", chr), "aX");
    EdgeReads(env, chr, Whole().kids[0], "aX");
    NotStarting(env, chr, "a", "aX");
    assert "aX"[1..] == "X" && names[0] == "a-b" && names[1] == "ab";
    AltCases(env, WalkEdge(below.kids[0], chr), Alt(WalkEdge(below.kids[1], chr), WalkKids([], "-b", chr)), "X");
    AltCases(env, WalkEdge(below.kids[1], chr), WalkKids([], "-b", chr), "X");
    EdgeReads(env, chr, below.kids[0], "X");
    EdgeReads(env, chr, below.kids[1], "X");
    NotStarting(env, chr, "-b", "X");
  }

  function B(): Edge { Edge('b', Node(true, [])) }
  function DashB(): Trie { Node(false, [Edge('-', Node(false, [B()]))]) }
  function Below(): Trie { Node(false, [Edge('-', Node(false, [B()])), B()]) }
  function Whole(): Trie { Node(false, [Edge('a', Below())]) }

  lemma WalkOfTwo(chr: string)
    ensures Walk(Whole(), chr) == Alt(WalkEdge(Whole().kids[0], chr), WalkKids([], "a", chr))
    ensures Walk(Below(), chr) == Alt(WalkEdge(Below().kids[0], chr), Alt(WalkEdge(Below().kids[1], chr), WalkKids([], "-b", chr)))
  {
    hide WalkEdge;
    var all, rest := Below().kids, [B()];
    assert all[1..] == rest && rest[1..] == [] && Whole().kids[1..] == [];
    assert First(rest) == ['b'] + First([]);
    assert First(all) == ['-'] + First(rest) && First(all) == "-b";
    assert First(Whole().kids) == ['a'] + First([]) && First(Whole().kids) == "a";
    assert WalkKids(rest, "-b", chr) == Alt(WalkEdge(rest[0], chr), WalkKids([], "-b", chr));
  }

  lemma BuildOfTwo()
    ensures Build(["a-b", "ab"]) == Whole()
  {
    var empty := Node(false, []);
    assert "a-b"[1..] == "-b" && "-b"[1..] == "b" && "b"[1..] == "" && "ab"[1..] == "b";
    assert Insert(empty, "b") == Node(false, [B()]);
    assert Insert(empty, "-b") == DashB();
    assert Insert(empty, "a-b") == Node(false, [Edge('a', DashB())]);
    InsertBehindDash();
    hide Insert, InsertKid;
    assert ["a-b"][..0] == [] && ["a-b", "ab"][..1] == ["a-b"];
    assert Build([]) == empty;
    assert Build(["a-b"]) == Insert(Build([]), "a-b");
  }

  lemma InsertBehindDash()
    ensures Insert(Node(false, [Edge('a', DashB())]), "ab") == Whole()
  {
    assert "ab"[1..] == "b" && "b"[1..] == "";
    var kids := DashB().kids;
    assert kids[1..] == [];
    assert InsertKid([], "b") == [B()];
    assert InsertKid(kids, "b") == [kids[0]] + InsertKid(kids[1..], "b");
    assert Insert(DashB(), "b") == Below();
    var top := [Edge('a', DashB())];
    assert top[1..] == [];
    assert InsertKid(top, "ab") == [Edge('a', Insert(DashB(), "b"))] + top[1..];
  }

  lemma XIsLeftOut(env: Env)
    ensures !Accepts(env, GrammarText.NoneBut("-b"), "X") && !Accepts(env, GrammarText.NoneBut("a"), "a")
    ensures forall w :: Accepts(env, GrammarText.NoneBut("-b"), w) || Accepts(env, GrammarText.NoneBut("a"), w) ==> |w| == 1
  {
    hide *;
    forall w ensures Accepts(env, GrammarText.NoneBut("-b"), w) ==> |w| == 1 && w != "X" { XRejected(env, w); }
    forall w ensures Accepts(env, GrammarText.NoneBut("a"), w) ==> |w| == 1 && w != "a" { ARejected(env, w); }
  }

  lemma XRejected(env: Env, w: string)
    ensures Accepts(env, GrammarText.NoneBut("-b"), w) ==> |w| == 1 && w != "X"
  {
    hide Accepts, GrammarText.NoneBut;
    GrammarText.DashRejects(env, "-b", 0, 'X', w);
  }

  lemma ARejected(env: Env, w: string)
    ensures Accepts(env, GrammarText.NoneBut("a"), w) ==> |w| == 1 && w != "a"
  {
    hide Accepts, GrammarText.NoneBut;
    GrammarText.NoneButIff(env, "a");
    ReadsNone(env, "a", w);
  }

  /** A key that goes down an edge starts with its character. */
  lemma EdgeReads(env: Env, chr: string, e: Edge, k: string)
    requires GrammarText.StandsAlone(e.c) && k != ""
    ensures Accepts(env, WalkEdge(e, chr), k) ==>
      k[0] == e.c && (e.child.kids != [] ==> Accepts(env, Walk(e.child, chr), k[1..]))
  {
    var rest := if e.child.kids != [] then Group(Walk(e.child, chr)) else Repeat(Ref(chr), 1, NoLimit);
    SeqOfOne(env, e.c, rest, k);
    if e.child.kids != [] { GroupSame(env, Walk(e.child, chr), k[1..]); }
    hide Accepts, GrammarText.OneChar, Walk;
  }

  lemma NotStarting(env: Env, chr: string, rejects: string, k: string)
    requires k != "" && !Accepts(env, GrammarText.NoneBut(rejects), [k[0]])
    requires forall w :: Accepts(env, GrammarText.NoneBut(rejects), w) ==> |w| == 1
    ensures !Accepts(env, WalkKids([], rejects, chr), k)
  {
    var none, more := GrammarText.NoneBut(rejects), Repeat(Ref(chr), 0, NoLimit);
    hide Accepts, GrammarText.NoneBut;
    if Accepts(env, Seq(none, more), k) {
      var i := SeqCut(env, none, more, k);
      OneLong(k, i);
    }
  }

  lemma OneLong(k: string, i: nat)
    requires i <= |k| && |k[..i]| == 1
    ensures k[..i] == [k[0]]
  {}

  /** The whole rule is a quoted key followed by optional space. */
  lemma RuleIsQuotedKey(env: Env, chr: string, names: seq<string>, w: string)
    ensures Accepts(env, NotStringsRule(names, chr), w) <==>
      exists k, sp :: w == "\"" + k + "\"" + sp && Accepts(env, KeyBody(Build(names), chr), k) && env("space", sp)
  {
    hide Accepts, KeyBody, Build;
    QuotedBody(env, KeyBody(Build(names), chr), w);
  }

  lemma QuotedBody(env: Env, body: Expr, w: string)
    ensures Accepts(env, Seq(Class('"', '"'), Seq(body, Seq(Class('"', '"'), Ref("space")))), w) <==>
      exists k, sp :: w == "\"" + k + "\"" + sp && Accepts(env, body, k) && env("space", sp)
  {
    hide Accepts;
    var close := Seq(Class('"', '"'), Ref("space"));
    var whole := Seq(Class('"', '"'), Seq(body, close));
    SeqOfClass(env, '"', '"', Seq(body, close), w);
    if Accepts(env, whole, w) {
      var v := w[1..];
      var i := SeqCut(env, body, close, v);
      SeqOfClass(env, '"', '"', Ref("space"), v[i..]);
      var k, sp := v[..i], v[i..][1..];
      RefSame(env, "space", sp);
      assert w == "\"" + k + "\"" + sp;
    }
    forall k, sp | w == "\"" + k + "\"" + sp && Accepts(env, body, k) && env("space", sp)
      ensures Accepts(env, whole, w)
    {
      assert w[1..] == k + ("\"" + sp);
      SeqOfClass(env, '"', '"', Ref("space"), "\"" + sp);
      assert ("\"" + sp)[1..] == sp;
      RefSame(env, "space", sp);
      SeqJoin(env, body, close, k, "\"" + sp);
    }
  }
}
