/** For which listed names the rule written by `_not_strings` keeps its promise on every key:
    the names must be such that each class of the rule is read as it is meant.  For all others
    there is a key on which rule and promise disagree. */
module KeyFaults {
  import opened Common
  import opened Gbnf
  import opened NotStrings
  import GrammarText

  /** A character that none of the names holds. */
  const OUTSIDE := 0xE9 as char

  predicate OrdinaryAscii(w: string) {
    forall i :: 0 <= i < |w| ==> Ordinary(w[i]) && w[i] < 0x80 as char
  }

  ghost predicate OrdinaryWords(t: Trie) {
    forall w :: Contains(t, w) ==> OrdinaryAscii(w)
  }

  lemma KidOrdinary(t: Trie, i: nat)
    requires Valid(t) && OrdinaryWords(t) && i < |t.kids|
    ensures ValidEdge(t.kids[i]) && OrdinaryWords(t.kids[i].child)
    ensures Ordinary(t.kids[i].c) && t.kids[i].c < 0x80 as char
  {
    var e := t.kids[i];
    KidValid(t.kids, i);
    hide Valid;
    forall v | Contains(e.child, v) ensures OrdinaryAscii([e.c] + v) && OrdinaryAscii(v) {
      assert ([e.c] + v)[1..] == v && Contains(t, [e.c] + v);
      assert forall k :: 0 <= k < |v| ==> ([e.c] + v)[k + 1] == v[k];
    }
    var v := SomeWord(e.child);
    assert ([e.c] + v)[0] == e.c;
  }

  lemma FirstOrdinary(t: Trie)
    requires Valid(t) && OrdinaryWords(t)
    ensures GrammarText.Ascending(First(t.kids)) && |First(t.kids)| == |t.kids|
    ensures forall i :: 0 <= i < |t.kids| ==> First(t.kids)[i] == t.kids[i].c
    ensures OrdinaryAscii(First(t.kids))
  {
    OrderedAscends(t.kids);
    FirstAt(t.kids);
    forall i | 0 <= i < |t.kids| ensures Ordinary(First(t.kids)[i]) && First(t.kids)[i] < 0x80 as char {
      KidOrdinary(t, i);
    }
  }

  lemma {:induction false} FirstAt(kids: seq<Edge>)
    ensures |First(kids)| == |kids| && forall i :: 0 <= i < |kids| ==> First(kids)[i] == kids[i].c
  {
    if kids != [] {
      FirstAt(kids[1..]);
    }
  }

  // ----- one step of the rule -----

  ghost predicate SomeEdge(env: Env, chr: string, kids: seq<Edge>, k: string) {
    exists i :: 0 <= i < |kids| && Accepts(env, WalkEdge(kids[i], chr), k)
  }

  lemma {:induction false} WalkCases(env: Env, chr: string, kids: seq<Edge>, rejects: string, k: string)
    ensures Accepts(env, WalkKids(kids, rejects, chr), k)
            <==> SomeEdge(env, chr, kids, k) || Accepts(env, WalkKids([], rejects, chr), k)
    decreases kids
  {
    if kids != [] {
      WalkCases(env, chr, kids[1..], rejects, k);
      AltCases(env, WalkEdge(kids[0], chr), WalkKids(kids[1..], rejects, chr), k);
      hide Accepts, WalkEdge;
      if SomeEdge(env, chr, kids[1..], k) {
        var i :| 0 <= i < |kids[1..]| && Accepts(env, WalkEdge(kids[1..][i], chr), k);
        assert kids[i + 1] == kids[1..][i];
      }
      if SomeEdge(env, chr, kids, k) {
        var i :| 0 <= i < |kids| && Accepts(env, WalkEdge(kids[i], chr), k);
        assert i > 0 ==> kids[i] == kids[1..][i - 1];
      }
    }
  }

  /** The last alternative looks at the first character only. */
  lemma NoneThen(env: Env, chr: string, rejects: string, k: string)
    requires CharMeansOne(env, chr) && AllOrdinary(k)
    requires GrammarText.Ascending(rejects) && OrdinaryAscii(rejects)
    ensures Accepts(env, WalkKids([], rejects, chr), k)
            <==> k != "" && Accepts(env, GrammarText.NoneBut(rejects), [k[0]])
  {
    var none, more := GrammarText.NoneBut(rejects), Repeat(Ref(chr), 0, NoLimit);
    hide Accepts, GrammarText.NoneBut, CharMeansOne, GrammarText.Ascending;
    if Accepts(env, Seq(none, more), k) {
      var i := SeqCut(env, none, more, k);
      GrammarText.ListedRejected(env, rejects, k[..i]);
      OneLong(k, i);
    }
    if k != "" && Accepts(env, none, [k[0]]) {
      RepeatedChar(env, chr, 0, k[1..]);
      SeqJoin(env, none, more, [k[0]], k[1..]);
      assert k == [k[0]] + k[1..];
    }
  }

  /** An edge whose character stands alone takes that character off. */
  lemma EdgeTakes(env: Env, chr: string, e: Edge, k: string)
    requires CharMeansOne(env, chr) && ValidEdge(e) && AllOrdinary(k) && GrammarText.StandsAlone(e.c)
    ensures Accepts(env, WalkEdge(e, chr), k) <==>
      k != "" && k[0] == e.c && if e.child.kids != [] then Accepts(env, Walk(e.child, chr), k[1..]) else k[1..] != ""
  {
    var rest := if e.child.kids != [] then Group(Walk(e.child, chr)) else Repeat(Ref(chr), 1, NoLimit);
    SeqOfOne(env, e.c, rest, k);
    hide GrammarText.OneChar, Accepts, Walk;
    if k != "" {
      GroupSame(env, Walk(e.child, chr), k[1..]);
      RepeatedChar(env, chr, 1, k[1..]);
    }
  }

  /** An edge for `^` takes nothing off. */
  lemma CaretEdge(env: Env, chr: string, e: Edge, k: string)
    requires CharMeansOne(env, chr) && ValidEdge(e) && AllOrdinary(k) && e.c == '^'
    ensures Accepts(env, WalkEdge(e, chr), k) <==>
      if e.child.kids != [] then Accepts(env, Walk(e.child, chr), k) else k != ""
  {
    var rest := if e.child.kids != [] then Group(Walk(e.child, chr)) else Repeat(Ref(chr), 1, NoLimit);
    GrammarText.CaretIsNothing();
    SeqOfLit(env, "", rest, k);
    assert k[0..] == k;
    hide GrammarText.OneChar, Accepts, Walk;
    GroupSame(env, Walk(e.child, chr), k);
    RepeatedChar(env, chr, 1, k);
  }

  /** An edge for `]` takes nothing at all. */
  lemma BracketEdge(env: Env, chr: string, e: Edge, k: string)
    requires ValidEdge(e) && e.c == ']'
    ensures !Accepts(env, WalkEdge(e, chr), k)
  {
    forall w ensures !Accepts(env, GrammarText.OneChar(']'), w) {
      GrammarText.BracketBlocks(env, "]", w);
    }
    hide GrammarText.OneChar, Walk;
  }

  // ----- keys on which rule and promise disagree -----

  /** With a `^` anywhere behind each other, either the key `^` is accepted or none that starts
      with it. */
  lemma {:induction false} CaretAllOrNone(env: Env, chr: string, t: Trie, k: string)
    requires CharMeansOne(env, chr) && Valid(t) && OrdinaryWords(t) && t.kids != []
    requires AllOrdinary(k) && k != "" && k[0] == '^' && Accepts(env, Walk(t, chr), k)
    ensures Accepts(env, Walk(t, chr), "^")
    decreases t
  {
    FirstOrdinary(t);
    WalkCases(env, chr, t.kids, First(t.kids), k);
    WalkCases(env, chr, t.kids, First(t.kids), "^");
    NoneThen(env, chr, First(t.kids), k);
    NoneThen(env, chr, First(t.kids), "^");
    hide Accepts, CharMeansOne, OrdinaryWords, WalkKids, WalkEdge, First;
    if i :| 0 <= i < |t.kids| && Accepts(env, WalkEdge(t.kids[i], chr), k) {
      var e := t.kids[i];
      KidOrdinary(t, i);
      if e.c == '^' {
        CaretEdge(env, chr, e, k);
        CaretEdge(env, chr, e, "^");
        if e.child.kids != [] {
          CaretAllOrNone(env, chr, e.child, k);
        }
        assert SomeEdge(env, chr, t.kids, "^");
      } else if e.c == ']' {
        BracketEdge(env, chr, e, k);
      } else {
        EdgeTakes(env, chr, e, k);
      }
    }
  }

  /** Rule and promise disagree about a key below this node. */
  ghost predicate Disagree(env: Env, chr: string, t: Trie, k: string) {
    AllOrdinary(k) && k != "" && (Accepts(env, Walk(t, chr), k) <==> Reaches(t, k))
  }

  lemma OutsideTrie(t: Trie)
    requires Valid(t) && OrdinaryWords(t)
    ensures !Reaches(t, [OUTSIDE])
  {
    forall i | 0 <= i < |t.kids| ensures t.kids[i].c != OUTSIDE { KidOrdinary(t, i); }
  }

  lemma CaretBreaks(env: Env, chr: string, t: Trie, i: nat) returns (k: string)
    requires CharMeansOne(env, chr) && Valid(t) && OrdinaryWords(t) && i < |t.kids| && t.kids[i].c == '^'
    ensures Disagree(env, chr, t, k)
  {
    hide Accepts, CharMeansOne, OrdinaryWords, Walk;
    if Accepts(env, Walk(t, chr), "^") {
      k := "^";
      assert Reaches(t.kids[i].child, k[1..]);
    } else {
      k := ['^', OUTSIDE];
      if Accepts(env, Walk(t, chr), k) {
        CaretAllOrNone(env, chr, t, k);
      }
      forall j | 0 <= j < |t.kids| ensures !Reaches(t.kids[j].child, k[1..]) {
        KidOrdinary(t, j);
        OutsideTrie(t.kids[j].child);
        assert k[1..] == [OUTSIDE];
      }
    }
  }

  /** A character that no class of the node lets through and that leads nowhere. */
  lemma CharBreaks(env: Env, chr: string, t: Trie, c: char)
    requires CharMeansOne(env, chr) && Valid(t) && OrdinaryWords(t)
    requires Ordinary(c) && c !in First(t.kids) && '^' !in First(t.kids)
    requires !Accepts(env, GrammarText.NoneBut(First(t.kids)), [c])
    ensures Disagree(env, chr, t, [c])
  {
    FirstOrdinary(t);
    WalkCases(env, chr, t.kids, First(t.kids), [c]);
    NoneThen(env, chr, First(t.kids), [c]);
    forall i | 0 <= i < |t.kids| ensures t.kids[i].c != c && t.kids[i].c != '^' {
      assert First(t.kids)[i] == t.kids[i].c;
    }
    hide Accepts, CharMeansOne, OrdinaryWords, WalkKids, WalkEdge, First;
    forall i | 0 <= i < |t.kids| ensures !Accepts(env, WalkEdge(t.kids[i], chr), [c]) {
      KidOrdinary(t, i);
      if t.kids[i].c == ']' {
        BracketEdge(env, chr, t.kids[i], [c]);
      } else {
        EdgeTakes(env, chr, t.kids[i], [c]);
      }
    }
  }

  lemma {:induction false} SomeKidNotPlain(kids: seq<Edge>) returns (i: nat)
    requires !PlainKids(kids)
    ensures i < |kids| && !PlainTrie(kids[i].child)
  {
    if !PlainEdge(kids[0]) {
      i := 0;
    } else {
      var j := SomeKidNotPlain(kids[1..]);
      i := j + 1;
    }
  }

  /** Where a node's own classes are read as they are meant, its edges take each character its
      own way. */
  lemma PlainNode(env: Env, chr: string, t: Trie, i: nat, all: string)
    requires CharMeansOne(env, chr) && Valid(t) && OrdinaryWords(t) && i < |t.kids| && t.kids[i].child.kids != []
    requires GrammarText.Clean(First(t.kids)) && all != "" && all[0] == t.kids[i].c && AllOrdinary(all)
    ensures SomeEdge(env, chr, t.kids, all) <==> Accepts(env, Walk(t.kids[i].child, chr), all[1..])
    ensures Reaches(t, all) <==> Reaches(t.kids[i].child, all[1..])
  {
    var e := t.kids[i];
    FirstOrdinary(t);
    forall j | 0 <= j < |t.kids| ensures GrammarText.StandsAlone(t.kids[j].c) && (t.kids[j].c == e.c ==> j == i) {
      assert First(t.kids)[j] == t.kids[j].c;
      if j < i { GrammarText.AscendingPair(First(t.kids), j, i); }
      if i < j { GrammarText.AscendingPair(First(t.kids), i, j); }
    }
    hide Accepts, CharMeansOne, OrdinaryWords, WalkEdge, First, Walk, Valid, GrammarText.StandsAlone;
    forall j | 0 <= j < |t.kids|
      ensures Accepts(env, WalkEdge(t.kids[j], chr), all) <==> j == i && Accepts(env, Walk(e.child, chr), all[1..])
    {
      KidOrdinary(t, j);
      EdgeTakes(env, chr, t.kids[j], all);
    }
  }

  /** A key that breaks the promise below an edge breaks it above, with the edge's character
      in front, where that node's own classes are read as they are meant. */
  lemma BreaksAbove(env: Env, chr: string, t: Trie, i: nat, k: string)
    requires CharMeansOne(env, chr) && Valid(t) && OrdinaryWords(t) && i < |t.kids| && t.kids[i].child.kids != []
    requires GrammarText.Clean(First(t.kids)) && GrammarText.DashFits('"', First(t.kids))
    requires Disagree(env, chr, t.kids[i].child, k)
    ensures Disagree(env, chr, t, [t.kids[i].c] + k)
  {
    var all := [t.kids[i].c] + k;
    assert all[0] == t.kids[i].c && all[1..] == k;
    KidOrdinary(t, i);
    FirstOrdinary(t);
    assert First(t.kids)[i] == all[0];
    hide Accepts, CharMeansOne, OrdinaryWords, WalkKids, First, Valid, GrammarText.Clean, GrammarText.DashFits, Reaches;
    assert AllOrdinary(all);
    PlainNode(env, chr, t, i, all);
    WalkCases(env, chr, t.kids, First(t.kids), all);
    NoneThenChars(env, chr, First(t.kids), all);
  }

  lemma DashBreaks(env: Env, chr: string, t: Trie) returns (k: string)
    requires CharMeansOne(env, chr) && Valid(t) && OrdinaryWords(t)
    requires GrammarText.Clean(First(t.kids)) && !GrammarText.DashFits('"', First(t.kids))
    ensures Disagree(env, chr, t, k)
  {
    var rejects := First(t.kids);
    FirstOrdinary(t);
    hide Accepts, CharMeansOne, OrdinaryWords, Disagree, First, GrammarText.DashFits, GrammarText.NoneBut;
    var i := GrammarText.FirstDash(rejects);
    var c := GrammarText.MissedChar(rejects, i);
    GrammarText.DashRejects(env, rejects, i, c, [c]);
    CharBreaks(env, chr, t, c);
    k := [c];
  }

  /** A node whose own classes are not read as they are meant. */
  lemma NodeBreaks(env: Env, chr: string, t: Trie) returns (k: string)
    requires CharMeansOne(env, chr) && Valid(t) && OrdinaryWords(t)
    requires !GrammarText.Clean(First(t.kids)) || !GrammarText.DashFits('"', First(t.kids))
    ensures Disagree(env, chr, t, k)
  {
    FirstOrdinary(t);
    hide Accepts, CharMeansOne, OrdinaryWords, Disagree, First, GrammarText.DashFits, GrammarText.NoneBut,
      GrammarText.OneChar;
    var rejects := First(t.kids);
    if i :| 0 <= i < |t.kids| && t.kids[i].c == '^' {
      k := CaretBreaks(env, chr, t, i);
    } else if ']' in rejects {
      GrammarText.BracketBlocks(env, rejects, [OUTSIDE]);
      CharBreaks(env, chr, t, OUTSIDE);
      k := [OUTSIDE];
    } else {
      assert GrammarText.Clean(rejects);
      k := DashBreaks(env, chr, t);
    }
  }

  lemma {:induction false} WalkBreaks(env: Env, chr: string, t: Trie) returns (k: string)
    requires CharMeansOne(env, chr) && Valid(t) && OrdinaryWords(t) && t.kids != [] && !PlainTrie(t)
    ensures Disagree(env, chr, t, k)
    decreases t
  {
    if GrammarText.Clean(First(t.kids)) && GrammarText.DashFits('"', First(t.kids)) {
      var i := SomeKidNotPlain(t.kids);
      hide *;
      KidOrdinary(t, i);
      NotPlainHasKids(t.kids[i].child);
      EdgeIsValid(t.kids[i]);
      var below := WalkBreaks(env, chr, t.kids[i].child);
      BreaksAbove(env, chr, t, i, below);
      k := [t.kids[i].c] + below;
    } else {
      hide *;
      k := NodeBreaks(env, chr, t);
    }
  }

  lemma EdgeIsValid(e: Edge)
    requires ValidEdge(e)
    ensures Valid(e.child)
  {}

  /** The rule keeps to the letter what it is for: every non-empty key but the listed ones and
      their beginnings. */
  ghost predicate KeysExact(env: Env, chr: string, names: seq<string>) {
    forall k :: AllOrdinary(k) && k != "" ==>
      (Accepts(env, KeyBody(Build(names), chr), k) <==> !BeginsSome(names, k) && !OnlyEmpty(names))
  }

  /** For names of ordinary ASCII characters the rule accepts exactly the keys that are no
      listed name and no beginning of one if and only if no name holds `^` or `]` and every `-`
      comes last among the characters that may stand there, or between `,` and `.`. */
  lemma KeysExactIff(env: Env, chr: string, names: seq<string>)
    requires CharMeansOne(env, chr) && forall n :: n in names ==> OrdinaryAscii(n)
    ensures KeysExact(env, chr, names) <==> PlainTrie(Build(names))
  {
    var t := Build(names);
    hide Accepts, CharMeansOne, Build, KeyBody, PlainTrie, BeginsSome, OnlyEmpty, Walk;
    if PlainTrie(t) {
      forall k | AllOrdinary(k) && k != ""
        ensures Accepts(env, KeyBody(t, chr), k) <==> !BeginsSome(names, k) && !OnlyEmpty(names)
      {
        KeyBodyExact(env, chr, names, k);
      }
    } else {
      var k := NamesBreak(env, chr, names);
    }
  }

  lemma NamesBreak(env: Env, chr: string, names: seq<string>) returns (k: string)
    requires CharMeansOne(env, chr) && forall n :: n in names ==> OrdinaryAscii(n)
    requires !PlainTrie(Build(names))
    ensures AllOrdinary(k) && k != ""
    ensures Accepts(env, KeyBody(Build(names), chr), k) <==> BeginsSome(names, k) || OnlyEmpty(names)
  {
    var t := Build(names);
    forall w ensures Contains(t, w) <==> w in names { BuildContains(names, w); }
    BuildContains(names, "");
    NotPlainHasKids(t);
    k := WalkBreaks(env, chr, t);
    OptionalGroup(env, Walk(t, chr), k);
    GroupSame(env, Walk(t, chr), k);
    ReachesIsPrefix(t, k);
    BeginsIsPrefix(names, k);
    hide Build, Walk, BeginsSome, Reaches, Contains, Accepts, PlainTrie, CharMeansOne;
  }

  lemma NotPlainHasKids(t: Trie)
    requires !PlainTrie(t)
    ensures t.kids != []
  {}
}
