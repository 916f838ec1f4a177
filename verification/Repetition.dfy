/** Lists with a minimum and maximum length: `build_repetition`. */
module Repetition {
  import opened Common
  import opened Gbnf

  datatype Separator = NoSeparator | Between(e: Expr)

  function Fewer(max: Limit): (r: Limit) {
    if max.AtMost? && max.n > 0 then AtMost(max.n - 1) else max
  }

  /** `?`, `+`, `*` and `{m,n}` are all repetitions; a maximum of zero writes nothing. */
  function Plain(item: Expr, min: nat, max: Limit): (e: Expr) {
    if max == AtMost(0) then Lit("") else Repeat(item, min, max)
  }

  function Build(item: Expr, min: nat, max: Limit, sep: Separator): (e: Expr) {
    if max == AtMost(0) then Lit("")
    else if min == 0 && max == AtMost(1) then Repeat(item, 0, max)
    else if sep.NoSeparator? then Plain(item, min, max)
    else
      var e := Seq(item, Plain(Group(Seq(sep.e, item)), if min == 0 then 0 else min - 1, Fewer(max)));
      if min == 0 then Repeat(Group(e), 0, AtMost(1)) else e
  }

  /** `k` items one after the other, separated by `sep` if there is one. */
  ghost predicate ListOf(env: Env, item: Expr, sep: Separator, k: nat, w: string) {
    if k == 0 then w == ""
    else if sep.NoSeparator? then Copies(env, item, k, w)
    else exists v, y :: w == v + y && Accepts(env, item, v) && Copies(env, Seq(sep.e, item), k - 1, y)
  }

  ghost predicate Copies(env: Env, e: Expr, k: nat, w: string) {
    exists ws: seq<string> :: |ws| == k && Concat(ws) == w && forall i :: 0 <= i < k ==> Accepts(env, e, ws[i])
  }

  ghost predicate SomeList(env: Env, item: Expr, min: nat, max: Limit, sep: Separator, w: string) {
    exists k: nat :: Within(k, min, max) && ListOf(env, item, sep, k, w)
  }

  lemma RepeatIsCopies(env: Env, e: Expr, min: nat, max: Limit, w: string)
    ensures Accepts(env, Repeat(e, min, max), w) <==> exists k: nat :: Within(k, min, max) && Copies(env, e, k, w)
  {
    if Accepts(env, Repeat(e, min, max), w) {
      var ws: seq<string> :| Within(|ws|, min, max) && Concat(ws) == w && forall i :: 0 <= i < |ws| ==> Accepts(env, e, ws[i]);
      assert Copies(env, e, |ws|, w);
    }
    forall k: nat | Within(k, min, max) && Copies(env, e, k, w) ensures Accepts(env, Repeat(e, min, max), w) {
      var ws: seq<string> :| |ws| == k && Concat(ws) == w && forall i :: 0 <= i < k ==> Accepts(env, e, ws[i]);
    }
  }

  lemma CopiesOfGroup(env: Env, e: Expr, k: nat, w: string)
    ensures Copies(env, Group(e), k, w) <==> Copies(env, e, k, w)
  {
    forall x ensures Accepts(env, Group(e), x) <==> Accepts(env, e, x) { GroupSame(env, e, x); }
    hide Accepts;
  }

  lemma NoCopies(env: Env, e: Expr, w: string)
    ensures Copies(env, e, 0, w) <==> w == ""
  {
    var none: seq<string> := [];
    assert Concat(none) == "";
  }

  lemma OneCopy(env: Env, e: Expr, w: string)
    ensures Copies(env, e, 1, w) <==> Accepts(env, e, w)
  {
    hide Accepts;
    if Copies(env, e, 1, w) {
      var ws: seq<string> :| |ws| == 1 && Concat(ws) == w && forall i :: 0 <= i < 1 ==> Accepts(env, e, ws[i]);
      assert Concat(ws) == ws[0] + Concat(ws[1..]) && ws[1..] == [];
      assert w == ws[0];
    }
    if Accepts(env, e, w) {
      var ws := [w];
      assert Concat(ws) == w + Concat(ws[1..]);
    }
  }

  /** The items behind the first one, each with its separator. */
  lemma TailExact(env: Env, item: Expr, min: nat, max: Limit, sep: Expr, y: string)
    requires max != AtMost(0) && (max == AtMost(1) ==> min <= 1)
    ensures Accepts(env, Plain(Group(Seq(sep, item)), if min == 0 then 0 else min - 1, Fewer(max)), y)
            <==> exists k: nat :: Within(k + 1, min, max) && Copies(env, Seq(sep, item), k, y)
  {
    var step, low := Seq(sep, item), if min == 0 then 0 else min - 1;
    RepeatIsCopies(env, Group(step), low, Fewer(max), y);
    forall k: nat ensures Copies(env, Group(step), k, y) <==> Copies(env, step, k, y) { CopiesOfGroup(env, step, k, y); }
    NoCopies(env, step, y);
    if max == AtMost(1) {
      assert Accepts(env, Lit(""), y) <==> Copies(env, step, 0, y);
      hide Accepts, Copies;
      assert Within(0 + 1, min, max);
    } else {
      hide Accepts, Copies;
      forall k: nat ensures Within(k, low, Fewer(max)) <==> Within(k + 1, min, max) {}
    }
  }

  /** A maximum of zero lets the empty list through whatever the minimum, and with a separator a
      maximum of one lets a single item through whatever the minimum. */
  predicate MaximumDecides(min: nat, max: Limit, sep: Separator) {
    (max == AtMost(0) && min > 0) || (sep.Between? && max == AtMost(1) && min > 1)
  }

  /** Apart from these cases the lists accepted are those of allowed length; in them, lists are
      accepted although none is allowed. */
  lemma BuildExactIff(env: Env, item: Expr, min: nat, max: Limit, sep: Separator, v: string)
    requires Accepts(env, item, v)
    ensures (forall w :: Accepts(env, Build(item, min, max, sep), w) <==> SomeList(env, item, min, max, sep, w))
            <==> !MaximumDecides(min, max, sep)
  {
    if max == AtMost(0) && min > 0 {
      assert Accepts(env, Build(item, min, max, sep), "");
      hide Accepts;
      assert !SomeList(env, item, min, max, sep, "");
    } else if MaximumDecides(min, max, sep) {
      assert Accepts(env, Lit(""), "");
      SeqJoin(env, item, Lit(""), v, "");
      assert v + "" == v;
      hide Accepts;
      assert Build(item, min, max, sep) == Seq(item, Lit(""));
      assert !SomeList(env, item, min, max, sep, v);
    } else {
      hide Accepts, SomeList, Build;
      forall w
        ensures Accepts(env, Build(item, min, max, sep), w) <==> SomeList(env, item, min, max, sep, w)
      {
        BuildExact(env, item, min, max, sep, w);
      }
    }
  }

  lemma BuildExact(env: Env, item: Expr, min: nat, max: Limit, sep: Separator, w: string)
    requires !MaximumDecides(min, max, sep)
    ensures Accepts(env, Build(item, min, max, sep), w) <==> SomeList(env, item, min, max, sep, w)
  {
    if max == AtMost(0) {
      NoneAllowed(env, item, sep, w);
    } else if min == 0 && max == AtMost(1) {
      OptionalExact(env, item, sep, w);
    } else if sep.NoSeparator? {
      PlainExact(env, item, min, max, w);
    } else {
      var tail := Plain(Group(Seq(sep.e, item)), if min == 0 then 0 else min - 1, Fewer(max));
      FirstThenTail(env, item, min, max, sep, tail, w);
      OptionalGroup(env, Seq(item, tail), w);
      NonEmptyLists(env, item, min, max, sep, w);
      hide Accepts, SomeList, ListOf, Plain;
    }
  }

  lemma OptionalExact(env: Env, item: Expr, sep: Separator, w: string)
    ensures Accepts(env, Repeat(item, 0, AtMost(1)), w) <==> SomeList(env, item, 0, AtMost(1), sep, w)
  {
    RepeatIsCopies(env, item, 0, AtMost(1), w);
    NoCopies(env, item, w);
    OneCopy(env, item, w);
    AtMostOne(env, item, sep, w);
    hide Accepts, Copies, SomeList;
    assert Within(0, 0, AtMost(1)) && Within(1, 0, AtMost(1));
  }

  lemma PlainExact(env: Env, item: Expr, min: nat, max: Limit, w: string)
    requires max != AtMost(0)
    ensures Accepts(env, Plain(item, min, max), w) <==> SomeList(env, item, min, max, NoSeparator, w)
  {
    RepeatIsCopies(env, item, min, max, w);
    NoCopies(env, item, w);
    hide Accepts, Copies;
    forall k: nat ensures ListOf(env, item, NoSeparator, k, w) <==> Copies(env, item, k, w) {}
  }

  lemma NoneAllowed(env: Env, item: Expr, sep: Separator, w: string)
    ensures Accepts(env, Lit(""), w) <==> SomeList(env, item, 0, AtMost(0), sep, w)
  {
    hide Copies;
    assert ListOf(env, item, sep, 0, w) <==> w == "";
    assert Within(0, 0, AtMost(0));
  }

  lemma NonEmptyLists(env: Env, item: Expr, min: nat, max: Limit, sep: Separator, w: string)
    ensures SomeList(env, item, min, max, sep, w)
            <==> (min == 0 && w == "") || exists k: nat :: k > 0 && Within(k, min, max) && ListOf(env, item, sep, k, w)
  {
    hide Copies, Accepts;
    if min == 0 { assert Within(0, min, max); }
    assert ListOf(env, item, sep, 0, w) <==> w == "";
  }

  lemma AtMostOne(env: Env, item: Expr, sep: Separator, w: string)
    ensures SomeList(env, item, 0, AtMost(1), sep, w) <==> w == "" || Accepts(env, item, w)
  {
    OneList(env, item, sep, w);
    assert ListOf(env, item, sep, 0, w) <==> w == "";
    hide Accepts, ListOf;
    assert Within(0, 0, AtMost(1)) && Within(1, 0, AtMost(1));
  }

  lemma OneList(env: Env, item: Expr, sep: Separator, w: string)
    ensures ListOf(env, item, sep, 1, w) <==> Accepts(env, item, w)
  {
    OneCopy(env, item, w);
    hide Accepts, Copies;
    if sep.Between? {
      NoCopies(env, Seq(sep.e, item), "");
      if Accepts(env, item, w) { assert w == w + ""; }
      forall v, y | w == v + y && Copies(env, Seq(sep.e, item), 0, y) ensures w == v { NoCopies(env, Seq(sep.e, item), y); }
    }
  }

  lemma FirstThenTail(env: Env, item: Expr, min: nat, max: Limit, sep: Separator, tail: Expr, w: string)
    requires sep.Between? && max != AtMost(0) && (max == AtMost(1) ==> min <= 1)
    requires tail == Plain(Group(Seq(sep.e, item)), if min == 0 then 0 else min - 1, Fewer(max))
    ensures Accepts(env, Seq(item, tail), w)
            <==> exists k: nat :: k > 0 && Within(k, min, max) && ListOf(env, item, sep, k, w)
  {
    hide Accepts, Copies;
    if Accepts(env, Seq(item, tail), w) {
      var i := SeqCut(env, item, tail, w);
      TailExact(env, item, min, max, sep.e, w[i..]);
      var k: nat :| Within(k + 1, min, max) && Copies(env, Seq(sep.e, item), k, w[i..]);
      assert w == w[..i] + w[i..];
      assert ListOf(env, item, sep, k + 1, w);
    }
    forall k: nat | k > 0 && Within(k, min, max) && ListOf(env, item, sep, k, w)
      ensures Accepts(env, Seq(item, tail), w)
    {
      var v, y :| w == v + y && Accepts(env, item, v) && Copies(env, Seq(sep.e, item), k - 1, y);
      TailExact(env, item, min, max, sep.e, y);
      assert Within((k - 1) + 1, min, max);
      SeqJoin(env, item, tail, v, y);
    }
  }
}
