/** From the text of a pattern to the text of its rewriting: how `regex_to_reversed_partial_regex`
    cuts a pattern into symbols, brackets, bars and quantifiers, and that for every text that is a
    pattern the text it returns is one that finds the beginnings of its matches. */
module RegexLexer {
  import opened Common
  import opened Decimal
  import opened RegexPartial
  import opened RegexText
  import opened RegexReader

  // ----- cutting a pattern -----

  function Put(l: Lexeme, r: Result<seq<Lexeme>>): Result<seq<Lexeme>> {
    if r.Invalid? then Invalid else Ok([l] + r.value)
  }

  /** Where `c` stands first, or the length. */
  function Find(s: string, c: char): (n: nat)
    ensures n <= |s| && (n < |s| ==> s[n] == c) && forall i :: 0 <= i < n ==> s[i] != c
  {
    if s == "" || s[0] == c then 0 else 1 + Find(s[1..], c)
  }

  /** One part of a range: a number that fits an `int`, or nothing. */
  function Bound(part: string, absent: Option<nat>): (r: Result<Option<nat>>) {
    if part == "" then Ok(absent)
    else if AllDigits(part) && Value(part) <= MAX_COUNT then Ok(Some(Value(part)))
    else Invalid
  }

  /** What stands between the braces of a range: one part, or two with a comma between them. */
  function RangeOf(inside: string): (r: Result<Lexeme>) {
    var k := Find(inside, ',');
    if k == |inside| then
      var n := Bound(inside, Some(0));
      if n.Invalid? then Invalid else Ok(Range(n.value.value, n.value))
    else if ',' in inside[k + 1..] then Invalid
    else
      var min, max := Bound(inside[..k], Some(0)), Bound(inside[k + 1..], None);
      if min.Invalid? || max.Invalid? then Invalid else Ok(Range(min.value.value, max.value))
  }

  /** The lexemes of a pattern; a backslash at its end is dropped. */
  function Lex(s: string): (r: Result<seq<Lexeme>>)
    decreases |s|
  {
    if s == "" then Ok([])
    else
      match s[0]
      case '[' =>
        var rest := ReadClass(s[1..]);
        if rest.None? then Invalid else Put(Sym("[" + rest.value.0), Lex(rest.value.1))
      case '*' => Put(Mark('*'), Lex(s[1..]))
      case '?' => Put(Mark('?'), Lex(s[1..]))
      case '+' => Put(Mark('+'), Lex(s[1..]))
      case '{' =>
        var n := Find(s[1..], '}');
        if n == |s| - 1 || RangeOf(s[1..n + 1]).Invalid? then Invalid
        else Put(RangeOf(s[1..n + 1]).value, Lex(s[n + 2..]))
      case '(' => Put(Open, Lex(if "(?:" <= s then s[3..] else s[1..]))
      case ')' => Put(Close, Lex(s[1..]))
      case '|' => Put(Bar, Lex(s[1..]))
      case '\\' => if |s| == 1 then Ok([]) else Put(Sym(s[..2]), Lex(s[2..]))
      case c => Put(Sym([c]), Lex(s[1..]))
  }

  function Before(ls: seq<Lexeme>, r: Result<seq<Lexeme>>): Result<seq<Lexeme>> {
    if r.Invalid? then Invalid else Ok(ls + r.value)
  }

  lemma BeforePut(ls: seq<Lexeme>, l: Lexeme, r: Result<seq<Lexeme>>)
    ensures Before(ls, Put(l, r)) == Before(ls + [l], r)
  {
    if r.Ok? {
      assert ls + ([l] + r.value) == ls + [l] + r.value;
    }
  }

  lemma BeforeNone(r: Result<seq<Lexeme>>)
    ensures Before([], r) == r
  {
    if r.Ok? { assert [] + r.value == r.value; }
  }

  /** A class and what is in front of the part of it that has been read. */
  function Behind(front: string, r: Option<(string, string)>): Option<(string, string)> {
    if r.None? then None else Some((front + r.value.0, r.value.1))
  }

  lemma ClassStep(s: string, n: nat)
    requires s != "" && s[0] != ']' && n == if s[0] == '\\' && |s| > 1 then 2 else 1
    ensures ReadClass(s) == Behind(s[..n], ReadClass(s[n..]))
  {
    if |s| == 1 {
      assert s[1..] == "";
    }
  }

  lemma ClassGoesOn(pattern: string, from: nat, it: nat, n: nat)
    requires from <= it < it + n <= |pattern| && pattern[it] != ']'
    requires n == if pattern[it] == '\\' && it + 1 < |pattern| then 2 else 1
    ensures Behind(pattern[from..it], ReadClass(pattern[it..])) == Behind(pattern[from..it + n], ReadClass(pattern[it + n..]))
  {
    var s := pattern[it..];
    ClassStep(s, n);
    assert s[n..] == pattern[it + n..] && s[..n] == pattern[it..it + n];
    hide ReadClass;
    FrontGrows(pattern[from..it], s[..n], ReadClass(s[n..]));
    assert pattern[from..it] + s[..n] == pattern[from..it + n];
  }

  lemma FrontGrows(front: string, next: string, r: Option<(string, string)>)
    ensures Behind(front, Behind(next, r)) == Behind(front + next, r)
  {
    if r.Some? { assert front + (next + r.value.0) == front + next + r.value.0; }
  }

  lemma ClassStarts(pattern: string, from: nat)
    requires from <= |pattern|
    ensures ReadClass(pattern[from..]) == Behind(pattern[from..from], ReadClass(pattern[from..]))
  {
    hide ReadClass;
    var r := ReadClass(pattern[from..]);
    if r.Some? { assert pattern[from..from] + r.value.0 == r.value.0; }
  }

  lemma ClassEnds(pattern: string, from: nat, it: nat)
    requires from <= it < |pattern| && pattern[it] == ']'
    ensures Behind(pattern[from..it], ReadClass(pattern[it..])) == Some((pattern[from..it + 1], pattern[it + 1..]))
  {
    var s := pattern[it..];
    assert s[..1] == [pattern[it]] && s[1..] == pattern[it + 1..];
    assert pattern[from..it] + [pattern[it]] == pattern[from..it + 1];
  }

  lemma ClassMissing(pattern: string)
    ensures ReadClass(pattern[|pattern|..]).None?
  {}

  /** Where a class ends that starts in front of `from`; the length if it does not. */
  method ScanClass(pattern: string, from: nat) returns (it: nat)
    requires from <= |pattern|
    ensures from <= it <= |pattern|
    ensures
      var r := ReadClass(pattern[from..]);
      if it == |pattern| then r.None? else r == Some((pattern[from..it + 1], pattern[it + 1..]))
  {
    hide ReadClass;
    it := from;
    ClassStarts(pattern, from);
    while it < |pattern|
      invariant from <= it <= |pattern|
      invariant ReadClass(pattern[from..]) == Behind(pattern[from..it], ReadClass(pattern[it..]))
    {
      if pattern[it] == '\\' && it + 1 < |pattern| {
        ClassGoesOn(pattern, from, it, 2);
        it := it + 2;
      } else if pattern[it] == ']' {
        ClassEnds(pattern, from, it);
        return;
      } else {
        ClassGoesOn(pattern, from, it, 1);
        it := it + 1;
      }
    }
    ClassMissing(pattern);
  }

  /** The pass over the characters. */
  method Lexemes(pattern: string) returns (r: Result<seq<Lexeme>>)
    ensures r == Lex(pattern)
  {
    hide ReadClass, RangeOf, Find;
    var lexemes: seq<Lexeme> := [];
    var it := 0;
    assert pattern[0..] == pattern;
    BeforeNone(Lex(pattern));
    while it < |pattern|
      invariant it <= |pattern| && Lex(pattern) == Before(lexemes, Lex(pattern[it..]))
    {
      var step := OneLexeme(pattern, it);
      if step.Invalid? {
        return Invalid;
      }
      var (found, next) := step.value;
      if found.Some? {
        BeforePut(lexemes, found.value, Lex(pattern[next..]));
        lexemes := lexemes + [found.value];
      }
      it := next;
    }
    assert pattern[it..] == "";
    assert lexemes + [] == lexemes;
    r := Ok(lexemes);
  }

  lemma LexClass(s: string)
    requires s != "" && s[0] == '['
    ensures
      var rest := ReadClass(s[1..]);
      Lex(s) == if rest.None? then Invalid else Put(Sym("[" + rest.value.0), Lex(rest.value.1))
  {
    hide ReadClass, Put;
  }

  lemma LexOne(s: string)
    requires s != "" && s[0] in "*?+)|"
    ensures Lex(s) == Put(if s[0] == ')' then Close else if s[0] == '|' then Bar else Mark(s[0]), Lex(s[1..]))
  {
    hide Put;
  }

  lemma LexPlain(s: string)
    requires s != "" && s[0] !in "*?+)|[{(\\"
    ensures Lex(s) == Put(Sym([s[0]]), Lex(s[1..]))
  {
    hide Put;
  }

  lemma LexOpen(s: string)
    requires s != "" && s[0] == '('
    ensures Lex(s) == Put(Open, Lex(if "(?:" <= s then s[3..] else s[1..]))
  {
    hide Put;
  }

  lemma LexBackslash(s: string)
    requires s != "" && s[0] == '\\'
    ensures Lex(s) == if |s| == 1 then Ok([]) else Put(Sym(s[..2]), Lex(s[2..]))
  {
    hide Put;
  }

  lemma LexBrace(s: string)
    requires s != "" && s[0] == '{'
    ensures
      var n := Find(s[1..], '}');
      Lex(s) == if n == |s| - 1 || RangeOf(s[1..n + 1]).Invalid? then Invalid
                else Put(RangeOf(s[1..n + 1]).value, Lex(s[n + 2..]))
  {
    hide Put, RangeOf, Find;
  }

  lemma GroupMark(s: string)
    requires s != "" && s[0] == '('
    ensures "(?:" <= s <==> |s| > 2 && s[1] == '?' && s[2] == ':'
  {
    var mark := "(?:";
    assert mark[0] == '(' && mark[1] == '?' && mark[2] == ':';
    if |s| > 2 { assert s[..3] == [s[0], s[1], s[2]]; }
  }

  method ClassLexeme(pattern: string, it: nat) returns (r: Result<(Option<Lexeme>, nat)>)
    requires it < |pattern| && pattern[it] == '['
    ensures r.Invalid? ==> Lex(pattern[it..]).Invalid?
    ensures r.Ok? ==>
      var (found, next) := r.value;
      it < next <= |pattern| && found.Some? && Lex(pattern[it..]) == Put(found.value, Lex(pattern[next..]))
  {
    hide *;
    var end := ScanClass(pattern, it + 1);
    assert pattern[it..][1..] == pattern[it + 1..];
    LexClass(pattern[it..]);
    if end == |pattern| {
      return Invalid;
    }
    assert "[" + pattern[it + 1..end + 1] == pattern[it..end + 1];
    r := Ok((Some(Sym(pattern[it..end + 1])), end + 1));
  }

  method RangeLexeme(pattern: string, it: nat) returns (r: Result<(Option<Lexeme>, nat)>)
    requires it < |pattern| && pattern[it] == '{'
    ensures r.Invalid? ==> Lex(pattern[it..]).Invalid?
    ensures r.Ok? ==>
      var (found, next) := r.value;
      it < next <= |pattern| && found.Some? && Lex(pattern[it..]) == Put(found.value, Lex(pattern[next..]))
  {
    hide *;
    ghost var s := pattern[it..];
    assert s[1..] == pattern[it + 1..];
    var end := Find(pattern[it + 1..], '}') + it + 1;
    LexBrace(s);
    if end == |pattern| {
      return Invalid;
    }
    assert s[1..end - it] == pattern[it + 1..end] && s[end - it + 1..] == pattern[end + 1..];
    var range := RangeOf(pattern[it + 1..end]);
    if range.Invalid? {
      return Invalid;
    }
    r := Ok((Some(range.value), end + 1));
  }

  /** The lexeme at `it`, if any, and where the next one starts. */
  method OneLexeme(pattern: string, it: nat) returns (r: Result<(Option<Lexeme>, nat)>)
    requires it < |pattern|
    ensures r.Invalid? ==> Lex(pattern[it..]).Invalid?
    ensures r.Ok? ==>
      var (found, next) := r.value;
      && it < next <= |pattern|
      && Lex(pattern[it..]) == if found.Some? then Put(found.value, Lex(pattern[next..])) else Lex(pattern[next..])
  {
    hide *;
    var c := pattern[it];
    ghost var s := pattern[it..];
    assert s[0] == c && s[1..] == pattern[it + 1..];
    if c == '[' {
      r := ClassLexeme(pattern, it);
    } else if c == '*' || c == '?' || c == '+' {
      LexOne(s);
      r := Ok((Some(Mark(c)), it + 1));
    } else if c == '{' {
      r := RangeLexeme(pattern, it);
    } else if c == '(' {
      LexOpen(s);
      GroupMark(s);
      var next := it + 1;
      if it + 2 < |pattern| && pattern[it + 1] == '?' && pattern[it + 2] == ':' {
        next := it + 3;
        assert s[3..] == pattern[it + 3..];
      }
      r := Ok((Some(Open), next));
    } else if c == ')' {
      LexOne(s);
      r := Ok((Some(Close), it + 1));
    } else if c == '|' {
      LexOne(s);
      r := Ok((Some(Bar), it + 1));
    } else if c == '\\' {
      LexBackslash(s);
      if it + 1 == |pattern| {
        LexNothing(pattern[it + 1..]);
        return Ok((None, it + 1));
      }
      assert s[..2] == pattern[it..it + 2] && s[2..] == pattern[it + 2..];
      r := Ok((Some(Sym(pattern[it..it + 2])), it + 2));
    } else {
      LexPlain(s);
      r := Ok((Some(Sym([c])), it + 1));
    }
  }

  lemma LexNothing(s: string)
    requires s == ""
    ensures Lex(s) == Ok([])
  {}

  // ----- the lexemes of what is read -----

  lemma BeforeBoth(a: seq<Lexeme>, b: seq<Lexeme>, r: Result<seq<Lexeme>>)
    ensures Before(a, Before(b, r)) == Before(a + b, r)
  {
    if r.Ok? {
      assert a + (b + r.value) == a + b + r.value;
    }
  }

  lemma PutBefore(l: Lexeme, ls: seq<Lexeme>, r: Result<seq<Lexeme>>)
    ensures Put(l, Before(ls, r)) == Before([l] + ls, r)
    ensures Put(l, r) == Before([l], r)
  {
    if r.Ok? {
      assert [l] + (ls + r.value) == [l] + ls + r.value;
    }
  }

  lemma {:induction false} FindSkips(a: string, t: string, c: char)
    requires c !in a
    ensures Find(a + t, c) == |a| + Find(t, c)
  {
    if a == "" {
      assert a + t == t;
    } else {
      assert (a + t)[0] == a[0] && (a + t)[1..] == a[1..] + t && a[0] in a;
      assert forall x :: x in a[1..] ==> x in a;
      FindSkips(a[1..], t, c);
    }
  }

  lemma DigitsOnly(d: string)
    requires AllDigits(d)
    ensures ',' !in d && '}' !in d
  {}

  /** A number that both sides take. */
  predicate IsCount(d: string, n: nat) {
    d != "" && AllDigits(d) && Value(d) == n <= MAX_COUNT
  }

  lemma OnePart(d: string, n: nat)
    requires IsCount(d, n)
    ensures RangeOf(d) == Ok(Range(n, Some(n)))
  {
    DigitsOnly(d);
    FindSkips(d, "", ',');
    assert d + "" == d && Find("", ',') == 0;
    hide Find, Value, AllDigits;
  }

  lemma PartsOf2(d: string, n: nat, e: string)
    requires IsCount(d, n) && ',' !in e
    ensures
      var max := Bound(e, None);
      RangeOf(d + ("," + e)) == if max.Invalid? then Invalid else Ok(Range(n, max.value))
  {
    DigitsOnly(d);
    FindSkips(d, "," + e, ',');
    assert Find("," + e, ',') == 0;
    var all := d + ("," + e);
    assert all[..|d|] == d && all[|d| + 1..] == e;
    hide Find, Value, AllDigits;
  }

  /** The braces of a range that is read. */
  lemma BraceCut(s: string, inside: string, rest: string, min: nat, max: Option<nat>)
    requires s != "" && s[0] == '{' && s[1..] == inside + ("}" + rest)
    requires '}' !in inside && RangeOf(inside) == Ok(Range(min, max))
    ensures Lex(s) == Put(Range(min, max), Lex(rest))
  {
    hide *;
    LexBrace(s);
    FindSkips(inside, "}" + rest, '}');
    FindHere(rest);
    InsideOf(s, inside, rest);
  }

  lemma FindHere(rest: string)
    ensures Find("}" + rest, '}') == 0
  {}

  lemma InsideOf(s: string, inside: string, rest: string)
    requires s != "" && s[1..] == inside + ("}" + rest)
    ensures |s| == |inside| + |rest| + 2 && s[1..|inside| + 1] == inside && s[|inside| + 2..] == rest
  {
    var behind := s[1..];
    assert behind[..|inside|] == inside && behind[|inside| + 1..] == rest;
    assert s[1..|inside| + 1] == behind[..|inside|] && s[|inside| + 2..] == behind[|inside| + 1..];
  }

  /** A number in front, and the rest. */
  lemma CountShape(s: string)
    requires ReadCount(s).Some?
    ensures var d := ReadDigits(s).0; IsCount(d, ReadCount(s).value.0) && s == d + ReadCount(s).value.1
  {
    hide Value, ReadDigits;
  }

  /** What follows the first number of a range that is read. */
  lemma RangeIs(s: string)
    requires s != "" && s[0] == '{' && ReadRange(s).Some?
    ensures ReadCount(s[1..]).Some?
    ensures
      var (min, more) := ReadCount(s[1..]).value;
      var (q, rest) := ReadRange(s).value;
      && more != "" && q.Times? && q.min == min
      && if more[0] == '}' then q.max == AtMost(min) && rest == more[1..]
         else
           && more[0] == ',' && |more| > 1
           && if more[1] == '}' then q.max == NoLimit && rest == more[2..]
              else
                var high := ReadCount(more[1..]);
                high.Some? && high.value.1 != "" && high.value.1[0] == '}' && q.max == AtMost(high.value.0) && rest == high.value.1[1..]
  {
    hide ReadCount;
  }

  lemma ExactCut(s: string, d: string, more: string, n: nat)
    requires s != "" && s[0] == '{' && s[1..] == d + more && IsCount(d, n) && more != "" && more[0] == '}'
    ensures Lex(s) == Put(Range(n, Some(n)), Lex(more[1..]))
  {
    assert more == "}" + more[1..];
    DigitsOnly(d);
    hide *;
    OnePart(d, n);
    BraceCut(s, d, more[1..], n, Some(n));
  }

  lemma TwoCut(s: string, d: string, n: nat, e: string, rest: string)
    requires s != "" && s[0] == '{' && s[1..] == d + ("," + (e + ("}" + rest)))
    requires IsCount(d, n) && AllDigits(e) && (e == "" || IsCount(e, Value(e)))
    ensures Lex(s) == Put(Range(n, if e == "" then None else Some(Value(e))), Lex(rest))
  {
    DigitsOnly(d);
    DigitsOnly(e);
    assert Bound(e, None) == Ok(if e == "" then None else Some(Value(e)));
    hide *;
    PartsOf2(d, n, e);
    assert d + ("," + (e + ("}" + rest))) == (d + ("," + e)) + ("}" + rest);
    assert '}' !in d + ("," + e);
    BraceCut(s, d + ("," + e), rest, n, if e == "" then None else Some(Value(e)));
  }

  lemma RangeCut(s: string)
    requires s != "" && s[0] == '{' && ReadRange(s).Some?
    ensures
      var (q, rest) := ReadRange(s).value;
      q.Times? && Lex(s) == Put(Range(q.min, if q.max.AtMost? then Some(q.max.n) else None), Lex(rest))
  {
    RangeIs(s);
    CountShape(s[1..]);
    var d := ReadDigits(s[1..]).0;
    var (min, more) := ReadCount(s[1..]).value;
    hide ReadRange, ReadCount, ReadDigits, Lex, Put;
    if more[0] == '}' {
      ExactCut(s, d, more, min);
    } else if more[1] == '}' {
      assert more == "," + ("" + ("}" + more[2..]));
      TwoCut(s, d, min, "", more[2..]);
    } else {
      hide IsCount;
      BetweenCut(s, d, min, more);
    }
  }

  lemma BetweenCut(s: string, d: string, min: nat, more: string)
    requires s != "" && s[0] == '{' && s[1..] == d + more && IsCount(d, min) && more != "" && more[0] == ','
    requires ReadCount(more[1..]).Some? && ReadCount(more[1..]).value.1 != "" && ReadCount(more[1..]).value.1[0] == '}'
    ensures
      var (n, last) := ReadCount(more[1..]).value;
      Lex(s) == Put(Range(min, Some(n)), Lex(last[1..]))
  {
    CountShape(more[1..]);
    var e, last := ReadDigits(more[1..]).0, ReadCount(more[1..]).value.1;
    hide ReadCount, ReadDigits, Lex, Put;
    assert last == "}" + last[1..];
    assert more == "," + more[1..];
    TwoCut(s, d, min, e, last[1..]);
  }

  /** The marks of a quantifier that is read. */
  lemma MarksAre(s: string)
    requires s != "" && s[0] in "?*+"
    ensures
      var lazy := |s| > 1 && s[1] == '?';
      var (q, rest) := ReadQuant(s);
      && QuantLexemes(q) == (if lazy then [Mark(s[0]), Mark('?')] else [Mark(s[0])])
      && rest == if lazy then s[2..] else s[1..]
  {
    hide ReadRange;
  }

  lemma MarkCut(s: string)
    requires s != "" && s[0] in "?*+"
    ensures Lex(s) == Before(QuantLexemes(ReadQuant(s).0), Lex(ReadQuant(s).1))
  {
    MarksAre(s);
    LexOne(s);
    assert s[0] != ')' && s[0] != '|';
    hide *;
    PutBefore(Mark(s[0]), [], Lex(s[1..]));
    if |s| > 1 && s[1] == '?' {
      assert s[1..][0] == '?' && s[1..][1..] == s[2..];
      LexOne(s[1..]);
      PutBefore(Mark('?'), [], Lex(s[2..]));
      PutBefore(Mark(s[0]), [Mark('?')], Lex(s[2..]));
      assert [Mark(s[0]), Mark('?')] == [Mark(s[0])] + [Mark('?')];
    }
  }

  lemma QuantCut(s: string)
    ensures
      var (q, rest) := ReadQuant(s);
      Lex(s) == Before(QuantLexemes(q), Lex(rest))
  {
    hide Lex, Put, Before, ReadRange;
    if s != "" && s[0] in "?*+" {
      hide QuantLexemes, ReadQuant;
      MarkCut(s);
    } else if s != "" && s[0] == '{' && ReadRange(s).Some? {
      RangeCut(s);
      var (q, rest) := ReadRange(s).value;
      PutBefore(Range(q.min, if q.max.AtMost? then Some(q.max.n) else None), [], Lex(rest));
    } else {
      BeforeNone(Lex(s));
    }
  }

  lemma {:induction false} BaseCut(s: string)
    requires s != "" && ReadBase(s).Some?
    ensures var (b, rest) := ReadBase(s).value; Lex(s) == Before(ShowBase(b), Lex(rest))
    decreases |s|, 0
  {
    var (b, rest) := ReadBase(s).value;
    if s[0] == '(' {
      var inner := if "(?:" <= s then s[3..] else s[1..];
      AnyCut(inner);
      var (bs, closed) := ReadAny(inner).value;
      assert b == Sub(bs) && closed[0] == ')' && rest == closed[1..];
      assert ShowBase(b) == [Open] + ShowAny(bs) + [Close];
      hide *;
      LexOpen(s);
      LexOne(closed);
      GroupLexemes(bs, Lex(rest));
    } else {
      hide Lex, ReadAny, ReadClass, Put, Before;
      if s[0] == '[' {
        LexClass(s);
      } else if s[0] == '\\' {
        LexBackslash(s);
      } else {
        LexPlain(s);
        assert s[..1] == [s[0]];
      }
      PutBefore(Sym(b.text), [], Lex(rest));
    }
  }

  lemma GroupLexemes(bs: seq<Branch>, r: Result<seq<Lexeme>>)
    ensures Put(Open, Before(ShowAny(bs), Put(Close, r))) == Before([Open] + ShowAny(bs) + [Close], r)
  {
    PutBefore(Close, [], r);
    BeforeBoth(ShowAny(bs), [Close], r);
    PutBefore(Open, ShowAny(bs) + [Close], r);
    assert [Open] + (ShowAny(bs) + [Close]) == [Open] + ShowAny(bs) + [Close];
    hide Put, Before, ShowAny;
  }

  lemma {:induction false} ItemsCut(s: string)
    requires ReadItems(s).Some?
    ensures var (items, rest) := ReadItems(s).value; Lex(s) == Before(ShowItems(items), Lex(rest))
    decreases |s|, 1
  {
    if s == "" || s[0] == '|' || s[0] == ')' {
      BeforeNone(Lex(s));
      hide Lex, Before;
    } else {
      BaseCut(s);
      var (b, behind) := ReadBase(s).value;
      QuantCut(behind);
      var (q, more) := ReadQuant(behind);
      ItemsCut(more);
      var (items, rest) := ReadItems(more).value;
      assert ReadItems(s).value == ([Item(b, q)] + items, rest);
      hide Lex, Before, ReadItems, ReadBase, ReadQuant, ShowBase, QuantLexemes, ShowItems;
      BeforeBoth(QuantLexemes(q), ShowItems(items), Lex(rest));
      BeforeBoth(ShowBase(b), QuantLexemes(q) + ShowItems(items), Lex(rest));
      ItemsLexemes(Item(b, q), items);
    }
  }

  lemma ItemsLexemes(item: Item, items: seq<Item>)
    ensures ShowItems([item] + items) == ShowBase(item.base) + (QuantLexemes(item.quant) + ShowItems(items))
  {
    assert ([item] + items)[1..] == items;
    hide ShowBase, QuantLexemes;
  }

  lemma {:induction false} AnyCut(s: string)
    requires ReadAny(s).Some?
    ensures var (bs, rest) := ReadAny(s).value; Lex(s) == Before(ShowAny(bs), Lex(rest))
    decreases |s|, 2
  {
    ItemsCut(s);
    var (items, behind) := ReadItems(s).value;
    var (bs, rest) := ReadAny(s).value;
    if behind == "" || behind[0] != '|' {
      assert bs == [Branch(items)] && rest == behind;
      hide Lex, Before, ReadItems, ReadAny, ShowItems;
    } else {
      AnyCut(behind[1..]);
      var others := ReadAny(behind[1..]).value.0;
      assert bs == [Branch(items)] + others && rest == ReadAny(behind[1..]).value.1 && others != [];
      hide *;
      LexOne(behind);
      PutBefore(Bar, ShowAny(others), Lex(rest));
      BeforeBoth(ShowItems(items), [Bar] + ShowAny(others), Lex(rest));
      AnyLexemes(items, others);
    }
  }

  lemma AnyLexemes(items: seq<Item>, others: seq<Branch>)
    requires others != []
    ensures ShowAny([Branch(items)] + others) == ShowItems(items) + ([Bar] + ShowAny(others))
  {
    var bs := [Branch(items)] + others;
    assert bs[1..] == others && bs[0].items == items;
    hide ShowItems;
  }

  /** A text that is a pattern is cut into the lexemes of the pattern. */
  lemma PatternCut(text: string, branches: seq<Branch>)
    requires IsPattern(text, branches)
    ensures Lex(text) == Ok(ShowAny(branches))
  {
    AnyCut(text);
    assert Lex("") == Ok([]) && ShowAny(branches) + [] == ShowAny(branches);
  }

  // ----- its symbols -----

  lemma {:induction false} ClassAgain(s: string)
    requires ReadClass(s).Some?
    ensures ReadClass(ReadClass(s).value.0) == Some((ReadClass(s).value.0, ""))
    decreases |s|
  {
    var (a, rest) := ReadClass(s).value;
    assert a + rest == s && a[0] == s[0];
    if s[0] == ']' {
      assert a[..1] == a && a[1..] == "";
    } else {
      var n := if s[0] == '\\' then 2 else 1;
      var (b, _) := ReadClass(s[n..]).value;
      ClassAgain(s[n..]);
      assert a == s[..n] + b && a[n..] == b && a[..n] == s[..n];
    }
  }

  lemma ClassIsSymbol(s: string)
    requires ReadClass(s).Some?
    ensures IsSymbol("[" + ReadClass(s).value.0)
  {
    ClassAgain(s);
    var a := ReadClass(s).value.0;
    assert ("[" + a)[1..] == a;
    hide ReadClass;
  }

  lemma {:induction false} BaseSymbols(s: string)
    requires s != "" && ReadBase(s).Some?
    ensures SymbolsOkBase(ReadBase(s).value.0)
    decreases |s|, 0
  {
    if s[0] == '(' {
      AnySymbols(if "(?:" <= s then s[3..] else s[1..]);
    } else if s[0] == '[' {
      ClassIsSymbol(s[1..]);
      hide ReadClass, IsSymbol;
    } else {
      hide ReadClass;
    }
  }

  lemma {:induction false} ItemsSymbols(s: string)
    requires ReadItems(s).Some?
    ensures SymbolsOkItems(ReadItems(s).value.0)
    decreases |s|, 1
  {
    if s != "" && s[0] != '|' && s[0] != ')' {
      BaseSymbols(s);
      var (b, behind) := ReadBase(s).value;
      var (q, more) := ReadQuant(behind);
      ItemsSymbols(more);
      var items := ReadItems(more).value.0;
      var all := ReadItems(s).value.0;
      assert all == [Item(b, q)] + items;
      assert all[0] == Item(b, q) && all[1..] == items;
      hide ReadItems, ReadBase, ReadQuant, SymbolsOkBase;
    }
  }

  /** What a pattern is read from are literals, escapes and classes. */
  lemma {:induction false} AnySymbols(s: string)
    requires ReadAny(s).Some?
    ensures SymbolsOk(ReadAny(s).value.0)
    decreases |s|, 2
  {
    ItemsSymbols(s);
    var (items, behind) := ReadItems(s).value;
    if behind != "" && behind[0] == '|' {
      AnySymbols(behind[1..]);
    }
    hide ReadItems, SymbolsOkItems;
  }

  // ----- from text to text -----

  /** The text is a pattern whose group has the language of the rewriting. */
  ghost predicate Searches(text: string, branches: seq<Branch>) {
    exists group :: IsPattern(text, Around(group)) && HasLanguage(group, branches)
  }

  ghost predicate HasLanguage(group: seq<Branch>, branches: seq<Branch>) {
    forall m: Matcher, x :: MatchAny(m, group, x) <==> In(m, ReversedAny(branches), x)
  }

  lemma TextSearches(branches: seq<Branch>)
    requires Rewritable(branches) && Proper(branches) && SymbolsOk(branches)
    ensures Searches("(" + RxText(ReversedAny(branches)) + ")[\\s\\S]*", branches)
  {
    TextIsRead(branches);
    var r := ReversedAny(branches);
    var group := AltsRead(r);
    assert WholeRead(branches) == Around(group);
    hide In, MatchAny, AltsForm, AltsRead, ReversedAny, RxText, IsPattern;
    forall m: Matcher, x ensures MatchAny(m, group, x) <==> In(m, r, x) {
      AltsSame(m, r, x);
    }
    assert HasLanguage(group, branches);
  }

  /** `regex_to_reversed_partial_regex`, on characters. */
  method ReversedPartialRegex(pattern: string) returns (r: Result<string>)
    ensures
      var lexemes := Lex(pattern);
      r == if lexemes.Ok? && Rewrite(lexemes.value).Ok? && Rewrite(lexemes.value).value.1 == []
           then Ok("(" + Rewrite(lexemes.value).value.0 + ")[\\s\\S]*") else Invalid
    ensures forall branches :: IsPattern(pattern, branches) && Rewritable(branches) && Proper(branches) ==>
              r.Ok? && Searches(r.value, branches)
  {
    hide *;
    var lexemes := Lexemes(pattern);
    if lexemes.Invalid? {
      forall branches | IsPattern(pattern, branches) ensures false {
        PatternCut(pattern, branches);
      }
      return Invalid;
    }
    r := ToReversedPartialRegex(lexemes.value);
    forall branches | IsPattern(pattern, branches) && Rewritable(branches) && Proper(branches)
      ensures r.Ok? && Searches(r.value, branches)
    {
      PatternCut(pattern, branches);
      PatternSymbols(pattern, branches);
      RewriteAny(branches, []);
      assert ShowAny(branches) + [] == ShowAny(branches);
      TextSearches(branches);
    }
  }

  lemma PatternSymbols(pattern: string, branches: seq<Branch>)
    requires IsPattern(pattern, branches)
    ensures SymbolsOk(branches)
  {
    AnySymbols(pattern);
    hide ReadAny, SymbolsOk;
  }

  /** What a search with the returned text reports: wherever the rest of the input begins a match of
      the pattern, the group accepts that rest, reversed; and where groups may only be left early or
      end their sequence, it accepts nothing else. */
  lemma SearchFinds(m: Matcher, branches: seq<Branch>, text: string, input: string, begin: nat)
    requires Rewritable(branches) && Searches(text, branches) && begin < |input|
    ensures exists group ::
      && IsPattern(text, Around(group))
      && (BeginsMatch(m, branches, input[begin..]) ==> MatchAny(m, group, Rev(input[begin..])))
      && (Fits(branches) && Inhabited(m, branches) ==>
            (MatchAny(m, group, Rev(input[begin..])) <==> BeginsMatch(m, branches, input[begin..])))
  {
    var group :| IsPattern(text, Around(group)) && HasLanguage(group, branches);
    var u := input[begin..];
    RevTwice(u);
    if BeginsMatch(m, branches, u) {
      PartialComplete(m, branches, u);
    }
    if Fits(branches) && Inhabited(m, branches) {
      PartialExact(m, branches, Rev(u));
    }
    assert MatchAny(m, group, Rev(u)) <==> In(m, ReversedAny(branches), Rev(u));
    hide *;
    assert IsPattern(text, Around(group));
  }
}
