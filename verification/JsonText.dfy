/** JSON strings as text (RFC 8259, section 7): what is written for a name is read back as that name,
    and which texts the built-in rule for one character of a string accepts. */
module JsonText {
  import opened Common
  import opened Gbnf
  import opened GrammarText
  import NotStrings

  /** One character of a string as it is spelled there, and what follows: unescaped, a short escape,
      or a code unit in four hex digits. */
  function ReadUnit(src: string): (r: Option<(nat, string)>)
    ensures r.Some? ==> |r.value.1| < |src|
  {
    if src == "" || src[0] < ' ' || src[0] == '"' then None
    else if src[0] != '\\' then Some((src[0] as int, src[1..]))
    else if |src| == 1 then None
    else
      match src[1]
      case '"' => Some((0x22, src[2..]))
      case '\\' => Some((0x5c, src[2..]))
      case '/' => Some((0x2f, src[2..]))
      case 'b' => Some((0x8, src[2..]))
      case 'f' => Some((0xc, src[2..]))
      case 'n' => Some((0xa, src[2..]))
      case 'r' => Some((0xd, src[2..]))
      case 't' => Some((0x9, src[2..]))
      case 'u' => ReadHex(src[2..], 4, 0)
      case _ => None
  }

  /** The rest of a string behind its opening quote, and what follows the closing one. */
  function ReadString(src: string): (r: Option<(seq<nat>, string)>)
    decreases |src|
  {
    if src != "" && src[0] == '"' then Some(([], src[1..]))
    else
      var unit := ReadUnit(src);
      if unit.None? then None else Then(unit.value.0, ReadString(unit.value.1))
  }

  // ----- names -----

  lemma HexBack(v: nat)
    requires v < 16
    ensures HexDigit(HexText(v)) == Some(v)
  {}

  lemma ControlRead(c: char, rest: string)
    requires c < ' '
    ensures ReadHex("00" + [HexText(c as int / 16), HexText(c as int % 16)] + rest, 4, 0) == Some((c as int, rest))
  {
    var a, b := HexText(c as int / 16), HexText(c as int % 16);
    HexBack(c as int / 16);
    HexBack(c as int % 16);
    var s0 := "00" + [a, b] + rest;
    var s1, s2, s3 := s0[1..], s0[2..], s0[3..];
    assert s1[1..] == s2 && s2[1..] == s3 && s3[1..] == rest;
    assert s0[0] == '0' && s1[0] == '0' && s2[0] == a && s3[0] == b;
    assert ReadHex(s3, 1, c as int / 16) == Some((c as int, rest)) by {
      assert ReadHex(rest, 0, c as int) == Some((c as int, rest));
    }
    assert ReadHex(s2, 2, 0) == ReadHex(s3, 1, c as int / 16);
    assert ReadHex(s1, 3, 0) == ReadHex(s2, 2, 0);
  }

  lemma UnitRead(c: char, rest: string)
    ensures ReadUnit(DumpChar(c) + rest) == Some((c as int, rest))
    ensures DumpChar(c) != "" && DumpChar(c)[0] != '"'
  {
    var s := DumpChar(c);
    if s == [c] {
      assert (s + rest)[1..] == rest;
    } else if |s| == 2 {
      assert (s + rest)[2..] == rest;
    } else {
      ControlRead(c, rest);
      assert (s + rest)[2..] == "00" + [HexText(c as int / 16), HexText(c as int % 16)] + rest;
    }
  }

  lemma ReadStep(src: string, code: nat, rest: string)
    requires src != "" && src[0] != '"' && ReadUnit(src) == Some((code, rest))
    ensures ReadString(src) == Then(code, ReadString(rest))
  {
    hide ReadUnit;
  }

  lemma NameStep(name: string, end: string)
    requires name != ""
    ensures DumpChars(name) + end == DumpChar(name[0]) + (DumpChars(name[1..]) + end)
  {
    CharsSplit(name);
    hide *;
    Assoc(DumpChar(name[0]), DumpChars(name[1..]), end);
  }

  lemma CharsSplit(name: string)
    requires name != ""
    ensures DumpChars(name) == DumpChar(name[0]) + DumpChars(name[1..])
  {
    hide DumpChar;
  }

  lemma Assoc(a: string, b: string, c: string)
    ensures (a + b) + c == a + (b + c)
  {}

  lemma CodesStep(name: string)
    requires name != ""
    ensures Codes(name) == [name[0] as int] + Codes(name[1..])
  {}

  lemma NameEnds(name: string, rest: string)
    requires name == ""
    ensures ReadString(DumpChars(name) + ("\"" + rest)) == Some((Codes(name), rest))
  {
    var end := "\"" + rest;
    assert DumpChars(name) + end == end && end[1..] == rest;
    assert Codes(name) == [];
  }

  lemma ThenSome(code: nat, codes: seq<nat>, rest: string)
    ensures Then(code, Some((codes, rest))) == Some(([code] + codes, rest))
  {}

  lemma {:induction false} CharsRead(name: string, rest: string)
    ensures ReadString(DumpChars(name) + ("\"" + rest)) == Some((Codes(name), rest))
  {
    hide *;
    if name == "" {
      NameEnds(name, rest);
    } else {
      CharsRead(name[1..], rest);
      var others := DumpChars(name[1..]) + ("\"" + rest);
      NameStep(name, "\"" + rest);
      CodesStep(name);
      UnitRead(name[0], others);
      assert (DumpChar(name[0]) + others)[0] == DumpChar(name[0])[0];
      ReadStep(DumpChar(name[0]) + others, name[0] as int, others);
      ThenSome(name[0] as int, Codes(name[1..]), rest);
    }
  }

  /** What is written for a name is its JSON string, whatever its characters. */
  lemma DumpReads(name: string, rest: string)
    ensures Dump(name) == "\"" + (DumpChars(name) + "\"")
    ensures ReadString(DumpChars(name) + ("\"" + rest)) == Some((Codes(name), rest))
  {
    CharsRead(name, rest);
    hide DumpChars, ReadString, Codes;
  }

  // ----- one character in the grammar -----

  predicate IsHex(c: char) {
    HexDigit(c).Some?
  }

  lemma HexAre(c: char)
    ensures c in "0123456789abcdefABCDEF" <==> IsHex(c)
  {}

  lemma {:induction false} DigitsRead(w: string, n: nat, v: nat)
    requires |w| == n
    ensures ReadHex(w, n, v).Some? <==> forall i :: 0 <= i < n ==> IsHex(w[i])
    ensures ReadHex(w, n, v).Some? ==> ReadHex(w, n, v).value.1 == ""
  {
    if n > 0 && IsHex(w[0]) {
      DigitsRead(w[1..], n - 1, 16 * v + HexDigit(w[0]).value);
      hide IsHex;
      assert forall i :: 0 < i < n ==> w[i] == w[1..][i - 1];
    }
  }

  lemma CountedChars(env: Env, chars: string, k: nat, w: string)
    ensures Accepts(env, Repeat(AnyOf(chars), k, AtMost(k)), w) <==> |w| == k && forall i :: 0 <= i < k ==> w[i] in chars
  {
    var body := AnyOf(chars);
    if Accepts(env, Repeat(body, k, AtMost(k)), w) {
      var ws: seq<string> :| Within(|ws|, k, AtMost(k)) && Concat(ws) == w
                             && forall i :: 0 <= i < |ws| ==> Accepts(env, body, ws[i]);
      ConcatOfSingles(ws);
    }
    if |w| == k && forall i :: 0 <= i < k ==> w[i] in chars {
      ConcatSingles(w);
      var ws := Singles(w);
      assert forall i :: 0 <= i < |ws| ==> Accepts(env, body, ws[i]);
    }
  }

  const DIGITS := "0123456789abcdefABCDEF"
  const MARKS := "\"\\bfnrt"

  lemma FourHexIff(env: Env, w: string)
    ensures Accepts(env, Repeat(AnyOf(DIGITS), 4, AtMost(4)), w) <==> |w| == 4 && forall i :: 0 <= i < 4 ==> IsHex(w[i])
  {
    forall c: char ensures c in DIGITS <==> IsHex(c) {
      HexAre(c);
    }
    hide *;
    CountedChars(env, DIGITS, 4, w);
  }

  /** The whole of `w` spells one character. */
  predicate Spells(w: string) {
    ReadUnit(w).Some? && ReadUnit(w).value.1 == ""
  }

  lemma EscapedParts(env: Env, marks: string, u: string, hex: Expr, w: string)
    ensures Accepts(env, Group(Alt(AnyOf(marks), Seq(Lit(u), hex))), w) <==>
      (|w| == 1 && w[0] in marks) || (u <= w && Accepts(env, hex, w[|u|..]))
  {
    GroupSame(env, Alt(AnyOf(marks), Seq(Lit(u), hex)), w);
    AltCases(env, AnyOf(marks), Seq(Lit(u), hex), w);
    SeqOfLit(env, u, hex, w);
  }

  /** Behind a backslash: one of the marks, or `u` and four hex digits. */
  predicate BehindBackslash(w: string) {
    (|w| == 1 && w[0] in MARKS) || (|w| == 5 && w[0] == 'u' && forall i :: 1 <= i < 5 ==> IsHex(w[i]))
  }

  lemma EscapedIs(env: Env, w: string)
    ensures Accepts(env, NotStrings.Escaped(), w) <==> BehindBackslash(w)
  {
    var u, hex := "u", Repeat(AnyOf(DIGITS), 4, AtMost(4));
    assert NotStrings.Escaped() == Group(Alt(AnyOf(MARKS), Seq(Lit(u), hex)));
    assert u <= w <==> |w| > 0 && w[0] == 'u';
    EscapedParts(env, MARKS, u, hex, w);
    if u <= w {
      FourHexIff(env, w[1..]);
      hide Accepts, IsHex, NotStrings.Escaped;
      assert |w| == 5 ==> forall i :: 1 <= i < 5 ==> w[i] == w[1..][i - 1];
      assert |w| == 5 ==> forall i :: 0 <= i < 4 ==> w[1..][i] == w[i + 1];
    }
  }

  lemma ExcludedIs(c: char)
    ensures c in NotStrings.Excluded() <==> c < ' ' || c == '"' || c == '\\' || c == 0x7f as char
  {
    var controls := NotStrings.Controls();
    if c < ' ' {
      assert controls[c as int] == c;
    }
    if c in controls {
      var i :| 0 <= i < |controls| && controls[i] == c;
    }
  }

  lemma UnescapedIff(w: string)
    requires w == "" || w[0] != '\\'
    ensures Spells(w) <==> |w| == 1 && w[0] >= ' ' && w[0] != '"'
  {}

  lemma EscapeIff(w: string)
    requires |w| > 0 && w[0] == '\\'
    ensures Spells(w) <==> BehindBackslash(w[1..]) || w[1..] == "/"
  {
    if |w| > 1 {
      assert w[1..][0] == w[1];
      if w[1] == 'u' {
        if |w| == 6 {
          DigitsRead(w[2..], 4, 0);
          assert forall i :: 0 <= i < 4 ==> w[2..][i] == w[1..][i + 1];
          assert forall i :: 1 <= i < 5 ==> w[1..][i] == w[2..][i - 1];
        }
        hide ReadHex, IsHex;
      } else {
        hide ReadHex, IsHex;
      }
    }
  }

  /** The built-in rule `char` accepts exactly the spellings of one character in a JSON string, but
      for a delete character and the escaped slash. */
  lemma CharRuleIs(env: Env, w: string)
    ensures Accepts(env, NotStrings.CharRule(), w) <==> Spells(w) && w != [0x7f as char] && w != "\\/"
  {
    var escape := NotStrings.Escaped();
    AltCases(env, NoneOf(NotStrings.Excluded()), Seq(Class('\\', '\\'), escape), w);
    NotStrings.NoneOfCases(env, NotStrings.Excluded(), w);
    SeqOfClass(env, '\\', '\\', escape, w);
    hide Accepts, NotStrings.Excluded, NotStrings.Escaped, Spells, BehindBackslash;
    if |w| > 0 {
      ExcludedIs(w[0]);
      EscapedIs(env, w[1..]);
    }
    if |w| > 0 && w[0] == '\\' {
      EscapeIff(w);
      assert w == "\\/" <==> w[1..] == "/";
      NothingBehind();
    } else {
      UnescapedIff(w);
    }
  }

  lemma NothingBehind()
    ensures !BehindBackslash("") && !BehindBackslash("/")
  {
    assert '/' !in MARKS;
  }
}
